/**
 * `make_reply` (app/services/reply.py, lines 141-265): the early fallbacks, the
 * prompt, the upstream call, the cleaning, and the post-processing that writes the
 * session's `POSTED_COMMENTS` table.
 *
 * The chat completion call is a parameter (`Upstream`: what the call would yield),
 * the API key is a parameter, and each `random.choice` is an index into its list
 * (`Picks`). `Respond` is the specification of one call; `ReplyService.MakeReply`
 * performs it step by step on the table it owns.
 */
module Reply {
  import opened Strings
  import opened Redaction
  import opened Cleaning
  import opened Prompt

  /** `FALLBACK_COMMENTS` (app/config.py, lines 16-19). */
  const FallbackComments: seq<string> := [
    "Main-character energy \U{2728}", "Love this vibe \U{1F60D}", "Absolute fire \U{1F525}",
    "Gym goals! \U{1F4AA}", "Chef's kiss \U{1F618}", "Instant mood-boost \U{1F4AF}"
  ]

  /** The emojis one of which is appended to a reply without any (line 243). */
  const Emojis: seq<string> := [
    "\U{2728}", "\U{1F525}", "\U{1F64C}", "\U{1F44D}", "\U{1F60A}", "\U{1F4AF}", "\U{1F31F}", "\U{2764}\U{FE0F}"
  ]

  /** The suffixes one of which marks a reply already posted (line 249). */
  const DuplicateSuffixes: seq<string> := [" \U{2728}", " \U{1F525}", " \U{1F64C}"]

  /** What a long reply is cut down to: more than `MaxWords` words keep `KeptWords`. */
  const MaxWords := 15
  const KeptWords := 12

  /** The returned reply is cut to this many characters. */
  const MaxLength := 80

  /** The three `random.choice` draws of one call, as indices into their lists. */
  datatype Picks = Picks(fallback: nat, emoji: nat, suffix: nat)

  predicate ValidPicks(p: Picks)
  {
    p.fallback < |FallbackComments| && p.emoji < |Emojis| && p.suffix < |DuplicateSuffixes|
  }

  /** What the chat completion call yields. */
  datatype Upstream =
    | Answered(choices: seq<Option<string>>)  // the `choices` list: each choice's message content, None when absent
    | Failed  // a network error, a timeout, a body that is not JSON, a content that is not a string

  /** What `make_reply` does: return a reply, or raise out of the retry decorator (a `RetryError` wrapping the `KeyError`). */
  datatype Outcome = Returned(text: string) | Raises

  /** `random.choice(FALLBACK_COMMENTS)`, the reply of every handled failure. */
  function Fallback(picks: Picks): (r: Outcome)
    requires ValidPicks(picks)
    ensures r.Returned? && r.text in FallbackComments
  {
    Returned(FallbackComments[picks.fallback])
  }

  /** The write `POSTED_COMMENTS[post] = reply`. */
  datatype Stored = Stored(post: string, reply: string)

  /** One call: its outcome, the user prompt sent upstream (if any), and the table write (if any). */
  datatype Response = Response(outcome: Outcome, prompt: Option<string>, stored: Option<Stored>)

  // ---------------------------------------------------------------------------
  // Post-processing

  predicate IsQuote(c: char)
  {
    c == '"' || c == '\''
  }

  predicate AllQuotes(s: string)
  {
    forall k :: 0 <= k < |s| ==> IsQuote(s[k])
  }

  /** r is the slice of s at i, with only quotation marks before and after it. */
  predicate QuotesAround(s: string, r: string, i: int)
  {
    0 <= i && i + |r| <= |s| && r == s[i..i + |r|] && AllQuotes(s[..i]) && AllQuotes(s[i + |r|..])
  }

  /** `s.lstrip('"\'')`. */
  function StripQuotesStart(s: string): (r: string)
    ensures |r| <= |s| && r == s[|s| - |r|..]
    ensures r == [] || !IsQuote(r[0])
    ensures forall k :: 0 <= k < |s| - |r| ==> IsQuote(s[k])
    decreases |s|
  {
    if s != [] && IsQuote(s[0]) then StripQuotesStart(s[1..]) else s
  }

  /** `s.rstrip('"\'')`. */
  function StripQuotesEnd(s: string): (r: string)
    ensures |r| <= |s| && r == s[..|r|]
    ensures r == [] || !IsQuote(r[|r| - 1])
    ensures forall k :: |r| <= k < |s| ==> IsQuote(s[k])
    decreases |s|
  {
    if s != [] && IsQuote(s[|s| - 1]) then StripQuotesEnd(s[..|s| - 1]) else s
  }

  /** `s.strip('"\'')`: quotation marks removed from both ends, nothing else. */
  function StripQuotes(s: string): (r: string)
    ensures exists i :: QuotesAround(s, r, i)
    ensures r == [] || (!IsQuote(r[0]) && !IsQuote(r[|r| - 1]))
  {
    var t := StripQuotesStart(s);
    var r := StripQuotesEnd(t);
    QuotesBothEnds(s, t, r);
    r
  }

  /** Quotation marks removed from the front of s, then from the back of what is left, leave a slice between quotation marks. */
  lemma QuotesBothEnds(s: string, t: string, r: string)
    requires |t| <= |s| && t == s[|s| - |t|..] && forall k :: 0 <= k < |s| - |t| ==> IsQuote(s[k])
    requires |r| <= |t| && r == t[..|r|] && forall k :: |r| <= k < |t| ==> IsQuote(t[k])
    requires (t == [] || !IsQuote(t[0])) && (r == [] || !IsQuote(r[|r| - 1]))
    ensures QuotesAround(s, r, |s| - |t|)
    ensures r == [] || (!IsQuote(r[0]) && !IsQuote(r[|r| - 1]))
  {
    assert r == s[|s| - |t|..|s| - |t| + |r|];
    var tail := s[|s| - |t| + |r|..];
    forall k | 0 <= k < |tail| ensures IsQuote(tail[k]) {
      assert tail[k] == t[|r| + k];
    }
  }

  /**
   * `first_choice.get("message", {}).get("content", "").strip().strip('"\'')`: a slice
   * of the content, empty without one, that neither starts nor ends with a quotation mark.
   */
  function RawReply(content: Option<string>): (r: string)
    ensures content.None? ==> r == []
    ensures r == [] || (!IsQuote(r[0]) && !IsQuote(r[|r| - 1]))
    ensures Contains(GetOr(content, ""), r)
  {
    var s := GetOr(content, "");
    StrippedOccurs(s);
    StripQuotes(Strip(s))
  }

  /** What both strips leave of s occurs in s. */
  lemma StrippedOccurs(s: string)
    ensures Contains(s, StripQuotes(Strip(s)))
  {
    var t := Strip(s);
    var i :| SliceBetweenSpaces(s, t, i);
    assert OccursAt(s, t, i);
    QuotesStrippedOccurs(t);
    ContainsTrans(s, t, StripQuotes(t));
  }

  lemma QuotesStrippedOccurs(t: string)
    ensures Contains(t, StripQuotes(t))
  {
    var r := StripQuotes(t);
    var j :| QuotesAround(t, r, j);
    assert OccursAt(t, r, j);
  }

  /** The first character above code point 127, if any. */
  function FirstNonAscii(s: string): (r: Option<char>)
    ensures r.None? <==> !HasNonAscii(s)
    ensures r.Some? ==> exists i :: 0 <= i < |s| && s[i] == r.value && IsNonAscii(s[i])
                                    && forall j :: 0 <= j < i ==> !IsNonAscii(s[j])
  {
    if s == [] then None
    else if IsNonAscii(s[0]) then Some(s[0])
    else
      var r := FirstNonAscii(s[1..]);
      assert HasNonAscii(s) ==> HasNonAscii(s[1..]) by {
        if HasNonAscii(s) {
          var i :| 0 <= i < |s| && IsNonAscii(s[i]);
          assert s[1..][i - 1] == s[i];
        }
      }
      assert r.Some? ==> exists i :: 0 <= i < |s| && s[i] == r.value && IsNonAscii(s[i])
                                     && forall j :: 0 <= j < i ==> !IsNonAscii(s[j]) by {
        if r.Some? {
          var i :| 0 <= i < |s| - 1 && s[1..][i] == r.value && IsNonAscii(s[1..][i])
                   && forall j :: 0 <= j < i ==> !IsNonAscii(s[1..][j]);
          assert s[i + 1] == r.value;
          forall j | 1 <= j < i + 1 ensures !IsNonAscii(s[j]) {
            assert s[j] == s[1..][j - 1];
          }
        }
      }
      r
  }

  /** `"".join([c for c in s if ord(c) > 127][:1] or "✨")`. */
  function FirstEmojiOr(s: string): (r: string)
    ensures HasNonAscii(s) ==> |r| == 1 && r[0] in s && IsNonAscii(r[0])
    ensures !HasNonAscii(s) ==> r == Emojis[0]
  {
    match FirstNonAscii(s)
    case Some(c) => [c]
    case None => Emojis[0]
  }

  /**
   * Lines 234-237: a reply of more than 15 words keeps its first 12 words, single-spaced,
   * followed by its first emoji (or the default one). The emoji is a word of its own
   * unless it is itself whitespace, which a reply with only `' '` as whitespace rules out.
   */
  function Shorten(c: string): (r: string)
    ensures |Words(c)| <= MaxWords ==> r == c
    ensures |Words(c)| > MaxWords ==> HasNonAscii(r) && Words(r) == Words(c)[..KeptWords] + Words(FirstEmojiOr(c))
    ensures |Words(c)| > MaxWords && PlainSpaces(c) ==> Words(r) == Words(c)[..KeptWords] + [FirstEmojiOr(c)]
  {
    var words := Words(c);
    if |words| > MaxWords then
      var e := FirstEmojiOr(c);
      assert IsNonAscii(e[0]);
      var kept := words[..KeptWords];
      var r := JoinWords(kept) + [' '] + e;
      assert r[|r| - 1] == e[0];
      WordsOfJoin(kept);
      WordsAtSpace(JoinWords(kept), ' ', e);
      EmojiIsWord(c);
      r
    else c
  }

  /** The emoji `Shorten` appends is one word, when it is not whitespace itself. */
  lemma EmojiIsWord(c: string)
    ensures !IsSpace(FirstEmojiOr(c)[0]) ==> Words(FirstEmojiOr(c)) == [FirstEmojiOr(c)]
    ensures PlainSpaces(c) ==> !IsSpace(FirstEmojiOr(c)[0])
  {
    var e := FirstEmojiOr(c);
    if !IsSpace(e[0]) {
      WordsOfWord(e);
    }
  }

  /** Lines 240-243: a reply without a character above code point 127 gains an emoji. */
  function AddEmoji(c: string, e: nat): (r: string)
    requires e < |Emojis|
    ensures HasNonAscii(r)
    ensures HasNonAscii(c) ==> r == c
    ensures !HasNonAscii(c) ==> r == c + " " + Emojis[e]
  {
    if HasNonAscii(c) then c
    else
      var r := c + " " + Emojis[e];
      assert r[|c| + 1] == Emojis[e][0];
      r
  }

  /** Lines 246-248: a reply already posted for some post gains one of the suffixes. */
  function Dedup(c: string, posted: map<string, string>, s: nat): (r: string)
    requires s < |DuplicateSuffixes|
    ensures c !in posted.Values ==> r == c
    ensures c in posted.Values ==> |r| > |c| && r[..|c|] == c && r[|c|..] in DuplicateSuffixes
    ensures HasNonAscii(c) ==> HasNonAscii(r)
  {
    if c in posted.Values then
      var r := c + DuplicateSuffixes[s];
      assert r[..|c|] == c && r[|c|..] == DuplicateSuffixes[s];
      assert HasNonAscii(c) ==> HasNonAscii(r) by {
        if HasNonAscii(c) {
          var i :| 0 <= i < |c| && IsNonAscii(c[i]);
          assert r[i] == c[i];
        }
      }
      r
    else c
  }

  /** Line 252: `" ".join(reply.split())[:80]`. */
  function Finalize(c: string): (r: string)
    ensures |r| <= MaxLength && Collapsed(r) && (r == [] || !IsSpace(r[0]))
    ensures |r| <= |Normalize(c)| && r == Normalize(c)[..|r|]
    ensures |Normalize(c)| <= MaxLength ==> r == Normalize(c)
    ensures |Normalize(c)| > MaxLength ==> |r| == MaxLength
  {
    var n := Normalize(c);
    var r := Take(n, MaxLength);
    CollapsedSlice(n, 0, |r|);
    assert r == n[0..|r|];
    r
  }

  /** The reply stored for a cleaned reply c: shortened, given an emoji, de-duplicated. */
  function Polish(c: string, posted: map<string, string>, picks: Picks): (r: string)
    requires ValidPicks(picks)
    ensures HasNonAscii(r)
  {
    Dedup(AddEmoji(Shorten(c), picks.emoji), posted, picks.suffix)
  }

  // ---------------------------------------------------------------------------
  // One call

  /** What the call yields once the prompt is sent: the outcome and the table write, if any. */
  datatype Answer = Answer(outcome: Outcome, stored: Option<Stored>)

  /**
   * Lines 190-265 once the prompt is built and a key is set: ask upstream, clean the
   * first choice, post-process it, store it under the post and return its final cut.
   * Every failure on the way (no choices, nothing left after cleaning, a caught
   * exception, a request without `postId` at line 250) answers with the fallback.
   */
  function Consult(postId: Option<string>, upstream: Upstream, picks: Picks, posted: map<string, string>): (a: Answer)
    requires ValidPicks(picks)
    ensures a.outcome.Returned?
    ensures a.stored.None? ==> a.outcome == Fallback(picks)
    ensures a.stored.Some? ==>
      && postId == Some(a.stored.value.post)
      && HasNonAscii(a.stored.value.reply)
      && a.outcome.text == Finalize(a.stored.value.reply)
    ensures a.stored.Some? <==>
      && postId.Some? && upstream.Answered? && upstream.choices != []
      && Cleaned(RawReply(upstream.choices[0])).Some?
      && Cleaned(RawReply(upstream.choices[0])).value != []
  {
    if upstream.Failed? || upstream.choices == [] then Answer(Fallback(picks), None)
    else Conclude(postId, Cleaned(RawReply(upstream.choices[0])), picks, posted)
  }

  /** Lines 233-265 given the cleaned reply: polish it, store it under the post, return its final cut. */
  function Conclude(postId: Option<string>, cleaned: Option<string>, picks: Picks, posted: map<string, string>): (a: Answer)
    requires ValidPicks(picks)
    ensures a.outcome.Returned?
    ensures a.stored.None? ==> a.outcome == Fallback(picks)
    ensures a.stored.Some? ==>
      && postId == Some(a.stored.value.post)
      && cleaned.Some? && a.stored.value.reply == Polish(cleaned.value, posted, picks)
      && a.outcome.text == Finalize(a.stored.value.reply)
    ensures a.stored.Some? <==> postId.Some? && cleaned.Some? && cleaned.value != []
  {
    var fallback := Answer(Fallback(picks), None);
    match cleaned
    case None => fallback
    case Some(c) =>
      if c == [] || postId.None? then fallback
      else
        var d := Polish(c, posted, picks);
        Answer(Returned(Finalize(d)), Some(Stored(postId.value, d)))
  }

  /** `make_reply(req)` against the table `posted`: the specification of `MakeReply`. */
  function Respond(req: Request, key: Option<string>, upstream: Upstream, picks: Picks,
                   posted: map<string, string>): Response
    requires ValidPicks(picks)
  {
    var fallback := Fallback(picks);
    if TextOf(req.original) == [] || TextOf(req.target) == [] then Response(fallback, None, None)
    else
      match UserPrompt(req)
      case None => Response(Raises, None, None)
      case Some(u) =>
        if !Configured(key) then Response(fallback, None, None)
        else
          var a := Consult(req.postId, upstream, picks, posted);
          Response(a.outcome, Some(u), a.stored)
  }

  /** Without an answer or a first choice, `Consult` answers with the fallback and writes nothing. */
  lemma ConsultFallsBack(postId: Option<string>, upstream: Upstream, picks: Picks, posted: map<string, string>)
    requires ValidPicks(picks)
    requires upstream.Failed? || upstream.choices == []
    ensures Consult(postId, upstream, picks, posted) == Answer(Fallback(picks), None)
  {
  }

  /** With a first choice, `Consult` concludes on that choice, cleaned. */
  lemma ConsultConcludes(postId: Option<string>, upstream: Upstream, picks: Picks, posted: map<string, string>)
    requires ValidPicks(picks)
    requires upstream.Answered? && upstream.choices != []
    ensures Consult(postId, upstream, picks, posted) == Conclude(postId, Cleaned(RawReply(upstream.choices[0])), picks, posted)
  {
  }

  /** Without a cleaned reply or a post id, `Conclude` answers with the fallback and writes nothing. */
  lemma ConcludeFallsBack(postId: Option<string>, cleaned: Option<string>, picks: Picks, posted: map<string, string>)
    requires ValidPicks(picks)
    requires cleaned.None? || cleaned.value == [] || postId.None?
    ensures Conclude(postId, cleaned, picks, posted) == Answer(Fallback(picks), None)
  {
  }

  /** With a cleaned reply and a post id, `Conclude` stores the polished reply and returns its final cut. */
  lemma ConcludeStores(post: string, cleaned: string, picks: Picks, posted: map<string, string>)
    requires ValidPicks(picks) && cleaned != []
    ensures var d := Polish(cleaned, posted, picks);
            Conclude(Some(post), Some(cleaned), picks, posted) == Answer(Returned(Finalize(d)), Some(Stored(post, d)))
  {
  }

  /** `ConcludeStores` in the form the method `Store` needs: its outcome and the table after it. */
  lemma StoreOutcome(postId: Option<string>, cleaned: Option<string>, picks: Picks, posted: map<string, string>, c: string)
    requires ValidPicks(picks) && postId.Some? && cleaned.Some? && cleaned.value != []
    requires c == Polish(cleaned.value, posted, picks)
    ensures var a := Conclude(postId, cleaned, picks, posted);
            a.outcome == Returned(Finalize(c)) && After(posted, a.stored) == posted[postId.value := c]
  {
    ConcludeStores(postId.value, cleaned.value, picks, posted);
  }

  /** The table after a call that made the write `stored`, if any. */
  function After(posted: map<string, string>, stored: Option<Stored>): map<string, string>
  {
    if stored.Some? then posted[stored.value.post := stored.value.reply] else posted
  }

  /** The reply service of one session: `POSTED_COMMENTS` is its state. */
  class ReplyService {
    /** `POSTED_COMMENTS`: post id to the reply stored for it. */
    var posted: map<string, string>

    constructor ()
      ensures posted == map[]
    {
      posted := map[];
    }

    /** `make_reply(req)`: returns the outcome and the user prompt sent upstream, if any. */
    method MakeReply(req: Request, key: Option<string>, upstream: Upstream, picks: Picks)
      returns (out: Outcome, sent: Option<string>)
      requires ValidPicks(picks)
      modifies this
      ensures var resp := Respond(req, key, upstream, picks, old(posted));
              out == resp.outcome && sent == resp.prompt && posted == After(old(posted), resp.stored)
    {
      var fallback := Fallback(picks);
      var originalText := TextOf(req.original);
      var targetText := TextOf(req.target);
      if originalText == [] || targetText == [] {
        return fallback, None;
      }
      var u := BuildUserPrompt(req);
      if u.None? {
        return Raises, None;
      }
      if !Configured(key) {
        return fallback, None;
      }
      sent := u;
      out := Deliver(req.postId, upstream, picks);
    }

    /** Lines 190-265 once the prompt is built and a key is set, writing the table at line 250. */
    method Deliver(postId: Option<string>, upstream: Upstream, picks: Picks) returns (out: Outcome)
      requires ValidPicks(picks)
      modifies this
      ensures var a := Consult(postId, upstream, picks, old(posted));
              out == a.outcome && posted == After(old(posted), a.stored)
    {
      if upstream.Failed? || upstream.choices == [] {
        ConsultFallsBack(postId, upstream, picks, posted);
        return Fallback(picks);
      }
      var reply := RawReply(upstream.choices[0]);
      var cleaned := CleanReply(reply);
      ConsultConcludes(postId, upstream, picks, posted);
      out := Store(postId, cleaned, picks);
    }

    /** Lines 233-265 given the cleaned reply: the table write at line 250 and the reply returned. */
    method Store(postId: Option<string>, cleaned: Option<string>, picks: Picks) returns (out: Outcome)
      requires ValidPicks(picks)
      modifies this
      ensures var a := Conclude(postId, cleaned, picks, old(posted));
              out == a.outcome && posted == After(old(posted), a.stored)
    {
      var fallback := Fallback(picks);
      if cleaned.None? || cleaned.value == [] {
        ConcludeFallsBack(postId, cleaned, picks, posted);
        return fallback;
      }
      var c := PolishReply(cleaned.value, picks);
      if postId.None? {
        ConcludeFallsBack(postId, cleaned, picks, posted);
        return fallback;
      }
      StoreOutcome(postId, cleaned, picks, posted, c);
      posted := posted[postId.value := c];
      out := Returned(Finalize(c));
    }

    /** Lines 233-249: shorten, add an emoji, mark a duplicate of a posted reply. */
    method PolishReply(cleaned: string, picks: Picks) returns (c: string)
      requires ValidPicks(picks)
      ensures c == Polish(cleaned, posted, picks)
    {
      c := cleaned;
      var words := Words(c);
      if |words| > MaxWords {
        c := JoinWords(words[..KeptWords]) + " " + FirstEmojiOr(c);
      }
      assert c == Shorten(cleaned);
      if !HasNonAscii(c) {
        c := c + " " + Emojis[picks.emoji];
      }
      assert c == AddEmoji(Shorten(cleaned), picks.emoji);
      if c in posted.Values {
        c := c + DuplicateSuffixes[picks.suffix];
      }
    }
  }

  // ---------------------------------------------------------------------------
  // Properties

  /**
   * Without both texts, or without an API key, the call answers with a fallback
   * comment, sends nothing upstream and writes nothing.
   */
  lemma EarlyFallback(req: Request, key: Option<string>, upstream: Upstream, picks: Picks, posted: map<string, string>)
    requires ValidPicks(picks)
    requires TextOf(req.original) == [] || TextOf(req.target) == [] || (!Configured(key) && !PromptRaises(req))
    ensures var resp := Respond(req, key, upstream, picks, posted);
            && resp.outcome.Returned? && resp.outcome.text in FallbackComments
            && resp.prompt.None? && resp.stored.None?
  {
  }

  /**
   * The call raises exactly when both texts are there but a key the prompt reads is
   * missing; it asks upstream exactly when the prompt was built and a key is set,
   * and then it sends that prompt.
   */
  lemma WhenUpstreamIsAsked(req: Request, key: Option<string>, upstream: Upstream, picks: Picks, posted: map<string, string>)
    requires ValidPicks(picks)
    ensures var resp := Respond(req, key, upstream, picks, posted);
            var ready := TextOf(req.original) != [] && TextOf(req.target) != [];
            && (resp.outcome.Raises? <==> ready && PromptRaises(req))
            && (resp.prompt.Some? <==> ready && !PromptRaises(req) && Configured(key))
            && (resp.prompt.Some? ==> resp.prompt == UserPrompt(req))
  {
  }

  /**
   * Every reply is a fallback comment and writes nothing, or it is the stored reply
   * for the request's post, whitespace-collapsed and cut to 80 characters.
   */
  lemma ReplyIsFallbackOrStored(req: Request, key: Option<string>, upstream: Upstream, picks: Picks, posted: map<string, string>)
    requires ValidPicks(picks)
    ensures var resp := Respond(req, key, upstream, picks, posted);
            resp.outcome.Returned? ==>
              || (resp.outcome.text in FallbackComments && resp.stored.None?)
              || (&& resp.stored.Some?
                  && req.postId == Some(resp.stored.value.post)
                  && resp.outcome.text == Finalize(resp.stored.value.reply))
  {
    var resp := Respond(req, key, upstream, picks, posted);
    RespondCases(req, key, upstream, picks, posted);
    if resp.outcome.Returned? && resp.stored.None? {
      assert resp.outcome == Fallback(picks);
    }
  }

  /** A call falls back early, raises, or answers as `Consult` does. */
  lemma RespondCases(req: Request, key: Option<string>, upstream: Upstream, picks: Picks, posted: map<string, string>)
    requires ValidPicks(picks)
    ensures var resp := Respond(req, key, upstream, picks, posted);
            var a := Consult(req.postId, upstream, picks, posted);
            || resp == Response(Fallback(picks), None, None)
            || resp == Response(Raises, None, None)
            || (resp.outcome == a.outcome && resp.stored == a.stored)
  {
  }

  /**
   * The stored reply grows out of the cleaned upstream reply: it holds a character
   * above code point 127, and it carries a duplicate suffix exactly when the reply
   * before that step was already posted.
   */
  lemma StoredReplyShape(req: Request, key: Option<string>, upstream: Upstream, picks: Picks, posted: map<string, string>)
    requires ValidPicks(picks)
    ensures var resp := Respond(req, key, upstream, picks, posted);
            resp.stored.Some? ==>
              && upstream.Answered? && upstream.choices != []
              && var c := Cleaned(RawReply(upstream.choices[0]));
              && c.Some? && |c.value| >= MinLength
              && var e := AddEmoji(Shorten(c.value), picks.emoji);
              && HasNonAscii(resp.stored.value.reply)
              && (e in posted.Values <==> resp.stored.value.reply != e)
  {
    var resp := Respond(req, key, upstream, picks, posted);
    RespondCases(req, key, upstream, picks, posted);
    if resp.stored.Some? {
      ConsultStoresPolished(req.postId, upstream, picks, posted);
    }
  }

  /** The reply `Consult` stores is the polished cleaned reply. */
  lemma ConsultStoresPolished(postId: Option<string>, upstream: Upstream, picks: Picks, posted: map<string, string>)
    requires ValidPicks(picks)
    requires Consult(postId, upstream, picks, posted).stored.Some?
    ensures var c := Cleaned(RawReply(upstream.choices[0])).value;
            && c != [] && |c| >= MinLength
            && Consult(postId, upstream, picks, posted).stored.value.reply == Polish(c, posted, picks)
  {
  }

  /** A text of visible characters and single spaces, starting with a visible one, is collapsed. */
  lemma SingleSpaced(s: string)
    requires forall k :: 0 <= k < |s| ==> s[k] == ' ' || ('!' <= s[k] <= '~') || s[k] == '\U{2728}' || s[k] > '\U{3000}'
    requires forall k :: 0 < k < |s| && s[k] == ' ' ==> s[k - 1] != ' '
    requires s != [] && s[0] != ' '
    ensures Collapsed(s) && !IsSpace(s[0])
  {
  }

  /** The fallback comments already meet the bound and the spacing of a final reply. */
  lemma FallbacksAreFinal()
    ensures forall i :: 0 <= i < |FallbackComments| ==> FinalShape(FallbackComments[i])
  {
    FirstFallbacksFinal();
    MiddleFallbacksFinal();
    LastFallbacksFinal();
  }

  /** At most 80 characters, whitespace-collapsed, starting with a visible character. */
  predicate FinalShape(s: string)
  {
    |s| <= MaxLength && Collapsed(s) && (s == [] || !IsSpace(s[0]))
  }

  lemma FirstFallbacksFinal()
    ensures FinalShape(FallbackComments[0]) && FinalShape(FallbackComments[1])
  {
    SingleSpaced(FallbackComments[0]);
    SingleSpaced(FallbackComments[1]);
  }

  lemma MiddleFallbacksFinal()
    ensures FinalShape(FallbackComments[2]) && FinalShape(FallbackComments[3])
  {
    SingleSpaced(FallbackComments[2]);
    SingleSpaced(FallbackComments[3]);
  }

  lemma LastFallbacksFinal()
    ensures FinalShape(FallbackComments[4]) && FinalShape(FallbackComments[5])
  {
    SingleSpaced(FallbackComments[4]);
    SingleSpaced(FallbackComments[5]);
  }

  /** Whatever the call returns is at most 80 characters, whitespace-collapsed, and starts with a visible character. */
  lemma ReplyBounded(req: Request, key: Option<string>, upstream: Upstream, picks: Picks, posted: map<string, string>)
    requires ValidPicks(picks)
    ensures var out := Respond(req, key, upstream, picks, posted).outcome;
            out.Returned? ==> FinalShape(out.text)
  {
    FallbacksAreFinal();
    ReplyIsFallbackOrStored(req, key, upstream, picks, posted);
  }

  /** A call changes the table at most at the request's post, where it stores the reply before the final cut. */
  lemma OnlyThePostChanges(req: Request, key: Option<string>, upstream: Upstream, picks: Picks, posted: map<string, string>)
    requires ValidPicks(picks)
    ensures var resp := Respond(req, key, upstream, picks, posted);
            var next := After(posted, resp.stored);
            && (forall p :: p in posted && Some(p) != req.postId ==> p in next && next[p] == posted[p])
            && (forall p :: p in next && Some(p) != req.postId ==> p in posted)
            && (resp.stored.Some? ==> req.postId == Some(resp.stored.value.post) && next[resp.stored.value.post] == resp.stored.value.reply)
  {
    var resp := Respond(req, key, upstream, picks, posted);
    StoresUnderThePost(req, key, upstream, picks, posted);
    AfterChangesOnlyThePost(posted, resp.stored, req.postId);
  }

  lemma AfterChangesOnlyThePost(posted: map<string, string>, stored: Option<Stored>, postId: Option<string>)
    requires stored.Some? ==> postId == Some(stored.value.post)
    ensures var next := After(posted, stored);
            && (forall p :: p in posted && Some(p) != postId ==> p in next && next[p] == posted[p])
            && (forall p :: p in next && Some(p) != postId ==> p in posted)
  {
  }

  /** A call writes the table only under the request's own post. */
  lemma StoresUnderThePost(req: Request, key: Option<string>, upstream: Upstream, picks: Picks, posted: map<string, string>)
    requires ValidPicks(picks)
    ensures var resp := Respond(req, key, upstream, picks, posted);
            resp.stored.Some? ==> req.postId == Some(resp.stored.value.post)
  {
    RespondCases(req, key, upstream, picks, posted);
  }
}

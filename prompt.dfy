/**
 * The request that `make_reply` receives and the user prompt it builds from it
 * (app/services/reply.py, lines 148-180 and 183). Every field of the request may
 * be missing; a missing field that the code reads with `p[...]` raises `KeyError`,
 * which the prompt functions report as `None`.
 */
module Prompt {
  import opened Strings

  /** The author and text of a post: `{"username": ..., "text": ...}`. */
  datatype Post = Post(username: Option<string>, text: Option<string>)

  /** The request body: `postId`, `original`, `target` and `history`. */
  datatype Request = Request(postId: Option<string>, original: Option<Post>, target: Option<Post>, history: seq<Post>)

  /** `p.get(key, {}).get("text", "")`. */
  function TextOf(post: Option<Post>): string
  {
    if post.Some? && post.value.text.Some? then post.value.text.value else ""
  }

  /** `d.get(key, default)`. */
  function GetOr(v: Option<string>, default: string): string
  {
    if v.Some? then v.value else default
  }

  /** The persona the model is asked to play. */
  const SystemPrompt := "You are Ava, a witty 20-something woman replying on Threads. Never reveal you are an AI or mention AI capabilities."

  /** How many of the other replies the prompt quotes. */
  const HistoryLimit := 3

  /** `history[:3]`. */
  function Recent(history: seq<Post>): (r: seq<Post>)
    ensures |r| <= HistoryLimit && |r| <= |history| && r == history[..|r|]
    ensures |history| >= HistoryLimit ==> |r| == HistoryLimit
    ensures |history| < HistoryLimit ==> r == history
  {
    if |history| <= HistoryLimit then history else history[..HistoryLimit]
  }

  /** The thread and target part of the prompt. */
  function Header(postId: Option<string>, original: Post, target: Post, targetName: string): string
  {
    "THREAD by @" + GetOr(original.username, "unknown") + " (ID " + GetOr(postId, "000") + "):\n"
    + "  Text: \"" + GetOr(original.text, "") + "\"\n\n"
    + "TARGET by @" + targetName + ": \"" + GetOr(target.text, "") + "\"\n\n"
  }

  const OtherRepliesHeading := "OTHER REPLIES:\n"

  /** The closing instructions, addressed to the target's author. */
  function Instructions(targetName: string): string
  {
    InstructionsHead + "@" + targetName + InstructionsTail
  }

  /** The instructions before the target's name. */
  const InstructionsHead := "INSTRUCTIONS:\n" + "Write ONE casual reply (\U{2264}12 words) that addresses "

  /** The instructions after the target's name. */
  const InstructionsTail := ", adds a fresh perspective, "
    + "and includes exactly ONE emoji.\n"
    + "IMPORTANT: Output ONLY the reply text. DO NOT mention being an AI or include any references to AI, language models, or DeepSeek."

  /** Both keys that `h["username"]` and `h["text"]` read are present. */
  predicate Quotable(h: Post)
  {
    h.username.Some? && h.text.Some?
  }

  /** The line quoting one other reply. */
  function HistoryLine(h: Post): string
    requires Quotable(h)
  {
    "  @" + h.username.value + ": \"" + h.text.value + "\"\n"
  }

  /** The lines quoting hs, in order; None when some entry lacks a key. */
  function HistoryLines(hs: seq<Post>): (r: Option<string>)
    ensures r.Some? <==> forall i :: 0 <= i < |hs| ==> Quotable(hs[i])
    ensures hs == [] ==> r == Some([])
  {
    if hs == [] then Some([])
    else
      var last := hs[|hs| - 1];
      match HistoryLines(hs[..|hs| - 1])
      case None => None
      case Some(lines) => if Quotable(last) then Some(lines + HistoryLine(last)) else None
  }

  /** The "OTHER REPLIES" block: empty when there is no history to quote. */
  function HistoryBlock(hs: seq<Post>): Option<string>
  {
    if hs == [] then Some([])
    else
      match HistoryLines(hs)
      case None => None
      case Some(lines) => Some(OtherRepliesHeading + lines + "\n")
  }

  /** The block cannot be built exactly when some entry lacks a key. */
  lemma HistoryBlockFails(hs: seq<Post>)
    ensures HistoryBlock(hs).None? <==> exists i :: 0 <= i < |hs| && !Quotable(hs[i])
  {
  }

  /** The prompt cannot be built: a key read with `p[...]` or `h[...]` is missing. */
  predicate PromptRaises(req: Request)
  {
    || req.original.None?
    || req.target.None?
    || req.target.value.username.None?
    || exists i :: 0 <= i < |Recent(req.history)| && !Quotable(Recent(req.history)[i])
  }

  /** The user prompt `u`, or None where building it raises `KeyError`. */
  function UserPrompt(req: Request): (r: Option<string>)
    ensures r.None? <==> PromptRaises(req)
  {
    if PromptRaises(req) then None else Some(PromptText(req))
  }

  /** The text of a prompt that can be built: header, quoted replies, instructions. */
  function PromptText(req: Request): string
    requires !PromptRaises(req)
  {
    var name := req.target.value.username.value;
    HistoryBlockFails(Recent(req.history));
    Header(req.postId, req.original.value, req.target.value, name)
    + HistoryBlock(Recent(req.history)).value
    + Instructions(name)
  }

  /** Builds the user prompt step by step, as lines 159-180 do. */
  method BuildUserPrompt(req: Request) returns (r: Option<string>)
    ensures r == UserPrompt(req)
  {
    if req.original.None? || req.target.None? || req.target.value.username.None? {
      return None;
    }
    var name := req.target.value.username.value;
    var block := BuildHistoryBlock(Recent(req.history));
    HistoryBlockFails(Recent(req.history));
    if block.None? {
      return None;
    }
    var u := Header(req.postId, req.original.value, req.target.value, name);
    u := u + block.value;
    u := u + Instructions(name);
    return Some(u);
  }

  /** The "OTHER REPLIES" block, one quoted reply after another (lines 166-170). */
  method BuildHistoryBlock(history: seq<Post>) returns (r: Option<string>)
    ensures r == HistoryBlock(history)
  {
    if history == [] {
      return Some([]);
    }
    var u := OtherRepliesHeading;
    for k := 0 to |history|
      invariant HistoryLines(history[..k]).Some?
      invariant u == OtherRepliesHeading + HistoryLines(history[..k]).value
    {
      var h := history[k];
      if !Quotable(h) {
        assert !Quotable(history[k]);
        return None;
      }
      assert history[..k + 1][..k] == history[..k];
      u := u + HistoryLine(h);
    }
    assert history[..|history|] == history;
    u := u + "\n";
    return Some(u);
  }

  // ---------------------------------------------------------------------------
  // Properties

  /**
   * A built prompt opens with the thread header and closes with the instructions
   * addressed to the target's author; what lies between them is the "OTHER REPLIES"
   * block of the first three entries, which is empty exactly when there is no history.
   */
  lemma PromptLayout(req: Request)
    requires !PromptRaises(req)
    ensures var name := req.target.value.username.value;
            var head := Header(req.postId, req.original.value, req.target.value, name);
            var u := UserPrompt(req).value;
            && |head| + |Instructions(name)| <= |u|
            && u[..|head|] == head
            && u[|u| - |Instructions(name)|..] == Instructions(name)
            && (req.history == [] <==> |u| == |head| + |Instructions(name)|)
            && (req.history != [] ==> u[|head|..|head| + |OtherRepliesHeading|] == OtherRepliesHeading)
            && HistoryBlock(Recent(req.history)).Some?
            && u[|head|..|u| - |Instructions(name)|] == HistoryBlock(Recent(req.history)).value
  {
    var name := req.target.value.username.value;
    var head := Header(req.postId, req.original.value, req.target.value, name);
    var hs := Recent(req.history);
    HistoryBlockFails(hs);
    var block := HistoryBlock(hs).value;
    var tail := Instructions(name);
    BlockShape(hs);
    assert UserPrompt(req).value == head + block + tail;
    ThreeParts(head, block, tail, if hs == [] then 0 else |OtherRepliesHeading|);
  }

  /** The block is empty exactly when there is no history, and otherwise opens with the heading. */
  lemma BlockShape(hs: seq<Post>)
    requires HistoryBlock(hs).Some?
    ensures hs == [] <==> HistoryBlock(hs).value == []
    ensures hs != [] ==>
      |OtherRepliesHeading| <= |HistoryBlock(hs).value| && HistoryBlock(hs).value[..|OtherRepliesHeading|] == OtherRepliesHeading
  {
    if hs != [] {
      var lines := HistoryLines(hs).value;
      assert HistoryBlock(hs).value == OtherRepliesHeading + (lines + "\n");
    }
  }

  lemma ThreeParts(a: string, b: string, c: string, m: nat)
    requires m <= |b|
    ensures |a + b + c| == |a| + |b| + |c|
    ensures (a + b + c)[..|a|] == a && (a + b + c)[|a| + |b|..] == c
    ensures (a + b + c)[|a|..|a| + m] == b[..m]
    ensures (a + b + c)[|a|..|a| + |b|] == b
  {
  }

  /** Only the first three entries of the history matter: later ones are never read. */
  lemma PromptIgnoresOlderHistory(req: Request, older: seq<Post>)
    requires |req.history| >= HistoryLimit
    ensures UserPrompt(req.(history := req.history + older)) == UserPrompt(req)
  {
    var longer := req.history + older;
    assert Recent(longer) == longer[..HistoryLimit] == req.history[..HistoryLimit] == Recent(req.history);
  }

  /** Each quoted reply appears in the prompt, in history order, right after the heading. */
  lemma {:induction false} HistoryLinesOrder(hs: seq<Post>, i: nat)
    requires i < |hs| && forall k :: 0 <= k < |hs| ==> Quotable(hs[k])
    ensures HistoryLines(hs).value == HistoryLines(hs[..i]).value + HistoryLine(hs[i]) + HistoryLines(hs[i + 1..]).value
    decreases |hs|
  {
    var front := hs[..|hs| - 1];
    assert forall k :: 0 <= k < |front| ==> Quotable(front[k]);
    LinesSnoc(hs, front);
    if i == |hs| - 1 {
      assert hs[..i] == front;
      assert hs[i + 1..] == [];
    } else {
      HistoryLinesOrder(front, i);
      assert front[..i] == hs[..i] && front[i] == hs[i];
      var tail := hs[i + 1..];
      var init := front[i + 1..];
      assert tail[..|tail| - 1] == init;
      LinesSnoc(tail, init);
      assert tail[|tail| - 1] == hs[|hs| - 1];
    }
  }

  /** The lines of a fully quotable history are those of all but its last entry, then the last entry's line. */
  lemma LinesSnoc(hs: seq<Post>, front: seq<Post>)
    requires hs != [] && front == hs[..|hs| - 1]
    requires forall k :: 0 <= k < |hs| ==> Quotable(hs[k])
    ensures HistoryLines(front).Some?
    ensures HistoryLines(hs).value == HistoryLines(front).value + HistoryLine(hs[|hs| - 1])
  {
    assert forall k :: 0 <= k < |front| ==> Quotable(front[k]);
  }
}

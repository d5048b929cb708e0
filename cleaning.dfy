/**
 * `clean_reply` (app/services/reply.py, lines 47-139): the battery of passes, then
 * the whitespace cleanup, the leading-"I" rule, the last-resort removal of "ai",
 * and the minimum length. `Cleaned` is the specification; `CleanReply` runs the
 * battery with a loop, as the source does, and is proved to compute it.
 */
module Cleaning {
  import opened Strings
  import opened Patterns

  /** Replies shorter than this are refused (the service falls back). */
  const MinLength := 5

  /**
   * `re.match(r'^I\s+(?!\')', s, re.IGNORECASE)`. The `\s+` backtracks: with a run of
   * two or more whitespace characters some shorter run is followed by whitespace,
   * so the look-ahead only matters when the run is a single character.
   */
  predicate StartsWithBareI(s: string)
  {
    |s| >= 2 && LowerChar(s[0]) == 'i' && IsSpace(s[1]) &&
    var e := SpaceRunEnd(s, 1);
    e > 2 || e == |s| || s[e] != '\''
  }

  /** `re.sub(r'^I\s+', '', s, flags=re.IGNORECASE)` when the guard holds: the "I" and its whole run of whitespace go. */
  function DropLeadingI(s: string): (r: string)
    ensures StartsWithBareI(s) ==> |r| <= |s| - 2 && r == s[|s| - |r|..] && (r == [] || !IsSpace(r[0]))
    ensures !StartsWithBareI(s) ==> r == s
  {
    if StartsWithBareI(s) then s[SpaceRunEnd(s, 1)..] else s
  }

  /** `"ai" in t.lower() and len(t) > 5`: the guard of the last-resort removal. */
  predicate AIRemains(t: string)
  {
    Contains(Lower(t), "ai") && |t| > 5
  }

  /**
   * `t.lower().replace("ai", "").strip()`: a trimmed, lowercase text, whose only
   * whitespace is `' '` when that holds of t, and which is at least two characters
   * shorter than t when "ai" occurs in it in any case.
   */
  function DropAI(t: string): (r: string)
    ensures Trimmed(r) && AllLower(r)
    ensures PlainSpaces(t) ==> PlainSpaces(r)
    ensures Contains(Lower(t), "ai") ==> |r| <= |t| - 2
  {
    var r := Strip(Replace(Lower(t), "ai", []));
    LowerLower(t);
    ReplaceLower(Lower(t), "ai", []);
    StripLower(Replace(Lower(t), "ai", []));
    if Contains(Lower(t), "ai") then
      ReplaceShortens(Lower(t), "ai");
      if PlainSpaces(t) then PlainAfterDropAI(t); r else r
    else if PlainSpaces(t) then PlainAfterDropAI(t); r else r
  }

  /** The removal is a single left-to-right scan, so it can join an "ai" that was not there before. */
  lemma DropAIMayLeaveAi()
    ensures DropAI("aaii") == "ai"
  {
    var s, r := "aaii", "ai";
    LowerExample(s);
    RemoveAiExample();
    StripExample(r);
  }

  lemma LowerExample(s: string)
    requires s == "aaii"
    ensures Lower(s) == s
  {
    assert forall k :: 0 <= k < |s| ==> LowerChar(s[k]) == s[k];
  }

  lemma RemoveAiExample()
    ensures Replace("aaii", "ai", []) == "ai"
  {
    var a, b, c := "aaii", "aii", "i";
    assert a[..2] == "aa" && a[1..] == b;
    assert b[..2] == "ai" && b[2..] == c;
    assert Replace(c, "ai", []) == c;
    assert Replace(b, "ai", []) == c;
  }

  lemma StripExample(r: string)
    requires r == "ai"
    ensures Strip(r) == r
  {
    assert Trimmed(r);
    StripTrimmed(r);
  }

  lemma PlainAfterDropAI(t: string)
    requires PlainSpaces(t)
    ensures PlainSpaces(Strip(Replace(Lower(t), "ai", [])))
  {
    LowerPlain(t);
    ReplacePlain(Lower(t), "ai", []);
    StripPlain(Replace(Lower(t), "ai", []));
  }

  /** The text after the whitespace cleanup and the leading-"I" rule: collapsed and trimmed. */
  function Tidy(x: string): (r: string)
    ensures Collapsed(r) && Trimmed(r)
    ensures r == DropLeadingI(Normalize(x))
    ensures !StartsWithBareI(Normalize(x)) ==> Words(r) == Words(x)
  {
    StripCollapsed(CollapseSpaces(x));
    DropLeadingIShape(Strip(CollapseSpaces(x)));
    DropLeadingI(Strip(CollapseSpaces(x)))
  }

  /** What `clean_reply` does after the battery, given the battery's output x. */
  function Finish(x: string): (r: Option<string>)
    ensures r.Some? ==> |r.value| >= MinLength && Trimmed(r.value) && PlainSpaces(r.value)
    ensures r.Some? && !AIRemains(Tidy(x)) ==> Collapsed(r.value) && r.value == Tidy(x)
    ensures r.Some? && AIRemains(Tidy(x)) ==> r.value == Strip(Replace(Lower(Tidy(x)), "ai", [])) && AllLower(r.value)
    ensures r.None? <==> |if AIRemains(Tidy(x)) then DropAI(Tidy(x)) else Tidy(x)| < MinLength
  {
    var t := Tidy(x);
    var u := if AIRemains(t) then DropAI(t) else t;
    if |u| < MinLength then None else Some(u)
  }

  /** `clean_reply(text)`; an empty text is returned as it is. */
  function Cleaned(text: string): (r: Option<string>)
    ensures text == [] ==> r == Some([])
    ensures text != [] && r.Some? ==> |r.value| >= MinLength && Trimmed(r.value) && PlainSpaces(r.value)
  {
    if text == [] then Some(text) else Finish(Scrub(BatterySize, text))
  }

  /** `clean_reply(text)`, running the battery pass after pass. */
  method CleanReply(text: string) returns (r: Option<string>)
    ensures r == Cleaned(text)
  {
    if text == [] {
      return Some(text);
    }
    var cleaned := RunBattery(text);
    r := FinishCleaning(cleaned);
  }

  /** Lines 56-111: each pass of the battery in turn rewrites the text. */
  method RunBattery(text: string) returns (cleaned: string)
    ensures cleaned == Scrub(BatterySize, text)
  {
    cleaned := text;
    for k := 0 to BatterySize
      invariant cleaned == Scrub(k, text)
    {
      cleaned := ApplyPass(BatteryPass(k), cleaned);
    }
  }

  /** Lines 113-139: the whitespace cleanup, the leading-"I" rule, the removal of "ai", the minimum length. */
  method FinishCleaning(x: string) returns (r: Option<string>)
    ensures r == Finish(x)
  {
    var cleaned := CollapseSpaces(x);
    cleaned := Strip(cleaned);
    if StartsWithBareI(cleaned) {
      cleaned := cleaned[SpaceRunEnd(cleaned, 1)..];
    }
    assert cleaned == Tidy(x);
    if Contains(Lower(cleaned), "ai") && |cleaned| > 5 {
      cleaned := Lower(cleaned);
      cleaned := Replace(cleaned, "ai", []);
      cleaned := Strip(cleaned);
    }
    if |cleaned| < MinLength {
      return None;
    }
    return Some(cleaned);
  }

  // ---------------------------------------------------------------------------
  // Properties

  /** Stripping a trimmed text changes nothing. */
  lemma StripTrimmed(s: string)
    requires Trimmed(s)
    ensures Strip(s) == s
  {
    var i :| SliceBetweenSpaces(s, Strip(s), i);
  }

  /** Stripping keeps a text free of whitespace other than `' '`. */
  lemma StripPlain(s: string)
    requires PlainSpaces(s)
    ensures PlainSpaces(Strip(s))
  {
    var r := Strip(s);
    var i :| SliceBetweenSpaces(s, r, i);
    PlainSlice(s, i, i + |r|);
    assert s[i..i + |r|] == r;
  }

  /** A slice of a text whose only whitespace is `' '` has no other whitespace either. */
  lemma PlainSlice(s: string, i: int, j: int)
    requires PlainSpaces(s) && 0 <= i <= j <= |s|
    ensures PlainSpaces(s[i..j])
  {
    var r := s[i..j];
    forall k | 0 <= k < |r| && IsSpace(r[k]) ensures r[k] == ' ' {
      assert r[k] == s[i + k];
    }
  }

  /** The leading-"I" rule keeps a text collapsed and trimmed. */
  lemma DropLeadingIShape(t: string)
    requires Collapsed(t) && Trimmed(t)
    ensures Collapsed(DropLeadingI(t)) && Trimmed(DropLeadingI(t))
  {
    LeadingIRule(t);
    if StartsWithBareI(t) {
      CollapsedSlice(t, 2, |t|);
      assert t[2..] == t[2..|t|];
    }
  }

  /** Lower-casing keeps whitespace as it is. */
  lemma LowerPlain(s: string)
    requires PlainSpaces(s)
    ensures PlainSpaces(Lower(s))
  {
    forall k | 0 <= k < |s| && IsSpace(Lower(s)[k]) ensures Lower(s)[k] == ' ' {
      assert Lower(s)[k] == LowerChar(s[k]);
    }
  }

  /** Replacing by a text free of odd whitespace keeps a text free of it. */
  lemma {:induction false} ReplacePlain(s: string, pat: string, repl: string)
    requires pat != [] && PlainSpaces(s) && PlainSpaces(repl)
    ensures PlainSpaces(Replace(s, pat, repl))
    decreases |s|
  {
    if |s| >= |pat| {
      if s[..|pat|] == pat {
        assert PlainSpaces(s[|pat|..]) by {
          forall k | 0 <= k < |s| - |pat| ensures s[|pat|..][k] == s[|pat| + k] { }
        }
        ReplacePlain(s[|pat|..], pat, repl);
        PlainConcat(repl, Replace(s[|pat|..], pat, repl));
      } else {
        assert PlainSpaces(s[1..]) by {
          forall k | 0 <= k < |s| - 1 ensures s[1..][k] == s[1 + k] { }
        }
        ReplacePlain(s[1..], pat, repl);
        PlainConcat([s[0]], Replace(s[1..], pat, repl));
      }
    }
  }

  /** `s.lower()` has no capital letter left. */
  lemma LowerLower(s: string)
    ensures AllLower(Lower(s))
  {
  }

  /** Removing occurrences from a lowercase text leaves it lowercase. */
  lemma {:induction false} ReplaceLower(s: string, pat: string, repl: string)
    requires pat != [] && AllLower(s) && AllLower(repl)
    ensures AllLower(Replace(s, pat, repl))
    decreases |s|
  {
    if |s| >= |pat| {
      if s[..|pat|] == pat {
        var t := s[|pat|..];
        assert AllLower(t) by {
          forall k | 0 <= k < |t| ensures t[k] == s[|pat| + k] { }
        }
        ReplaceLower(t, pat, repl);
        LowerConcat(repl, Replace(t, pat, repl));
      } else {
        var t := s[1..];
        assert AllLower(t) by {
          forall k | 0 <= k < |t| ensures t[k] == s[1 + k] { }
        }
        ReplaceLower(t, pat, repl);
        LowerConcat([s[0]], Replace(t, pat, repl));
      }
    }
  }

  lemma LowerConcat(a: string, b: string)
    requires AllLower(a) && AllLower(b)
    ensures AllLower(a + b)
  {
    forall k | 0 <= k < |a + b| ensures LowerChar((a + b)[k]) == (a + b)[k] {
      if k >= |a| {
        assert (a + b)[k] == b[k - |a|];
      }
    }
  }

  /** Stripping a lowercase text leaves it lowercase. */
  lemma StripLower(s: string)
    requires AllLower(s)
    ensures AllLower(Strip(s))
  {
    var r := Strip(s);
    var i :| SliceBetweenSpaces(s, r, i);
    forall k | 0 <= k < |r| ensures LowerChar(r[k]) == r[k] {
      assert r[k] == s[i + k];
    }
  }

  /** Removing a pattern that occurs takes away at least its length. */
  lemma ReplaceShortens(s: string, pat: string)
    requires pat != [] && Contains(s, pat)
    ensures |Replace(s, pat, [])| <= |s| - |pat|
  {
    var i := FirstOccurrence(s, pat);
    ReplaceAtFirst(s, pat, [], i);
    ReplaceLength(s[i + |pat|..], pat, []);
  }

  lemma PlainConcat(a: string, b: string)
    requires PlainSpaces(a) && PlainSpaces(b)
    ensures PlainSpaces(a + b)
  {
    forall k | 0 <= k < |a + b| && IsSpace((a + b)[k]) ensures (a + b)[k] == ' ' {
      if k >= |a| {
        assert (a + b)[k] == b[k - |a|];
      }
    }
  }

  /**
   * On a collapsed, trimmed text the leading-"I" rule drops an "I" or "i" followed
   * by a space, unless an apostrophe comes right after that space ("I 'm" stays).
   */
  lemma LeadingIRule(t: string)
    requires Collapsed(t) && Trimmed(t)
    ensures StartsWithBareI(t) <==> |t| >= 3 && LowerChar(t[0]) == 'i' && t[1] == ' ' && t[2] != '\''
    ensures StartsWithBareI(t) ==> DropLeadingI(t) == t[2..]
  {
    if |t| >= 2 && IsSpace(t[1]) {
      assert t[1] == ' ';
      if |t| > 2 {
        assert !IsSpace(t[2]);
        assert SpaceRunEnd(t, 2) == 2;
        assert SpaceRunEnd(t, 1) == 2;
      }
    }
  }

  /**
   * A battery output that is already clean comes through the rest of `clean_reply`
   * as it is: collapsed, trimmed, no leading bare "I", no "ai" in any case, and long
   * enough.
   */
  lemma FinishKeepsClean(x: string)
    requires Collapsed(x) && Trimmed(x)
    requires !StartsWithBareI(x) && !Contains(Lower(x), "ai") && |x| >= MinLength
    ensures Finish(x) == Some(x)
  {
    CollapseFixesCollapsed(x);
    StripTrimmed(x);
  }

  /**
   * `clean_reply` is not idempotent: the leading-"I" rule removes one "I" per call,
   * so a second call can remove another.
   */
  lemma FinishNotIdempotent()
    ensures Finish("I I hello") == Some("I hello")
    ensures Finish("I hello") == Some("hello")
  {
    FinishTwoBareIs();
    FinishOneBareI();
  }

  lemma FinishTwoBareIs()
    ensures Finish("I I hello") == Some("I hello")
  {
    var a := "I I hello";
    assert a[2..] == "I hello";
    FinishDropsBareI(a);
  }

  lemma FinishOneBareI()
    ensures Finish("I hello") == Some("hello")
  {
    var b := "I hello";
    assert b[2..] == "hello";
    FinishDropsBareI(b);
  }

  /** On a collapsed, trimmed text that starts with a bare "I", the rest of the cleanup drops that "I" alone. */
  lemma FinishDropsBareI(t: string)
    requires forall k :: 0 <= k < |t| ==> ('a' < t[k] <= 'z') || t[k] == 'I' || t[k] == ' '
    requires forall k :: 0 < k < |t| && t[k] == ' ' ==> t[k - 1] != ' '
    requires |t| >= 7 && t[0] == 'I' && t[1] == ' ' && t[2] != ' ' && t[|t| - 1] != ' '
    ensures Finish(t) == Some(t[2..])
  {
    var s := t[2..];
    assert Collapsed(t) && Trimmed(t);
    LeadingIRule(t);
    TailWithoutAi(t, s);
    FinishAfterBareI(t, s);
  }

  /**
   * `clean_reply` is not idempotent: cleaning "I I hello" gives "I hello", and cleaning
   * that again gives "hello". The battery keeps both texts; only the final steps change them.
   */
  lemma CleanReplyNotIdempotent()
    ensures Cleaned("I I hello") == Some("I hello")
    ensures Cleaned("I hello") == Some("hello")
  {
    BareITextsSpelled();
    BatteryKeepsBareIs("I I hello");
    BatteryKeepsBareIs("I hello");
    FinishNotIdempotent();
  }

  lemma BareITextsSpelled()
    ensures Among("I I hello", HelloLetters) && Among("I hello", HelloLetters)
  {
  }

  lemma BatteryKeepsBareIs(x: string)
    requires x != [] && Among(x, HelloLetters)
    ensures Cleaned(x) == Finish(x)
  {
    BatteryKeepsHelloLetters(x);
  }

  /** `clean_reply` turns "deedeep seekpseek" into the vendor name it is meant to remove. */
  lemma CleanReplyRebuildsVendorName()
    ensures Cleaned("deedeep seekpseek") == Some("deepseek")
  {
    SplitVendorNameSpelled();
    SplitNameCleaned("deedeep seekpseek");
  }

  lemma SplitNameCleaned(x: string)
    requires SplitVendorName(x)
    ensures Cleaned(x) == Some("deepseek")
  {
    BatteryRebuildsVendorName(x);
    VendorNameFinished();
  }

  lemma VendorNameFinished()
    ensures Finish("deepseek") == Some("deepseek")
  {
    VendorNameLetters();
    NoAiAmong("deepseek", VendorLetters);
    FinishKeepsClean("deepseek");
  }

  /**
   * The step of `FinishDropsBareI` that rules out the "ai" removal: past its first two
   * characters, a text of letters b-z, "I" and spaces has no "a", so no "ai" either.
   */
  lemma TailWithoutAi(t: string, s: string)
    requires forall k :: 0 <= k < |t| ==> ('a' < t[k] <= 'z') || t[k] == 'I' || t[k] == ' '
    requires |t| >= 2 && s == t[2..]
    ensures !Contains(Lower(s), "ai")
  {
    forall k | 0 <= k <= |s| - 2 ensures !OccursAt(Lower(s), "ai", k) {
      assert Lower(s)[k] == LowerChar(t[k + 2]);
    }
  }

  /** A clean text whose bare leading "I" leaves a long enough rest without "ai" finishes as that rest. */
  lemma FinishAfterBareI(t: string, s: string)
    requires Collapsed(t) && Trimmed(t) && |s| >= MinLength
    requires StartsWithBareI(t) && DropLeadingI(t) == s
    requires !Contains(Lower(s), "ai")
    ensures Finish(t) == Some(s)
  {
    CollapseFixesCollapsed(t);
    StripTrimmed(t);
  }
}

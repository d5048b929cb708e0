/**
 * The Python `str` operations the reply service relies on, written as functions
 * on `seq<char>`: the whitespace class shared by `\s`, `str.strip()` and
 * `str.split()`, `str.lower()`, `str.replace()`, `re.sub(r'\s+', ' ', s)`,
 * `" ".join(s.split())` and `s.split(',')`.
 */
module Strings {

  datatype Option<+T> = None | Some(value: T)

  /** `c.isspace()`; `\s` in a `str` pattern, `str.strip()` and `str.split()` use the same class. */
  predicate IsSpace(c: char)
  {
    || c == ' '
    || ('\t' <= c <= '\r')
    || ('\U{1C}' <= c <= '\U{1F}')
    || c == '\U{85}' || c == '\U{A0}' || c == '\U{1680}'
    || ('\U{2000}' <= c <= '\U{200A}')
    || c == '\U{2028}' || c == '\U{2029}' || c == '\U{202F}' || c == '\U{205F}' || c == '\U{3000}'
  }

  /** `ord(c) > 127`: the reply service's test for "this is an emoji". */
  predicate IsNonAscii(c: char)
  {
    c as int > 127
  }

  predicate HasNonAscii(s: string)
  {
    exists i :: 0 <= i < |s| && IsNonAscii(s[i])
  }

  /** `[A-Za-z0-9_]`, the ASCII part of `\w`. */
  predicate IsWordChar(c: char)
  {
    ('a' <= c <= 'z') || ('A' <= c <= 'Z') || ('0' <= c <= '9') || c == '_'
  }

  /** `c.lower()` on ASCII letters; other characters are kept. */
  function LowerChar(c: char): char
  {
    if 'A' <= c <= 'Z' then (c as int + 32) as char else c
  }

  function Lower(s: string): string
  {
    seq(|s|, i requires 0 <= i < |s| => LowerChar(s[i]))
  }

  /** `s.lower() == s`: no ASCII capital letter in s. */
  predicate AllLower(s: string)
  {
    forall i :: 0 <= i < |s| ==> LowerChar(s[i]) == s[i]
  }

  predicate NoSpace(s: string)
  {
    forall i :: 0 <= i < |s| ==> !IsSpace(s[i])
  }

  /** Neither end of s is whitespace (what `str.strip()` leaves). */
  predicate Trimmed(s: string)
  {
    s == [] || (!IsSpace(s[0]) && !IsSpace(s[|s| - 1]))
  }

  /** The only whitespace character in s is `' '`. */
  predicate PlainSpaces(s: string)
  {
    forall i :: 0 <= i < |s| && IsSpace(s[i]) ==> s[i] == ' '
  }

  /** The only whitespace is `' '`, and no two whitespace characters are adjacent. */
  predicate Collapsed(s: string)
  {
    && PlainSpaces(s)
    && (forall i :: 0 < i < |s| && IsSpace(s[i]) ==> !IsSpace(s[i - 1]))
  }

  // ---------------------------------------------------------------------------
  // str.replace

  predicate OccursAt(s: string, w: string, i: int)
  {
    0 <= i && i + |w| <= |s| && s[i..i + |w|] == w
  }

  /** `w in s`. */
  predicate Contains(s: string, w: string)
  {
    exists i :: 0 <= i <= |s| - |w| && OccursAt(s, w, i)
  }

  /** A text that occurs in a text that occurs in s occurs in s. */
  lemma ContainsTrans(s: string, t: string, r: string)
    requires Contains(s, t) && Contains(t, r)
    ensures Contains(s, r)
  {
    var i :| 0 <= i <= |s| - |t| && OccursAt(s, t, i);
    var j :| 0 <= j <= |t| - |r| && OccursAt(t, r, j);
    assert s[i..i + |t|] == t && t[j..j + |r|] == r;
    forall k | 0 <= k < |r| ensures r[k] == s[i + j + k] {
      assert r[k] == t[j + k] == s[i + j + k];
    }
    assert s[i + j..i + j + |r|] == r;
    assert OccursAt(s, r, i + j);
  }

  /** `s.replace(pat, repl)`: leftmost, non-overlapping occurrences, scanned left to right. */
  function Replace(s: string, pat: string, repl: string): string
    requires pat != []
    decreases |s|
  {
    if |s| < |pat| then s
    else if s[..|pat|] == pat then repl + Replace(s[|pat|..], pat, repl)
    else [s[0]] + Replace(s[1..], pat, repl)
  }

  /** A text without the pattern is returned unchanged. */
  lemma {:induction false} ReplaceAbsent(s: string, pat: string, repl: string)
    requires pat != []
    requires !Contains(s, pat)
    ensures Replace(s, pat, repl) == s
    decreases |s|
  {
    if |s| >= |pat| {
      assert !OccursAt(s, pat, 0);
      forall j | OccursAt(s[1..], pat, j) ensures OccursAt(s, pat, j + 1) {
        assert s[1..][j..j + |pat|] == s[j + 1..j + 1 + |pat|];
      }
      ReplaceAbsent(s[1..], pat, repl);
    }
  }

  /** The leftmost occurrence is replaced, and scanning resumes right after it. */
  lemma {:induction false} ReplaceAtFirst(s: string, pat: string, repl: string, i: nat)
    requires pat != []
    requires OccursAt(s, pat, i)
    requires forall j :: 0 <= j < i ==> !OccursAt(s, pat, j)
    ensures Replace(s, pat, repl) == s[..i] + repl + Replace(s[i + |pat|..], pat, repl)
    decreases i
  {
    if i == 0 {
      ReplaceAtStart(s, pat, repl);
      assert s[..i] == [] && s[i + |pat|..] == s[|pat|..];
    } else {
      var t, k := s[1..], i - 1;
      DropFirstOccurrence(s, pat, repl, i);
      ReplaceAtFirst(t, pat, repl, k);
      ReplaceAfterHead(s, t, pat, repl, i, k);
    }
  }

  /** An occurrence at the very start is rewritten first. */
  lemma ReplaceAtStart(s: string, pat: string, repl: string)
    requires pat != [] && OccursAt(s, pat, 0)
    ensures Replace(s, pat, repl) == repl + Replace(s[|pat|..], pat, repl)
  {
    assert s[..|pat|] == pat;
  }

  /**
   * The step of `ReplaceAtFirst`: the rewrite of t == s[1..] at its first
   * occurrence k, with s[0] put back in front.
   */
  lemma ReplaceAfterHead(s: string, t: string, pat: string, repl: string, i: nat, k: nat)
    requires pat != [] && k + 1 == i && i + |pat| <= |s| && t == s[1..]
    requires Replace(s, pat, repl) == [s[0]] + Replace(t, pat, repl)
    requires Replace(t, pat, repl) == t[..k] + repl + Replace(t[k + |pat|..], pat, repl)
    ensures Replace(s, pat, repl) == s[..i] + repl + Replace(s[i + |pat|..], pat, repl)
  {
    ShiftSlices(s, t, i, k, |pat|);
    Glue(Replace(s, pat, repl), s[0], Replace(t, pat, repl), t[..k], repl, Replace(s[i + |pat|..], pat, repl), s[..i]);
  }

  lemma ShiftSlices(s: string, t: string, i: nat, k: nat, m: nat)
    requires k + 1 == i && i + m <= |s| && t == s[1..]
    ensures t[k + m..] == s[i + m..]
    ensures s[..i] == [s[0]] + t[..k]
  {
  }

  lemma Glue(whole: string, c: char, tail: string, pre: string, mid: string, rest: string, front: string)
    requires whole == [c] + tail && tail == pre + mid + rest && front == [c] + pre
    ensures whole == front + mid + rest
  {
  }

  /** Dropping the first character of s, which starts no occurrence, moves every occurrence one place left. */
  lemma DropFirstOccurrence(s: string, pat: string, repl: string, i: nat)
    requires pat != [] && 0 < i
    requires OccursAt(s, pat, i)
    requires forall j :: 0 <= j < i ==> !OccursAt(s, pat, j)
    ensures OccursAt(s[1..], pat, i - 1)
    ensures forall j :: 0 <= j < i - 1 ==> !OccursAt(s[1..], pat, j)
    ensures Replace(s, pat, repl) == [s[0]] + Replace(s[1..], pat, repl)
  {
    assert !OccursAt(s, pat, 0);
    forall j | 0 <= j < i - 1 ensures !OccursAt(s[1..], pat, j) {
      assert !OccursAt(s, pat, j + 1);
      assert s[1..][j..j + |pat|] == s[j + 1..j + 1 + |pat|];
    }
    assert s[1..][i - 1..i - 1 + |pat|] == s[i..i + |pat|];
  }

  /** Some occurrence exists, so there is a leftmost one. */
  lemma FirstOccurrence(s: string, pat: string) returns (i: nat)
    requires Contains(s, pat)
    ensures OccursAt(s, pat, i)
    ensures forall j :: 0 <= j < i ==> !OccursAt(s, pat, j)
  {
    var k :| 0 <= k <= |s| - |pat| && OccursAt(s, pat, k);
    i := 0;
    while !OccursAt(s, pat, i)
      invariant i <= k
      invariant forall j :: 0 <= j < i ==> !OccursAt(s, pat, j)
      decreases k - i
    {
      i := i + 1;
    }
  }

  /** A replacement at least as long as the pattern never shortens the text, and vice versa. */
  lemma {:induction false} ReplaceLength(s: string, pat: string, repl: string)
    requires pat != []
    ensures |repl| >= |pat| ==> |Replace(s, pat, repl)| >= |s|
    ensures |repl| <= |pat| ==> |Replace(s, pat, repl)| <= |s|
    decreases |s|
  {
    if |s| >= |pat| {
      if s[..|pat|] == pat {
        ReplaceLength(s[|pat|..], pat, repl);
      } else {
        ReplaceLength(s[1..], pat, repl);
      }
    }
  }

  /** `s.replace(pat, repl) == s` exactly when pat does not occur, for a replacement that differs from pat. */
  lemma ReplaceUnchangedIff(s: string, pat: string, repl: string)
    requires pat != [] && repl != pat
    ensures Replace(s, pat, repl) == s <==> !Contains(s, pat)
  {
    if Contains(s, pat) {
      var i := FirstOccurrence(s, pat);
      ReplaceAtFirst(s, pat, repl, i);
      var t := s[i + |pat|..];
      ReplaceLength(t, pat, repl);
      assert s == s[..i] + pat + t;
      RewriteDiffers(s, s[..i], pat, repl, t, Replace(t, pat, repl));
    } else {
      ReplaceAbsent(s, pat, repl);
    }
  }

  /** Rewriting one occurrence of pat in s, with a rest no shorter or longer than it should be, changes s. */
  lemma RewriteDiffers(s: string, front: string, pat: string, repl: string, t: string, rt: string)
    requires s == front + pat + t && repl != pat
    requires |repl| >= |pat| ==> |rt| >= |t|
    requires |repl| <= |pat| ==> |rt| <= |t|
    ensures front + repl + rt != s
  {
    if |repl| == |pat| {
      assert (front + repl + rt)[|front|..|front| + |pat|] == repl;
      assert s[|front|..|front| + |pat|] == pat;
    }
  }

  // ---------------------------------------------------------------------------
  // str.strip and re.sub(r'\s+', ' ', s)

  /** `s.lstrip()`. */
  function StripStart(s: string): (r: string)
    ensures |r| <= |s| && r == s[|s| - |r|..]
    ensures r == [] || !IsSpace(r[0])
    ensures forall i :: 0 <= i < |s| - |r| ==> IsSpace(s[i])
    decreases |s|
  {
    if s != [] && IsSpace(s[0]) then StripStart(s[1..]) else s
  }

  /** `s.rstrip()`. */
  function StripEnd(s: string): (r: string)
    ensures |r| <= |s| && r == s[..|r|]
    ensures r == [] || !IsSpace(r[|r| - 1])
    ensures forall i :: |r| <= i < |s| ==> IsSpace(s[i])
    decreases |s|
  {
    if s != [] && IsSpace(s[|s| - 1]) then StripEnd(s[..|s| - 1]) else s
  }

  predicate AllSpace(s: string)
  {
    forall k :: 0 <= k < |s| ==> IsSpace(s[k])
  }

  /** r is s with whitespace-only text removed before position i and after r. */
  predicate SliceBetweenSpaces(s: string, r: string, i: int)
  {
    0 <= i && i + |r| <= |s| && r == s[i..i + |r|] && AllSpace(s[..i]) && AllSpace(s[i + |r|..])
  }

  /** `s.strip()`: the slice of s left after removing whitespace at both ends. */
  function Strip(s: string): (r: string)
    ensures Trimmed(r)
    ensures exists i :: SliceBetweenSpaces(s, r, i)
  {
    var t := StripStart(s);
    var r := StripEnd(t);
    StripBothEnds(s, t, r);
    r
  }

  /** Whitespace removed from the front of s, then from the back of what is left, leaves a slice between spaces. */
  lemma StripBothEnds(s: string, t: string, r: string)
    requires |t| <= |s| && t == s[|s| - |t|..] && forall i :: 0 <= i < |s| - |t| ==> IsSpace(s[i])
    requires |r| <= |t| && r == t[..|r|] && forall i :: |r| <= i < |t| ==> IsSpace(t[i])
    requires (t == [] || !IsSpace(t[0])) && (r == [] || !IsSpace(r[|r| - 1]))
    ensures SliceBetweenSpaces(s, r, |s| - |t|)
    ensures Trimmed(r)
  {
    assert r == s[|s| - |t|..|s| - |t| + |r|];
    var tail := s[|s| - |t| + |r|..];
    forall k | 0 <= k < |tail| ensures IsSpace(tail[k]) {
      assert tail[k] == t[|r| + k];
    }
  }

  /** A slice of a collapsed text is collapsed. */
  lemma CollapsedSlice(s: string, i: int, j: int)
    requires Collapsed(s) && 0 <= i <= j <= |s|
    ensures Collapsed(s[i..j])
  {
    var t := s[i..j];
    forall k | 0 < k < |t| && IsSpace(t[k]) ensures !IsSpace(t[k - 1]) {
      assert t[k] == s[i + k] && t[k - 1] == s[i + k - 1];
    }
  }

  /** The trimmed, collapsed text that `Strip` leaves of a collapsed text. */
  lemma StripCollapsed(s: string)
    requires Collapsed(s)
    ensures Collapsed(Strip(s)) && Trimmed(Strip(s))
  {
    var r := Strip(s);
    var i :| SliceBetweenSpaces(s, r, i);
    var j := i + |r|;
    CollapsedSlice(s, i, j);
    assert s[i..j] == r;
  }

  /** `re.sub(r'\s+', ' ', s)`: every maximal run of whitespace becomes one space. */
  function CollapseSpaces(s: string): (r: string)
    ensures Collapsed(r)
    ensures s == [] <==> r == []
    ensures s != [] ==> (IsSpace(r[0]) <==> IsSpace(s[0])) && (!IsSpace(s[0]) ==> r[0] == s[0])
    decreases |s|
  {
    if s == [] then []
    else if IsSpace(s[0]) then
      var t := CollapseSpaces(StripStart(s[1..]));
      CollapsedCons(' ', t);
      [' '] + t
    else
      var t := CollapseSpaces(s[1..]);
      CollapsedCons(s[0], t);
      [s[0]] + t
  }

  /** A collapsed text stays collapsed behind a character, unless both would be whitespace. */
  lemma CollapsedCons(c: char, t: string)
    requires Collapsed(t) && (IsSpace(c) ==> c == ' ' && (t == [] || !IsSpace(t[0])))
    ensures Collapsed([c] + t)
  {
    var r := [c] + t;
    forall i | 0 < i < |r| ensures r[i] == t[i - 1] { }
  }

  /** The non-whitespace characters of s, in order. */
  function Visible(s: string): string
  {
    if s == [] then [] else (if IsSpace(s[0]) then [] else [s[0]]) + Visible(s[1..])
  }

  lemma {:induction false} VisibleStripStart(s: string)
    ensures Visible(StripStart(s)) == Visible(s)
    decreases |s|
  {
    if s != [] && IsSpace(s[0]) {
      VisibleStripStart(s[1..]);
    }
  }

  /** Collapsing whitespace keeps every other character, in order. */
  lemma {:induction false} CollapseKeepsVisible(s: string)
    ensures Visible(CollapseSpaces(s)) == Visible(s)
    decreases |s|
  {
    if s != [] {
      var r := CollapseSpaces(s);
      if IsSpace(s[0]) {
        VisibleStripStart(s[1..]);
        CollapseKeepsVisible(StripStart(s[1..]));
        assert r == [' '] + CollapseSpaces(StripStart(s[1..]));
        assert Visible(r) == Visible(r[1..]) by { assert r[1..] == CollapseSpaces(StripStart(s[1..])); }
      } else {
        CollapseKeepsVisible(s[1..]);
        assert r[1..] == CollapseSpaces(s[1..]);
      }
    }
  }

  /** A collapsed text is a fixed point of collapsing, so collapsing twice is collapsing once. */
  lemma {:induction false} CollapseFixesCollapsed(s: string)
    requires Collapsed(s)
    ensures CollapseSpaces(s) == s
    decreases |s|
  {
    if s != [] {
      CollapsedSlice(s, 1, |s|);
      CollapseFixesCollapsed(s[1..]);
      if IsSpace(s[0]) {
        assert s[1..] == [] || !IsSpace(s[1]);
        assert StripStart(s[1..]) == s[1..];
      }
    }
  }

  // ---------------------------------------------------------------------------
  // s.split() and " ".join(words)

  /** The longest prefix of s without whitespace. */
  function WordPrefix(s: string): (w: string)
    ensures |w| <= |s| && w == s[..|w|] && NoSpace(w)
    ensures |w| == |s| || IsSpace(s[|w|])
    decreases |s|
  {
    if s == [] || IsSpace(s[0]) then [] else [s[0]] + WordPrefix(s[1..])
  }

  /** A whitespace-free prefix that ends at the end of s or before whitespace is the longest one. */
  lemma {:induction false} WordPrefixUnique(s: string, w: string)
    requires |w| <= |s| && w == s[..|w|] && NoSpace(w)
    requires |w| == |s| || IsSpace(s[|w|])
    ensures WordPrefix(s) == w
    decreases |w|
  {
    if w != [] {
      assert s[0] == w[0];
      var v := w[1..];
      assert v == s[1..][..|v|];
      WordPrefixUnique(s[1..], v);
      assert w == [s[0]] + v;
    }
  }

  /** Text after the end of the first word does not change it. */
  lemma WordPrefixAppend(a: string, b: string)
    requires |WordPrefix(a)| < |a| || (b != [] && IsSpace(b[0]))
    ensures WordPrefix(a + b) == WordPrefix(a)
  {
    var w := WordPrefix(a);
    var s := a + b;
    assert w == s[..|w|];
    assert IsSpace(s[|w|]) by {
      if |w| < |a| { assert s[|w|] == a[|w|]; } else { assert s[|w|] == b[0]; }
    }
    WordPrefixUnique(s, w);
  }

  predicate AllWords(ws: seq<string>)
  {
    forall k :: 0 <= k < |ws| ==> ws[k] != [] && NoSpace(ws[k])
  }

  lemma AllWordsCons(w: string, ws: seq<string>)
    requires w != [] && NoSpace(w) && AllWords(ws)
    ensures AllWords([w] + ws)
  {
    forall k | 0 < k < |ws| + 1 ensures ([w] + ws)[k] == ws[k - 1] { }
  }

  /** `s.split()`: the maximal runs of non-whitespace characters. */
  function Words(s: string): (ws: seq<string>)
    ensures AllWords(ws)
    decreases |s|
  {
    if s == [] then []
    else if IsSpace(s[0]) then Words(s[1..])
    else
      var w := WordPrefix(s);
      var ws := Words(s[|w|..]);
      AllWordsCons(w, ws);
      [w] + ws
  }

  /** `" ".join(ws)`. */
  function JoinWords(ws: seq<string>): string
  {
    if ws == [] then [] else if |ws| == 1 then ws[0] else ws[0] + " " + JoinWords(ws[1..])
  }

  /** Words joined by single spaces form a trimmed, collapsed text. */
  lemma {:induction false} JoinWordsShape(ws: seq<string>)
    requires AllWords(ws)
    ensures Collapsed(JoinWords(ws)) && Trimmed(JoinWords(ws))
    ensures ws != [] ==> JoinWords(ws) != [] && JoinWords(ws)[0] == ws[0][0]
    decreases |ws|
  {
    if |ws| > 1 {
      JoinWordsShape(ws[1..]);
      var a, b := ws[0], JoinWords(ws[1..]);
      var r := a + " " + b;
      assert NoSpace(a) && a != [] && b != [] && !IsSpace(b[0]);
      forall i | 0 <= i < |r| && IsSpace(r[i]) ensures r[i] == ' ' {
        if i > |a| { assert r[i] == b[i - |a| - 1]; }
      }
      assert r[|a| + 1] == b[0];
      forall i | 0 < i < |r| && IsSpace(r[i]) ensures !IsSpace(r[i - 1]) {
        if i > |a| + 1 { assert r[i] == b[i - |a| - 1] && r[i - 1] == b[i - |a| - 2]; }
      }
      assert r[|r| - 1] == b[|b| - 1];
    }
  }

  /** Whitespace in front of a text does not change its words. */
  lemma {:induction false} WordsAfterSpaces(a: string, b: string)
    requires AllSpace(a)
    ensures Words(a + b) == Words(b)
    decreases |a|
  {
    if a == [] {
      assert a + b == b;
    } else {
      assert (a + b)[1..] == a[1..] + b;
      WordsAfterSpaces(a[1..], b);
    }
  }

  /** A whitespace-only text has no words. */
  lemma WordsOfSpaces(s: string)
    requires AllSpace(s)
    ensures Words(s) == []
  {
    WordsAfterSpaces(s, []);
    assert s + [] == s;
  }

  /** `s.split()` ignores leading whitespace. */
  lemma {:induction false} WordsStripStart(s: string)
    ensures Words(StripStart(s)) == Words(s)
    decreases |s|
  {
    if s != [] && IsSpace(s[0]) {
      WordsStripStart(s[1..]);
    }
  }

  /** A non-empty text without whitespace is one word. */
  lemma WordsOfWord(w: string)
    requires w != [] && NoSpace(w)
    ensures Words(w) == [w]
  {
    WordPrefixUnique(w, w);
    assert w[|w|..] == [];
  }

  /** Text that starts with whitespace, appended after a word, leaves the first word alone. */
  lemma WordsFrontAppend(t: string, z: string)
    requires t != [] && !IsSpace(t[0]) && z != [] && IsSpace(z[0])
    ensures Words(t + z) == [WordPrefix(t)] + Words(t[|WordPrefix(t)|..] + z)
  {
    var s := t + z;
    var w := WordPrefix(t);
    WordPrefixAppend(t, z);
    assert s[|w|..] == t[|w|..] + z;
  }

  /** A whitespace character splits the words: `(x + c + y).split() == x.split() + y.split()`. */
  lemma {:induction false} WordsAtSpace(x: string, c: char, y: string)
    requires IsSpace(c)
    ensures Words(x + [c] + y) == Words(x) + Words(y)
    decreases |x|
  {
    var z := [c] + y;
    assert x + [c] + y == x + z;
    if x == [] {
      assert x + z == z && z[1..] == y;
    } else if IsSpace(x[0]) {
      assert (x + z)[1..] == x[1..] + [c] + y;
      WordsAtSpace(x[1..], c, y);
    } else {
      WordsFrontAppend(x, z);
      var rest := x[|WordPrefix(x)|..];
      WordsAtSpace(rest, c, y);
      assert rest + z == rest + [c] + y;
    }
  }

  lemma WordsBeforeSpaces(a: string, b: string)
    requires AllSpace(b)
    ensures Words(a + b) == Words(a)
  {
    if b == [] {
      assert a + b == a;
    } else {
      assert a + b == a + [b[0]] + b[1..];
      WordsAtSpace(a, b[0], b[1..]);
      WordsOfSpaces(b[1..]);
    }
  }

  /** Splitting words joined by single spaces gives the words back. */
  lemma {:induction false} WordsOfJoin(ws: seq<string>)
    requires AllWords(ws)
    ensures Words(JoinWords(ws)) == ws
    decreases |ws|
  {
    if ws == [] {
      WordsOfSpaces([]);
    } else if |ws| == 1 {
      WordsOfWord(ws[0]);
    } else {
      WordsOfJoin(ws[1..]);
      WordsOfWord(ws[0]);
      WordsAtSpace(ws[0], ' ', JoinWords(ws[1..]));
    }
  }

  /** The words one after the other, with nothing between them. */
  function Concat(ws: seq<string>): string
  {
    if ws == [] then [] else ws[0] + Concat(ws[1..])
  }

  lemma {:induction false} VisibleAppend(a: string, b: string)
    ensures Visible(a + b) == Visible(a) + Visible(b)
    decreases |a|
  {
    if a == [] {
      assert a + b == b;
    } else {
      assert (a + b)[1..] == a[1..] + b;
      VisibleAppend(a[1..], b);
    }
  }

  lemma {:induction false} VisibleWord(w: string)
    requires NoSpace(w)
    ensures Visible(w) == w
    decreases |w|
  {
    if w != [] {
      VisibleWord(w[1..]);
    }
  }

  /** `s.split()` drops the whitespace and nothing else: its words, run together, are the other characters of s in order. */
  lemma {:induction false} WordsKeepVisible(s: string)
    ensures Concat(Words(s)) == Visible(s)
    decreases |s|
  {
    if s != [] {
      if IsSpace(s[0]) {
        WordsKeepVisible(s[1..]);
      } else {
        var w := WordPrefix(s);
        var rest := s[|w|..];
        assert s == w + rest;
        VisibleAppend(w, rest);
        VisibleWord(w);
        WordsKeepVisible(rest);
      }
    }
  }

  /** A non-whitespace prefix runs through collapsing unchanged. */
  lemma {:induction false} CollapseAfterWord(w: string, x: string)
    requires NoSpace(w)
    ensures CollapseSpaces(w + x) == w + CollapseSpaces(x)
    decreases |w|
  {
    if w == [] {
      assert w + x == x;
    } else {
      assert (w + x)[1..] == w[1..] + x;
      CollapseAfterWord(w[1..], x);
    }
  }

  /** Collapsing whitespace keeps the words of a text. */
  lemma {:induction false} WordsOfCollapse(s: string)
    ensures Words(CollapseSpaces(s)) == Words(s)
    decreases |s|
  {
    if s != [] {
      if IsSpace(s[0]) {
        var t := StripStart(s[1..]);
        WordsOfCollapse(t);
        assert CollapseSpaces(s)[1..] == CollapseSpaces(t);
        WordsStripStart(s[1..]);
      } else {
        var w := WordPrefix(s);
        var rest := s[|w|..];
        assert s == w + rest;
        if rest != [] {
          WordsOfCollapse(StripStart(rest[1..]));
          WordsOfCollapseAfterWord(w, rest);
        } else {
          CollapseAfterWord(w, rest);
          assert w + CollapseSpaces(rest) == s;
        }
      }
    }
  }

  /** The step of `WordsOfCollapse` for a word followed by whitespace. */
  lemma WordsOfCollapseAfterWord(w: string, rest: string)
    requires NoSpace(w) && rest != [] && IsSpace(rest[0])
    requires Words(CollapseSpaces(StripStart(rest[1..]))) == Words(StripStart(rest[1..]))
    ensures Words(CollapseSpaces(w + rest)) == Words(w + rest)
  {
    var ct := CollapseSpaces(rest);
    assert ct[1..] == CollapseSpaces(StripStart(rest[1..]));
    CollapseAfterWord(w, rest);
    WordsAtHead(w, ct);
    WordsAtHead(w, rest);
    WordsStripStart(rest[1..]);
  }

  /** `(w + z).split()` for a text z that starts with whitespace. */
  lemma WordsAtHead(w: string, z: string)
    requires z != [] && IsSpace(z[0])
    ensures Words(w + z) == Words(w) + Words(z[1..])
  {
    assert w + z == w + [z[0]] + z[1..];
    WordsAtSpace(w, z[0], z[1..]);
  }

  /** Stripping keeps the words of a text. */
  lemma WordsOfStrip(s: string)
    ensures Words(Strip(s)) == Words(s)
  {
    WordsStripStart(s);
    WordsStripEnd(StripStart(s));
  }

  /** `s.split()` ignores trailing whitespace. */
  lemma {:induction false} WordsStripEnd(s: string)
    ensures Words(StripEnd(s)) == Words(s)
    decreases |s|
  {
    if s != [] && IsSpace(s[|s| - 1]) {
      var front := s[..|s| - 1];
      WordsStripEnd(front);
      assert s == front + [s[|s| - 1]];
      WordsBeforeSpaces(front, [s[|s| - 1]]);
    }
  }

  /** A trimmed, collapsed text is its words joined by single spaces. */
  lemma {:induction false} JoinOfWords(r: string)
    requires Collapsed(r) && Trimmed(r)
    ensures JoinWords(Words(r)) == r
    decreases |r|
  {
    if r != [] {
      var w := WordPrefix(r);
      if |w| == |r| {
        assert w == r;
        WordsOfWord(r);
      } else {
        var n := |w| + 1;
        assert r[|w|] == ' ' && n < |r| && !IsSpace(r[n]);
        var u := r[n..];
        CollapsedSlice(r, n, |r|);
        assert u[0] == r[n] && u[|u| - 1] == r[|r| - 1];
        JoinOfWords(u);
        assert r == w + [' '] + u;
        WordsAtSpace(w, ' ', u);
        WordsOfWord(w);
        assert Words(r)[1..] == Words(u);
      }
    }
  }

  /** `" ".join(s.split())` is `re.sub(r'\s+', ' ', s).strip()`. */
  lemma NormalizeIsCollapseStrip(s: string)
    ensures JoinWords(Words(s)) == Strip(CollapseSpaces(s))
  {
    var x := Strip(CollapseSpaces(s));
    StripCollapsed(CollapseSpaces(s));
    JoinOfWords(x);
    WordsOfStrip(CollapseSpaces(s));
    WordsOfCollapse(s);
  }

  /**
   * `" ".join(s.split())`: the whitespace of s collapsed to single spaces and stripped
   * from both ends; the words and the other characters are kept.
   */
  function Normalize(s: string): (r: string)
    ensures Collapsed(r) && Trimmed(r)
    ensures r == Strip(CollapseSpaces(s))
    ensures Words(r) == Words(s) && Visible(r) == Visible(s)
  {
    var ws := Words(s);
    JoinWordsShape(ws);
    NormalizeIsCollapseStrip(s);
    WordsOfJoin(ws);
    WordsKeepVisible(s);
    WordsKeepVisible(JoinWords(ws));
    JoinWords(ws)
  }

  /** `s[:n]`. */
  function Take(s: string, n: nat): (r: string)
    ensures |r| <= n && |r| <= |s| && r == s[..|r|]
    ensures |s| <= n ==> r == s
    ensures |r| == if |s| <= n then |s| else n
  {
    if |s| <= n then s else s[..n]
  }

  // ---------------------------------------------------------------------------
  // s.split(sep) and sep.join(parts)

  /** `s.split(sep)` for a one-character separator; `"".split(",")` is `[""]`, never empty. */
  function Split(s: string, sep: char): (parts: seq<string>)
    ensures |parts| >= 1
    ensures forall k :: 0 <= k < |parts| ==> sep !in parts[k]
    decreases |s|
  {
    if s == [] then [[]]
    else
      var rest := Split(s[1..], sep);
      if s[0] == sep then [[]] + rest else [[s[0]] + rest[0]] + rest[1..]
  }

  /** `sep.join(parts)`. */
  function JoinWith(parts: seq<string>, sep: char): string
    requires |parts| >= 1
  {
    if |parts| == 1 then parts[0] else parts[0] + [sep] + JoinWith(parts[1..], sep)
  }

  /** Joining the pieces of a split gives back the text. */
  lemma {:induction false} SplitThenJoin(s: string, sep: char)
    ensures JoinWith(Split(s, sep), sep) == s
    decreases |s|
  {
    if s != [] {
      var rest := Split(s[1..], sep);
      SplitThenJoin(s[1..], sep);
      if s[0] != sep {
        var parts := [[s[0]] + rest[0]] + rest[1..];
        assert parts[1..] == rest[1..];
        if |rest| > 1 {
          assert JoinWith(rest, sep) == rest[0] + [sep] + JoinWith(rest[1..], sep);
        }
      } else {
        assert ([[]] + rest)[1..] == rest;
      }
    }
  }

  /** Splitting a join of separator-free pieces gives back the pieces. */
  lemma {:induction false} JoinThenSplit(parts: seq<string>, sep: char)
    requires |parts| >= 1
    requires forall k :: 0 <= k < |parts| ==> sep !in parts[k]
    ensures Split(JoinWith(parts, sep), sep) == parts
    decreases |parts|, |parts[0]|
  {
    var p := parts[0];
    if p == [] {
      if |parts| > 1 {
        JoinThenSplit(parts[1..], sep);
        var s := JoinWith(parts, sep);
        assert s == [sep] + JoinWith(parts[1..], sep);
        assert s[1..] == JoinWith(parts[1..], sep);
        assert [[]] + parts[1..] == parts;
      }
    } else {
      var parts' := [p[1..]] + parts[1..];
      assert parts'[1..] == parts[1..];
      assert sep !in p[1..] by { assert forall c :: c in p[1..] ==> c in p; }
      JoinThenSplit(parts', sep);
      var s := JoinWith(parts, sep);
      var s' := JoinWith(parts', sep);
      assert s == [p[0]] + s' by {
        if |parts| > 1 {
          assert s == p + [sep] + JoinWith(parts[1..], sep);
          assert s' == p[1..] + [sep] + JoinWith(parts[1..], sep);
        }
        assert p == [p[0]] + p[1..];
      }
      assert s[1..] == s';
      assert p[0] != sep by { assert p[0] in p; }
      assert [[p[0]] + p[1..]] + parts[1..] == parts by { assert [p[0]] + p[1..] == p; }
    }
  }
}

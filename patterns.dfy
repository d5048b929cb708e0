/**
 * The ordered battery of `re.sub` passes that `clean_reply` runs over a generated
 * reply (app/services/reply.py, lines 54-111).
 *
 * Each pattern of the battery is written in a small pattern language that has just
 * what the battery uses: literal characters, `c?`, `\s*`, the classes `[:\s]` and
 * `['"]`, the anchors `^` and `$`, the look-behinds `(?<=\s)` and `(?<=\W)`, and
 * `\b`. Matching follows Python's order: the leftmost start position wins, and at
 * that position `c?` is tried with the character before without it and `\s*` is
 * tried longest first. The one pass whose replacement is a callable (line 110) has
 * its own constructor.
 */
module Patterns {
  import opened Strings

  /** The characters that one position of a pattern accepts. */
  datatype CharClass =
    | Lit(c: char)    // the character itself (either case when the pass ignores case)
    | ColonOrSpace    // [:\s]
    | QuoteMark       // ['"]

  datatype Atom =
    | One(cls: CharClass)  // exactly one character of the class
    | Word(w: string)      // the characters of w, one after another
    | Opt(c: char)         // c?
    | Spaces               // \s*

  /** What must hold just before the match. */
  datatype Before =
    | Anywhere
    | AtStart       // ^ (no MULTILINE: the start of the text only)
    | AfterSpace    // (?<=\s)
    | AfterNonWord  // (?<=\W)
    | AtBoundary    // \b

  /** What must hold just after the match. */
  datatype After =
    | Anything
    | AtEnd          // $ (the end of the text, or just before a final newline)
    | BoundaryAfter  // \b

  /** A pattern always starts with one character, so every match is non-empty. */
  datatype Pattern = Pattern(ignoreCase: bool, before: Before, head: CharClass, tail: seq<Atom>, after: After)

  datatype Pass =
    | Sub(pattern: Pattern, repl: string)  // re.sub(pattern, repl, text)
    | DropStandaloneAI                     // the pass with a callable replacement

  predicate CharMatches(cls: CharClass, c: char, ignoreCase: bool)
  {
    match cls
    case Lit(x) => if ignoreCase then LowerChar(x) == LowerChar(c) else x == c
    case ColonOrSpace => c == ':' || IsSpace(c)
    case QuoteMark => c == '\'' || c == '"'
  }

  /** The text as a pattern compares it: lower-cased when the pass ignores case. */
  function Fold(s: string, ignoreCase: bool): string
  {
    if ignoreCase then Lower(s) else s
  }

  /** w occurs in s at j, in either case when the pass ignores case. */
  predicate TextAt(s: string, w: string, j: nat, ignoreCase: bool)
  {
    j + |w| <= |s| && Fold(s[j..j + |w|], ignoreCase) == Fold(w, ignoreCase)
  }

  predicate WordAt(s: string, i: int)
  {
    0 <= i < |s| && IsWordChar(s[i])
  }

  predicate BeforeHolds(b: Before, s: string, i: nat)
    requires i <= |s|
  {
    match b
    case Anywhere => true
    case AtStart => i == 0
    case AfterSpace => i > 0 && IsSpace(s[i - 1])
    case AfterNonWord => i > 0 && !IsWordChar(s[i - 1])
    case AtBoundary => WordAt(s, i - 1) != WordAt(s, i)
  }

  predicate AfterHolds(a: After, s: string, j: nat)
    requires j <= |s|
  {
    match a
    case Anything => true
    case AtEnd => j == |s| || (j == |s| - 1 && s[j] == '\n')
    case BoundaryAfter => WordAt(s, j - 1) != WordAt(s, j)
  }

  /** The end of the run of whitespace that starts at j. */
  function SpaceRunEnd(s: string, j: nat): (e: nat)
    requires j <= |s|
    ensures j <= e <= |s|
    ensures forall k :: j <= k < e ==> IsSpace(s[k])
    ensures e == |s| || !IsSpace(s[e])
    decreases |s| - j
  {
    if j < |s| && IsSpace(s[j]) then SpaceRunEnd(s, j + 1) else j
  }

  /**
   * Where the atoms, tried from position j in Python's backtracking order, end their
   * first successful match (including the check after the match); None if none.
   */
  function MatchAtoms(p: Pattern, s: string, atoms: seq<Atom>, j: nat): (r: Option<nat>)
    requires j <= |s|
    ensures r.Some? ==> j <= r.value <= |s|
    decreases |atoms|, 0, 0
  {
    if atoms == [] then
      (if AfterHolds(p.after, s, j) then Some(j) else None)
    else
      match atoms[0]
      case One(cls) =>
        if j < |s| && CharMatches(cls, s[j], p.ignoreCase) then MatchAtoms(p, s, atoms[1..], j + 1) else None
      case Word(w) =>
        if TextAt(s, w, j, p.ignoreCase) then MatchAtoms(p, s, atoms[1..], j + |w|) else None
      case Opt(c) =>
        var taken := if j < |s| && CharMatches(Lit(c), s[j], p.ignoreCase) then MatchAtoms(p, s, atoms[1..], j + 1) else None;
        if taken.Some? then taken else MatchAtoms(p, s, atoms[1..], j)
      case Spaces =>
        BacktrackSpaces(p, s, atoms[1..], j, SpaceRunEnd(s, j))
  }

  /** `\s*` over the whitespace from lo to k: the rest is tried after k, then after k - 1, down to lo. */
  function BacktrackSpaces(p: Pattern, s: string, rest: seq<Atom>, lo: nat, k: nat): (r: Option<nat>)
    requires lo <= k <= |s|
    ensures r.Some? ==> lo <= r.value <= |s|
    decreases |rest|, 1, k - lo
  {
    var m := MatchAtoms(p, s, rest, k);
    if m.Some? then m
    else if k == lo then None
    else BacktrackSpaces(p, s, rest, lo, k - 1)
  }

  /** The end of the match of p that starts at position i, if there is one. */
  function MatchAt(p: Pattern, s: string, i: nat): (r: Option<nat>)
    requires i < |s|
    ensures r.Some? ==> i < r.value <= |s|
  {
    if BeforeHolds(p.before, s, i) && CharMatches(p.head, s[i], p.ignoreCase)
    then MatchAtoms(p, s, p.tail, i + 1)
    else None
  }

  /** `re.sub(p, repl, s)`, scanning from position i: each match is replaced and scanning resumes after it. */
  function SubFrom(p: Pattern, repl: string, s: string, i: nat): string
    requires i <= |s|
    decreases |s| - i
  {
    if i == |s| then []
    else
      match MatchAt(p, s, i)
      case Some(e) => repl + SubFrom(p, repl, s, e)
      case None => [s[i]] + SubFrom(p, repl, s, i + 1)
  }

  /** The end of the run of word characters that starts at i. */
  function WordRunEnd(s: string, i: nat): (e: nat)
    requires i <= |s|
    ensures i <= e <= |s|
    ensures forall k :: i <= k < e ==> IsWordChar(s[k])
    ensures e == |s| || !IsWordChar(s[e])
    decreases |s| - i
  {
    if i < |s| && IsWordChar(s[i]) then WordRunEnd(s, i + 1) else i
  }

  /**
   * The callable of the last pass applied to one whole word: `(\w*)ai(\w*)` matches a
   * word holding "ai" from its first to its last character, and the callable drops
   * the "ai" of the words "ai" and "ais" and keeps every other word.
   */
  function FixWord(w: string): (r: string)
    ensures |r| <= |w| && r == w[|w| - |r|..]
    ensures r == w <==> KeptWord(w)
  {
    if Lower(w) == "ai" then []
    else if Lower(w) == "ais" then w[2..]
    else w
  }

  /** A word the callable returns as it is: any word but "ai" and "ais", in any case. */
  predicate KeptWord(w: string)
  {
    Lower(w) != "ai" && Lower(w) != "ais"
  }

  /** `re.sub(r'(?i)(\w*)ai(\w*)', callable, s)`, scanning from position i. */
  function DropStandaloneAIFrom(s: string, i: nat): string
    requires i <= |s|
    decreases |s| - i
  {
    if i == |s| then []
    else if IsWordChar(s[i]) then
      var e := WordRunEnd(s, i);
      FixWord(s[i..e]) + DropStandaloneAIFrom(s, e)
    else [s[i]] + DropStandaloneAIFrom(s, i + 1)
  }

  function ApplyPass(pass: Pass, s: string): string
  {
    match pass
    case Sub(p, repl) => SubFrom(p, repl, s, 0)
    case DropStandaloneAI => DropStandaloneAIFrom(s, 0)
  }

  // ---------------------------------------------------------------------------
  // The battery

  /** A case-insensitive pattern, anywhere in the text, that starts with head. */
  function Ci(head: char, tail: seq<Atom>): Pattern
  {
    Pattern(true, Anywhere, Lit(head), tail, Anything)
  }

  function Remove(p: Pattern): Pass
  {
    Sub(p, [])
  }

  /** A role marker `word[:\s]` under the given condition before it. */
  function RoleMarker(before: Before, word: string): Pattern
    requires word != []
  {
    Pattern(true, before, Lit(word[0]), [Word(word[1..]), One(ColonOrSpace)], Anything)
  }

  /** `I`, optional whitespace, `don't` with an optional apostrophe, then more words. */
  function IDontHave(tail: seq<Atom>): Pattern
  {
    Ci('I', [Spaces, Word("don"), Opt('\''), Word("t"), Spaces, Word("have"), Spaces] + tail)
  }

  /** The number of passes in the battery. */
  const BatterySize := 37

  /** Pass k of lines 56-110, counting from 0. */
  function BatteryPass(k: nat): Pass
    requires k < BatterySize
  {
    match k
    // the vendor name
    case 0 => Remove(Ci('d', [Word("eepseek")]))
    case 1 => Remove(Ci('d', [Word("eep"), Spaces, Word("seek")]))
    case 2 => Remove(Ci('d', [Word("eep-seek")]))
    // being an AI
    case 3 => Remove(Ci('a', [Word("s"), Spaces, Word("a"), Opt('n'), Spaces, Word("AI")]))
    case 4 => Remove(Ci('I', [Word("'m"), Spaces, Word("a"), Opt('n'), Spaces, Word("AI")]))
    case 5 => Remove(Ci('A', [Word("I"), Spaces, Word("assistant")]))
    case 6 => Remove(Ci('A', [Word("I"), Spaces, Word("model")]))
    case 7 => Remove(Ci('l', [Word("anguage"), Spaces, Word("model")]))
    case 8 => Remove(Ci('L', [Word("LM")]))
    case 9 => Remove(Ci('G', [Word("PT")]))
    case 10 => Remove(Ci('c', [Word("hat"), Spaces, Word("GPT")]))
    case 11 => Remove(Ci('a', [Word("rtificial"), Spaces, Word("intelligence")]))
    // assistant-like phrases
    case 12 => Remove(IDontHave([Word("personal")]))
    case 13 => Remove(Ci('I', [Spaces, Word("cannot")]))
    case 14 => Remove(Ci('I', [Word("'m"), Spaces, Word("not"), Spaces, Word("able"), Spaces, Word("to")]))
    case 15 => Remove(IDontHave([Word("access"), Spaces, Word("to")]))
    case 16 => Remove(IDontHave([Word("the"), Spaces, Word("ability")]))
    case 17 => Remove(Ci('A', [Word("s"), Spaces, Word("a"), Opt('n'), Spaces, Word("language"), Spaces, Word("model")]))
    case 18 => Remove(Ci('A', [Word("s"), Spaces, Word("a"), Opt('n'), Spaces, Word("text-based")]))
    case 19 => Remove(IDontHave([Word("physical")]))
    // role prefixes at the start
    case 20 => Remove(RoleMarker(AtStart, "assistant"))
    case 21 => Remove(RoleMarker(AtStart, "user"))
    case 22 => Remove(RoleMarker(AtStart, "system"))
    case 23 => Remove(RoleMarker(AtStart, "AI"))
    // role markers anywhere
    case 24 => Sub(RoleMarker(AfterSpace, "assistant"), " ")
    case 25 => Sub(RoleMarker(AfterSpace, "user"), " ")
    case 26 => Sub(RoleMarker(AfterNonWord, "AI"), " ")
    // a quotation mark at either end
    case 27 => Remove(Pattern(false, AtStart, QuoteMark, [], Anything))
    case 28 => Remove(Pattern(false, Anywhere, QuoteMark, [], AtEnd))
    // "the AI"
    case 29 => Sub(Ci('t', [Word("he"), Spaces, Word("AI")]), "it")
    // the word AI
    case 30 => Remove(Pattern(true, AtBoundary, Lit('A'), [Word("I")], BoundaryAfter))
    // technology terms
    case 31 => Sub(Ci('p', [Word("owered"), Spaces, Word("by")]), "made with")
    case 32 => Sub(Ci('t', [Word("echnology")]), "tech")
    case 33 => Sub(Ci('t', [Word("rained"), Spaces, Word("on")]), "based on")
    case 34 => Sub(Ci('g', [Word("enerate"), Spaces, Word("responses")]), "create replies")
    case 35 => Sub(Ci('c', [Word("hatbot")]), "app")
    // "ai" and "ais" as whole words
    case _ => DropStandaloneAI
  }

  /** The first n passes of the battery applied to s in order, the first pass first. */
  function Scrub(n: nat, s: string): string
    requires n <= BatterySize
  {
    if n == 0 then s else ApplyPass(BatteryPass(n - 1), Scrub(n - 1, s))
  }

  // ---------------------------------------------------------------------------
  // Properties

  lemma FoldConcat(a: string, b: string, ignoreCase: bool)
    ensures Fold(a + b, ignoreCase) == Fold(a, ignoreCase) + Fold(b, ignoreCase)
  {
  }

  lemma FoldSlice(s: string, i: nat, j: nat, ignoreCase: bool)
    requires i <= j <= |s|
    ensures Fold(s, ignoreCase)[i..j] == Fold(s[i..j], ignoreCase)
  {
  }

  /** A pass of literal characters only. */
  function LiteralPattern(ignoreCase: bool, w: string): Pattern
    requires w != []
  {
    Pattern(ignoreCase, Anywhere, Lit(w[0]), [Word(w[1..])], Anything)
  }

  /** An occurrence of a non-empty word is its first character followed by an occurrence of the rest. */
  lemma OccursAtCons(t: string, v: string, j: nat)
    requires v != []
    ensures OccursAt(t, v, j) <==> j < |t| && t[j] == v[0] && OccursAt(t, v[1..], j + 1)
  {
    if j + |v| <= |t| {
      assert t[j..j + |v|] == [t[j]] + t[j + 1..j + |v|];
      assert v == [v[0]] + v[1..];
    }
  }

  /** The folded word is the folded first character followed by the folded rest. */
  lemma FoldCons(w: string, ci: bool)
    requires w != []
    ensures Fold(w, ci) != [] && Fold(w, ci)[1..] == Fold(w[1..], ci)
    ensures Fold(w, ci)[0] == if ci then LowerChar(w[0]) else w[0]
  {
  }

  /** A word atom at the end of a pattern matches exactly where the folded word occurs in the folded text. */
  lemma MatchWord(p: Pattern, s: string, w: string, j: nat)
    requires j <= |s| && p.after == Anything
    ensures MatchAtoms(p, s, [Word(w)], j)
         == if OccursAt(Fold(s, p.ignoreCase), Fold(w, p.ignoreCase), j) then Some(j + |w|) else None
  {
    if j + |w| <= |s| {
      FoldSlice(s, j, j + |w|, p.ignoreCase);
    }
  }

  /** A literal pattern matches at i exactly where the folded word occurs at i in the folded text. */
  lemma MatchAtLiteral(ci: bool, w: string, s: string, i: nat)
    requires w != [] && i < |s|
    ensures MatchAt(LiteralPattern(ci, w), s, i)
         == if OccursAt(Fold(s, ci), Fold(w, ci), i) then Some(i + |w|) else None
  {
    var p := LiteralPattern(ci, w);
    MatchWord(p, s, w[1..], i + 1);
    FoldCons(w, ci);
    OccursAtCons(Fold(s, ci), Fold(w, ci), i);
    assert CharMatches(Lit(w[0]), s[i], ci) <==> Fold(s, ci)[i] == Fold(w, ci)[0];
  }

  /** `str.replace` on a text that does not start with the pattern keeps its first character. */
  lemma ReplaceHead(x: string, pat: string, repl: string)
    requires pat != [] && x != []
    requires !OccursAt(x, pat, 0)
    ensures Replace(x, pat, repl) == [x[0]] + Replace(x[1..], pat, repl)
  {
    if |x| < |pat| {
      ReplaceShort(x[1..], pat, repl);
      assert x == [x[0]] + x[1..];
    }
  }

  lemma ReplaceShort(x: string, pat: string, repl: string)
    requires pat != [] && |x| < |pat|
    ensures Replace(x, pat, repl) == x
  {
  }

  /**
   * A literal pass substitutes like `str.replace` on the folded text: the regular
   * expression engine and `str.replace` agree on literal patterns.
   */
  lemma {:induction false} LiteralSubIsReplace(ignoreCase: bool, w: string, repl: string, s: string, i: nat)
    requires w != [] && i <= |s|
    ensures Fold(SubFrom(LiteralPattern(ignoreCase, w), repl, s, i), ignoreCase)
         == Replace(Fold(s, ignoreCase)[i..], Fold(w, ignoreCase), Fold(repl, ignoreCase))
    decreases |s| - i, 1
  {
    if i < |s| {
      MatchAtLiteral(ignoreCase, w, s, i);
      if OccursAt(Fold(s, ignoreCase), Fold(w, ignoreCase), i) {
        LiteralSubAtMatch(ignoreCase, w, repl, s, i);
      } else {
        LiteralSubPastChar(ignoreCase, w, repl, s, i);
      }
    }
  }

  /** Where the literal occurs, both replace it and carry on after it. */
  lemma {:induction false} LiteralSubAtMatch(ignoreCase: bool, w: string, repl: string, s: string, i: nat)
    requires w != [] && i < |s|
    requires OccursAt(Fold(s, ignoreCase), Fold(w, ignoreCase), i)
    requires MatchAt(LiteralPattern(ignoreCase, w), s, i) == Some(i + |w|)
    ensures Fold(SubFrom(LiteralPattern(ignoreCase, w), repl, s, i), ignoreCase)
         == Replace(Fold(s, ignoreCase)[i..], Fold(w, ignoreCase), Fold(repl, ignoreCase))
    decreases |s| - i, 0
  {
    var p := LiteralPattern(ignoreCase, w);
    var fs, fw, fr := Fold(s, ignoreCase), Fold(w, ignoreCase), Fold(repl, ignoreCase);
    var x := fs[i..];
    var e := i + |w|;
    var rest := SubFrom(p, repl, s, e);
    assert SubFrom(p, repl, s, i) == repl + rest;
    LiteralSubIsReplace(ignoreCase, w, repl, s, e);
    FoldConcat(repl, rest, ignoreCase);
    ReplaceAtStart(x, fw, fr);
    assert x[|fw|..] == fs[e..];
  }

  /** Where the literal does not occur, both keep the character and carry on after it. */
  lemma {:induction false} LiteralSubPastChar(ignoreCase: bool, w: string, repl: string, s: string, i: nat)
    requires w != [] && i < |s|
    requires !OccursAt(Fold(s, ignoreCase), Fold(w, ignoreCase), i)
    requires MatchAt(LiteralPattern(ignoreCase, w), s, i).None?
    ensures Fold(SubFrom(LiteralPattern(ignoreCase, w), repl, s, i), ignoreCase)
         == Replace(Fold(s, ignoreCase)[i..], Fold(w, ignoreCase), Fold(repl, ignoreCase))
    decreases |s| - i, 0
  {
    var p := LiteralPattern(ignoreCase, w);
    var fs, fw, fr := Fold(s, ignoreCase), Fold(w, ignoreCase), Fold(repl, ignoreCase);
    var x := fs[i..];
    var j := i + 1;
    var rest := SubFrom(p, repl, s, j);
    assert SubFrom(p, repl, s, i) == [s[i]] + rest;
    LiteralSubIsReplace(ignoreCase, w, repl, s, j);
    FoldConcat([s[i]], rest, ignoreCase);
    assert Fold([s[i]], ignoreCase) == [x[0]];
    ReplaceHead(x, fw, fr);
    assert x[1..] == fs[j..];
  }

  /** A pass with no match anywhere leaves the text as it is. */
  lemma {:induction false} SubWithoutMatch(p: Pattern, repl: string, s: string, i: nat)
    requires i <= |s|
    requires forall k :: i <= k < |s| ==> MatchAt(p, s, k).None?
    ensures SubFrom(p, repl, s, i) == s[i..]
    decreases |s| - i
  {
    if i < |s| {
      SubWithoutMatch(p, repl, s, i + 1);
      assert s[i..] == [s[i]] + s[i + 1..];
    }
  }

  /** A case-insensitive literal removal leaves a text alone when the word does not occur in it in any case. */
  lemma LiteralPassWithoutWord(w: string, repl: string, s: string)
    requires w != []
    requires !Contains(Lower(s), Lower(w))
    ensures SubFrom(LiteralPattern(true, w), repl, s, 0) == s
  {
    var p := LiteralPattern(true, w);
    forall k | 0 <= k < |s| ensures MatchAt(p, s, k).None? {
      LiteralMatchOccurs(w, s, k);
    }
    SubWithoutMatch(p, repl, s, 0);
  }

  /** Where a case-insensitive literal pattern matches, its case-folded word occurs in the case-folded text. */
  lemma LiteralMatchOccurs(w: string, s: string, k: nat)
    requires w != [] && k < |s|
    ensures MatchAt(LiteralPattern(true, w), s, k).Some? ==> OccursAt(Lower(s), Lower(w), k)
  {
    var p := LiteralPattern(true, w);
    MatchWord(p, s, w[1..], k + 1);
    assert Lower(w) == Lower(w[..1]) + Lower(w[1..]) by {
      FoldConcat(w[..1], w[1..], true);
      assert w == w[..1] + w[1..];
    }
    if MatchAt(p, s, k).Some? {
      assert Lower(s)[k..k + |w|] == [Lower(s)[k]] + Lower(s)[k + 1..k + |w|];
    }
  }

  /** The callable pass keeps a text in which "ai" does not occur in any case. */
  lemma {:induction false} DropStandaloneAIWithoutAi(s: string, i: nat)
    requires i <= |s|
    requires !Contains(Lower(s), "ai")
    ensures DropStandaloneAIFrom(s, i) == s[i..]
    decreases |s| - i
  {
    if i < |s| {
      if IsWordChar(s[i]) {
        var e := WordRunEnd(s, i);
        DropStandaloneAIWithoutAi(s, e);
        KeepWordWithoutAi(s, i, e);
      } else {
        var n := i + 1;
        DropStandaloneAIWithoutAi(s, n);
        KeepCharWithoutAi(s, i, n);
      }
    }
  }

  /** The step of `DropStandaloneAIWithoutAi` over one character outside a word. */
  lemma KeepCharWithoutAi(s: string, i: nat, n: nat)
    requires i < |s| && !IsWordChar(s[i]) && n == i + 1
    requires DropStandaloneAIFrom(s, n) == s[n..]
    ensures DropStandaloneAIFrom(s, i) == s[i..]
  {
    assert s[i..] == [s[i]] + s[n..];
  }

  /** The step of `DropStandaloneAIWithoutAi` over one word. */
  lemma KeepWordWithoutAi(s: string, i: nat, e: nat)
    requires i < |s| && IsWordChar(s[i]) && e == WordRunEnd(s, i)
    requires !Contains(Lower(s), "ai")
    requires DropStandaloneAIFrom(s, e) == s[e..]
    ensures DropStandaloneAIFrom(s, i) == s[i..]
  {
    var w := s[i..e];
    FixWordWithoutAi(s, i, e, w);
    assert s[i..] == w + s[e..];
  }

  /** A word of a text without "ai" in any case is kept by the callable. */
  lemma FixWordWithoutAi(s: string, i: nat, e: nat, w: string)
    requires i <= e <= |s| && w == s[i..e]
    requires !Contains(Lower(s), "ai")
    ensures FixWord(w) == w
  {
    if |w| >= 2 {
      assert Lower(w)[0] == Lower(s)[i] && Lower(w)[1] == Lower(s)[i + 1];
      assert !OccursAt(Lower(s), "ai", i);
    }
  }

  /** A maximal run of word characters starts at i. */
  predicate WordStart(s: string, i: nat)
  {
    i < |s| && IsWordChar(s[i]) && (i == 0 || !IsWordChar(s[i - 1]))
  }

  /** Every whole word of s from position i on is one the callable keeps. */
  predicate WordsKeptFrom(s: string, i: nat)
    requires i <= |s|
  {
    forall k :: i <= k < |s| && WordStart(s, k) ==> KeptWord(s[k..WordRunEnd(s, k)])
  }

  /**
   * The callable pass never lengthens the text, and leaves it unchanged exactly when
   * none of its whole words is "ai" or "ais": words such as "said", "rain" or
   * "again" come through.
   */
  lemma {:induction false} DropStandaloneAIKeepsWords(s: string, i: nat)
    requires i <= |s| && (i == 0 || i == |s| || !IsWordChar(s[i - 1]) || !IsWordChar(s[i]))
    ensures |DropStandaloneAIFrom(s, i)| <= |s| - i
    ensures DropStandaloneAIFrom(s, i) == s[i..] <==> WordsKeptFrom(s, i)
    decreases |s| - i
  {
    if i < |s| {
      if IsWordChar(s[i]) {
        var e := WordRunEnd(s, i);
        DropStandaloneAIKeepsWords(s, e);
        KeepWordStep(s, i, e);
      } else {
        var n := i + 1;
        DropStandaloneAIKeepsWords(s, n);
        SkipCharStep(s, i, n);
      }
    }
  }

  /** The step of `DropStandaloneAIKeepsWords` over one whole word. */
  lemma KeepWordStep(s: string, i: nat, e: nat)
    requires i < |s| && IsWordChar(s[i]) && (i == 0 || !IsWordChar(s[i - 1]))
    requires e == WordRunEnd(s, i)
    requires |DropStandaloneAIFrom(s, e)| <= |s| - e
    requires DropStandaloneAIFrom(s, e) == s[e..] <==> WordsKeptFrom(s, e)
    ensures |DropStandaloneAIFrom(s, i)| <= |s| - i
    ensures DropStandaloneAIFrom(s, i) == s[i..] <==> WordsKeptFrom(s, i)
  {
    var w, t := s[i..e], s[e..];
    DropAtWord(s, i, e, w, t);
    WordsKeptAtWord(s, i, e);
    SplitEqual(FixWord(w), DropStandaloneAIFrom(s, e), w, t);
  }

  /** At a word start the pass rewrites the word and carries on after it. */
  lemma DropAtWord(s: string, i: nat, e: nat, w: string, t: string)
    requires i < |s| && IsWordChar(s[i]) && e == WordRunEnd(s, i)
    requires w == s[i..e] && t == s[e..]
    ensures DropStandaloneAIFrom(s, i) == FixWord(w) + DropStandaloneAIFrom(s, e)
    ensures s[i..] == w + t
  {
    assert i != |s| && IsWordChar(s[i]);
    assert e == WordRunEnd(s, i);
  }

  /** Whole words from a word start on: that word, then those from its end on. */
  lemma WordsKeptAtWord(s: string, i: nat, e: nat)
    requires i < |s| && IsWordChar(s[i]) && (i == 0 || !IsWordChar(s[i - 1]))
    requires e == WordRunEnd(s, i)
    ensures WordsKeptFrom(s, i) <==> KeptWord(s[i..e]) && WordsKeptFrom(s, e)
  {
    assert WordStart(s, i);
    forall k | i < k < e ensures !WordStart(s, k) {
      assert IsWordChar(s[k - 1]);
    }
  }

  /** Two concatenations whose parts are no longer than their counterparts are equal only part by part. */
  lemma SplitEqual(a: string, b: string, x: string, y: string)
    requires |a| <= |x| && |b| <= |y|
    ensures a + b == x + y <==> a == x && b == y
  {
    if a + b == x + y {
      assert a == (a + b)[..|a|] == (x + y)[..|x|] == x;
      assert b == (a + b)[|a|..] == (x + y)[|x|..] == y;
    }
  }

  /** The step of `DropStandaloneAIKeepsWords` over one character outside a word. */
  lemma SkipCharStep(s: string, i: nat, n: nat)
    requires i < |s| && !IsWordChar(s[i]) && n == i + 1
    requires |DropStandaloneAIFrom(s, n)| <= |s| - n
    requires DropStandaloneAIFrom(s, n) == s[n..] <==> WordsKeptFrom(s, n)
    ensures |DropStandaloneAIFrom(s, i)| <= |s| - i
    ensures DropStandaloneAIFrom(s, i) == s[i..] <==> WordsKeptFrom(s, i)
  {
    var c, t := [s[i]], s[n..];
    assert DropStandaloneAIFrom(s, i) == c + DropStandaloneAIFrom(s, n);
    assert s[i..] == c + t;
    WordsKeptPastChar(s, i, n);
    SplitEqual(c, DropStandaloneAIFrom(s, n), c, t);
  }

  /** No word starts at a character outside a word. */
  lemma WordsKeptPastChar(s: string, i: nat, n: nat)
    requires i < |s| && !IsWordChar(s[i]) && n == i + 1
    ensures WordsKeptFrom(s, i) <==> WordsKeptFrom(s, n)
  {
    assert !WordStart(s, i);
  }

  /** The word "said" comes through the callable pass as it is. */
  lemma SaidIsKept()
    ensures DropStandaloneAIFrom("said", 0) == "said"
  {
    var s := "said";
    assert WordRunEnd(s, 3) == 4;
    assert WordRunEnd(s, 0) == 4;
    assert Lower(s) == s;
    DropStandaloneAIKeepsWords(s, 0);
    forall k | 0 <= k < |s| && WordStart(s, k) ensures KeptWord(s[k..WordRunEnd(s, k)]) {
      assert k == 0;
    }
  }

  // ---------------------------------------------------------------------------
  // Passes that cannot match a text

  /** Every character of s is one of cs. */
  predicate Among(s: string, cs: set<char>)
  {
    forall k :: 0 <= k < |s| ==> s[k] in cs
  }

  /** The pattern character c matches none of the characters cs. */
  predicate Foreign(c: char, cs: set<char>, ignoreCase: bool)
  {
    forall x :: x in cs ==> !CharMatches(Lit(c), x, ignoreCase)
  }

  /** A word holding c occurs nowhere in a text where no character matches c. */
  lemma NoTextAt(s: string, w: string, c: char, j: nat, ignoreCase: bool)
    requires c in w && forall k :: 0 <= k < |s| ==> !CharMatches(Lit(c), s[k], ignoreCase)
    ensures !TextAt(s, w, j, ignoreCase)
  {
    if TextAt(s, w, j, ignoreCase) {
      var i :| 0 <= i < |w| && w[i] == c;
      FoldSlice(s, j, j + |w|, ignoreCase);
      assert Fold(s, ignoreCase)[j + i] == Fold(w, ignoreCase)[i];
      assert CharMatches(Lit(c), s[j + i], ignoreCase);
    }
  }

  /** Atoms with a literal word holding c never match where no character matches c. */
  lemma {:induction false} AtomsBlocked(p: Pattern, s: string, atoms: seq<Atom>, j: nat, w: string, c: char)
    requires j <= |s| && Word(w) in atoms && c in w
    requires forall k :: 0 <= k < |s| ==> !CharMatches(Lit(c), s[k], p.ignoreCase)
    ensures MatchAtoms(p, s, atoms, j).None?
    decreases |atoms|, 0, 0
  {
    var rest := atoms[1..];
    if atoms[0] == Word(w) {
      NoTextAt(s, w, c, j, p.ignoreCase);
    } else {
      assert Word(w) in rest;
      match atoms[0]
      case One(cls) =>
        if j < |s| && CharMatches(cls, s[j], p.ignoreCase) {
          AtomsBlocked(p, s, rest, j + 1, w, c);
        }
      case Word(v) =>
        if TextAt(s, v, j, p.ignoreCase) {
          AtomsBlocked(p, s, rest, j + |v|, w, c);
        }
      case Opt(o) =>
        if j < |s| {
          AtomsBlocked(p, s, rest, j + 1, w, c);
        }
        AtomsBlocked(p, s, rest, j, w, c);
      case Spaces =>
        SpacesBlocked(p, s, rest, j, SpaceRunEnd(s, j), w, c);
    }
  }

  lemma {:induction false} SpacesBlocked(p: Pattern, s: string, rest: seq<Atom>, lo: nat, k: nat, w: string, c: char)
    requires lo <= k <= |s| && Word(w) in rest && c in w
    requires forall i :: 0 <= i < |s| ==> !CharMatches(Lit(c), s[i], p.ignoreCase)
    ensures BacktrackSpaces(p, s, rest, lo, k).None?
    decreases |rest|, 1, k - lo
  {
    AtomsBlocked(p, s, rest, k, w, c);
    if k > lo {
      SpacesBlocked(p, s, rest, lo, k - 1, w, c);
    }
  }

  /** A pass whose first character matches no character of s leaves s as it is. */
  lemma HeadlessPassKeeps(p: Pattern, repl: string, s: string, cs: set<char>)
    requires Among(s, cs)
    requires forall x :: x in cs ==> !CharMatches(p.head, x, p.ignoreCase)
    ensures ApplyPass(Sub(p, repl), s) == s
  {
    SubWithoutMatch(p, repl, s, 0);
  }

  /** A pass one of whose literal words holds a character that no character of s matches leaves s as it is. */
  lemma WordlessPassKeeps(p: Pattern, repl: string, s: string, cs: set<char>, w: string, c: char)
    requires Among(s, cs) && Word(w) in p.tail && c in w && Foreign(c, cs, p.ignoreCase)
    ensures ApplyPass(Sub(p, repl), s) == s
  {
    forall k | 0 <= k < |s| ensures MatchAt(p, s, k).None? {
      AtomsBlocked(p, s, p.tail, k + 1, w, c);
    }
    SubWithoutMatch(p, repl, s, 0);
  }

  /** A text with no character that lower-cases to 'a' has no "ai" in it. */
  lemma NoAiAmong(s: string, cs: set<char>)
    requires Among(s, cs) && forall x :: x in cs ==> LowerChar(x) != 'a'
    ensures !Contains(Lower(s), "ai")
  {
    forall k | 0 <= k <= |s| - 2 ensures !OccursAt(Lower(s), "ai", k) {
      assert Lower(s)[k] == LowerChar(s[k]);
    }
  }

  /** Pass k of the battery leaves t as it is. */
  predicate PassKeeps(k: nat, t: string)
    requires k < BatterySize
  {
    ApplyPass(BatteryPass(k), t) == t
  }

  /** When passes lo to n-1 each leave t alone and the first lo passes turn s into t, the first n passes do too. */
  lemma BatteryKeeps(s: string, t: string, lo: nat, n: nat)
    requires lo <= n <= BatterySize && Scrub(lo, s) == t
    requires forall k :: lo <= k < n ==> PassKeeps(k, t)
    ensures Scrub(n, s) == t
  {
    if n > lo {
      BatteryKeeps(s, t, lo, n - 1);
      ScrubStep(s, t, lo, n);
    }
  }

  /** One more pass that keeps t keeps the result t. */
  lemma ScrubStep(s: string, t: string, lo: nat, n: nat)
    requires lo < n <= BatterySize && Scrub(n - 1, s) == t
    requires forall k :: lo <= k < n ==> PassKeeps(k, t)
    ensures Scrub(n, s) == t
  {
    assert PassKeeps(n - 1, t);
  }

  /** The last pass leaves alone a text in which "ai" does not occur in any case. */
  lemma LastPassWithoutAi(s: string)
    requires !Contains(Lower(s), "ai")
    ensures PassKeeps(BatterySize - 1, s)
  {
    DropStandaloneAIWithoutAi(s, 0);
    assert s[0..] == s;
    assert BatteryPass(BatterySize - 1) == DropStandaloneAI;
  }

  /** One step of `SubFrom` past a position where the pattern does not match. */
  lemma SubSkip(p: Pattern, repl: string, s: string, i: nat)
    requires i < |s| && MatchAt(p, s, i).None?
    ensures SubFrom(p, repl, s, i) == [s[i]] + SubFrom(p, repl, s, i + 1)
  {
  }

  /** One step of `SubFrom` over a match from i to e. */
  lemma SubHit(p: Pattern, repl: string, s: string, i: nat, e: nat)
    requires i < |s| && MatchAt(p, s, i) == Some(e)
    ensures SubFrom(p, repl, s, i) == repl + SubFrom(p, repl, s, e)
  {
  }

  // ---------------------------------------------------------------------------
  // The vendor-name passes can rebuild the name they remove

  /** The letters of "deepseek". */
  const VendorLetters: set<char> := {'d', 'e', 'p', 's', 'k'}

  lemma VendorLettersKeptLast(s: string)
    requires Among(s, VendorLetters)
    ensures PassKeeps(BatterySize - 1, s)
  {
    NoAiAmong(s, VendorLetters);
    LastPassWithoutAi(s);
  }

  lemma VendorLettersKeptA(k: nat, s: string)
    requires 2 <= k < 8 && Among(s, VendorLetters)
    ensures PassKeeps(k, s)
  {
    var pass := BatteryPass(k);
    if k == 2 {
      WordlessPassKeeps(pass.pattern, pass.repl, s, VendorLetters, "eep-seek", '-');
    } else {
      HeadlessPassKeeps(pass.pattern, pass.repl, s, VendorLetters);
    }
  }

  lemma VendorLettersKeptB(k: nat, s: string)
    requires 8 <= k < 14 && Among(s, VendorLetters)
    ensures PassKeeps(k, s)
  {
    var pass := BatteryPass(k);
    HeadlessPassKeeps(pass.pattern, pass.repl, s, VendorLetters);
  }

  lemma VendorLettersKeptC(k: nat, s: string)
    requires 14 <= k < 20 && Among(s, VendorLetters)
    ensures PassKeeps(k, s)
  {
    var pass := BatteryPass(k);
    HeadlessPassKeeps(pass.pattern, pass.repl, s, VendorLetters);
  }

  lemma VendorLettersKeptD(k: nat, s: string)
    requires 20 <= k < 22 && Among(s, VendorLetters)
    ensures PassKeeps(k, s)
  {
    var pass := BatteryPass(k);
    HeadlessPassKeeps(pass.pattern, pass.repl, s, VendorLetters);
  }

  lemma VendorLettersKeptSystem(s: string)
    requires Among(s, VendorLetters)
    ensures PassKeeps(22, s)
  {
    var pass := BatteryPass(22);
    WordlessPassKeeps(pass.pattern, pass.repl, s, VendorLetters, "ystem", 'y');
  }

  lemma VendorLettersKeptE(k: nat, s: string)
    requires 23 <= k < 26 && Among(s, VendorLetters)
    ensures PassKeeps(k, s)
  {
    var pass := BatteryPass(k);
    HeadlessPassKeeps(pass.pattern, pass.repl, s, VendorLetters);
  }

  lemma VendorLettersKeptF(k: nat, s: string)
    requires 26 <= k < 32 && Among(s, VendorLetters)
    ensures PassKeeps(k, s)
  {
    var pass := BatteryPass(k);
    if k == 31 {
      WordlessPassKeeps(pass.pattern, pass.repl, s, VendorLetters, "owered", 'o');
    } else {
      HeadlessPassKeeps(pass.pattern, pass.repl, s, VendorLetters);
    }
  }

  lemma VendorLettersKeptG(k: nat, s: string)
    requires 32 <= k < 36 && Among(s, VendorLetters)
    ensures PassKeeps(k, s)
  {
    var pass := BatteryPass(k);
    HeadlessPassKeeps(pass.pattern, pass.repl, s, VendorLetters);
  }

  /** Once the first two passes give a text made of the letters of "deepseek", the battery ends with that text. */
  lemma BatteryKeepsVendorLetters(s: string, t: string)
    requires Among(t, VendorLetters) && Scrub(2, s) == t
    ensures Scrub(BatterySize, s) == t
  {
    VendorLettersKeptAll(t);
    BatteryKeeps(s, t, 2, BatterySize);
  }

  lemma VendorLettersKeptAll(t: string)
    requires Among(t, VendorLetters)
    ensures forall k :: 2 <= k < BatterySize ==> PassKeeps(k, t)
  {
    forall k | 2 <= k < 8 ensures PassKeeps(k, t) {
      VendorLettersKeptA(k, t);
    }
    forall k | 8 <= k < 14 ensures PassKeeps(k, t) {
      VendorLettersKeptB(k, t);
    }
    forall k | 14 <= k < 20 ensures PassKeeps(k, t) {
      VendorLettersKeptC(k, t);
    }
    forall k | 20 <= k < 22 ensures PassKeeps(k, t) {
      VendorLettersKeptD(k, t);
    }
    VendorLettersKeptSystem(t);
    forall k | 23 <= k < 26 ensures PassKeeps(k, t) {
      VendorLettersKeptE(k, t);
    }
    forall k | 26 <= k < 32 ensures PassKeeps(k, t) {
      VendorLettersKeptF(k, t);
    }
    forall k | 32 <= k < 36 ensures PassKeeps(k, t) {
      VendorLettersKeptG(k, t);
    }
    VendorLettersKeptLast(t);
  }

  /** x is "deedeep seekpseek": the name split by a space, with its two halves wrapped around the split. */
  predicate SplitVendorName(x: string)
  {
    |x| == 17 &&
    x[0] == 'd' && x[1] == 'e' && x[2] == 'e' && x[3] == 'd' && x[4] == 'e' && x[5] == 'e' &&
    x[6] == 'p' && x[7] == ' ' && x[8] == 's' && x[9] == 'e' && x[10] == 'e' && x[11] == 'k' &&
    x[12] == 'p' && x[13] == 's' && x[14] == 'e' && x[15] == 'e' && x[16] == 'k'
  }

  lemma SplitVendorNameSpelled()
    ensures SplitVendorName("deedeep seekpseek")
  {
  }

  /** The first pass finds no "deepseek" in the split name. */
  lemma FirstPassMissesSplitName(x: string)
    requires SplitVendorName(x)
    ensures PassKeeps(0, x)
  {
    var p := BatteryPass(0).pattern;
    forall k | 0 <= k < |x| ensures MatchAt(p, x, k).None? {
      if x[k] == 'd' {
        FirstPassMissesAt(x, k);
      }
    }
    SubWithoutMatch(p, [], x, 0);
    assert x[0..] == x;
  }

  lemma FirstPassMissesAt(x: string, k: nat)
    requires SplitVendorName(x) && k < |x| && x[k] == 'd'
    ensures MatchAt(BatteryPass(0).pattern, x, k).None?
  {
    assert k == 0 || k == 3;
    assert Lower(x[k + 1..k + 8])[3] != Lower("eepseek")[3];
  }

  /** The second pass matches "deep seek" in the middle of the split name. */
  lemma SecondPassMatch(x: string)
    requires SplitVendorName(x)
    ensures MatchAt(BatteryPass(1).pattern, x, 3) == Some(12)
  {
    var p := BatteryPass(1).pattern;
    assert x[4..7] == "eep" && x[8..12] == "seek";
    assert TextAt(x, "eep", 4, true);
    assert TextAt(x, "seek", 8, true);
    assert SpaceRunEnd(x, 8) == 8;
    assert SpaceRunEnd(x, 7) == 8;
    assert MatchAtoms(p, x, [Word("seek")], 8) == Some(12);
    assert BacktrackSpaces(p, x, [Word("seek")], 7, 8) == Some(12);
    assert p.tail[1..] == [Spaces, Word("seek")];
    assert [Spaces, Word("seek")][1..] == [Word("seek")];
  }

  /** ... and nowhere before it. */
  lemma SecondPassMissesHead(x: string)
    requires SplitVendorName(x)
    ensures MatchAt(BatteryPass(1).pattern, x, 0).None?
    ensures MatchAt(BatteryPass(1).pattern, x, 1).None?
    ensures MatchAt(BatteryPass(1).pattern, x, 2).None?
  {
    assert Lower(x[1..4])[2] != Lower("eep")[2];
  }

  /** ... nor after it. */
  lemma SecondPassMissesTail(x: string)
    requires SplitVendorName(x)
    ensures SubFrom(BatteryPass(1).pattern, [], x, 12) == x[12..]
  {
    var p := BatteryPass(1).pattern;
    forall k | 12 <= k < |x| ensures MatchAt(p, x, k).None? {
      assert x[k] != 'd';
    }
    SubWithoutMatch(p, [], x, 12);
  }

  /** Removing "deep seek" from the split name joins its outer halves into "deepseek". */
  lemma SecondPassJoins(x: string)
    requires SplitVendorName(x)
    ensures ApplyPass(BatteryPass(1), x) == "deepseek"
  {
    var p := BatteryPass(1).pattern;
    SecondPassMissesTail(x);
    SecondPassMatch(x);
    SecondPassMissesHead(x);
    SubHit(p, [], x, 3, 12);
    SubSkip(p, [], x, 2);
    SubSkip(p, [], x, 1);
    SubSkip(p, [], x, 0);
    JoinedHalves(x);
  }

  lemma JoinedHalves(x: string)
    requires SplitVendorName(x)
    ensures [x[0]] + ([x[1]] + ([x[2]] + x[12..])) == "deepseek"
  {
  }

  lemma VendorNameLetters()
    ensures Among("deepseek", VendorLetters)
  {
  }

  /** The battery turns the split name into the very name its first three passes exist to remove. */
  lemma BatteryRebuildsVendorName(x: string)
    requires SplitVendorName(x)
    ensures Scrub(BatterySize, x) == "deepseek"
  {
    FirstPassMissesSplitName(x);
    assert Scrub(1, x) == x;
    SecondPassJoins(x);
    VendorNameLetters();
    BatteryKeepsVendorLetters(x, "deepseek");
  }

  // ---------------------------------------------------------------------------
  // The battery leaves texts of bare "I"s and "hello" alone

  /** The characters of "I I hello". */
  const HelloLetters: set<char> := {'I', ' ', 'h', 'e', 'l', 'o'}

  /** The whole battery leaves a text made only of the characters of "I I hello" as it is. */
  lemma BatteryKeepsHelloLetters(s: string)
    requires Among(s, HelloLetters)
    ensures Scrub(BatterySize, s) == s
  {
    HelloLettersKeptAll(s);
    BatteryKeeps(s, s, 0, BatterySize);
  }

  lemma HelloLettersKeptAll(s: string)
    requires Among(s, HelloLetters)
    ensures forall k :: 0 <= k < BatterySize ==> PassKeeps(k, s)
  {
    forall k | 0 <= k < 6 ensures PassKeeps(k, s) {
      HelloLettersKeptA(k, s);
    }
    forall k | 6 <= k < 9 ensures PassKeeps(k, s) {
      HelloLettersKeptB(k, s);
    }
    forall k | 9 <= k < 13 ensures PassKeeps(k, s) {
      HelloLettersKeptC(k, s);
    }
    forall k | 13 <= k < 16 ensures PassKeeps(k, s) {
      HelloLettersKeptD(k, s);
    }
    forall k | 16 <= k < 19 ensures PassKeeps(k, s) {
      HelloLettersKeptE(k, s);
    }
    forall k | 19 <= k < 21 ensures PassKeeps(k, s) {
      HelloLettersKeptE2(k, s);
    }
    forall k | 21 <= k < 27 ensures PassKeeps(k, s) {
      HelloLettersKeptF(k, s);
    }
    forall k | 27 <= k < 32 ensures PassKeeps(k, s) {
      HelloLettersKeptG(k, s);
    }
    forall k | 32 <= k < 36 ensures PassKeeps(k, s) {
      HelloLettersKeptH(k, s);
    }
    HelloLettersKeptLast(s);
  }

  lemma HelloLettersKeptLast(s: string)
    requires Among(s, HelloLetters)
    ensures PassKeeps(BatterySize - 1, s)
  {
    NoAiAmong(s, HelloLetters);
    LastPassWithoutAi(s);
  }

  lemma HelloLettersKeptA(k: nat, s: string)
    requires 0 <= k < 6 && Among(s, HelloLetters)
    ensures PassKeeps(k, s)
  {
    var pass := BatteryPass(k);
    if k == 4 {
      WordlessPassKeeps(pass.pattern, pass.repl, s, HelloLetters, "'m", '\'');
    } else {
      HeadlessPassKeeps(pass.pattern, pass.repl, s, HelloLetters);
    }
  }

  lemma HelloLettersKeptB(k: nat, s: string)
    requires 6 <= k < 9 && Among(s, HelloLetters)
    ensures PassKeeps(k, s)
  {
    var pass := BatteryPass(k);
    if k == 7 {
      WordlessPassKeeps(pass.pattern, pass.repl, s, HelloLetters, "anguage", 'a');
    } else if k == 8 {
      WordlessPassKeeps(pass.pattern, pass.repl, s, HelloLetters, "LM", 'M');
    } else {
      HeadlessPassKeeps(pass.pattern, pass.repl, s, HelloLetters);
    }
  }

  lemma HelloLettersKeptC(k: nat, s: string)
    requires 9 <= k < 13 && Among(s, HelloLetters)
    ensures PassKeeps(k, s)
  {
    var pass := BatteryPass(k);
    if k == 12 {
      WordlessPassKeeps(pass.pattern, pass.repl, s, HelloLetters, "don", 'd');
    } else {
      HeadlessPassKeeps(pass.pattern, pass.repl, s, HelloLetters);
    }
  }

  lemma HelloLettersKeptD(k: nat, s: string)
    requires 13 <= k < 16 && Among(s, HelloLetters)
    ensures PassKeeps(k, s)
  {
    var pass := BatteryPass(k);
    if k == 13 {
      WordlessPassKeeps(pass.pattern, pass.repl, s, HelloLetters, "cannot", 'c');
    } else if k == 14 {
      WordlessPassKeeps(pass.pattern, pass.repl, s, HelloLetters, "'m", '\'');
    } else {
      WordlessPassKeeps(pass.pattern, pass.repl, s, HelloLetters, "don", 'd');
    }
  }

  lemma HelloLettersKeptE(k: nat, s: string)
    requires 16 <= k < 19 && Among(s, HelloLetters)
    ensures PassKeeps(k, s)
  {
    var pass := BatteryPass(k);
    if k == 16 {
      WordlessPassKeeps(pass.pattern, pass.repl, s, HelloLetters, "don", 'd');
    } else {
      HeadlessPassKeeps(pass.pattern, pass.repl, s, HelloLetters);
    }
  }

  lemma HelloLettersKeptE2(k: nat, s: string)
    requires 19 <= k < 21 && Among(s, HelloLetters)
    ensures PassKeeps(k, s)
  {
    var pass := BatteryPass(k);
    if k == 19 {
      WordlessPassKeeps(pass.pattern, pass.repl, s, HelloLetters, "don", 'd');
    } else {
      HeadlessPassKeeps(pass.pattern, pass.repl, s, HelloLetters);
    }
  }

  lemma HelloLettersKeptF(k: nat, s: string)
    requires 21 <= k < 27 && Among(s, HelloLetters)
    ensures PassKeeps(k, s)
  {
    var pass := BatteryPass(k);
    HeadlessPassKeeps(pass.pattern, pass.repl, s, HelloLetters);
  }

  lemma HelloLettersKeptG(k: nat, s: string)
    requires 27 <= k < 32 && Among(s, HelloLetters)
    ensures PassKeeps(k, s)
  {
    var pass := BatteryPass(k);
    HeadlessPassKeeps(pass.pattern, pass.repl, s, HelloLetters);
  }

  lemma HelloLettersKeptH(k: nat, s: string)
    requires 32 <= k < 36 && Among(s, HelloLetters)
    ensures PassKeeps(k, s)
  {
    var pass := BatteryPass(k);
    HeadlessPassKeeps(pass.pattern, pass.repl, s, HelloLetters);
  }
}

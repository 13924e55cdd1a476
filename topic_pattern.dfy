/**
 * Topic routing-pattern matcher (lib/topic-pattern-test.js).
 *
 * The source rewrites a pattern by a chain of string replacements into a
 * regular expression and then tests the routing key against it, anchored at
 * both ends. The replacements first turn the wildcard forms into placeholders
 * and then the placeholders into regex text. Since the placeholder text never
 * contains `.`, `*` or `#`, a placeholder behaves as one opaque token for the
 * later replacements; the model therefore rewrites a sequence of tokens, and
 * compiles it into a small regex AST (`Piece`) matched by `Matches`.
 */
module TopicPattern {

  /** The seven placeholders, in the order `{placeholder0}` .. `{placeholder6}`. */
  datatype Placeholder =
    | LeadHash    // a leading `.#.`
    | TrailHash   // a trailing `.#.`
    | MidHash     // any other `.#.`, and every remaining `#`
    | LeadStar    // a leading `*`
    | TrailStar   // a trailing `*`
    | MidStar     // every remaining `*`
    | DotSep      // every remaining `.`

  /** A pattern character not yet rewritten, or a placeholder. */
  datatype Tok = Ch(c: char) | Ph(p: Placeholder)

  /** The regex pieces the rewrite produces. */
  datatype Piece =
    | Char(c: char)     // a literal character
    | DotChar           // `[.]`
    | OptDot            // `[.]{0,1}`
    | Letters           // `[a-zA-Z]*`
    | LettersOrDots     // `[a-zA-Z.]*`

  predicate IsLetter(c: char) {
    'a' <= c <= 'z' || 'A' <= c <= 'Z'
  }

  predicate IsLetterOrDot(c: char) {
    IsLetter(c) || c == '.'
  }

  // ---------------------------------------------------------------------
  // The rewrite chain
  // ---------------------------------------------------------------------

  function ToTokens(p: string): (s: seq<Tok>)
    ensures |s| == |p| && forall i :: 0 <= i < |p| ==> s[i] == Ch(p[i])
  {
    if p == [] then [] else [Ch(p[0])] + ToTokens(p[1..])
  }

  const DotHashDot: seq<Tok> := [Ch('.'), Ch('#'), Ch('.')]

  /** `.replace(/^[.][#][.]/g, '{placeholder0}')` */
  function ReplaceLeadingDotHashDot(s: seq<Tok>): seq<Tok> {
    if |s| >= 3 && s[..3] == DotHashDot then [Ph(LeadHash)] + s[3..] else s
  }

  /** `.replace(/[.][#][.]$/g, '{placeholder1}')` */
  function ReplaceTrailingDotHashDot(s: seq<Tok>): seq<Tok> {
    if |s| >= 3 && s[|s| - 3..] == DotHashDot then s[..|s| - 3] + [Ph(TrailHash)] else s
  }

  /** `.replace(/[.][#][.]/g, '{placeholder2}')`: leftmost, non-overlapping. */
  function ReplaceEveryDotHashDot(s: seq<Tok>): seq<Tok>
    decreases |s|
  {
    if |s| >= 3 && s[..3] == DotHashDot then [Ph(MidHash)] + ReplaceEveryDotHashDot(s[3..])
    else if s == [] then []
    else [s[0]] + ReplaceEveryDotHashDot(s[1..])
  }

  /** A global replacement of one character by a placeholder. */
  function ReplaceEvery(s: seq<Tok>, c: char, p: Placeholder): (r: seq<Tok>)
    ensures |r| == |s|
    ensures forall i :: 0 <= i < |s| ==> r[i] == (if s[i] == Ch(c) then Ph(p) else s[i])
  {
    if s == [] then [] else [if s[0] == Ch(c) then Ph(p) else s[0]] + ReplaceEvery(s[1..], c, p)
  }

  /** `.replace(/^[*]/g, '{placeholder3}')` */
  function ReplaceLeadingStar(s: seq<Tok>): seq<Tok> {
    if |s| > 0 && s[0] == Ch('*') then [Ph(LeadStar)] + s[1..] else s
  }

  /** `.replace(/[*]$/g, '{placeholder4}')` */
  function ReplaceTrailingStar(s: seq<Tok>): seq<Tok> {
    if |s| > 0 && s[|s| - 1] == Ch('*') then s[..|s| - 1] + [Ph(TrailStar)] else s
  }

  /** The first four replacements (lib/topic-pattern-test.js:6-9): the `#` forms. */
  function HashStages(s: seq<Tok>): seq<Tok> {
    ReplaceEvery(ReplaceEveryDotHashDot(ReplaceTrailingDotHashDot(ReplaceLeadingDotHashDot(s))), '#', MidHash)
  }

  /** The next three replacements (lib/topic-pattern-test.js:10-12): the `*` forms. */
  function StarStages(s: seq<Tok>): seq<Tok> {
    ReplaceEvery(ReplaceTrailingStar(ReplaceLeadingStar(s)), '*', MidStar)
  }

  /** The eight placeholder-introducing replacements, in source order. */
  function Rewrite(pattern: string): seq<Tok> {
    ReplaceEvery(StarStages(HashStages(ToTokens(pattern))), '.', DotSep)
  }

  /** The regex text each placeholder is replaced with. */
  function PlaceholderRegex(p: Placeholder): seq<Piece> {
    match p
    case LeadHash => [DotChar, LettersOrDots]
    case TrailHash => [LettersOrDots, DotChar]
    case MidHash => [LettersOrDots]
    case LeadStar => [OptDot, Letters]
    case TrailStar => [Letters, OptDot]
    case MidStar => [Letters]
    case DotSep => [DotChar]
  }

  function TokRegex(t: Tok): seq<Piece> {
    match t
    case Ch(c) => [Char(c)]
    case Ph(p) => PlaceholderRegex(p)
  }

  /** The seven placeholder-to-regex replacements. */
  function Expand(s: seq<Tok>): seq<Piece> {
    if s == [] then [] else TokRegex(s[0]) + Expand(s[1..])
  }

  function Compile(pattern: string): seq<Piece> {
    Expand(Rewrite(pattern))
  }

  // ---------------------------------------------------------------------
  // Anchored matching
  // ---------------------------------------------------------------------

  /** Does the regex `^re$` match the whole of `key`? (backtracking) */
  function Matches(re: seq<Piece>, key: string): bool
    decreases |re|, |key|
  {
    if re == [] then key == []
    else match re[0]
      case Char(c) => key != [] && key[0] == c && Matches(re[1..], key[1..])
      case DotChar => key != [] && key[0] == '.' && Matches(re[1..], key[1..])
      case OptDot => Matches(re[1..], key) || (key != [] && key[0] == '.' && Matches(re[1..], key[1..]))
      case Letters => Matches(re[1..], key) || (key != [] && IsLetter(key[0]) && Matches(re, key[1..]))
      case LettersOrDots =>
        Matches(re[1..], key) || (key != [] && IsLetterOrDot(key[0]) && Matches(re, key[1..]))
  }

  /** `topicPatternTest(pattern, routingKey)` */
  function TopicPatternTest(pattern: string, routingKey: string): bool {
    Matches(Compile(pattern), routingKey)
  }

  // ---------------------------------------------------------------------
  // What a piece accepts, and the matcher against that meaning
  // ---------------------------------------------------------------------

  predicate AllLetters(s: string) {
    forall i :: 0 <= i < |s| ==> IsLetter(s[i])
  }

  predicate AllLettersOrDots(s: string) {
    forall i :: 0 <= i < |s| ==> IsLetterOrDot(s[i])
  }

  /** The strings a single piece stands for, as a regular expression. */
  predicate Accepts(p: Piece, s: string) {
    match p
    case Char(c) => s == [c]
    case DotChar => s == "."
    case OptDot => s == "" || s == "."
    case Letters => AllLetters(s)
    case LettersOrDots => AllLettersOrDots(s)
  }

  /**
   * The backtracking matcher agrees with the meaning of concatenation in a
   * regular expression: `p` followed by `rest` matches `key` exactly when
   * some prefix of `key` is accepted by `p` and `rest` matches the remainder.
   */
  lemma MatchesCons(p: Piece, rest: seq<Piece>, key: string)
    ensures Matches([p] + rest, key) <==>
            exists i :: 0 <= i <= |key| && Accepts(p, key[..i]) && Matches(rest, key[i..])
  {
    if Matches([p] + rest, key) {
      ConsSplits(p, rest, key);
    }
    if exists i :: 0 <= i <= |key| && Accepts(p, key[..i]) && Matches(rest, key[i..]) {
      var i :| 0 <= i <= |key| && Accepts(p, key[..i]) && Matches(rest, key[i..]);
      ConsJoins(p, rest, key, i);
    }
  }

  /** A key matched by `p` then `rest` splits into a part `p` accepts and a part `rest` matches. */
  lemma {:induction false} ConsSplits(p: Piece, rest: seq<Piece>, key: string)
    requires Matches([p] + rest, key)
    ensures exists i :: 0 <= i <= |key| && Accepts(p, key[..i]) && Matches(rest, key[i..])
    decreases |key|
  {
    var re := [p] + rest;
    assert re[0] == p && re[1..] == rest;
    if p.Char? || p.DotChar? {
      assert Accepts(p, key[..1]) && Matches(rest, key[1..]);
    } else if Matches(rest, key) {
      assert Accepts(p, key[..0]) && Matches(rest, key[0..]);
    } else if p.OptDot? {
      assert Accepts(p, key[..1]) && Matches(rest, key[1..]);
    } else {
      assert key != [] && Matches(re, key[1..]);
      ConsSplits(p, rest, key[1..]);
      var j :| 0 <= j <= |key[1..]| && Accepts(p, key[1..][..j]) && Matches(rest, key[1..][j..]);
      assert key[..j + 1] == [key[0]] + key[1..][..j];
      assert key[j + 1..] == key[1..][j..];
      assert Accepts(p, key[..j + 1]);
    }
  }

  /** A part `p` accepts followed by a part `rest` matches is matched by `p` then `rest`. */
  lemma {:induction false} ConsJoins(p: Piece, rest: seq<Piece>, key: string, i: nat)
    requires i <= |key| && Accepts(p, key[..i]) && Matches(rest, key[i..])
    ensures Matches([p] + rest, key)
    decreases i
  {
    var re := [p] + rest;
    assert re[0] == p && re[1..] == rest;
    if i == 0 {
      assert key[i..] == key;
    } else if p.Char? || p.DotChar? || p.OptDot? {
      assert |key[..i]| == 1 && key[..i][0] == key[0];
    } else {
      assert key[..i][0] == key[0];
      assert key[1..][..i - 1] == key[..i][1..];
      assert key[1..][i - 1..] == key[i..];
      ConsJoins(p, rest, key[1..], i - 1);
    }
  }

  /** Concatenating two regexes concatenates the keys they match. */
  lemma MatchesConcat(a: seq<Piece>, b: seq<Piece>, key: string)
    ensures Matches(a + b, key) <==>
            exists i :: 0 <= i <= |key| && Matches(a, key[..i]) && Matches(b, key[i..])
  {
    if Matches(a + b, key) {
      ConcatSplits(a, b, key);
    }
    if exists i :: 0 <= i <= |key| && Matches(a, key[..i]) && Matches(b, key[i..]) {
      var i :| 0 <= i <= |key| && Matches(a, key[..i]) && Matches(b, key[i..]);
      ConcatJoins(a, b, key, i);
    }
  }

  lemma {:induction false} ConcatSplits(a: seq<Piece>, b: seq<Piece>, key: string)
    requires Matches(a + b, key)
    ensures exists i :: 0 <= i <= |key| && Matches(a, key[..i]) && Matches(b, key[i..])
    decreases |a|
  {
    if a == [] {
      assert a + b == b;
      assert Matches(a, key[..0]) && key[0..] == key;
    } else {
      var p, a' := a[0], a[1..];
      assert a == [p] + a';
      assert a + b == [p] + (a' + b);
      ConsSplits(p, a' + b, key);
      var i :| 0 <= i <= |key| && Accepts(p, key[..i]) && Matches(a' + b, key[i..]);
      ConcatSplits(a', b, key[i..]);
      var j :| 0 <= j <= |key[i..]| && Matches(a', key[i..][..j]) && Matches(b, key[i..][j..]);
      var m := i + j;
      assert key[..m][..i] == key[..i];
      assert key[..m][i..] == key[i..][..j];
      ConsJoins(p, a', key[..m], i);
      assert key[m..] == key[i..][j..];
    }
  }

  lemma {:induction false} ConcatJoins(a: seq<Piece>, b: seq<Piece>, key: string, i: nat)
    requires i <= |key| && Matches(a, key[..i]) && Matches(b, key[i..])
    ensures Matches(a + b, key)
    decreases |a|
  {
    if a == [] {
      assert a + b == b;
      assert |key[..i]| == 0;
      assert key[i..] == key;
    } else {
      var p, a' := a[0], a[1..];
      assert a == [p] + a';
      assert a + b == [p] + (a' + b);
      ConsSplits(p, a', key[..i]);
      var j :| 0 <= j <= i && Accepts(p, key[..i][..j]) && Matches(a', key[..i][j..]);
      assert key[j..][..i - j] == key[..i][j..];
      assert key[j..][i - j..] == key[i..];
      ConcatJoins(a', b, key[j..], i - j);
      assert key[..i][..j] == key[..j];
      ConsJoins(p, a' + b, key, j);
    }
  }

  /** A wildcard-free pattern written as regex pieces: `.` is `[.]`, any other character itself. */
  function Literal(w: string): (r: seq<Piece>)
    ensures |r| == |w|
  {
    if w == [] then [] else [if w[0] == '.' then DotChar else Char(w[0])] + Literal(w[1..])
  }

  lemma {:induction false} LiteralMatches(w: string, key: string)
    ensures Matches(Literal(w), key) <==> key == w
  {
    if w != [] {
      var re := Literal(w);
      assert re[1..] == Literal(w[1..]);
      if key != [] {
        LiteralMatches(w[1..], key[1..]);
      }
      if key != [] && key[0] == w[0] && key[1..] == w[1..] {
        assert key == [key[0]] + key[1..];
        assert w == [w[0]] + w[1..];
      }
    }
  }

  lemma LiteralPrefixMatches(w: string, rest: seq<Piece>, key: string)
    ensures Matches(Literal(w) + rest, key) <==>
            |key| >= |w| && key[..|w|] == w && Matches(rest, key[|w|..])
  {
    MatchesConcat(Literal(w), rest, key);
    if exists i :: 0 <= i <= |key| && Matches(Literal(w), key[..i]) && Matches(rest, key[i..]) {
      var i :| 0 <= i <= |key| && Matches(Literal(w), key[..i]) && Matches(rest, key[i..]);
      LiteralMatches(w, key[..i]);
    }
    if |key| >= |w| && key[..|w|] == w && Matches(rest, key[|w|..]) {
      LiteralMatches(w, key[..|w|]);
    }
  }

  lemma LiteralSuffixMatches(front: seq<Piece>, w: string, key: string)
    ensures Matches(front + Literal(w), key) <==>
            |key| >= |w| && key[|key| - |w|..] == w && Matches(front, key[..|key| - |w|])
  {
    MatchesConcat(front, Literal(w), key);
    if exists i :: 0 <= i <= |key| && Matches(front, key[..i]) && Matches(Literal(w), key[i..]) {
      var i :| 0 <= i <= |key| && Matches(front, key[..i]) && Matches(Literal(w), key[i..]);
      LiteralMatches(w, key[i..]);
    }
    if |key| >= |w| && key[|key| - |w|..] == w && Matches(front, key[..|key| - |w|]) {
      LiteralMatches(w, key[|key| - |w|..]);
    }
  }

  /** A one-piece regex matches exactly what the piece accepts. */
  lemma SingleMatches(p: Piece, key: string)
    ensures Matches([p], key) <==> Accepts(p, key)
  {
    MatchesCons(p, [], key);
    assert [p] + [] == [p];
    assert key[..|key|] == key;
  }

  // ---------------------------------------------------------------------
  // What the rewrite produces
  // ---------------------------------------------------------------------

  /** A pattern with no wildcard characters. */
  predicate WildcardFree(w: string) {
    forall i :: 0 <= i < |w| ==> w[i] != '*' && w[i] != '#'
  }

  /**
   * Pattern text the source's regex reads as itself: letters, digits, `_`,
   * `-`, and `.` (which the rewrite turns into `[.]`). The source does not
   * escape the pattern, so any other character is regex syntax there.
   */
  predicate PlainText(w: string) {
    forall i :: 0 <= i < |w| ==>
      IsLetter(w[i]) || '0' <= w[i] <= '9' || w[i] == '_' || w[i] == '-' || w[i] == '.'
  }

  lemma PlainTextWildcardFree(w: string)
    requires PlainText(w)
    ensures WildcardFree(w)
  {
  }

  predicate Lacks(s: seq<Tok>, c: char) {
    forall i :: 0 <= i < |s| ==> s[i] != Ch(c)
  }

  lemma ToTokensConcat(a: string, b: string)
    ensures ToTokens(a + b) == ToTokens(a) + ToTokens(b)
  {
    assert ToTokens(a + b) == ToTokens(a) + ToTokens(b);
  }

  lemma ReplaceEveryConcat(a: seq<Tok>, b: seq<Tok>, c: char, p: Placeholder)
    ensures ReplaceEvery(a + b, c, p) == ReplaceEvery(a, c, p) + ReplaceEvery(b, c, p)
  {
    assert ReplaceEvery(a + b, c, p) == ReplaceEvery(a, c, p) + ReplaceEvery(b, c, p);
  }

  lemma ReplaceEveryAbsent(s: seq<Tok>, c: char, p: Placeholder)
    requires Lacks(s, c)
    ensures ReplaceEvery(s, c, p) == s
  {
    assert ReplaceEvery(s, c, p) == s;
  }

  lemma {:induction false} ExpandConcat(a: seq<Tok>, b: seq<Tok>)
    ensures Expand(a + b) == Expand(a) + Expand(b)
  {
    if a == [] {
      assert a + b == b;
    } else {
      var t := a + b;
      assert t != [] && t[0] == a[0] && t[1..] == a[1..] + b;
      ExpandConcat(a[1..], b);
      var r, x, y := TokRegex(a[0]), Expand(a[1..]), Expand(b);
      assert Expand(t) == r + (x + y);
      assert Expand(a) == r + x;
      PiecesRegroup(r, x, y);
    }
  }

  lemma PiecesRegroup(r: seq<Piece>, x: seq<Piece>, y: seq<Piece>)
    ensures r + (x + y) == (r + x) + y
  {
  }

  /** The tokens a wildcard-free word becomes: characters, with every `.` a separator placeholder. */
  function Dotted(w: string): seq<Tok> {
    ReplaceEvery(ToTokens(w), '.', DotSep)
  }

  lemma {:induction false} ExpandDotted(w: string)
    ensures Expand(Dotted(w)) == Literal(w)
  {
    if w != [] {
      assert Dotted(w)[0] == (if w[0] == '.' then Ph(DotSep) else Ch(w[0]));
      assert Dotted(w)[1..] == Dotted(w[1..]);
      ExpandDotted(w[1..]);
    }
  }

  /** Without a `#`, no `.#.` can be found. */
  lemma {:induction false} EveryDotHashDotAbsent(s: seq<Tok>)
    requires Lacks(s, '#')
    ensures ReplaceEveryDotHashDot(s) == s
    decreases |s|
  {
    if s != [] {
      assert |s| >= 3 ==> s[..3] != DotHashDot by {
        if |s| >= 3 { assert s[..3][1] == s[1]; }
      }
      EveryDotHashDotAbsent(s[1..]);
      assert s == [s[0]] + s[1..];
    }
  }

  /**
   * The leftmost scan passes over a `#`-free prefix unchanged, unless that
   * prefix ends in `.` and the rest starts with `#.`.
   */
  lemma {:induction false} EveryDotHashDotPrefix(a: seq<Tok>, b: seq<Tok>)
    requires Lacks(a, '#')
    requires !(|a| > 0 && a[|a| - 1] == Ch('.') && |b| >= 2 && b[0] == Ch('#') && b[1] == Ch('.'))
    ensures ReplaceEveryDotHashDot(a + b) == a + ReplaceEveryDotHashDot(b)
    decreases |a|
  {
    if a != [] {
      var s := a + b;
      NoDotHashDotAtFront(a, b);
      EveryDotHashDotStep(s);
      assert s[0] == a[0] && s[1..] == a[1..] + b;
      EveryDotHashDotPrefix(a[1..], b);
      TokensRegroup(a, ReplaceEveryDotHashDot(b));
    } else {
      assert a + b == b;
    }
  }

  lemma TokensRegroup(a: seq<Tok>, c: seq<Tok>)
    requires a != []
    ensures [a[0]] + (a[1..] + c) == a + c
  {
    assert a == [a[0]] + a[1..];
  }

  /** A `#`-free, non-empty prefix that does not end the way `.#.` needs starts no `.#.`. */
  lemma NoDotHashDotAtFront(a: seq<Tok>, b: seq<Tok>)
    requires a != [] && Lacks(a, '#')
    requires !(a[|a| - 1] == Ch('.') && |b| >= 2 && b[0] == Ch('#') && b[1] == Ch('.'))
    ensures |a + b| >= 3 ==> (a + b)[..3] != DotHashDot
  {
    var s := a + b;
    if |s| >= 3 {
      assert s[..3][1] == s[1] && s[..3][2] == s[2];
      if |a| == 1 {
        assert s[0] == a[0] && s[1] == b[0];
        assert |b| >= 2 && s[2] == b[1];
      } else {
        assert s[1] == a[1];
      }
    }
  }

  /** Where no `.#.` starts, the scan keeps the first token and moves on. */
  lemma EveryDotHashDotStep(s: seq<Tok>)
    requires s != [] && (|s| >= 3 ==> s[..3] != DotHashDot)
    ensures ReplaceEveryDotHashDot(s) == [s[0]] + ReplaceEveryDotHashDot(s[1..])
  {
  }

  /** Without a `#`, the four `#` replacements change nothing. */
  lemma HashStagesAbsent(s: seq<Tok>)
    requires Lacks(s, '#')
    ensures HashStages(s) == s
  {
    assert |s| >= 3 ==> s[..3] != DotHashDot by {
      if |s| >= 3 { assert s[..3][1] == s[1]; }
    }
    assert |s| >= 3 ==> s[|s| - 3..] != DotHashDot by {
      if |s| >= 3 { assert s[|s| - 3..][1] == s[|s| - 2]; }
    }
    EveryDotHashDotAbsent(s);
    ReplaceEveryAbsent(s, '#', MidHash);
  }

  /** Without a `*`, the three `*` replacements change nothing. */
  lemma StarStagesAbsent(s: seq<Tok>)
    requires Lacks(s, '*')
    ensures StarStages(s) == s
  {
    ReplaceEveryAbsent(s, '*', MidStar);
  }

  lemma WildcardFreeTokens(w: string)
    requires WildcardFree(w)
    ensures Lacks(ToTokens(w), '#') && Lacks(ToTokens(w), '*')
  {
  }

  /** A pattern with no `*` and no `#` compiles into its literal characters and `[.]` only. */
  lemma CompileWildcardFree(w: string)
    requires WildcardFree(w)
    ensures Compile(w) == Literal(w)
  {
    var s := ToTokens(w);
    HashStagesAbsent(s);
    StarStagesAbsent(s);
    ExpandDotted(w);
  }

  /** The final `.` replacement and the expansion, around one placeholder. */
  lemma ExpandAround(u: string, q: Placeholder, v: string)
    ensures Expand(ReplaceEvery(ToTokens(u) + [Ph(q)] + ToTokens(v), '.', DotSep))
         == Literal(u) + PlaceholderRegex(q) + Literal(v)
  {
    ReplaceEveryConcat(ToTokens(u) + [Ph(q)], ToTokens(v), '.', DotSep);
    ReplaceEveryConcat(ToTokens(u), [Ph(q)], '.', DotSep);
    assert ReplaceEvery([Ph(q)], '.', DotSep) == [Ph(q)];
    ExpandConcat(Dotted(u) + [Ph(q)], Dotted(v));
    ExpandConcat(Dotted(u), [Ph(q)]);
    ExpandDotted(u);
    ExpandDotted(v);
    assert Expand([Ph(q)]) == PlaceholderRegex(q);
  }

  /** Once the wildcard stages leave one placeholder between two words, the compiled regex follows. */
  lemma CompileFromStages(p: string, u: string, q: Placeholder, v: string)
    requires StarStages(HashStages(ToTokens(p))) == ToTokens(u) + [Ph(q)] + ToTokens(v)
    ensures Compile(p) == Literal(u) + PlaceholderRegex(q) + Literal(v)
  {
    ExpandAround(u, q, v);
  }

  lemma CompileFromStagesFront(p: string, q: Placeholder, v: string)
    requires StarStages(HashStages(ToTokens(p))) == [Ph(q)] + ToTokens(v)
    ensures Compile(p) == PlaceholderRegex(q) + Literal(v)
  {
    ReplaceEveryConcat([Ph(q)], ToTokens(v), '.', DotSep);
    assert ReplaceEvery([Ph(q)], '.', DotSep) == [Ph(q)];
    ExpandConcat([Ph(q)], Dotted(v));
    ExpandDotted(v);
    assert Expand([Ph(q)]) == PlaceholderRegex(q);
  }

  lemma CompileFromStagesBack(p: string, u: string, q: Placeholder)
    requires StarStages(HashStages(ToTokens(p))) == ToTokens(u) + [Ph(q)]
    ensures Compile(p) == Literal(u) + PlaceholderRegex(q)
  {
    ReplaceEveryConcat(ToTokens(u), [Ph(q)], '.', DotSep);
    assert ReplaceEvery([Ph(q)], '.', DotSep) == [Ph(q)];
    ExpandConcat(Dotted(u), [Ph(q)]);
    ExpandDotted(u);
    assert Expand([Ph(q)]) == PlaceholderRegex(q);
  }

  lemma StagesHashLast(u: string)
    requires WildcardFree(u)
    ensures StarStages(HashStages(ToTokens(u) + [Ch('#')])) == ToTokens(u) + [Ph(MidHash)]
  {
    var tu := ToTokens(u);
    WildcardFreeTokens(u);
    HashStagesLast(tu);
    StarStagesAbsent(tu + [Ph(MidHash)]);
  }

  /** A first replacement that finds no leading `.#.` changes nothing. */
  lemma LeadingUnchanged(s: seq<Tok>)
    requires |s| >= 3 ==> s[1] != Ch('#')
    ensures ReplaceLeadingDotHashDot(s) == s
  {
    if |s| >= 3 { assert s[..3][1] == s[1]; }
  }

  /** A second replacement that finds no trailing `.#.` changes nothing. */
  lemma TrailingUnchanged(s: seq<Tok>)
    requires |s| >= 3 ==> s[|s| - 2] != Ch('#')
    ensures ReplaceTrailingDotHashDot(s) == s
  {
    if |s| >= 3 { assert s[|s| - 3..][1] == s[|s| - 2]; }
  }

  lemma HashStagesLast(tu: seq<Tok>)
    requires Lacks(tu, '#')
    ensures HashStages(tu + [Ch('#')]) == tu + [Ph(MidHash)]
  {
    var s := tu + [Ch('#')];
    assert |s| >= 3 ==> s[1] == tu[1] && s[|s| - 2] == tu[|tu| - 1];
    LeadingUnchanged(s);
    TrailingUnchanged(s);
    EveryDotHashDotPrefix(tu, [Ch('#')]);
    assert [Ch('#')][1..] == [];
    assert ReplaceEveryDotHashDot([Ch('#')]) == [Ch('#')];
    ReplaceEveryConcat(tu, [Ch('#')], '#', MidHash);
    ReplaceEveryAbsent(tu, '#', MidHash);
  }

  /** `u#` (for instance `foo.#`, or `#` alone): the `#` becomes `[a-zA-Z.]*`. */
  lemma CompileHashLast(u: string)
    requires WildcardFree(u)
    ensures Compile(u + "#") == Literal(u) + [LettersOrDots]
  {
    ToTokensConcat(u, "#");
    assert ToTokens("#") == [Ch('#')];
    StagesHashLast(u);
    CompileFromStagesBack(u + "#", u, MidHash);
  }

  lemma StagesHashFirst(v: string)
    requires WildcardFree(v)
    ensures StarStages(HashStages([Ch('#')] + ToTokens(v))) == [Ph(MidHash)] + ToTokens(v)
  {
    var tv := ToTokens(v);
    WildcardFreeTokens(v);
    HashStagesFirst(tv);
    StarStagesAbsent([Ph(MidHash)] + tv);
  }

  lemma HashStagesFirst(tv: seq<Tok>)
    requires Lacks(tv, '#')
    ensures HashStages([Ch('#')] + tv) == [Ph(MidHash)] + tv
  {
    var s := [Ch('#')] + tv;
    assert |s| >= 3 ==> s[1] == tv[0] && s[|s| - 2] == tv[|tv| - 2];
    LeadingUnchanged(s);
    TrailingUnchanged(s);
    EveryDotHashDotAfterHash(tv);
    ReplaceEveryConcat([Ch('#')], tv, '#', MidHash);
    ReplaceEveryAbsent(tv, '#', MidHash);
  }

  /** The leftmost `.#.` scan passes over a leading `#`. */
  lemma EveryDotHashDotAfterHash(tv: seq<Tok>)
    requires Lacks(tv, '#')
    ensures ReplaceEveryDotHashDot([Ch('#')] + tv) == [Ch('#')] + tv
  {
    var s := [Ch('#')] + tv;
    assert |s| >= 3 ==> s[..3][0] == Ch('#');
    assert s[0] == Ch('#') && s[1..] == tv;
    EveryDotHashDotAbsent(tv);
  }

  /** `#v` (for instance `#.bar`): the `#` becomes `[a-zA-Z.]*`. */
  lemma CompileHashFirst(v: string)
    requires WildcardFree(v)
    ensures Compile("#" + v) == [LettersOrDots] + Literal(v)
  {
    ToTokensConcat("#", v);
    StagesHashFirst(v);
    CompileFromStagesFront("#" + v, MidHash, v);
  }

  lemma StagesDotHashDotFirst(v: string)
    requires WildcardFree(v)
    ensures StarStages(HashStages(DotHashDot + ToTokens(v))) == [Ph(LeadHash)] + ToTokens(v)
  {
    var tv := ToTokens(v);
    WildcardFreeTokens(v);
    HashStagesDotHashDotFirst(tv);
    StarStagesAbsent([Ph(LeadHash)] + tv);
  }

  lemma HashStagesDotHashDotFirst(tv: seq<Tok>)
    requires Lacks(tv, '#')
    ensures HashStages(DotHashDot + tv) == [Ph(LeadHash)] + tv
  {
    var s := DotHashDot + tv;
    assert s[..3] == DotHashDot && s[3..] == tv;
    var s1 := [Ph(LeadHash)] + tv;
    assert ReplaceLeadingDotHashDot(s) == s1;
    assert |s1| >= 3 ==> s1[|s1| - 2] == tv[|tv| - 2];
    TrailingUnchanged(s1);
    EveryDotHashDotPrefix([Ph(LeadHash)], tv);
    EveryDotHashDotAbsent(tv);
    ReplaceEveryAbsent(s1, '#', MidHash);
  }

  /** `.#.v` (for instance `.#.bar`): a leading `.#.` becomes `[.][a-zA-Z.]*`. */
  lemma CompileDotHashDotFirst(v: string)
    requires WildcardFree(v)
    ensures Compile(".#." + v) == [DotChar, LettersOrDots] + Literal(v)
  {
    ToTokensConcat(".#.", v);
    assert ToTokens(".#.") == DotHashDot;
    StagesDotHashDotFirst(v);
    CompileFromStagesFront(".#." + v, LeadHash, v);
  }

  lemma StagesDotHashDotLast(u: string)
    requires WildcardFree(u) && u != ""
    ensures StarStages(HashStages(ToTokens(u) + DotHashDot)) == ToTokens(u) + [Ph(TrailHash)]
  {
    var tu := ToTokens(u);
    WildcardFreeTokens(u);
    HashStagesDotHashDotLast(tu);
    StarStagesAbsent(tu + [Ph(TrailHash)]);
  }

  lemma HashStagesDotHashDotLast(tu: seq<Tok>)
    requires Lacks(tu, '#') && tu != []
    ensures HashStages(tu + DotHashDot) == tu + [Ph(TrailHash)]
  {
    var s := tu + DotHashDot;
    assert s[1] == if |tu| == 1 then Ch('.') else tu[1];
    LeadingUnchanged(s);
    assert s[|s| - 3..] == DotHashDot && s[..|s| - 3] == tu;
    var s2 := tu + [Ph(TrailHash)];
    assert ReplaceTrailingDotHashDot(s) == s2;
    EveryDotHashDotPrefix(tu, [Ph(TrailHash)]);
    assert [Ph(TrailHash)][1..] == [];
    assert ReplaceEveryDotHashDot([Ph(TrailHash)]) == [Ph(TrailHash)];
    ReplaceEveryAbsent(s2, '#', MidHash);
  }

  /** `u.#.` (for instance `foo.#.`): a trailing `.#.` becomes `[a-zA-Z.]*[.]`. */
  lemma CompileDotHashDotLast(u: string)
    requires WildcardFree(u) && u != ""
    ensures Compile(u + ".#.") == Literal(u) + [LettersOrDots, DotChar]
  {
    ToTokensConcat(u, ".#.");
    assert ToTokens(".#.") == DotHashDot;
    StagesDotHashDotLast(u);
    CompileFromStagesBack(u + ".#.", u, TrailHash);
  }

  /** Neither end of `tu.#.tv` is itself `.#.`, when both words are non-empty and `#`-free. */
  lemma DotHashDotBetweenEnds(tu: seq<Tok>, tv: seq<Tok>)
    requires Lacks(tu, '#') && tu != [] && Lacks(tv, '#') && tv != []
    ensures ReplaceTrailingDotHashDot(ReplaceLeadingDotHashDot(tu + DotHashDot + tv)) == tu + DotHashDot + tv
  {
    var s := tu + DotHashDot + tv;
    assert s[..3] != DotHashDot by {
      assert s[..3][1] == s[1];
      if |tu| == 1 { assert s[1] == Ch('.'); } else { assert s[1] == tu[1]; }
    }
    assert s[|s| - 3..] != DotHashDot by {
      assert s[|s| - 3..][1] == s[|s| - 2];
      if |tv| == 1 { assert s[|s| - 2] == Ch('.'); } else { assert s[|s| - 2] == tv[|tv| - 2]; }
    }
  }

  /** A `.#.` at the front of a `#`-free remainder is the only one found. */
  lemma EveryDotHashDotFront(tv: seq<Tok>)
    requires Lacks(tv, '#')
    ensures ReplaceEveryDotHashDot(DotHashDot + tv) == [Ph(MidHash)] + tv
  {
    var t := DotHashDot + tv;
    assert t[..3] == DotHashDot && t[3..] == tv;
    EveryDotHashDotAbsent(tv);
  }

  /** The leftmost scan finds the one interior `.#.`. */
  lemma EveryDotHashDotBetween(tu: seq<Tok>, tv: seq<Tok>)
    requires Lacks(tu, '#') && Lacks(tv, '#')
    ensures ReplaceEveryDotHashDot(tu + DotHashDot + tv) == tu + [Ph(MidHash)] + tv
  {
    var t := DotHashDot + tv;
    assert tu + DotHashDot + tv == tu + t;
    assert t[0] == Ch('.');
    EveryDotHashDotPrefix(tu, t);
    EveryDotHashDotFront(tv);
    assert tu + ([Ph(MidHash)] + tv) == tu + [Ph(MidHash)] + tv;
  }

  lemma StagesDotHashDotBetween(tu: seq<Tok>, tv: seq<Tok>)
    requires Lacks(tu, '#') && Lacks(tu, '*') && tu != []
    requires Lacks(tv, '#') && Lacks(tv, '*') && tv != []
    ensures StarStages(HashStages(tu + DotHashDot + tv)) == tu + [Ph(MidHash)] + tv
  {
    DotHashDotBetweenEnds(tu, tv);
    EveryDotHashDotBetween(tu, tv);
    var s3 := tu + [Ph(MidHash)] + tv;
    assert Lacks(s3, '#') && Lacks(s3, '*');
    ReplaceEveryAbsent(s3, '#', MidHash);
    StarStagesAbsent(s3);
  }

  /** `u.#.v` (for instance `foo.#.bar`): an interior `.#.` collapses to `[a-zA-Z.]*`. */
  lemma CompileDotHashDotBetween(u: string, v: string)
    requires WildcardFree(u) && u != "" && WildcardFree(v) && v != ""
    ensures Compile(u + ".#." + v) == Literal(u) + [LettersOrDots] + Literal(v)
  {
    ToTokensConcat(u + ".#.", v);
    ToTokensConcat(u, ".#.");
    assert ToTokens(".#.") == DotHashDot;
    StagesDotHashDotBetween(ToTokens(u), ToTokens(v));
    CompileFromStages(u + ".#." + v, u, MidHash, v);
  }

  lemma StagesStarFirst(v: string)
    requires WildcardFree(v)
    ensures StarStages(HashStages([Ch('*')] + ToTokens(v))) == [Ph(LeadStar)] + ToTokens(v)
  {
    WildcardFreeTokens(v);
    StarFirstTokens(ToTokens(v));
  }

  lemma StarFirstTokens(tv: seq<Tok>)
    requires Lacks(tv, '#') && Lacks(tv, '*')
    ensures StarStages(HashStages([Ch('*')] + tv)) == [Ph(LeadStar)] + tv
  {
    var s := [Ch('*')] + tv;
    assert Lacks(s, '#');
    HashStagesAbsent(s);
    var s5 := [Ph(LeadStar)] + tv;
    assert s[1..] == tv;
    assert ReplaceTrailingStar(ReplaceLeadingStar(s)) == s5 by {
      assert ReplaceLeadingStar(s) == s5;
      assert s5[|s5| - 1] != Ch('*');
    }
    LacksAfterPlaceholder(LeadStar, tv);
    ReplaceEveryAbsent(s5, '*', MidStar);
  }

  lemma LacksAfterPlaceholder(p: Placeholder, tv: seq<Tok>)
    requires Lacks(tv, '*')
    ensures Lacks([Ph(p)] + tv, '*')
  {
    var s := [Ph(p)] + tv;
    forall i | 0 <= i < |s|
      ensures s[i] != Ch('*')
    {
      if i > 0 {
        assert s[i] == tv[i - 1];
      }
    }
  }

  lemma LacksBeforePlaceholder(tu: seq<Tok>, p: Placeholder)
    requires Lacks(tu, '*')
    ensures Lacks(tu + [Ph(p)], '*')
  {
    var s := tu + [Ph(p)];
    forall i | 0 <= i < |s|
      ensures s[i] != Ch('*')
    {
      if i < |tu| {
        assert s[i] == tu[i];
      }
    }
  }

  /** `*v` (for instance `*.bar`, or `*` alone): a leading `*` becomes `[.]{0,1}[a-zA-Z]*`. */
  lemma CompileStarFirst(v: string)
    requires WildcardFree(v)
    ensures Compile("*" + v) == [OptDot, Letters] + Literal(v)
  {
    ToTokensConcat("*", v);
    StagesStarFirst(v);
    CompileFromStagesFront("*" + v, LeadStar, v);
  }

  lemma StagesStarLast(u: string)
    requires WildcardFree(u) && u != ""
    ensures StarStages(HashStages(ToTokens(u) + [Ch('*')])) == ToTokens(u) + [Ph(TrailStar)]
  {
    WildcardFreeTokens(u);
    StarLastTokens(ToTokens(u));
  }

  lemma StarLastTokens(tu: seq<Tok>)
    requires Lacks(tu, '#') && Lacks(tu, '*') && tu != []
    ensures StarStages(HashStages(tu + [Ch('*')])) == tu + [Ph(TrailStar)]
  {
    var s := tu + [Ch('*')];
    assert Lacks(s, '#') by {
      forall i | 0 <= i < |s|
        ensures s[i] != Ch('#')
      {
        if i < |tu| {
          assert s[i] == tu[i];
        }
      }
    }
    HashStagesAbsent(s);
    var s6 := tu + [Ph(TrailStar)];
    assert ReplaceTrailingStar(ReplaceLeadingStar(s)) == s6 by {
      assert s[0] == tu[0];
      assert ReplaceLeadingStar(s) == s;
      assert s[..|s| - 1] == tu;
    }
    LacksBeforePlaceholder(tu, TrailStar);
    ReplaceEveryAbsent(s6, '*', MidStar);
  }

  /** `u*` (for instance `foo.*`): a trailing `*` becomes `[a-zA-Z]*[.]{0,1}`. */
  lemma CompileStarLast(u: string)
    requires WildcardFree(u) && u != ""
    ensures Compile(u + "*") == Literal(u) + [Letters, OptDot]
  {
    ToTokensConcat(u, "*");
    assert ToTokens("*") == [Ch('*')];
    StagesStarLast(u);
    CompileFromStagesBack(u + "*", u, TrailStar);
  }

  lemma StagesStarBetween(tu: seq<Tok>, tv: seq<Tok>)
    requires Lacks(tu, '#') && Lacks(tu, '*') && tu != []
    requires Lacks(tv, '#') && Lacks(tv, '*') && tv != []
    ensures StarStages(HashStages(tu + [Ch('*')] + tv)) == tu + [Ph(MidStar)] + tv
  {
    var s := tu + [Ch('*')] + tv;
    assert Lacks(s, '#');
    HashStagesAbsent(s);
    assert s[0] == tu[0] && s[|s| - 1] == tv[|tv| - 1];
    assert ReplaceTrailingStar(ReplaceLeadingStar(s)) == s;
    ReplaceEveryConcat(tu + [Ch('*')], tv, '*', MidStar);
    ReplaceEveryConcat(tu, [Ch('*')], '*', MidStar);
    ReplaceEveryAbsent(tu, '*', MidStar);
    ReplaceEveryAbsent(tv, '*', MidStar);
    assert ReplaceEvery([Ch('*')], '*', MidStar) == [Ph(MidStar)];
  }

  /** `u*v` (for instance `foo.*.bar`): an interior `*` becomes `[a-zA-Z]*`. */
  lemma CompileStarBetween(u: string, v: string)
    requires WildcardFree(u) && u != "" && WildcardFree(v) && v != ""
    ensures Compile(u + "*" + v) == Literal(u) + [Letters] + Literal(v)
  {
    ToTokensConcat(u + "*", v);
    ToTokensConcat(u, "*");
    assert ToTokens("*") == [Ch('*')];
    StagesStarBetween(ToTokens(u), ToTokens(v));
    CompileFromStages(u + "*" + v, u, MidStar, v);
  }
}

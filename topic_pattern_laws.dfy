/**
 * What each kind of topic pattern matches, stated on the routing key alone,
 * derived from the compiled regex of `TopicPattern`.
 */
module TopicPatternLaws {
  import opened TopicPattern

  // ---------------------------------------------------------------------
  // The two-piece regexes a placeholder at an end of the pattern becomes
  // ---------------------------------------------------------------------

  /** `[.][a-zA-Z.]*`: a dot, then letters and dots. */
  lemma DotThenLettersOrDots(key: string)
    ensures Matches([DotChar, LettersOrDots], key) <==>
            |key| >= 1 && key[0] == '.' && AllLettersOrDots(key[1..])
  {
    assert [DotChar, LettersOrDots] == Literal(".") + [LettersOrDots];
    LiteralPrefixMatches(".", [LettersOrDots], key);
    if |key| >= 1 {
      SingleMatches(LettersOrDots, key[1..]);
    }
  }

  /** `[a-zA-Z.]*[.]`: letters and dots, then a dot. */
  lemma LettersOrDotsThenDot(key: string)
    ensures Matches([LettersOrDots, DotChar], key) <==>
            |key| >= 1 && key[|key| - 1] == '.' && AllLettersOrDots(key[..|key| - 1])
  {
    assert [LettersOrDots, DotChar] == [LettersOrDots] + Literal(".");
    LiteralSuffixMatches([LettersOrDots], ".", key);
    if |key| >= 1 {
      SingleMatches(LettersOrDots, key[..|key| - 1]);
      assert key[|key| - 1..] == [key[|key| - 1]];
    }
  }

  /** `[.]{0,1}[a-zA-Z]*`: letters, optionally after one dot. */
  lemma OptDotThenLetters(key: string)
    ensures Matches([OptDot, Letters], key) <==>
            AllLetters(key) || (|key| >= 1 && key[0] == '.' && AllLetters(key[1..]))
  {
    assert [OptDot, Letters][1..] == [Letters];
    SingleMatches(Letters, key);
    if key != [] {
      SingleMatches(Letters, key[1..]);
    }
  }

  /** `[a-zA-Z]*[.]{0,1}`: letters, optionally followed by one dot. */
  lemma LettersThenOptDot(key: string)
    ensures Matches([Letters, OptDot], key) <==>
            AllLetters(key) || (|key| >= 1 && key[|key| - 1] == '.' && AllLetters(key[..|key| - 1]))
  {
    assert [Letters] + [OptDot] == [Letters, OptDot];
    if Matches([Letters, OptDot], key) {
      LettersThenOptDotSplits(key);
    }
    if AllLetters(key) {
      SingleMatches(Letters, key[..|key|]);
      SingleMatches(OptDot, key[|key|..]);
      assert key[..|key|] == key;
      ConcatJoins([Letters], [OptDot], key, |key|);
    } else if |key| >= 1 && key[|key| - 1] == '.' && AllLetters(key[..|key| - 1]) {
      SingleMatches(Letters, key[..|key| - 1]);
      SingleMatches(OptDot, key[|key| - 1..]);
      assert key[|key| - 1..] == ".";
      ConcatJoins([Letters], [OptDot], key, |key| - 1);
    }
  }

  lemma LettersThenOptDotSplits(key: string)
    requires Matches([Letters] + [OptDot], key)
    ensures AllLetters(key) || (|key| >= 1 && key[|key| - 1] == '.' && AllLetters(key[..|key| - 1]))
  {
    ConcatSplits([Letters], [OptDot], key);
    var i :| 0 <= i <= |key| && Matches([Letters], key[..i]) && Matches([OptDot], key[i..]);
    SingleMatches(Letters, key[..i]);
    SingleMatches(OptDot, key[i..]);
    if i == |key| {
      assert key[..i] == key;
    } else {
      assert key[i..] == ".";
      assert i == |key| - 1;
    }
  }

  /** A regex between two literal words: the key carries both words, not overlapping, around a middle `mid` matches. */
  lemma Between(u: string, mid: seq<Piece>, v: string, key: string)
    ensures Matches(Literal(u) + mid + Literal(v), key) <==>
            |key| >= |u| + |v| && key[..|u|] == u && key[|key| - |v|..] == v &&
            Matches(mid, key[|u|..|key| - |v|])
  {
    BetweenGrouped(u, mid, v, key);
    PiecesAssociative(Literal(u), mid, Literal(v));
  }

  lemma PiecesAssociative(a: seq<Piece>, b: seq<Piece>, c: seq<Piece>)
    ensures a + b + c == a + (b + c)
  {
  }

  lemma BetweenGrouped(u: string, mid: seq<Piece>, v: string, key: string)
    ensures Matches(Literal(u) + (mid + Literal(v)), key) <==>
            |key| >= |u| + |v| && key[..|u|] == u && key[|key| - |v|..] == v &&
            Matches(mid, key[|u|..|key| - |v|])
  {
    LiteralPrefixMatches(u, mid + Literal(v), key);
    if |key| >= |u| {
      BetweenRest(u, mid, v, key);
    }
  }

  lemma BetweenRest(u: string, mid: seq<Piece>, v: string, key: string)
    requires |key| >= |u|
    ensures Matches(mid + Literal(v), key[|u|..]) <==>
            |key| >= |u| + |v| && key[|key| - |v|..] == v && Matches(mid, key[|u|..|key| - |v|])
  {
    var rest := key[|u|..];
    LiteralSuffixMatches(mid, v, rest);
    if |rest| >= |v| {
      assert rest[|rest| - |v|..] == key[|key| - |v|..];
      assert rest[..|rest| - |v|] == key[|u|..|key| - |v|];
    }
  }

  // ---------------------------------------------------------------------
  // The pattern families
  // ---------------------------------------------------------------------

  /** A pattern of plain text (no wildcards, no regex syntax) matches exactly the key equal to it. */
  lemma NoWildcardMeaning(w: string, key: string)
    requires PlainText(w)
    ensures TopicPatternTest(w, key) <==> key == w
  {
    PlainTextWildcardFree(w);
    CompileWildcardFree(w);
    LiteralMatches(w, key);
  }

  /** `u#`: the key starts with `u`, and the rest is letters and dots. */
  lemma HashLastMeaning(u: string, key: string)
    requires PlainText(u)
    ensures TopicPatternTest(u + "#", key) <==>
            |key| >= |u| && key[..|u|] == u && AllLettersOrDots(key[|u|..])
  {
    PlainTextWildcardFree(u);
    CompileHashLast(u);
    LiteralPrefixMatches(u, [LettersOrDots], key);
    if |key| >= |u| {
      SingleMatches(LettersOrDots, key[|u|..]);
    }
  }

  /** `#v`: the key ends with `v`, and what comes before is letters and dots. */
  lemma HashFirstMeaning(v: string, key: string)
    requires PlainText(v)
    ensures TopicPatternTest("#" + v, key) <==>
            |key| >= |v| && key[|key| - |v|..] == v && AllLettersOrDots(key[..|key| - |v|])
  {
    PlainTextWildcardFree(v);
    CompileHashFirst(v);
    LiteralSuffixMatches([LettersOrDots], v, key);
    if |key| >= |v| {
      SingleMatches(LettersOrDots, key[..|key| - |v|]);
    }
  }

  /** `.#.v`: the key ends with `v`, and what comes before is a dot followed by letters and dots. */
  lemma DotHashDotFirstMeaning(v: string, key: string)
    requires PlainText(v)
    ensures TopicPatternTest(".#." + v, key) <==>
            |key| >= |v| + 1 && key[|key| - |v|..] == v && key[0] == '.' &&
            AllLettersOrDots(key[1..|key| - |v|])
  {
    PlainTextWildcardFree(v);
    CompileDotHashDotFirst(v);
    LiteralSuffixMatches([DotChar, LettersOrDots], v, key);
    if |key| >= |v| {
      var front := key[..|key| - |v|];
      DotThenLettersOrDots(front);
      if |front| >= 1 {
        assert front[0] == key[0] && front[1..] == key[1..|key| - |v|];
      }
    }
  }

  /** `u.#.`: the key starts with `u`, and what follows is letters and dots ending in a dot. */
  lemma DotHashDotLastMeaning(u: string, key: string)
    requires PlainText(u) && u != ""
    ensures TopicPatternTest(u + ".#.", key) <==>
            |key| >= |u| + 1 && key[..|u|] == u && key[|key| - 1] == '.' &&
            AllLettersOrDots(key[|u|..|key| - 1])
  {
    PlainTextWildcardFree(u);
    CompileDotHashDotLast(u);
    DotHashDotLastRegex(u, key);
  }

  lemma DotHashDotLastRegex(u: string, key: string)
    ensures Matches(Literal(u) + [LettersOrDots, DotChar], key) <==>
            |key| >= |u| + 1 && key[..|u|] == u && key[|key| - 1] == '.' &&
            AllLettersOrDots(key[|u|..|key| - 1])
  {
    LiteralPrefixMatches(u, [LettersOrDots, DotChar], key);
    if |key| >= |u| {
      LettersOrDotsThenDotFrom(key, |u|);
    }
  }

  /** `[a-zA-Z.]*[.]` on `key[n..]`, stated on `key`. */
  lemma LettersOrDotsThenDotFrom(key: string, n: nat)
    requires n <= |key|
    ensures Matches([LettersOrDots, DotChar], key[n..]) <==>
            |key| >= n + 1 && key[|key| - 1] == '.' && AllLettersOrDots(key[n..|key| - 1])
  {
    LettersOrDotsThenDot(key[n..]);
    BackSlices(key, n);
  }

  /** The last character of `key[n..]`, and what precedes it, read off `key`. */
  lemma BackSlices(key: string, n: nat)
    requires n <= |key|
    ensures var back := key[n..];
            |back| >= 1 ==> back[|back| - 1] == key[|key| - 1] && back[..|back| - 1] == key[n..|key| - 1]
  {
  }

  /**
   * `u.#.v`: the key starts with `u` and ends with `v`, the two not
   * overlapping, and only letters and dots lie between them. The dots
   * around `#` are absorbed, so `foo.#.bar` also matches `foobar`.
   */
  lemma DotHashDotBetweenMeaning(u: string, v: string, key: string)
    requires PlainText(u) && u != "" && PlainText(v) && v != ""
    ensures TopicPatternTest(u + ".#." + v, key) <==>
            |key| >= |u| + |v| && key[..|u|] == u && key[|key| - |v|..] == v &&
            AllLettersOrDots(key[|u|..|key| - |v|])
  {
    PlainTextWildcardFree(u);
    PlainTextWildcardFree(v);
    CompileDotHashDotBetween(u, v);
    Between(u, [LettersOrDots], v, key);
    if |key| >= |u| + |v| {
      SingleMatches(LettersOrDots, key[|u|..|key| - |v|]);
    }
  }

  /** `*v`: the key ends with `v`, and what comes before is letters, optionally after one dot. */
  lemma StarFirstMeaning(v: string, key: string)
    requires PlainText(v)
    ensures TopicPatternTest("*" + v, key) <==>
            |key| >= |v| && key[|key| - |v|..] == v &&
            (AllLetters(key[..|key| - |v|]) ||
             (|key| >= |v| + 1 && key[0] == '.' && AllLetters(key[1..|key| - |v|])))
  {
    PlainTextWildcardFree(v);
    CompileStarFirst(v);
    LiteralSuffixMatches([OptDot, Letters], v, key);
    if |key| >= |v| {
      var front := key[..|key| - |v|];
      OptDotThenLetters(front);
      if |front| >= 1 {
        assert front[0] == key[0] && front[1..] == key[1..|key| - |v|];
      }
    }
  }

  /** `u*`: the key starts with `u`, and what follows is letters, optionally followed by one dot. */
  lemma StarLastMeaning(u: string, key: string)
    requires PlainText(u) && u != ""
    ensures TopicPatternTest(u + "*", key) <==>
            |key| >= |u| && key[..|u|] == u &&
            (AllLetters(key[|u|..]) ||
             (|key| >= |u| + 1 && key[|key| - 1] == '.' && AllLetters(key[|u|..|key| - 1])))
  {
    PlainTextWildcardFree(u);
    CompileStarLast(u);
    StarLastRegex(u, key);
  }

  lemma StarLastRegex(u: string, key: string)
    ensures Matches(Literal(u) + [Letters, OptDot], key) <==>
            |key| >= |u| && key[..|u|] == u &&
            (AllLetters(key[|u|..]) ||
             (|key| >= |u| + 1 && key[|key| - 1] == '.' && AllLetters(key[|u|..|key| - 1])))
  {
    LiteralPrefixMatches(u, [Letters, OptDot], key);
    if |key| >= |u| {
      LettersThenOptDotFrom(key, |u|);
    }
  }

  /** `[a-zA-Z]*[.]{0,1}` on `key[n..]`, stated on `key`. */
  lemma LettersThenOptDotFrom(key: string, n: nat)
    requires n <= |key|
    ensures Matches([Letters, OptDot], key[n..]) <==>
            AllLetters(key[n..]) || (|key| >= n + 1 && key[|key| - 1] == '.' && AllLetters(key[n..|key| - 1]))
  {
    LettersThenOptDot(key[n..]);
    BackSlices(key, n);
  }

  /** `u*v`: the key starts with `u` and ends with `v`, the two not overlapping, and only letters lie between them. */
  lemma StarBetweenMeaning(u: string, v: string, key: string)
    requires PlainText(u) && u != "" && PlainText(v) && v != ""
    ensures TopicPatternTest(u + "*" + v, key) <==>
            |key| >= |u| + |v| && key[..|u|] == u && key[|key| - |v|..] == v &&
            AllLetters(key[|u|..|key| - |v|])
  {
    PlainTextWildcardFree(u);
    PlainTextWildcardFree(v);
    CompileStarBetween(u, v);
    Between(u, [Letters], v, key);
    if |key| >= |u| + |v| {
      SingleMatches(Letters, key[|u|..|key| - |v|]);
    }
  }
}

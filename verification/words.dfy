/** The word tallier of CrawlerTask.compute: lower-case the page text, split it at
    every character outside Java's \w, drop tokens shorter than three characters and
    count the rest. */
module Words {
  import opened Strings
  import opened FreqMap

  /** Java's \w without UNICODE_CHARACTER_CLASS: [a-zA-Z0-9_]; \d adds nothing to it. */
  predicate IsWordChar(c: char) {
    IsAsciiLetter(c) || IsAsciiDigit(c) || c == '_'
  }

  /** A character matched by [^\w\d], i.e. one split point. */
  predicate IsSeparator(c: char) {
    !IsWordChar(c)
  }

  /** The characters a key can hold once the text has been lower-cased. */
  predicate IsKeyChar(c: char) {
    IsAsciiLower(c) || IsAsciiDigit(c) || c == '_'
  }

  /** A word the tallier can count. */
  predicate IsKey(w: string) {
    |w| >= 3 && forall i :: 0 <= i < |w| ==> IsKeyChar(w[i])
  }

  /** Every key is a countable word seen at least once. */
  predicate ValidCounts(m: Counts) {
    Positive(m) && forall k :: k in m ==> IsKey(k)
  }

  /** text.toLowerCase().split("[^\\w\\d]") */
  function Tokens(text: string): (ts: seq<string>)
    ensures forall i, j :: 0 <= i < |ts| && 0 <= j < |ts[i]| ==> IsKeyChar(ts[i][j])
  {
    var lower := ToLower(text);
    var ts := JavaSplit(lower, IsSeparator);
    assert forall i, j :: 0 <= i < |ts| && 0 <= j < |ts[i]| ==> !IsAsciiUpper(ts[i][j]) by {
      forall i, j | 0 <= i < |ts| && 0 <= j < |ts[i]|
        ensures !IsAsciiUpper(ts[i][j])
      {
        var k :| 0 <= k < |lower| && lower[k] == ts[i][j];
      }
    }
    ts
  }

  /** The tokens the loop counts, in order: those of length three or more. */
  function Qualifying(ts: seq<string>): (q: seq<string>)
    ensures forall i :: 0 <= i < |q| ==> |q[i]| >= 3 && q[i] in ts
    decreases |ts|
  {
    if |ts| == 0 then []
    else
      var w := ts[|ts| - 1];
      Qualifying(ts[..|ts| - 1]) + (if |w| < 3 then [] else [w])
  }

  /** Every long token is kept as often as it occurs, and no short one is. */
  lemma {:induction false} QualifyingMultiset(ts: seq<string>)
    ensures forall w :: multiset(Qualifying(ts))[w] == if |w| >= 3 then multiset(ts)[w] else 0
    decreases |ts|
  {
    if |ts| > 0 {
      var w := ts[|ts| - 1];
      assert ts == ts[..|ts| - 1] + [w];
      QualifyingMultiset(ts[..|ts| - 1]);
    }
  }

  /** The counting loop: tokens in order, each long one merged in with count 1. */
  function CountTokens(ts: seq<string>): (m: Counts)
    ensures Positive(m)
    ensures forall k :: k in m ==> |k| >= 3 && k in ts
    decreases |ts|
  {
    if |ts| == 0 then map[]
    else
      var m := CountTokens(ts[..|ts| - 1]);
      var w := ts[|ts| - 1];
      if |w| < 3 then m else Bump(m, w)
  }

  /** The tally of one page's text. */
  function Tally(text: string): (m: Counts)
    ensures ValidCounts(m)
  {
    var ts := Tokens(text);
    var m := CountTokens(ts);
    assert forall k :: k in m ==> IsKey(k) by {
      forall k | k in m
        ensures IsKey(k)
      {
        var i :| 0 <= i < |ts| && ts[i] == k;
      }
    }
    m
  }

  /** Each word is counted exactly as often as it occurs among the long tokens. */
  lemma {:induction false} CountTokensOccurrences(ts: seq<string>)
    ensures forall k :: Get(CountTokens(ts), k) == multiset(Qualifying(ts))[k]
    decreases |ts|
  {
    if |ts| > 0 {
      CountTokensOccurrences(ts[..|ts| - 1]);
    }
  }

  /** The counts add up to the number of long tokens. */
  lemma {:induction false} CountTokensTotal(ts: seq<string>)
    ensures SumValues(CountTokens(ts)) == |Qualifying(ts)|
    decreases |ts|
  {
    if |ts| > 0 {
      CountTokensTotal(ts[..|ts| - 1]);
      var w := ts[|ts| - 1];
      if |w| >= 3 {
        BumpSum(CountTokens(ts[..|ts| - 1]), w);
      }
    }
  }

  /** The tally of a page counts every long token of its lower-cased text, and nothing else. */
  lemma TallyOccurrences(text: string)
    ensures forall k :: Get(Tally(text), k) == multiset(Qualifying(Tokens(text)))[k]
    ensures forall k :: k in Tally(text) <==> k in Qualifying(Tokens(text))
  {
    var q := Qualifying(Tokens(text));
    CountTokensOccurrences(Tokens(text));
    forall k
      ensures k in Tally(text) <==> k in q
    {
      assert Get(Tally(text), k) == multiset(q)[k];
    }
  }

  /** Every token of three or more characters is counted with its multiplicity, and
      no shorter one is counted. */
  lemma TallyLongTokens(text: string)
    ensures forall k :: Get(Tally(text), k) == if |k| >= 3 then multiset(Tokens(text))[k] else 0
  {
    CountTokensOccurrences(Tokens(text));
    QualifyingMultiset(Tokens(text));
  }

  /** The counts of a page sum to its number of long tokens. */
  lemma TallyTotal(text: string)
    ensures SumValues(Tally(text)) == |Qualifying(Tokens(text))|
  {
    CountTokensTotal(Tokens(text));
  }

  lemma {:induction false} QualifyingConcat(x: seq<string>, y: seq<string>)
    ensures Qualifying(x + y) == Qualifying(x) + Qualifying(y)
    decreases |y|
  {
    if |y| == 0 {
      assert x + y == x;
    } else {
      QualifyingConcat(x, y[..|y| - 1]);
      assert (x + y)[..|x + y| - 1] == x + y[..|y| - 1];
    }
  }

  /** Empty pieces at the end never qualify. */
  lemma {:induction false} QualifyingPrefix(ps: seq<string>, n: nat)
    requires n <= |ps|
    requires forall i :: n <= i < |ps| ==> ps[i] == ""
    ensures Qualifying(ps[..n]) == Qualifying(ps)
    decreases |ps|
  {
    if n < |ps| {
      var ps' := ps[..|ps| - 1];
      QualifyingPrefix(ps', n);
      assert ps'[..n] == ps[..n];
    } else {
      assert ps[..n] == ps;
    }
  }

  lemma QualifyingTokens(text: string)
    ensures Qualifying(Tokens(text)) == Qualifying(Split(ToLower(text), IsSeparator))
  {
    var ps := Split(ToLower(text), IsSeparator);
    var ts := Tokens(text);
    QualifyingPrefix(ps, |ts|);
  }

  /** Two positive maps that agree on every count are the same map. */
  lemma CountsExt(a: Counts, b: Counts)
    requires Positive(a) && Positive(b)
    requires forall k :: Get(a, k) == Get(b, k)
    ensures a == b
  {
    assert forall k :: k in a <==> k in b by {
      forall k
        ensures k in a <==> k in b
      {
        assert Get(a, k) == Get(b, k);
      }
    }
    forall k | k in a
      ensures a[k] == b[k]
    {
      assert Get(a, k) == Get(b, k);
    }
  }

  /** Tallying two texts glued by a separator is merging their tallies: a page's
      tally is the sum of the tallies of its separator-delimited parts. */
  lemma TallyConcat(a: string, c: char, b: string)
    requires IsSeparator(c)
    ensures Tally(a + [c] + b) == Merge(Tally(a), Tally(b))
  {
    var t, ta, tb := Tally(a + [c] + b), Tally(a), Tally(b);
    QualifyingTokensConcat(a, c, b);
    TallyOccurrences(a + [c] + b);
    TallyOccurrences(a);
    TallyOccurrences(b);
    var m := Merge(ta, tb);
    MergePositive(ta, tb);
    forall k
      ensures Get(t, k) == Get(m, k)
    {
      assert Get(t, k) == Get(ta, k) + Get(tb, k);
    }
    CountsExt(t, m);
  }

  lemma QualifyingTokensConcat(a: string, c: char, b: string)
    requires IsSeparator(c)
    ensures Qualifying(Tokens(a + [c] + b)) == Qualifying(Tokens(a)) + Qualifying(Tokens(b))
  {
    var la, lb := ToLower(a), ToLower(b);
    ToLowerConcat(a + [c], b);
    ToLowerConcat(a, [c]);
    assert ToLower([c]) == [LowerChar(c)];
    assert ToLower(a + [c] + b) == la + [LowerChar(c)] + lb;
    SplitConcat(la, LowerChar(c), lb, IsSeparator);
    QualifyingTokens(a + [c] + b);
    QualifyingTokens(a);
    QualifyingTokens(b);
    QualifyingConcat(Split(la, IsSeparator), Split(lb, IsSeparator));
  }

  /** A single word of three or more word characters is counted once, lower-cased. */
  lemma TallyWord(w: string)
    requires |w| >= 3
    requires forall i :: 0 <= i < |w| ==> IsWordChar(w[i])
    ensures Tally(w) == map[ToLower(w) := 1]
  {
    var lw := ToLower(w);
    TokensWord(w);
    assert [lw][..0] == [];
    assert CountTokens([lw]) == Bump(map[], lw);
    assert Bump(map[], lw) == map[lw := 1];
  }

  /** A countable word on its own is counted once, as itself. */
  lemma TallyKey(w: string)
    requires IsKey(w)
    ensures Tally(w) == map[w := 1]
  {
    ToLowerNoUpper(w);
    TallyWord(w);
  }

  /** A text of word characters only is one token. */
  lemma TokensWord(w: string)
    requires |w| > 0
    requires forall i :: 0 <= i < |w| ==> IsWordChar(w[i])
    ensures Tokens(w) == [ToLower(w)]
  {
    var lw := ToLower(w);
    assert forall i :: 0 <= i < |lw| ==> !IsSeparator(lw[i]);
    SplitNoSep(lw, IsSeparator);
  }

  /** Text without any word of three word characters contributes nothing. */
  lemma TallyNoWord(text: string)
    requires forall i :: 0 <= i < |Tokens(text)| ==> |Tokens(text)[i]| < 3
    ensures Tally(text) == map[]
  {
    TallyOccurrences(text);
    QualifyingShort(Tokens(text));
  }

  lemma {:induction false} QualifyingShort(ts: seq<string>)
    requires forall i :: 0 <= i < |ts| ==> |ts[i]| < 3
    ensures Qualifying(ts) == []
    decreases |ts|
  {
    if |ts| > 0 {
      QualifyingShort(ts[..|ts| - 1]);
    }
  }

  /** Merging keeps every key countable and every count positive. */
  lemma MergeValid(a: Counts, b: Counts)
    requires ValidCounts(a) && ValidCounts(b)
    ensures ValidCounts(Merge(a, b))
  {
    MergePositive(a, b);
  }

  /** Each piece lower-cased. */
  function LowerAll(ps: seq<string>): (ls: seq<string>)
    ensures |ls| == |ps|
    ensures forall i :: 0 <= i < |ps| ==> ls[i] == ToLower(ps[i])
  {
    seq(|ps|, i requires 0 <= i < |ps| => ToLower(ps[i]))
  }

  /** Tallying pieces of word characters glued by separators counts the lower-cased
      pieces, which are then exactly the page's tokens. */
  lemma {:induction false} TallyJoin(ps: seq<string>, cs: seq<char>)
    requires |ps| == |cs| + 1
    requires forall i :: 0 <= i < |cs| ==> IsSeparator(cs[i])
    requires forall i, j :: 0 <= i < |ps| && 0 <= j < |ps[i]| ==> IsWordChar(ps[i][j])
    ensures Tally(JoinBy(ps, cs)) == CountTokens(LowerAll(ps))
    decreases |cs|
  {
    if |cs| == 0 {
      assert JoinBy(ps, cs) == ps[0];
      CountPiece(map[], ps, ps[0]);
      MergeEmptyLeft(Tally(ps[0]));
    } else {
      var ps', cs' := ps[..|ps| - 1], cs[..|cs| - 1];
      TallyJoin(ps', cs');
      TallyConcat(JoinBy(ps', cs'), cs[|cs| - 1], ps[|ps| - 1]);
      CountPiece(Tally(JoinBy(ps', cs')), ps, ps[|ps| - 1]);
    }
  }

  /** Counting one more piece is merging in that piece's own tally. */
  lemma CountPiece(m: Counts, ps: seq<string>, p: string)
    requires |ps| > 0 && ps[|ps| - 1] == p
    requires m == CountTokens(LowerAll(ps[..|ps| - 1]))
    requires forall j :: 0 <= j < |p| ==> IsWordChar(p[j])
    ensures CountTokens(LowerAll(ps)) == Merge(m, Tally(p))
  {
    var lp := ToLower(p);
    assert LowerAll(ps)[..|ps| - 1] == LowerAll(ps[..|ps| - 1]);
    PieceTally(p);
    if |lp| < 3 {
      MergeEmptyRight(m);
    } else {
      MergeOne(m, lp);
    }
  }

  /** Merging in a map that counts one word once is counting that word once more. */
  lemma MergeOne(m: Counts, w: string)
    requires Positive(m)
    ensures Merge(m, map[w := 1]) == Bump(m, w)
  {
    MergePositive(m, map[w := 1]);
    CountsExt(Merge(m, map[w := 1]), Bump(m, w));
  }

  /** A single piece of word characters counts as its lower-cased self when long enough. */
  lemma PieceTally(p: string)
    requires forall j :: 0 <= j < |p| ==> IsWordChar(p[j])
    ensures |p| < 3 ==> Tally(p) == map[]
    ensures |p| >= 3 ==> Tally(p) == map[ToLower(p) := 1]
  {
    if |p| >= 3 {
      TallyWord(p);
    } else if |p| > 0 {
      TokensWord(p);
      TallyNoWord(p);
    } else {
      assert Tokens(p) == [""];
      TallyNoWord(p);
    }
  }
}

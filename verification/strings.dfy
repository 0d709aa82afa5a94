/** Character classes and the few java.lang.String operations the crawler relies on:
    prefix tests, last/first index searches and a regex-free model of String.split
    on a single-character separator class, and Integer.parseInt. */
module Strings {
  import opened Wrappers

  predicate IsAsciiUpper(c: char) { 'A' <= c <= 'Z' }
  predicate IsAsciiLower(c: char) { 'a' <= c <= 'z' }
  predicate IsAsciiDigit(c: char) { '0' <= c <= '9' }
  predicate IsAsciiLetter(c: char) { IsAsciiUpper(c) || IsAsciiLower(c) }

  /** ASCII case mapping; every other character is left as it is. */
  function LowerChar(c: char): char {
    if IsAsciiUpper(c) then (c as int + 32) as char else c
  }

  /** String.toLowerCase restricted to ASCII. */
  function ToLower(s: string): (r: string)
    ensures |r| == |s|
    ensures forall i :: 0 <= i < |s| ==> r[i] == LowerChar(s[i])
    ensures forall i :: 0 <= i < |r| ==> !IsAsciiUpper(r[i])
  {
    seq(|s|, i requires 0 <= i < |s| => LowerChar(s[i]))
  }

  /** Text without upper-case letters is already lower-case. */
  lemma ToLowerNoUpper(s: string)
    requires forall i :: 0 <= i < |s| ==> !IsAsciiUpper(s[i])
    ensures ToLower(s) == s
  {
  }

  lemma ToLowerConcat(a: string, b: string)
    ensures ToLower(a + b) == ToLower(a) + ToLower(b)
  {
    assert forall i :: 0 <= i < |a + b| ==> ToLower(a + b)[i] == (ToLower(a) + ToLower(b))[i];
  }

  predicate StartsWith(s: string, p: string) {
    |p| <= |s| && s[..|p|] == p
  }

  /** Index of the last character satisfying p, or -1 (String.lastIndexOf). */
  function LastIndexWhere(s: string, p: char -> bool): (r: int)
    ensures -1 <= r < |s|
    ensures 0 <= r ==> p(s[r])
    ensures forall i :: r < i < |s| ==> !p(s[i])
    decreases |s|
  {
    if |s| == 0 then -1
    else if p(s[|s| - 1]) then |s| - 1
    else LastIndexWhere(s[..|s| - 1], p)
  }

  /** Index of the first character in cs, or |s| when there is none. */
  function IndexOfAny(s: string, cs: set<char>): (r: nat)
    ensures r <= |s|
    ensures r < |s| ==> s[r] in cs
    ensures forall i :: 0 <= i < r ==> s[i] !in cs
    decreases |s|
  {
    if |s| == 0 then 0
    else if s[0] in cs then 0
    else 1 + IndexOfAny(s[1..], cs)
  }

  /** The separator characters of s, in order. */
  function Seps(s: string, isSep: char -> bool): seq<char>
    decreases |s|
  {
    if |s| == 0 then []
    else Seps(s[..|s| - 1], isSep) + (if isSep(s[|s| - 1]) then [s[|s| - 1]] else [])
  }

  /** Rebuilds a string from its pieces and the separators between them. */
  function JoinBy(ps: seq<string>, cs: seq<char>): string
    requires |ps| == |cs| + 1
    decreases |cs|
  {
    if |cs| == 0 then ps[0]
    else JoinBy(ps[..|ps| - 1], cs[..|cs| - 1]) + [cs[|cs| - 1]] + ps[|ps| - 1]
  }

  /** Splits s at EVERY separator character, keeping all empty pieces. */
  function Split(s: string, isSep: char -> bool): (r: seq<string>)
    ensures |r| == |Seps(s, isSep)| + 1
    ensures forall i, j :: 0 <= i < |r| && 0 <= j < |r[i]| ==> !isSep(r[i][j])
    ensures forall i, j :: 0 <= i < |r| && 0 <= j < |r[i]| ==> r[i][j] in s
    decreases |s|
  {
    if |s| == 0 then [""]
    else
      var t := Split(s[..|s| - 1], isSep);
      var c := s[|s| - 1];
      if isSep(c) then t + [""]
      else t[..|t| - 1] + [t[|t| - 1] + [c]]
  }

  /** Split loses nothing: the pieces and the separators rebuild the input. */
  lemma {:induction false} SplitJoin(s: string, isSep: char -> bool)
    ensures JoinBy(Split(s, isSep), Seps(s, isSep)) == s
    decreases |s|
  {
    if |s| > 0 {
      var s' := s[..|s| - 1];
      var c := s[|s| - 1];
      var t := Split(s', isSep);
      SplitJoin(s', isSep);
      assert s == s' + [c];
      var r := Split(s, isSep);
      if isSep(c) {
        assert r[..|r| - 1] == t;
      } else {
        var cs := Seps(s, isSep);
        assert cs == Seps(s', isSep);
        if |cs| > 0 {
          assert r[..|r| - 1] == t[..|t| - 1];
        }
      }
    }
  }

  /** The last piece of a split is everything after the last separator. */
  lemma {:induction false} SplitLast(s: string, isSep: char -> bool)
    ensures var r := Split(s, isSep); r[|r| - 1] == s[LastIndexWhere(s, isSep) + 1..]
    decreases |s|
  {
    if |s| > 0 {
      var s' := s[..|s| - 1];
      SplitLast(s', isSep);
      SplitSnocLast(s, isSep);
      if !isSep(s[|s| - 1]) {
        SliceSnoc(s, LastIndexWhere(s', isSep) + 1);
      }
    }
  }

  lemma SplitSnocLast(s: string, isSep: char -> bool)
    requires |s| > 0
    ensures var r, t := Split(s, isSep), Split(s[..|s| - 1], isSep);
            r[|r| - 1] == if isSep(s[|s| - 1]) then "" else t[|t| - 1] + [s[|s| - 1]]
  {
  }

  lemma SliceSnoc(s: string, k: int)
    requires 0 <= k < |s|
    ensures s[k..] == s[..|s| - 1][k..] + [s[|s| - 1]]
  {
  }

  lemma SplitNoSep(s: string, isSep: char -> bool)
    requires forall i :: 0 <= i < |s| ==> !isSep(s[i])
    ensures Split(s, isSep) == [s]
  {
    SplitLast(s, isSep);
  }

  /** One more character either opens a new piece or extends the last one. */
  lemma SplitSnoc(s: string, d: char, isSep: char -> bool)
    ensures var t := Split(s, isSep);
            Split(s + [d], isSep) == if isSep(d) then t + [""] else t[..|t| - 1] + [t[|t| - 1] + [d]]
  {
    assert (s + [d])[..|s|] == s;
  }

  /** Splitting two texts glued by a separator splits each of them. */
  lemma {:induction false} SplitConcat(x: string, c: char, y: string, isSep: char -> bool)
    requires isSep(c)
    ensures Split(x + [c] + y, isSep) == Split(x, isSep) + Split(y, isSep)
    decreases |y|
  {
    if |y| == 0 {
      assert x + [c] + y == x + [c];
      SplitSnoc(x, c, isSep);
    } else {
      var y' := y[..|y| - 1];
      var d := y[|y| - 1];
      assert y == y' + [d];
      assert x + [c] + y == (x + [c] + y') + [d];
      SplitConcat(x, c, y', isSep);
      SplitSnoc(x + [c] + y', d, isSep);
      SplitSnoc(y', d, isSep);
      SnocDistributes(Split(x, isSep), Split(y', isSep), d, isSep(d));
    }
  }

  lemma SnocDistributes(tx: seq<string>, ty: seq<string>, d: char, sep: bool)
    requires |ty| > 0
    ensures var t := tx + ty;
            (if sep then t + [""] else t[..|t| - 1] + [t[|t| - 1] + [d]])
            == tx + (if sep then ty + [""] else ty[..|ty| - 1] + [ty[|ty| - 1] + [d]])
  {
    var t := tx + ty;
    assert t[..|t| - 1] == tx + ty[..|ty| - 1];
  }

  /** The longest prefix of s whose remainder consists only of characters satisfying p. */
  function StripTrailing(s: string, p: char -> bool): (r: string)
    ensures |r| <= |s| && r == s[..|r|]
    ensures forall i :: |r| <= i < |s| ==> p(s[i])
    ensures |r| > 0 ==> !p(r[|r| - 1])
    ensures |s| > 0 && !p(s[0]) ==> |r| > 0
    decreases |s|
  {
    if |s| > 0 && p(s[|s| - 1]) then StripTrailing(s[..|s| - 1], p) else s
  }

  function Empties(n: nat): (r: seq<string>)
    ensures |r| == n
    ensures forall i :: 0 <= i < n ==> r[i] == ""
  {
    seq(n, _ => "")
  }

  /** Separators at the end of the input only add empty pieces. */
  lemma {:induction false} SplitTrailing(s: string, isSep: char -> bool)
    ensures var core := StripTrailing(s, isSep);
            Split(s, isSep) == Split(core, isSep) + Empties(|s| - |core|)
    decreases |s|
  {
    if |s| > 0 && isSep(s[|s| - 1]) {
      var s' := s[..|s| - 1];
      SplitTrailing(s', isSep);
      var core := StripTrailing(s', isSep);
      assert Empties(|s'| - |core|) + [""] == Empties(|s| - |core|);
    } else {
      assert Empties(0) == [];
    }
  }

  /** Drops the empty pieces at the end (String.split with limit 0). */
  function DropTrailingEmpty(ps: seq<string>): (r: seq<string>)
    ensures |r| <= |ps| && r == ps[..|r|]
    ensures forall i :: |r| <= i < |ps| ==> ps[i] == ""
    ensures |r| > 0 ==> r[|r| - 1] != ""
    decreases |ps|
  {
    if |ps| > 0 && ps[|ps| - 1] == "" then DropTrailingEmpty(ps[..|ps| - 1]) else ps
  }

  lemma {:induction false} DropTrailingEmpties(ps: seq<string>, n: nat)
    requires |ps| > 0 && ps[|ps| - 1] != ""
    ensures DropTrailingEmpty(ps + Empties(n)) == ps
    decreases n
  {
    if n > 0 {
      var qs := ps + Empties(n);
      assert qs[..|qs| - 1] == ps + Empties(n - 1);
      DropTrailingEmpties(ps, n - 1);
    } else {
      assert ps + Empties(0) == ps;
    }
  }

  /** String.split(regex) for a regex matching one separator character: without any
      separator the input comes back whole, otherwise the pieces without the empty
      ones at the end. */
  function JavaSplit(s: string, isSep: char -> bool): (r: seq<string>)
    ensures var ps := Split(s, isSep); |r| <= |ps| && r == ps[..|r|]
    ensures var ps := Split(s, isSep); forall i :: |r| <= i < |ps| ==> ps[i] == ""
    ensures var ps := Split(s, isSep); |ps| == 1 ==> r == ps
    ensures var ps := Split(s, isSep); |ps| > 1 && |r| > 0 ==> r[|r| - 1] != ""
    ensures forall i, j :: 0 <= i < |r| && 0 <= j < |r[i]| ==> !isSep(r[i][j])
    ensures forall i, j :: 0 <= i < |r| && 0 <= j < |r[i]| ==> r[i][j] in s
  {
    var ps := Split(s, isSep);
    if |ps| == 1 then ps else DropTrailingEmpty(ps)
  }

  /** With a separator present and none at the front, String.split gives the pieces of
      the input without its trailing separators. */
  lemma JavaSplitStripped(s: string, isSep: char -> bool, i: nat)
    requires i < |s| && isSep(s[i]) && !isSep(s[0])
    ensures JavaSplit(s, isSep) == Split(StripTrailing(s, isSep), isSep)
  {
    var core := StripTrailing(s, isSep);
    SepsNonEmpty(s, isSep, i);
    assert JavaSplit(s, isSep) == DropTrailingEmpty(Split(s, isSep));
    SplitTrailing(s, isSep);
    LastPieceNonEmpty(core, isSep);
    DropTrailingEmpties(Split(core, isSep), |s| - |core|);
  }

  /** Text that does not end in a separator has a non-empty last piece. */
  lemma LastPieceNonEmpty(s: string, isSep: char -> bool)
    requires |s| > 0 && !isSep(s[|s| - 1])
    ensures var ps := Split(s, isSep); ps[|ps| - 1] != ""
  {
    SplitLast(s, isSep);
  }

  /** The characters String.trim removes. */
  predicate IsBlank(c: char) {
    c <= ' '
  }

  /** The number of blanks at the front. */
  function LeadingBlanks(s: string): (n: nat)
    ensures n <= |s|
    ensures forall i :: 0 <= i < n ==> IsBlank(s[i])
    ensures n < |s| ==> !IsBlank(s[n])
    decreases |s|
  {
    if |s| > 0 && IsBlank(s[0]) then
      var n := LeadingBlanks(s[1..]);
      assert forall i :: 1 <= i < 1 + n ==> s[i] == s[1..][i - 1];
      1 + n
    else 0
  }

  /** String.trim: the blanks at the front are skipped, then those at the end. The
      result is the slice of s after its leading blanks, with only blanks after it and
      no blank at either end. */
  function Trim(s: string): (r: string)
    ensures LeadingBlanks(s) + |r| <= |s| && r == s[LeadingBlanks(s)..LeadingBlanks(s) + |r|]
    ensures forall i :: LeadingBlanks(s) + |r| <= i < |s| ==> IsBlank(s[i])
    ensures r == "" || (!IsBlank(r[0]) && !IsBlank(r[|r| - 1]))
  {
    var a := LeadingBlanks(s);
    if a == |s| then ""
    else
      var e := StripTrailing(s, IsBlank);
      assert a < |e|;
      assert e[|e| - 1] == s[|e| - 1];
      s[a..|e|]
  }

  /** A separator anywhere gives at least two pieces. */
  lemma {:induction false} SepsNonEmpty(s: string, isSep: char -> bool, i: nat)
    requires i < |s| && isSep(s[i])
    ensures |Seps(s, isSep)| > 0
    decreases |s|
  {
    if i < |s| - 1 {
      SepsNonEmpty(s[..|s| - 1], isSep, i);
    }
  }

  /** Stripping the end of a concatenation only touches its second part, as long as
      that part holds a character to keep. */
  lemma {:induction false} StripTrailingConcat(a: string, b: string, p: char -> bool, k: nat)
    requires k < |b| && !p(b[k])
    ensures StripTrailing(a + b, p) == a + StripTrailing(b, p)
    decreases |b|
  {
    if p(b[|b| - 1]) {
      assert (a + b)[..|a + b| - 1] == a + b[..|b| - 1];
      StripTrailingConcat(a, b[..|b| - 1], p, k);
    }
  }

  /** The first index search skips a prefix holding none of the characters. */
  lemma {:induction false} IndexOfAnyConcat(a: string, b: string, cs: set<char>)
    requires forall i :: 0 <= i < |a| ==> a[i] !in cs
    ensures IndexOfAny(a + b, cs) == |a| + IndexOfAny(b, cs)
    decreases |a|
  {
    if |a| > 0 {
      assert (a + b)[1..] == a[1..] + b;
      IndexOfAnyConcat(a[1..], b, cs);
    } else {
      assert a + b == b;
    }
  }

  /** The characteristic property of lastIndexOf pins its result down. */
  lemma LastIndexAt(s: string, p: char -> bool, k: int)
    requires -1 <= k < |s| && (0 <= k ==> p(s[k]))
    requires forall i :: k < i < |s| ==> !p(s[i])
    ensures LastIndexWhere(s, p) == k
  {
  }

  /** Likewise for the first index of any of cs. */
  lemma IndexOfAnyAt(s: string, cs: set<char>, k: nat)
    requires k <= |s| && (k < |s| ==> s[k] in cs)
    requires forall i :: 0 <= i < k ==> s[i] !in cs
    ensures IndexOfAny(s, cs) == k
  {
  }

  /** A string that neither starts nor ends with a blank is its own trim. */
  lemma TrimUnchanged(s: string)
    requires |s| > 0 && !IsBlank(s[0]) && !IsBlank(s[|s| - 1])
    ensures Trim(s) == s
  {
    assert StripTrailing(s, IsBlank) == s;
  }

  /** Character.isWhitespace: the controls '\t' to '\r' and U+001C to U+001F, the space,
      and the other Unicode space, line and paragraph separators except the no-break ones. */
  predicate IsJavaWhitespace(c: char) {
    || '\t' <= c <= '\r' || '\U{1C}' <= c <= ' ' || c == '\U{1680}'
    || '\U{2000}' <= c <= '\U{2006}' || '\U{2008}' <= c <= '\U{200A}'
    || c == '\U{2028}' || c == '\U{2029}' || c == '\U{205F}' || c == '\U{3000}'
  }

  predicate AllWhitespace(s: string) {
    forall i :: 0 <= i < |s| ==> IsJavaWhitespace(s[i])
  }

  predicate AllDigits(s: string) {
    forall i :: 0 <= i < |s| ==> IsAsciiDigit(s[i])
  }

  /** The number an ASCII decimal numeral spells. */
  function DecimalValue(s: string): nat
    requires AllDigits(s)
    decreases |s|
  {
    if s == "" then 0 else 10 * DecimalValue(s[..|s| - 1]) + (s[|s| - 1] as int - '0' as int)
  }

  function Pow10(n: nat): nat {
    if n == 0 then 1 else 10 * Pow10(n - 1)
  }

  /** A numeral of n digits without a leading zero stands for at least 10^(n-1). */
  lemma {:induction false} DecimalAtLeast(s: string)
    requires |s| > 0 && AllDigits(s) && s[0] != '0'
    ensures DecimalValue(s) >= Pow10(|s| - 1)
    decreases |s|
  {
    if |s| > 1 {
      DecimalAtLeast(s[..|s| - 1]);
    }
  }

  const IntMin: int := -0x8000_0000
  const IntMax: int := 0x7fff_ffff

  /** The numeral after an optional leading '+' or '-'. */
  function Unsigned(s: string): (d: string)
    ensures s != "" && s[0] in {'+', '-'} ==> s == [s[0]] + d
    ensures s == "" || s[0] !in {'+', '-'} ==> d == s
  {
    if s != "" && s[0] in {'+', '-'} then s[1..] else s
  }

  /** The value a signed numeral spells. */
  function SignedValue(s: string): int
    requires AllDigits(Unsigned(s))
  {
    var n: int := DecimalValue(Unsigned(s));
    if s != "" && s[0] == '-' then -n else n
  }

  /** Integer.parseInt in radix 10 on ASCII digits: an optional '+' or '-', then at least
      one digit, and a value that fits in a Java int; None is the NumberFormatException. */
  function ParseInt(s: string): (r: Option<int>)
    ensures r.Some? <==> Unsigned(s) != "" && AllDigits(Unsigned(s)) && IntMin <= SignedValue(s) <= IntMax
    ensures r.Some? ==> r.value == SignedValue(s)
    ensures r.Some? ==> IntMin <= r.value <= IntMax
    ensures r.Some? ==> s != "" && (s[0] in {'+', '-'} || IsAsciiDigit(s[0]))
    ensures s != "" && AllDigits(s) && DecimalValue(s) <= IntMax ==> r == Some(DecimalValue(s))
    ensures s != "" && AllDigits(s) && DecimalValue(s) > IntMax ==> r == None
  {
    if s == "" then None
    else
      var digits := if s[0] in {'+', '-'} then s[1..] else s;
      if digits == "" || !AllDigits(digits) then None
      else
        var n: int := DecimalValue(digits);
        var v := if s[0] == '-' then -n else n;
        if v < IntMin || v > IntMax then None else Some(v)
  }

  function DigitChar(d: nat): (c: char)
    requires d < 10
    ensures IsAsciiDigit(c) && c as int - '0' as int == d
  {
    ('0' as int + d) as char
  }

  /** Integer.toString of a natural number: its shortest decimal numeral. */
  function Digits(n: nat): (r: string)
    ensures r != "" && AllDigits(r)
    decreases n
  {
    if n < 10 then [DigitChar(n)] else Digits(n / 10) + [DigitChar(n % 10)]
  }

  lemma {:induction false} DigitsValue(n: nat)
    ensures DecimalValue(Digits(n)) == n
    decreases n
  {
    if n >= 10 {
      DigitsValue(n / 10);
      var r := Digits(n);
      assert r[..|r| - 1] == Digits(n / 10);
    }
  }

  /** Integer.toString in radix 10: a '-' before the digits of a negative number. */
  function Show(n: int): (r: string)
    ensures r != "" && (r[0] == '-' <==> n < 0)
  {
    if n < 0 then "-" + Digits(-n) else Digits(n)
  }

  /** parseInt reads back every int that toString writes. */
  lemma ParseShow(n: int)
    requires IntMin <= n <= IntMax
    ensures ParseInt(Show(n)) == Some(n)
  {
    if n < 0 {
      DigitsValue(-n);
      assert Unsigned(Show(n)) == Digits(-n);
    } else {
      DigitsValue(n);
      assert Unsigned(Show(n)) == Digits(n);
    }
  }
}

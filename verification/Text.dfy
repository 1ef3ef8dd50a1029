/** Decimal numbers and line-structured text, as the catalog and configuration
    codecs read and write them. */
module Text {
  import opened Common

  // ------------------------------------------------------------------ decimals

  predicate IsDigit(c: char) {
    '0' <= c <= '9'
  }

  predicate AllDigits(s: string) {
    forall i :: 0 <= i < |s| ==> IsDigit(s[i])
  }

  function DigitOf(n: nat): (c: char)
    requires n < 10
    ensures IsDigit(c) && c as int - '0' as int == n
  {
    n as char + '0'
  }

  /** The shortest decimal form, as `std::to_string` prints it. */
  function Decimal(n: nat): (s: string)
    ensures s != []
  {
    if n < 10 then [DigitOf(n)] else Decimal(n / 10) + [DigitOf(n % 10)]
  }

  function SignedDecimal(n: int): (s: string)
    ensures s != []
  {
    if n < 0 then "-" + Decimal(-n) else Decimal(n)
  }

  /** The value of a digit string; other characters count for nothing. */
  function ValueOf(s: string): nat {
    if s == [] then 0
    else
      var last := s[|s| - 1];
      ValueOf(s[..|s| - 1]) * 10 + if IsDigit(last) then last as int - '0' as int else 0
  }

  /** `std::from_chars` over the whole of `s` for an unsigned type. */
  function ParseUnsigned(s: string, maximum: nat): (r: Option<nat>)
    ensures r.Some? ==> r.value <= maximum
  {
    if s != [] && AllDigits(s) && ValueOf(s) <= maximum then Some(ValueOf(s)) else None
  }

  /** `std::from_chars` over the whole of `s` for a 64-bit signed type. */
  function ParseInt64(s: string): Option<Int64> {
    if s != [] && s[0] == '-' then
      match ParseUnsigned(s[1..], 0x8000_0000_0000_0000)
      case None => None
      case Some(v) =>
        var negative: Int64 := 0 - v;
        Some(negative)
    else
      match ParseUnsigned(s, 0x7FFF_FFFF_FFFF_FFFF)
      case None => None
      case Some(v) => Some(v)
  }

  lemma {:induction false} DecimalReadsBack(n: nat)
    ensures AllDigits(Decimal(n)) && ValueOf(Decimal(n)) == n
  {
    if n < 10 {
      assert Decimal(n)[..0] == [];
    } else {
      DecimalReadsBack(n / 10);
      assert Decimal(n)[..|Decimal(n)| - 1] == Decimal(n / 10);
    }
  }

  /** No digit string of the same value is shorter than the printed one. */
  lemma {:induction false} DecimalIsShortest(s: string)
    requires s != [] && AllDigits(s)
    ensures |Decimal(ValueOf(s))| <= |s|
  {
    var init := s[..|s| - 1];
    if init == [] {
      assert ValueOf(init) == 0;
    } else {
      DecimalIsShortest(init);
      assert ValueOf(s) / 10 == ValueOf(init);
    }
  }

  lemma UnsignedReadsBack(n: nat, maximum: nat)
    requires n <= maximum
    ensures ParseUnsigned(Decimal(n), maximum) == Some(n)
  {
    hide Decimal, ValueOf;
    DecimalReadsBack(n);
  }

  lemma SignedReadsBack(n: int)
    requires -0x8000_0000_0000_0000 <= n < 0x8000_0000_0000_0000
    ensures ParseInt64(SignedDecimal(n)) == Some(n)
  {
    hide Decimal, ValueOf, ParseUnsigned;
    if n < 0 {
      UnsignedReadsBack(-n, 0x8000_0000_0000_0000);
      assert SignedDecimal(n)[1..] == Decimal(-n);
    } else {
      DecimalReadsBack(n);
      UnsignedReadsBack(n, 0x7FFF_FFFF_FFFF_FFFF);
    }
  }

  lemma SignedIsShortest(s: string)
    requires ParseInt64(s).Some?
    ensures |SignedDecimal(ParseInt64(s).value)| <= |s|
  {
    if s[0] == '-' {
      DecimalIsShortest(s[1..]);
    } else {
      DecimalIsShortest(s);
    }
  }

  // --------------------------------------------------------------------- lines

  predicate IsLine(s: string) {
    forall i :: 0 <= i < |s| ==> s[i] != '\n'
  }

  predicate AreLines(lines: seq<string>) {
    forall i :: 0 <= i < |lines| ==> IsLine(lines[i])
  }

  function LineEnd(s: string): (n: nat)
    ensures n <= |s|
    ensures IsLine(s[..n])
    ensures n < |s| ==> s[n] == '\n'
  {
    if s == [] || s[0] == '\n' then 0
    else
      var n := 1 + LineEnd(s[1..]);
      assert s[..n] == [s[0]] + s[1..][..n - 1];
      n
  }

  /** The lines of a text; a last line need not be terminated. */
  function Split(s: string): seq<string>
    decreases |s|
  {
    if s == [] then []
    else
      var n := LineEnd(s);
      if n == |s| then [s] else [s[..n]] + Split(s[n + 1..])
  }

  /** Every line, each one terminated. */
  function Join(lines: seq<string>): string {
    if lines == [] then [] else lines[0] + ("\n" + Join(lines[1..]))
  }

  predicate EndsLine(s: string) {
    s != [] && s[|s| - 1] == '\n'
  }

  lemma {:induction false} SplitYieldsLines(s: string)
    ensures AreLines(Split(s))
    decreases |s|
  {
    if s != [] {
      var n := LineEnd(s);
      if n < |s| {
        SplitYieldsLines(s[n + 1..]);
      } else {
        assert s[..n] == s;
      }
    }
  }

  lemma EndsLineHasEnd(s: string)
    requires EndsLine(s)
    ensures LineEnd(s) < |s|
  {
    assert s[..|s|] == s;
    assert !IsLine(s);
  }

  lemma CutLine(s: string, n: nat)
    requires n < |s| && s[n] == '\n'
    ensures s == s[..n] + ("\n" + s[n + 1..])
    ensures EndsLine(s) ==> s[n + 1..] == [] || EndsLine(s[n + 1..])
  {
  }

  lemma JoinOfCons(line: string, rest: seq<string>)
    ensures Join([line] + rest) == line + ("\n" + Join(rest))
  {
    assert ([line] + rest)[1..] == rest;
  }

  lemma {:induction false} JoinOfSplit(s: string)
    requires s == [] || EndsLine(s)
    ensures Join(Split(s)) == s
    decreases |s|
  {
    hide LineEnd, EndsLine;
    if s != [] {
      var n := LineEnd(s);
      EndsLineHasEnd(s);
      CutLine(s, n);
      JoinOfSplit(s[n + 1..]);
      JoinOfCons(s[..n], Split(s[n + 1..]));
    }
  }

  lemma {:induction false} LineEndOf(line: string, rest: string)
    requires IsLine(line)
    ensures LineEnd(line + ("\n" + rest)) == |line|
  {
    if line != [] {
      LineEndOf(line[1..], rest);
      assert (line + ("\n" + rest))[1..] == line[1..] + ("\n" + rest);
    }
  }

  lemma {:induction false} SplitOfJoin(lines: seq<string>)
    requires AreLines(lines)
    ensures Split(Join(lines)) == lines
  {
    if lines != [] {
      var line, rest := lines[0], Join(lines[1..]);
      SplitOfJoin(lines[1..]);
      LineEndOf(line, rest);
      var s := line + ("\n" + rest);
      assert s[..|line|] == line && s[|line| + 1..] == rest;
      assert lines == [line] + lines[1..];
    }
  }

  /** Line by line no longer means no longer as a text. */
  lemma {:induction false} JoinIsMonotone(a: seq<string>, b: seq<string>)
    requires |a| == |b| && forall i :: 0 <= i < |a| ==> |a[i]| <= |b[i]|
    ensures |Join(a)| <= |Join(b)|
  {
    if a != [] {
      JoinIsMonotone(a[1..], b[1..]);
    }
  }

  lemma {:induction false} JoinOfConcat(a: seq<string>, b: seq<string>)
    ensures Join(a + b) == Join(a) + Join(b)
  {
    if a == [] {
      assert a + b == b;
    } else {
      assert (a + b)[1..] == a[1..] + b;
      JoinOfConcat(a[1..], b);
    }
  }

  lemma EndsLineOfCut(line: string, rest: string)
    ensures EndsLine(line + ("\n" + rest)) == (rest == "" || EndsLine(rest))
  {
  }

  lemma SplitOfCut(line: string, rest: string)
    requires IsLine(line)
    ensures Split(line + ("\n" + rest)) == [line] + Split(rest)
  {
    LineEndOf(line, rest);
    var s := line + ("\n" + rest);
    assert s[..|line|] == line && s[|line| + 1..] == rest;
  }
}

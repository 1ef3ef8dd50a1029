/** UTF-8 as RFC 3629, section 3, defines it, and the validator of
    src/pattern_catalog.cpp. */
module Utf8 {

  type Octet = bv8

  type CodePoint = bv32

  /** A Unicode scalar value: a code point that is not a surrogate. */
  predicate IsScalar(v: CodePoint) {
    v <= 0x10FFFF && !(0xD800 <= v <= 0xDFFF)
  }

  function Continuation(bits: CodePoint): Octet { (0x80 | (bits & 0x3F)) as Octet }

  /** The table of RFC 3629, section 3. */
  function EncodeScalar(v: CodePoint): (s: seq<Octet>)
    requires v <= 0x10FFFF
    ensures 1 <= |s| <= 4
  {
    if v <= 0x7F then [v as Octet]
    else if v <= 0x7FF then [(0xC0 | (v >> 6)) as Octet, Continuation(v)]
    else if v <= 0xFFFF then [(0xE0 | (v >> 12)) as Octet, Continuation(v >> 6), Continuation(v)]
    else [(0xF0 | (v >> 18)) as Octet, Continuation(v >> 12), Continuation(v >> 6), Continuation(v)]
  }

  predicate AllScalar(vs: seq<CodePoint>) {
    forall i :: 0 <= i < |vs| ==> IsScalar(vs[i])
  }

  function EncodeAll(vs: seq<CodePoint>): seq<Octet>
    requires AllScalar(vs)
  {
    if vs == [] then [] else EncodeScalar(vs[0]) + EncodeAll(vs[1..])
  }

  /** `text` is the encoding of some sequence of scalar values. */
  ghost predicate IsUtf8(text: seq<Octet>) {
    exists vs :: AllScalar(vs) && EncodeAll(vs) == text
  }

  // -------------------------------------------------- one encoded scalar value

  /** The length a first octet announces; 0 if no sequence starts with it. */
  function Announced(first: Octet): nat {
    if first <= 0x7F then 1
    else if 0xC2 <= first <= 0xDF then 2
    else if 0xE0 <= first <= 0xEF then 3
    else if 0xF0 <= first <= 0xF4 then 4
    else 0
  }

  function LeadBits(first: Octet, length: nat): CodePoint {
    if length == 1 then first as CodePoint
    else if length == 2 then (first & 0x1F) as CodePoint
    else if length == 3 then (first & 0x0F) as CodePoint
    else (first & 0x07) as CodePoint
  }

  function Minimum(length: nat): CodePoint {
    if length <= 1 then 0 else if length == 2 then 0x80 else if length == 3 then 0x800 else 0x10000
  }

  function Extend(value: CodePoint, continuation: Octet): CodePoint {
    (value << 6) | ((continuation & 0x3F) as CodePoint)
  }

  function Accumulate(value: CodePoint, more: seq<Octet>): CodePoint
    decreases |more|
  {
    if more == [] then value else Accumulate(Extend(value, more[0]), more[1..])
  }

  predicate IsContinuation(c: Octet) { c & 0xC0 == 0x80 }

  predicate AllContinuations(more: seq<Octet>) {
    forall i :: 0 <= i < |more| ==> IsContinuation(more[i])
  }

  /** What the validator asks of a sequence of the announced length. */
  predicate Acceptable(s: seq<Octet>) {
    && s != [] && |s| == Announced(s[0])
    && AllContinuations(s[1..])
    && var v := Accumulate(LeadBits(s[0], |s|), s[1..]);
       v >= Minimum(|s|) && IsScalar(v)
  }

  lemma Accumulate1(value: CodePoint, c: Octet)
    ensures Accumulate(value, [c]) == Extend(value, c)
  {
    assert [c][1..] == [];
  }

  lemma Accumulate2(value: CodePoint, c: Octet, d: Octet)
    ensures Accumulate(value, [c, d]) == Extend(Extend(value, c), d)
  {
    assert [c, d][1..] == [d];
    Accumulate1(Extend(value, c), d);
  }

  lemma Accumulate3(value: CodePoint, c: Octet, d: Octet, e: Octet)
    ensures Accumulate(value, [c, d, e]) == Extend(Extend(Extend(value, c), d), e)
  {
    assert [c, d, e][1..] == [d, e];
    Accumulate2(Extend(value, c), d, e);
  }

  lemma Bits1(v: CodePoint)
    requires v <= 0x7F
    ensures var c := v as Octet; Announced(c) == 1 && LeadBits(c, 1) == v
  {
  }

  lemma Bits2(v: CodePoint)
    requires 0x7F < v <= 0x7FF
    ensures var c, d := (0xC0 | (v >> 6)) as Octet, Continuation(v);
            Announced(c) == 2 && IsContinuation(d) && Extend(LeadBits(c, 2), d) == v
  {
  }

  lemma Bits3(v: CodePoint)
    requires 0x7FF < v <= 0xFFFF
    ensures var c, d, e := (0xE0 | (v >> 12)) as Octet, Continuation(v >> 6), Continuation(v);
            && Announced(c) == 3 && IsContinuation(d) && IsContinuation(e)
            && Extend(Extend(LeadBits(c, 3), d), e) == v
  {
  }

  lemma Bits4(v: CodePoint)
    requires 0xFFFF < v <= 0x10FFFF
    ensures var c, d, e, f := (0xF0 | (v >> 18)) as Octet, Continuation(v >> 12), Continuation(v >> 6), Continuation(v);
            && Announced(c) == 4 && IsContinuation(d) && IsContinuation(e) && IsContinuation(f)
            && Extend(Extend(Extend(LeadBits(c, 4), d), e), f) == v
  {
  }

  /** The encoding of a scalar value is acceptable, and reading it gives the value back. */
  lemma EncodedIsAcceptable(v: CodePoint)
    requires IsScalar(v)
    ensures var s := EncodeScalar(v);
            Acceptable(s) && Accumulate(LeadBits(s[0], |s|), s[1..]) == v
  {
    hide Continuation, LeadBits, Extend, Announced, IsContinuation;
    var s := EncodeScalar(v);
    if v <= 0x7F {
      Bits1(v);
      assert s[1..] == [];
    } else if v <= 0x7FF {
      Bits2(v);
      assert s[1..] == [s[1]];
      Accumulate1(LeadBits(s[0], 2), s[1]);
    } else if v <= 0xFFFF {
      Bits3(v);
      assert s[1..] == [s[1], s[2]];
      Accumulate2(LeadBits(s[0], 3), s[1], s[2]);
    } else {
      Bits4(v);
      assert s[1..] == [s[1], s[2], s[3]];
      Accumulate3(LeadBits(s[0], 4), s[1], s[2], s[3]);
    }
  }

  lemma Decoded1(c: Octet, v: CodePoint)
    requires Announced(c) == 1 && v == LeadBits(c, 1)
    ensures EncodeScalar(v) == [c]
  {
  }

  lemma Decoded2(c: Octet, d: Octet, v: CodePoint)
    requires Announced(c) == 2 && IsContinuation(d)
    requires v == Extend(LeadBits(c, 2), d)
    ensures EncodeScalar(v) == [c, d]
  {
    assert 0x7F < v <= 0x7FF;
  }

  lemma Decoded3(c: Octet, d: Octet, e: Octet, v: CodePoint)
    requires Announced(c) == 3 && IsContinuation(d) && IsContinuation(e)
    requires v == Extend(Extend(LeadBits(c, 3), d), e) && v >= 0x800
    ensures v <= 0xFFFF && (0xE0 | (v >> 12)) & 0xFF == c as CodePoint
    ensures Continuation(v >> 6) == d && Continuation(v) == e
  {
  }

  lemma Encoded3(c: Octet, d: Octet, e: Octet, v: CodePoint)
    requires 0x800 <= v <= 0xFFFF && (0xE0 | (v >> 12)) & 0xFF == c as CodePoint
    requires Continuation(v >> 6) == d && Continuation(v) == e
    ensures EncodeScalar(v) == [c, d, e]
  {
    hide Continuation;
  }

  lemma Decoded4(c: Octet, d: Octet, e: Octet, f: Octet, v: CodePoint)
    requires Announced(c) == 4 && IsContinuation(d) && IsContinuation(e) && IsContinuation(f)
    requires v == Extend(Extend(Extend(LeadBits(c, 4), d), e), f)
    ensures (0xF0 | (v >> 18)) & 0xFF == c as CodePoint
    ensures Continuation(v >> 12) == d && Continuation(v >> 6) == e && Continuation(v) == f
  {
  }

  lemma Encoded4(c: Octet, d: Octet, e: Octet, f: Octet, v: CodePoint)
    requires 0x10000 <= v <= 0x10FFFF
    requires (0xF0 | (v >> 18)) & 0xFF == c as CodePoint && Continuation(v >> 12) == d
    requires Continuation(v >> 6) == e && Continuation(v) == f
    ensures EncodeScalar(v) == [c, d, e, f]
  {
  }

  /** An acceptable sequence is the encoding of the value read from it: nothing
      overlong, no surrogate and nothing beyond 0x10FFFF is acceptable. */
  lemma AcceptableIsEncoded(s: seq<Octet>, v: CodePoint)
    requires Acceptable(s) && v == Accumulate(LeadBits(s[0], |s|), s[1..])
    ensures IsScalar(v) && EncodeScalar(v) == s
  {
    if |s| == 1 {
      assert s == [s[0]];
      Decoded1(s[0], v);
    } else if |s| == 2 {
      assert s == [s[0], s[1]] && s[1..] == [s[1]];
      Accumulate1(LeadBits(s[0], 2), s[1]);
      Decoded2(s[0], s[1], v);
    } else if |s| == 3 {
      assert s == [s[0], s[1], s[2]] && s[1..] == [s[1], s[2]];
      Accumulate2(LeadBits(s[0], 3), s[1], s[2]);
      Decoded3(s[0], s[1], s[2], v);
      Encoded3(s[0], s[1], s[2], v);
    } else {
      assert s == [s[0], s[1], s[2], s[3]] && s[1..] == [s[1], s[2], s[3]];
      Accumulate3(LeadBits(s[0], 4), s[1], s[2], s[3]);
      Decoded4(s[0], s[1], s[2], s[3], v);
      Encoded4(s[0], s[1], s[2], s[3], v);
    }
  }

  /** The scalar values: all code points but the surrogates. */
  lemma ScalarExactly(v: CodePoint)
    ensures IsScalar(v) <==> v as int < 55296 || 57344 <= v as int < 1114112
  {
  }

  /** RFC 3629, section 7, and the last scalar value. */
  lemma EncodeAnswers()
    ensures EncodeScalar(0x41) == [0x41] && EncodeScalar(0x391) == [0xCE, 0x91]
    ensures EncodeScalar(0x2262) == [0xE2, 0x89, 0xA2] && EncodeScalar(0xD55C) == [0xED, 0x95, 0x9C]
    ensures EncodeScalar(0x233B4) == [0xF0, 0xA3, 0x8E, 0xB4] && EncodeScalar(0x10FFFF) == [0xF4, 0x8F, 0xBF, 0xBF]
  {
  }

  // ------------------------------------------------------------- whole strings

  /** `text` starts with an acceptable sequence. */
  predicate StartsAcceptable(text: seq<Octet>)
    requires text != []
  {
    1 <= Announced(text[0]) <= |text| && Acceptable(text[..Announced(text[0])])
  }

  lemma PeelScalar(text: seq<Octet>, vs: seq<CodePoint>)
    requires text != [] && AllScalar(vs) && EncodeAll(vs) == text
    ensures vs != [] && StartsAcceptable(text)
    ensures EncodeScalar(vs[0]) == text[..Announced(text[0])]
    ensures AllScalar(vs[1..]) && EncodeAll(vs[1..]) == text[Announced(text[0])..]
  {
    var s := EncodeScalar(vs[0]);
    EncodedIsAcceptable(vs[0]);
    assert text == s + EncodeAll(vs[1..]);
    assert text[..|s|] == s && text[0] == s[0];
  }

  lemma PrependScalar(s: seq<Octet>, rest: seq<Octet>, vs: seq<CodePoint>)
    requires Acceptable(s) && AllScalar(vs) && EncodeAll(vs) == rest
    ensures IsUtf8(s + rest)
  {
    var v := Accumulate(LeadBits(s[0], |s|), s[1..]);
    AcceptableIsEncoded(s, v);
    var ws := [v] + vs;
    assert ws[1..] == vs;
    assert AllScalar(ws) && EncodeAll(ws) == s + rest;
  }

  lemma EmptyIsUtf8()
    ensures IsUtf8([])
  {
    assert AllScalar([]) && EncodeAll([]) == [];
  }

  /** A non-empty string is UTF-8 exactly when it starts with an acceptable
      sequence and the rest is UTF-8. */
  lemma Peel(text: seq<Octet>)
    requires text != []
    ensures IsUtf8(text) <==> StartsAcceptable(text) && IsUtf8(text[Announced(text[0])..])
  {
    hide AllScalar, EncodeAll, EncodeScalar, Acceptable, Announced;
    if IsUtf8(text) {
      var vs :| AllScalar(vs) && EncodeAll(vs) == text;
      PeelScalar(text, vs);
    }
    if StartsAcceptable(text) && IsUtf8(text[Announced(text[0])..]) {
      var n := Announced(text[0]);
      var vs :| AllScalar(vs) && EncodeAll(vs) == text[n..];
      PrependScalar(text[..n], text[n..], vs);
      assert text[..n] + text[n..] == text;
    }
  }

  /** No string is the encoding of two sequences of scalar values. */
  lemma {:induction false} EncodingIsUnique(vs: seq<CodePoint>, ws: seq<CodePoint>)
    requires AllScalar(vs) && AllScalar(ws) && EncodeAll(vs) == EncodeAll(ws)
    ensures vs == ws
  {
    var text := EncodeAll(vs);
    if text == [] {
      assert vs == [] && ws == [];
    } else {
      PeelScalar(text, vs);
      PeelScalar(text, ws);
      EncodedIsAcceptable(vs[0]);
      EncodedIsAcceptable(ws[0]);
      EncodingIsUnique(vs[1..], ws[1..]);
      assert vs == [vs[0]] + vs[1..] && ws == [ws[0]] + ws[1..];
    }
  }

  // ---------------------------------------------------------- implementation

  /** The loop over the continuation octets. */
  method ReadContinuations(lead: CodePoint, more: seq<Octet>) returns (ok: bool, value: CodePoint)
    ensures ok == AllContinuations(more)
    ensures ok ==> value == Accumulate(lead, more)
  {
    ok, value := true, lead;
    var rest := more;
    while rest != []
      invariant AllContinuations(rest) == AllContinuations(more)
      invariant Accumulate(value, rest) == Accumulate(lead, more)
      decreases |rest|
    {
      if !IsContinuation(rest[0]) {
        return false, value;
      }
      value := Extend(value, rest[0]);
      assert forall i :: 1 <= i < |rest| ==> rest[i] == rest[1..][i - 1];
      rest := rest[1..];
    }
  }

  /** The branches on the first octet; length 0 is their `return false`. */
  method Announce(first: Octet) returns (length: nat, lead: CodePoint, minimum: CodePoint)
    requires first > 0x7F
    ensures length == Announced(first)
    ensures length != 0 ==> lead == LeadBits(first, length) && minimum == Minimum(length)
  {
    length, lead, minimum := 0, 0, 0;
    if 0xC2 <= first <= 0xDF {
      length, lead, minimum := 2, (first & 0x1F) as CodePoint, 0x80;
    } else if 0xE0 <= first <= 0xEF {
      length, lead, minimum := 3, (first & 0x0F) as CodePoint, 0x800;
    } else if 0xF0 <= first <= 0xF4 {
      length, lead, minimum := 4, (first & 0x07) as CodePoint, 0x10000;
    }
  }

  /** The body of the loop of `isValidUtf8`. */
  method ReadSequence(text: seq<Octet>) returns (ok: bool, length: nat)
    requires text != []
    ensures ok == StartsAcceptable(text)
    ensures ok ==> length == Announced(text[0])
  {
    var first := text[0];
    if first <= 0x7F {
      OneIsAcceptable(text[..1]);
      return true, 1;
    }
    var lead, minimum;
    length, lead, minimum := Announce(first);
    if length == 0 {
      return false, 0;
    }
    if length > |text| {
      return false, 0;
    }
    var value;
    ok, value := ReadContinuations(lead, text[..length][1..]);
    ok := ok && !(value < minimum || value > 0x10FFFF || 0xD800 <= value <= 0xDFFF);
  }

  lemma OneIsAcceptable(s: seq<Octet>)
    requires |s| == 1 && s[0] <= 0x7F
    ensures Acceptable(s)
  {
  }

  /** `isValidUtf8`. */
  method IsValidUtf8(text: seq<Octet>) returns (valid: bool)
    ensures valid == IsUtf8(text)
  {
    var rest := text;
    while rest != []
      invariant IsUtf8(rest) == IsUtf8(text)
      decreases |rest|
    {
      Peel(rest);
      var ok, length := ReadSequence(rest);
      if !ok {
        return false;
      }
      rest := rest[length..];
    }
    EmptyIsUtf8();
    return true;
  }
}

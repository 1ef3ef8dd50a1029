/** Base 64 as RFC 4648, section 4, defines it, and the table-driven encoder
    and decoder of include/base64/base64.hpp. */
module Base64 {
  import opened Common

  type Octet = bv8

  type Sextet = bv8

  type Quantum = bv32

  const PAD: Octet := 0x3D

  // ------------------------------------------------------------ the alphabet

  /** The character of a 6-bit value. */
  function Alphabet(i: Sextet): (c: Octet)
    requires i < 64
    ensures Index(c) == Some(i)
  {
    if i < 26 then 0x41 + i
    else if i < 52 then 0x61 + (i - 26)
    else if i < 62 then 0x30 + (i - 52)
    else if i == 62 then 0x2B
    else 0x2F
  }

  /** The 6-bit value of a character, if it is in the alphabet. */
  function Index(c: Octet): (i: Option<Sextet>)
    ensures i.Some? ==> i.value < 64
  {
    if 0x41 <= c <= 0x5A then Some(c - 0x41)
    else if 0x61 <= c <= 0x7A then Some(c - 0x61 + 26)
    else if 0x30 <= c <= 0x39 then Some(c - 0x30 + 52)
    else if c == 0x2B then Some(62)
    else if c == 0x2F then Some(63)
    else None
  }

  lemma IndexIsInverse(c: Octet)
    requires Index(c).Some?
    ensures Alphabet(Index(c).value) == c
  {
  }

  predicate InAlphabet(c: Octet) { Index(c).Some? }

  // ------------------------------------------------------ RFC 4648, section 4

  /** A 24-bit group made of three octets. */
  function OfOctets(b0: Octet, b1: Octet, b2: Octet): Quantum {
    (b0 as Quantum << 16) | (b1 as Quantum << 8) | b2 as Quantum
  }

  /** A 24-bit group made of four 6-bit values. */
  function OfSextets(i0: Sextet, i1: Sextet, i2: Sextet, i3: Sextet): Quantum
    requires i0 < 64 && i1 < 64 && i2 < 64 && i3 < 64
  {
    (i0 as Quantum << 18) | (i1 as Quantum << 12) | (i2 as Quantum << 6) | i3 as Quantum
  }

  function Sextet0(q: Quantum): (i: Sextet) ensures i < 64 { ((q >> 18) & 0x3F) as Sextet }
  function Sextet1(q: Quantum): (i: Sextet) ensures i < 64 { ((q >> 12) & 0x3F) as Sextet }
  function Sextet2(q: Quantum): (i: Sextet) ensures i < 64 { ((q >> 6) & 0x3F) as Sextet }
  function Sextet3(q: Quantum): (i: Sextet) ensures i < 64 { (q & 0x3F) as Sextet }

  function Octet0(q: Quantum): Octet { ((q >> 16) & 0xFF) as Octet }
  function Octet1(q: Quantum): Octet { ((q >> 8) & 0xFF) as Octet }
  function Octet2(q: Quantum): Octet { (q & 0xFF) as Octet }

  function EncodeQuantum(q: Quantum): (text: seq<Octet>)
    ensures |text| == 4
  {
    [Alphabet(Sextet0(q)), Alphabet(Sextet1(q)), Alphabet(Sextet2(q)), Alphabet(Sextet3(q))]
  }

  /** Three octets as four characters. */
  function EncodeGroup(octets: seq<Octet>): (text: seq<Octet>)
    requires |octets| == 3
    ensures |text| == 4
  {
    EncodeQuantum(OfOctets(octets[0], octets[1], octets[2]))
  }

  /** A final group of fewer than three octets is filled up with zero bits. */
  function Encode(data: seq<Octet>): (text: seq<Octet>)
    ensures |text| == 4 * ((|data| + 2) / 3)
  {
    if data == [] then []
    else if |data| == 1 then EncodeGroup([data[0], 0, 0])[..2] + [PAD, PAD]
    else if |data| == 2 then EncodeGroup([data[0], data[1], 0])[..3] + [PAD]
    else EncodeGroup(data[..3]) + Encode(data[3..])
  }

  /** Four characters of which none is padding. */
  function DecodeFour(c0: Octet, c1: Octet, c2: Octet, c3: Octet): (r: Option<seq<Octet>>)
    ensures r.Some? ==> |r.value| == 3
  {
    var i0 :- Index(c0);
    var i1 :- Index(c1);
    var i2 :- Index(c2);
    var i3 :- Index(c3);
    var q := OfSextets(i0, i1, i2, i3);
    Some([Octet0(q), Octet1(q), Octet2(q)])
  }

  /** Three characters before one padding character. The bits that do not fill
      an octet are discarded. */
  function DecodeThree(c0: Octet, c1: Octet, c2: Octet): (r: Option<seq<Octet>>)
    ensures r.Some? ==> |r.value| == 2
  {
    var i0 :- Index(c0);
    var i1 :- Index(c1);
    var i2 :- Index(c2);
    var q := OfSextets(i0, i1, i2, 0);
    Some([Octet0(q), Octet1(q)])
  }

  /** Two characters before two padding characters. */
  function DecodeTwo(c0: Octet, c1: Octet): (r: Option<seq<Octet>>)
    ensures r.Some? ==> |r.value| == 1
  {
    var i0 :- Index(c0);
    var i1 :- Index(c1);
    var q := OfSextets(i0, i1, 0, 0);
    Some([Octet0(q)])
  }

  function DecodeFull(text: seq<Octet>): (r: Option<seq<Octet>>)
    requires |text| == 4
    ensures r.Some? ==> |r.value| == 3
  {
    DecodeFour(text[0], text[1], text[2], text[3])
  }

  /** The last four characters: one or two of them may be padding. */
  function DecodeLast(text: seq<Octet>): Option<seq<Octet>>
    requires |text| == 4
  {
    if text[3] != PAD then DecodeFull(text)
    else if text[2] != PAD then DecodeThree(text[0], text[1], text[2])
    else DecodeTwo(text[0], text[1])
  }

  function Decode(text: seq<Octet>): Option<seq<Octet>>
  {
    if text == [] then Some([])
    else if |text| < 4 then None
    else if |text| == 4 then DecodeLast(text)
    else
      var first :- DecodeFull(text[..4]);
      var rest :- Decode(text[4..]);
      Some(first + rest)
  }

  // ------------------------------------------------------------- round trips

  lemma OctetsToSextets(q: Quantum)
    requires q < 0x100_0000
    ensures OfSextets(Sextet0(q), Sextet1(q), Sextet2(q), Sextet3(q)) == q
  {
  }

  lemma SextetsToOctets(i0: Sextet, i1: Sextet, i2: Sextet, i3: Sextet)
    requires i0 < 64 && i1 < 64 && i2 < 64 && i3 < 64
    ensures var q := OfSextets(i0, i1, i2, i3);
            OfOctets(Octet0(q), Octet1(q), Octet2(q)) == q
            && Sextet0(q) == i0 && Sextet1(q) == i1 && Sextet2(q) == i2 && Sextet3(q) == i3
  {
  }

  lemma OctetsOfOctets(b0: Octet, b1: Octet, b2: Octet)
    ensures var q := OfOctets(b0, b1, b2);
            q < 0x100_0000 && Octet0(q) == b0 && Octet1(q) == b1 && Octet2(q) == b2
  {
  }

  lemma GroupDecodes(octets: seq<Octet>, text: seq<Octet>)
    requires |octets| == 3
    requires text == EncodeGroup(octets)
    ensures DecodeFull(text) == Some(octets) && text[3] != PAD
  {
    var q := OfOctets(octets[0], octets[1], octets[2]);
    OctetsOfOctets(octets[0], octets[1], octets[2]);
    OctetsToSextets(q);
    assert [Octet0(q), Octet1(q), Octet2(q)] == octets;
  }

  lemma LastOneDecodes(b0: Octet)
    ensures var s := EncodeGroup([b0, 0, 0])[..2] + [PAD, PAD]; DecodeLast(s) == Some([b0])
  {
    var q := OfOctets(b0, 0, 0);
    OctetsOfOctets(b0, 0, 0);
    OctetsToSextets(q);
    assert Sextet2(q) == 0 && Sextet3(q) == 0;
  }

  lemma LastTwoDecode(b0: Octet, b1: Octet)
    ensures var s := EncodeGroup([b0, b1, 0])[..3] + [PAD]; DecodeLast(s) == Some([b0, b1])
  {
    var q := OfOctets(b0, b1, 0);
    OctetsOfOctets(b0, b1, 0);
    OctetsToSextets(q);
    assert Sextet3(q) == 0;
  }

  /** Whatever is encoded decodes to itself. */
  lemma {:induction false} DecodeOfEncode(data: seq<Octet>)
    ensures Decode(Encode(data)) == Some(data)
  {
    if |data| == 1 {
      LastOneDecodes(data[0]);
      assert data == [data[0]];
    } else if |data| == 2 {
      LastTwoDecode(data[0], data[1]);
      assert data == [data[0], data[1]];
    } else if |data| >= 3 {
      FirstGroupDecodes(data, Encode(data));
      DecodeOfEncode(data[3..]);
      assert data == data[..3] + data[3..];
      if |data| == 3 {
        assert data == data[..3] && Encode(data)[..4] == Encode(data);
      }
    }
  }

  lemma FirstGroupDecodes(data: seq<Octet>, text: seq<Octet>)
    requires |data| >= 3 && text == Encode(data)
    ensures DecodeFull(text[..4]) == Some(data[..3]) && text[3] != PAD
    ensures text[4..] == Encode(data[3..])
  {
    assert text[..4] == EncodeGroup(data[..3]);
    GroupDecodes(data[..3], text[..4]);
  }

  // ----------------------------------------------------- what the decoder accepts

  /** The padding characters at the end, at most two. */
  function PadCount(text: seq<Octet>): (p: nat)
    ensures p <= 2 && p <= |text|
  {
    if |text| < 2 || text[|text| - 1] != PAD then 0
    else if text[|text| - 2] != PAD then 1
    else 2
  }

  /** Whole groups of four, and nothing but the alphabet before the padding. */
  predicate WellFormed(text: seq<Octet>) {
    && |text| % 4 == 0
    && forall i :: 0 <= i < |text| - PadCount(text) ==> InAlphabet(text[i])
  }

  lemma WellFormedStep(text: seq<Octet>)
    requires |text| > 4 && |text| % 4 == 0
    ensures PadCount(text) == PadCount(text[4..])
    ensures (WellFormed(text)
             <==> (forall i :: 0 <= i < 4 ==> InAlphabet(text[i])) && WellFormed(text[4..]))
  {
    var rest := text[4..];
    if WellFormed(text) {
      forall i | 0 <= i < |rest| - PadCount(rest) ensures InAlphabet(rest[i]) {
        assert rest[i] == text[i + 4];
      }
    }
    if (forall i :: 0 <= i < 4 ==> InAlphabet(text[i])) && WellFormed(rest) {
      forall i | 0 <= i < |text| - PadCount(text) ensures InAlphabet(text[i]) {
        assert i >= 4 ==> text[i] == rest[i - 4];
      }
    }
  }

  lemma FullAccepts(text: seq<Octet>)
    requires |text| == 4
    ensures DecodeFull(text).Some? <==> forall i :: 0 <= i < 4 ==> InAlphabet(text[i])
  {
    assert InAlphabet(text[0]) && InAlphabet(text[1]) && InAlphabet(text[2]) && InAlphabet(text[3])
      ==> DecodeFull(text).Some?;
  }

  lemma LastAccepts(text: seq<Octet>)
    requires |text| == 4
    ensures DecodeLast(text).Some? <==> WellFormed(text)
    ensures DecodeLast(text).Some? ==> |DecodeLast(text).value| == 3 - PadCount(text)
  {
  }

  lemma {:induction false} DecodeAccepts(text: seq<Octet>)
    ensures Decode(text).Some? <==> WellFormed(text)
    ensures Decode(text).Some? ==> |Decode(text).value| == |text| / 4 * 3 - PadCount(text)
  {
    hide DecodeFull, DecodeLast, InAlphabet;
    if |text| == 4 {
      LastAccepts(text);
    } else if |text| > 4 {
      DecodeAccepts(text[4..]);
      FullAccepts(text[..4]);
      assert |text| / 4 == |text[4..]| / 4 + 1;
      if |text| % 4 == 0 {
        WellFormedStep(text);
      }
    }
  }

  /** The bits of the last character that no octet takes are zero. */
  predicate SpareBitsZero(text: seq<Octet>) {
    if PadCount(text) == 0 || |text| < 4 then true
    else if PadCount(text) == 1 then Index(text[|text| - 2]).Some? && Index(text[|text| - 2]).value & 0x03 == 0
    else Index(text[|text| - 3]).Some? && Index(text[|text| - 3]).value & 0x0F == 0
  }

  lemma FullReencodes(text: seq<Octet>)
    requires |text| == 4 && DecodeFull(text).Some?
    ensures EncodeGroup(DecodeFull(text).value) == text
  {
    SextetsToOctets(Index(text[0]).value, Index(text[1]).value, Index(text[2]).value, Index(text[3]).value);
    IndexIsInverse(text[0]);
    IndexIsInverse(text[1]);
    IndexIsInverse(text[2]);
    IndexIsInverse(text[3]);
  }

  lemma LastReencodes(text: seq<Octet>)
    requires |text| == 4 && DecodeLast(text).Some?
    ensures Encode(DecodeLast(text).value) == text <==> SpareBitsZero(text)
  {
    var b := DecodeLast(text).value;
    if text[3] != PAD {
      FullReencodes(text);
      assert b[3..] == [] && b[..3] == b;
    } else if text[2] != PAD {
      LastTwoReencode(text[0], text[1], text[2]);
    } else {
      LastOneReencodes(text[0], text[1]);
    }
  }

  lemma LastTwoReencode(c0: Octet, c1: Octet, c2: Octet)
    requires Index(c0).Some? && Index(c1).Some? && Index(c2).Some?
    ensures var q := OfSextets(Index(c0).value, Index(c1).value, Index(c2).value, 0);
            var s := EncodeGroup([Octet0(q), Octet1(q), 0]);
            s[0] == c0 && s[1] == c1 && (s[2] == c2 <==> Index(c2).value & 0x03 == 0)
  {
  }

  lemma LastOneReencodes(c0: Octet, c1: Octet)
    requires Index(c0).Some? && Index(c1).Some?
    ensures var q := OfSextets(Index(c0).value, Index(c1).value, 0, 0);
            var s := EncodeGroup([Octet0(q), 0, 0]);
            s[0] == c0 && (s[1] == c1 <==> Index(c1).value & 0x0F == 0)
  {
  }

  lemma SpareBitsStep(text: seq<Octet>, rest: seq<Octet>)
    requires |rest| >= 4 && |text| == |rest| + 4 && text[4..] == rest
    ensures SpareBitsZero(text) == SpareBitsZero(rest)
  {
    assert text[|text| - 1] == rest[|rest| - 1] && text[|text| - 2] == rest[|rest| - 2];
    assert text[|text| - 3] == rest[|rest| - 3];
  }

  lemma EncodeStep(first: seq<Octet>, rest: seq<Octet>, all: seq<Octet>)
    requires |first| == 3 && all == first + rest
    ensures Encode(all) == EncodeGroup(first) + Encode(rest)
  {
    hide EncodeGroup;
    assert all[..3] == first && all[3..] == rest;
  }

  /** Decoded text is what its octets encode to exactly when the spare bits,
      which the decoder does not look at, are zero. */
  lemma {:induction false} EncodeOfDecode(text: seq<Octet>)
    requires Decode(text).Some?
    ensures Encode(Decode(text).value) == text <==> SpareBitsZero(text)
  {
    if |text| == 4 {
      LastReencodes(text);
    } else if |text| > 4 {
      var rest, b := text[4..], Decode(text).value;
      FullReencodes(text[..4]);
      EncodeOfDecode(rest);
      EncodeStep(DecodeFull(text[..4]).value, Decode(rest).value, b);
      assert text == text[..4] + rest;
      DecodeAccepts(rest);
      SpareBitsStep(text, rest);
    }
  }

  /** A padded text that decodes without being canonical: "AB==" gives the octet
      that "AA==" encodes. */
  lemma SpareBitsAreIgnored()
    ensures var text: seq<Octet> := [0x41, 0x42, PAD, PAD];
            Decode(text) == Some([0]) && Encode([0]) == [0x41, 0x41, PAD, PAD]
  {
    var text: seq<Octet> := [0x41, 0x42, PAD, PAD];
    assert DecodeTwo(0x41, 0x42) == Some([0]);
    assert EncodeGroup([0, 0, 0])[..2] == [0x41, 0x41];
  }

  /** Text without padding is accepted exactly when all of it is in the
      alphabet, and then it is the encoding of what it decodes to. */
  lemma UnpaddedIsStrict(text: seq<Octet>)
    requires |text| % 4 == 0 && text != []
    requires forall i :: |text| - 4 <= i < |text| ==> text[i] != PAD
    ensures Decode(text).Some? <==> forall i :: 0 <= i < |text| ==> InAlphabet(text[i])
    ensures Decode(text).Some? ==> Encode(Decode(text).value) == text
  {
    DecodeAccepts(text);
    if Decode(text).Some? {
      EncodeOfDecode(text);
    }
  }

  // ------------------------------------------------------------------ known answers

  /** RFC 4648, table 1. */
  lemma AlphabetIsStandard(i: Sextet)
    requires i < 64
    ensures i < 26 ==> Alphabet(i) == 'A' as Octet + i
    ensures 26 <= i < 52 ==> Alphabet(i) == 'a' as Octet + (i - 26)
    ensures 52 <= i < 62 ==> Alphabet(i) == '0' as Octet + (i - 52)
    ensures i == 62 ==> Alphabet(i) == '+' as Octet
    ensures i == 63 ==> Alphabet(i) == '/' as Octet
  {
  }

  /** RFC 4648, section 10: "f", "fo", "foo" and "foobar". */
  lemma EncodeAnswers()
    ensures Encode([0x66]) == [0x5A, 0x67, 0x3D, 0x3D]
    ensures Encode([0x66, 0x6F]) == [0x5A, 0x6D, 0x38, 0x3D]
    ensures Encode([0x66, 0x6F, 0x6F]) == [0x5A, 0x6D, 0x39, 0x76]
    ensures Encode([0x66, 0x6F, 0x6F, 0x62, 0x61, 0x72]) == [0x5A, 0x6D, 0x39, 0x76, 0x59, 0x6D, 0x46, 0x79]
  {
    var foo: seq<Octet>, bar: seq<Octet> := [0x66, 0x6F, 0x6F], [0x62, 0x61, 0x72];
    EncodeStep(foo, [], foo + []);
    EncodeStep(bar, [], bar + []);
    EncodeStep(foo, bar, foo + bar);
    assert foo + [] == foo && bar + [] == bar && foo + bar == [0x66, 0x6F, 0x6F, 0x62, 0x61, 0x72];
  }

  // ---------------------------------------------------------- implementation

  /** `encode_table_0`, indexed by an octet: its first six bits. */
  function EncodeTable0(t: Octet): Octet { Alphabet(t >> 2) }

  /** `encode_table_1`, indexed by an octet: its last six bits. */
  function EncodeTable1(t: Octet): Octet { Alphabet(t & 0x3F) }

  lemma EncodeTables(t1: Octet, t2: Octet, t3: Octet)
    ensures EncodeGroup([t1, t2, t3])
         == [EncodeTable0(t1), EncodeTable1(((t1 & 0x03) << 4) | ((t2 >> 4) & 0x0F)),
             EncodeTable1(((t2 & 0x0F) << 2) | ((t3 >> 6) & 0x03)), EncodeTable1(t3)]
    ensures t2 == 0 ==> (t1 & 0x03) << 4 == ((t1 & 0x03) << 4) | ((t2 >> 4) & 0x0F)
    ensures t3 == 0 ==> (t2 & 0x0F) << 2 == ((t2 & 0x0F) << 2) | ((t3 >> 6) & 0x03)
  {
  }

  /** Store one encoded group at `curr`. */
  method PutQuantum(encoded: array<Octet>, curr: nat, t1: Octet, t2: Octet, t3: Octet)
    requires curr + 4 <= encoded.Length
    modifies encoded
    ensures encoded[..curr + 4] == old(encoded[..curr]) + EncodeGroup([t1, t2, t3])
    ensures encoded[curr + 4..] == old(encoded[curr + 4..])
  {
    EncodeTables(t1, t2, t3);
    encoded[curr] := EncodeTable0(t1);
    encoded[curr + 1] := EncodeTable1(((t1 & 0x03) << 4) | ((t2 >> 4) & 0x0F));
    encoded[curr + 2] := EncodeTable1(((t2 & 0x0F) << 2) | ((t3 >> 6) & 0x03));
    encoded[curr + 3] := EncodeTable1(t3);
  }

  /** The last one or two octets; what they leave of their group stays padding. */
  method PutTail(encoded: array<Octet>, curr: nat, bytes: seq<Octet>)
    requires curr + 4 == encoded.Length && 1 <= |bytes| <= 2
    requires encoded[curr..] == [PAD, PAD, PAD, PAD]
    modifies encoded
    ensures encoded[..] == old(encoded[..curr]) + Encode(bytes)
  {
    assert encoded[curr + 2] == encoded[curr..][2] && encoded[curr + 3] == encoded[curr..][3];
    if |bytes| == 1 {
      var t1 := bytes[0];
      EncodeTables(t1, 0, 0);
      encoded[curr] := EncodeTable0(t1);
      encoded[curr + 1] := EncodeTable1((t1 & 0x03) << 4);
    } else {
      var t1, t2 := bytes[0], bytes[1];
      EncodeTables(t1, t2, 0);
      encoded[curr] := EncodeTable0(t1);
      encoded[curr + 1] := EncodeTable1(((t1 & 0x03) << 4) | ((t2 >> 4) & 0x0F));
      encoded[curr + 2] := EncodeTable1((t2 & 0x0F) << 2);
    }
  }

  lemma EncodeGroupStep(before: seq<Octet>, bytes: seq<Octet>)
    requires |bytes| >= 3
    ensures (before + EncodeGroup([bytes[0], bytes[1], bytes[2]])) + Encode(bytes[3..]) == before + Encode(bytes)
  {
    hide EncodeGroup, Encode;
    FirstThree(bytes);
    EncodeUnfolds(bytes);
    Regroup(before, EncodeGroup(bytes[..3]), Encode(bytes[3..]), Encode(bytes));
  }

  lemma EncodeUnfolds(bytes: seq<Octet>)
    requires |bytes| >= 3
    ensures Encode(bytes) == EncodeGroup(bytes[..3]) + Encode(bytes[3..])
  {
    hide EncodeGroup;
  }

  lemma Regroup(x: seq<Octet>, y: seq<Octet>, z: seq<Octet>, yz: seq<Octet>)
    requires yz == y + z
    ensures (x + y) + z == x + yz
  {
  }

  lemma FirstThree(bytes: seq<Octet>)
    requires |bytes| >= 3
    ensures [bytes[0], bytes[1], bytes[2]] == bytes[..3]
  {
  }

  /** The length of the text that encodes `n` octets. */
  lemma QuantaCount(n: nat)
    ensures 4 * (n / 3 + if n % 3 > 0 then 1 else 0) == 4 * ((n + 2) / 3)
  {
  }

  method PutGroup(encoded: array<Octet>, curr: nat, bytes: seq<Octet>)
    requires |bytes| >= 3 && curr + 4 <= encoded.Length
    modifies encoded
    ensures encoded[..curr + 4] + Encode(bytes[3..]) == old(encoded[..curr]) + Encode(bytes)
    ensures forall k :: curr + 4 <= k < encoded.Length ==> encoded[k] == old(encoded[k])
  {
    hide EncodeGroup, Encode;
    PutQuantum(encoded, curr, bytes[0], bytes[1], bytes[2]);
    EncodeGroupStep(old(encoded[..curr]), bytes);
    assert encoded[curr + 4..] == old(encoded[curr + 4..]);
    assert forall k :: curr + 4 <= k < encoded.Length ==> encoded[k] == encoded[curr + 4..][k - curr - 4];
  }

  /** The buffer holds the encoding of `data` up to `curr`, but for `bytes`, and
      padding from there on. */
  ghost predicate Filling(text: seq<Octet>, curr: nat, bytes: seq<Octet>, data: seq<Octet>) {
    && curr + |Encode(bytes)| == |text|
    && text[..curr] + Encode(bytes) == Encode(data)
    && forall k :: curr <= k < |text| ==> text[k] == PAD
  }

  lemma FillingStarts(text: seq<Octet>, data: seq<Octet>)
    requires |text| == |Encode(data)| && forall k :: 0 <= k < |text| ==> text[k] == PAD
    ensures Filling(text, 0, data, data)
  {
    hide Encode;
    assert text[..0] + Encode(data) == Encode(data);
  }

  lemma FillingStep(text: seq<Octet>, next: seq<Octet>, curr: nat, bytes: seq<Octet>, data: seq<Octet>)
    requires Filling(text, curr, bytes, data) && |next| == |text| && |bytes| >= 3 && curr + 4 <= |text|
    requires next[..curr + 4] + Encode(bytes[3..]) == text[..curr] + Encode(bytes)
    requires forall k :: curr + 4 <= k < |text| ==> next[k] == text[k]
    ensures Filling(next, curr + 4, bytes[3..], data)
  {
    hide Encode;
    GroupLength(bytes);
  }

  lemma GroupLength(bytes: seq<Octet>)
    ensures |bytes| >= 3 ==> |Encode(bytes)| == 4 + |Encode(bytes[3..])|
    ensures 1 <= |bytes| <= 2 ==> |Encode(bytes)| == 4
    ensures |bytes| == 0 ==> Encode(bytes) == []
  {
    hide EncodeGroup;
  }

  lemma FillingRoom(text: seq<Octet>, curr: nat, bytes: seq<Octet>, data: seq<Octet>)
    requires Filling(text, curr, bytes, data)
    ensures |bytes| >= 3 ==> curr + 4 <= |text|
    ensures 1 <= |bytes| <= 2 ==> curr + 4 == |text| && text[curr..] == [PAD, PAD, PAD, PAD]
    ensures curr <= |text| && text[..curr] + Encode(bytes) == Encode(data)
    ensures bytes == [] ==> text == Encode(data)
  {
    hide Encode;
    GroupLength(bytes);
    if bytes == [] {
      assert text[..curr] + Encode(bytes) == text;
    }
  }

  /** `encode_into`: the output is allocated full of padding and written over. */
  method EncodeInto(data: seq<Octet>) returns (encoded: array<Octet>)
    ensures fresh(encoded) && encoded[..] == Encode(data)
  {
    hide Encode, Filling;
    QuantaCount(|data|);
    encoded := new Octet[4 * (|data| / 3 + if |data| % 3 > 0 then 1 else 0)](_ => PAD);
    FillingStarts(encoded[..], data);
    var curr, bytes := 0, data;
    while |bytes| >= 3
      invariant Filling(encoded[..], curr, bytes, data)
    {
      ghost var text := encoded[..];
      FillingRoom(text, curr, bytes, data);
      assert encoded[..curr] == text[..curr];
      PutGroup(encoded, curr, bytes);
      assert encoded[..][..curr + 4] == encoded[..curr + 4];
      FillingStep(text, encoded[..], curr, bytes, data);
      bytes := bytes[3..];
      curr := curr + 4;
    }
    FillingRoom(encoded[..], curr, bytes, data);
    if bytes != [] {
      assert encoded[..][curr..] == encoded[curr..] && encoded[..][..curr] == encoded[..curr];
      PutTail(encoded, curr, bytes);
    }
  }

  const BAD_CHAR: Quantum := 0x01FF_FFFF

  // The four decode tables as formulas over the 6-bit value.

  function DecodeTable0(c: Octet): Quantum {
    var i := Index(c);
    if i.None? then BAD_CHAR else i.value as Quantum << 2
  }

  function DecodeTable1(c: Octet): Quantum {
    var i := Index(c);
    if i.None? then BAD_CHAR else ((i.value >> 4) as Quantum) | (((i.value & 0x0F) as Quantum) << 12)
  }

  function DecodeTable2(c: Octet): Quantum {
    var i := Index(c);
    if i.None? then BAD_CHAR else (((i.value >> 2) as Quantum) << 8) | (((i.value & 0x03) as Quantum) << 22)
  }

  function DecodeTable3(c: Octet): Quantum {
    var i := Index(c);
    if i.None? then BAD_CHAR else i.value as Quantum << 16
  }

  /** The bytes of a table value, least significant first. */
  function TempByte0(temp: Quantum): Octet { (temp & 0xFF) as Octet }
  function TempByte1(temp: Quantum): Octet { ((temp >> 8) & 0xFF) as Octet }
  function TempByte2(temp: Quantum): Octet { ((temp >> 16) & 0xFF) as Octet }

  lemma FourTables(c0: Octet, c1: Octet, c2: Octet, c3: Octet)
    ensures var temp := DecodeTable0(c0) | DecodeTable1(c1) | DecodeTable2(c2) | DecodeTable3(c3);
            var four := DecodeFour(c0, c1, c2, c3);
            && (temp < BAD_CHAR <==> four.Some?)
            && (four.Some? ==> four.value == [TempByte0(temp), TempByte1(temp), TempByte2(temp)])
  {
    if DecodeFour(c0, c1, c2, c3).Some? {
      FourInRange(c0, c1, c2, c3);
      FourGood(c0, c1, c2, c3, DecodeFour(c0, c1, c2, c3).value);
    } else {
      OneBadIsEnough(DecodeTable0(c0), DecodeTable1(c1), DecodeTable2(c2), DecodeTable3(c3));
    }
  }

  lemma FourInRange(c0: Octet, c1: Octet, c2: Octet, c3: Octet)
    requires DecodeFour(c0, c1, c2, c3).Some?
    ensures DecodeTable0(c0) | DecodeTable1(c1) | DecodeTable2(c2) | DecodeTable3(c3) < BAD_CHAR
  {
    FourSextets(Index(c0).value, Index(c1).value, Index(c2).value, Index(c3).value);
  }

  lemma FourGood(c0: Octet, c1: Octet, c2: Octet, c3: Octet, octets: seq<Octet>)
    requires DecodeFour(c0, c1, c2, c3) == Some(octets)
    ensures var temp := DecodeTable0(c0) | DecodeTable1(c1) | DecodeTable2(c2) | DecodeTable3(c3);
            octets[0] == TempByte0(temp) && octets[1] == TempByte1(temp) && octets[2] == TempByte2(temp)
  {
    FourSextets(Index(c0).value, Index(c1).value, Index(c2).value, Index(c3).value);
  }

  lemma FourSextets(i0: Sextet, i1: Sextet, i2: Sextet, i3: Sextet)
    requires i0 < 64 && i1 < 64 && i2 < 64 && i3 < 64
    ensures var temp := (i0 as Quantum << 2)
                        | (((i1 >> 4) as Quantum) | (((i1 & 0x0F) as Quantum) << 12))
                        | ((((i2 >> 2) as Quantum) << 8) | (((i2 & 0x03) as Quantum) << 22))
                        | (i3 as Quantum << 16);
            var q := OfSextets(i0, i1, i2, i3);
            && temp < BAD_CHAR
            && Octet0(q) == TempByte0(temp) && Octet1(q) == TempByte1(temp) && Octet2(q) == TempByte2(temp)
  {
  }

  lemma ThreeTables(c0: Octet, c1: Octet, c2: Octet)
    ensures var temp := DecodeTable0(c0) | DecodeTable1(c1) | DecodeTable2(c2);
            var three := DecodeThree(c0, c1, c2);
            && (temp < BAD_CHAR <==> three.Some?)
            && (three.Some? ==> three.value == [TempByte0(temp), TempByte1(temp)])
  {
    if DecodeThree(c0, c1, c2).Some? {
      ThreeGood(c0, c1, c2);
    } else {
      OneBadIsEnough(DecodeTable0(c0), DecodeTable1(c1), DecodeTable2(c2), 0);
    }
  }

  lemma ThreeGood(c0: Octet, c1: Octet, c2: Octet)
    requires DecodeThree(c0, c1, c2).Some?
    ensures var temp := DecodeTable0(c0) | DecodeTable1(c1) | DecodeTable2(c2);
            temp < BAD_CHAR && DecodeThree(c0, c1, c2).value == [TempByte0(temp), TempByte1(temp)]
  {
    ThreeSextets(Index(c0).value, Index(c1).value, Index(c2).value);
  }

  lemma OneBadIsEnough(d0: Quantum, d1: Quantum, d2: Quantum, d3: Quantum)
    requires d0 == BAD_CHAR || d1 == BAD_CHAR || d2 == BAD_CHAR || d3 == BAD_CHAR
    ensures d0 | d1 | d2 | d3 >= BAD_CHAR
  {
  }

  lemma ThreeSextets(i0: Sextet, i1: Sextet, i2: Sextet)
    requires i0 < 64 && i1 < 64 && i2 < 64
    ensures var temp := (i0 as Quantum << 2)
                        | (((i1 >> 4) as Quantum) | (((i1 & 0x0F) as Quantum) << 12))
                        | ((((i2 >> 2) as Quantum) << 8) | (((i2 & 0x03) as Quantum) << 22));
            var q := OfSextets(i0, i1, i2, 0);
            temp < BAD_CHAR && Octet0(q) == TempByte0(temp) && Octet1(q) == TempByte1(temp)
  {
  }

  lemma TwoTables(c0: Octet, c1: Octet)
    ensures var temp := DecodeTable0(c0) | DecodeTable1(c1);
            var two := DecodeTwo(c0, c1);
            && (temp < BAD_CHAR <==> two.Some?)
            && (two.Some? ==> two.value == [TempByte0(temp)])
  {
  }

  /** The value of `Decode` when its first `prefix` octets are already known. */
  function Prepend(prefix: seq<Octet>, r: Option<seq<Octet>>): Option<seq<Octet>> {
    if r.None? then None else Some(prefix + r.value)
  }

  lemma DecodeStep(text: seq<Octet>)
    requires |text| >= 4 && (|text| == 4 ==> text[3] != PAD)
    ensures DecodeFull(text[..4]).None? ==> Decode(text).None?
    ensures DecodeFull(text[..4]).Some? ==> Decode(text) == Prepend(DecodeFull(text[..4]).value, Decode(text[4..]))
  {
    if |text| == 4 && DecodeFull(text).Some? {
      assert text[4..] == [] && text[..4] == text;
      assert DecodeFull(text).value + [] == DecodeFull(text).value;
    }
  }

  /** The bytes of a group, unless a character is not in the alphabet. */
  method GroupBytes(t1: Octet, t2: Octet, t3: Octet, t4: Octet)
    returns (ok: bool, b0: Octet, b1: Octet, b2: Octet)
    ensures ok == DecodeFour(t1, t2, t3, t4).Some?
    ensures ok ==> DecodeFour(t1, t2, t3, t4).value == [b0, b1, b2]
  {
    FourTables(t1, t2, t3, t4);
    var temp := DecodeTable0(t1) | DecodeTable1(t2) | DecodeTable2(t3) | DecodeTable3(t4);
    ok := temp < BAD_CHAR;
    b0, b1, b2 := TempByte0(temp), TempByte1(temp), TempByte2(temp);
  }

  /** The number of '=' among the last four characters, as `std::count` finds it. */
  function CountPads(text: seq<Octet>): nat
    requires |text| == 4
  {
    (if text[0] == PAD then 1 else 0) + (if text[1] == PAD then 1 else 0) +
    (if text[2] == PAD then 1 else 0) + (if text[3] == PAD then 1 else 0)
  }

  lemma LastPads(last: seq<Octet>)
    requires |last| == 4
    ensures CountPads(last) == 0 ==> last[3] != PAD
    ensures CountPads(last) == 1 ==> DecodeLast(last) == DecodeThree(last[0], last[1], last[2])
    ensures CountPads(last) == 2 ==> DecodeLast(last) == DecodeTwo(last[0], last[1])
    ensures CountPads(last) > 2 ==> DecodeLast(last).None?
  {
  }

  lemma PadsReject(text: seq<Octet>)
    requires |text| >= 4 && |text| % 4 == 0 && CountPads(text[|text| - 4..]) > 2
    ensures Decode(text).None?
  {
    hide Decode, InAlphabet;
    DecodeAccepts(text);
    var last := text[|text| - 4..];
    assert last[0] == text[|text| - 4] && last[1] == text[|text| - 3];
    PadIsNoLetter();
  }

  lemma PadIsNoLetter()
    ensures !InAlphabet(PAD)
  {
  }

  /** Decode the first group of `text` at `curr`. */
  method TakeGroup(decoded: array<Octet>, curr: nat, text: seq<Octet>) returns (ok: bool)
    requires |text| >= 4 && (|text| == 4 ==> text[3] != PAD)
    requires curr + 3 <= decoded.Length
    modifies decoded
    ensures !ok ==> Decode(text).None?
    ensures ok ==> Prepend(decoded[..curr + 3], Decode(text[4..])) == Prepend(old(decoded[..curr]), Decode(text))
  {
    DecodeStep(text);
    var b0, b1, b2;
    ok, b0, b1, b2 := GroupBytes(text[0], text[1], text[2], text[3]);
    if ok {
      decoded[curr], decoded[curr + 1], decoded[curr + 2] := b0, b1, b2;
      assert decoded[..curr + 3] == old(decoded[..curr]) + [b0, b1, b2];
      PrependTwice(old(decoded[..curr]), [b0, b1, b2], Decode(text[4..]));
    }
  }

  lemma PrependNothing(r: Option<seq<Octet>>)
    ensures Prepend([], r) == r
  {
    if r.Some? {
      assert [] + r.value == r.value;
    }
  }

  lemma PrependTwice(x: seq<Octet>, y: seq<Octet>, r: Option<seq<Octet>>)
    ensures Prepend(x, Prepend(y, r)) == Prepend(x + y, r)
  {
    if r.Some? {
      assert x + (y + r.value) == (x + y) + r.value;
    }
  }

  method ThreeBytes(t1: Octet, t2: Octet, t3: Octet) returns (ok: bool, b0: Octet, b1: Octet)
    ensures ok == DecodeThree(t1, t2, t3).Some?
    ensures ok ==> DecodeThree(t1, t2, t3).value == [b0, b1]
  {
    ThreeTables(t1, t2, t3);
    var temp := DecodeTable0(t1) | DecodeTable1(t2) | DecodeTable2(t3);
    ok := temp < BAD_CHAR;
    b0, b1 := TempByte0(temp), TempByte1(temp);
  }

  method TwoBytes(t1: Octet, t2: Octet) returns (ok: bool, b0: Octet)
    ensures ok == DecodeTwo(t1, t2).Some?
    ensures ok ==> DecodeTwo(t1, t2).value == [b0]
  {
    TwoTables(t1, t2);
    var temp := DecodeTable0(t1) | DecodeTable1(t2);
    ok := temp < BAD_CHAR;
    b0 := TempByte0(temp);
  }

  /** The last group when it carries padding. */
  method TakeLast(decoded: array<Octet>, curr: nat, text: seq<Octet>, numPadding: nat) returns (ok: bool)
    requires |text| == 4 && numPadding == CountPads(text) && 1 <= numPadding <= 2
    requires curr + 3 - numPadding == decoded.Length
    modifies decoded
    ensures !ok ==> Decode(text).None?
    ensures ok ==> Some(decoded[..]) == Prepend(old(decoded[..curr]), Decode(text))
  {
    LastPads(text);
    var b0, b1;
    if numPadding == 1 {
      ok, b0, b1 := ThreeBytes(text[0], text[1], text[2]);
      if ok {
        decoded[curr], decoded[curr + 1] := b0, b1;
        assert decoded[..] == old(decoded[..curr]) + [b0, b1];
      }
    } else {
      ok, b0 := TwoBytes(text[0], text[1]);
      if ok {
        decoded[curr] := b0;
        assert decoded[..] == old(decoded[..curr]) + [b0];
      }
    }
  }

  /** The loop of `decode_into`: every group but a padded last one. */
  method TakeGroups(decoded: array<Octet>, text: seq<Octet>, numPadding: nat)
    returns (ok: bool, curr: nat, rest: seq<Octet>)
    requires |text| >= 4 && |text| % 4 == 0 && numPadding <= 2
    requires numPadding == CountPads(text[|text| - 4..])
    requires decoded.Length == |text| / 4 * 3 - numPadding
    modifies decoded
    ensures !ok ==> Decode(text).None?
    ensures ok ==> rest == if numPadding == 0 then [] else text[|text| - 4..]
    ensures ok ==> curr + (if numPadding == 0 then 0 else 3 - numPadding) == decoded.Length
    ensures ok ==> Prepend(decoded[..curr], Decode(rest)) == Decode(text)
  {
    hide Decode, CountPads, DecodeLast;
    var last := if numPadding != 0 then 1 else 0;
    var groups := |text| / 4 - last;
    ok, curr, rest := true, 0, text;
    PrependNothing(Decode(text));
    assert decoded[..0] == [];
    while groups > 0
      invariant 0 <= groups && |rest| == 4 * (groups + last)
      invariant rest == text[|text| - |rest|..]
      invariant curr + 3 * (groups + last) - numPadding == decoded.Length
      invariant Prepend(decoded[..curr], Decode(rest)) == Decode(text)
    {
      if |rest| == 4 {
        LastPads(rest);
      }
      ok := TakeGroup(decoded, curr, rest);
      if !ok {
        return;
      }
      rest := rest[4..];
      curr := curr + 3;
      groups := groups - 1;
    }
  }

  /** `decode_into`; `ok` is false when the original throws. */
  method DecodeInto(text: seq<Octet>) returns (ok: bool, decoded: array<Octet>)
    ensures fresh(decoded)
    ensures ok == Decode(text).Some?
    ensures ok ==> decoded[..] == Decode(text).value
  {
    decoded := new Octet[0];
    if text == [] {
      return true, decoded;
    }
    if |text| % 4 != 0 {
      DecodeAccepts(text);
      return false, decoded;
    }
    var numPadding := CountPads(text[|text| - 4..]);
    if numPadding > 2 {
      PadsReject(text);
      return false, decoded;
    }
    decoded := new Octet[|text| * 3 / 4 - numPadding];
    var curr, rest;
    ok, curr, rest := TakeGroups(decoded, text, numPadding);
    if ok && numPadding != 0 {
      ok := TakeLast(decoded, curr, rest, numPadding);
    }
  }
}

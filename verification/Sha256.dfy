/** SHA-256 as FIPS 180-4 defines it, and the streaming implementation of
    src/utils.cpp. */
module Sha256 {

  type Word = bv32

  type Octet = bv8

  // ------------------------------------------------- FIPS 180-4, section 4.1.2

  function Rotr(x: Word, n: bv6): Word
    requires 0 < n < 32
  {
    (x >> n) | (x << (32 - n))
  }

  /** Addition modulo 2^32. */
  function Add(x: Word, y: Word): Word { x + y }

  function Ch(x: Word, y: Word, z: Word): Word { (x & y) ^ (!x & z) }

  function Maj(x: Word, y: Word, z: Word): Word { (x & y) ^ (x & z) ^ (y & z) }

  function BigSigma0(x: Word): Word { Rotr(x, 2) ^ Rotr(x, 13) ^ Rotr(x, 22) }

  function BigSigma1(x: Word): Word { Rotr(x, 6) ^ Rotr(x, 11) ^ Rotr(x, 25) }

  function SmallSigma0(x: Word): Word { Rotr(x, 7) ^ Rotr(x, 18) ^ (x >> 3) }

  function SmallSigma1(x: Word): Word { Rotr(x, 17) ^ Rotr(x, 19) ^ (x >> 10) }

  // ------------------------------------------------- FIPS 180-4, section 4.2.2

  const K: seq<Word> :=
    [0x428a2f98, 0x71374491, 0xb5c0fbcf, 0xe9b5dba5, 0x3956c25b, 0x59f111f1, 0x923f82a4, 0xab1c5ed5]
    + [0xd807aa98, 0x12835b01, 0x243185be, 0x550c7dc3, 0x72be5d74, 0x80deb1fe, 0x9bdc06a7, 0xc19bf174]
    + [0xe49b69c1, 0xefbe4786, 0x0fc19dc6, 0x240ca1cc, 0x2de92c6f, 0x4a7484aa, 0x5cb0a9dc, 0x76f988da]
    + [0x983e5152, 0xa831c66d, 0xb00327c8, 0xbf597fc7, 0xc6e00bf3, 0xd5a79147, 0x06ca6351, 0x14292967]
    + [0x27b70a85, 0x2e1b2138, 0x4d2c6dfc, 0x53380d13, 0x650a7354, 0x766a0abb, 0x81c2c92e, 0x92722c85]
    + [0xa2bfe8a1, 0xa81a664b, 0xc24b8b70, 0xc76c51a3, 0xd192e819, 0xd6990624, 0xf40e3585, 0x106aa070]
    + [0x19a4c116, 0x1e376c08, 0x2748774c, 0x34b0bcb5, 0x391c0cb3, 0x4ed8aa4a, 0x5b9cca4f, 0x682e6ff3]
    + [0x748f82ee, 0x78a5636f, 0x84c87814, 0x8cc70208, 0x90befffa, 0xa4506ceb, 0xbef9a3f7, 0xc67178f2]

  // ------------------------------------------------------------- section 5.1.1

  function Zeros(n: nat): (z: seq<Octet>)
    ensures |z| == n && forall i :: 0 <= i < n ==> z[i] == 0
  {
    seq(n, _ => 0)
  }

  /** `n` written with `k` octets, most significant first. */
  function BigEndian(n: nat, k: nat): (b: seq<Octet>)
    ensures |b| == k
  {
    if k == 0 then [] else BigEndian(n / 0x100, k - 1) + [(n % 0x100) as Octet]
  }

  /** The number of zero octets between the 0x80 octet and the length. */
  function PadZeros(length: nat): (k: nat)
    ensures k < 64 && (length + 1 + k + 8) % 64 == 0
  {
    (55 - length) % 64
  }

  /** The padded message up to its length field. */
  function PadHead(message: seq<Octet>): seq<Octet> {
    message + [0x80] + Zeros(PadZeros(|message|))
  }

  function Pad(message: seq<Octet>): (padded: seq<Octet>)
    ensures |padded| % 64 == 0
  {
    PadHead(message) + BigEndian(8 * |message|, 8)
  }

  // ------------------------------------------------- sections 5.3.3, 6.2.2

  datatype Hash = Hash(a: Word, b: Word, c: Word, d: Word, e: Word, f: Word, g: Word, h: Word)

  const INITIAL := Hash(0x6a09e667, 0xbb67ae85, 0x3c6ef372, 0xa54ff53a, 0x510e527f, 0x9b05688c, 0x1f83d9ab, 0x5be0cd19)

  function ToWord(b0: Octet, b1: Octet, b2: Octet, b3: Octet): Word {
    (b0 as Word << 24) | (b1 as Word << 16) | (b2 as Word << 8) | b3 as Word
  }

  /** The message schedule W_t of a block. The sum is modulo 2^32, so the
      order of its terms is the implementation's. */
  function Schedule(block: seq<Octet>, t: nat): Word
    requires |block| == 64 && t < 64
  {
    if t < 16 then ToWord(block[4 * t], block[4 * t + 1], block[4 * t + 2], block[4 * t + 3])
    else
      Add(Add(Add(Schedule(block, t - 16), SmallSigma0(Schedule(block, t - 15))), Schedule(block, t - 7)),
          SmallSigma1(Schedule(block, t - 2)))
  }

  function Round(s: Hash, k: Word, w: Word): Hash {
    var t1 := Add(Add(Add(Add(s.h, BigSigma1(s.e)), Ch(s.e, s.f, s.g)), k), w);
    var t2 := Add(BigSigma0(s.a), Maj(s.a, s.b, s.c));
    Hash(Add(t1, t2), s.a, s.b, s.c, Add(s.d, t1), s.e, s.f, s.g)
  }

  function Rounds(s: Hash, block: seq<Octet>, t: nat): Hash
    requires |block| == 64 && t <= 64
  {
    if t == 0 then s else Round(Rounds(s, block, t - 1), K[t - 1], Schedule(block, t - 1))
  }

  function Plus(s: Hash, t: Hash): Hash {
    Hash(Add(s.a, t.a), Add(s.b, t.b), Add(s.c, t.c), Add(s.d, t.d),
         Add(s.e, t.e), Add(s.f, t.f), Add(s.g, t.g), Add(s.h, t.h))
  }

  function Compress(s: Hash, block: seq<Octet>): Hash
    requires |block| == 64
  {
    Plus(s, Rounds(s, block, 64))
  }

  /** Fold the compression function over the blocks of a padded message. */
  function Fold(blocks: seq<Octet>): Hash
    requires |blocks| % 64 == 0
  {
    if blocks == [] then INITIAL
    else Compress(Fold(blocks[..|blocks| - 64]), blocks[|blocks| - 64..])
  }

  function WordOf(s: Hash, j: nat): Word
    requires j < 8
  {
    match j
    case 0 => s.a
    case 1 => s.b
    case 2 => s.c
    case 3 => s.d
    case 4 => s.e
    case 5 => s.f
    case 6 => s.g
    case _ => s.h
  }

  /** Octet `i` of a word, most significant first. */
  function OctetOf(w: Word, i: nat): Octet
    requires i < 4
  {
    match i
    case 0 => ((w >> 24) & 0xFF) as Octet
    case 1 => ((w >> 16) & 0xFF) as Octet
    case 2 => ((w >> 8) & 0xFF) as Octet
    case _ => (w & 0xFF) as Octet
  }

  function Digest(s: Hash): (digest: seq<Octet>)
    ensures |digest| == 32
  {
    seq(32, n requires 0 <= n < 32 => OctetOf(WordOf(s, n / 4), n % 4))
  }

  /** The hash of a message, as FIPS 180-4 defines it. */
  function Sha256(message: seq<Octet>): seq<Octet>
    requires |message| < 0x2000_0000_0000_0000
  {
    Digest(Fold(Pad(message)))
  }

  // ---------------------------------------------------------- implementation

  function HashIn(words: seq<Word>): Hash
    requires |words| == 8
  {
    Hash(words[0], words[1], words[2], words[3], words[4], words[5], words[6], words[7])
  }

  /** The message schedule, computed in place into `m`. */
  method FillSchedule(data: array<Octet>, m: array<Word>)
    requires data.Length == 64 && m.Length == 64
    modifies m
    ensures forall t :: 0 <= t < 64 ==> m[t] == Schedule(data[..], t)
  {
    var i := 0;
    while i < 16
      invariant 0 <= i <= 16
      invariant forall t :: 0 <= t < i ==> m[t] == Schedule(data[..], t)
    {
      var j := 4 * i;
      m[i] := ToWord(data[j], data[j + 1], data[j + 2], data[j + 3]);
      i := i + 1;
    }
    while i < 64
      invariant 16 <= i <= 64
      invariant forall t :: 0 <= t < i ==> m[t] == Schedule(data[..], t)
    {
      var s0 := SmallSigma0(m[i - 15]);
      var s1 := SmallSigma1(m[i - 2]);
      m[i] := Add(Add(Add(m[i - 16], s0), m[i - 7]), s1);
      i := i + 1;
    }
  }

  /** The body of the round loop. */
  method OneRound(a: Word, b: Word, c: Word, d: Word, e: Word, f: Word, g: Word, h: Word, k: Word, w: Word)
    returns (a': Word, b': Word, c': Word, d': Word, e': Word, f': Word, g': Word, h': Word)
    ensures Hash(a', b', c', d', e', f', g', h') == Round(Hash(a, b, c, d, e, f, g, h), k, w)
  {
    var S1 := BigSigma1(e);
    var ch := Ch(e, f, g);
    var t1 := Add(Add(Add(Add(h, S1), ch), k), w);
    var S0 := BigSigma0(a);
    var maj := Maj(a, b, c);
    var t2 := Add(S0, maj);
    h', g', f', e', d', c', b', a' := g, f, e, Add(d, t1), c, b, a, Add(t1, t2);
  }

  method AllRounds(start: Hash, m: array<Word>, ghost block: seq<Octet>) returns (s: Hash)
    requires |block| == 64 && m.Length == 64
    requires forall t :: 0 <= t < 64 ==> m[t] == Schedule(block, t)
    ensures s == Rounds(start, block, 64)
  {
    var a, b, c, d := start.a, start.b, start.c, start.d;
    var e, f, g, h := start.e, start.f, start.g, start.h;
    var i := 0;
    while i < 64
      invariant 0 <= i <= 64
      invariant Hash(a, b, c, d, e, f, g, h) == Rounds(start, block, i)
    {
      a, b, c, d, e, f, g, h := OneRound(a, b, c, d, e, f, g, h, K[i], m[i]);
      i := i + 1;
    }
    s := Hash(a, b, c, d, e, f, g, h);
  }

  method AddInto(state: array<Word>, s: Hash)
    requires state.Length == 8
    modifies state
    ensures HashIn(state[..]) == Plus(old(HashIn(state[..])), s)
  {
    state[0], state[1] := Add(state[0], s.a), Add(state[1], s.b);
    state[2], state[3] := Add(state[2], s.c), Add(state[3], s.d);
    state[4], state[5] := Add(state[4], s.e), Add(state[5], s.f);
    state[6], state[7] := Add(state[6], s.g), Add(state[7], s.h);
  }

  /** `sha256Transform`: one application of the compression function. */
  method Transform(state: array<Word>, data: array<Octet>)
    requires state.Length == 8 && data.Length == 64
    modifies state
    ensures HashIn(state[..]) == Compress(old(HashIn(state[..])), data[..])
  {
    hide Schedule, Rounds, Plus;
    var m := new Word[64];
    FillSchedule(data, m);
    var s := AllRounds(HashIn(state[..]), m, data[..]);
    AddInto(state, s);
  }

  lemma FoldNext(blocks: seq<Octet>, block: seq<Octet>)
    requires |blocks| % 64 == 0 && |block| == 64
    ensures Fold(blocks + block) == Compress(Fold(blocks), block)
  {
    var all := blocks + block;
    assert all[..|all| - 64] == blocks && all[|all| - 64..] == block;
  }

  method ZeroFill(a: array<Octet>, lo: nat, hi: nat)
    requires lo <= hi <= a.Length
    modifies a
    ensures a[..hi] == old(a[..lo]) + Zeros(hi - lo)
    ensures a[hi..] == old(a[hi..])
  {
    var i := lo;
    while i < hi
      invariant lo <= i <= hi
      invariant a[..lo] == old(a[..lo]) && a[hi..] == old(a[hi..])
      invariant forall k :: lo <= k < i ==> a[k] == 0
    {
      a[i] := 0;
      i := i + 1;
    }
  }

  /** Write `n` into the last eight octets, the last one first. */
  method WriteLength(a: array<Octet>, n: nat)
    requires a.Length == 64
    modifies a
    ensures a[..] == old(a[..56]) + BigEndian(n, 8)
  {
    var rest := n;
    var j := 0;
    while j < 8
      invariant 0 <= j <= 8
      invariant a[..56] == old(a[..56])
      invariant BigEndian(n, 8) == BigEndian(rest, 8 - j) + a[64 - j..]
    {
      ghost var written := a[64 - j..];
      a[63 - j] := (rest % 0x100) as Octet;
      assert a[64 - j..] == written;
      assert a[63 - j..] == [(rest % 0x100) as Octet] + written;
      rest := rest / 0x100;
      j := j + 1;
    }
  }

  /** Write the words of the state, most significant octet first. */
  method WriteDigest(state: array<Word>, hash: array<Octet>)
    requires state.Length == 8 && hash.Length == 32
    modifies hash
    ensures hash[..] == Digest(HashIn(state[..]))
  {
    ghost var digest := Digest(HashIn(state[..]));
    var i := 0;
    while i < 4
      invariant 0 <= i <= 4
      invariant forall n :: 0 <= n < 32 && n % 4 < i ==> hash[n] == digest[n]
    {
      WriteColumn(state, hash, i, digest);
      i := i + 1;
    }
  }

  lemma DigestAt(words: seq<Word>, digest: seq<Octet>, i: nat, j: nat)
    requires |words| == 8 && i < 4 && j < 8 && digest == Digest(HashIn(words))
    ensures |digest| == 32 && digest[i + j * 4] == OctetOf(words[j], i)
  {
    hide OctetOf;
    assert (i + j * 4) / 4 == j && (i + j * 4) % 4 == i;
    assert WordOf(HashIn(words), j) == words[j];
  }

  /** The inner loop of the digest: octet `i` of every word. */
  method WriteColumn(state: array<Word>, hash: array<Octet>, i: nat, ghost digest: seq<Octet>)
    requires state.Length == 8 && hash.Length == 32 && i < 4
    requires digest == Digest(HashIn(state[..]))
    requires forall n :: 0 <= n < 32 && n % 4 < i ==> hash[n] == digest[n]
    modifies hash
    ensures forall n :: 0 <= n < 32 && n % 4 < i + 1 ==> hash[n] == digest[n]
  {
    hide Digest, OctetOf, HashIn;
    var j := 0;
    while j < 8
      invariant 0 <= j <= 8
      invariant forall n :: 0 <= n < 32 && n % 4 < i ==> hash[n] == digest[n]
      invariant forall n :: 0 <= n < 4 * j && n % 4 == i ==> hash[n] == digest[n]
    {
      hash[i + j * 4] := OctetOf(state[j], i);
      DigestAt(state[..], digest, i, j);
      j := j + 1;
    }
  }

  lemma PadZerosCases(whole: nat, rest: nat)
    requires whole % 64 == 0 && rest < 64
    ensures PadZeros(whole + rest) == if rest < 56 then 55 - rest else (63 - rest) + 56
  {
  }

  lemma ZerosAdd(m: nat, n: nat)
    ensures Zeros(m) + Zeros(n) == Zeros(m + n)
  {
  }

  lemma TotalBitLength(whole: nat, rest: nat)
    requires whole + rest < 0x2000_0000_0000_0000
    ensures (8 * whole % TWO64 + 8 * rest) % TWO64 == 8 * (whole + rest)
  {
  }

  lemma ConcatAssociative(x: seq<Octet>, y: seq<Octet>, z: seq<Octet>)
    ensures x + (y + z) == (x + y) + z
  {
  }

  const TWO64 := 0x1_0000_0000_0000_0000

  lemma NextBitLength(n: nat)
    ensures (8 * n % TWO64 + 512) % TWO64 == 8 * (n + 64) % TWO64
  {
  }

  /** The streaming context. `blocks` is the part of the message that the
      state has already absorbed. */
  class Sha256Ctx {
    const state: array<Word>
    var bitlen: nat
    const data: array<Octet>
    var datalen: nat
    ghost var blocks: seq<Octet>

    ghost predicate Valid()
      reads this, state, data
    {
      && state.Length == 8 && data.Length == 64
      && datalen < 64
      && |blocks| % 64 == 0
      && HashIn(state[..]) == Fold(blocks)
      && bitlen == 8 * |blocks| % TWO64
    }

    /** Everything fed to the context so far. */
    ghost function Message(): seq<Octet>
      requires datalen <= data.Length
      reads this, data
    {
      blocks + data[..datalen]
    }

    /** `sha256Init`. */
    constructor ()
      ensures Valid() && Message() == [] && fresh(state) && fresh(data)
    {
      state := new Word[8] [0x6a09e667, 0xbb67ae85, 0x3c6ef372, 0xa54ff53a,
                            0x510e527f, 0x9b05688c, 0x1f83d9ab, 0x5be0cd19];
      data := new Octet[64];
      datalen, bitlen, blocks := 0, 0, [];
    }

    /** A full buffer is one more block. */
    method Absorb()
      requires state.Length == 8 && data.Length == 64
      requires |blocks| % 64 == 0 && HashIn(state[..]) == Fold(blocks)
      modifies this`blocks, state
      ensures blocks == old(blocks) + data[..]
      ensures |blocks| % 64 == 0 && HashIn(state[..]) == Fold(blocks)
    {
      Transform(state, data);
      FoldNext(blocks, data[..]);
      blocks := blocks + data[..];
    }

    /** The body of the loop of `sha256Update`. */
    method Append(octet: Octet)
      requires Valid()
      modifies this`bitlen, this`datalen, this`blocks, state, data
      ensures Valid() && Message() == old(Message()) + [octet]
    {
      hide Fold, HashIn;
      data[datalen] := octet;
      datalen := datalen + 1;
      assert Message() == old(Message()) + [octet];
      if datalen == 64 {
        Absorb();
        NextBitLength(old(|blocks|));
        bitlen := (bitlen + 512) % TWO64;
        datalen := 0;
      }
    }

    /** `sha256Update`. */
    method Update(chunk: seq<Octet>)
      requires Valid()
      modifies this`bitlen, this`datalen, this`blocks, state, data
      ensures Valid() && Message() == old(Message()) + chunk
    {
      hide Fold, HashIn;
      for i := 0 to |chunk|
        invariant Valid() && Message() == old(Message()) + chunk[..i]
      {
        Append(chunk[i]);
      }
    }

    /** The 0x80 octet and the zeros of the padding, up to the length field. */
    method PadTail()
      requires Valid()
      modifies this`blocks, state, data
      ensures state.Length == 8 && data.Length == 64
      ensures |blocks| % 64 == 0 && HashIn(state[..]) == Fold(blocks)
      ensures blocks + data[..56] == PadHead(old(Message()))
    {
      hide Fold, HashIn, Zeros;
      PadZerosCases(|blocks|, datalen);
      if datalen < 56 {
        var i := datalen;
        data[i] := 0x80;
        i := i + 1;
        ZeroFill(data, i, 56);
      } else {
        FillBlock();
        ZeroFill(data, 0, 56);
        ZerosAdd(63 - datalen, 56);
      }
    }

    /** The case of a tail with no room for the length: it takes a block of its own. */
    method FillBlock()
      requires Valid()
      modifies this`blocks, state, data
      ensures state.Length == 8 && data.Length == 64
      ensures blocks == old(Message()) + [0x80] + Zeros(63 - datalen)
      ensures |blocks| % 64 == 0 && HashIn(state[..]) == Fold(blocks)
    {
      hide Fold, HashIn, Zeros;
      var i := datalen;
      data[i] := 0x80;
      i := i + 1;
      ZeroFill(data, i, 64);
      assert data[..] == data[..64];
      Absorb();
    }

    /** The last block: the tail and the length field. */
    method AbsorbLength()
      requires state.Length == 8 && data.Length == 64
      requires |blocks| % 64 == 0 && HashIn(state[..]) == Fold(blocks)
      modifies this`blocks, state, data
      ensures blocks == old(blocks + data[..56]) + BigEndian(bitlen, 8)
      ensures |blocks| % 64 == 0 && HashIn(state[..]) == Fold(blocks)
    {
      ConcatAssociative(blocks, data[..56], BigEndian(bitlen, 8));
      WriteLength(data, bitlen);
      Absorb();
    }

    /** Everything `sha256Final` does before it writes the digest. */
    method PadBlocks()
      requires Valid() && |Message()| < 0x2000_0000_0000_0000
      modifies this`blocks, this`bitlen, state, data
      ensures state.Length == 8 && blocks == Pad(old(Message()))
      ensures |blocks| % 64 == 0 && HashIn(state[..]) == Fold(blocks)
    {
      hide Fold, HashIn, PadHead, BigEndian;
      TotalBitLength(|blocks|, datalen);
      PadTail();
      bitlen := (bitlen + 8 * datalen) % TWO64;
      AbsorbLength();
    }

    /** `sha256Final`. */
    method Final(hash: array<Octet>)
      requires Valid() && hash.Length == 32 && hash != data
      requires |Message()| < 0x2000_0000_0000_0000
      modifies this`blocks, this`bitlen, state, data, hash
      ensures hash[..] == Sha256(old(Message()))
    {
      PadBlocks();
      WriteDigest(state, hash);
    }
  }

  function Flatten(chunks: seq<seq<Octet>>): seq<Octet> {
    if chunks == [] then [] else Flatten(chunks[..|chunks| - 1]) + chunks[|chunks| - 1]
  }

  /** The hash of a file that is read in chunks: however the reads split it,
      the result is the hash of the whole. */
  method HashChunks(chunks: seq<seq<Octet>>) returns (digest: seq<Octet>)
    requires |Flatten(chunks)| < 0x2000_0000_0000_0000
    ensures digest == Sha256(Flatten(chunks))
  {
    var ctx := new Sha256Ctx();
    for i := 0 to |chunks|
      invariant ctx.Valid() && ctx.Message() == Flatten(chunks[..i])
      invariant fresh(ctx) && fresh(ctx.state) && fresh(ctx.data)
    {
      assert chunks[..i + 1][..i] == chunks[..i];
      ctx.Update(chunks[i]);
    }
    assert chunks[..|chunks|] == chunks;
    var hash := new Octet[32];
    ctx.Final(hash);
    digest := hash[..];
  }
}

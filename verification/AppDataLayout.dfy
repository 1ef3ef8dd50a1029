/** The field offsets that src/feats/appdata_layout.hpp reads from the ModR/M
    displacements of two instructions (Intel SDM, volume 2, section 2.1.5). */
module AppDataLayout {
  import opened Common

  datatype Layout = Layout(skipOffset: UInt32, shaOffset: UInt32)

  const SHA_BYTES := 20
  const MAXIMUM_FIELD_END := 0x1000

  // ------------------------------------------------------------------ the decoder

  /** Four bytes, least significant first. */
  function Assemble(b0: int, b1: int, b2: int, b3: int): int {
    b0 + b1 * 0x100 + b2 * 0x1_0000 + b3 * 0x100_0000
  }

  /** `readDisplacement`. */
  function ReadDisplacement(instruction: seq<Byte>, offset: nat, width: nat): (r: Option<int>)
    ensures r.Some? ==> -0x8000_0000 <= r.value < 0x8000_0000
  {
    if offset > |instruction| || width > |instruction| - offset then None
    else if width == 1 then
      var raw: int := instruction[offset];
      Some(if raw < 0x80 then raw else raw - 0x100)
    else if width != 4 then None
    else
      var raw := Assemble(instruction[offset], instruction[offset + 1],
                          instruction[offset + 2], instruction[offset + 3]);
      Some(if raw >= 0x8000_0000 then raw - 0x1_0000_0000 else raw)
  }

  /** `directDisplacement`. */
  function DirectDisplacement(instruction: seq<Byte>, opcode: Byte, requiredReg: Option<nat>, zeroImmediate: bool):
    Option<int>
  {
    if |instruction| < 2 || instruction[0] != opcode then None
    else
      var modrm := instruction[1];
      var mod, reg, rm := modrm / 64, modrm / 8 % 8, modrm % 8;
      if (mod != 1 && mod != 2) || rm == 4 || (requiredReg.Some? && reg != requiredReg.value) then None
      else
        var width := if mod == 1 then 1 else 4;
        var displacement :- ReadDisplacement(instruction, 2, width);
        if zeroImmediate && (2 + width >= |instruction| || instruction[2 + width] != 0) then None
        else Some(displacement)
  }

  /** `inBounds`. */
  predicate InBounds(offset: int, width: nat) {
    && offset >= 0 && width <= MAXIMUM_FIELD_END
    && offset < MAXIMUM_FIELD_END && offset <= MAXIMUM_FIELD_END - width
  }

  /** `overlaps`. */
  predicate Overlaps(first: int, firstWidth: nat, second: int, secondWidth: nat) {
    || !InBounds(first, firstWidth) || !InBounds(second, secondWidth)
    || (first < second + secondWidth && second < first + firstWidth)
  }

  /** `derive`. */
  function Derive(skipInstruction: seq<Byte>, shaInstruction: seq<Byte>): Option<Layout> {
    var skip :- DirectDisplacement(skipInstruction, 0x80, Some(7), true);
    var sha :- DirectDisplacement(shaInstruction, 0x8D, None, false);
    if !InBounds(skip, 1) || !InBounds(sha, SHA_BYTES) || Overlaps(skip, 1, sha, SHA_BYTES) then None
    else
      var layout := Layout(skip, sha);
      Some(layout)
  }

  // --------------------------------------------------------- the instruction format

  /** A displacement as an assembler writes it. */
  datatype Displacement = Disp8(value: int) | Disp32(value: int) {
    predicate Valid() {
      if Disp8? then -0x80 <= value < 0x80 else -0x8000_0000 <= value < 0x8000_0000
    }

    /** The ModR/M mod field. */
    function Mod(): nat { if Disp8? then 1 else 2 }

    /** Two's complement, least significant byte first. */
    function Bytes(): (b: seq<Byte>)
      requires Valid()
      ensures |b| == if Disp8? then 1 else 4
    {
      if Disp8? then [value % 0x100]
      else
        var high := value / 0x100;
        var higher := high / 0x100;
        [value % 0x100, high % 0x100, higher % 0x100, higher / 0x100 % 0x100]
    }
  }

  /** A base register that needs no SIB byte. */
  predicate IsBase(rm: nat) { rm < 8 && rm != 4 }

  function ModRM(mod: nat, reg: nat, rm: nat): (b: Byte)
    requires mod < 4 && reg < 8 && rm < 8
    ensures b / 64 == mod && b / 8 % 8 == reg && b % 8 == rm
  {
    var high := mod * 8 + reg;
    var b := high * 8 + rm;
    assert b / 8 == high && b % 8 == rm;
    assert high / 8 == mod && high % 8 == reg;
    b
  }

  /** `cmp byte ptr [rm + displacement], 0`. */
  function EncodeCmp(rm: nat, displacement: Displacement): seq<Byte>
    requires IsBase(rm) && displacement.Valid()
  {
    [0x80, ModRM(displacement.Mod(), 7, rm)] + displacement.Bytes() + [0]
  }

  /** `lea reg, [rm + displacement]`. */
  function EncodeLea(reg: nat, rm: nat, displacement: Displacement): seq<Byte>
    requires reg < 8 && IsBase(rm) && displacement.Valid()
  {
    [0x8D, ModRM(displacement.Mod(), reg, rm)] + displacement.Bytes()
  }

  /** Two fields of 1 and 20 bytes, inside the structure and apart. */
  predicate Fits(skip: int, sha: int) {
    && 0 <= skip && skip + 1 <= MAXIMUM_FIELD_END
    && 0 <= sha && sha + SHA_BYTES <= MAXIMUM_FIELD_END
    && (skip + 1 <= sha || sha + SHA_BYTES <= skip)
  }

  /** The bounds in numbers. */
  lemma FitsExactly(skip: int, sha: int)
    ensures Fits(skip, sha) <==> 0 <= skip < 4096 && 0 <= sha <= 4076 && (skip < sha || sha + 20 <= skip)
  {
  }

  lemma BoundsAreFits(skip: int, sha: int)
    ensures (InBounds(skip, 1) && InBounds(sha, SHA_BYTES) && !Overlaps(skip, 1, sha, SHA_BYTES)) <==> Fits(skip, sha)
  {
  }

  /** The value of an integer in its four lowest digits to the base 256. */
  lemma FourBytes(value: int)
    requires -0x8000_0000 <= value < 0x8000_0000
    ensures var high := value / 0x100;
            var higher := high / 0x100;
            Assemble(value % 0x100, high % 0x100, higher % 0x100, higher / 0x100 % 0x100)
            == if value < 0 then value + 0x1_0000_0000 else value
  {
    var high := value / 0x100;
    var higher := high / 0x100;
    var highest := higher / 0x100;
    assert -0x80 <= highest < 0x80;
    assert highest % 0x100 == if value < 0 then highest + 0x100 else highest;
  }

  /** Reading the bytes of a displacement gives the displacement. */
  lemma DisplacementReadsBack(d: Displacement, instruction: seq<Byte>)
    requires d.Valid() && |instruction| >= 2 + |d.Bytes()| && instruction[2..2 + |d.Bytes()|] == d.Bytes()
    ensures ReadDisplacement(instruction, 2, |d.Bytes()|) == Some(d.value)
  {
    var b := d.Bytes();
    assert instruction[2] == instruction[2..2 + |b|][0];
    if d.Disp32? {
      var s := instruction[2..2 + |b|];
      assert instruction[3] == s[1] && instruction[4] == s[2] && instruction[5] == s[3];
      FourBytes(d.value);
    }
  }

  lemma Digit(low: Byte, high: int)
    ensures (low + 0x100 * high) % 0x100 == low && (low + 0x100 * high) / 0x100 == high
  {
  }

  lemma DigitsOfAssembled(b0: Byte, b1: Byte, b2: Byte, b3: Byte)
    ensures var raw := Assemble(b0, b1, b2, b3);
            var d := Disp32(if raw >= 0x8000_0000 then raw - 0x1_0000_0000 else raw);
            d.Valid() && d.Bytes() == [b0, b1, b2, b3]
  {
    var raw := Assemble(b0, b1, b2, b3);
    var value := if raw >= 0x8000_0000 then raw - 0x1_0000_0000 else raw;
    var top: int := if raw >= 0x8000_0000 then b3 - 0x100 else b3;
    assert value == b0 + 0x100 * (b1 + 0x100 * (b2 + 0x100 * top));
    Digit(b0, b1 + 0x100 * (b2 + 0x100 * top));
    Digit(b1, b2 + 0x100 * top);
    Digit(b2, top);
    assert top % 0x100 == b3;
  }

  /** A displacement that is read is the one whose bytes stand there. */
  lemma ReadIsDisplacement(instruction: seq<Byte>, mod: nat) returns (d: Displacement)
    requires mod == 1 || mod == 2
    requires ReadDisplacement(instruction, 2, if mod == 1 then 1 else 4).Some?
    ensures d.Valid() && d.Mod() == mod && |instruction| >= 2 + |d.Bytes()|
    ensures d.value == ReadDisplacement(instruction, 2, if mod == 1 then 1 else 4).value
    ensures instruction[2..2 + |d.Bytes()|] == d.Bytes()
  {
    var value := ReadDisplacement(instruction, 2, if mod == 1 then 1 else 4).value;
    d := if mod == 1 then Disp8(value) else Disp32(value);
    if mod == 1 {
      assert d.Bytes() == [instruction[2]];
    } else {
      var b0, b1, b2, b3 := instruction[2], instruction[3], instruction[4], instruction[5];
      DigitsOfAssembled(b0, b1, b2, b3);
      assert instruction[2..6] == [b0, b1, b2, b3];
    }
  }

  // -------------------------------------------------------------- what is accepted

  /** The instruction starts with a `cmp` of a zero byte against the field at `offset`. */
  ghost predicate IsCmp(instruction: seq<Byte>, offset: int) {
    exists rm: nat, d: Displacement :: IsBase(rm) && d.Valid() && d.value == offset && EncodeCmp(rm, d) <= instruction
  }

  /** The instruction starts with a `lea` of the field at `offset`. */
  ghost predicate IsLea(instruction: seq<Byte>, offset: int) {
    exists reg: nat, rm: nat, d: Displacement ::
      reg < 8 && IsBase(rm) && d.Valid() && d.value == offset && EncodeLea(reg, rm, d) <= instruction
  }

  lemma CmpDecodes(rm: nat, d: Displacement, instruction: seq<Byte>)
    requires IsBase(rm) && d.Valid() && EncodeCmp(rm, d) <= instruction
    ensures DirectDisplacement(instruction, 0x80, Some(7), true) == Some(d.value)
  {
    var code, n := EncodeCmp(rm, d), |d.Bytes()|;
    assert code[2..2 + n] == d.Bytes() && code[2 + n] == 0;
    assert instruction[2..2 + n] == code[2..2 + n];
    assert instruction[0] == code[0] && instruction[1] == code[1] && instruction[2 + n] == code[2 + n];
    DisplacementReadsBack(d, instruction);
  }

  lemma LeaDecodes(reg: nat, rm: nat, d: Displacement, instruction: seq<Byte>)
    requires reg < 8 && IsBase(rm) && d.Valid() && EncodeLea(reg, rm, d) <= instruction
    ensures DirectDisplacement(instruction, 0x8D, None, false) == Some(d.value)
  {
    var code, n := EncodeLea(reg, rm, d), |d.Bytes()|;
    assert code[2..2 + n] == d.Bytes();
    assert instruction[2..2 + n] == code[2..2 + n];
    assert instruction[0] == code[0] && instruction[1] == code[1];
    DisplacementReadsBack(d, instruction);
  }

  lemma ModRMOfParts(modrm: Byte)
    ensures ModRM(modrm / 64, modrm / 8 % 8, modrm % 8) == modrm
  {
  }

  lemma OpcodeThenBytes(instruction: seq<Byte>, n: nat)
    requires 2 + n <= |instruction|
    ensures [instruction[0], instruction[1]] + instruction[2..2 + n] <= instruction
    ensures 2 + n < |instruction| ==>
      [instruction[0], instruction[1]] + instruction[2..2 + n] + [instruction[2 + n]] <= instruction
  {
  }

  lemma DecodedIsCmp(instruction: seq<Byte>)
    requires DirectDisplacement(instruction, 0x80, Some(7), true).Some?
    ensures IsCmp(instruction, DirectDisplacement(instruction, 0x80, Some(7), true).value)
  {
    var modrm := instruction[1];
    var mod, rm := modrm / 64, modrm % 8;
    var d := ReadIsDisplacement(instruction, mod);
    hide ReadDisplacement, ModRM;
    ModRMOfParts(modrm);
    OpcodeThenBytes(instruction, |d.Bytes()|);
    assert EncodeCmp(rm, d) <= instruction;
  }

  lemma DecodedIsLea(instruction: seq<Byte>)
    requires DirectDisplacement(instruction, 0x8D, None, false).Some?
    ensures IsLea(instruction, DirectDisplacement(instruction, 0x8D, None, false).value)
  {
    var modrm := instruction[1];
    var mod, reg, rm := modrm / 64, modrm / 8 % 8, modrm % 8;
    var d := ReadIsDisplacement(instruction, mod);
    hide ReadDisplacement, ModRM;
    ModRMOfParts(modrm);
    OpcodeThenBytes(instruction, |d.Bytes()|);
    assert EncodeLea(reg, rm, d) <= instruction;
  }

  /** `cmp byte [ebx+0x12a], 0`, `lea eax, [ebx-0x10]` and `lea ecx, [esi+0x130]` as an
      assembler writes them. */
  lemma DecodeAnswers()
    ensures DirectDisplacement([0x80, 0xBB, 0x2A, 0x01, 0x00, 0x00, 0x00], 0x80, Some(7), true) == Some(0x12A)
    ensures DirectDisplacement([0x8D, 0x43, 0xF0], 0x8D, None, false) == Some(-0x10)
    ensures DirectDisplacement([0x8D, 0x8E, 0x30, 0x01, 0x00, 0x00], 0x8D, None, false) == Some(0x130)
    ensures Derive([0x80, 0xBB, 0x2A, 0x01, 0x00, 0x00, 0x00], [0x8D, 0x8E, 0x30, 0x01, 0x00, 0x00])
         == Some(Layout(0x12A, 0x130))
  {
  }

  /** A layout is derived exactly from a `cmp` and a `lea` that encode it, in
      bounds and disjoint. */
  lemma DeriveIsExact(skipInstruction: seq<Byte>, shaInstruction: seq<Byte>, layout: Layout)
    ensures (Derive(skipInstruction, shaInstruction) == Some(layout)
             <==> && IsCmp(skipInstruction, layout.skipOffset)
                  && IsLea(shaInstruction, layout.shaOffset)
                  && Fits(layout.skipOffset, layout.shaOffset))
  {
    BoundsAreFits(layout.skipOffset, layout.shaOffset);
    if Derive(skipInstruction, shaInstruction) == Some(layout) {
      DecodedIsCmp(skipInstruction);
      DecodedIsLea(shaInstruction);
    }
    if IsCmp(skipInstruction, layout.skipOffset) && IsLea(shaInstruction, layout.shaOffset) {
      var rm: nat, d: Displacement :|
        IsBase(rm) && d.Valid() && d.value == layout.skipOffset && EncodeCmp(rm, d) <= skipInstruction;
      var reg: nat, rm': nat, d': Displacement :| reg < 8 && IsBase(rm') && d'.Valid() && d'.value == layout.shaOffset
                          && EncodeLea(reg, rm', d') <= shaInstruction;
      CmpDecodes(rm, d, skipInstruction);
      LeaDecodes(reg, rm', d', shaInstruction);
    }
  }

  /** Whatever is derived is a pair of fields that fit; nothing is derived from
      instructions whose displacements do not. */
  lemma DerivedFits(skipInstruction: seq<Byte>, shaInstruction: seq<Byte>, skip: int, sha: int)
    requires IsCmp(skipInstruction, skip) && IsLea(shaInstruction, sha)
    ensures Derive(skipInstruction, shaInstruction).Some? <==> Fits(skip, sha)
  {
    var rm: nat, d: Displacement :| IsBase(rm) && d.Valid() && d.value == skip && EncodeCmp(rm, d) <= skipInstruction;
    var reg: nat, rm': nat, d': Displacement :|
      reg < 8 && IsBase(rm') && d'.Valid() && d'.value == sha && EncodeLea(reg, rm', d') <= shaInstruction;
    CmpDecodes(rm, d, skipInstruction);
    LeaDecodes(reg, rm', d', shaInstruction);
    BoundsAreFits(skip, sha);
  }
}

/** The bounded upward search for a function prologue (src/memhlp.cpp,
    src/memhlp.hpp). */
module Prologue {
  import opened Common
  import opened PatternScan

  const SCAN_SIZE: nat := 0x10000

  /** A backward window of `size` bytes that ends `offset` below `address` and
      does not cross `lowerBound`. */
  predicate WindowWithin(address: Address, lowerBound: Address, offset: nat, size: nat) {
    && size != 0
    && lowerBound <= address
    && offset <= address - lowerBound
    && size - 1 <= address - lowerBound - offset
  }

  function LowerBound(moduleBase: Address, segmentBase: Address): (bound: Address)
    ensures moduleBase <= bound
  {
    if segmentBase == ADDRESS_BAD || segmentBase < moduleBase then moduleBase else segmentBase
  }

  predicate PrologueByteMatches(expected: PatternByte, actual: Byte) {
    expected == -1 || expected == actual
  }

  // ---------------------------------------------------------------- reference

  /** The bytes read downwards from `top` equal `prologue`, wildcards aside. */
  predicate PrologueAt(mem: Memory, prologue: Pattern, top: int) {
    forall j :: 0 <= j < |prologue| ==> ByteAt(mem, prologue[j], top - j)
  }

  predicate ByteAt(mem: Memory, expected: PatternByte, a: int) {
    a in mem && PrologueByteMatches(expected, mem[a])
  }

  /** Step `i` of the search is a usable answer. */
  predicate Candidate(mem: Memory, prologue: Pattern, address: Address, lowerBound: Address, i: nat) {
    && WindowWithin(address, lowerBound, i, |prologue|)
    && PrologueAt(mem, prologue, address - i)
  }

  /** The unhurried search: every step below the limit is tried, none ends it. */
  function SearchFrom(mem: Memory, prologue: Pattern, address: Address, lowerBound: Address, i: nat): Address
    decreases SCAN_SIZE - i
  {
    if SCAN_SIZE <= i then ADDRESS_BAD
    else if Candidate(mem, prologue, address, lowerBound, i) then address - i - |prologue| + 1
    else SearchFrom(mem, prologue, address, lowerBound, i + 1)
  }

  function Nearest(mem: Memory, prologue: Pattern, address: Address, lowerBound: Address): Address {
    SearchFrom(mem, prologue, address, lowerBound, 0)
  }

  lemma {:induction false} SearchFromExact(mem: Memory, prologue: Pattern, address: Address,
                                           lowerBound: Address, i: nat)
    requires i <= SCAN_SIZE
    ensures var r := SearchFrom(mem, prologue, address, lowerBound, i);
      || (r == ADDRESS_BAD && forall k: nat :: i <= k < SCAN_SIZE ==> !Candidate(mem, prologue, address, lowerBound, k))
      || (exists k: nat :: i <= k < SCAN_SIZE && Candidate(mem, prologue, address, lowerBound, k)
            && r == address - k - |prologue| + 1
            && forall j: nat :: i <= j < k ==> !Candidate(mem, prologue, address, lowerBound, j))
    decreases SCAN_SIZE - i
  {
    if i < SCAN_SIZE && !Candidate(mem, prologue, address, lowerBound, i) {
      SearchFromExact(mem, prologue, address, lowerBound, i + 1);
    }
  }

  /** Step `k` is an answer exactly when the prologue, read downwards from `k` below
      the address, stands there byte for byte, -1 matching anything, and its lowest
      byte is not below the bound. */
  lemma CandidateExactly(mem: Memory, prologue: Pattern, address: Address, lowerBound: Address, k: nat)
    ensures Candidate(mem, prologue, address, lowerBound, k)
       <==> && prologue != [] && lowerBound <= address - k - |prologue| + 1
            && forall j :: 0 <= j < |prologue| ==> StandsAt(mem, prologue[j], address - k - j)
  {
    forall j | 0 <= j < |prologue|
      ensures ByteAt(mem, prologue[j], (address - k) - j) <==> StandsAt(mem, prologue[j], address - k - j)
    {
    }
  }

  /** The byte at `a` is `p`, or `p` is the wildcard. */
  predicate StandsAt(mem: Memory, p: int, a: int) {
    a in mem && (p == -1 || mem[a] == p)
  }

  /** The answer is bad exactly when no step below the limit matches; otherwise
      it is the start of the nearest matching window, at or above the bound. */
  lemma NearestExact(mem: Memory, prologue: Pattern, address: Address, lowerBound: Address)
    requires address < ADDRESS_BAD
    ensures var r := Nearest(mem, prologue, address, lowerBound);
      && (r == ADDRESS_BAD <==> forall k: nat :: k < 65536 ==> !Candidate(mem, prologue, address, lowerBound, k))
      && (r != ADDRESS_BAD ==>
            (lowerBound <= r <= address
             && exists k: nat :: (k < 65536 && r == address - k - |prologue| + 1
                  && Candidate(mem, prologue, address, lowerBound, k)
                  && forall j: nat :: j < k ==> !Candidate(mem, prologue, address, lowerBound, j))))
  {
    SearchFromExact(mem, prologue, address, lowerBound, 0);
  }

  /** Once a window crosses the bound, so does every later one. */
  lemma {:induction false} NoneAfterBound(mem: Memory, prologue: Pattern, address: Address, lowerBound: Address, i: nat)
    requires !WindowWithin(address, lowerBound, i, |prologue|)
    ensures SearchFrom(mem, prologue, address, lowerBound, i) == ADDRESS_BAD
    decreases SCAN_SIZE - i
  {
    if i < SCAN_SIZE {
      NoneAfterBound(mem, prologue, address, lowerBound, i + 1);
    }
  }

  lemma SearchStep(mem: Memory, prologue: Pattern, address: Address, lowerBound: Address, i: nat)
    ensures var r := SearchFrom(mem, prologue, address, lowerBound, i);
      if SCAN_SIZE <= i then r == ADDRESS_BAD
      else if Candidate(mem, prologue, address, lowerBound, i) then r == address - i - |prologue| + 1
      else r == SearchFrom(mem, prologue, address, lowerBound, i + 1)
  {
  }

  // ---------------------------------------------------------- implementation

  /** The search as written: it stops at the first window that crosses the
      bound, reads only [lowerBound, address], and misses nothing by stopping. */
  method FindPrologue(mem: Memory, address: Address, lowerBound: Address, prologue: Pattern)
    returns (start: Address)
    requires Readable(mem, lowerBound, address + 1)
    ensures start == Nearest(mem, prologue, address, lowerBound)
  {
    hide SearchFrom, PrologueByteMatches;
    var i := 0;
    while i < SCAN_SIZE
      invariant 0 <= i <= SCAN_SIZE
      invariant Nearest(mem, prologue, address, lowerBound) == SearchFrom(mem, prologue, address, lowerBound, i)
    {
      if !WindowWithin(address, lowerBound, i, |prologue|) {
        NoneAfterBound(mem, prologue, address, lowerBound, i);
        break;
      }
      SearchStep(mem, prologue, address, lowerBound, i);
      var found := true;
      var j := 0;
      while j < |prologue|
        invariant 0 <= j <= |prologue|
        invariant found
        invariant forall k :: 0 <= k < j ==> PrologueByteMatches(prologue[k], mem[address - i - k])
      {
        if !PrologueByteMatches(prologue[j], mem[address - i - j]) {
          found := false;
          break;
        }
        j := j + 1;
      }
      if found {
        return address - i - |prologue| + 1;
      }
      i := i + 1;
    }
    SearchStep(mem, prologue, address, lowerBound, i);
    return ADDRESS_BAD;
  }
}

/** The wildcard byte scanner of src/pattern_scan.hpp: a memchr-accelerated scan
    of one range, and the verdict accumulated over several ranges. */
module PatternScan {
  import opened Common

  /** A signature element as the scanner stores it: negative is a wildcard, any
      other value is compared after truncation to a byte. */
  type PatternByte = p: int | -0x8000 <= p < 0x8000

  type Pattern = seq<PatternByte>

  datatype RangeResult = RangeResult(address: Address, matches: nat)

  datatype Total = Total(address: Address, matches: nat) {
    predicate Resolved() {
      matches == 1 && address != ADDRESS_BAD
    }
  }

  const EMPTY_TOTAL := Total(ADDRESS_BAD, 0)

  predicate ByteMatches(p: PatternByte, b: Byte) {
    p < 0 || b == p % 0x100
  }

  // ---------------------------------------------------------------- reference

  /** The naive meaning of a match at one address. */
  predicate MatchesAt(mem: Memory, pattern: Pattern, a: nat) {
    forall i :: 0 <= i < |pattern| ==> a + i in mem && ByteMatches(pattern[i], mem[a + i])
  }

  /** Every matching address in [from, to), in ascending order. */
  function Hits(mem: Memory, pattern: Pattern, lo: Address, hi: Address): seq<Address>
    decreases hi
  {
    if hi <= lo then []
    else
      var hits := Hits(mem, pattern, lo, hi - 1);
      if MatchesAt(mem, pattern, hi - 1) then hits + [hi - 1] else hits
  }

  /** The matches that lie wholly inside [begin, end). */
  function RangeHits(mem: Memory, pattern: Pattern, begin: Address, end: Address): seq<Address>
  {
    if |pattern| == 0 || end < begin || end - begin < |pattern| then []
    else Hits(mem, pattern, begin, end - |pattern| + 1)
  }

  /** What a capped address list holds after `hits` were offered to it. */
  function Record(list: seq<Address>, hits: seq<Address>, cap: nat): (r: seq<Address>)
    ensures |list| + |hits| <= cap ==> r == list + hits
  {
    if hits == [] || |list| >= cap then list
    else if |hits| <= cap - |list| then list + hits
    else list + hits[..cap - |list|]
  }

  function RecordIn(list: Option<seq<Address>>, hits: seq<Address>, cap: nat): Option<seq<Address>> {
    match list
    case None => None
    case Some(l) => Some(Record(l, hits, cap))
  }

  /** The scan result a list of reported matches stands for. */
  function ResultOf(hits: seq<Address>, countDuplicates: bool): RangeResult {
    if hits == [] then RangeResult(ADDRESS_BAD, 0)
    else RangeResult(if countDuplicates then hits[|hits| - 1] else hits[0], |hits|)
  }

  /** Without duplicate counting the scan stops at the first match. */
  function Reported(hits: seq<Address>, countDuplicates: bool): seq<Address> {
    if countDuplicates || hits == [] then hits else hits[..1]
  }

  // ------------------------------------------------- laws of the reference

  lemma {:induction false} HitsAreMatches(mem: Memory, pattern: Pattern, lo: Address, hi: Address)
    ensures forall a: nat :: a in Hits(mem, pattern, lo, hi) <==> lo <= a < hi && MatchesAt(mem, pattern, a)
    decreases hi
  {
    var hits := Hits(mem, pattern, lo, hi);
    if hi <= lo {
      assert hits == [];
    } else {
      HitsAreMatches(mem, pattern, lo, hi - 1);
      var init := Hits(mem, pattern, lo, hi - 1);
      assert forall a: nat :: a in hits <==> a in init || (a == hi - 1 && MatchesAt(mem, pattern, hi - 1));
    }
  }

  ghost predicate Ascending(addresses: seq<Address>) {
    forall i, j :: 0 <= i < j < |addresses| ==> addresses[i] < addresses[j]
  }

  lemma {:induction false} HitsAscend(mem: Memory, pattern: Pattern, lo: Address, hi: Address)
    ensures Ascending(Hits(mem, pattern, lo, hi))
    decreases hi
  {
    if hi <= lo {
      assert Hits(mem, pattern, lo, hi) == [];
    } else {
      var init := Hits(mem, pattern, lo, hi - 1);
      HitsAscend(mem, pattern, lo, hi - 1);
      HitsAreMatches(mem, pattern, lo, hi - 1);
      assert forall i :: 0 <= i < |init| ==> init[i] in init;
    }
  }

  /** `Hits` lists exactly the matching addresses, each once and in order. */
  lemma HitsExact(mem: Memory, pattern: Pattern, lo: Address, hi: Address)
    ensures var hits := Hits(mem, pattern, lo, hi);
      && (forall a: nat :: a in hits <==> lo <= a < hi && MatchesAt(mem, pattern, a))
      && Ascending(hits)
  {
    HitsAreMatches(mem, pattern, lo, hi);
    HitsAscend(mem, pattern, lo, hi);
  }

  lemma RangeHitsExact(mem: Memory, pattern: Pattern, begin: Address, end: Address)
    requires pattern != []
    ensures var hits := RangeHits(mem, pattern, begin, end);
      && (forall a: Address :: a in hits <==> begin <= a && a + |pattern| <= end && MatchesAt(mem, pattern, a))
      && Ascending(hits)
  {
    if begin <= end && |pattern| <= end - begin {
      HitsExact(mem, pattern, begin, end - |pattern| + 1);
    }
  }

  lemma {:induction false} NoHits(mem: Memory, pattern: Pattern, lo: Address, mid: Address, hi: Address)
    requires lo <= mid <= hi
    requires forall a: nat :: mid <= a < hi ==> !MatchesAt(mem, pattern, a)
    ensures Hits(mem, pattern, lo, hi) == Hits(mem, pattern, lo, mid)
    decreases hi
  {
    if mid < hi {
      NoHits(mem, pattern, lo, mid, hi - 1);
    }
  }

  lemma RecordStep(list: seq<Address>, hits: seq<Address>, hit: Address, cap: nat)
    ensures Record(list, hits + [hit], cap)
         == var l := Record(list, hits, cap); if |l| < cap then l + [hit] else l
  {
    if |list| < cap {
      if |hits| < cap - |list| {
        assert list + (hits + [hit]) == list + hits + [hit];
      } else {
        assert (hits + [hit])[..cap - |list|] == hits[..cap - |list|];
      }
    }
  }

  /** Offering two batches in turn is offering their concatenation. */
  lemma {:induction false} RecordConcat(list: seq<Address>, a: seq<Address>, b: seq<Address>, cap: nat)
    ensures Record(Record(list, a, cap), b, cap) == Record(list, a + b, cap)
  {
    if b == [] {
      assert a + b == a;
    } else {
      var init, last := b[..|b| - 1], b[|b| - 1];
      assert b == init + [last];
      assert a + b == (a + init) + [last];
      RecordConcat(list, a, init, cap);
      RecordStep(list, a + init, last, cap);
      RecordStep(Record(list, a, cap), init, last, cap);
    }
  }

  // ---------------------------------------------------------- implementation

  /** No byte of [lo, hi) equals `needle`. */
  ghost predicate Absent(mem: Memory, lo: Address, hi: Address, needle: Byte) {
    forall a: Address :: lo <= a < hi ==> a in mem && mem[a] != needle
  }

  /** `memchr`: the first address in [lo, hi) holding `needle`. */
  method MemChr(mem: Memory, lo: Address, hi: Address, needle: Byte) returns (found: Option<Address>)
    requires Readable(mem, lo, hi)
    ensures match found
      case None => Absent(mem, lo, hi, needle)
      case Some(p) => lo <= p < hi && p in mem && mem[p] == needle && Absent(mem, lo, p, needle)
  {
    var p := lo;
    while p < hi
      invariant lo <= p
      invariant Absent(mem, lo, p, needle)
    {
      if mem[p] == needle {
        return Some(p);
      }
      p := p + 1;
    }
    return None;
  }

  method CandidateMatches(mem: Memory, pattern: Pattern, candidate: Address) returns (matched: bool)
    requires Readable(mem, candidate, candidate + |pattern|)
    ensures matched <==> MatchesAt(mem, pattern, candidate)
    ensures matched <==> forall k :: 0 <= k < |pattern| && pattern[k] >= 0 ==> mem[candidate + k] == pattern[k] % 0x100
  {
    var i := 0;
    while i < |pattern|
      invariant 0 <= i <= |pattern|
      invariant forall k :: 0 <= k < i ==> ByteMatches(pattern[k], mem[candidate + k])
    {
      if pattern[i] >= 0 && mem[candidate + i] != pattern[i] % 0x100 {
        return false;
      }
      i := i + 1;
    }
    return true;
  }

  /** One recorded match, as the `record` lambda of the scanner performs it. */
  method RecordMatch(result: RangeResult, collected: Option<seq<Address>>, candidate: Address,
                     countDuplicates: bool, cap: nat,
                     ghost hits: seq<Address>, ghost list: Option<seq<Address>>)
    returns (result': RangeResult, collected': Option<seq<Address>>)
    requires result == ResultOf(hits, countDuplicates)
    requires collected == RecordIn(list, hits, cap)
    ensures result' == ResultOf(hits + [candidate], countDuplicates)
    ensures collected' == RecordIn(list, hits + [candidate], cap)
  {
    var matches := result.matches + 1;
    var address := if matches == 1 || countDuplicates then candidate else result.address;
    result' := RangeResult(address, matches);
    collected' := collected;
    match collected {
      case None =>
      case Some(l) =>
        RecordStep(list.value, hits, candidate, cap);
        if |l| < cap {
          collected' := Some(l + [candidate]);
        }
    }
  }

  /** The scan has examined every candidate below `next` and not yet stopped. */
  ghost predicate Scanned(mem: Memory, pattern: Pattern, begin: Address, next: Address,
                          countDuplicates: bool, addresses: Option<seq<Address>>, cap: nat,
                          result: RangeResult, collected: Option<seq<Address>>)
  {
    var hits := Hits(mem, pattern, begin, next);
    && (countDuplicates || hits == [])
    && result == ResultOf(hits, countDuplicates)
    && collected == RecordIn(addresses, hits, cap)
  }

  /** The scan stopped at its first match, as it does without duplicate counting. */
  ghost predicate Stopped(mem: Memory, pattern: Pattern, begin: Address, hit: Address,
                          countDuplicates: bool, addresses: Option<seq<Address>>, cap: nat,
                          result: RangeResult, collected: Option<seq<Address>>)
  {
    && !countDuplicates
    && begin <= hit
    && Hits(mem, pattern, begin, hit) == [] && Hits(mem, pattern, begin, hit + 1) == [hit]
    && result == ResultOf([hit], false) && collected == RecordIn(addresses, [hit], cap)
  }

  /** A finished scan says exactly what the naive scan of [begin, end) says. */
  ghost predicate Reports(mem: Memory, pattern: Pattern, begin: Address, end: Address,
                          countDuplicates: bool, addresses: Option<seq<Address>>, cap: nat,
                          result: RangeResult, collected: Option<seq<Address>>)
  {
    var reported := Reported(RangeHits(mem, pattern, begin, end), countDuplicates);
    && result == ResultOf(reported, countDuplicates)
    && collected == RecordIn(addresses, reported, cap)
  }

  lemma ScannedNone(mem: Memory, pattern: Pattern, begin: Address,
                    countDuplicates: bool, addresses: Option<seq<Address>>, cap: nat)
    ensures Scanned(mem, pattern, begin, begin, countDuplicates, addresses, cap,
                    RangeResult(ADDRESS_BAD, 0), addresses)
  {
  }

  lemma ScannedAll(mem: Memory, pattern: Pattern, begin: Address, end: Address,
                   countDuplicates: bool, addresses: Option<seq<Address>>, cap: nat,
                   result: RangeResult, collected: Option<seq<Address>>)
    requires 0 < |pattern| && begin <= end && |pattern| <= end - begin
    requires Scanned(mem, pattern, begin, end - |pattern| + 1, countDuplicates, addresses, cap, result, collected)
    ensures Reports(mem, pattern, begin, end, countDuplicates, addresses, cap, result, collected)
  {
  }

  lemma StoppedAt(mem: Memory, pattern: Pattern, begin: Address, end: Address, hit: Address,
                  countDuplicates: bool, addresses: Option<seq<Address>>, cap: nat,
                  result: RangeResult, collected: Option<seq<Address>>)
    requires begin <= hit && hit + |pattern| <= end && pattern != []
    requires Stopped(mem, pattern, begin, hit, countDuplicates, addresses, cap, result, collected)
    ensures Reports(mem, pattern, begin, end, countDuplicates, addresses, cap, result, collected)
  {
    FirstHit(mem, pattern, begin, hit, end - |pattern| + 1);
  }

  /** Compare one candidate and record it, or learn that it is no match. */
  method Examine(mem: Memory, pattern: Pattern, ghost begin: Address, candidate: Address,
                 countDuplicates: bool, ghost addresses: Option<seq<Address>>, cap: nat,
                 result: RangeResult, collected: Option<seq<Address>>)
    returns (result': RangeResult, collected': Option<seq<Address>>, stop: bool)
    requires begin <= candidate && pattern != []
    requires Readable(mem, candidate, candidate + |pattern|)
    requires Scanned(mem, pattern, begin, candidate, countDuplicates, addresses, cap, result, collected)
    ensures !stop ==> Scanned(mem, pattern, begin, candidate + 1, countDuplicates, addresses, cap, result', collected')
    ensures stop ==> Stopped(mem, pattern, begin, candidate, countDuplicates, addresses, cap, result', collected')
  {
    ghost var hits := Hits(mem, pattern, begin, candidate);
    result', collected', stop := result, collected, false;
    var matched := CandidateMatches(mem, pattern, candidate);
    if matched {
      result', collected' := RecordMatch(result, collected, candidate, countDuplicates, cap, hits, addresses);
      stop := !countDuplicates;
      assert hits == [] ==> hits + [candidate] == [candidate];
    }
  }

  /** A pattern without a literal is compared at every offset. */
  method ScanWildcards(mem: Memory, pattern: Pattern, begin: Address, end: Address,
                       countDuplicates: bool, addresses: Option<seq<Address>>, cap: nat)
    returns (result: RangeResult, collected: Option<seq<Address>>)
    requires 0 < |pattern| && begin <= end && |pattern| <= end - begin
    requires Readable(mem, begin, end)
    ensures Reports(mem, pattern, begin, end, countDuplicates, addresses, cap, result, collected)
  {
    hide Scanned, Stopped, Reports;
    ScannedNone(mem, pattern, begin, countDuplicates, addresses, cap);
    result, collected := RangeResult(ADDRESS_BAD, 0), addresses;
    var candidateCount := end - begin - |pattern| + 1;
    var offset := 0;
    while offset < candidateCount
      invariant 0 <= offset <= candidateCount
      invariant Scanned(mem, pattern, begin, begin + offset, countDuplicates, addresses, cap, result, collected)
    {
      var stop;
      result, collected, stop :=
        Examine(mem, pattern, begin, begin + offset, countDuplicates, addresses, cap, result, collected);
      if stop {
        StoppedAt(mem, pattern, begin, end, begin + offset, countDuplicates, addresses, cap, result, collected);
        return;
      }
      offset := offset + 1;
    }
    ScannedAll(mem, pattern, begin, end, countDuplicates, addresses, cap, result, collected);
  }

  /** No candidate matches where memchr found no occurrence of its literal. */
  lemma SkipCandidates(mem: Memory, pattern: Pattern, literal: nat, begin: Address, next: Address, next': Address,
                       countDuplicates: bool, addresses: Option<seq<Address>>, cap: nat,
                       result: RangeResult, collected: Option<seq<Address>>)
    requires literal < |pattern| && pattern[literal] >= 0
    requires begin <= next <= next'
    requires Absent(mem, next + literal, next' + literal, pattern[literal] % 0x100)
    requires Scanned(mem, pattern, begin, next, countDuplicates, addresses, cap, result, collected)
    ensures Scanned(mem, pattern, begin, next', countDuplicates, addresses, cap, result, collected)
  {
    forall a: nat | next <= a < next'
      ensures !MatchesAt(mem, pattern, a)
    {
      assert a + literal in mem && mem[a + literal] != pattern[literal] % 0x100;
    }
    NoHits(mem, pattern, begin, next, next');
  }

  /** Move to the next candidate whose first literal is present, searching for
      that literal with memchr; every candidate passed over does not match. */
  method NextCandidate(mem: Memory, pattern: Pattern, firstLiteral: nat, ghost begin: Address,
                       next: Address, stop: Address,
                       ghost countDuplicates: bool, ghost addresses: Option<seq<Address>>, ghost cap: nat,
                       ghost result: RangeResult, ghost collected: Option<seq<Address>>)
    returns (candidate: Address)
    requires firstLiteral < |pattern| && pattern[firstLiteral] >= 0
    requires begin <= next <= stop
    requires Readable(mem, next + firstLiteral, stop + firstLiteral)
    requires Scanned(mem, pattern, begin, next, countDuplicates, addresses, cap, result, collected)
    ensures next <= candidate <= stop
    ensures Scanned(mem, pattern, begin, candidate, countDuplicates, addresses, cap, result, collected)
  {
    var found := MemChr(mem, next + firstLiteral, stop + firstLiteral, pattern[firstLiteral] % 0x100);
    candidate := if found.Some? then found.value - firstLiteral else stop;
    SkipCandidates(mem, pattern, firstLiteral, begin, next, candidate,
                   countDuplicates, addresses, cap, result, collected);
  }

  /** Skip to the next occurrence of the first literal with memchr and compare
      only there. */
  method ScanLiteral(mem: Memory, pattern: Pattern, firstLiteral: nat, begin: Address, end: Address,
                     countDuplicates: bool, addresses: Option<seq<Address>>, cap: nat)
    returns (result: RangeResult, collected: Option<seq<Address>>)
    requires firstLiteral < |pattern| && pattern[firstLiteral] >= 0
    requires begin <= end && |pattern| <= end - begin
    requires Readable(mem, begin, end)
    ensures Reports(mem, pattern, begin, end, countDuplicates, addresses, cap, result, collected)
  {
    hide Scanned, Stopped, Reports;
    ScannedNone(mem, pattern, begin, countDuplicates, addresses, cap);
    result, collected := RangeResult(ADDRESS_BAD, 0), addresses;
    var next, stop := begin, end - |pattern| + 1;
    while next < stop
      invariant begin <= next <= stop
      invariant Scanned(mem, pattern, begin, next, countDuplicates, addresses, cap, result, collected)
    {
      var candidate := NextCandidate(mem, pattern, firstLiteral, begin, next, stop,
                                     countDuplicates, addresses, cap, result, collected);
      next := candidate;
      if candidate < stop {
        var done;
        result, collected, done :=
          Examine(mem, pattern, begin, candidate, countDuplicates, addresses, cap, result, collected);
        if done {
          StoppedAt(mem, pattern, begin, end, candidate, countDuplicates, addresses, cap, result, collected);
          return;
        }
        next := candidate + 1;
      }
    }
    ScannedAll(mem, pattern, begin, end, countDuplicates, addresses, cap, result, collected);
  }

  /** The range scan. It reads nothing outside [begin, end), and it reports
      exactly what the naive scan reports. */
  method ScanPatternRange(mem: Memory, pattern: Pattern, begin: Address, end: Address,
                          countDuplicates: bool, addresses: Option<seq<Address>>, cap: nat)
    returns (result: RangeResult, collected: Option<seq<Address>>)
    requires Readable(mem, begin, end)
    ensures Reports(mem, pattern, begin, end, countDuplicates, addresses, cap, result, collected)
    ensures var hits := RangeHits(mem, pattern, begin, end);
      if hits == [] then result == RangeResult(ADDRESS_BAD, 0)
      else if countDuplicates then result == RangeResult(hits[|hits| - 1], |hits|)
      else result == RangeResult(hits[0], 1)
  {
    if |pattern| == 0 || end < begin || end - begin < |pattern| {
      return RangeResult(ADDRESS_BAD, 0), addresses;
    }
    var firstLiteral := 0;
    while firstLiteral < |pattern| && pattern[firstLiteral] < 0
      invariant 0 <= firstLiteral <= |pattern|
    {
      firstLiteral := firstLiteral + 1;
    }
    if firstLiteral == |pattern| {
      result, collected := ScanWildcards(mem, pattern, begin, end, countDuplicates, addresses, cap);
    } else {
      result, collected := ScanLiteral(mem, pattern, firstLiteral, begin, end, countDuplicates, addresses, cap);
    }
  }

  /** The first hit of a range is the first hit of every longer range. */
  lemma {:induction false} FirstHit(mem: Memory, pattern: Pattern, lo: Address, hit: Address, hi: Address)
    requires lo <= hit < hi
    requires Hits(mem, pattern, lo, hit) == [] && MatchesAt(mem, pattern, hit)
    ensures var hits := Hits(mem, pattern, lo, hi); hits != [] && hits[..1] == [hit]
    decreases hi
  {
    if hit + 1 < hi {
      FirstHit(mem, pattern, lo, hit, hi - 1);
    }
  }

  /** `accumulateScan`: fold one range into the total of the module. */
  function Accumulate(total: Total, range: RangeResult): Total {
    if range.matches == 0 then total
    else Total(if total.address == ADDRESS_BAD then range.address else total.address,
               total.matches + range.matches)
  }

  /** `single` is the one value that a non-empty list repeats. */
  ghost predicate Converged(targets: seq<Address>, single: Option<Address>) {
    match single
    case Some(t) => targets != [] && forall i :: 0 <= i < |targets| ==> targets[i] == t
    case None => targets == [] || exists i :: 0 <= i < |targets| && targets[i] != targets[0]
  }

  /** `convergedTarget` of the source. */
  method ConvergedTarget(targets: seq<Address>) returns (single: Option<Address>)
    ensures Converged(targets, single)
  {
    if targets == [] {
      return None;
    }
    for i := 0 to |targets|
      invariant forall k :: 0 <= k < i ==> targets[k] == targets[0]
    {
      if targets[i] != targets[0] {
        return None;
      }
    }
    return Some(targets[0]);
  }
}

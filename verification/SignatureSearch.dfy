/** Resolving a signature over the executable segments of a module
    (`patternScan` and `searchSignatureDetailed`, src/memhlp.cpp). */
module SignatureSearch {
  import opened Common
  import opened PatternScan
  import Prologue
  import Signatures

  const MAX_CONVERGENCE_CANDIDATES: nat := 256

  datatype Segment = Segment(base: Address, size: nat, executable: bool) {
    function End(): Address { base + size }

    predicate Contains(a: Address) { base <= a < End() }
  }

  datatype Module = Module(base: Address, size: nat) {
    function End(): Address { base + size }

    predicate Contains(a: Address) { base <= a < End() }
  }

  datatype FollowMode = NoFollow | Relative | PrologueUpwards

  /** The process a signature is resolved in: its readable bytes, its segments in
      the ascending order in which the system lists them, and the target of the
      direct jump or call at an address (bad when there is none). */
  datatype World = World(mem: Memory, segments: seq<Segment>, jump: Address -> Address) {
    ghost predicate Valid() {
      && (forall i :: 0 <= i < |segments| ==> segments[i].End() <= ADDRESS_BAD)
      && (forall i, j :: 0 <= i < j < |segments| ==> segments[i].End() <= segments[j].base)
      && (forall i :: 0 <= i < |segments| && segments[i].executable
            ==> Readable(mem, segments[i].base, segments[i].End()))
    }
  }

  datatype SearchResult = SearchResult(site: Address, target: Address, matches: nat)

  /** `LM_FindSegment`: the segment that holds an address. */
  function FindSegment(segments: seq<Segment>, a: Address): (found: Option<Segment>)
    ensures found.Some? ==> found.value in segments && found.value.Contains(a)
    ensures found.None? ==> forall i :: 0 <= i < |segments| ==> !segments[i].Contains(a)
  {
    if segments == [] then None
    else if segments[0].Contains(a) then Some(segments[0])
    else FindSegment(segments[1..], a)
  }

  lemma FoundSegmentIsUnique(w: World, a: Address, i: nat)
    requires w.Valid() && i < |w.segments| && w.segments[i].Contains(a)
    ensures FindSegment(w.segments, a) == Some(w.segments[i])
  {
    var found := FindSegment(w.segments, a).value;
    var j :| 0 <= j < |w.segments| && w.segments[j] == found;
    assert i == j;
  }

  // ---------------------------------------------------------------- reference

  /** The scanner visits executable segments that touch the module. */
  predicate Selected(s: Segment, m: Module) {
    s.executable && m.base <= s.End() && s.base <= m.base + m.size
  }

  function SegmentHits(mem: Memory, segments: seq<Segment>, m: Module, pattern: Pattern): seq<Address> {
    if segments == [] then []
    else
      var last := segments[|segments| - 1];
      var hits := SegmentHits(mem, segments[..|segments| - 1], m, pattern);
      if Selected(last, m) then hits + RangeHits(mem, pattern, last.base, last.End()) else hits
  }

  /** Every match of a pattern in the executable memory of a module. */
  function AllHits(w: World, m: Module, pattern: Pattern): seq<Address> {
    SegmentHits(w.mem, w.segments, m, pattern)
  }

  /** The address a single match leads to. */
  function Derived(w: World, m: Module, mode: FollowMode, prologue: Pattern, a: Address): Address {
    match mode
    case NoFollow => a
    case Relative => w.jump(a)
    case PrologueUpwards =>
      match FindSegment(w.segments, a)
      case None => ADDRESS_BAD
      case Some(s) => Prologue.Nearest(w.mem, prologue, a, Prologue.LowerBound(m.base, s.base))
  }

  /** Every match is a call or jump to one shared target. */
  predicate Converges(w: World, hits: seq<Address>) {
    hits != [] && forall i :: 0 <= i < |hits| ==> w.jump(hits[i]) == w.jump(hits[0]) != ADDRESS_BAD
  }

  /** All of `hits` lead to the good address `t`. */
  predicate LeadTo(w: World, hits: seq<Address>, t: Address) {
    t != ADDRESS_BAD && forall h :: h in hits ==> w.jump(h) == t
  }

  function Verdict(w: World, m: Module, mode: FollowMode, prologue: Pattern, hits: seq<Address>): SearchResult {
    if |hits| == 0 then SearchResult(ADDRESS_BAD, ADDRESS_BAD, 0)
    else if |hits| == 1 then SearchResult(hits[0], Derived(w, m, mode, prologue, hits[0]), 1)
    else if mode == Relative && |hits| <= MAX_CONVERGENCE_CANDIDATES && Converges(w, hits)
      then SearchResult(hits[0], w.jump(hits[0]), |hits|)
    else SearchResult(ADDRESS_BAD, ADDRESS_BAD, |hits|)
  }

  function Search(w: World, m: Module, signature: string, mode: FollowMode, prologue: Pattern): SearchResult {
    var pattern := Signatures.PatternToBytes(signature);
    Verdict(w, m, mode, prologue, AllHits(w, m, pattern))
  }

  // ------------------------------------------------- laws of the reference

  /** A hit lies in an executable segment and its bytes match there. */
  lemma {:induction false} HitIsLocated(w: World, segments: seq<Segment>, m: Module, pattern: Pattern, k: nat)
    requires w.Valid() && pattern != [] && segments <= w.segments
    requires k < |SegmentHits(w.mem, segments, m, pattern)|
    ensures var a := SegmentHits(w.mem, segments, m, pattern)[k];
      exists i :: 0 <= i < |segments| && Selected(segments[i], m)
             && segments[i].base <= a && a + |pattern| <= segments[i].End() && MatchesAt(w.mem, pattern, a)
  {
    var n := |segments| - 1;
    var init := SegmentHits(w.mem, segments[..n], m, pattern);
    if k < |init| {
      HitIsLocated(w, segments[..n], m, pattern, k);
    } else {
      var last := segments[n];
      RangeHitsExact(w.mem, pattern, last.base, last.End());
      var more := RangeHits(w.mem, pattern, last.base, last.End());
      assert more[k - |init|] in more;
    }
  }

  /** Every match in a selected segment is a hit. */
  lemma {:induction false} MatchIsHit(w: World, segments: seq<Segment>, m: Module, pattern: Pattern, i: nat, a: Address)
    requires pattern != [] && i < |segments| && Selected(segments[i], m)
    requires segments[i].base <= a && a + |pattern| <= segments[i].End() && MatchesAt(w.mem, pattern, a)
    ensures a in SegmentHits(w.mem, segments, m, pattern)
  {
    hide MatchesAt, RangeHits;
    var n := |segments| - 1;
    if i < n {
      MatchIsHit(w, segments[..n], m, pattern, i, a);
    } else {
      RangeHitsExact(w.mem, pattern, segments[n].base, segments[n].End());
    }
  }

  lemma {:induction false} HitsAscend(w: World, segments: seq<Segment>, m: Module, pattern: Pattern)
    requires w.Valid() && pattern != [] && segments <= w.segments
    ensures Ascending(SegmentHits(w.mem, segments, m, pattern))
  {
    hide MatchesAt, RangeHits;
    if segments != [] {
      var n := |segments| - 1;
      var init, last := SegmentHits(w.mem, segments[..n], m, pattern), segments[n];
      HitsAscend(w, segments[..n], m, pattern);
      forall k | 0 <= k < |init| ensures init[k] < last.base {
        HitIsLocated(w, segments[..n], m, pattern, k);
      }
      var more := RangeHits(w.mem, pattern, last.base, last.End());
      RangeHitsExact(w.mem, pattern, last.base, last.End());
      forall k | 0 <= k < |more| ensures last.base <= more[k] {
        assert more[k] in more;
      }
      AscendingConcat(init, more, last.base);
    }
  }

  lemma AscendingConcat(x: seq<Address>, y: seq<Address>, middle: Address)
    requires Ascending(x) && Ascending(y)
    requires (forall k :: 0 <= k < |x| ==> x[k] < middle) && (forall k :: 0 <= k < |y| ==> middle <= y[k])
    ensures Ascending(x + y)
  {
  }

  /** The hits are exactly the matches that lie wholly inside an executable segment
      that touches the module, each once and in ascending order. */
  lemma AllHitsExact(w: World, m: Module, pattern: Pattern)
    requires w.Valid() && pattern != []
    ensures forall a: Address :: a in AllHits(w, m, pattern) <==>
      (exists i :: (0 <= i < |w.segments| && w.segments[i].executable
         && m.base <= w.segments[i].base + w.segments[i].size && w.segments[i].base <= m.base + m.size
         && w.segments[i].base <= a && a + |pattern| <= w.segments[i].base + w.segments[i].size
         && forall k :: 0 <= k < |pattern| ==>
              a + k in w.mem && (pattern[k] < 0 || w.mem[a + k] == pattern[k] % 0x100)))
    ensures forall k, l :: 0 <= k < l < |AllHits(w, m, pattern)| ==>
      AllHits(w, m, pattern)[k] < AllHits(w, m, pattern)[l]
  {
    hide SegmentHits;
    HitsAscend(w, w.segments, m, pattern);
    forall a: Address | a in AllHits(w, m, pattern)
      ensures exists i :: (0 <= i < |w.segments| && Selected(w.segments[i], m) && w.segments[i].base <= a
        && a + |pattern| <= w.segments[i].End() && MatchesAt(w.mem, pattern, a))
    {
      var k :| 0 <= k < |AllHits(w, m, pattern)| && AllHits(w, m, pattern)[k] == a;
      HitIsLocated(w, w.segments, m, pattern, k);
    }
    forall a: Address, i | 0 <= i < |w.segments| && Selected(w.segments[i], m) && w.segments[i].base <= a
        && a + |pattern| <= w.segments[i].End() && MatchesAt(w.mem, pattern, a)
      ensures a in AllHits(w, m, pattern)
    {
      MatchIsHit(w, w.segments, m, pattern, i, a);
    }
  }

  /** What a site leads to: itself, its jump target, or the nearest prologue at or
      above it within its segment and module, if there is one. */
  lemma DerivedExactly(w: World, m: Module, prologue: Pattern, a: Address)
    requires w.Valid()
    ensures Derived(w, m, NoFollow, prologue, a) == a && Derived(w, m, Relative, prologue, a) == w.jump(a)
    ensures (forall i :: 0 <= i < |w.segments| ==> !w.segments[i].Contains(a))
      ==> Derived(w, m, PrologueUpwards, prologue, a) == ADDRESS_BAD
    ensures forall i :: 0 <= i < |w.segments| && w.segments[i].Contains(a) ==>
      var bound := if w.segments[i].base < m.base then m.base else w.segments[i].base;
      Derived(w, m, PrologueUpwards, prologue, a) == Prologue.Nearest(w.mem, prologue, a, bound)
  {
    forall i | 0 <= i < |w.segments| && w.segments[i].Contains(a)
      ensures FindSegment(w.segments, a) == Some(w.segments[i])
    {
      FoundSegmentIsUnique(w, a, i);
    }
  }

  lemma {:induction false} NoHitsOfEmpty(mem: Memory, segments: seq<Segment>, m: Module)
    ensures SegmentHits(mem, segments, m, []) == []
  {
    if segments != [] {
      NoHitsOfEmpty(mem, segments[..|segments| - 1], m);
    }
  }

  lemma HitIsGood(w: World, m: Module, pattern: Pattern, k: nat)
    requires w.Valid() && k < |AllHits(w, m, pattern)|
    ensures AllHits(w, m, pattern)[k] < ADDRESS_BAD
  {
    if pattern == [] {
      NoHitsOfEmpty(w.mem, w.segments, m);
    } else {
      HitIsLocated(w, w.segments, m, pattern, k);
    }
  }

  /** A signature resolves exactly when it matches once in all executable memory
      of the module, or when it is followed relatively and its 2 to 256 matches
      all lead to one good target, which is then the resolved target. */
  lemma ResolvesExactly(w: World, m: Module, signature: string, mode: FollowMode, prologue: Pattern)
    requires w.Valid()
    ensures var hits := AllHits(w, m, Signatures.PatternToBytes(signature));
      var r := Search(w, m, signature, mode, prologue);
      && r.matches == |hits|
      && (r.site != ADDRESS_BAD <==>
            (|hits| == 1
             || (mode == Relative && 2 <= |hits| <= 256
                 && exists t: Address :: LeadTo(w, hits, t))))
      && (r.site != ADDRESS_BAD ==> r.site == hits[0])
      && (r.site != ADDRESS_BAD && 2 <= |hits| ==> LeadTo(w, hits, r.target))
      && (r.site == ADDRESS_BAD ==> r.target == ADDRESS_BAD)
  {
    var hits := AllHits(w, m, Signatures.PatternToBytes(signature));
    if hits != [] {
      HitIsGood(w, m, Signatures.PatternToBytes(signature), 0);
      assert hits[0] in hits;
      assert forall i :: 0 <= i < |hits| ==> hits[i] in hits;
      assert Converges(w, hits) ==> LeadTo(w, hits, w.jump(hits[0]));
    }
  }

  /** The collected address list is complete exactly when there are at most 256 matches. */
  lemma CollectedListComplete(hits: seq<Address>)
    ensures Record([], hits, MAX_CONVERGENCE_CANDIDATES) == hits <==> |hits| <= MAX_CONVERGENCE_CANDIDATES
  {
  }

  // ---------------------------------------------------------- implementation

  method ScanModule(w: World, m: Module, signature: string)
    returns (address: Address, matches: nat, allMatches: seq<Address>)
    requires w.Valid()
    ensures var hits := AllHits(w, m, Signatures.PatternToBytes(signature));
      && matches == |hits|
      && allMatches == Record([], hits, MAX_CONVERGENCE_CANDIDATES)
      && address == if |hits| == 1 then hits[0] else ADDRESS_BAD
  {
    hide Accumulate, Hits, Reports, Record, Signatures.Decode;
    var pattern := Signatures.PatternToBytesLoop(signature, Signatures.Numeral);
    allMatches := [];
    if pattern == [] {
      NoHitsOfEmpty(w.mem, w.segments, m);
      return ADDRESS_BAD, 0, [];
    }
    var total := EMPTY_TOTAL;
    var collected := Some([]);
    var i := 0;
    while i < |w.segments|
      invariant 0 <= i <= |w.segments|
      invariant Accumulated(SegmentHits(w.mem, w.segments[..i], m, pattern), total, collected)
    {
      var s := w.segments[i];
      assert w.segments[..i + 1][..i] == w.segments[..i];
      if m.base <= s.End() && s.base <= m.base + m.size && s.executable {
        var range;
        ghost var before, had := SegmentHits(w.mem, w.segments[..i], m, pattern), collected;
        range, collected :=
          ScanPatternRange(w.mem, pattern, s.base, s.End(), true, collected, MAX_CONVERGENCE_CANDIDATES);
        AccumulateStep(w, pattern, s, before, total, had, range, collected);
        total := Accumulate(total, range);
      }
      i := i + 1;
    }
    assert w.segments[..i] == w.segments;
    return if total.Resolved() then total.address else ADDRESS_BAD, total.matches, collected.value;
  }

  ghost predicate Accumulated(hits: seq<Address>, total: Total, collected: Option<seq<Address>>) {
    && total.matches == |hits|
    && (|hits| == 0 ==> total.address == ADDRESS_BAD)
    && (|hits| == 1 ==> total.address == hits[0] != ADDRESS_BAD)
    && collected == Some(Record([], hits, MAX_CONVERGENCE_CANDIDATES))
  }

  lemma AccumulateStep(w: World, pattern: Pattern, s: Segment, before: seq<Address>, total: Total,
                       had: Option<seq<Address>>, range: RangeResult, collected: Option<seq<Address>>)
    requires w.Valid() && s in w.segments && pattern != []
    requires Accumulated(before, total, had)
    requires Reports(w.mem, pattern, s.base, s.End(), true, had, MAX_CONVERGENCE_CANDIDATES, range, collected)
    ensures Accumulated(before + RangeHits(w.mem, pattern, s.base, s.End()), Accumulate(total, range), collected)
  {
    hide Hits, MatchesAt, Record, Accumulated, Accumulate, RangeHits;
    var more := RangeHits(w.mem, pattern, s.base, s.End());
    if more != [] {
      RangeHitsExact(w.mem, pattern, s.base, s.End());
      assert more[0] in more;
    }
    AccumulateRange(before, total, had, more, range, collected);
  }

  lemma AccumulateRange(before: seq<Address>, total: Total, had: Option<seq<Address>>,
                        more: seq<Address>, range: RangeResult, collected: Option<seq<Address>>)
    requires Accumulated(before, total, had) && (more != [] ==> more[0] != ADDRESS_BAD)
    requires range == ResultOf(more, true) && collected == RecordIn(had, more, MAX_CONVERGENCE_CANDIDATES)
    ensures Accumulated(before + more, Accumulate(total, range), collected)
  {
    hide Record;
    RecordConcat([], before, more, MAX_CONVERGENCE_CANDIDATES);
    if more == [] {
      assert before + more == before;
    }
  }

  /** Follow every call site; empty when one of them leads nowhere. */
  method FollowAll(w: World, candidates: seq<Address>) returns (targets: seq<Address>)
    requires candidates != []
    ensures if forall i :: 0 <= i < |candidates| ==> w.jump(candidates[i]) != ADDRESS_BAD
            then |targets| == |candidates| && forall i :: 0 <= i < |targets| ==> targets[i] == w.jump(candidates[i])
            else targets == []
  {
    targets := [];
    for k := 0 to |candidates|
      invariant |targets| == k
      invariant forall i :: 0 <= i < k ==> targets[i] == w.jump(candidates[i]) != ADDRESS_BAD
    {
      var followed := w.jump(candidates[k]);
      if followed == ADDRESS_BAD {
        return [];
      }
      targets := targets + [followed];
    }
  }

  method SearchSignatureDetailed(w: World, m: Module, signature: string, mode: FollowMode, prologue: Pattern)
    returns (result: SearchResult)
    requires w.Valid()
    ensures result == Search(w, m, signature, mode, prologue)
  {
    var address, matches, allMatches := ScanModule(w, m, signature);
    ghost var pattern := Signatures.PatternToBytes(signature);
    ghost var hits := AllHits(w, m, pattern);
    if matches > 1 {
      if mode == Relative && matches <= MAX_CONVERGENCE_CANDIDATES && |allMatches| == matches {
        assert allMatches == hits;
        var targets := FollowAll(w, allMatches);
        var single := ConvergedTarget(targets);
        ConvergenceDecided(w, hits, targets, single);
        if single.Some? {
          return SearchResult(allMatches[0], single.value, matches);
        }
      }
      return SearchResult(ADDRESS_BAD, ADDRESS_BAD, matches);
    }
    if address == ADDRESS_BAD {
      if matches == 1 {
        HitIsGood(w, m, pattern, 0);
      }
      return SearchResult(ADDRESS_BAD, ADDRESS_BAD, matches);
    }
    HitIsExecutable(w, m, pattern, 0);
    var target := Follow(w, m, mode, prologue, address);
    return SearchResult(address, target, matches);
  }

  lemma ConvergenceDecided(w: World, hits: seq<Address>, targets: seq<Address>, single: Option<Address>)
    requires hits != []
    requires if forall i :: 0 <= i < |hits| ==> w.jump(hits[i]) != ADDRESS_BAD
             then |targets| == |hits| && forall i :: 0 <= i < |targets| ==> targets[i] == w.jump(hits[i])
             else targets == []
    requires Converged(targets, single)
    ensures single.Some? <==> Converges(w, hits)
    ensures single.Some? ==> single.value == w.jump(hits[0])
  {
    if single.Some? {
      assert targets[0] == w.jump(hits[0]);
    }
  }

  /** The follow step of a site in executable memory. */
  method Follow(w: World, m: Module, mode: FollowMode, prologue: Pattern, address: Address)
    returns (target: Address)
    requires w.Valid()
    requires FindSegment(w.segments, address).Some? ==> FindSegment(w.segments, address).value.executable
    ensures target == Derived(w, m, mode, prologue, address)
  {
    target := address;
    match mode {
      case NoFollow =>
      case Relative =>
        target := w.jump(address);
      case PrologueUpwards =>
        match FindSegment(w.segments, address) {
          case None =>
            target := ADDRESS_BAD;
          case Some(s) =>
            SegmentReadable(w, m, address, s);
            target := Prologue.FindPrologue(w.mem, address, Prologue.LowerBound(m.base, s.base), prologue);
        }
    }
  }

  /** Everything from the search bound up to an executable address is readable. */
  lemma SegmentReadable(w: World, m: Module, a: Address, s: Segment)
    requires w.Valid() && FindSegment(w.segments, a) == Some(s) && s.executable
    ensures Readable(w.mem, Prologue.LowerBound(m.base, s.base), a + 1)
  {
    var i :| 0 <= i < |w.segments| && w.segments[i] == s;
    assert Readable(w.mem, s.base, s.End());
  }

  /** A hit lies in executable memory, with room for the whole signature. */
  lemma HitIsExecutable(w: World, m: Module, pattern: Pattern, k: nat)
    requires w.Valid() && k < |AllHits(w, m, pattern)|
    ensures var a := AllHits(w, m, pattern)[k];
      var found := FindSegment(w.segments, a);
      found.Some? && found.value.executable && a + |pattern| <= found.value.End()
    ensures MatchesAt(w.mem, pattern, AllHits(w, m, pattern)[k])
  {
    if pattern == [] {
      NoHitsOfEmpty(w.mem, w.segments, m);
    } else {
      var a := AllHits(w, m, pattern)[k];
      HitIsLocated(w, w.segments, m, pattern, k);
      var i :| 0 <= i < |w.segments| && Selected(w.segments[i], m)
        && w.segments[i].base <= a && a + |pattern| <= w.segments[i].End();
      FoundSegmentIsUnique(w, a, i);
    }
  }
}

/** Resolving the pattern registry of one module with and without the local
    catalog (src/patterns.cpp). */
module WarmStart {
  import opened Common
  import opened SignatureSearch
  import PatternCache
  import PatternScan
  import Signatures

  type Catalog = PatternCache.Catalog

  /** What is compiled in about one pattern. */
  datatype Spec = Spec(
    symbol: string,
    signature: string,
    mode: FollowMode,
    prologue: PatternScan.Pattern,
    optional: bool)

  /** What a pattern resolved to: its address and the site of its signature. */
  datatype Resolution = Resolution(address: Address, site: Address)

  const UNRESOLVED := Resolution(ADDRESS_BAD, ADDRESS_BAD)

  function FollowModeName(mode: FollowMode): string {
    match mode
    case NoFollow => "None"
    case Relative => "Relative"
    case PrologueUpwards => "PrologueUpwards"
  }

  predicate ValidModule(m: Module) {
    m.base + m.size <= ADDRESS_BAD
  }

  predicate Executable(w: World, a: Address) {
    var s := FindSegment(w.segments, a);
    s.Some? && s.value.executable
  }

  // ------------------------------------------------------------- the cold path

  /** The embedded resolver: search, then prove that the target is executable
      memory of the module. */
  function Cold(w: World, m: Module, p: Spec): Resolution {
    var r := Search(w, m, p.signature, p.mode, p.prologue);
    if r.target == ADDRESS_BAD then Resolution(ADDRESS_BAD, r.site)
    else if m.Contains(r.target) && Executable(w, r.target) then Resolution(r.target, r.site)
    else UNRESOLVED
  }

  function ColdPass(w: World, m: Module, ps: seq<Spec>): seq<Resolution> {
    seq(|ps|, i requires 0 <= i < |ps| => Cold(w, m, ps[i]))
  }

  // ----------------------------------------------------------- the catalog path

  datatype Lookup = Hit(resolution: Resolution) | Miss | Reject

  /** The bytes at the recorded site still match the strict signature, and they
      lie inside one executable segment and inside the module. */
  predicate SiteStands(w: World, m: Module, signature: string, matchRva: nat) {
    match Signatures.ParseSignature(signature)
    case None => false
    case Some(pattern) =>
      && matchRva < m.size
      && |pattern| <= m.size - matchRva
      && var site := m.base + matchRva;
         match FindSegment(w.segments, site)
         case None => false
         case Some(s) =>
           && s.executable
           && |pattern| <= s.End() - site
           && PatternScan.MatchesAt(w.mem, pattern, site)
  }

  predicate TargetStands(w: World, m: Module, targetRva: nat) {
    targetRva < m.size && Executable(w, m.base + targetRva)
  }

  /** The compiled pattern is the one the entry was recorded for, and the memory
      it names is still there. */
  predicate EntryStands(w: World, m: Module, p: Spec, l: PatternCache.Locator) {
    && l.required == !p.optional
    && l.followMode == FollowModeName(p.mode) && l.signature == p.signature
    && TargetStands(w, m, l.targetRva)
    && SiteStands(w, m, l.signature, l.matchRva)
  }

  /** Following the site again leads to the recorded target. */
  predicate FollowStands(m: Module, l: PatternCache.Locator, derived: Address) {
    && derived != ADDRESS_BAD && m.Contains(derived)
    && PatternCache.TargetRvaMatches(l.followMode, l.matchRva, l.targetRva, derived - m.base)
  }

  predicate EntryServesPattern(w: World, m: Module, p: Spec, l: PatternCache.Locator) {
    && EntryStands(w, m, p, l)
    && FollowStands(m, l, Derived(w, m, p.mode, p.prologue, m.base + l.matchRva))
  }

  function LookUp(w: World, m: Module, c: Catalog, p: Spec): Lookup {
    match PatternCache.Entry(c.locators, p.symbol)
    case None => if p.optional then Miss else Reject
    case Some(l) =>
      if EntryServesPattern(w, m, p, l) then Hit(Resolution(m.base + l.targetRva, m.base + l.matchRva)) else Reject
  }

  /** One locator of the signed remote catalog, as far as resolving reads it. */
  datatype RemoteLocator = RemoteLocator(
    symbol: string,
    targetRva: UInt32,
    signature: string,
    followMode: string,
    required: bool)

  type RemoteCatalog = seq<RemoteLocator>

  function RemoteEntry(remote: RemoteCatalog, symbol: string): (found: Option<RemoteLocator>)
    ensures found.Some? ==> found.value in remote && found.value.symbol == symbol
    ensures found.None? ==> forall l :: l in remote ==> l.symbol != symbol
  {
    if remote == [] then None
    else if remote[0].symbol == symbol then Some(remote[0])
    else RemoteEntry(remote[1..], symbol)
  }

  /** The address the remote catalog names for a pattern, if it may be used. */
  function RemoteAddress(w: World, m: Module, remote: Option<RemoteCatalog>, p: Spec): (found: Option<Address>)
    ensures found.Some? ==> m.Contains(found.value) && Executable(w, found.value)
  {
    var catalog :- remote;
    var entry :- RemoteEntry(catalog, p.symbol);
    if entry.required == !p.optional && entry.signature == p.signature && entry.followMode == FollowModeName(p.mode)
       && TargetStands(w, m, entry.targetRva)
    then Some(m.base + entry.targetRva)
    else None
  }

  /** What a pattern resolves to when the local catalog does not serve it: the
      remote catalog proves no site, so none is known. */
  function Unserved(w: World, m: Module, remote: Option<RemoteCatalog>, p: Spec): Resolution {
    match RemoteAddress(w, m, remote, p)
    case Some(a) => Resolution(a, ADDRESS_BAD)
    case None => Cold(w, m, p)
  }

  /** One `find()`: the local catalog if it stands by its entry, else the remote
      catalog, else the scan; a rejection discards the local catalog for good. */
  function FindSpec(w: World, m: Module, catalog: Option<Catalog>, remote: Option<RemoteCatalog>, p: Spec):
    (Resolution, Option<Catalog>)
  {
    match catalog
    case None => (Unserved(w, m, remote, p), None)
    case Some(c) =>
      match LookUp(w, m, c, p)
      case Hit(r) => (r, catalog)
      case Miss => (Unserved(w, m, remote, p), catalog)
      case Reject => (Unserved(w, m, remote, p), None)
  }

  /** The registry in order, and the local catalog that is left at its end. */
  function Pass(w: World, m: Module, catalog: Option<Catalog>, remote: Option<RemoteCatalog>, ps: seq<Spec>):
    (seq<Resolution>, Option<Catalog>)
    decreases |ps|
  {
    if ps == [] then ([], catalog)
    else
      var (r, next) := FindSpec(w, m, catalog, remote, ps[0]);
      var (rest, last) := Pass(w, m, next, remote, ps[1..]);
      ([r] + rest, last)
  }

  // --------------------------------------------------- what a cold pass records

  predicate Located(m: Module, r: Resolution) {
    m.Contains(r.address) && m.Contains(r.site)
  }

  predicate Resolved(r: Resolution) {
    r.address != ADDRESS_BAD && r.site != ADDRESS_BAD
  }

  function LocatorOf(m: Module, p: Spec, r: Resolution): PatternCache.Locator
    requires ValidModule(m) && Located(m, r)
  {
    var targetRva, matchRva := r.address - m.base, r.site - m.base;
    PatternCache.Locator(p.symbol, targetRva, matchRva, p.signature, FollowModeName(p.mode), !p.optional)
  }

  /** The locators of a pass; none at all when a required pattern is unresolved
      or an address lies outside the module. */
  function BuildLocators(m: Module, ps: seq<Spec>, rs: seq<Resolution>): Option<seq<PatternCache.Locator>>
    requires |ps| == |rs| && ValidModule(m)
  {
    if ps == [] then Some([])
    else if !Resolved(rs[0]) then
      if ps[0].optional then BuildLocators(m, ps[1..], rs[1..]) else None
    else if !Located(m, rs[0]) then None
    else
      var rest :- BuildLocators(m, ps[1..], rs[1..]);
      Some([LocatorOf(m, ps[0], rs[0])] + rest)
  }

  function BuildCatalog(m: Module, id: PatternCache.ModuleIdentity, ps: seq<Spec>, rs: seq<Resolution>): Option<Catalog>
    requires |ps| == |rs| && ValidModule(m)
  {
    var locators :- BuildLocators(m, ps, rs);
    if locators == [] then None else Some(PatternCache.Catalog(id, locators))
  }

  /** The file a cold start leaves behind; empty when it writes none. */
  function Stored(m: Module, id: PatternCache.ModuleIdentity, ps: seq<Spec>, rs: seq<Resolution>): string
    requires |ps| == |rs| && ValidModule(m)
  {
    match BuildCatalog(m, id, ps, rs)
    case None => ""
    case Some(c) => PatternCache.Serialize(c)
  }

  function CompiledPolicy(ps: seq<Spec>): seq<PatternCache.CompiledLocator> {
    seq(|ps|, i requires 0 <= i < |ps| =>
      PatternCache.CompiledLocator(ps[i].symbol, !ps[i].optional, ps[i].signature, FollowModeName(ps[i].mode)))
  }

  /** What the next start makes of that file. */
  function Load(body: string, id: PatternCache.ModuleIdentity, ps: seq<Spec>): Option<Catalog> {
    var c :- PatternCache.Parse(body);
    if c.identity == id && PatternCache.PolicyMatches(c, CompiledPolicy(ps)) then Some(c) else None
  }

  /** The remote catalog is read only when there is no local one. */
  function RemoteFor(local: Option<Catalog>, remote: Option<RemoteCatalog>): Option<RemoteCatalog> {
    if local.Some? then None else remote
  }

  /** One start with the file that the last one left behind. */
  function Start(w: World, m: Module, id: PatternCache.ModuleIdentity, ps: seq<Spec>,
                 remote: Option<RemoteCatalog>, file: string): (seq<Resolution>, Option<Catalog>)
  {
    var local := Load(file, id, ps);
    Pass(w, m, local, RemoteFor(local, remote), ps)
  }

  /** The file after that start: a catalog that is missing or was discarded is
      written anew, unless the remote catalog is in use or there is nothing to
      write. */
  function FileAfter(m: Module, id: PatternCache.ModuleIdentity, ps: seq<Spec>, remote: Option<RemoteCatalog>,
                     file: string, outcome: (seq<Resolution>, Option<Catalog>)): string
    requires |outcome.0| == |ps| && ValidModule(m)
  {
    var body := Stored(m, id, ps, outcome.0);
    if outcome.1.None? && RemoteFor(Load(file, id, ps), remote).None? && body != "" then body else file
  }

  // -------------------------------------------------------------- warm equals cold

  /** A locator was written by the cold resolution of some pattern. */
  ghost predicate FromCold(w: World, m: Module, l: PatternCache.Locator) {
    exists q: Spec ::
      && var r := Cold(w, m, q);
         Resolved(r) && ValidModule(m) && Located(m, r) && l == LocatorOf(m, q, r)
  }

  lemma {:induction false} BuiltFromCold(w: World, m: Module, ps: seq<Spec>, rs: seq<Resolution>)
    requires ValidModule(m) && |ps| == |rs|
    requires forall i :: 0 <= i < |ps| ==> rs[i] == Cold(w, m, ps[i])
    requires BuildLocators(m, ps, rs).Some?
    ensures forall l :: l in BuildLocators(m, ps, rs).value ==> FromCold(w, m, l)
  {
    if ps != [] {
      BuiltFromCold(w, m, ps[1..], rs[1..]);
      if Resolved(rs[0]) {
        assert FromCold(w, m, LocatorOf(m, ps[0], rs[0]));
      }
    }
  }

  lemma SearchTarget(w: World, m: Module, signature: string, mode: FollowMode, prologue: PatternScan.Pattern)
    requires w.Valid()
    ensures var r := Search(w, m, signature, mode, prologue);
      r.site != ADDRESS_BAD ==> r.target == Derived(w, m, mode, prologue, r.site)
  {
  }

  /** The site of a resolution does not depend on the prologue. */
  lemma SiteIgnoresPrologue(w: World, m: Module, signature: string, mode: FollowMode,
                            prologue: PatternScan.Pattern, prologue': PatternScan.Pattern)
    ensures Search(w, m, signature, mode, prologue).site == Search(w, m, signature, mode, prologue').site
  {
  }

  lemma FollowModeNameInjective(a: FollowMode, b: FollowMode)
    requires FollowModeName(a) == FollowModeName(b)
    ensures a == b
  {
    assert FollowModeName(NoFollow)[0] == 'N' && FollowModeName(Relative)[0] == 'R';
    assert FollowModeName(PrologueUpwards)[0] == 'P';
  }

  /** The checks a hit has passed: `p` is the pattern of entry `l`, and following
      the recorded site leads to the recorded target. */
  ghost predicate StandsBy(w: World, m: Module, p: Spec, l: PatternCache.Locator) {
    && l.signature == p.signature && l.followMode == FollowModeName(p.mode)
    && LeadsTo(w, m, p, m.base + l.matchRva, m.base + l.targetRva)
  }

  ghost predicate LeadsTo(w: World, m: Module, p: Spec, site: Address, target: Address) {
    && Derived(w, m, p.mode, p.prologue, site) == target != ADDRESS_BAD
    && m.Contains(target) && Executable(w, target)
  }

  lemma HitMeans(w: World, m: Module, c: Catalog, p: Spec)
    requires ValidModule(m) && LookUp(w, m, c, p).Hit?
    ensures var entry := PatternCache.Entry(c.locators, p.symbol);
      && entry.Some?
      && StandsBy(w, m, p, entry.value)
      && LookUp(w, m, c, p).resolution == Resolution(m.base + entry.value.targetRva, m.base + entry.value.matchRva)
  {
    hide Derived, SiteStands, Executable, FollowModeName;
  }

  lemma ColdMeans(w: World, m: Module, q: Spec)
    requires Resolved(Cold(w, m, q))
    ensures Search(w, m, q.signature, q.mode, q.prologue).site == Cold(w, m, q).site
  {
  }

  /** Two patterns of one signature and mode have one site. */
  lemma SameSite(w: World, m: Module, p: Spec, q: Spec)
    requires w.Valid() && Resolved(Cold(w, m, q))
    requires p.signature == q.signature && p.mode == q.mode
    ensures var r, site := Search(w, m, p.signature, p.mode, p.prologue), Cold(w, m, q).site;
      r.site == site && r.target == Derived(w, m, p.mode, p.prologue, site)
  {
    ColdMeans(w, m, q);
    SiteIgnoresPrologue(w, m, p.signature, p.mode, p.prologue, q.prologue);
    SearchTarget(w, m, p.signature, p.mode, p.prologue);
  }

  lemma ColdFrom(w: World, m: Module, p: Spec, q: Spec, r: Resolution, target: Address)
    requires w.Valid() && r == Cold(w, m, q) && Resolved(r)
    requires p.signature == q.signature && p.mode == q.mode
    requires LeadsTo(w, m, p, r.site, target)
    ensures Cold(w, m, p) == Resolution(target, r.site)
  {
    SameSite(w, m, p, q);
  }

  lemma EntryIsCold(w: World, m: Module, p: Spec, l: PatternCache.Locator)
    requires w.Valid() && ValidModule(m) && FromCold(w, m, l)
    requires StandsBy(w, m, p, l)
    ensures Cold(w, m, p) == Resolution(m.base + l.targetRva, m.base + l.matchRva)
  {
    hide Cold, LeadsTo;
    var q: Spec :| Resolved(Cold(w, m, q)) && Located(m, Cold(w, m, q)) && l == LocatorOf(m, q, Cold(w, m, q));
    FollowModeNameInjective(p.mode, q.mode);
    EntryOfPattern(w, m, p, q, Cold(w, m, q), l);
  }

  lemma EntryOfPattern(w: World, m: Module, p: Spec, q: Spec, r: Resolution, l: PatternCache.Locator)
    requires w.Valid() && ValidModule(m)
    requires r == Cold(w, m, q) && Resolved(r) && Located(m, r) && l == LocatorOf(m, q, r)
    requires p.mode == q.mode && StandsBy(w, m, p, l)
    ensures Cold(w, m, p) == Resolution(m.base + l.targetRva, m.base + l.matchRva)
  {
    hide Cold, LeadsTo, Resolved, Located, FollowModeName;
    LocatorRestores(m, q, r);
    assert LeadsTo(w, m, p, r.site, r.address);
    ColdFrom(w, m, p, q, r, r.address);
  }

  lemma LocatorRestores(m: Module, q: Spec, r: Resolution)
    requires ValidModule(m) && Located(m, r)
    ensures m.base + LocatorOf(m, q, r).matchRva == r.site && m.base + LocatorOf(m, q, r).targetRva == r.address
  {
  }

  /** A hit on any entry, wherever it comes from, is what the scan would find
      exactly when the scan finds the recorded site. */
  lemma HitIsColdExactly(w: World, m: Module, c: Catalog, p: Spec)
    requires w.Valid() && ValidModule(m) && LookUp(w, m, c, p).Hit?
    ensures var hit := LookUp(w, m, c, p).resolution;
            hit == Cold(w, m, p) <==> Search(w, m, p.signature, p.mode, p.prologue).site == hit.site
  {
    hide LookUp, Search, Derived, Executable, FollowModeName;
    HitMeans(w, m, c, p);
    SearchTarget(w, m, p.signature, p.mode, p.prologue);
    HitSiteIsGood(w, m, c, p);
  }

  lemma HitSiteIsGood(w: World, m: Module, c: Catalog, p: Spec)
    requires ValidModule(m) && LookUp(w, m, c, p).Hit?
    ensures LookUp(w, m, c, p).resolution.site < ADDRESS_BAD
  {
    hide Derived, Executable, FollowModeName;
  }

  /** A hit on an entry that a cold pass wrote is what the cold path would find,
      even for another pattern of the same symbol. */
  lemma HitIsCold(w: World, m: Module, c: Catalog, p: Spec)
    requires w.Valid() && ValidModule(m)
    requires forall l :: l in c.locators ==> FromCold(w, m, l)
    requires LookUp(w, m, c, p).Hit?
    ensures LookUp(w, m, c, p).resolution == Cold(w, m, p)
  {
    hide Cold, LookUp, StandsBy, FromCold;
    HitMeans(w, m, c, p);
    EntryIsCold(w, m, p, PatternCache.Entry(c.locators, p.symbol).value);
  }

  lemma {:induction false} PassLength(w: World, m: Module, catalog: Option<Catalog>,
                                      remote: Option<RemoteCatalog>, ps: seq<Spec>)
    ensures |Pass(w, m, catalog, remote, ps).0| == |ps|
    decreases |ps|
  {
    if ps != [] {
      PassLength(w, m, FindSpec(w, m, catalog, remote, ps[0]).1, remote, ps[1..]);
    }
  }

  lemma FindAgrees(w: World, m: Module, catalog: Option<Catalog>, p: Spec)
    requires w.Valid() && ValidModule(m)
    requires catalog.Some? ==> forall l :: l in catalog.value.locators ==> FromCold(w, m, l)
    ensures var (r, next) := FindSpec(w, m, catalog, None, p);
      r == Cold(w, m, p) && (next == catalog || next == None)
  {
    hide Cold, LookUp, FromCold;
    if catalog.Some? && LookUp(w, m, catalog.value, p).Hit? {
      HitIsCold(w, m, catalog.value, p);
    }
  }

  lemma {:induction false} PassAgrees(w: World, m: Module, catalog: Option<Catalog>, ps: seq<Spec>)
    requires w.Valid() && ValidModule(m)
    requires catalog.Some? ==> forall l :: l in catalog.value.locators ==> FromCold(w, m, l)
    ensures Pass(w, m, catalog, None, ps).0 == ColdPass(w, m, ps)
    decreases |ps|
  {
    hide FindSpec, Cold;
    if ps != [] {
      var (r, next) := FindSpec(w, m, catalog, None, ps[0]);
      FindAgrees(w, m, catalog, ps[0]);
      PassAgrees(w, m, next, ps[1..]);
      assert ColdPass(w, m, ps) == [Cold(w, m, ps[0])] + ColdPass(w, m, ps[1..]);
    }
  }

  /** A resolution has no address, or one that is executable memory of the module. */
  predicate Safe(w: World, m: Module, r: Resolution) {
    r.address == ADDRESS_BAD || (m.Contains(r.address) && Executable(w, r.address))
  }

  lemma FindIsSafe(w: World, m: Module, catalog: Option<Catalog>, remote: Option<RemoteCatalog>, p: Spec)
    ensures Safe(w, m, FindSpec(w, m, catalog, remote, p).0)
  {
    hide Executable, Search, SiteStands, FollowStands, FollowModeName;
  }

  /** Whatever the two catalogs hold, no pattern of a pass resolves to anything but
      executable memory of the module. */
  lemma {:induction false} PassIsSafe(w: World, m: Module, catalog: Option<Catalog>,
                                      remote: Option<RemoteCatalog>, ps: seq<Spec>)
    ensures forall r :: r in Pass(w, m, catalog, remote, ps).0 ==> Safe(w, m, r)
    decreases |ps|
  {
    hide FindSpec, Safe;
    if ps != [] {
      FindIsSafe(w, m, catalog, remote, ps[0]);
      PassIsSafe(w, m, FindSpec(w, m, catalog, remote, ps[0]).1, remote, ps[1..]);
    }
  }

  lemma StoredLoads(m: Module, id: PatternCache.ModuleIdentity, ps: seq<Spec>, rs: seq<Resolution>)
    requires |ps| == |rs| && ValidModule(m)
    ensures var loaded := Load(Stored(m, id, ps, rs), id, ps);
      loaded.Some? ==> loaded == BuildCatalog(m, id, ps, rs)
  {
    var body := Stored(m, id, ps, rs);
    if PatternCache.Parse(body).Some? {
      var c := BuildCatalog(m, id, ps, rs).value;
      PatternCache.ParsedIsValid(body);
      PatternCache.SerializedReadsBack(c);
    }
  }

  /** Without a remote catalog, a start on the file of a cold start resolves every
      pattern as the scan does. */
  lemma StoredAgreesWithCold(w: World, m: Module, id: PatternCache.ModuleIdentity, ps: seq<Spec>)
    requires w.Valid() && ValidModule(m)
    ensures var cold := ColdPass(w, m, ps);
      Pass(w, m, Load(Stored(m, id, ps, cold), id, ps), None, ps).0 == cold
  {
    var cold := ColdPass(w, m, ps);
    var loaded := Load(Stored(m, id, ps, cold), id, ps);
    StoredLoads(m, id, ps, cold);
    if loaded.Some? {
      BuiltFromCold(w, m, ps, cold);
    }
    PassAgrees(w, m, loaded, ps);
  }

  lemma StartLength(w: World, m: Module, id: PatternCache.ModuleIdentity, ps: seq<Spec>,
                    remote: Option<RemoteCatalog>, file: string)
    ensures |Start(w, m, id, ps, remote, file).0| == |ps|
  {
    var local := Load(file, id, ps);
    PassLength(w, m, local, RemoteFor(local, remote), ps);
  }

  /** The file after `n` starts that began without one. */
  function FileOf(w: World, m: Module, id: PatternCache.ModuleIdentity, ps: seq<Spec>,
                  remote: Option<RemoteCatalog>, n: nat): string
    requires ValidModule(m)
  {
    if n == 0 then ""
    else
      var file := FileOf(w, m, id, ps, remote, n - 1);
      StartLength(w, m, id, ps, remote, file);
      FileAfter(m, id, ps, remote, file, Start(w, m, id, ps, remote, file))
  }

  /** A file is none at all, or the one a cold start without remote catalog writes. */
  predicate IsColdFile(w: World, m: Module, id: PatternCache.ModuleIdentity, ps: seq<Spec>,
                       remote: Option<RemoteCatalog>, file: string)
    requires ValidModule(m)
  {
    file == "" || (remote == None && file == Stored(m, id, ps, ColdPass(w, m, ps)))
  }

  lemma {:induction false} FilesAreCold(w: World, m: Module, id: PatternCache.ModuleIdentity, ps: seq<Spec>,
                                        remote: Option<RemoteCatalog>, n: nat)
    requires w.Valid() && ValidModule(m)
    ensures IsColdFile(w, m, id, ps, remote, FileOf(w, m, id, ps, remote, n))
  {
    hide Start, FileAfter, Stored, ColdPass;
    if n > 0 {
      var file := FileOf(w, m, id, ps, remote, n - 1);
      var outcome := Start(w, m, id, ps, remote, file);
      FilesAreCold(w, m, id, ps, remote, n - 1);
      StartLength(w, m, id, ps, remote, file);
      NextFileIsCold(w, m, id, ps, remote, file, outcome);
    }
  }

  lemma NextFileIsCold(w: World, m: Module, id: PatternCache.ModuleIdentity, ps: seq<Spec>,
                       remote: Option<RemoteCatalog>, file: string, outcome: (seq<Resolution>, Option<Catalog>))
    requires w.Valid() && ValidModule(m) && IsColdFile(w, m, id, ps, remote, file)
    requires |outcome.0| == |ps| && outcome == Start(w, m, id, ps, remote, file)
    ensures IsColdFile(w, m, id, ps, remote, FileAfter(m, id, ps, remote, file, outcome))
  {
    if remote == None {
      StartIsCold(w, m, id, ps, file);
      NextFile(m, id, ps, remote, file, outcome, ColdPass(w, m, ps));
    } else {
      EmptyFileLoadsNothing(id, ps);
    }
  }

  lemma EmptyFileLoadsNothing(id: PatternCache.ModuleIdentity, ps: seq<Spec>)
    ensures Load("", id, ps) == None
  {
  }

  lemma NextFile(m: Module, id: PatternCache.ModuleIdentity, ps: seq<Spec>, remote: Option<RemoteCatalog>, file: string,
                 outcome: (seq<Resolution>, Option<Catalog>), cold: seq<Resolution>)
    requires ValidModule(m) && |outcome.0| == |ps| && outcome.0 == cold
    ensures var next := FileAfter(m, id, ps, remote, file, outcome);
      next == file || next == Stored(m, id, ps, cold)
  {
  }

  lemma StartIsCold(w: World, m: Module, id: PatternCache.ModuleIdentity, ps: seq<Spec>, file: string)
    requires w.Valid() && ValidModule(m)
    requires file == "" || file == Stored(m, id, ps, ColdPass(w, m, ps))
    ensures Start(w, m, id, ps, None, file).0 == ColdPass(w, m, ps)
  {
    if file == "" {
      PassAgrees(w, m, None, ps);
    } else {
      StoredAgreesWithCold(w, m, id, ps);
    }
  }

  /** Warm start agrees with cold start: over the same memory and with the same
      compiled patterns and remote catalog, every later start resolves every
      pattern to the same address and the same site as the first, whether by a
      hit, by the remote catalog, or by rejecting an entry and scanning, and
      whether or not a start in between wrote the file anew. */
  lemma WarmAgreesWithCold(w: World, m: Module, id: PatternCache.ModuleIdentity, ps: seq<Spec>,
                           remote: Option<RemoteCatalog>, n: nat)
    requires w.Valid() && ValidModule(m)
    ensures Start(w, m, id, ps, remote, FileOf(w, m, id, ps, remote, n)).0 == Start(w, m, id, ps, remote, "").0
  {
    var file := FileOf(w, m, id, ps, remote, n);
    FilesAreCold(w, m, id, ps, remote, n);
    if file != "" {
      StartIsCold(w, m, id, ps, file);
      StartIsCold(w, m, id, ps, "");
    }
  }

  // ------------------------------------------------------ when the catalog serves

  /** The strict decoder reads the signature as the scanner does, and its site
      has room for it inside the module. */
  predicate SignatureServes(m: Module, p: Spec, r: Resolution)
    requires ValidModule(m) && Located(m, r)
  {
    var strict := Signatures.ParseSignature(p.signature);
    && strict.Some?
    && Signatures.DoubleWildcards(p.signature) == 0
    && |strict.value| <= m.End() - r.site
  }

  lemma SearchSiteIsHit(w: World, m: Module, p: Spec)
    requires w.Valid() && Search(w, m, p.signature, p.mode, p.prologue).site != ADDRESS_BAD
    ensures var hits := AllHits(w, m, Signatures.PatternToBytes(p.signature));
      hits != [] && Search(w, m, p.signature, p.mode, p.prologue).site == hits[0]
  {
  }

  lemma ColdSiteStands(w: World, m: Module, p: Spec, r: Resolution)
    requires w.Valid() && ValidModule(m)
    requires r == Cold(w, m, p) && Resolved(r) && Located(m, r) && SignatureServes(m, p, r)
    ensures SiteStands(w, m, p.signature, r.site - m.base)
  {
    ColdMeans(w, m, p);
    SearchSiteIsHit(w, m, p);
    HitIsExecutable(w, m, Signatures.PatternToBytes(p.signature), 0);
    Signatures.DecodersAgree(p.signature);
  }

  lemma ColdFollows(w: World, m: Module, p: Spec, r: Resolution)
    requires w.Valid() && r == Cold(w, m, p) && Resolved(r)
    ensures Executable(w, r.address) && Derived(w, m, p.mode, p.prologue, r.site) == r.address
  {
    SearchTarget(w, m, p.signature, p.mode, p.prologue);
  }

  /** On unchanged memory a pattern whose cold resolution was recorded is served
      from the catalog: no scan, no rejection. */
  lemma RecordedIsHit(w: World, m: Module, c: Catalog, p: Spec, r: Resolution)
    requires w.Valid() && ValidModule(m)
    requires r == Cold(w, m, p) && Resolved(r) && Located(m, r) && SignatureServes(m, p, r)
    requires PatternCache.Entry(c.locators, p.symbol) == Some(LocatorOf(m, p, r))
    ensures LookUp(w, m, c, p) == Hit(r)
  {
    ColdFollows(w, m, p, r);
    ColdSiteStands(w, m, p, r);
    EntryServes(w, m, c, p, r);
  }

  lemma EntryServes(w: World, m: Module, c: Catalog, p: Spec, r: Resolution)
    requires ValidModule(m) && Located(m, r) && Executable(w, r.address)
    requires SiteStands(w, m, p.signature, r.site - m.base)
    requires Derived(w, m, p.mode, p.prologue, r.site) == r.address
    requires PatternCache.Entry(c.locators, p.symbol) == Some(LocatorOf(m, p, r))
    ensures LookUp(w, m, c, p) == Hit(r)
  {
    OwnEntryStands(w, m, p, r);
  }

  lemma OwnEntryStands(w: World, m: Module, p: Spec, r: Resolution)
    requires ValidModule(m) && Located(m, r) && Executable(w, r.address)
    requires SiteStands(w, m, p.signature, r.site - m.base)
    requires Derived(w, m, p.mode, p.prologue, r.site) == r.address
    ensures var l := LocatorOf(m, p, r);
      && EntryStands(w, m, p, l)
      && FollowStands(m, l, Derived(w, m, p.mode, p.prologue, m.base + l.matchRva))
      && Resolution(m.base + l.targetRva, m.base + l.matchRva) == r
  {
    hide SiteStands;
    assert m.base + (r.address - m.base) == r.address && m.base + (r.site - m.base) == r.site;
  }

  lemma StandingSite(w: World, m: Module, p: Spec, l: PatternCache.Locator)
    requires EntryStands(w, m, p, l)
    ensures FindSegment(w.segments, m.base + l.matchRva).Some?
         && FindSegment(w.segments, m.base + l.matchRva).value.executable
  {
  }

  lemma {:induction false} EntryOfUnique(locators: seq<PatternCache.Locator>, i: nat)
    requires i < |locators| && PatternCache.UniqueSymbols(locators)
    ensures PatternCache.Entry(locators, locators[i].symbol) == Some(locators[i])
  {
    if i > 0 {
      EntryOfUnique(locators[1..], i - 1);
    }
  }

  lemma {:induction false} BuiltHasResolved(m: Module, ps: seq<Spec>, rs: seq<Resolution>, i: nat)
    requires ValidModule(m) && |ps| == |rs| && i < |ps|
    requires BuildLocators(m, ps, rs).Some? && Resolved(rs[i])
    ensures Located(m, rs[i]) && LocatorOf(m, ps[i], rs[i]) in BuildLocators(m, ps, rs).value
  {
    if i > 0 {
      BuiltHasResolved(m, ps[1..], rs[1..], i - 1);
    }
  }

  lemma LocatorDescribes(m: Module, p: Spec, r: Resolution)
    requires ValidModule(m)
    ensures Located(m, r) ==> Describes(p, LocatorOf(m, p, r))
  {
  }

  predicate DistinctSymbols(ps: seq<Spec>) {
    forall i, j :: 0 <= i < j < |ps| ==> ps[i].symbol != ps[j].symbol
  }

  /** Every locator of a pass is the locator of some pattern, and every required
      pattern has one. */
  lemma {:induction false} BuiltCorresponds(m: Module, ps: seq<Spec>, rs: seq<Resolution>)
    requires ValidModule(m) && |ps| == |rs| && BuildLocators(m, ps, rs).Some?
    ensures var ls := BuildLocators(m, ps, rs).value;
      && |ls| <= |ps|
      && (forall l :: l in ls ==> exists i :: 0 <= i < |ps| && Describes(ps[i], l))
      && (forall i :: 0 <= i < |ps| && !ps[i].optional ==> exists l :: l in ls && Describes(ps[i], l))
  {
    hide Describes, LocatorOf, Located, Resolved;
    if ps != [] {
      LocatorDescribes(m, ps[0], rs[0]);
      BuiltCorresponds(m, ps[1..], rs[1..]);
      var ls, rest := BuildLocators(m, ps, rs).value, BuildLocators(m, ps[1..], rs[1..]).value;
      forall l | l in ls ensures exists i :: 0 <= i < |ps| && Describes(ps[i], l) {
        if l in rest {
          var i :| 0 <= i < |ps| - 1 && Describes(ps[1..][i], l);
          assert Describes(ps[i + 1], l);
        } else {
          assert Describes(ps[0], l);
        }
      }
      forall i | 0 <= i < |ps| && !ps[i].optional ensures exists l :: l in ls && Describes(ps[i], l) {
        if i == 0 {
          assert ls[0] in ls && Describes(ps[0], ls[0]);
        } else {
          var l :| l in rest && Describes(ps[1..][i - 1], l);
          assert l in ls;
        }
      }
    }
  }

  predicate Describes(p: Spec, l: PatternCache.Locator) {
    && l.symbol == p.symbol && l.required == !p.optional
    && l.signature == p.signature && l.followMode == FollowModeName(p.mode)
  }

  lemma {:induction false} CompiledEntryOf(compiled: seq<PatternCache.CompiledLocator>, i: nat)
    requires i < |compiled|
    requires forall j, k :: 0 <= j < k < |compiled| ==> compiled[j].symbol != compiled[k].symbol
    ensures PatternCache.CompiledEntry(compiled, compiled[i].symbol) == Some(compiled[i])
  {
    if i > 0 {
      CompiledEntryOf(compiled[1..], i - 1);
    }
  }

  /** A start admits a catalog exactly when it parses, was written for this very module
      file, and agrees with what is compiled in: every locator describes one of the
      patterns, and no required pattern is missing. */
  lemma LoadedExactly(body: string, id: PatternCache.ModuleIdentity, ps: seq<Spec>)
    requires DistinctSymbols(ps)
    ensures var parsed := PatternCache.Parse(body);
      && (Load(body, id, ps).Some? ==> Load(body, id, ps) == parsed)
      && (Load(body, id, ps).Some?
          <==> && parsed.Some? && parsed.value.identity == id && |parsed.value.locators| <= |ps|
               && (forall l :: l in parsed.value.locators ==> exists i :: 0 <= i < |ps| && Describes(ps[i], l))
               && (forall i :: 0 <= i < |ps| && !ps[i].optional ==>
                     exists l :: l in parsed.value.locators && l.symbol == ps[i].symbol))
  {
    hide PatternCache.Parse, PatternCache.ValidShape, FollowModeName;
    if PatternCache.Parse(body).Some? {
      var c := PatternCache.Parse(body).value;
      PatternCache.ParsedIsValid(body);
      PolicyExactly(c, ps);
    }
  }

  lemma PolicyExactly(c: Catalog, ps: seq<Spec>)
    requires DistinctSymbols(ps) && PatternCache.ValidShape(c)
    ensures PatternCache.PolicyMatches(c, CompiledPolicy(ps))
       <==> && |c.locators| <= |ps|
            && (forall l :: l in c.locators ==> exists i :: 0 <= i < |ps| && Describes(ps[i], l))
            && (forall i :: 0 <= i < |ps| && !ps[i].optional ==>
                  exists l :: l in c.locators && l.symbol == ps[i].symbol)
  {
    hide PatternCache.ValidShape, PatternCache.Entry, PatternCache.CompiledEntry, FollowModeName;
    var compiled := CompiledPolicy(ps);
    if PatternCache.PolicyMatches(c, compiled) {
      forall l | l in c.locators ensures exists i :: 0 <= i < |ps| && Describes(ps[i], l) {
        var k :| 0 <= k < |c.locators| && c.locators[k] == l;
        var entry := PatternCache.CompiledEntry(compiled, l.symbol).value;
        var i :| 0 <= i < |compiled| && compiled[i] == entry;
        assert Describes(ps[i], l);
      }
      forall i | 0 <= i < |ps| && !ps[i].optional ensures exists l :: l in c.locators && l.symbol == ps[i].symbol {
        assert compiled[i].required;
        var l := PatternCache.Entry(c.locators, compiled[i].symbol).value;
        assert l in c.locators;
      }
    }
    if |c.locators| <= |ps|
       && (forall l :: l in c.locators ==> exists i :: 0 <= i < |ps| && Describes(ps[i], l))
       && (forall i :: 0 <= i < |ps| && !ps[i].optional ==> exists l :: l in c.locators && l.symbol == ps[i].symbol) {
      DescribedMatchesPolicy(c, ps);
    }
  }

  lemma DescribedMatchesPolicy(c: Catalog, ps: seq<Spec>)
    requires DistinctSymbols(ps) && PatternCache.ValidShape(c) && |c.locators| <= |ps|
    requires forall l :: l in c.locators ==> exists i :: 0 <= i < |ps| && Describes(ps[i], l)
    requires forall i :: 0 <= i < |ps| && !ps[i].optional ==> exists l :: l in c.locators && l.symbol == ps[i].symbol
    ensures PatternCache.PolicyMatches(c, CompiledPolicy(ps))
  {
    hide PatternCache.ValidShape, PatternCache.Entry, PatternCache.CompiledEntry, FollowModeName;
    var compiled := CompiledPolicy(ps);
    forall k | 0 <= k < |c.locators|
      ensures var entry := PatternCache.CompiledEntry(compiled, c.locators[k].symbol);
        entry.Some? && entry.value.required == c.locators[k].required
        && entry.value.signature == c.locators[k].signature && entry.value.followMode == c.locators[k].followMode
    {
      assert c.locators[k] in c.locators;
      var i :| 0 <= i < |ps| && Describes(ps[i], c.locators[k]);
      CompiledEntryOf(compiled, i);
    }
    forall i | 0 <= i < |compiled| && compiled[i].required
      ensures PatternCache.Entry(c.locators, compiled[i].symbol).Some?
    {
      var l :| l in c.locators && l.symbol == ps[i].symbol;
    }
  }

  /** What a pass stores agrees with the policy it was compiled from. */
  lemma BuiltMatchesPolicy(m: Module, id: PatternCache.ModuleIdentity, ps: seq<Spec>, rs: seq<Resolution>)
    requires ValidModule(m) && |ps| == |rs| && DistinctSymbols(ps)
    requires BuildCatalog(m, id, ps, rs).Some? && PatternCache.ValidShape(BuildCatalog(m, id, ps, rs).value)
    ensures PatternCache.PolicyMatches(BuildCatalog(m, id, ps, rs).value, CompiledPolicy(ps))
  {
    hide BuildLocators, PatternCache.ValidShape, PatternCache.PolicyMatches, FollowModeName;
    BuiltCorresponds(m, ps, rs);
    var c := BuildCatalog(m, id, ps, rs).value;
    forall i | 0 <= i < |ps| && !ps[i].optional ensures exists l :: l in c.locators && l.symbol == ps[i].symbol {
      var l :| l in c.locators && Describes(ps[i], l);
    }
    DescribedMatchesPolicy(c, ps);
  }

  /** A file that a pass wrote is admitted by the next start exactly when the
      module's nanoseconds are in range. */
  lemma StoredIsAdmitted(m: Module, id: PatternCache.ModuleIdentity, ps: seq<Spec>, rs: seq<Resolution>)
    requires ValidModule(m) && |ps| == |rs| && DistinctSymbols(ps)
    requires Stored(m, id, ps, rs) != ""
    ensures Load(Stored(m, id, ps, rs), id, ps).Some? <==> 0 <= id.mtimeNanoseconds < 1_000_000_000
  {
    var c := BuildCatalog(m, id, ps, rs).value;
    PatternCache.SerializedReadsBack(c);
    BuiltMatchesPolicy(m, id, ps, rs);
    if PatternCache.Parse(Stored(m, id, ps, rs)).Some? {
      PatternCache.ParsedIsValid(Stored(m, id, ps, rs));
    }
  }

  /** After a cold start that wrote its catalog, every resolved pattern that the
      catalog can represent is a hit on the next start. */
  lemma WarmStartHits(w: World, m: Module, id: PatternCache.ModuleIdentity, ps: seq<Spec>, i: nat)
    requires w.Valid() && ValidModule(m) && i < |ps| && DistinctSymbols(ps)
    requires Stored(m, id, ps, ColdPass(w, m, ps)) != "" && 0 <= id.mtimeNanoseconds < 1_000_000_000
    requires var r := Cold(w, m, ps[i]); Resolved(r) && (Located(m, r) ==> SignatureServes(m, ps[i], r))
    ensures var loaded := Load(Stored(m, id, ps, ColdPass(w, m, ps)), id, ps);
      loaded.Some? && LookUp(w, m, loaded.value, ps[i]) == Hit(Cold(w, m, ps[i]))
  {
    var cold := ColdPass(w, m, ps);
    StoredIsAdmitted(m, id, ps, cold);
    var c := Load(Stored(m, id, ps, cold), id, ps).value;
    StoredLoads(m, id, ps, cold);
    BuiltHasResolved(m, ps, cold, i);
    var k :| 0 <= k < |c.locators| && c.locators[k] == LocatorOf(m, ps[i], cold[i]);
    EntryOfUnique(c.locators, k);
    RecordedIsHit(w, m, c, ps[i], cold[i]);
  }

  /** A pass keeps its catalog exactly when no lookup of it rejects an entry. */
  lemma {:induction false} KeptExactly(w: World, m: Module, c: Catalog, remote: Option<RemoteCatalog>, ps: seq<Spec>)
    ensures Pass(w, m, Some(c), remote, ps).1 == Some(c)
       <==> forall i :: 0 <= i < |ps| ==> !LookUp(w, m, c, ps[i]).Reject?
    decreases |ps|
  {
    hide LookUp, Unserved;
    if ps != [] {
      if LookUp(w, m, c, ps[0]).Reject? {
        NothingComesBack(w, m, remote, ps[1..]);
      } else {
        KeptExactly(w, m, c, remote, ps[1..]);
        assert forall i :: 1 <= i < |ps| ==> ps[i] == ps[1..][i - 1];
      }
    }
  }

  lemma {:induction false} NothingComesBack(w: World, m: Module, remote: Option<RemoteCatalog>, ps: seq<Spec>)
    ensures Pass(w, m, None, remote, ps).1 == None
    decreases |ps|
  {
    hide Unserved;
    if ps != [] {
      NothingComesBack(w, m, remote, ps[1..]);
    }
  }

  /** A pattern that a pass could not resolve has no locator, and if the pass could be
      stored it is optional. */
  lemma {:induction false} UnresolvedIsMissing(m: Module, ps: seq<Spec>, rs: seq<Resolution>, i: nat)
    requires ValidModule(m) && |ps| == |rs| && i < |ps| && DistinctSymbols(ps)
    requires BuildLocators(m, ps, rs).Some? && !Resolved(rs[i])
    ensures ps[i].optional && forall l :: l in BuildLocators(m, ps, rs).value ==> l.symbol != ps[i].symbol
  {
    hide Resolved, Located;
    if i > 0 {
      UnresolvedIsMissing(m, ps[1..], rs[1..], i - 1);
    } else {
      BuiltAreOthers(m, ps[1..], rs[1..], ps[0].symbol);
    }
  }

  lemma {:induction false} BuiltAreOthers(m: Module, ps: seq<Spec>, rs: seq<Resolution>, symbol: string)
    requires ValidModule(m) && |ps| == |rs| && (forall i :: 0 <= i < |ps| ==> ps[i].symbol != symbol)
    ensures BuildLocators(m, ps, rs).Some? ==> forall l :: l in BuildLocators(m, ps, rs).value ==> l.symbol != symbol
  {
    hide Resolved, Located;
    if ps != [] {
      BuiltAreOthers(m, ps[1..], rs[1..], symbol);
    }
  }

  /** What a pass finds: up to the first rejection what the catalog serves, and the
      remote catalog or the scan for everything else. */
  lemma {:induction false} OutcomeExactly(w: World, m: Module, c: Catalog, remote: Option<RemoteCatalog>,
                                          ps: seq<Spec>, i: nat)
    requires i < |ps|
    ensures |Pass(w, m, Some(c), remote, ps).0| == |ps|
    ensures Pass(w, m, Some(c), remote, ps).0[i] ==
      if LookUp(w, m, c, ps[i]).Hit? && forall j :: 0 <= j < i ==> !LookUp(w, m, c, ps[j]).Reject?
      then LookUp(w, m, c, ps[i]).resolution else Unserved(w, m, remote, ps[i])
    decreases |ps|
  {
    hide LookUp, Unserved;
    PassLength(w, m, Some(c), remote, ps);
    if i > 0 {
      var rest := ps[1..];
      if LookUp(w, m, c, ps[0]).Reject? {
        UnservedAfterAll(w, m, remote, rest, i - 1);
      } else {
        OutcomeExactly(w, m, c, remote, rest, i - 1);
        assert forall j :: 1 <= j < i ==> ps[j] == rest[j - 1];
        assert forall j :: 0 <= j < i - 1 ==> rest[j] == ps[j + 1];
      }
    }
  }

  lemma {:induction false} UnservedAfterAll(w: World, m: Module, remote: Option<RemoteCatalog>, ps: seq<Spec>, i: nat)
    requires i < |ps|
    ensures |Pass(w, m, None, remote, ps).0| == |ps|
    ensures Pass(w, m, None, remote, ps).0[i] == Unserved(w, m, remote, ps[i])
    decreases |ps|
  {
    hide Unserved;
    PassLength(w, m, None, remote, ps);
    if i > 0 {
      UnservedAfterAll(w, m, remote, ps[1..], i - 1);
    }
  }

  /** How many patterns of a pass have both an address and a site. */
  function Recordable(rs: seq<Resolution>): nat {
    if rs == [] then 0
    else (if rs[0].address != ADDRESS_BAD && rs[0].site != ADDRESS_BAD then 1 else 0) + Recordable(rs[1..])
  }

  /** A pass is recorded exactly when every pattern with an address and a site has both
      in the module, every other pattern is optional, and not all are such; the catalog
      then has the former in the order of the registry. */
  lemma BuiltExactly(m: Module, id: PatternCache.ModuleIdentity, ps: seq<Spec>, rs: seq<Resolution>)
    requires ValidModule(m) && |ps| == |rs|
    ensures var built := BuildCatalog(m, id, ps, rs);
      && (built.Some? <==>
            && (exists i :: 0 <= i < |rs| && rs[i].address != ADDRESS_BAD && rs[i].site != ADDRESS_BAD)
            && forall i :: 0 <= i < |rs| ==>
                 if rs[i].address != ADDRESS_BAD && rs[i].site != ADDRESS_BAD
                 then m.base <= rs[i].address < m.base + m.size && m.base <= rs[i].site < m.base + m.size
                 else ps[i].optional)
      && (built.Some? ==>
            && built.value.identity == id && |built.value.locators| == Recordable(rs)
            && forall i :: 0 <= i < |rs| && rs[i].address != ADDRESS_BAD && rs[i].site != ADDRESS_BAD ==>
                 && Recordable(rs[..i]) < Recordable(rs)
                 && built.value.locators[Recordable(rs[..i])]
                    == PatternCache.Locator(ps[i].symbol, rs[i].address - m.base, rs[i].site - m.base,
                                            ps[i].signature, FollowModeName(ps[i].mode), !ps[i].optional))
  {
    hide BuildLocators, Recordable;
    LocatorsExactly(m, ps, rs);
    forall i | 0 <= i < |rs| && BuildLocators(m, ps, rs).Some? && Resolved(rs[i])
      ensures Recordable(rs[..i]) < Recordable(rs) && Located(m, rs[i])
      ensures BuildLocators(m, ps, rs).value[Recordable(rs[..i])] == LocatorOf(m, ps[i], rs[i])
    {
      LocatorAt(m, ps, rs, i);
    }
  }

  lemma {:induction false} LocatorsExactly(m: Module, ps: seq<Spec>, rs: seq<Resolution>)
    requires ValidModule(m) && |ps| == |rs|
    ensures BuildLocators(m, ps, rs).Some?
       <==> forall i :: 0 <= i < |rs| ==> if Resolved(rs[i]) then Located(m, rs[i]) else ps[i].optional
    ensures BuildLocators(m, ps, rs).Some? ==> |BuildLocators(m, ps, rs).value| == Recordable(rs)
    ensures Recordable(rs) > 0 <==> exists i :: 0 <= i < |rs| && Resolved(rs[i])
  {
    hide Located;
    if rs != [] {
      LocatorsExactly(m, ps[1..], rs[1..]);
      assert forall i :: 1 <= i < |rs| ==> rs[i] == rs[1..][i - 1] && ps[i] == ps[1..][i - 1];
      assert forall i :: 0 <= i < |rs| - 1 ==> rs[1..][i] == rs[i + 1] && ps[1..][i] == ps[i + 1];
    }
  }

  lemma {:induction false} LocatorAt(m: Module, ps: seq<Spec>, rs: seq<Resolution>, i: nat)
    requires ValidModule(m) && |ps| == |rs| && i < |rs| && BuildLocators(m, ps, rs).Some? && Resolved(rs[i])
    ensures Located(m, rs[i]) && Recordable(rs[..i]) < |BuildLocators(m, ps, rs).value|
    ensures BuildLocators(m, ps, rs).value[Recordable(rs[..i])] == LocatorOf(m, ps[i], rs[i])
  {
    hide Located, LocatorOf;
    if i > 0 {
      LocatorAt(m, ps[1..], rs[1..], i - 1);
      assert rs[..i][1..] == rs[1..][..i - 1];
    }
  }

  /** A start writes its own catalog exactly when there is one to write and either it
      admitted no file and has no remote catalog, or it rejected an entry of its file;
      in every other case the file stays. */
  lemma FileAfterExactly(w: World, m: Module, id: PatternCache.ModuleIdentity, ps: seq<Spec>,
                         remote: Option<RemoteCatalog>, file: string)
    requires ValidModule(m)
    ensures var loaded, outcome := Load(file, id, ps), Start(w, m, id, ps, remote, file);
      && |outcome.0| == |ps|
      && var body := Stored(m, id, ps, outcome.0);
         FileAfter(m, id, ps, remote, file, outcome) ==
           if body != "" && (if loaded.None? then remote.None?
                             else exists i :: 0 <= i < |ps| && LookUp(w, m, loaded.value, ps[i]).Reject?)
           then body else file
  {
    hide LookUp, Stored, Load, Pass;
    var loaded := Load(file, id, ps);
    PassLength(w, m, loaded, RemoteFor(loaded, remote), ps);
    if loaded.None? {
      NothingComesBack(w, m, remote, ps);
    } else {
      KeptExactly(w, m, loaded.value, None, ps);
      KeptOrLost(w, m, loaded.value, None, ps);
    }
  }

  lemma {:induction false} KeptOrLost(w: World, m: Module, c: Catalog, remote: Option<RemoteCatalog>, ps: seq<Spec>)
    ensures Pass(w, m, Some(c), remote, ps).1 == Some(c) || Pass(w, m, Some(c), remote, ps).1 == None
    decreases |ps|
  {
    hide LookUp, Unserved;
    if ps != [] {
      NothingComesBack(w, m, remote, ps[1..]);
      KeptOrLost(w, m, c, remote, ps[1..]);
    }
  }

  /** What the strict decoder reads as the scanner does. */
  predicate ReadAlike(w: World, m: Module, ps: seq<Spec>)
    requires ValidModule(m)
  {
    forall i :: 0 <= i < |ps| ==>
      var r := Cold(w, m, ps[i]);
      Resolved(r) && Located(m, r) ==> SignatureServes(m, ps[i], r)
  }

  /** After a cold start that wrote its file, the next start keeps the catalog to the
      end: every pattern that was resolved is served by a hit, no other one costs the
      catalog its trust, and the file stays as it is. */
  lemma WarmStartKeepsCatalog(w: World, m: Module, id: PatternCache.ModuleIdentity, ps: seq<Spec>,
                              remote: Option<RemoteCatalog>)
    requires w.Valid() && ValidModule(m) && DistinctSymbols(ps) && ReadAlike(w, m, ps)
    requires Stored(m, id, ps, ColdPass(w, m, ps)) != "" && 0 <= id.mtimeNanoseconds < 1_000_000_000
    ensures var file := Stored(m, id, ps, ColdPass(w, m, ps));
            var loaded, outcome := Load(file, id, ps), Start(w, m, id, ps, remote, file);
            && loaded.Some? && outcome == (ColdPass(w, m, ps), loaded)
            && FileAfter(m, id, ps, remote, file, outcome) == file
            && (forall i :: 0 <= i < |ps| ==>
                  && Pass(w, m, loaded, None, ps[..i]).1 == loaded
                  && LookUp(w, m, loaded.value, ps[i])
                     == if Resolved(Cold(w, m, ps[i])) then Hit(Cold(w, m, ps[i])) else Miss)
  {
    hide LookUp, Stored, Load, Cold, Resolved, Located, SignatureServes, Pass;
    var cold := ColdPass(w, m, ps);
    var file := Stored(m, id, ps, cold);
    StoredIsAdmitted(m, id, ps, cold);
    var loaded := Load(file, id, ps);
    forall i | 0 <= i < |ps|
      ensures LookUp(w, m, loaded.value, ps[i]) == if Resolved(Cold(w, m, ps[i])) then Hit(Cold(w, m, ps[i])) else Miss
    {
      if Resolved(Cold(w, m, ps[i])) {
        WarmStartHits(w, m, id, ps, i);
      } else {
        UnresolvedIsMiss(w, m, id, ps, i);
      }
    }
    forall i | 0 <= i <= |ps| ensures Pass(w, m, loaded, None, ps[..i]).1 == loaded {
      KeptExactly(w, m, loaded.value, None, ps[..i]);
    }
    assert ps[..|ps|] == ps;
    StoredAgreesWithCold(w, m, id, ps);
  }

  lemma UnresolvedIsMiss(w: World, m: Module, id: PatternCache.ModuleIdentity, ps: seq<Spec>, i: nat)
    requires w.Valid() && ValidModule(m) && DistinctSymbols(ps) && i < |ps| && !Resolved(Cold(w, m, ps[i]))
    requires Stored(m, id, ps, ColdPass(w, m, ps)) != ""
    requires Load(Stored(m, id, ps, ColdPass(w, m, ps)), id, ps).Some?
    ensures LookUp(w, m, Load(Stored(m, id, ps, ColdPass(w, m, ps)), id, ps).value, ps[i]) == Miss
  {
    hide Load, Cold, Resolved;
    var cold := ColdPass(w, m, ps);
    StoredLoads(m, id, ps, cold);
    UnresolvedIsMissing(m, ps, cold, i);
  }

  /** [from, to) lies in one executable segment. */
  predicate InExecutable(w: World, from: Address, to: nat) {
    exists i :: 0 <= i < |w.segments| && w.segments[i].executable
      && w.segments[i].base <= from < w.segments[i].End() && to <= w.segments[i].End()
  }

  lemma ExecutableExactly(w: World, a: Address, to: nat)
    requires w.Valid()
    ensures var found := FindSegment(w.segments, a);
            found.Some? && found.value.executable && to <= found.value.End() <==> InExecutable(w, a, to)
  {
    var found := FindSegment(w.segments, a);
    if found.Some? {
      var i :| 0 <= i < |w.segments| && w.segments[i] == found.value;
      assert w.segments[i].base <= a < w.segments[i].End();
    }
    if InExecutable(w, a, to) {
      var i :| 0 <= i < |w.segments| && w.segments[i].executable
        && w.segments[i].base <= a < w.segments[i].End() && to <= w.segments[i].End();
      FoundSegmentIsUnique(w, a, i);
    }
  }

  /** The bytes of the strict signature stand at the site, inside the module and one
      executable segment. */
  predicate BytesStand(w: World, m: Module, bytes: PatternScan.Pattern, matchRva: nat) {
    && matchRva < m.size && matchRva + |bytes| <= m.size
    && InExecutable(w, m.base + matchRva, m.base + matchRva + |bytes|)
    && forall k :: 0 <= k < |bytes| ==>
         m.base + matchRva + k in w.mem && (bytes[k] < 0 || w.mem[m.base + matchRva + k] == bytes[k] % 0x100)
  }

  lemma SiteStandsExactly(w: World, m: Module, signature: string, bytes: PatternScan.Pattern, matchRva: nat)
    requires w.Valid() && Signatures.ParseSignature(signature) == Some(bytes)
    ensures SiteStands(w, m, signature, matchRva) <==> BytesStand(w, m, bytes, matchRva)
  {
    hide InExecutable, Signatures.ParseSignature;
    ExecutableExactly(w, m.base + matchRva, m.base + matchRva + |bytes|);
  }

  lemma FollowStandsExactly(m: Module, mode: FollowMode, l: PatternCache.Locator, derived: Address)
    requires ValidModule(m) && l.followMode == FollowModeName(mode) && l.targetRva < m.size
    ensures FollowStands(m, l, derived)
       <==> derived == m.base + l.targetRva && (mode == NoFollow ==> l.targetRva == l.matchRva)
  {
    assert FollowModeName(Relative)[0] == 'R' && FollowModeName(PrologueUpwards)[0] == 'P' && "None"[0] == 'N';
    assert PatternCache.IsFollowMode(FollowModeName(mode));
  }

  lemma {:induction false} EntryOfFirst(locators: seq<PatternCache.Locator>, i: nat, symbol: string)
    requires i < |locators| && locators[i].symbol == symbol && forall j :: 0 <= j < i ==> locators[j].symbol != symbol
    ensures PatternCache.Entry(locators, symbol) == Some(locators[i])
  {
    if i > 0 {
      EntryOfFirst(locators[1..], i - 1, symbol);
    }
  }

  /** A lookup is a hit exactly when the first locator of the symbol was recorded for
      this pattern, its target is executable memory of the module, the bytes of its
      signature still stand at its site, and following the site leads to the target. */
  lemma HitExactly(w: World, m: Module, c: Catalog, p: Spec, i: nat, bytes: PatternScan.Pattern)
    requires w.Valid() && ValidModule(m) && i < |c.locators| && c.locators[i].symbol == p.symbol
    requires forall j :: 0 <= j < i ==> c.locators[j].symbol != p.symbol
    requires Signatures.ParseSignature(c.locators[i].signature) == Some(bytes)
    ensures var l := c.locators[i];
            LookUp(w, m, c, p).Hit? <==>
              && l.required == !p.optional && l.signature == p.signature && l.followMode == FollowModeName(p.mode)
              && l.targetRva < m.size && InExecutable(w, m.base + l.targetRva, m.base + l.targetRva)
              && BytesStand(w, m, bytes, l.matchRva)
              && Derived(w, m, p.mode, p.prologue, m.base + l.matchRva) == m.base + l.targetRva
  {
    hide EntryServesPattern, InExecutable, BytesStand, Derived, FollowModeName, Signatures.ParseSignature;
    EntryOfFirst(c.locators, i, p.symbol);
    ServesExactly(w, m, p, c.locators[i], bytes);
  }

  lemma ServesExactly(w: World, m: Module, p: Spec, l: PatternCache.Locator, bytes: PatternScan.Pattern)
    requires w.Valid() && ValidModule(m) && l.symbol == p.symbol
    requires Signatures.ParseSignature(l.signature) == Some(bytes)
    ensures EntryServesPattern(w, m, p, l) <==>
              && l.required == !p.optional && l.signature == p.signature && l.followMode == FollowModeName(p.mode)
              && l.targetRva < m.size && InExecutable(w, m.base + l.targetRva, m.base + l.targetRva)
              && BytesStand(w, m, bytes, l.matchRva)
              && Derived(w, m, p.mode, p.prologue, m.base + l.matchRva) == m.base + l.targetRva
  {
    hide SiteStands, FollowStands, InExecutable, BytesStand, Derived, FollowModeName, Signatures.ParseSignature;
    ExecutableExactly(w, m.base + l.targetRva, m.base + l.targetRva);
    SiteStandsExactly(w, m, l.signature, bytes, l.matchRva);
    if l.targetRva < m.size && l.followMode == FollowModeName(p.mode) {
      FollowStandsExactly(m, p.mode, l, Derived(w, m, p.mode, p.prologue, m.base + l.matchRva));
      NoFollowStays(w, m, p.prologue, m.base + l.matchRva);
    }
  }

  /** What the remote catalog names is used exactly when its first locator of the symbol
      was made for this pattern and names executable memory of the module; then it is
      the resolution of a pattern that the local catalog does not serve. */
  lemma UnservedExactly(w: World, m: Module, remote: RemoteCatalog, p: Spec, i: nat)
    requires w.Valid() && i < |remote| && remote[i].symbol == p.symbol
    requires forall j :: 0 <= j < i ==> remote[j].symbol != p.symbol
    ensures var l := remote[i];
            Unserved(w, m, Some(remote), p) ==
              if l.required == !p.optional && l.signature == p.signature && l.followMode == FollowModeName(p.mode)
                 && l.targetRva < m.size && InExecutable(w, m.base + l.targetRva, m.base + l.targetRva)
              then Resolution(m.base + l.targetRva, ADDRESS_BAD) else Cold(w, m, p)
  {
    hide Cold, InExecutable, FollowModeName;
    RemoteEntryOfFirst(remote, i, p.symbol);
    ExecutableExactly(w, m.base + remote[i].targetRva, m.base + remote[i].targetRva);
  }

  /** What the remote catalog does not name is scanned for. */
  lemma UnnamedIsScanned(w: World, m: Module, remote: Option<RemoteCatalog>, p: Spec)
    requires remote.Some? ==> forall l :: l in remote.value ==> l.symbol != p.symbol
    ensures Unserved(w, m, remote, p) == Cold(w, m, p)
  {
    hide Cold;
  }

  lemma {:induction false} RemoteEntryOfFirst(remote: RemoteCatalog, i: nat, symbol: string)
    requires i < |remote| && remote[i].symbol == symbol && forall j :: 0 <= j < i ==> remote[j].symbol != symbol
    ensures RemoteEntry(remote, symbol) == Some(remote[i])
  {
    if i > 0 {
      RemoteEntryOfFirst(remote[1..], i - 1, symbol);
    }
  }

  /** A scan resolves a pattern exactly when the search has a target in executable
      memory of the module. */
  lemma ColdExactly(w: World, m: Module, p: Spec)
    requires w.Valid() && ValidModule(m)
    ensures var r := Search(w, m, p.signature, p.mode, p.prologue);
            Cold(w, m, p) ==
              if m.base <= r.target < m.base + m.size && InExecutable(w, r.target, r.target)
              then Resolution(r.target, r.site)
              else Resolution(ADDRESS_BAD, if r.target == ADDRESS_BAD then r.site else ADDRESS_BAD)
  {
    hide Search, InExecutable;
    var r := Search(w, m, p.signature, p.mode, p.prologue);
    ExecutableExactly(w, r.target, r.target);
  }

  /** The names under which a catalog knows the follow modes. */
  lemma ModeNames()
    ensures FollowModeName(NoFollow) == "None" && FollowModeName(Relative) == "Relative"
    ensures FollowModeName(PrologueUpwards) == "PrologueUpwards"
  {
  }

  lemma NoFollowStays(w: World, m: Module, prologue: PatternScan.Pattern, site: Address)
    ensures Derived(w, m, NoFollow, prologue, site) == site
  {
  }

  // ---------------------------------------------------------- implementation

  class LocalCatalogState {
    var catalog: Option<Catalog>
    var writeEligible: bool
    var dirty: bool

    /** A catalog is written exactly when there is none to keep. */
    predicate Valid()
      reads this
    {
      (writeEligible || dirty) == catalog.None?
    }

    constructor (catalog: Option<Catalog>)
      ensures this.catalog == catalog && Valid()
    {
      this.catalog, this.writeEligible, this.dirty := catalog, catalog.None?, false;
    }

    /** A rejected entry discards the catalog and schedules a new one. */
    method Discard()
      modifies this
      ensures catalog == None && writeEligible && dirty
    {
      catalog, writeEligible, dirty := None, true, true;
    }
  }

  class Pattern {
    const spec: Spec
    var address: Address
    var matchAddress: Address

    constructor (spec: Spec)
      ensures this.spec == spec && address == matchAddress == ADDRESS_BAD
    {
      this.spec, address, matchAddress := spec, ADDRESS_BAD, ADDRESS_BAD;
    }

    function Outcome(): Resolution
      reads this
    {
      Resolution(address, matchAddress)
    }

    /** Every check an entry has to pass before it is trusted. */
    method EntryIsTrusted(w: World, m: Module, l: PatternCache.Locator) returns (trusted: bool)
      requires w.Valid() && ValidModule(m)
      ensures trusted <==> EntryServesPattern(w, m, spec, l)
    {
      hide EntryStands, FollowStands, Derived;
      if !EntryStands(w, m, spec, l) {
        return false;
      }
      StandingSite(w, m, spec, l);
      var site := m.base + l.matchRva;
      var derived := Follow(w, m, spec.mode, spec.prologue, site);
      return FollowStands(m, l, derived);
    }

    /** `localCatalogAddress`: the recorded resolution if every check passes. */
    method LocalCatalogAddress(state: LocalCatalogState, w: World, m: Module) returns (found: Option<Resolution>)
      requires w.Valid() && ValidModule(m)
      modifies state
      ensures match old(state.catalog)
        case None => found == None && unchanged(state)
        case Some(c) =>
          match LookUp(w, m, c, spec)
          case Hit(r) => found == Some(r) && unchanged(state)
          case Miss => found == None && unchanged(state)
          case Reject => found == None && state.catalog == None && state.writeEligible && state.dirty
      ensures match old(state.catalog)
        case None => true
        case Some(c) => (forall l :: l in c.locators ==> l.symbol != spec.symbol)
                          ==> found == None && (unchanged(state) <==> spec.optional)
    {
      hide EntryServesPattern;
      if state.catalog == None {
        return None;
      }
      var entry := PatternCache.Entry(state.catalog.value.locators, spec.symbol);
      if entry == None {
        if !spec.optional {
          state.Discard();
        }
        return None;
      }
      var l := entry.value;
      var trusted := EntryIsTrusted(w, m, l);
      if !trusted {
        state.Discard();
        return None;
      }
      return Some(Resolution(m.base + l.targetRva, m.base + l.matchRva));
    }

    /** The remote half of `catalogAddress`. */
    method RemoteCatalogAddress(remote: Option<RemoteCatalog>, w: World, m: Module) returns (found: Option<Address>)
      requires ValidModule(m)
      ensures found == RemoteAddress(w, m, remote, spec)
      ensures found.Some? ==> m.Contains(found.value) && Executable(w, found.value)
    {
      if remote == None {
        return None;
      }
      var entry := RemoteEntry(remote.value, spec.symbol);
      if entry == None || entry.value.required != !spec.optional {
        return None;
      }
      if entry.value.signature != spec.signature || entry.value.followMode != FollowModeName(spec.mode) {
        return None;
      }
      var rva := entry.value.targetRva;
      if rva >= m.size || !Executable(w, m.base + rva) {
        return None;
      }
      return Some(m.base + rva);
    }

    /** `Pattern_t::find`. */
    method Find(state: LocalCatalogState, remote: Option<RemoteCatalog>, w: World, m: Module) returns (resolved: bool)
      requires w.Valid() && ValidModule(m)
      modifies this, state
      ensures (Outcome(), state.catalog) == FindSpec(w, m, old(state.catalog), remote, spec)
      ensures resolved <==> address != ADDRESS_BAD
      ensures resolved ==> m.Contains(address) && Executable(w, address)
    {
      FindIsSafe(w, m, state.catalog, remote, spec);
      matchAddress := ADDRESS_BAD;
      var trusted := LocalCatalogAddress(state, w, m);
      if trusted.Some? {
        address, matchAddress := trusted.value.address, trusted.value.site;
      } else {
        var named := RemoteCatalogAddress(remote, w, m);
        if named.Some? {
          address := named.value;
        } else {
          Scan(w, m);
        }
      }
      resolved := address != ADDRESS_BAD;
    }

    /** The embedded resolver at the end of `find`. */
    method Scan(w: World, m: Module)
      requires w.Valid() && ValidModule(m)
      modifies this
      ensures Outcome() == Cold(w, m, spec)
    {
      var r := SearchSignatureDetailed(w, m, spec.signature, spec.mode, spec.prologue);
      matchAddress, address := r.site, r.target;
      if address != ADDRESS_BAD {
        if !m.Contains(address) || !Executable(w, address) {
          address, matchAddress := ADDRESS_BAD, ADDRESS_BAD;
        }
      }
    }
  }

  function Specs(patterns: seq<Pattern>): seq<Spec> {
    seq(|patterns|, i requires 0 <= i < |patterns| => patterns[i].spec)
  }

  /** One turn of the registry loop. */
  lemma PassStep(w: World, m: Module, catalog: Option<Catalog>, remote: Option<RemoteCatalog>, p: Spec, ps: seq<Spec>,
                 rest: seq<Spec>, pass: seq<Resolution>)
    requires ps != [] && ps[0] == p && ps[1..] == rest && pass == Pass(w, m, catalog, remote, ps).0
    ensures var (r, next) := FindSpec(w, m, catalog, remote, p);
      pass != [] && r == pass[0] && Pass(w, m, next, remote, rest).0 == pass[1..]
  {
    hide FindSpec;
  }

  /** The registry loop of `Patterns::init`: every pattern in order, sharing the
      catalog state. */
  method ResolveRegistry(patterns: seq<Pattern>, state: LocalCatalogState, remote: Option<RemoteCatalog>,
                         w: World, m: Module)
    returns (found: bool)
    requires w.Valid() && ValidModule(m)
    requires forall i, j :: 0 <= i < j < |patterns| ==> patterns[i] != patterns[j]
    modifies state, patterns
    ensures var pass := Pass(w, m, old(state.catalog), remote, Specs(patterns)).0;
      |pass| == |patterns| && forall i :: 0 <= i < |patterns| ==> patterns[i].Outcome() == pass[i]
    ensures forall i :: 0 <= i < |patterns| ==> Safe(w, m, patterns[i].Outcome())
    ensures (found
             <==> forall i :: 0 <= i < |patterns| ==> patterns[i].address != ADDRESS_BAD || patterns[i].spec.optional)
  {
    hide Pass, FindSpec, Safe;
    found := true;
    ghost var specs := Specs(patterns);
    ghost var pass := Pass(w, m, state.catalog, remote, specs).0;
    PassLength(w, m, state.catalog, remote, specs);
    PassIsSafe(w, m, state.catalog, remote, specs);
    var i := 0;
    assert specs[0..] == specs && pass[0..] == pass;
    while i < |patterns|
      invariant 0 <= i <= |patterns|
      invariant forall j :: 0 <= j < i ==> patterns[j].Outcome() == pass[j]
      invariant Pass(w, m, state.catalog, remote, specs[i..]).0 == pass[i..]
      invariant found <==> forall j :: 0 <= j < i ==> patterns[j].address != ADDRESS_BAD || patterns[j].spec.optional
    {
      assert specs[i..][0] == patterns[i].spec && specs[i..][1..] == specs[i + 1..];
      PassStep(w, m, state.catalog, remote, patterns[i].spec, specs[i..], specs[i + 1..], pass[i..]);
      var resolved := patterns[i].Find(state, remote, w, m);
      assert pass[i..][0] == pass[i] && pass[i..][1..] == pass[i + 1..];
      if !resolved && !patterns[i].spec.optional {
        found := false;
      }
      i := i + 1;
    }
  }

  /** `buildLocalCatalog` over a resolved registry. */
  method BuildLocalCatalog(patterns: seq<Pattern>, m: Module, id: PatternCache.ModuleIdentity,
                           ghost rs: seq<Resolution>)
    returns (c: Option<Catalog>)
    requires ValidModule(m)
    requires |rs| == |patterns| && forall i :: 0 <= i < |rs| ==> rs[i] == patterns[i].Outcome()
    ensures c == BuildCatalog(m, id, Specs(patterns), rs)
  {
    var locators: seq<PatternCache.Locator> := [];
    ghost var specs := Specs(patterns);
    ghost var whole := BuildLocators(m, specs, rs);
    var i := 0;
    assert specs[0..] == specs && rs[0..] == rs;
    PatternCache.AppendedEnds([], whole);
    while i < |patterns|
      invariant 0 <= i <= |patterns|
      invariant whole == PatternCache.Appended(locators, BuildLocators(m, specs[i..], rs[i..]))
    {
      var r := patterns[i].Outcome();
      assert specs[i..][0] == patterns[i].spec && specs[i..][1..] == specs[i + 1..];
      assert rs[i..][0] == r && rs[i..][1..] == rs[i + 1..];
      if !Resolved(r) {
        if !patterns[i].spec.optional {
          return None;
        }
      } else {
        if !Located(m, r) {
          return None;
        }
        var l := LocatorOf(m, patterns[i].spec, r);
        PatternCache.AppendedStep(locators, l, BuildLocators(m, specs[i + 1..], rs[i + 1..]));
        locators := locators + [l];
      }
      i := i + 1;
    }
    PatternCache.AppendedEnds(locators, None);
    return if locators == [] then None else Some(PatternCache.Catalog(id, locators));
  }

  /** `writeLocalCatalog`: the file after it. */
  method WriteLocalCatalog(patterns: seq<Pattern>, state: LocalCatalogState, remote: Option<RemoteCatalog>, m: Module,
                           id: PatternCache.ModuleIdentity, file: string, ghost rs: seq<Resolution>)
    returns (written: string)
    requires ValidModule(m) && state.Valid()
    requires |rs| == |patterns| && forall i :: 0 <= i < |rs| ==> rs[i] == patterns[i].Outcome()
    modifies state
    ensures var body := Stored(m, id, Specs(patterns), rs);
      written == if old(state.catalog).None? && remote.None? && body != "" then body else file
  {
    if (!state.writeEligible && !state.dirty) || remote.Some? {
      return file;
    }
    var catalog := BuildLocalCatalog(patterns, m, id, rs);
    if catalog == None {
      return file;
    }
    var body := PatternCache.SerializeLoop(catalog.value);
    if body == "" {
      return file;
    }
    state.writeEligible, state.dirty := false, false;
    return body;
  }
}

/** The cache publication protocol of src/feats/appinfo_provision.cpp: threads
    take snapshots, publish cache pairs, forget apps and read pairs, in any
    interleaving of the steps between which another thread can run. */
module Publication {
  import opened Common

  type App = nat
  type Thread = nat

  const TWO64 := 0x1_0000_0000_0000_0000

  /** `CachePublicationToken`. `issued` is the place of its snapshot in the history, and
      `read` the place at which the managed apps were looked at for it. */
  datatype Token = Token(app: App, managed: bool, generation: UInt64, issued: nat, read: nat)

  /** A cache pair on disk. `written` is the place of its publication in the history. */
  datatype Pair = Pair(wire: string, written: nat)

  /** What a run has done so far, as an observer would list it. `Left` is a
      publication that failed and could not take its pair back. `Returned` is a
      read with the places in the history of its beginning, of its invalidation
      check, and of the event that put its pair on disk. */
  datatype Event =
    | Started(disk: map<App, string>, roster: set<App>)
    | Managed(app: App, managed: bool)
    | Snapshotted(token: Token)
    | Published(token: Token, wire: string)
    | Left(token: Token, wire: string)
    | Forgotten(app: App)
    | Returned(app: App, began: nat, checked: nat, wire: string, written: nat)

  /** How far a thread is. The locks it holds are listed by `HoldsPass`,
      `HoldsPublication` and `HoldsCache`. */
  datatype Place =
    | Idle
    | SnapshotPass(app: App)
    | SnapshotManaged(app: App, managed: bool, read: nat)
    | SnapshotPublication(app: App, managed: bool, read: nat)
    | LeavePublicationAndPass
    | LeavePass
    | PersistPublication(token: Token, wire: string)
    | PersistLocked(token: Token, wire: string)
    | PersistAllowed(token: Token, wire: string)
    | PersistWritten(token: Token)
    | LeaveCacheAndPublication
    | LeavePublication
    | ForgetPass(app: App)
    | ForgetPublication(app: App)
    | ForgetBumped(app: App)
    | ForgetMarked(app: App)
    | ForgetLeavePass(app: App)
    | Cleanup(app: App)
    | CleanupPublication(app: App)
    | CleanupLocked(app: App)
    | ReadLocked(app: App, began: nat)
    | ReadChecked(app: App, began: nat, checked: nat)
    | LeaveCache

  /** `g_provisionPassMu`. */
  predicate HoldsPass(p: Place) {
    p.SnapshotPass? || p.SnapshotManaged? || p.SnapshotPublication? || p.LeavePublicationAndPass? || p.LeavePass?
    || p.ForgetPass? || p.ForgetPublication? || p.ForgetBumped? || p.ForgetMarked? || p.ForgetLeavePass?
  }

  /** `g_cachePublicationMu`. */
  predicate HoldsPublication(p: Place) {
    p.SnapshotPublication? || p.LeavePublicationAndPass?
    || p.PersistPublication? || p.PersistLocked? || p.PersistAllowed? || p.PersistWritten?
    || p.LeaveCacheAndPublication? || p.LeavePublication?
    || p.ForgetPublication? || p.ForgetBumped? || p.ForgetMarked?
    || p.CleanupPublication? || p.CleanupLocked?
  }

  /** The file lock on the cache directory. */
  predicate HoldsCache(p: Place) {
    p.PersistLocked? || p.PersistAllowed? || p.PersistWritten? || p.LeaveCacheAndPublication?
    || p.CleanupLocked? || p.ReadLocked? || p.ReadChecked? || p.LeaveCache?
  }

  /** `log` only records; no step looks at it except to stamp what it records. */
  datatype State = State(
    places: map<Thread, Place>,
    passLock: Option<Thread>,
    publicationLock: Option<Thread>,
    cacheLock: Option<Thread>,
    managed: set<App>,
    generations: map<App, UInt64>,
    invalidated: set<App>,
    pairs: map<App, Pair>,
    tokens: set<Token>,
    log: seq<Event>)

  /** `cachePublicationGenerationLocked`. */
  function Generation(generations: map<App, UInt64>, app: App): UInt64 {
    if app in generations then generations[app] else 0
  }

  /** `cachePublicationAllowed`. */
  predicate Allowed(token: Token, generations: map<App, UInt64>) {
    token.managed && token.generation == Generation(generations, token.app)
  }

  function Bumped(generations: map<App, UInt64>, app: App): map<App, UInt64> {
    generations[app := (Generation(generations, app) + 1) % TWO64]
  }

  /** What a failed write leaves behind: the old pair, nothing that can be read, or
      the new pair when neither member could be restored. */
  datatype Residue = OldPair | NoPair | NewPair

  function AfterFailure(pairs: map<App, Pair>, app: App, wire: string, place: nat, residue: Residue): map<App, Pair> {
    match residue
    case OldPair => pairs
    case NoPair => pairs - {app}
    case NewPair => pairs[app := Pair(wire, place)]
  }

  datatype Action =
    | StartSnapshot(app: App)
    | ReadManaged
    | LockPublication
    | IssueToken
    | StartPersist(token: Token, wire: string)
    | LockCache
    | MissCache
    | CheckToken
    | RefusePair
    | FailWrite(residue: Residue)
    | WritePair
    | ClearInvalidation
    | StartForget(app: App)
    | BumpGeneration
    | MarkInvalid
    | Quarantine(removed: bool)
    | StartRead(app: App)
    | CheckRead
    | RejectRead
    | FinishRead
    | UnlockCache
    | UnlockPublication
    | UnlockPass
    | SetManaged(app: App, managed: bool)

  /** When thread `t` can take a step. A lock that is held cannot be taken;
      the cache lock may also be missed for reasons of its own. */
  predicate Enabled(s: State, t: Thread, a: Action) {
    && t in s.places
    && var p := s.places[t];
       match a
       case StartSnapshot(app) => p.Idle? && s.passLock.None?
       case ReadManaged => p.SnapshotPass?
       case LockPublication => s.publicationLock.None? && (p.SnapshotManaged? || p.ForgetPass? || p.Cleanup?)
       case IssueToken => p.SnapshotPublication?
       case StartPersist(token, wire) => p.Idle? && s.publicationLock.None? && token in s.tokens
       case LockCache => s.cacheLock.None? && (p.PersistPublication? || p.CleanupPublication?)
       case MissCache => p.PersistPublication? || p.CleanupPublication?
       case CheckToken => p.PersistLocked?
       case RefusePair => p.PersistAllowed?
       case FailWrite(residue) => p.PersistAllowed?
       case WritePair => p.PersistAllowed?
       case ClearInvalidation => p.PersistWritten?
       case StartForget(app) => p.Idle? && s.passLock.None? && app != 0
       case BumpGeneration => p.ForgetPublication?
       case MarkInvalid => p.ForgetBumped?
       case Quarantine(removed) => p.CleanupLocked?
       case StartRead(app) => p.Idle? && s.cacheLock.None?
       case CheckRead => p.ReadLocked?
       case RejectRead => p.ReadLocked? || p.ReadChecked?
       case FinishRead => p.ReadChecked? && p.app in s.pairs
       case UnlockCache => p.LeaveCacheAndPublication? || p.LeaveCache?
       case UnlockPublication => p.LeavePublicationAndPass? || p.LeavePublication? || p.ForgetMarked?
       case UnlockPass => p.LeavePass? || p.ForgetLeavePass?
       case SetManaged(app, managed) => true
  }

  function At(s: State, t: Thread, p: Place): State {
    s.(places := s.places[t := p])
  }

  /** Where a step takes its thread. */
  function Next(s: State, t: Thread, a: Action): Place
    requires Enabled(s, t, a)
  {
    var p := s.places[t];
    match a
    case StartSnapshot(app) => SnapshotPass(app)
    case ReadManaged => SnapshotManaged(p.app, p.app in s.managed, |s.log|)
    case LockPublication =>
      if p.SnapshotManaged? then SnapshotPublication(p.app, p.managed, p.read)
      else if p.ForgetPass? then ForgetPublication(p.app)
      else CleanupPublication(p.app)
    case IssueToken => LeavePublicationAndPass
    case StartPersist(token, wire) => PersistPublication(token, wire)
    case LockCache => if p.PersistPublication? then PersistLocked(p.token, p.wire) else CleanupLocked(p.app)
    case MissCache => LeavePublication
    case CheckToken =>
      if Allowed(p.token, s.generations) then PersistAllowed(p.token, p.wire) else LeaveCacheAndPublication
    case RefusePair => LeaveCacheAndPublication
    case FailWrite(residue) => LeaveCacheAndPublication
    case WritePair => PersistWritten(p.token)
    case ClearInvalidation => LeaveCacheAndPublication
    case StartForget(app) => ForgetPass(app)
    case BumpGeneration => ForgetBumped(p.app)
    case MarkInvalid => ForgetMarked(p.app)
    case Quarantine(removed) => LeaveCacheAndPublication
    case StartRead(app) => ReadLocked(app, |s.log|)
    case CheckRead =>
      if p.app in s.pairs && p.app !in s.invalidated then ReadChecked(p.app, p.began, |s.log|) else LeaveCache
    case RejectRead => LeaveCache
    case FinishRead => LeaveCache
    case UnlockCache => if p.LeaveCache? then Idle else LeavePublication
    case UnlockPublication =>
      if p.LeavePublication? then Idle else if p.ForgetMarked? then ForgetLeavePass(p.app) else LeavePass
    case UnlockPass => if p.LeavePass? then Idle else Cleanup(p.app)
    case SetManaged(app, managed) => p
  }

  // Who holds a lock after a step of thread `t`.

  function PassHolder(before: Option<Thread>, t: Thread, a: Action): Option<Thread> {
    if a.StartSnapshot? || a.StartForget? then Some(t) else if a.UnlockPass? then None else before
  }

  function PublicationHolder(before: Option<Thread>, t: Thread, a: Action): Option<Thread> {
    if a.LockPublication? || a.StartPersist? then Some(t) else if a.UnlockPublication? then None else before
  }

  function CacheHolder(before: Option<Thread>, t: Thread, a: Action): Option<Thread> {
    if a.LockCache? || a.StartRead? then Some(t) else if a.UnlockCache? then None else before
  }

  /** The generations after a step: only a bump changes them. */
  function GenerationsThen(s: State, t: Thread, a: Action): map<App, UInt64>
    requires Enabled(s, t, a)
  {
    if a.BumpGeneration? then Bumped(s.generations, s.places[t].app) else s.generations
  }

  function Apply(s: State, t: Thread, a: Action): State
    requires Enabled(s, t, a)
  {
    var p := s.places[t];
    var moved := At(s, t, Next(s, t, a)).(passLock := PassHolder(s.passLock, t, a),
                                          publicationLock := PublicationHolder(s.publicationLock, t, a),
                                          cacheLock := CacheHolder(s.cacheLock, t, a),
                                          generations := GenerationsThen(s, t, a));
    match a
    case IssueToken =>
      var token := Token(p.app, p.managed, Generation(s.generations, p.app), |s.log|, p.read);
      moved.(tokens := s.tokens + {token}, log := s.log + [Snapshotted(token)])
    case FailWrite(residue) =>
      moved.(pairs := AfterFailure(s.pairs, p.token.app, p.wire, |s.log|, residue),
             log := if residue.NewPair? then s.log + [Left(p.token, p.wire)] else s.log)
    case WritePair =>
      moved.(pairs := s.pairs[p.token.app := Pair(p.wire, |s.log|)], log := s.log + [Published(p.token, p.wire)])
    case ClearInvalidation => moved.(invalidated := s.invalidated - {p.token.app})
    case MarkInvalid => moved.(invalidated := s.invalidated + {p.app}, log := s.log + [Forgotten(p.app)])
    case Quarantine(removed) => moved.(pairs := if removed then s.pairs - {p.app} else s.pairs)
    case FinishRead =>
      var pair := s.pairs[p.app];
      moved.(log := s.log + [Returned(p.app, p.began, p.checked, pair.wire, pair.written)])
    case SetManaged(app, managed) =>
      moved.(managed := if managed then s.managed + {app} else s.managed - {app},
             log := s.log + [Managed(app, managed)])
    case _ => moved
  }

  /** Every thread is idle, and the disk may hold pairs of an earlier process. */
  predicate Initial(s: State, disk: map<App, string>) {
    && (forall t :: t in s.places ==> s.places[t] == Idle)
    && s.passLock == None && s.publicationLock == None && s.cacheLock == None
    && s.generations == map[] && s.invalidated == {} && s.tokens == {}
    && s.pairs == (map app | app in disk :: Pair(disk[app], 0))
    && s.log == [Started(disk, s.managed)]
  }

  /** A schedule: which thread takes which step, in order. */
  type Schedule = seq<(Thread, Action)>

  predicate Legal(s: State, schedule: Schedule)
    decreases |schedule|
  {
    schedule != [] ==>
      && Enabled(s, schedule[0].0, schedule[0].1)
      && Legal(Apply(s, schedule[0].0, schedule[0].1), schedule[1..])
  }

  function Run(s: State, schedule: Schedule): State
    requires Legal(s, schedule)
    decreases |schedule|
  {
    if schedule == [] then s else Run(Apply(s, schedule[0].0, schedule[0].1), schedule[1..])
  }

  // ---------------------------------------------------------------- the history

  /** How often an app was forgotten. */
  function Forgets(log: seq<Event>, app: App): nat {
    if log == [] then 0
    else Forgets(log[..|log| - 1], app) + if log[|log| - 1] == Forgotten(app) then 1 else 0
  }

  /** Whether an app is managed after a history. */
  predicate IsManaged(log: seq<Event>, app: App) {
    log != []
    && match log[|log| - 1]
       case Started(_, roster) => app in roster
       case Managed(x, managed) => if x == app then managed else IsManaged(log[..|log| - 1], app)
       case _ => IsManaged(log[..|log| - 1], app)
  }

  predicate NotForgotten(log: seq<Event>, app: App, since: nat, until: nat) {
    forall k :: since <= k < until && k < |log| ==> log[k] != Forgotten(app)
  }

  /** An event that put `wire` on disk for an app. */
  predicate Wrote(e: Event, app: App, wire: string) {
    match e
    case Started(disk, _) => app in disk && disk[app] == wire
    case Published(token, w) => token.app == app && w == wire
    case Left(token, w) => token.app == app && w == wire
    case _ => false
  }

  // --------------------------------------------------------------- the invariant

  /** A lock is held by the thread whose place says so, and by no other. */
  predicate Mutex(s: State) {
    && (forall t :: t in s.places ==> MutexAt(s, t))
    && (s.passLock.Some? ==> s.passLock.value in s.places)
    && (s.publicationLock.Some? ==> s.publicationLock.value in s.places)
    && (s.cacheLock.Some? ==> s.cacheLock.value in s.places)
  }

  predicate MutexAt(s: State, t: Thread)
    requires t in s.places
  {
    PassMutexAt(s, t) && PublicationMutexAt(s, t) && CacheMutexAt(s, t)
  }

  predicate PassMutexAt(s: State, t: Thread)
    requires t in s.places
  {
    s.passLock == Some(t) <==> HoldsPass(s.places[t])
  }

  predicate PublicationMutexAt(s: State, t: Thread)
    requires t in s.places
  {
    s.publicationLock == Some(t) <==> HoldsPublication(s.places[t])
  }

  predicate CacheMutexAt(s: State, t: Thread)
    requires t in s.places
  {
    s.cacheLock == Some(t) <==> HoldsCache(s.places[t])
  }

  /** The holder of the publication lock has bumped the app's generation and not
      yet marked it. */
  predicate Bumping(s: State, app: App) {
    && s.publicationLock.Some? && s.publicationLock.value in s.places
    && s.places[s.publicationLock.value] == ForgetBumped(app)
  }

  predicate GenerationOk(s: State, app: App) {
    Generation(s.generations, app) == (Forgets(s.log, app) + if Bumping(s, app) then 1 else 0) % TWO64
  }

  predicate TokenOk(log: seq<Event>, token: Token) {
    && token.issued < |log| && log[token.issued] == Snapshotted(token)
    && token.generation == Forgets(log[..token.issued], token.app) % TWO64
  }

  predicate ManagedOk(s: State, app: App) {
    app in s.managed <==> IsManaged(s.log, app)
  }

  /** What was read of the managed apps at `read`, without a forget of the app since. */
  predicate ReadOk(log: seq<Event>, app: App, managed: bool, read: nat, until: nat) {
    && read <= until <= |log| && managed == IsManaged(log[..read], app)
    && NotForgotten(log, app, read, until)
  }

  predicate PairOk(s: State, app: App)
    requires app in s.pairs
  {
    var pair := s.pairs[app];
    && pair.written < |s.log| && Wrote(s.log[pair.written], app, pair.wire)
    && (app !in s.invalidated ==> NotForgotten(s.log, app, pair.written, |s.log|))
  }

  predicate PlaceOk(s: State, p: Place) {
    match p
    case PersistPublication(token, wire) => token in s.tokens
    case PersistLocked(token, wire) => token in s.tokens
    case PersistAllowed(token, wire) => token in s.tokens && Allowed(token, s.generations)
    case PersistWritten(token) =>
      token.app in s.pairs && NotForgotten(s.log, token.app, s.pairs[token.app].written, |s.log|)
    case ReadLocked(app, began) => began <= |s.log|
    case ReadChecked(app, began, checked) =>
      && began <= checked <= |s.log|
      && app in s.pairs && s.pairs[app].written < checked
      && NotForgotten(s.log, app, s.pairs[app].written, checked)
    case _ => true
  }

  /** A snapshot under way knows whether its app was managed, and keeps forgets out. */
  predicate RosterOk(log: seq<Event>, p: Place) {
    p.SnapshotManaged? || p.SnapshotPublication? ==> ReadOk(log, p.app, p.managed, p.read, |log|)
  }

  /** A pair that goes to disk at `k` has a token of a managed app that was not
      forgotten since its snapshot, up to a multiple of 2^64. */
  predicate FreshAt(log: seq<Event>, k: nat, token: Token)
    requires k < |log|
  {
    && token.managed && token.issued < k && log[token.issued] == Snapshotted(token)
    && Forgets(log[..k], token.app) % TWO64 == Forgets(log[..token.issued], token.app) % TWO64
  }

  /** What an event of the history proves about the events before it. */
  predicate EventOk(log: seq<Event>, k: nat)
    requires k < |log|
  {
    match log[k]
    case Snapshotted(token) => token.issued == k && ReadOk(log, token.app, token.managed, token.read, k)
    case Published(token, wire) => FreshAt(log, k, token)
    case Left(token, wire) => FreshAt(log, k, token)
    case Returned(app, began, checked, wire, written) =>
      && began <= checked <= k && written < checked && Wrote(log[written], app, wire)
      && NotForgotten(log, app, written, checked)
    case _ => true
  }

  ghost predicate Inv(s: State) {
    && Mutex(s)
    && (forall app: App :: GenerationOk(s, app) && ManagedOk(s, app))
    && (forall token :: token in s.tokens ==> TokenOk(s.log, token))
    && (forall app :: app in s.pairs ==> PairOk(s, app))
    && (forall t :: t in s.places ==> PlaceOk(s, s.places[t]) && RosterOk(s.log, s.places[t]))
    && (forall k :: 0 <= k < |s.log| ==> EventOk(s.log, k))
  }

  lemma InitialInv(s: State, disk: map<App, string>)
    requires Initial(s, disk)
    ensures Inv(s)
  {
    forall app: App ensures GenerationOk(s, app) && ManagedOk(s, app) {
      assert s.log[..0] == [];
      assert Forgets(s.log, app) == 0;
    }
  }

  // ------------------------------------------------- every step keeps the invariant

  /** A step moves its own thread and no other, and only its own lock. */
  lemma Moves(s: State, t: Thread, a: Action)
    requires Enabled(s, t, a)
    ensures t in s.places
    ensures var s' := Apply(s, t, a);
            && s'.places == s.places[t := Next(s, t, a)]
            && s'.passLock == PassHolder(s.passLock, t, a)
            && s'.publicationLock == PublicationHolder(s.publicationLock, t, a)
            && s'.cacheLock == CacheHolder(s.cacheLock, t, a)
            && s'.generations == GenerationsThen(s, t, a)
  {
    hide Next, PassHolder, PublicationHolder, CacheHolder, GenerationsThen, Bumped, Generation, AfterFailure;
  }

  /** A step takes a lock that is free, or releases the one its thread holds, or
      leaves the lock alone. */
  predicate Moved(before: Option<Thread>, after: Option<Thread>, t: Thread) {
    after == before || (before == None && after == Some(t)) || (before == Some(t) && after == None)
  }

  lemma PassLockMoves(s: State, t: Thread, a: Action)
    requires Enabled(s, t, a) && PassMutexAt(s, t)
    ensures Moved(s.passLock, PassHolder(s.passLock, t, a), t)
  {
  }

  lemma PassHeld(s: State, t: Thread, a: Action)
    requires Enabled(s, t, a) && PassMutexAt(s, t)
    ensures PassHolder(s.passLock, t, a) == Some(t) <==> HoldsPass(Next(s, t, a))
  {
    hide Allowed;
  }

  lemma PublicationLockMoves(s: State, t: Thread, a: Action)
    requires Enabled(s, t, a) && PublicationMutexAt(s, t)
    ensures Moved(s.publicationLock, PublicationHolder(s.publicationLock, t, a), t)
  {
  }

  lemma PublicationHeld(s: State, t: Thread, a: Action)
    requires Enabled(s, t, a) && PublicationMutexAt(s, t)
    ensures PublicationHolder(s.publicationLock, t, a) == Some(t) <==> HoldsPublication(Next(s, t, a))
  {
    hide Allowed;
  }

  lemma CacheLockMoves(s: State, t: Thread, a: Action)
    requires Enabled(s, t, a) && CacheMutexAt(s, t)
    ensures Moved(s.cacheLock, CacheHolder(s.cacheLock, t, a), t)
  {
  }

  lemma CacheHeld(s: State, t: Thread, a: Action)
    requires Enabled(s, t, a) && CacheMutexAt(s, t)
    ensures CacheHolder(s.cacheLock, t, a) == Some(t) <==> HoldsCache(Next(s, t, a))
  {
    hide Allowed;
  }

  lemma PassMutexKept(s: State, t: Thread, a: Action, u: Thread)
    requires Enabled(s, t, a) && u in s.places && t in s.places && PassMutexAt(s, t) && PassMutexAt(s, u)
    ensures u in Apply(s, t, a).places && PassMutexAt(Apply(s, t, a), u)
  {
    hide Apply, Enabled, Next, HoldsPass, PassHolder;
    Moves(s, t, a);
    PassLockMoves(s, t, a);
    PassHeld(s, t, a);
  }

  lemma PublicationMutexKept(s: State, t: Thread, a: Action, u: Thread)
    requires Enabled(s, t, a) && u in s.places && t in s.places && PublicationMutexAt(s, t) && PublicationMutexAt(s, u)
    ensures u in Apply(s, t, a).places && PublicationMutexAt(Apply(s, t, a), u)
  {
    hide Apply, Enabled, Next, HoldsPublication, PublicationHolder;
    Moves(s, t, a);
    PublicationLockMoves(s, t, a);
    PublicationHeld(s, t, a);
  }

  lemma CacheMutexKept(s: State, t: Thread, a: Action, u: Thread)
    requires Enabled(s, t, a) && u in s.places && t in s.places && CacheMutexAt(s, t) && CacheMutexAt(s, u)
    ensures u in Apply(s, t, a).places && CacheMutexAt(Apply(s, t, a), u)
  {
    hide Apply, Enabled, Next, HoldsCache, CacheHolder;
    Moves(s, t, a);
    CacheLockMoves(s, t, a);
    CacheHeld(s, t, a);
  }

  lemma MutexKept(s: State, t: Thread, a: Action)
    requires Enabled(s, t, a) && Mutex(s)
    ensures Mutex(Apply(s, t, a))
  {
    hide Apply, Enabled, Next, PassMutexAt, PublicationMutexAt, CacheMutexAt;
    var s' := Apply(s, t, a);
    Moves(s, t, a);
    assert MutexAt(s, t);
    forall u | u in s'.places ensures MutexAt(s', u) {
      assert MutexAt(s, u);
      PassMutexKept(s, t, a, u);
      PublicationMutexKept(s, t, a, u);
      CacheMutexKept(s, t, a, u);
    }
  }

  lemma ForgetsOfAppend(log: seq<Event>, e: Event, app: App)
    ensures Forgets(log + [e], app) == Forgets(log, app) + if e == Forgotten(app) then 1 else 0
  {
    assert (log + [e])[..|log|] == log;
  }

  lemma AddOne(n: nat)
    ensures (n % TWO64 + 1) % TWO64 == (n + 1) % TWO64
  {
  }

  /** The event a step records, if any. */
  function Recorded(s: State, t: Thread, a: Action): Option<Event>
    requires Enabled(s, t, a)
  {
    var p := s.places[t];
    match a
    case IssueToken => Some(Snapshotted(Token(p.app, p.managed, Generation(s.generations, p.app), |s.log|, p.read)))
    case SetManaged(app, managed) => Some(Managed(app, managed))
    case WritePair => Some(Published(p.token, p.wire))
    case FailWrite(residue) => if residue.NewPair? then Some(Left(p.token, p.wire)) else None
    case MarkInvalid => Some(Forgotten(p.app))
    case FinishRead => Some(Returned(p.app, p.began, p.checked, s.pairs[p.app].wire, s.pairs[p.app].written))
    case _ => None
  }

  lemma LogGrows(s: State, t: Thread, a: Action)
    requires Enabled(s, t, a)
    ensures var e := Recorded(s, t, a);
            Apply(s, t, a).log == if e.None? then s.log else s.log + [e.value]
  {
    hide Enabled, Next, PassHolder, PublicationHolder, CacheHolder, GenerationsThen, Bumped, Generation, AfterFailure;
  }

  /** Where a thread stands with respect to a bump. */
  lemma OwnBump(s: State, t: Thread, a: Action, app: App)
    requires Enabled(s, t, a)
    ensures t in s.places
    ensures (Next(s, t, a) == ForgetBumped(app)
             <==> (a.BumpGeneration? && s.places[t].app == app)
                  || (s.places[t] == ForgetBumped(app) && !a.MarkInvalid?))
    ensures a.BumpGeneration? ==> s.places[t].ForgetPublication?
    ensures a.MarkInvalid? ==> s.places[t].ForgetBumped?
  {
    hide Allowed;
  }

  lemma BumpingAfter(s: State, t: Thread, a: Action, app: App)
    requires Enabled(s, t, a) && PublicationMutexAt(s, t)
    ensures (Bumping(Apply(s, t, a), app)
             <==> (a.BumpGeneration? && s.places[t].app == app)
                  || (Bumping(s, app) && !a.MarkInvalid?))
    ensures a.BumpGeneration? ==> !Bumping(s, app)
    ensures a.MarkInvalid? ==> (Bumping(s, app) <==> s.places[t].app == app)
  {
    hide Apply, Enabled, Next, PublicationHolder;
    OwnBump(s, t, a, app);
    Moves(s, t, a);
    PublicationLockMoves(s, t, a);
    PublicationHeld(s, t, a);
  }

  lemma GenerationAfter(s: State, t: Thread, a: Action, app: App)
    requires Enabled(s, t, a)
    ensures var g := Generation(s.generations, app);
            Generation(Apply(s, t, a).generations, app)
            == if a.BumpGeneration? && s.places[t].app == app then (g + 1) % TWO64 else g
  {
    hide Apply, Next, PassHolder, PublicationHolder, CacheHolder;
    Moves(s, t, a);
  }

  lemma ForgetsAfter(s: State, t: Thread, a: Action, app: App)
    requires Enabled(s, t, a)
    ensures Forgets(Apply(s, t, a).log, app)
         == Forgets(s.log, app) + if a.MarkInvalid? && s.places[t].app == app then 1 else 0
  {
    hide Apply;
    LogGrows(s, t, a);
    var e := Recorded(s, t, a);
    if e.Some? {
      ForgetsOfAppend(s.log, e.value, app);
    }
  }

  lemma GenerationKept(s: State, t: Thread, a: Action, app: App)
    requires Enabled(s, t, a) && PublicationMutexAt(s, t) && GenerationOk(s, app)
    ensures GenerationOk(Apply(s, t, a), app)
  {
    hide Apply, Bumping, Generation, Forgets;
    BumpingAfter(s, t, a, app);
    GenerationAfter(s, t, a, app);
    ForgetsAfter(s, t, a, app);
    CountKept(Forgets(s.log, app), Bumping(s, app), a.BumpGeneration? && s.places[t].app == app,
              a.MarkInvalid? && s.places[t].app == app);
  }

  /** The arithmetic of a bump and of the mark that follows it. */
  lemma CountKept(forgets: nat, bumping: bool, bump: bool, mark: bool)
    requires bump ==> !bumping && !mark
    requires mark ==> bumping
    ensures var before := (forgets + if bumping then 1 else 0) % TWO64;
            var forgets' := forgets + if mark then 1 else 0;
            var bumping' := bump || (bumping && !mark);
            (if bump then (before + 1) % TWO64 else before) == (forgets' + if bumping' then 1 else 0) % TWO64
  {
    AddOne(forgets);
  }

  lemma TokenStays(log: seq<Event>, longer: seq<Event>, token: Token)
    requires log <= longer && TokenOk(log, token)
    ensures TokenOk(longer, token)
  {
    assert longer[..token.issued] == log[..token.issued];
  }

  lemma EventStays(log: seq<Event>, longer: seq<Event>, k: nat)
    requires log <= longer && k < |log| && EventOk(log, k)
    ensures EventOk(longer, k)
  {
    assert longer[..k] == log[..k];
    match log[k]
    case Snapshotted(token) => assert token.read <= k ==> longer[..token.read] == log[..token.read];
    case Published(token, wire) => assert longer[..token.issued] == log[..token.issued];
    case Left(token, wire) => assert longer[..token.issued] == log[..token.issued];
    case _ =>
  }

  lemma TokensKept(s: State, t: Thread, a: Action, token: Token)
    requires Mutex(s) && Enabled(s, t, a)
    requires token in s.tokens ==> TokenOk(s.log, token)
    requires forall app: App :: GenerationOk(s, app)
    requires token in Apply(s, t, a).tokens
    ensures TokenOk(Apply(s, t, a).log, token)
  {
    hide TokenOk, GenerationOk;
    LogGrows(s, t, a);
    if token in s.tokens {
      TokenStays(s.log, Apply(s, t, a).log, token);
    } else {
      NewTokenOk(s, t, token);
    }
  }

  lemma NewTokenOk(s: State, t: Thread, token: Token)
    requires Mutex(s) && Enabled(s, t, IssueToken)
    requires GenerationOk(s, token.app)
    requires var p := s.places[t];
             token == Token(p.app, p.managed, Generation(s.generations, p.app), |s.log|, p.read)
    ensures TokenOk(s.log + [Snapshotted(token)], token)
  {
    assert (s.log + [Snapshotted(token)])[..token.issued] == s.log;
    assert !Bumping(s, token.app);
  }

  lemma NotForgottenGrows(log: seq<Event>, e: Event, app: App, since: nat)
    requires NotForgotten(log, app, since, |log|) && e != Forgotten(app)
    ensures NotForgotten(log + [e], app, since, |log| + 1)
  {
  }

  /** A pair that a step puts on disk is the one of the event it records. */
  lemma PairAfter(s: State, t: Thread, a: Action, app: App)
    requires Enabled(s, t, a) && app in Apply(s, t, a).pairs
    requires !(app in s.pairs && Apply(s, t, a).pairs[app] == s.pairs[app])
    ensures var e, pair := Recorded(s, t, a), Apply(s, t, a).pairs[app];
            e.Some? && !e.value.Forgotten? && pair.written == |s.log| && Wrote(e.value, app, pair.wire)
  {
    hide Next, PassHolder, PublicationHolder, CacheHolder, GenerationsThen, Bumped, Generation, Allowed;
  }

  /** Only the thread that has just written a pair unmarks its app. */
  lemma MarkAfter(s: State, t: Thread, a: Action, app: App)
    requires Enabled(s, t, a) && app in s.invalidated && app !in Apply(s, t, a).invalidated
    ensures t in s.places && s.places[t].PersistWritten? && s.places[t].token.app == app
    ensures Apply(s, t, a).pairs == s.pairs && Apply(s, t, a).log == s.log
  {
    hide Next, PassHolder, PublicationHolder, CacheHolder, GenerationsThen, Bumped, Generation, Allowed;
  }

  lemma ForgottenIsMarked(s: State, t: Thread, a: Action, app: App)
    requires Enabled(s, t, a) && Recorded(s, t, a) == Some(Forgotten(app))
    ensures app in Apply(s, t, a).invalidated
  {
    hide Next, PassHolder, PublicationHolder, CacheHolder, GenerationsThen, Bumped, Generation, Allowed;
  }

  lemma PairKept(s: State, t: Thread, a: Action, app: App)
    requires Mutex(s) && Enabled(s, t, a)
    requires app in s.pairs ==> PairOk(s, app)
    requires PlaceOk(s, s.places[t])
    requires app in Apply(s, t, a).pairs
    ensures PairOk(Apply(s, t, a), app)
  {
    hide Apply, Recorded, Mutex;
    LogGrows(s, t, a);
    var e, s' := Recorded(s, t, a), Apply(s, t, a);
    if !(app in s.pairs && s'.pairs[app] == s.pairs[app]) {
      PairAfter(s, t, a, app);
    } else if app in s.invalidated && app !in s'.invalidated {
      MarkAfter(s, t, a, app);
    } else if e == Some(Forgotten(app)) {
      ForgottenIsMarked(s, t, a, app);
    } else if app !in s.invalidated && e.Some? {
      NotForgottenGrows(s.log, e.value, app, s.pairs[app].written);
    }
  }

  lemma PlaceKept(s: State, t: Thread, a: Action, u: Thread)
    requires Mutex(s) && Enabled(s, t, a) && u in s.places
    requires PlaceOk(s, s.places[u])
    requires forall app :: app in s.pairs ==> PairOk(s, app)
    ensures PlaceOk(Apply(s, t, a), Apply(s, t, a).places[u])
  {
    LogGrows(s, t, a);
    if u == t {
      OwnPlaceKept(s, t, a);
    } else {
      OtherPlaceKept(s, t, a, u);
    }
  }

  /** The place a thread reaches by its own step. */
  lemma OwnPlaceKept(s: State, t: Thread, a: Action)
    requires Enabled(s, t, a)
    requires PlaceOk(s, s.places[t])
    requires forall app :: app in s.pairs ==> PairOk(s, app)
    ensures PlaceOk(Apply(s, t, a), Apply(s, t, a).places[t])
  {
    hide Apply, Enabled, Next, PlaceOk, PairOk;
    if a.WritePair? {
      WrittenIsFresh(s, t, a);
    } else if a.CheckRead? {
      CheckedIsFresh(s, t, a);
    } else if a.SetManaged? {
      ManagingKeepsPlace(s, t, a);
    } else {
      OtherStepsKept(s, t, a);
    }
  }

  lemma WrittenIsFresh(s: State, t: Thread, a: Action)
    requires Enabled(s, t, a) && a.WritePair?
    ensures PlaceOk(Apply(s, t, a), Apply(s, t, a).places[t])
  {
  }

  lemma CheckedIsFresh(s: State, t: Thread, a: Action)
    requires Enabled(s, t, a) && a.CheckRead? && PlaceOk(s, s.places[t])
    requires forall app :: app in s.pairs ==> PairOk(s, app)
    ensures PlaceOk(Apply(s, t, a), Apply(s, t, a).places[t])
  {
    var app := s.places[t].app;
    if app in s.pairs {
      assert PairOk(s, app);
    }
  }

  lemma ManagingKeepsPlace(s: State, t: Thread, a: Action)
    requires Enabled(s, t, a) && a.SetManaged? && PlaceOk(s, s.places[t])
    ensures PlaceOk(Apply(s, t, a), Apply(s, t, a).places[t])
  {
  }

  lemma OtherStepsKept(s: State, t: Thread, a: Action)
    requires Enabled(s, t, a) && !a.WritePair? && !a.CheckRead? && !a.SetManaged?
    requires PlaceOk(s, s.places[t])
    ensures PlaceOk(Apply(s, t, a), Apply(s, t, a).places[t])
  {
    hide Apply, Allowed, NotForgotten, PassHolder, PublicationHolder, CacheHolder;
    Moves(s, t, a);
    LogGrows(s, t, a);
    TokensStay(s, t, a);
  }

  lemma TokensStay(s: State, t: Thread, a: Action)
    requires Enabled(s, t, a)
    ensures s.tokens <= Apply(s, t, a).tokens
  {
    hide Enabled, Next, PassHolder, PublicationHolder, CacheHolder, GenerationsThen, AfterFailure;
  }

  /** The place a thread stays at while another one takes a step: the locks it
      holds keep what its place relies on. */
  lemma OtherPlaceKept(s: State, t: Thread, a: Action, u: Thread)
    requires Mutex(s) && Enabled(s, t, a) && u in s.places && u != t
    requires PlaceOk(s, s.places[u])
    ensures PlaceOk(Apply(s, t, a), s.places[u])
  {
  }

  lemma IsManagedOfAppend(log: seq<Event>, e: Event, app: App)
    requires !e.Started?
    ensures IsManaged(log + [e], app) == if e.Managed? && e.app == app then e.managed else IsManaged(log, app)
  {
    assert (log + [e])[..|log|] == log;
  }

  lemma ManagedAfter(s: State, t: Thread, a: Action, app: App)
    requires Enabled(s, t, a)
    ensures app in Apply(s, t, a).managed
       <==> if a.SetManaged? && a.app == app then a.managed else app in s.managed
  {
    hide Enabled, Next, PassHolder, PublicationHolder, CacheHolder, GenerationsThen, AfterFailure;
  }

  /** Every step keeps the managed apps what the history says they are. */
  lemma ManagedKept(s: State, t: Thread, a: Action, app: App)
    requires Enabled(s, t, a) && ManagedOk(s, app)
    ensures ManagedOk(Apply(s, t, a), app)
  {
    hide Apply, Enabled, IsManaged;
    ManagedAfter(s, t, a, app);
    LogGrows(s, t, a);
    var e := Recorded(s, t, a);
    if e.Some? {
      IsManagedOfAppend(s.log, e.value, app);
    }
  }

  lemma ReadGrows(log: seq<Event>, e: Event, app: App, managed: bool, read: nat)
    requires ReadOk(log, app, managed, read, |log|) && e != Forgotten(app)
    ensures ReadOk(log + [e], app, managed, read, |log| + 1)
  {
    hide IsManaged;
    assert (log + [e])[..read] == log[..read];
    NotForgottenGrows(log, e, app, read);
  }

  /** Where a step takes its own thread, as far as snapshots are concerned. */
  lemma NextOfSnapshot(s: State, t: Thread, a: Action)
    requires Enabled(s, t, a)
    ensures t in s.places && (a.ReadManaged? ==> s.places[t].SnapshotPass?)
    ensures Next(s, t, a).SnapshotManaged? ==>
      || (a.ReadManaged? && Next(s, t, a) == SnapshotManaged(s.places[t].app, s.places[t].app in s.managed, |s.log|))
      || (a.SetManaged? && Next(s, t, a) == s.places[t])
    ensures var p, p' := s.places[t], Next(s, t, a);
            p'.SnapshotPublication? ==>
              || (a.LockPublication? && p.SnapshotManaged?
                  && p'.app == p.app && p'.managed == p.managed && p'.read == p.read)
              || (a.SetManaged? && p' == p)
  {
    hide Allowed;
  }

  lemma RosterKept(s: State, t: Thread, a: Action, u: Thread)
    requires Mutex(s) && Enabled(s, t, a) && u in s.places && RosterOk(s.log, s.places[u])
    requires forall app: App :: ManagedOk(s, app)
    ensures u in Apply(s, t, a).places && RosterOk(Apply(s, t, a).log, Apply(s, t, a).places[u])
  {
    hide Apply, Enabled, Next, ReadOk;
    Moves(s, t, a);
    LogGrows(s, t, a);
    var e, p := Recorded(s, t, a), s.places[u];
    if p.SnapshotManaged? || p.SnapshotPublication? {
      if e.Some? {
        ForgetsAreKeptOut(s, t, a, u, p.app);
        ReadGrows(s.log, e.value, p.app, p.managed, p.read);
      }
    }
    if u == t {
      NextOfSnapshot(s, t, a);
      if a.ReadManaged? {
        FirstRead(s, p.app);
      }
    }
  }

  lemma FirstRead(s: State, app: App)
    requires ManagedOk(s, app)
    ensures ReadOk(s.log, app, app in s.managed, |s.log|, |s.log|)
  {
    assert s.log[..|s.log|] == s.log;
  }

  /** While a snapshot is under way no step marks a forget. */
  lemma ForgetsAreKeptOut(s: State, t: Thread, a: Action, u: Thread, app: App)
    requires Mutex(s) && Enabled(s, t, a) && u in s.places
    requires s.places[u].SnapshotManaged? || s.places[u].SnapshotPublication?
    ensures Recorded(s, t, a) != Some(Forgotten(app))
  {
    assert MutexAt(s, u) && MutexAt(s, t);
  }

  lemma EventKept(s: State, t: Thread, a: Action, k: nat)
    requires Enabled(s, t, a) && Inv(s) && k < |Apply(s, t, a).log|
    ensures EventOk(Apply(s, t, a).log, k)
  {
    LogGrows(s, t, a);
    if k < |s.log| {
      EventStays(s.log, Apply(s, t, a).log, k);
    } else {
      NewEventOk(s, t, a);
    }
  }

  lemma NewEventOk(s: State, t: Thread, a: Action)
    requires Enabled(s, t, a) && Inv(s) && Recorded(s, t, a).Some?
    ensures EventOk(s.log + [Recorded(s, t, a).value], |s.log|)
  {
    var p, e := s.places[t], Recorded(s, t, a).value;
    var log := s.log + [e];
    assert PlaceOk(s, p);
    assert log[..|s.log|] == s.log;
    if a.WritePair? || a.FailWrite? {
      var token := p.token;
      assert TokenOk(s.log, token) && GenerationOk(s, token.app) && !Bumping(s, token.app);
      assert log[..token.issued] == s.log[..token.issued];
    }
    if a.FinishRead? {
      assert PairOk(s, p.app);
    }
    if a.IssueToken? {
      assert RosterOk(s.log, p);
      assert log[..p.read] == s.log[..p.read];
    }
  }

  lemma InvKept(s: State, t: Thread, a: Action)
    requires Inv(s) && Enabled(s, t, a)
    ensures Inv(Apply(s, t, a))
  {
    hide Apply, Enabled, PlaceOk, RosterOk, PairOk, TokenOk, EventOk, GenerationOk, ManagedOk;
    var s' := Apply(s, t, a);
    MutexKept(s, t, a);
    Moves(s, t, a);
    assert PlaceOk(s, s.places[t]);
    assert MutexAt(s, t);
    forall app: App ensures GenerationOk(s', app) && ManagedOk(s', app) {
      GenerationKept(s, t, a, app);
      ManagedKept(s, t, a, app);
    }
    forall token | token in s'.tokens ensures TokenOk(s'.log, token) {
      TokensKept(s, t, a, token);
    }
    forall app | app in s'.pairs ensures PairOk(s', app) {
      PairKept(s, t, a, app);
    }
    forall u | u in s'.places ensures PlaceOk(s', s'.places[u]) && RosterOk(s'.log, s'.places[u]) {
      PlaceKept(s, t, a, u);
      RosterKept(s, t, a, u);
    }
    forall k | 0 <= k < |s'.log| ensures EventOk(s'.log, k) {
      EventKept(s, t, a, k);
    }
  }

  /** Every state of every run satisfies the invariant. */
  lemma {:induction false} RunKeepsInv(s: State, schedule: Schedule)
    requires Inv(s) && Legal(s, schedule)
    ensures Inv(Run(s, schedule)) && s.log <= Run(s, schedule).log
    decreases |schedule|
  {
    if schedule != [] {
      var t, a := schedule[0].0, schedule[0].1;
      InvKept(s, t, a);
      LogGrows(s, t, a);
      RunKeepsInv(Apply(s, t, a), schedule[1..]);
    }
  }

  // ----------------------------------------------------------------- the theorems

  /** How often an app was forgotten between two places of the history. */
  function ForgetsBetween(log: seq<Event>, app: App, lo: nat, hi: nat): int
    requires lo <= hi <= |log|
  {
    Forgets(log[..hi], app) - Forgets(log[..lo], app)
  }

  lemma SameRemainder(m: int, n: int)
    ensures m % TWO64 == n % TWO64 <==> (m - n) % TWO64 == 0
  {
  }

  /** In every run, what goes to disk goes there by a token whose app was managed when
      its snapshot was taken, and was not forgotten since, unless a multiple of 2^64
      times. */
  lemma OnlyFreshTokensPublish(s: State, disk: map<App, string>, schedule: Schedule, k: nat)
    requires Initial(s, disk) && Legal(s, schedule)
    requires k < |Run(s, schedule).log| && (Run(s, schedule).log[k].Published? || Run(s, schedule).log[k].Left?)
    ensures var log := Run(s, schedule).log;
            var token := log[k].token;
            && token.managed && token.issued < k && log[token.issued] == Snapshotted(token)
            && ForgetsBetween(log, token.app, token.issued, k) % TWO64 == 0
            && token.read <= token.issued && IsManaged(log[..token.read], token.app)
            && NotForgotten(log, token.app, token.read, token.issued)
  {
    hide Run, Legal, Initial, IsManaged;
    InitialInv(s, disk);
    RunKeepsInv(s, schedule);
    var log := Run(s, schedule).log;
    assert EventOk(log, k);
    var token := log[k].token;
    assert EventOk(log, token.issued);
    SameRemainder(Forgets(log[..k], token.app), Forgets(log[..token.issued], token.app));
  }

  /** A token that was overtaken by fewer than 2^64 forgets never publishes again. */
  lemma StaleTokenNeverPublishes(s: State, disk: map<App, string>, schedule: Schedule,
                                 token: Token, wire: string, k: nat)
    requires Initial(s, disk) && Legal(s, schedule)
    requires token.issued < k < |Run(s, schedule).log|
    requires 0 < ForgetsBetween(Run(s, schedule).log, token.app, token.issued, k) < TWO64
    ensures Run(s, schedule).log[k] != Published(token, wire) && Run(s, schedule).log[k] != Left(token, wire)
  {
    if Run(s, schedule).log[k] == Published(token, wire) || Run(s, schedule).log[k] == Left(token, wire) {
      OnlyFreshTokensPublish(s, disk, schedule, k);
    }
  }

  lemma CheckOpens(s: State, t: Thread)
    requires t in s.places && s.places[t].PersistLocked?
    ensures t in Apply(s, t, CheckToken).places
    ensures Apply(s, t, CheckToken).places[t].PersistAllowed? <==> Allowed(s.places[t].token, s.generations)
  {
    hide Allowed;
  }

  /** While a thread is at the gate, no forget is between its bump and its mark. */
  lemma NotBumping(s: State, t: Thread, app: App)
    requires Mutex(s) && GenerationOk(s, app) && t in s.places && s.places[t].PersistLocked?
    ensures Generation(s.generations, app) == Forgets(s.log, app) % TWO64
  {
    hide Forgets, Generation;
    assert MutexAt(s, t);
  }

  /** The gate as the history sees it. */
  lemma AllowedExactly(generations: map<App, UInt64>, log: seq<Event>, token: Token)
    requires TokenOk(log, token) && Generation(generations, token.app) == Forgets(log, token.app) % TWO64
    ensures token.issued < |log|
    ensures Allowed(token, generations)
       <==> token.managed && ForgetsBetween(log, token.app, token.issued, |log|) % TWO64 == 0
  {
    hide Forgets, Generation;
    assert log[..|log|] == log;
    SameRemainder(Forgets(log, token.app), Forgets(log[..token.issued], token.app));
  }

  /** The gate of a persisting thread opens exactly for the tokens of managed apps
      that were forgotten a multiple of 2^64 times since the snapshot. */
  lemma GateIsExact(s: State, disk: map<App, string>, schedule: Schedule, t: Thread)
    requires Initial(s, disk) && Legal(s, schedule)
    requires t in Run(s, schedule).places && Run(s, schedule).places[t].PersistLocked?
    ensures var now := Run(s, schedule);
            var token := now.places[t].token;
            && token.issued < |now.log|
            && (Apply(now, t, CheckToken).places[t].PersistAllowed?
                <==> token.managed && ForgetsBetween(now.log, token.app, token.issued, |now.log|) % TWO64 == 0)
  {
    hide Run, Legal, Initial, EventOk, PairOk, TokenOk, GenerationOk, Forgets, ForgetsBetween, Allowed, Apply;
    InitialInv(s, disk);
    RunKeepsInv(s, schedule);
    var now := Run(s, schedule);
    var token := now.places[t].token;
    assert PlaceOk(now, now.places[t]);
    assert TokenOk(now.log, token) && GenerationOk(now, token.app);
    NotBumping(now, t, token.app);
    AllowedExactly(now.generations, now.log, token);
    CheckOpens(now, t);
  }

  /** In every run, a read returns what some event put on disk, and no forget of
      the app lies between that event and the invalidation check of the read. */
  lemma ReadsAreCurrent(s: State, disk: map<App, string>, schedule: Schedule, k: nat)
    requires Initial(s, disk) && Legal(s, schedule)
    requires k < |Run(s, schedule).log| && Run(s, schedule).log[k].Returned?
    ensures var log := Run(s, schedule).log;
            var e := log[k];
            && e.began <= e.checked <= k && e.written < e.checked && Wrote(log[e.written], e.app, e.wire)
            && forall f :: e.written <= f < e.checked ==> log[f] != Forgotten(e.app)
  {
    InitialInv(s, disk);
    RunKeepsInv(s, schedule);
    assert EventOk(Run(s, schedule).log, k);
  }

  lemma {:induction false} NoneForgotten(log: seq<Event>, app: App, lo: nat, hi: nat)
    requires lo <= hi <= |log| && NotForgotten(log, app, lo, hi)
    ensures Forgets(log[..hi], app) == Forgets(log[..lo], app)
  {
    if lo < hi {
      NoneForgotten(log, app, lo, hi - 1);
      assert log[..hi] == log[..hi - 1] + [log[hi - 1]];
      ForgetsOfAppend(log[..hi - 1], log[hi - 1], app);
    }
  }

  /** The event at `written` put its pair on disk with a token of a managed app
      that was forgotten a multiple of 2^64 times between its snapshot and `until`. */
  predicate IsFreshSource(log: seq<Event>, app: App, written: nat, until: nat)
    requires written < until <= |log|
  {
    var e := log[written];
    && (e.Published? || e.Left?)
    && e.token.app == app && e.token.managed
    && e.token.issued < written && log[e.token.issued] == Snapshotted(e.token)
    && ForgetsBetween(log, app, e.token.issued, until) % TWO64 == 0
  }

  /** In every run, a read returns a pair that an earlier process left or one whose
      token is still fresh at the invalidation check of the read. */
  lemma ReadsAreFresh(s: State, disk: map<App, string>, schedule: Schedule, k: nat)
    requires Initial(s, disk) && Legal(s, schedule)
    requires k < |Run(s, schedule).log| && Run(s, schedule).log[k].Returned?
    ensures var log := Run(s, schedule).log;
            var e := log[k];
            && e.checked <= k && e.written < e.checked
            && (log[e.written].Started? || IsFreshSource(log, e.app, e.written, e.checked))
  {
    hide Run, Legal, Initial, Forgets;
    ReadsAreCurrent(s, disk, schedule, k);
    var log := Run(s, schedule).log;
    var e := log[k];
    if !log[e.written].Started? {
      OnlyFreshTokensPublish(s, disk, schedule, e.written);
      NoneForgotten(log, e.app, e.written, e.checked);
    }
  }

  /** At no time do two threads hold the same lock. */
  lemma LocksExclude(s: State, disk: map<App, string>, schedule: Schedule, t: Thread, u: Thread)
    requires Initial(s, disk) && Legal(s, schedule)
    requires t in Run(s, schedule).places && u in Run(s, schedule).places && t != u
    ensures var p, q := Run(s, schedule).places[t], Run(s, schedule).places[u];
            && !(HoldsPass(p) && HoldsPass(q))
            && !(HoldsPublication(p) && HoldsPublication(q))
            && !(HoldsCache(p) && HoldsCache(q))
  {
    InitialInv(s, disk);
    RunKeepsInv(s, schedule);
  }

  /** Whatever the threads have done, one that is not idle can go on. */
  lemma NobodyIsStuck(s: State, disk: map<App, string>, schedule: Schedule, busy: Thread) returns (t: Thread, a: Action)
    requires Initial(s, disk) && Legal(s, schedule)
    requires busy in Run(s, schedule).places && !Run(s, schedule).places[busy].Idle?
    ensures var now := Run(s, schedule);
            t in now.places && !now.places[t].Idle? && !a.SetManaged? && Enabled(now, t, a)
  {
    hide Run, Legal, Initial, Enabled, Onward, PairOk, TokenOk, EventOk, GenerationOk;
    InitialInv(s, disk);
    RunKeepsInv(s, schedule);
    var now := Run(s, schedule);
    t := if now.cacheLock.Some? then now.cacheLock.value
         else if now.publicationLock.Some? then now.publicationLock.value
         else if now.passLock.Some? then now.passLock.value
         else busy;
    assert MutexAt(now, t) && MutexAt(now, busy) && PlaceOk(now, now.places[t]);
    a := Onward(now.places[t]);
    OnwardWaits(now.places[t]);
    OnwardIsEnabled(now, t);
  }

  lemma OnwardIsEnabled(s: State, t: Thread)
    requires t in s.places && !s.places[t].Idle? && PlaceOk(s, s.places[t])
    requires Onward(s.places[t]).LockPublication? ==> s.publicationLock.None?
    requires Onward(s.places[t]).LockCache? ==> s.cacheLock.None?
    ensures Enabled(s, t, Onward(s.places[t]))
  {
  }

  /** The publication lock is awaited only without the cache lock, and neither by a
      thread that holds it. */
  lemma OnwardWaits(p: Place)
    requires !p.Idle?
    ensures Onward(p).LockPublication? ==> !HoldsPublication(p) && !HoldsCache(p)
    ensures Onward(p).LockCache? ==> !HoldsCache(p)
    ensures !Onward(p).SetManaged?
  {
  }

  /** A step that leads on from a place. */
  function Onward(p: Place): Action {
    match p
    case Idle => SetManaged(0, true)
    case SnapshotPass(app) => ReadManaged
    case SnapshotManaged(app, managed, read) => LockPublication
    case SnapshotPublication(app, managed, read) => IssueToken
    case PersistPublication(token, wire) => LockCache
    case PersistLocked(token, wire) => CheckToken
    case PersistAllowed(token, wire) => WritePair
    case PersistWritten(token) => ClearInvalidation
    case ForgetPass(app) => LockPublication
    case ForgetPublication(app) => BumpGeneration
    case ForgetBumped(app) => MarkInvalid
    case ForgetMarked(app) => UnlockPublication
    case ForgetLeavePass(app) => UnlockPass
    case Cleanup(app) => LockPublication
    case CleanupPublication(app) => LockCache
    case CleanupLocked(app) => Quarantine(true)
    case ReadLocked(app, began) => CheckRead
    case ReadChecked(app, began, checked) => FinishRead
    case LeaveCacheAndPublication => UnlockCache
    case LeavePublicationAndPass => UnlockPublication
    case LeavePublication => UnlockPublication
    case LeavePass => UnlockPass
    case LeaveCache => UnlockCache
  }
}

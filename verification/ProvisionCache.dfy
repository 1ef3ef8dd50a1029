/** The operations of the publication protocol as one thread runs them, on the
    shared maps of src/feats/appinfo_provision.cpp, and their place in the
    interleaved protocol of module Publication. */
module ProvisionCache {
  import opened Common
  import opened Publication

  /** The shared state without what only the interleaving needs. */
  datatype Shared = Shared(
    managed: set<App>,
    generations: map<App, UInt64>,
    invalidated: set<App>,
    pairs: map<App, string>)

  function View(s: State): Shared {
    Shared(s.managed, s.generations, s.invalidated, map app | app in s.pairs :: s.pairs[app].wire)
  }

  /** What the lock, the checks and the files allow a publication that passed its
      gate: the memo of what was written can fail after the write. */
  datatype Outcome = LockMissed | Refused | WriteFailed(residue: Residue) | Written(memoized: bool)

  // ------------------------------------------------------- what each operation does

  function AfterForget(v: Shared, app: App, removed: bool): Shared {
    v.(generations := Bumped(v.generations, app),
       invalidated := v.invalidated + {app},
       pairs := if removed then v.pairs - {app} else v.pairs)
  }

  function AfterPersist(v: Shared, token: Token, wire: string, outcome: Outcome): Shared {
    if outcome.LockMissed? || !Allowed(token, v.generations) then v
    else match outcome
      case WriteFailed(OldPair) => v
      case WriteFailed(NoPair) => v.(pairs := v.pairs - {token.app})
      case WriteFailed(NewPair) => v.(pairs := v.pairs[token.app := wire])
      case Written(_) => v.(pairs := v.pairs[token.app := wire], invalidated := v.invalidated - {token.app})
      case _ => v
  }

  function ReadOf(v: Shared, app: App): Option<string> {
    if app in v.pairs && app !in v.invalidated then Some(v.pairs[app]) else None
  }

  /** `CachePublicationToken`. */
  datatype PublicationToken = PublicationToken(managed: bool, generation: UInt64)

  function Stamped(app: App, publication: PublicationToken, issued: nat): Token {
    Token(app, publication.managed, publication.generation, issued, issued)
  }

  /** The token may publish: its app was managed at the snapshot and has been
      forgotten a multiple of 2^64 times since. */
  predicate IsFresh(log: seq<Event>, token: Token) {
    token.managed && token.issued <= |log| && ForgetsBetween(log, token.app, token.issued, |log|) % TWO64 == 0
  }

  /** What a publication adds to the history. */
  function Additions(token: Token, wire: string, outcome: Outcome): seq<Event> {
    match outcome
    case Written(_) => [Published(token, wire)]
    case WriteFailed(NewPair) => [Left(token, wire)]
    case _ => []
  }

  predicate GenerationsCount(generations: map<App, UInt64>, log: seq<Event>, app: App) {
    Generation(generations, app) == Forgets(log, app) % TWO64
  }

  /** A pair is what the event at `place` put on disk; it is newer than the last
      forget of its app unless the app is marked. */
  predicate PairStands(log: seq<Event>, app: App, wire: string, place: nat, marked: bool) {
    && place < |log| && Wrote(log[place], app, wire)
    && (!marked ==> NotForgotten(log, app, place, |log|))
  }

  lemma ForgottenOnce(generations: map<App, UInt64>, log: seq<Event>, app: App, x: App)
    requires GenerationsCount(generations, log, x)
    ensures GenerationsCount(Bumped(generations, app), log + [Forgotten(app)], x)
  {
    ForgetsOfAppend(log, Forgotten(app), x);
    AddOne(Forgets(log, x));
  }

  lemma OtherEvent(generations: map<App, UInt64>, log: seq<Event>, e: Event, x: App)
    requires GenerationsCount(generations, log, x) && !e.Forgotten?
    ensures GenerationsCount(generations, log + [e], x)
  {
    ForgetsOfAppend(log, e, x);
  }

  lemma PairStays(log: seq<Event>, e: Event, app: App, wire: string, place: nat, marked: bool, marked': bool)
    requires PairStands(log, app, wire, place, marked)
    requires (marked ==> marked') && (e == Forgotten(app) ==> marked')
    ensures PairStands(log + [e], app, wire, place, marked')
  {
  }

  /** The gate as the history sees it. */
  lemma GateIsFresh(generations: map<App, UInt64>, log: seq<Event>, token: Token)
    requires GenerationsCount(generations, log, token.app) && TokenOk(log, token)
    ensures Allowed(token, generations) <==> IsFresh(log, token)
  {
    AllowedExactly(generations, log, token);
  }

  /** The globals of the provisioner. `log` is the history of the operations on
      them, and `places` says which event put each pair on disk. */
  class Provisioner {
    var managed: set<App>
    var generations: map<App, UInt64>
    var invalidated: set<App>
    var pairs: map<App, string>
    ghost var log: seq<Event>
    ghost var places: map<App, nat>

    function Now(): Shared
      reads this
    {
      Shared(managed, generations, invalidated, pairs)
    }

    /** Generations count forgets modulo 2^64, a pair of an app that is not marked
        is newer than the app's last forget, and app 0 is never marked. */
    ghost predicate Valid()
      reads this
    {
      && 0 !in invalidated
      && (forall app: App :: GenerationsCount(generations, log, app) && (app in managed <==> IsManaged(log, app)))
      && places.Keys == pairs.Keys
      && (forall app :: app in pairs ==> PairStands(log, app, pairs[app], places[app], app in invalidated))
    }

    /** A process starts with the pairs an earlier one left. */
    constructor (managed: set<App>, disk: map<App, string>)
      ensures Valid() && log == [Started(disk, managed)] && this.managed == managed && pairs == disk
      ensures generations == map[] && invalidated == {}
    {
      this.managed, generations, invalidated, pairs := managed, map[], {}, disk;
      log, places := [Started(disk, managed)], map app | app in disk :: 0;
      new;
      forall app: App ensures GenerationsCount(generations, log, app) && (app in managed <==> IsManaged(log, app)) {
        assert log[..0] == [];
      }
    }

    /** The configuration names an app, or no longer does. */
    method SetManaged(app: App, isManaged: bool)
      requires Valid()
      modifies this`managed, this`log
      ensures Valid() && log == old(log) + [Managed(app, isManaged)]
      ensures managed == if isManaged then old(managed) + {app} else old(managed) - {app}
    {
      managed := if isManaged then managed + {app} else managed - {app};
      log := log + [Managed(app, isManaged)];
      forall x: App ensures GenerationsCount(generations, log, x) && (x in managed <==> IsManaged(log, x)) {
        OtherEvent(generations, old(log), Managed(app, isManaged), x);
        IsManagedOfAppend(old(log), Managed(app, isManaged), x);
      }
      forall x | x in pairs ensures PairStands(log, x, pairs[x], places[x], x in invalidated) {
        PairStays(old(log), Managed(app, isManaged), x, pairs[x], places[x], x in invalidated, x in invalidated);
      }
    }

    /** `snapshotCachePublication`: the generation is the number of forgets. */
    method SnapshotCachePublication(app: App) returns (publication: PublicationToken, ghost issued: nat)
      requires Valid()
      modifies this`log
      ensures Valid() && issued == |old(log)|
      ensures publication.managed == IsManaged(old(log), app)
      ensures publication.generation == Forgets(old(log), app) % TWO64
      ensures log == old(log) + [Snapshotted(Stamped(app, publication, issued))]
      ensures TokenOk(log, Stamped(app, publication, issued))
    {
      publication := PublicationToken(app in managed, if app in generations then generations[app] else 0);
      issued := |log|;
      assert GenerationsCount(generations, log, app);
      Record(Snapshotted(Stamped(app, publication, issued)));
      assert log[..issued] == old(log);
    }

    /** Something other than a forget happened. */
    ghost method Record(e: Event)
      requires Valid() && !e.Forgotten? && !e.Managed? && !e.Started?
      modifies this`log
      ensures Valid() && log == old(log) + [e]
    {
      log := log + [e];
      forall app: App ensures GenerationsCount(generations, log, app) && (app in managed <==> IsManaged(log, app)) {
        OtherEvent(generations, old(log), e, app);
        IsManagedOfAppend(old(log), e, app);
      }
      forall app | app in pairs ensures PairStands(log, app, pairs[app], places[app], app in invalidated) {
        PairStays(old(log), e, app, pairs[app], places[app], app in invalidated, app in invalidated);
      }
    }

    /** `clearCacheReadInvalidation`. The app's pair becomes readable, and the maps
        still mean what they should exactly when it is newer than the last forget. */
    method ClearCacheReadInvalidation(app: App)
      requires Valid()
      modifies this`invalidated
      ensures invalidated == old(invalidated) - {app}
      ensures app in pairs ==> ReadOf(Now(), app) == Some(pairs[app])
      ensures Valid() <==> (app in pairs ==> NotForgotten(log, app, places[app], |log|))
    {
      assert app in pairs ==> PairStands(log, app, pairs[app], places[app], app in invalidated);
      if app == 0 {
        return;
      }
      invalidated := invalidated - {app};
      if app in pairs && !NotForgotten(log, app, places[app], |log|) {
        assert !PairStands(log, app, pairs[app], places[app], app in invalidated);
      }
    }

    /** A pair reaches the disk. */
    method PutPair(app: App, wire: string, ghost e: Event)
      requires Valid() && Wrote(e, app, wire) && !e.Started?
      modifies this`pairs, this`places, this`log
      ensures Valid() && pairs == old(pairs)[app := wire] && log == old(log) + [e]
      ensures NotForgotten(log, app, places[app], |log|)
    {
      ghost var place := |log|;
      Record(e);
      pairs := pairs[app := wire];
      places := places[app := place];
    }

    /** `persistBuffer`. A pair reaches the disk only by a fresh token, the call
        succeeds only then, and a stale one changes nothing. */
    method PersistBuffer(app: App, publication: PublicationToken, ghost issued: nat, wire: string, outcome: Outcome)
      returns (ok: bool)
      requires Valid() && TokenOk(log, Stamped(app, publication, issued))
      modifies this`pairs, this`invalidated, this`log, this`places
      ensures Valid()
      ensures ok == (IsFresh(old(log), Stamped(app, publication, issued)) && outcome == Written(true))
      ensures log == old(log) + if IsFresh(old(log), Stamped(app, publication, issued))
                                then Additions(Stamped(app, publication, issued), wire, outcome) else []
      ensures Now() == AfterPersist(old(Now()), Stamped(app, publication, issued), wire, outcome)
      ensures !IsFresh(old(log), Stamped(app, publication, issued)) ==> Now() == old(Now())
      ensures ok ==> ReadOf(Now(), app) == Some(wire)
    {
      ghost var token := Stamped(app, publication, issued);
      GateIsFresh(generations, log, token);
      var current := if app in generations then generations[app] else 0;
      if outcome.LockMissed? || !publication.managed || publication.generation != current {
        return false;
      }
      if outcome.Refused? {
        return false;
      }
      if outcome.WriteFailed? {
        match outcome.residue {
          case OldPair =>
          case NoPair =>
            pairs, places := pairs - {app}, places - {app};
          case NewPair =>
            PutPair(app, wire, Left(token, wire));
        }
        return false;
      }
      PutPair(app, wire, Published(token, wire));
      ClearCacheReadInvalidation(app);
      return outcome.memoized;
    }

    /** `forgetAppImpl`; `locked` and `removed` are what the lock and the files
        allow. No token that could publish before can publish afterwards, and
        nothing of the app can be read. */
    method ForgetApp(app: App, locked: bool, removed: bool) returns (complete: bool)
      requires Valid()
      modifies this`generations, this`invalidated, this`pairs, this`log, this`places
      ensures Valid() && complete == (app != 0 && locked && removed)
      ensures log == old(log) + if app == 0 then [] else [Forgotten(app)]
      ensures Now() == if app == 0 then old(Now()) else AfterForget(old(Now()), app, locked && removed)
      ensures app != 0 ==> ReadOf(Now(), app) == None
      ensures app != 0 ==> forall token: Token ::
                token.app == app && Allowed(token, old(generations)) ==> !Allowed(token, generations)
    {
      if app == 0 {
        return false;
      }
      generations := generations[app := ((if app in generations then generations[app] else 0) + 1) % TWO64];
      invalidated := invalidated + {app};
      log := log + [Forgotten(app)];
      NowForgotten(old(generations), old(log), app);
      if locked && removed {
        pairs, places := pairs - {app}, places - {app};
      }
      return locked && removed;
    }

    /** The invariant after a forget is marked. */
    ghost method NowForgotten(before: map<App, UInt64>, history: seq<Event>, app: App)
      requires generations == Bumped(before, app) && log == history + [Forgotten(app)]
      requires app != 0 && 0 !in invalidated && app in invalidated && places.Keys == pairs.Keys
      requires forall x: App :: GenerationsCount(before, history, x) && (x in managed <==> IsManaged(history, x))
      requires forall x :: x in pairs ==> PairStands(history, x, pairs[x], places[x], x in invalidated || x == app)
      ensures Valid()
    {
      forall x: App ensures GenerationsCount(generations, log, x) && (x in managed <==> IsManaged(log, x)) {
        ForgottenOnce(before, history, app, x);
        IsManagedOfAppend(history, Forgotten(app), x);
      }
      forall x | x in pairs ensures PairStands(log, x, pairs[x], places[x], x in invalidated) {
        PairStays(history, Forgotten(app), x, pairs[x], places[x], x in invalidated || x == app, x in invalidated);
      }
    }

    /** `readValidatedCacheBuffer`; `consistent` says that digest and marker agree
        with the metadata. What is returned was put on disk after the last forget
        of the app. */
    method ReadValidatedCacheBuffer(app: App, locked: bool, consistent: bool) returns (buffer: Option<string>)
      requires Valid()
      ensures buffer == if locked && consistent then ReadOf(Now(), app) else None
      ensures buffer.Some? ==>
                && app in places && places[app] < |log| && Wrote(log[places[app]], app, buffer.value)
                && NotForgotten(log, app, places[app], |log|)
    {
      if !locked || app !in pairs {
        return None;
      }
      if app in invalidated {
        return None;
      }
      if !consistent {
        return None;
      }
      assert PairStands(log, app, pairs[app], places[app], false);
      return Some(pairs[app]);
    }
  }

  /** A token from before a forget is refused and leaves the app unreadable; one
      from after it publishes what is then read. */
  method RepublishAfterForget(p: Provisioner, app: App, wire: string, locked: bool, removed: bool)
    returns (stale: bool, unread: Option<string>, republished: bool, read: Option<string>)
    requires p.Valid() && app != 0
    modifies p
    ensures p.Valid() && !stale && unread == None
    ensures republished == (app in p.managed) && (republished ==> read == Some(wire))
  {
    ghost var before := p.log;
    var early, issued := p.SnapshotCachePublication(app);
    ghost var token := Stamped(app, early, issued);
    var _ := p.ForgetApp(app, locked, removed);
    OneForgetIsStale(before, app, token);
    stale := p.PersistBuffer(app, early, issued, wire, Written(true));
    unread := p.ReadValidatedCacheBuffer(app, true, true);
    ghost var now := p.log;
    var late, reissued := p.SnapshotCachePublication(app);
    NoForgetIsFresh(now, app, Stamped(app, late, reissued));
    republished := p.PersistBuffer(app, late, reissued, wire, Written(true));
    read := p.ReadValidatedCacheBuffer(app, true, true);
  }

  lemma OneForgetIsStale(before: seq<Event>, app: App, token: Token)
    requires token.app == app && token.issued == |before|
    ensures var log := before + [Snapshotted(token)] + [Forgotten(app)];
            !IsFresh(log, token) && (TokenOk(before + [Snapshotted(token)], token) ==> TokenOk(log, token))
  {
    var middle := before + [Snapshotted(token)];
    var log := middle + [Forgotten(app)];
    ForgetsOfAppend(before, Snapshotted(token), app);
    ForgetsOfAppend(middle, Forgotten(app), app);
    assert log[..|log|] == log && log[..token.issued] == before;
    if TokenOk(middle, token) {
      TokenStays(middle, log, token);
    }
  }

  lemma NoForgetIsFresh(before: seq<Event>, app: App, token: Token)
    requires token.app == app && token.issued == |before|
    ensures IsFresh(before + [Snapshotted(token)], token) <==> token.managed
  {
    var log := before + [Snapshotted(token)];
    ForgetsOfAppend(before, Snapshotted(token), app);
    assert log[..|log|] == log && log[..token.issued] == before;
  }

  // ------------------------------------------- one thread alone runs the operations

  /** No thread is in an operation that holds a lock, and `t` is in none. */
  predicate Quiet(s: State, t: Thread) {
    && t in s.places && s.places[t] == Idle
    && s.passLock == None && s.publicationLock == None && s.cacheLock == None
  }

  /** Thread `t` takes the steps one after the other and ends in `end`. */
  predicate Alone(s: State, t: Thread, actions: seq<Action>, end: State)
    decreases |actions|
  {
    if actions == [] then s == end
    else Enabled(s, t, actions[0]) && Alone(Apply(s, t, actions[0]), t, actions[1..], end)
  }

  function By(t: Thread, actions: seq<Action>): Schedule
    decreases |actions|
  {
    if actions == [] then [] else [(t, actions[0])] + By(t, actions[1..])
  }

  lemma {:induction false} AloneIsARun(s: State, t: Thread, actions: seq<Action>, end: State)
    requires Alone(s, t, actions, end)
    ensures Legal(s, By(t, actions)) && Run(s, By(t, actions)) == end
    decreases |actions|
  {
    hide Enabled, Apply;
    if actions != [] {
      AloneIsARun(Apply(s, t, actions[0]), t, actions[1..], end);
      assert By(t, actions)[1..] == By(t, actions[1..]);
    }
  }

  lemma {:induction false} AloneThen(s: State, t: Thread, x: seq<Action>, middle: State, y: seq<Action>, end: State)
    requires Alone(s, t, x, middle) && Alone(middle, t, y, end)
    ensures Alone(s, t, x + y, end)
    decreases |x|
  {
    hide Enabled, Apply;
    if x == [] {
      assert x + y == y;
    } else {
      assert (x + y)[1..] == x[1..] + y;
      AloneThen(Apply(s, t, x[0]), t, x[1..], middle, y, end);
    }
  }

  /** The step `a` leads from `s` to `next`. */
  predicate Leads(s: State, t: Thread, a: Action, next: State) {
    Enabled(s, t, a) && Apply(s, t, a) == next
  }

  lemma First(s: State, t: Thread, a: Action, next: State, rest: seq<Action>, end: State)
    requires Leads(s, t, a, next) && Alone(next, t, rest, end)
    ensures Alone(s, t, [a] + rest, end)
  {
    hide Enabled, Apply;
    assert ([a] + rest)[1..] == rest;
  }

  lemma Two(s: State, t: Thread, a: Action, s1: State, b: Action, s2: State)
    requires Leads(s, t, a, s1) && Leads(s1, t, b, s2)
    ensures Alone(s, t, [a, b], s2)
  {
    hide Leads;
    assert Alone(s2, t, [], s2);
    First(s1, t, b, s2, [], s2);
    assert [b] + [] == [b] && [a] + [b] == [a, b];
    First(s, t, a, s1, [b], s2);
  }

  lemma Three(s: State, t: Thread, a: Action, s1: State, b: Action, s2: State, c: Action, s3: State)
    requires Leads(s, t, a, s1) && Leads(s1, t, b, s2) && Leads(s2, t, c, s3)
    ensures Alone(s, t, [a, b, c], s3)
  {
    hide Leads, Alone;
    Two(s1, t, b, s2, c, s3);
    assert [a] + [b, c] == [a, b, c];
    First(s, t, a, s1, [b, c], s3);
  }

  /** The state with the publication lock taken by `t`. */
  function Inner(s: State, t: Thread, p: Place): State {
    At(s, t, p).(publicationLock := Some(t))
  }

  lemma LeavePublicationLeads(s: State, t: Thread, end: State)
    requires Quiet(end, t) && At(s, t, Idle) == end
    ensures Leads(Inner(s, t, LeavePublication), t, UnlockPublication, end)
  {
  }

  /** The state with the two inner locks taken by `t`. */
  function Locked(s: State, t: Thread, p: Place): State {
    At(s, t, p).(publicationLock := Some(t), cacheLock := Some(t))
  }

  /** Both locks are released in the order in which C++ destroys the guards. */
  lemma UnlockBoth(s: State, t: Thread)
    requires Quiet(s, t)
    ensures Alone(Locked(s, t, LeaveCacheAndPublication), t, [UnlockCache, UnlockPublication], s)
  {
    hide Alone;
    var s0, s1 := Locked(s, t, LeaveCacheAndPublication), Inner(s, t, LeavePublication);
    assert Leads(s0, t, UnlockCache, s1);
    LeavePublicationLeads(s, t, s);
    Two(s0, t, UnlockCache, s1, UnlockPublication, s);
  }

  // ------------------------------------------------------------------ forgetting

  function AnnounceSteps(app: App): seq<Action> {
    [StartForget(app), LockPublication, BumpGeneration] + [MarkInvalid, UnlockPublication, UnlockPass]
  }

  function CleanupSteps(locked: bool, removed: bool): seq<Action> {
    if locked then [LockPublication, LockCache, Quarantine(removed)] + [UnlockCache, UnlockPublication]
    else [LockPublication, MissCache, UnlockPublication]
  }

  /** The state when the generation is bumped and marked and the cleanup is due. */
  function Announced(s: State, t: Thread, app: App): State {
    At(s, t, Cleanup(app)).(generations := Bumped(s.generations, app),
                            invalidated := s.invalidated + {app},
                            log := s.log + [Forgotten(app)])
  }

  lemma ForgetStarts(s: State, t: Thread, app: App, s1: State)
    requires Quiet(s, t) && app != 0 && s1 == At(s, t, ForgetPass(app)).(passLock := Some(t))
    ensures Leads(s, t, StartForget(app), s1)
  {
  }

  lemma BumpLeads(s: State, t: Thread, app: App, s1: State, s2: State, s3: State)
    requires Quiet(s, t) && s1 == At(s, t, ForgetPass(app)).(passLock := Some(t))
    requires s2 == At(s, t, ForgetPublication(app)).(passLock := Some(t), publicationLock := Some(t))
    requires s3 == At(s2, t, ForgetBumped(app)).(generations := Bumped(s.generations, app))
    ensures Leads(s1, t, LockPublication, s2) && Leads(s2, t, BumpGeneration, s3)
  {
    hide Bumped;
  }

  lemma AnnounceAlone(s: State, t: Thread, app: App)
    requires Quiet(s, t) && app != 0
    ensures Alone(s, t, AnnounceSteps(app), Announced(s, t, app))
  {
    hide Alone, Leads;
    var s1 := At(s, t, ForgetPass(app)).(passLock := Some(t));
    var s2 := At(s, t, ForgetPublication(app)).(passLock := Some(t), publicationLock := Some(t));
    var s3 := At(s2, t, ForgetBumped(app)).(generations := Bumped(s.generations, app));
    ForgetStarts(s, t, app, s1);
    BumpLeads(s, t, app, s1, s2, s3);
    Three(s, t, StartForget(app), s1, LockPublication, s2, BumpGeneration, s3);
    MarkAlone(s, t, app, s3);
    AloneThen(s, t, [StartForget(app), LockPublication, BumpGeneration], s3,
              [MarkInvalid, UnlockPublication, UnlockPass], Announced(s, t, app));
  }

  lemma MarkAlone(s: State, t: Thread, app: App, s3: State)
    requires Quiet(s, t)
    requires s3 == At(s, t, ForgetBumped(app)).(passLock := Some(t), publicationLock := Some(t),
                                                generations := Bumped(s.generations, app))
    ensures Alone(s3, t, [MarkInvalid, UnlockPublication, UnlockPass], Announced(s, t, app))
  {
    hide Alone;
    var s6 := Announced(s, t, app);
    var s5 := At(s6, t, ForgetLeavePass(app)).(passLock := Some(t));
    var s4 := At(s6, t, ForgetMarked(app)).(passLock := Some(t), publicationLock := Some(t));
    assert Leads(s3, t, MarkInvalid, s4);
    UnlockLeads(s6, t, app, s4, s5);
    Three(s3, t, MarkInvalid, s4, UnlockPublication, s5, UnlockPass, s6);
  }

  lemma UnlockLeads(s6: State, t: Thread, app: App, s4: State, s5: State)
    requires t in s6.places && s6.places[t] == Cleanup(app) && s6.passLock == None && s6.publicationLock == None
    requires s4 == At(s6, t, ForgetMarked(app)).(passLock := Some(t), publicationLock := Some(t))
    requires s5 == At(s6, t, ForgetLeavePass(app)).(passLock := Some(t))
    ensures Leads(s4, t, UnlockPublication, s5) && Leads(s5, t, UnlockPass, s6)
  {
    hide Generation, Bumped, AfterFailure, Allowed;
  }

  lemma CleanupStarts(s: State, t: Thread, app: App)
    requires t in s.places && s.places[t] == Cleanup(app) && s.publicationLock == None
    ensures Leads(s, t, LockPublication, Inner(s, t, CleanupPublication(app)))
  {
  }

  lemma MissLeads(s: State, t: Thread, p: Place)
    requires p.PersistPublication? || p.CleanupPublication?
    ensures Leads(Inner(s, t, p), t, MissCache, Inner(s, t, LeavePublication))
  {
  }

  lemma CleanupLocks(s: State, t: Thread, app: App)
    requires s.cacheLock == None
    ensures Leads(Inner(s, t, CleanupPublication(app)), t, LockCache, Locked(s, t, CleanupLocked(app)))
  {
  }

  lemma QuarantineLeads(s: State, t: Thread, app: App, removed: bool, end: State)
    requires At(s, t, Idle).(pairs := end.pairs) == end
    requires end.pairs == if removed then s.pairs - {app} else s.pairs
    ensures Leads(Locked(s, t, CleanupLocked(app)), t, Quarantine(removed), Locked(end, t, LeaveCacheAndPublication))
  {
  }

  lemma CleanupAlone(s: State, t: Thread, app: App, removed: bool, end: State)
    requires Quiet(end, t) && At(s, t, Idle).(pairs := end.pairs) == end && s.places == end.places[t := Cleanup(app)]
    requires end.pairs == if removed then s.pairs - {app} else s.pairs
    ensures Alone(s, t, CleanupSteps(true, removed), end)
  {
    hide Alone, Leads;
    var s1 := Inner(s, t, CleanupPublication(app));
    var s2 := Locked(s, t, CleanupLocked(app));
    var s3 := Locked(end, t, LeaveCacheAndPublication);
    CleanupStarts(s, t, app);
    CleanupLocks(s, t, app);
    QuarantineLeads(s, t, app, removed, end);
    Three(s, t, LockPublication, s1, LockCache, s2, Quarantine(removed), s3);
    UnlockBoth(end, t);
    AloneThen(s, t, [LockPublication, LockCache, Quarantine(removed)], s3, [UnlockCache, UnlockPublication], end);
  }

  lemma MissedCleanupAlone(s: State, t: Thread, app: App, removed: bool, end: State)
    requires Quiet(end, t) && At(s, t, Idle) == end && s.places == end.places[t := Cleanup(app)]
    ensures Alone(s, t, CleanupSteps(false, removed), end)
  {
    hide Alone, Leads;
    var s1, s2 := Inner(s, t, CleanupPublication(app)), Inner(s, t, LeavePublication);
    CleanupStarts(s, t, app);
    MissLeads(s, t, CleanupPublication(app));
    LeavePublicationLeads(s, t, end);
    Three(s, t, LockPublication, s1, MissCache, s2, UnlockPublication, end);
  }

  function Forgot(s: State, app: App, removed: bool): State {
    s.(generations := Bumped(s.generations, app),
       invalidated := s.invalidated + {app},
       pairs := if removed then s.pairs - {app} else s.pairs,
       log := s.log + [Forgotten(app)])
  }

  /** `forgetAppImpl` on its own is a run of the protocol with the same effect. */
  lemma ForgetAlone(s: State, t: Thread, app: App, locked: bool, removed: bool)
    requires Quiet(s, t) && app != 0
    ensures var end := Forgot(s, app, locked && removed);
            && Alone(s, t, AnnounceSteps(app) + CleanupSteps(locked, removed), end)
            && View(end) == AfterForget(View(s), app, locked && removed)
  {
    hide Alone;
    var middle, end := Announced(s, t, app), Forgot(s, app, locked && removed);
    AnnounceAlone(s, t, app);
    assert At(middle, t, Idle).places == s.places;
    if locked {
      CleanupAlone(middle, t, app, removed, end);
    } else {
      MissedCleanupAlone(middle, t, app, removed, end);
    }
    AloneThen(s, t, AnnounceSteps(app), middle, CleanupSteps(locked, removed), end);
  }

  // ------------------------------------------------------------------ publishing

  function FinishSteps(allowed: bool, outcome: Outcome): seq<Action> {
    if !allowed then [UnlockCache, UnlockPublication]
    else match outcome
      case WriteFailed(residue) => [FailWrite(residue), UnlockCache, UnlockPublication]
      case Written(_) => [WritePair, ClearInvalidation] + [UnlockCache, UnlockPublication]
      case _ => [RefusePair, UnlockCache, UnlockPublication]
  }

  function PersistSteps(token: Token, wire: string, allowed: bool, outcome: Outcome): seq<Action> {
    if outcome.LockMissed? then [StartPersist(token, wire), MissCache, UnlockPublication]
    else [StartPersist(token, wire), LockCache, CheckToken] + FinishSteps(allowed, outcome)
  }

  function Persisted(s: State, token: Token, wire: string, outcome: Outcome): State {
    if outcome.LockMissed? || !Allowed(token, s.generations) then s
    else match outcome
      case WriteFailed(residue) =>
        s.(pairs := AfterFailure(s.pairs, token.app, wire, |s.log|, residue),
           log := if residue.NewPair? then s.log + [Left(token, wire)] else s.log)
      case Written(_) => s.(pairs := s.pairs[token.app := Pair(wire, |s.log|)],
                         invalidated := s.invalidated - {token.app},
                         log := s.log + [Published(token, wire)])
      case _ => s
  }

  /** `persistBuffer` on its own is a run of the protocol with the same effect. */
  lemma PersistAlone(s: State, t: Thread, token: Token, wire: string, outcome: Outcome)
    requires Quiet(s, t) && token in s.tokens
    ensures Alone(s, t, PersistSteps(token, wire, Allowed(token, s.generations), outcome),
                  Persisted(s, token, wire, outcome))
  {
    hide Alone, Leads, Allowed, Persisted, FinishSteps;
    var end := Persisted(s, token, wire, outcome);
    if outcome.LockMissed? {
      MissAlone(s, t, token, wire);
      PersistedMiss(s, token, wire);
    } else {
      var allowed := Allowed(token, s.generations);
      var s3 := Locked(s, t, if allowed then PersistAllowed(token, wire) else LeaveCacheAndPublication);
      GateAlone(s, t, token, wire);
      FinishPersist(s, t, token, wire, outcome);
      AloneThen(s, t, [StartPersist(token, wire), LockCache, CheckToken], s3, FinishSteps(allowed, outcome), end);
    }
  }

  lemma PersistedMiss(s: State, token: Token, wire: string)
    ensures Persisted(s, token, wire, LockMissed) == s
  {
  }

  lemma PersistStarts(s: State, t: Thread, token: Token, wire: string)
    requires Quiet(s, t) && token in s.tokens
    ensures Leads(s, t, StartPersist(token, wire), Inner(s, t, PersistPublication(token, wire)))
  {
  }

  lemma MissAlone(s: State, t: Thread, token: Token, wire: string)
    requires Quiet(s, t) && token in s.tokens
    ensures Alone(s, t, [StartPersist(token, wire), MissCache, UnlockPublication], s)
  {
    hide Alone, Leads;
    var s1, s2 := Inner(s, t, PersistPublication(token, wire)), Inner(s, t, LeavePublication);
    PersistStarts(s, t, token, wire);
    MissLeads(s, t, PersistPublication(token, wire));
    LeavePublicationLeads(s, t, s);
    Three(s, t, StartPersist(token, wire), s1, MissCache, s2, UnlockPublication, s);
  }

  lemma PersistLocks(s: State, t: Thread, token: Token, wire: string)
    requires s.cacheLock == None
    ensures Leads(Inner(s, t, PersistPublication(token, wire)), t, LockCache, Locked(s, t, PersistLocked(token, wire)))
  {
  }

  lemma GateLeads(s: State, t: Thread, token: Token, wire: string)
    ensures Leads(Locked(s, t, PersistLocked(token, wire)), t, CheckToken,
                  Locked(s, t, if Allowed(token, s.generations) then PersistAllowed(token, wire)
                               else LeaveCacheAndPublication))
  {
    hide Allowed;
  }

  lemma GateAlone(s: State, t: Thread, token: Token, wire: string)
    requires Quiet(s, t) && token in s.tokens
    ensures Alone(s, t, [StartPersist(token, wire), LockCache, CheckToken],
                  Locked(s, t, if Allowed(token, s.generations) then PersistAllowed(token, wire)
                               else LeaveCacheAndPublication))
  {
    hide Alone, Leads, Allowed;
    var s1 := Inner(s, t, PersistPublication(token, wire));
    var s2 := Locked(s, t, PersistLocked(token, wire));
    var s3 := Locked(s, t, if Allowed(token, s.generations) then PersistAllowed(token, wire)
                           else LeaveCacheAndPublication);
    PersistStarts(s, t, token, wire);
    PersistLocks(s, t, token, wire);
    GateLeads(s, t, token, wire);
    Three(s, t, StartPersist(token, wire), s1, LockCache, s2, CheckToken, s3);
  }

  lemma PersistView(s: State, token: Token, wire: string, outcome: Outcome)
    ensures View(Persisted(s, token, wire, outcome)) == AfterPersist(View(s), token, wire, outcome)
  {
  }

  lemma FinishPersist(s: State, t: Thread, token: Token, wire: string, outcome: Outcome)
    requires Quiet(s, t) && !outcome.LockMissed?
    ensures var allowed := Allowed(token, s.generations);
            Alone(Locked(s, t, if allowed then PersistAllowed(token, wire) else LeaveCacheAndPublication), t,
                  FinishSteps(allowed, outcome), Persisted(s, token, wire, outcome))
  {
    hide Alone, Leads, Allowed, Persisted;
    var end := Persisted(s, token, wire, outcome);
    PersistedIsQuiet(s, t, token, wire, outcome);
    UnlockBoth(end, t);
    if Allowed(token, s.generations) {
      var s3 := Locked(s, t, PersistAllowed(token, wire));
      var last := Locked(end, t, LeaveCacheAndPublication);
      if outcome.Written? {
        WriteAlone(s, t, token, wire, outcome);
        AloneThen(s3, t, [WritePair, ClearInvalidation], last, [UnlockCache, UnlockPublication], end);
      } else {
        var a := if outcome.WriteFailed? then FailWrite(outcome.residue) else RefusePair;
        UnwrittenLeads(s, t, token, wire, outcome);
        assert [a] + [UnlockCache, UnlockPublication] == [a, UnlockCache, UnlockPublication];
        First(s3, t, a, last, [UnlockCache, UnlockPublication], end);
      }
    }
  }

  lemma PersistedIsQuiet(s: State, t: Thread, token: Token, wire: string, outcome: Outcome)
    requires Quiet(s, t)
    ensures Quiet(Persisted(s, token, wire, outcome), t)
    ensures !Allowed(token, s.generations) ==> Persisted(s, token, wire, outcome) == s
  {
  }

  lemma UnwrittenLeads(s: State, t: Thread, token: Token, wire: string, outcome: Outcome)
    requires Quiet(s, t) && Allowed(token, s.generations) && (outcome.Refused? || outcome.WriteFailed?)
    ensures Leads(Locked(s, t, PersistAllowed(token, wire)), t,
                  if outcome.WriteFailed? then FailWrite(outcome.residue) else RefusePair,
                  Locked(Persisted(s, token, wire, outcome), t, LeaveCacheAndPublication))
  {
  }

  lemma WriteLeads(s: State, t: Thread, token: Token, wire: string, outcome: Outcome, s4: State)
    requires Quiet(s, t) && Allowed(token, s.generations) && outcome.Written?
    requires s4 == At(Locked(Persisted(s, token, wire, outcome), t, LeaveCacheAndPublication), t,
                      PersistWritten(token)).(invalidated := s.invalidated)
    ensures Leads(Locked(s, t, PersistAllowed(token, wire)), t, WritePair, s4)
  {
    hide Allowed;
  }

  lemma WriteAlone(s: State, t: Thread, token: Token, wire: string, outcome: Outcome)
    requires Quiet(s, t) && Allowed(token, s.generations) && outcome.Written?
    ensures Alone(Locked(s, t, PersistAllowed(token, wire)), t, [WritePair, ClearInvalidation],
                  Locked(Persisted(s, token, wire, outcome), t, LeaveCacheAndPublication))
  {
    hide Alone;
    var s3 := Locked(s, t, PersistAllowed(token, wire));
    var last := Locked(Persisted(s, token, wire, outcome), t, LeaveCacheAndPublication);
    var s4 := At(last, t, PersistWritten(token)).(invalidated := s.invalidated);
    WriteLeads(s, t, token, wire, outcome, s4);
    assert Leads(s4, t, ClearInvalidation, last);
    Two(s3, t, WritePair, s4, ClearInvalidation, last);
  }

  // --------------------------------------------------------- snapshots and reads

  function SnapshotSteps(app: App): seq<Action> {
    [StartSnapshot(app), ReadManaged] + ([LockPublication, IssueToken, UnlockPublication] + [UnlockPass])
  }

  /** The token `snapshotCachePublication` returns. */
  function TokenOf(s: State, app: App): Token {
    Token(app, app in s.managed, Generation(s.generations, app), |s.log|, |s.log|)
  }

  function Snapped(s: State, app: App): State {
    s.(tokens := s.tokens + {TokenOf(s, app)}, log := s.log + [Snapshotted(TokenOf(s, app))])
  }

  lemma SnapshotAlone(s: State, t: Thread, app: App)
    requires Quiet(s, t)
    ensures Alone(s, t, SnapshotSteps(app), Snapped(s, app))
  {
    hide Leads;
    var end := Snapped(s, app);
    var s1 := At(s, t, SnapshotPass(app)).(passLock := Some(t));
    var s2 := At(s, t, SnapshotManaged(app, app in s.managed, |s.log|)).(passLock := Some(t));
    var s5 := At(end, t, LeavePass).(passLock := Some(t));
    ManagedLeads(s, t, app, s1, s2);
    Two(s, t, StartSnapshot(app), s1, ReadManaged, s2);
    IssueAlone(s, t, app, s2, s5);
    LeavePassLeads(end, t);
    assert Alone(end, t, [], end);
    First(s5, t, UnlockPass, end, [], end);
    assert [UnlockPass] + [] == [UnlockPass];
    AloneThen(s2, t, [LockPublication, IssueToken, UnlockPublication], s5, [UnlockPass], end);
    AloneThen(s, t, [StartSnapshot(app), ReadManaged], s2,
              [LockPublication, IssueToken, UnlockPublication] + [UnlockPass], end);
  }

  lemma ManagedLeads(s: State, t: Thread, app: App, s1: State, s2: State)
    requires Quiet(s, t)
    requires s1 == At(s, t, SnapshotPass(app)).(passLock := Some(t))
    requires s2 == At(s, t, SnapshotManaged(app, app in s.managed, |s.log|)).(passLock := Some(t))
    ensures Leads(s, t, StartSnapshot(app), s1) && Leads(s1, t, ReadManaged, s2)
  {
  }

  lemma LeavePassLeads(s: State, t: Thread)
    requires Quiet(s, t)
    ensures Leads(At(s, t, LeavePass).(passLock := Some(t)), t, UnlockPass, s)
  {
  }

  /** The state with the two outer locks taken by `t`. */
  function InnerPass(s: State, t: Thread, p: Place): State {
    At(s, t, p).(passLock := Some(t), publicationLock := Some(t))
  }

  lemma IssueStarts(s: State, t: Thread, app: App, s2: State)
    requires Quiet(s, t) && s2 == At(s, t, SnapshotManaged(app, app in s.managed, |s.log|)).(passLock := Some(t))
    ensures Leads(s2, t, LockPublication, Inner(s2, t, SnapshotPublication(app, app in s.managed, |s.log|)))
  {
  }

  lemma IssueLeads(s: State, t: Thread, app: App)
    ensures Leads(InnerPass(s, t, SnapshotPublication(app, app in s.managed, |s.log|)), t, IssueToken,
                  InnerPass(Snapped(s, app), t, LeavePublicationAndPass))
  {
  }

  lemma IssueLeaves(s5: State, t: Thread)
    requires t in s5.places && s5.places[t] == LeavePass && s5.publicationLock == None
    ensures Leads(Inner(s5, t, LeavePublicationAndPass), t, UnlockPublication, s5)
  {
  }

  lemma IssueAlone(s: State, t: Thread, app: App, s2: State, s5: State)
    requires Quiet(s, t)
    requires s2 == At(s, t, SnapshotManaged(app, app in s.managed, |s.log|)).(passLock := Some(t))
    requires s5 == At(Snapped(s, app), t, LeavePass).(passLock := Some(t))
    ensures Alone(s2, t, [LockPublication, IssueToken, UnlockPublication], s5)
  {
    hide Alone, Leads;
    var s3 := Inner(s2, t, SnapshotPublication(app, app in s.managed, |s.log|));
    var s4 := Inner(s5, t, LeavePublicationAndPass);
    IssueStarts(s, t, app, s2);
    IssueLeads(s, t, app);
    IssueLeaves(s5, t);
    assert s3 == InnerPass(s, t, SnapshotPublication(app, app in s.managed, |s.log|));
    assert s4 == InnerPass(Snapped(s, app), t, LeavePublicationAndPass);
    Three(s2, t, LockPublication, s3, IssueToken, s4, UnlockPublication, s5);
  }

  function ReadSteps(found: bool, consistent: bool): seq<Action> {
    if !found then [CheckRead, UnlockCache]
    else if consistent then [CheckRead, FinishRead, UnlockCache]
    else [CheckRead, RejectRead, UnlockCache]
  }

  function AfterRead(s: State, app: App, consistent: bool): State {
    if ReadOf(View(s), app).None? || !consistent then s
    else s.(log := s.log + [Returned(app, |s.log|, |s.log|, s.pairs[app].wire, s.pairs[app].written)])
  }

  /** `readValidatedCacheBuffer` on its own returns what `ReadOf` says, if digest and
      marker agree with the metadata, and leaves nothing changed. */
  lemma ReadAlone(s: State, t: Thread, app: App, consistent: bool)
    requires Quiet(s, t)
    ensures Alone(s, t, [StartRead(app)] + ReadSteps(ReadOf(View(s), app).Some?, consistent),
                  AfterRead(s, app, consistent))
  {
    hide Alone;
    var found := ReadOf(View(s), app).Some?;
    var s1 := At(s, t, ReadLocked(app, |s.log|)).(cacheLock := Some(t));
    assert Leads(s, t, StartRead(app), s1);
    if !found {
      NotFoundAlone(s, t, app, s1);
    } else if consistent {
      FoundAlone(s, t, app, s1);
    } else {
      RejectedAlone(s, t, app, s1);
    }
    First(s, t, StartRead(app), s1, ReadSteps(found, consistent), AfterRead(s, app, consistent));
  }

  function Checked(s: State, t: Thread, app: App): State {
    At(s, t, ReadChecked(app, |s.log|, |s.log|)).(cacheLock := Some(t))
  }

  lemma CheckLeads(s: State, t: Thread, app: App, s1: State)
    requires Quiet(s, t) && app in s.pairs && app !in s.invalidated
    requires s1 == At(s, t, ReadLocked(app, |s.log|)).(cacheLock := Some(t))
    ensures Leads(s1, t, CheckRead, Checked(s, t, app))
  {
  }

  lemma LeaveLeads(s: State, t: Thread)
    requires Quiet(s, t)
    ensures Leads(At(s, t, LeaveCache).(cacheLock := Some(t)), t, UnlockCache, s)
  {
  }

  lemma FinishLeads(s: State, t: Thread, app: App)
    requires app in s.pairs && app !in s.invalidated
    ensures Leads(Checked(s, t, app), t, FinishRead,
                  At(AfterRead(s, app, true), t, LeaveCache).(cacheLock := Some(t)))
  {
  }

  lemma RejectLeads(s: State, t: Thread, app: App)
    ensures Leads(Checked(s, t, app), t, RejectRead, At(s, t, LeaveCache).(cacheLock := Some(t)))
  {
  }

  lemma FoundAlone(s: State, t: Thread, app: App, s1: State)
    requires Quiet(s, t) && app in s.pairs && app !in s.invalidated
    requires s1 == At(s, t, ReadLocked(app, |s.log|)).(cacheLock := Some(t))
    ensures Alone(s1, t, [CheckRead, FinishRead, UnlockCache], AfterRead(s, app, true))
  {
    hide Alone, Leads;
    var end, s2 := AfterRead(s, app, true), Checked(s, t, app);
    var s3 := At(end, t, LeaveCache).(cacheLock := Some(t));
    CheckLeads(s, t, app, s1);
    FinishLeads(s, t, app);
    LeaveLeads(end, t);
    Three(s1, t, CheckRead, s2, FinishRead, s3, UnlockCache, end);
  }

  lemma RejectedAlone(s: State, t: Thread, app: App, s1: State)
    requires Quiet(s, t) && app in s.pairs && app !in s.invalidated
    requires s1 == At(s, t, ReadLocked(app, |s.log|)).(cacheLock := Some(t))
    ensures Alone(s1, t, [CheckRead, RejectRead, UnlockCache], s)
  {
    hide Alone, Leads;
    var s2 := Checked(s, t, app);
    var s3 := At(s, t, LeaveCache).(cacheLock := Some(t));
    CheckLeads(s, t, app, s1);
    RejectLeads(s, t, app);
    LeaveLeads(s, t);
    Three(s1, t, CheckRead, s2, RejectRead, s3, UnlockCache, s);
  }

  lemma NotFoundAlone(s: State, t: Thread, app: App, s1: State)
    requires Quiet(s, t) && (app !in s.pairs || app in s.invalidated)
    requires s1 == At(s, t, ReadLocked(app, |s.log|)).(cacheLock := Some(t))
    ensures Alone(s1, t, [CheckRead, UnlockCache], s)
  {
    hide Alone;
    var s2 := At(s, t, LeaveCache).(cacheLock := Some(t));
    assert Leads(s1, t, CheckRead, s2);
    LeaveLeads(s, t);
    Two(s1, t, CheckRead, s2, UnlockCache, s);
  }

  // ------------------------------------------------------- the generation wraps around

  function ForgetTimes(s: State, app: App, n: nat): State {
    if n == 0 then s else Forgot(ForgetTimes(s, app, n - 1), app, false)
  }

  function ForgetTimesSteps(app: App, n: nat): seq<Action> {
    if n == 0 then [] else ForgetTimesSteps(app, n - 1) + (AnnounceSteps(app) + CleanupSteps(false, false))
  }

  lemma {:induction false} ForgetTimesAlone(s: State, t: Thread, app: App, n: nat)
    requires Quiet(s, t) && app != 0
    ensures Quiet(ForgetTimes(s, app, n), t)
    ensures Alone(s, t, ForgetTimesSteps(app, n), ForgetTimes(s, app, n))
  {
    if n > 0 {
      var middle := ForgetTimes(s, app, n - 1);
      ForgetTimesAlone(s, t, app, n - 1);
      ForgetAlone(middle, t, app, false, false);
      AloneThen(s, t, ForgetTimesSteps(app, n - 1), middle, AnnounceSteps(app) + CleanupSteps(false, false),
                ForgetTimes(s, app, n));
    }
  }

  lemma {:induction false} ForgetTimesCounts(s: State, app: App, n: nat)
    ensures var end := ForgetTimes(s, app, n);
            && end.tokens == s.tokens && s.log <= end.log
            && Forgets(end.log, app) == Forgets(s.log, app) + n
  {
    hide Forgets;
    if n > 0 {
      ForgetTimesCounts(s, app, n - 1);
      ForgetsOfAppend(ForgetTimes(s, app, n - 1).log, Forgotten(app), app);
    }
  }

  lemma {:induction false} ForgetTimesGeneration(s: State, app: App, n: nat, start: nat)
    requires start == Generation(s.generations, app)
    ensures Generation(ForgetTimes(s, app, n).generations, app) == (start + n) % TWO64
  {
    if n > 0 {
      var before := Generation(ForgetTimes(s, app, n - 1).generations, app);
      ForgetTimesGeneration(s, app, n - 1, start);
      NextGeneration(before, start, n - 1);
      assert Generation(ForgetTimes(s, app, n).generations, app) == (before + 1) % TWO64;
    }
  }

  lemma NextGeneration(before: nat, start: nat, n: nat)
    requires before == (start + n) % TWO64
    ensures (before + 1) % TWO64 == (start + (n + 1)) % TWO64
  {
    AddOne(start + n);
  }

  lemma TokenIsCurrentAgain(s: State, app: App)
    requires app in s.managed && s.generations == map[]
    ensures Allowed(TokenOf(s, app), ForgetTimes(Snapped(s, app), app, TWO64).generations)
  {
    ForgetTimesGeneration(Snapped(s, app), app, TWO64, 0);
  }

  /** The exception in `OnlyFreshTokensPublish` is real: after 2^64 forgets the
      generation of an old token is current again, and it publishes. */
  lemma OldTokenPublishesAfterWrap(s: State, disk: map<App, string>, t: Thread, app: App, wire: string)
    returns (schedule: Schedule, token: Token)
    requires Initial(s, disk) && t in s.places && app != 0 && app in s.managed
    ensures Legal(s, schedule)
    ensures var log := Run(s, schedule).log;
            && |log| > 2 && token.issued == 1 && log[1] == Snapshotted(token)
            && log[|log| - 1] == Published(token, wire)
            && ForgetsBetween(log, app, 1, |log| - 1) == TWO64
  {
    hide Alone, Allowed, Persisted, Legal, Run, By, WrapSteps, ForgetTimes;
    token := TokenOf(s, app);
    var s1 := Snapped(s, app);
    var s2 := ForgetTimes(s1, app, TWO64);
    var s3 := Persisted(s2, token, wire, Written(true));
    ForgetTimesCounts(s1, app, TWO64);
    TokenIsCurrentAgain(s, app);
    PersistedLog(s2, token, wire);
    var steps := WrapSteps(app, token, wire);
    WrapAlone(s, t, app, token, wire);
    schedule := By(t, steps);
    AloneIsARun(s, t, steps, s3);
    WrapHistory(s1.log, s2.log, s3.log, disk, s.managed, token, app, wire);
  }

  lemma PersistedLog(s: State, token: Token, wire: string)
    requires Allowed(token, s.generations)
    ensures Persisted(s, token, wire, Written(true)).log == s.log + [Published(token, wire)]
  {
  }

  function WrapSteps(app: App, token: Token, wire: string): seq<Action> {
    SnapshotSteps(app) + (ForgetTimesSteps(app, TWO64) + PersistSteps(token, wire, true, Written(true)))
  }

  lemma WrapAlone(s: State, t: Thread, app: App, token: Token, wire: string)
    requires Quiet(s, t) && app != 0 && token == TokenOf(s, app)
    requires Allowed(token, ForgetTimes(Snapped(s, app), app, TWO64).generations)
    requires token in ForgetTimes(Snapped(s, app), app, TWO64).tokens
    ensures Alone(s, t, WrapSteps(app, token, wire),
                  Persisted(ForgetTimes(Snapped(s, app), app, TWO64), token, wire, Written(true)))
  {
    var s1 := Snapped(s, app);
    var s2 := ForgetTimes(s1, app, TWO64);
    var s3 := Persisted(s2, token, wire, Written(true));
    SnapshotAlone(s, t, app);
    ForgetTimesAlone(s1, t, app, TWO64);
    PersistAlone(s2, t, token, wire, Written(true));
    var steps := PersistSteps(token, wire, true, Written(true));
    AloneThen(s1, t, ForgetTimesSteps(app, TWO64), s2, steps, s3);
    AloneThen(s, t, SnapshotSteps(app), s1, ForgetTimesSteps(app, TWO64) + steps, s3);
  }

  lemma WrapHistory(log1: seq<Event>, log2: seq<Event>, log: seq<Event>, disk: map<App, string>,
                    roster: set<App>, token: Token, app: App, wire: string)
    requires log1 == [Started(disk, roster), Snapshotted(token)] && log1 <= log2
    requires log == log2 + [Published(token, wire)]
    requires Forgets(log2, app) == Forgets(log1, app) + TWO64
    ensures |log| > 2 && log[1] == Snapshotted(token) && log[|log| - 1] == Published(token, wire)
    ensures ForgetsBetween(log, app, 1, |log| - 1) == TWO64
  {
    assert log[..|log| - 1] == log2;
    assert log[..1] == [Started(disk, roster)];
    assert log1 == [Started(disk, roster)] + [Snapshotted(token)];
    ForgetsOfAppend([Started(disk, roster)], Snapshotted(token), app);
  }
}

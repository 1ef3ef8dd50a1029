/** The selection of managed apps in src/config_discovery.hpp. */
module ConfigDiscovery {

  type AppId = nat

  /** What a reload has to choose from. */
  datatype Sources = Sources(stplug: set<AppId>, yaml: set<AppId>, previous: set<AppId>, installed: set<AppId>) {
    function Discovered(): set<AppId> { stplug + yaml }

    function Candidates(): set<AppId> { Discovered() - {0} }

    /** The priority class of an app; 0 comes first. */
    function Class(x: AppId): nat {
      if x in yaml then 0 else if x in installed then 1 else if x in previous then 2 else 3
    }

    predicate Before(x: AppId, y: AppId) {
      Class(x) < Class(y) || (Class(x) == Class(y) && x < y)
    }

    /** Nothing that is left out comes before anything that is in. */
    predicate Leading(active: set<AppId>) {
      && active <= Candidates()
      && forall a, b :: a in active && b in Candidates() - active ==> Before(a, b)
    }

    /** The first min(cap, n) of the n candidates. */
    predicate IsTop(active: set<AppId>, cap: nat) {
      Leading(active) && |active| == if cap < |Candidates()| then cap else |Candidates()|
    }

    /** The candidates of the classes before `p`, and those of class `p` in `done`. */
    function Taken(p: nat, done: set<AppId>): set<AppId> {
      set x | x in Candidates() && (Class(x) < p || (Class(x) == p && x in done))
    }
  }

  lemma SameSizeSubset(a: set<AppId>, b: set<AppId>)
    requires a <= b && |b| <= |a|
    ensures a == b
  {
    assert b == a + (b - a);
    assert |b| == |a| + |b - a|;
  }

  lemma LeadingSetsAreNested(s: Sources, a: set<AppId>, b: set<AppId>)
    requires s.Leading(a) && s.Leading(b)
    ensures a <= b || b <= a
  {
    if !(a <= b) {
      var x :| x in a && x !in b;
      forall y | y in b ensures y in a {
        assert y !in a ==> s.Before(x, y);
        assert x in s.Candidates() - b;
      }
    }
  }

  /** There is only one such selection, so the order in which the sets are walked
      does not matter. */
  lemma TopIsUnique(s: Sources, cap: nat, a: set<AppId>, b: set<AppId>)
    requires s.IsTop(a, cap) && s.IsTop(b, cap)
    ensures a == b
  {
    LeadingSetsAreNested(s, a, b);
    if a <= b {
      SameSizeSubset(a, b);
    } else {
      SameSizeSubset(b, a);
    }
  }

  // ---------------------------------------------------------- implementation

  predicate Ascending(r: seq<AppId>) {
    forall i, j :: 0 <= i < j < |r| ==> r[i] < r[j]
  }

  method Minimum(s: set<AppId>) returns (m: AppId)
    requires s != {}
    ensures m in s && forall x :: x in s ==> m <= x
  {
    m :| m in s;
    var rest := s - {m};
    while rest != {}
      invariant rest <= s && m in s
      invariant forall x :: x in s && x !in rest ==> m <= x
      decreases |rest|
    {
      var x :| x in rest;
      if x < m {
        m := x;
      }
      rest := rest - {x};
    }
  }

  /** The elements of a set, copied and sorted. */
  method Sorted(s: set<AppId>) returns (r: seq<AppId>)
    ensures Ascending(r) && forall x :: x in r <==> x in s
  {
    r := [];
    var rest := s;
    while rest != {}
      invariant rest <= s && Ascending(r)
      invariant forall x :: x in s <==> x in r || x in rest
      invariant forall x, y :: x in r && y in rest ==> x < y
      decreases |rest|
    {
      var m := Minimum(rest);
      assert forall i :: 0 <= i < |r| ==> r[i] in r;
      r := r + [m];
      rest := rest - {m};
    }
  }

  /** One call of `addSorted`: the class `p` of the order. */
  method AddSorted(ghost s: Sources, ghost p: nat, before: set<AppId>, candidates: set<AppId>,
                   discovered: set<AppId>, requireDiscovered: bool, maxApps: nat) returns (active: set<AppId>)
    requires discovered == s.Discovered() && p < 4
    requires forall x :: x in s.Candidates() && s.Class(x) == p ==> x in candidates
    requires forall x :: x in candidates && x in s.Candidates() ==> s.Class(x) <= p
    requires !requireDiscovered ==> candidates <= discovered
    requires s.Leading(before) && |before| <= maxApps
    requires |before| < maxApps ==> before == s.Taken(p, {})
    ensures s.Leading(active) && |active| <= maxApps
    ensures |active| < maxApps ==> active == s.Taken(p + 1, {})
  {
    active := before;
    var sorted := Sorted(candidates);
    var i := 0;
    while i < |sorted|
      invariant 0 <= i <= |sorted|
      invariant s.Leading(active) && |active| <= maxApps
      invariant |active| < maxApps ==> active == s.Taken(p, Done(sorted[..i]))
    {
      if |active| >= maxApps {
        break;
      }
      var appId := sorted[i];
      i := i + 1;
      assert Done(sorted[..i]) == Done(sorted[..i - 1]) + {appId};
      TakenGrows(s, p, Done(sorted[..i - 1]), appId);
      if appId == 0 || (requireDiscovered && appId !in discovered) {
        continue;
      }
      active := active + {appId};
      TakenIsLeading(s, p, sorted, i);
    }
    if |active| < maxApps {
      assert sorted[..i] == sorted;
    }
  }

  lemma TakenGrows(s: Sources, p: nat, done: set<AppId>, x: AppId)
    requires x in s.Candidates() ==> s.Class(x) <= p
    ensures s.Taken(p, done + {x}) == s.Taken(p, done) + if x in s.Candidates() then {x} else {}
  {
  }

  function Done(r: seq<AppId>): set<AppId> { set x | x in r }

  lemma TakenIsLeading(s: Sources, p: nat, sorted: seq<AppId>, i: nat)
    requires i <= |sorted| && Ascending(sorted)
    requires forall x :: x in s.Candidates() && s.Class(x) == p ==> x in sorted
    ensures s.Leading(s.Taken(p, Done(sorted[..i])))
  {
    var active := s.Taken(p, Done(sorted[..i]));
    forall a, b | a in active && b in s.Candidates() - active ensures s.Before(a, b) {
      if s.Class(a) == p && s.Class(b) == p {
        var k :| 0 <= k < i && sorted[k] == a;
        var l :| 0 <= l < |sorted| && sorted[l] == b;
        assert l >= i;
      }
    }
  }

  /** The order in the terms of the sets: entries of the YAML list come first, then
      installed apps, then the ones that were active, then the rest, each by id. */
  lemma LeadingExactly(s: Sources, active: set<AppId>)
    requires s.Leading(active)
    ensures forall a, b :: a in active && b !in active && b != 0 && (b in s.stplug || b in s.yaml) ==>
      if a in s.yaml then b in s.yaml ==> a < b
      else if a in s.installed then b !in s.yaml && (b in s.installed ==> a < b)
      else if a in s.previous then b !in s.yaml && b !in s.installed && (b in s.previous ==> a < b)
      else b !in s.yaml && b !in s.installed && b !in s.previous && a < b
  {
    forall a, b | a in active && b !in active && b != 0 && (b in s.stplug || b in s.yaml) ensures s.Before(a, b) {
      assert b in s.Candidates() - active;
    }
  }

  /** `selectManagedSources`. */
  method SelectManagedSources(s: Sources, maxApps: nat)
    returns (active: set<AppId>, discovered: nat, ignored: nat)
    ensures s.IsTop(active, maxApps)
    ensures discovered == |s.stplug + s.yaml| && ignored + |active| == discovered
    ensures forall a :: a in active ==> a != 0 && (a in s.stplug || a in s.yaml)
    ensures forall a, b :: a in active && b !in active && b != 0 && (b in s.stplug || b in s.yaml) ==>
      if a in s.yaml then b in s.yaml ==> a < b
      else if a in s.installed then b !in s.yaml && (b in s.installed ==> a < b)
      else if a in s.previous then b !in s.yaml && b !in s.installed && (b in s.previous ==> a < b)
      else b !in s.yaml && b !in s.installed && b !in s.previous && a < b
  {
    var found := s.stplug + s.yaml;
    discovered := |found|;
    active := {};
    active := AddSorted(s, 0, active, s.yaml, found, false, maxApps);
    active := AddSorted(s, 1, active, s.installed, found, true, maxApps);
    active := AddSorted(s, 2, active, s.previous, found, true, maxApps);
    active := AddSorted(s, 3, active, s.stplug, found, false, maxApps);
    Sizes(s.Candidates(), active);
    Sizes(found, s.Candidates());
    if |active| < maxApps {
      assert active == s.Candidates();
    }
    ignored := discovered - |active|;
    LeadingExactly(s, active);
  }

  lemma Sizes(all: set<AppId>, part: set<AppId>)
    requires part <= all
    ensures |part| <= |all|
  {
    assert all == part + (all - part);
  }

  // -------------------------------------------------------------------- stability

  /** What the next reload sees: the active apps were active before, and `added`
      scripts have appeared. */
  function Reloaded(s: Sources, active: set<AppId>, added: set<AppId>): Sources {
    s.(previous := active, stplug := s.stplug + added)
  }

  lemma ActiveStayAhead(s: Sources, active: set<AppId>, added: set<AppId>, a: AppId, b: AppId)
    requires s.Leading(active) && added !! s.installed
    requires a in active && b in Reloaded(s, active, added).Candidates() - active
    ensures Reloaded(s, active, added).Before(a, b)
  {
    if b in s.Candidates() {
      assert s.Before(a, b);
    }
  }

  /** Unchanged sources select the same apps again. */
  lemma ReloadIsStable(s: Sources, cap: nat, active: set<AppId>, next: set<AppId>)
    requires s.IsTop(active, cap) && Reloaded(s, active, {}).IsTop(next, cap)
    ensures next == active
  {
    var s' := Reloaded(s, active, {});
    assert s'.Candidates() == s.Candidates();
    forall a, b | a in active && b in s'.Candidates() - active ensures s'.Before(a, b) {
      ActiveStayAhead(s, active, {}, a, b);
    }
    TopIsUnique(s', cap, active, next);
  }

  /** Scripts that are added for apps that are not installed never push an active
      app out. */
  lemma NothingIsEvicted(s: Sources, cap: nat, active: set<AppId>, added: set<AppId>, next: set<AppId>)
    requires s.IsTop(active, cap) && added !! s.installed
    requires Reloaded(s, active, added).IsTop(next, cap)
    ensures active <= next
  {
    var s' := Reloaded(s, active, added);
    forall a, b | a in active && b in s'.Candidates() - active ensures s'.Before(a, b) {
      ActiveStayAhead(s, active, added, a, b);
    }
    assert s.Candidates() <= s'.Candidates();
    Sizes(s'.Candidates(), s.Candidates());
    LeadingSetsAreNested(s', active, next);
    if next <= active {
      SameSizeSubset(next, active);
    }
  }

  // ---------------------------------------------------------------- removed sources

  /** `removedAppIds`. */
  method RemovedAppIds(before: set<AppId>, after: set<AppId>) returns (removed: seq<AppId>)
    ensures Ascending(removed) && forall x :: x in removed <==> x in before - after
  {
    var found: set<AppId> := {};
    var rest := before;
    while rest != {}
      invariant rest <= before && found == (before - rest) - after
      decreases |rest|
    {
      var appId :| appId in rest;
      rest := rest - {appId};
      if appId !in after {
        found := found + {appId};
      }
    }
    removed := Sorted(found);
  }

  /** `recoverRacyScanDrops`; `sourceExists` says whether an app's source is on disk. */
  method RecoverRacyScanDrops(freshScan: set<AppId>, previouslyKnown: set<AppId>, sourceExists: AppId -> bool)
    returns (recovered: seq<AppId>)
    ensures Ascending(recovered)
    ensures forall x :: x in recovered <==> x in previouslyKnown && x != 0 && x !in freshScan && sourceExists(x)
  {
    var found: set<AppId> := {};
    var rest := previouslyKnown;
    while rest != {}
      invariant rest <= previouslyKnown
      invariant forall x :: x in found <==> x in previouslyKnown - rest && x != 0 && x !in freshScan && sourceExists(x)
      decreases |rest|
    {
      var appId :| appId in rest;
      rest := rest - {appId};
      if appId == 0 || appId in freshScan {
        continue;
      }
      if sourceExists(appId) {
        found := found + {appId};
      }
    }
    recovered := Sorted(found);
  }

  /** With the recovered apps put back, the apps that count as removed are exactly
      those that the scan does not list and whose source is gone. App 0, which is
      never put back, counts as removed whenever the scan does not list it. */
  method RemovedAfterRecovery(freshScan: set<AppId>, previouslyKnown: set<AppId>, sourceExists: AppId -> bool)
    returns (removed: seq<AppId>)
    ensures Ascending(removed)
    ensures forall x :: x in removed <==> x in previouslyKnown - freshScan && (x == 0 || !sourceExists(x))
  {
    var recovered := RecoverRacyScanDrops(freshScan, previouslyKnown, sourceExists);
    removed := RemovedAppIds(previouslyKnown, freshScan + Done(recovered));
  }

  datatype AppIdSets = AppIdSets(managed: set<AppId>, compatibility: set<AppId>, active: set<AppId>)

  /** One loop of `classifyAppIds`: the candidates that `allowed` holds. */
  method AddCompatible(managed: set<AppId>, candidates: set<AppId>, allowed: set<AppId>,
                       compatibility: set<AppId>, active: set<AppId>)
    returns (compatibility': set<AppId>, active': set<AppId>)
    ensures forall x :: x in compatibility' <==>
      x in compatibility || (x in candidates && x in allowed && x !in managed)
    ensures forall x :: x in active' <==> x in active || (x in candidates && x in allowed)
  {
    compatibility', active' := compatibility, active;
    var rest := candidates;
    while rest != {}
      invariant rest <= candidates
      invariant forall x :: x in compatibility' <==>
        x in compatibility || (x in candidates && x !in rest && x in allowed && x !in managed)
      invariant forall x :: x in active' <==> x in active || (x in candidates && x !in rest && x in allowed)
      decreases |rest|
    {
      var appId :| appId in rest;
      rest := rest - {appId};
      if appId !in allowed {
        continue;
      }
      if appId !in managed {
        compatibility' := compatibility' + {appId};
      }
      active' := active' + {appId};
    }
  }

  /** `classifyAppIds`. */
  method ClassifyAppIds(stplug: set<AppId>, yaml: set<AppId>, legacy: set<AppId>,
                        installed: set<AppId>, accela: set<AppId>)
    returns (r: AppIdSets)
    ensures r.managed == stplug + yaml
    ensures r.compatibility !! r.managed && r.active == r.managed + r.compatibility
    ensures r.active == r.managed + accela + (legacy * installed)
  {
    var managed := stplug + yaml;
    var compatibility, active := AddCompatible(managed, accela, accela, {}, managed);
    compatibility, active := AddCompatible(managed, legacy, installed, compatibility, active);
    r := AppIdSets(managed, compatibility, active);
  }
}

/** The popup throttle of src/notify.hpp: one popup per category and cooldown. */
module NotifyThrottle {
  import opened Common

  /** One call of `allow` and its outcome; `reported` is the count a shown popup
      carries. */
  datatype Call = Call(category: int, now: int, shown: bool, reported: nat)

  type History = seq<Call>

  /** The time of the last popup of a category. */
  function LastShown(h: History, c: int): Option<int> {
    if h == [] then None
    else
      var last := h[|h| - 1];
      if last.category == c && last.shown then Some(last.now) else LastShown(h[..|h| - 1], c)
  }

  /** The occurrences of a category since its last popup. */
  function Pending(h: History, c: int): nat {
    if h == [] then 0
    else
      var last := h[|h| - 1];
      if last.category != c then Pending(h[..|h| - 1], c)
      else if last.shown then 0
      else Pending(h[..|h| - 1], c) + 1
  }

  /** The cooldown of a category is over. */
  predicate Due(h: History, c: int, now: int, cooldown: int) {
    var last := LastShown(h, c);
    last.Some? ==> now - last.value >= cooldown
  }

  /** The call follows from the history before it. */
  predicate Follows(h: History, call: Call, cooldown: int) {
    && call.shown == Due(h, call.category, call.now, cooldown)
    && call.reported == if call.shown then Pending(h, call.category) else 0
  }

  predicate Throttled(h: History, cooldown: int) {
    h != [] ==> Follows(h[..|h| - 1], h[|h| - 1], cooldown) && Throttled(h[..|h| - 1], cooldown)
  }

  datatype Entry = Entry(lastEmitMs: int, suppressedSince: nat)

  class Throttle {
    const cooldownMs: int
    var entries: map<int, Entry>
    ghost var history: History

    ghost predicate Valid()
      reads this
    {
      && Throttled(history, cooldownMs)
      && (forall c :: c in entries <==> LastShown(history, c).Some?)
      && (forall c :: c in entries ==> entries[c] == Entry(LastShown(history, c).value, Pending(history, c)))
      && (forall c :: c !in entries ==> Pending(history, c) == 0)
    }

    constructor (cooldownMs: int)
      ensures Valid() && history == [] && this.cooldownMs == cooldownMs
    {
      this.cooldownMs := cooldownMs;
      entries, history := map[], [];
    }

    /** `allow`. */
    method Allow(category: int, nowMs: int) returns (shown: bool, suppressedOut: nat)
      requires Valid()
      modifies this
      ensures Valid() && history == old(history) + [Call(category, nowMs, shown, suppressedOut)]
    {
      suppressedOut := 0;
      if category !in entries {
        entries := entries[category := Entry(nowMs, 0)];
        shown := true;
      } else {
        var e := entries[category];
        if nowMs - e.lastEmitMs >= cooldownMs {
          suppressedOut := e.suppressedSince;
          entries := entries[category := Entry(nowMs, 0)];
          shown := true;
        } else {
          entries := entries[category := Entry(e.lastEmitMs, e.suppressedSince + 1)];
          shown := false;
        }
      }
      ghost var before := history;
      history := before + [Call(category, nowMs, shown, suppressedOut)];
      assert history[..|history| - 1] == before;
    }
  }

  // -------------------------------------------------------- what the history shows

  lemma {:induction false} PrefixIsThrottled(h: History, cooldown: int, n: nat)
    requires Throttled(h, cooldown) && n <= |h|
    ensures Throttled(h[..n], cooldown)
  {
    if n < |h| {
      PrefixIsThrottled(h[..|h| - 1], cooldown, n);
      assert h[..|h| - 1][..n] == h[..n];
    } else {
      assert h[..n] == h;
    }
  }

  lemma CallFollows(h: History, cooldown: int, j: nat)
    requires Throttled(h, cooldown) && j < |h|
    ensures Follows(h[..j], h[j], cooldown)
  {
    PrefixIsThrottled(h, cooldown, j + 1);
    assert h[..j + 1][..j] == h[..j];
  }

  predicate ShownAt(h: History, i: nat, c: int) {
    i < |h| && h[i].category == c && h[i].shown
  }

  /** The last popup, as a place in the history. */
  lemma {:induction false} LastShownPlace(h: History, c: int) returns (l: int)
    ensures -1 <= l < |h|
    ensures l == -1 <==> LastShown(h, c).None?
    ensures l >= 0 ==> ShownAt(h, l, c) && LastShown(h, c) == Some(h[l].now)
    ensures forall i :: l < i < |h| ==> !ShownAt(h, i, c)
  {
    if h == [] {
      l := -1;
    } else if ShownAt(h, |h| - 1, c) {
      l := |h| - 1;
    } else {
      l := LastShownPlace(h[..|h| - 1], c);
      assert forall i :: 0 <= i < |h| - 1 ==> ShownAt(h[..|h| - 1], i, c) == ShownAt(h, i, c);
    }
  }

  /** Two popups of one category are at least the cooldown apart, whatever the
      clock does in between. */
  lemma {:induction false} PopupsAreSpaced(h: History, cooldown: int, c: int, i: nat, j: nat)
    requires Throttled(h, cooldown) && cooldown >= 0
    requires i < j && ShownAt(h, i, c) && ShownAt(h, j, c)
    ensures h[j].now - h[i].now >= cooldown
    decreases j
  {
    var before := h[..j];
    CallFollows(h, cooldown, j);
    var l := LastShownPlace(before, c);
    assert ShownAt(before, i, c);
    if i < l {
      assert ShownAt(h, l, c);
      PopupsAreSpaced(h, cooldown, c, i, l);
    }
  }

  /** A popup is shown exactly when all earlier popups of its category are at
      least the cooldown ago. */
  lemma ShownExactlyWhenDue(h: History, cooldown: int, j: nat)
    requires Throttled(h, cooldown) && cooldown >= 0 && j < |h|
    ensures h[j].shown <==> forall i :: 0 <= i < j && ShownAt(h, i, h[j].category) ==> h[j].now - h[i].now >= cooldown
  {
    var c, before := h[j].category, h[..j];
    CallFollows(h, cooldown, j);
    var l := LastShownPlace(before, c);
    if h[j].shown {
      forall i | 0 <= i < j && ShownAt(h, i, c) ensures h[j].now - h[i].now >= cooldown {
        PopupsAreSpaced(h, cooldown, c, i, j);
      }
    } else {
      assert l >= 0 && ShownAt(h, l, c) && h[j].now - h[l].now < cooldown;
    }
  }

  function Calls(h: History, c: int): nat {
    if h == [] then 0 else Calls(h[..|h| - 1], c) + if h[|h| - 1].category == c then 1 else 0
  }

  function Shown(h: History, c: int): nat {
    if h == [] then 0
    else Shown(h[..|h| - 1], c) + if h[|h| - 1].category == c && h[|h| - 1].shown then 1 else 0
  }

  function Reported(h: History, c: int): nat {
    if h == [] then 0
    else Reported(h[..|h| - 1], c) + if h[|h| - 1].category == c then h[|h| - 1].reported else 0
  }

  /** Every occurrence is a popup, or reported by one, or still pending. */
  lemma {:induction false} NothingIsLost(h: History, cooldown: int, c: int)
    requires Throttled(h, cooldown)
    ensures Calls(h, c) == Shown(h, c) + Reported(h, c) + Pending(h, c)
  {
    if h != [] {
      NothingIsLost(h[..|h| - 1], cooldown, c);
    }
  }

  /** The calls of one category. */
  function Only(h: History, c: int): History {
    if h == [] then []
    else Only(h[..|h| - 1], c) + if h[|h| - 1].category == c then [h[|h| - 1]] else []
  }

  lemma {:induction false} OnlyKeepsState(h: History, c: int)
    ensures LastShown(Only(h, c), c) == LastShown(h, c) && Pending(Only(h, c), c) == Pending(h, c)
  {
    if h != [] {
      var before, last := h[..|h| - 1], h[|h| - 1];
      OnlyKeepsState(before, c);
      if last.category == c {
        assert Only(h, c)[..|Only(h, c)| - 1] == Only(before, c);
      } else {
        assert Only(h, c) == Only(before, c);
      }
    }
  }

  /** The calls of one category are throttled as if there were no others. */
  lemma {:induction false} CategoriesAreIndependent(h: History, cooldown: int, c: int)
    requires Throttled(h, cooldown)
    ensures Throttled(Only(h, c), cooldown)
  {
    if h != [] {
      var before, last := h[..|h| - 1], h[|h| - 1];
      CategoriesAreIndependent(before, cooldown, c);
      OnlyKeepsState(before, c);
      if last.category == c {
        assert Only(h, c)[..|Only(h, c)| - 1] == Only(before, c);
      } else {
        assert Only(h, c) == Only(before, c);
      }
    }
  }

  /** The outcomes of a sequence of calls are determined by the calls. */
  lemma {:induction false} OutcomesAreDetermined(h: History, g: History, cooldown: int)
    requires Throttled(h, cooldown) && Throttled(g, cooldown) && |h| == |g|
    requires forall i :: 0 <= i < |h| ==> h[i].category == g[i].category && h[i].now == g[i].now
    ensures h == g
  {
    if h != [] {
      OutcomesAreDetermined(h[..|h| - 1], g[..|g| - 1], cooldown);
      assert h == h[..|h| - 1] + [h[|h| - 1]] && g == g[..|g| - 1] + [g[|g| - 1]];
    }
  }
}

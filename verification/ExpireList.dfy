/** bus/expirelist.c: a list of things that expire a fixed time after they were
    added, watched by one main-loop timeout.

    Clock readings and stamps are microseconds of the monotonic clock, intervals
    are milliseconds.  The main loop fires an enabled timeout `interval` after
    the last time it fired (`base`), so setting an interval never moves `base`. */
module ExpireList {
  import opened Collections

  /** A stamp of 0 seconds and 0 microseconds marks an item as overdue. */
  datatype Item<P> = Item(data: P, added: int)

  datatype Timeout = Timeout(enabled: bool, interval: int, base: int) {
    function FiresAt(): int { base + 1000 * interval }
  }

  const HOUR := 3600 * 1000
  /** _dbus_get_oom_wait */
  const OOM_WAIT := 500

  /** bus_expire_timeout_set_interval */
  function SetInterval(t: Timeout, next: int): Timeout {
    if next >= 0 then t.(enabled := true, interval := next)
    else if t.enabled then t.(enabled := false)
    else t
  }

  predicate IsDue<P>(item: Item<P>, expireAfter: int, now: int) {
    item.added == 0 || (expireAfter > 0 && now - item.added >= 1000 * expireAfter)
  }

  function Due<P>(items: seq<Item<P>>, expireAfter: int, now: int): seq<Item<P>> {
    if items == [] then []
    else if IsDue(items[0], expireAfter, now) then [items[0]] + Due(items[1..], expireAfter, now)
    else Due(items[1..], expireAfter, now)
  }

  function Waiting<P>(items: seq<Item<P>>, expireAfter: int, now: int): seq<Item<P>> {
    if items == [] then []
    else if IsDue(items[0], expireAfter, now) then Waiting(items[1..], expireAfter, now)
    else [items[0]] + Waiting(items[1..], expireAfter, now)
  }

  lemma {:induction false} SplitByDue<P>(a: seq<Item<P>>, b: seq<Item<P>>, expireAfter: int, now: int)
    ensures Due(a + b, expireAfter, now) == Due(a, expireAfter, now) + Due(b, expireAfter, now)
    ensures Waiting(a + b, expireAfter, now) == Waiting(a, expireAfter, now) + Waiting(b, expireAfter, now)
  {
    if a == [] {
      assert a + b == b;
    } else {
      var rest := a[1..] + b;
      assert (a + b)[1..] == rest && (a + b)[0] == a[0];
      SplitByDue(a[1..], b, expireAfter, now);
      assert [a[0]] + (Due(a[1..], expireAfter, now) + Due(b, expireAfter, now)) ==
             [a[0]] + Due(a[1..], expireAfter, now) + Due(b, expireAfter, now);
      assert [a[0]] + (Waiting(a[1..], expireAfter, now) + Waiting(b, expireAfter, now)) ==
             [a[0]] + Waiting(a[1..], expireAfter, now) + Waiting(b, expireAfter, now);
    }
  }

  lemma {:induction false} WaitingMembers<P>(items: seq<Item<P>>, expireAfter: int, now: int)
    ensures forall i :: i in Waiting(items, expireAfter, now) <==> i in items && !IsDue(i, expireAfter, now)
  {
    if items != [] {
      assert items == [items[0]] + items[1..];
      WaitingMembers(items[1..], expireAfter, now);
    }
  }

  /** `next` is the shortest remaining wait, cut down to whole milliseconds and
      to one hour; -1 when nothing waits. */
  ghost predicate IsNextInterval<P>(next: int, waiting: seq<Item<P>>, expireAfter: int, now: int) {
    if expireAfter <= 0 || waiting == [] then next == -1
    else
      && 0 <= next <= HOUR
      && (forall i :: i in waiting ==> next <= WaitOf(i, expireAfter, now))
      && (next == HOUR || exists i :: i in waiting && next == WaitOf(i, expireAfter, now))
  }

  function WaitOf<P>(item: Item<P>, expireAfter: int, now: int): int {
    (1000 * expireAfter - (now - item.added)) / 1000
  }

  /** do_expiration_with_monotonic_time.  `canExpire` answers for the expire
      callback, which takes its item off the list when it succeeds.  `stopped`
      is the number of links walked. */
  method DoExpiration<P>(items: seq<Item<P>>, expireAfter: int, now: int, canExpire: P -> bool)
    returns (kept: seq<Item<P>>, expired: seq<Item<P>>, next: int, stopped: nat)
    ensures stopped <= |items|
    ensures forall i :: i in items[..stopped] && IsDue(i, expireAfter, now) ==> canExpire(i.data)
    ensures stopped < |items| ==>
      IsDue(items[stopped], expireAfter, now) && !canExpire(items[stopped].data) && next == OOM_WAIT
    ensures expired == Due(items[..stopped], expireAfter, now)
    ensures kept == Waiting(items[..stopped], expireAfter, now) + items[stopped..]
    ensures stopped == |items| ==> IsNextInterval(next, kept, expireAfter, now)
  {
    var minWait, itemsToExpire := HOUR, false;
    next, kept, expired := -1, [], [];
    var link := 0;
    while link < |items|
      invariant 0 <= link <= |items| && next == -1
      invariant forall i :: i in items[..link] && IsDue(i, expireAfter, now) ==> canExpire(i.data)
      invariant expired == Due(items[..link], expireAfter, now)
      invariant kept == Waiting(items[..link], expireAfter, now)
      invariant itemsToExpire <==> expireAfter > 0 && kept != []
      invariant itemsToExpire ==> IsNextInterval(minWait, kept, expireAfter, now)
      invariant !itemsToExpire ==> minWait == HOUR
    {
      var item := items[link];
      assert items[..link + 1] == items[..link] + [item];
      SplitByDue(items[..link], [item], expireAfter, now);
      if IsDue(item, expireAfter, now) {
        if !canExpire(item.data) {
          next, stopped := OOM_WAIT, link;
          kept := kept + items[link..];
          return;
        }
        expired := expired + [item];
      } else {
        ghost var before := kept;
        kept := kept + [item];
        if expireAfter > 0 {
          itemsToExpire := true;
          var toWait := 1000 * expireAfter - (now - item.added);
          if 1000 * minWait > toWait {
            minWait := toWait / 1000;
          }
          assert item in kept && forall i :: i in kept <==> i in before || i == item;
        }
      }
      link := link + 1;
    }
    assert items[..link] == items;
    stopped := |items|;
    assert kept + items[stopped..] == kept;
    if itemsToExpire {
      next := minWait;
    }
  }

  // ---- the promise of the timer --------------------------------------------

  datatype State<P> = State(items: seq<Item<P>>, timeout: Timeout)

  /** Will the timer wake up for this item in time?  An overdue item must be
      picked up now; an item of a list that never expires has no deadline. */
  predicate Covered<P>(t: Timeout, item: Item<P>, expireAfter: int, now: int) {
    if item.added == 0 then t.enabled && t.FiresAt() <= now
    else if expireAfter > 0 then
      t.enabled && (t.FiresAt() <= now || t.FiresAt() <= item.added + 1000 * expireAfter)
    else true
  }

  /** Every item is covered, and so will be whatever is added at `now` or later. */
  ghost predicate Covers<P>(t: Timeout, items: seq<Item<P>>, expireAfter: int, now: int) {
    && t.base <= now
    && (t.enabled && expireAfter > 0 ==> t.interval <= expireAfter)
    && (forall i :: i in items ==> i.added <= now && Covered(t, i, expireAfter, now))
  }

  /** bus_expire_list_add and bus_expire_list_add_link; a new item is stamped
      with the clock right after it has been added. */
  function Prepend<P>(s: State<P>, item: Item<P>): State<P> {
    State([item] + s.items, if s.timeout.enabled then s.timeout else SetInterval(s.timeout, 0))
  }

  lemma AddCovers<P>(s: State<P>, held: seq<Item<P>>, data: P, expireAfter: int, now: int)
    requires Covers(s.timeout, s.items + held, expireAfter, now)
    ensures var s' := Prepend(s, Item(data, now)); now != 0 ==> Covers(s'.timeout, s'.items + held, expireAfter, now)
  {
    var s' := Prepend(s, Item(data, now));
    forall i | i in s'.items + held && i != Item(data, now)
      ensures i.added <= now && Covered(s'.timeout, i, expireAfter, now)
    {
      assert i in s.items + held;
    }
  }

  /** Putting back a link that is still covered. */
  lemma AddLinkCovers<P>(s: State<P>, held: seq<Item<P>>, k: nat, expireAfter: int, now: int)
    requires k < |held| && Covers(s.timeout, s.items + held, expireAfter, now)
    ensures var s' := Prepend(s, held[k]); Covers(s'.timeout, s'.items + (held[..k] + held[k + 1..]), expireAfter, now)
  {
    assert held[k] in s.items + held;
    var s' := Prepend(s, held[k]);
    forall i | i in s'.items + (held[..k] + held[k + 1..])
      ensures i.added <= now && Covered(s'.timeout, i, expireAfter, now)
    {
      assert i in s.items + held;
    }
  }

  /** A successful pass leaves every survivor covered. */
  lemma PassCovers<P>(items: seq<Item<P>>, kept: seq<Item<P>>, t: Timeout, next: int, expireAfter: int, now: int)
    requires forall i :: i in items ==> i.added <= now
    requires kept == Waiting(items, expireAfter, now) && t.base <= now
    requires IsNextInterval(next, kept, expireAfter, now)
    ensures Covers(SetInterval(t, next), kept, expireAfter, now)
  {
    WaitingMembers(items, expireAfter, now);
    if expireAfter > 0 && kept != [] {
      assert kept[0] in kept;
      assert next <= WaitOf(kept[0], expireAfter, now);
    }
  }

  // ---- runs ------------------------------------------------------------------

  /** What can happen to the list; `Passed` is a firing of the timer. */
  datatype Event<P> =
    | Added(data: P, at: int)
    | Unlinked(index: nat)
    | PutBack(held: nat)
    | Forgotten(held: nat)
    | MarkedOverdue(index: nat, data: P, at: int)
    | Passed(at: int, base: int)

  /** The list, the links an open transaction has taken out, and the clock. */
  datatype World<P> = World(list: State<P>, held: seq<Item<P>>, now: int)

  /** Clock readings never decrease, and a transaction is not kept open while
      the main loop fires timers. */
  ghost predicate Enabled<P>(w: World<P>, e: Event<P>) {
    match e
    case Added(_, at) => w.now <= at && 0 < at
    case Unlinked(i) => i < |w.list.items|
    case PutBack(k) => k < |w.held|
    case Forgotten(k) => k < |w.held|
    case MarkedOverdue(i, _, at) => i < |w.list.items| && w.now <= at && 0 <= at
    case Passed(at, base) => w.held == [] && w.list.timeout.base <= base && base <= at && w.now <= at
  }

  ghost predicate Step<P>(w: World<P>, e: Event<P>, w': World<P>, expireAfter: int) {
    Enabled(w, e) &&
    match e
    case Added(data, at) => w' == World(Prepend(w.list, Item(data, at)), w.held, at)
    case Unlinked(i) => w' == w.(list := w.list.(items := DropAt(w.list.items, i)), held := [w.list.items[i]] + w.held)
    case PutBack(k) => w' == w.(list := Prepend(w.list, w.held[k]), held := DropAt(w.held, k))
    case Forgotten(k) => w' == w.(held := DropAt(w.held, k))
    case MarkedOverdue(i, data, at) =>
      w' == World(State(w.list.items[i := Item(data, 0)], SetInterval(w.list.timeout, 0)), w.held, at)
    case Passed(at, base) =>
      exists next :: IsNextInterval(next, Waiting(w.list.items, expireAfter, at), expireAfter, at) &&
        w' == World(State(Waiting(w.list.items, expireAfter, at),
                          SetInterval(w.list.timeout.(base := base), next)), [], at)
  }

  ghost predicate Safe<P>(w: World<P>, expireAfter: int) {
    Covers(w.list.timeout, w.list.items + w.held, expireAfter, w.now)
  }

  lemma StepStaysSafe<P>(w: World<P>, e: Event<P>, w': World<P>, expireAfter: int)
    requires Safe(w, expireAfter) && Step(w, e, w', expireAfter)
    ensures Safe(w', expireAfter)
  {
    match e
    case Added(data, at) =>
      LaterStillCovers(w.list.timeout, w.list.items + w.held, expireAfter, w.now, at);
      AddCovers(w.list, w.held, data, expireAfter, at);
    case Unlinked(i) =>
      assert forall x :: x in w'.list.items + w'.held ==> x in w.list.items + w.held;
    case PutBack(k) => AddLinkCovers(w.list, w.held, k, expireAfter, w.now);
    case Forgotten(k) =>
      assert forall x :: x in w'.list.items + w'.held ==> x in w.list.items + w.held;
    case MarkedOverdue(i, data, at) =>
      LaterStillCovers(w.list.timeout, w.list.items + w.held, expireAfter, w.now, at);
      assert forall x :: x in w'.list.items + w'.held ==> x == Item(data, 0) || x in w.list.items + w.held;
    case Passed(at, base) =>
      assert w.list.items + w.held == w.list.items;
      assert w'.list.items + w'.held == w'.list.items;
      var next :| IsNextInterval(next, Waiting(w.list.items, expireAfter, at), expireAfter, at) &&
        w' == World(State(Waiting(w.list.items, expireAfter, at),
                          SetInterval(w.list.timeout.(base := base), next)), [], at);
      PassCovers(w.list.items, w'.list.items, w.list.timeout.(base := base), next, expireAfter, at);
  }

  lemma LaterStillCovers<P>(t: Timeout, items: seq<Item<P>>, expireAfter: int, now: int, later: int)
    requires Covers(t, items, expireAfter, now) && now <= later
    ensures Covers(t, items, expireAfter, later)
  {
  }

  ghost predicate IsRun<P>(worlds: seq<World<P>>, events: seq<Event<P>>, expireAfter: int) {
    && |worlds| == |events| + 1
    && forall k :: 0 <= k < |events| ==> Step(worlds[k], events[k], worlds[k + 1], expireAfter)
  }

  /** Over every run the timer covers every deadline: in a list that is not
      empty, it is enabled and fires no later than the earliest one. */
  lemma {:induction false} RunStaysCovered<P>(worlds: seq<World<P>>, events: seq<Event<P>>, expireAfter: int, k: nat)
    requires IsRun(worlds, events, expireAfter) && k < |worlds|
    requires worlds[0].list.items == [] && worlds[0].held == []
    requires !worlds[0].list.timeout.enabled && worlds[0].list.timeout.base <= worlds[0].now
    ensures Safe(worlds[k], expireAfter)
  {
    if k > 0 {
      RunStaysCovered(worlds, events, expireAfter, k - 1);
      StepStaysSafe(worlds[k - 1], events[k - 1], worlds[k], expireAfter);
    }
  }

  lemma CoveredMeansOnTime<P>(w: World<P>, expireAfter: int)
    requires Safe(w, expireAfter) && expireAfter > 0 && w.list.items != []
    ensures w.list.timeout.enabled
    ensures forall i :: i in w.list.items && i.added != 0 ==>
      w.list.timeout.FiresAt() <= w.now || w.list.timeout.FiresAt() <= i.added + 1000 * expireAfter
    ensures forall i :: i in w.list.items && i.added == 0 ==> w.list.timeout.FiresAt() <= w.now
  {
    assert w.list.items[0] in w.list.items + w.held;
    assert forall i :: i in w.list.items ==> i in w.list.items + w.held;
  }

  /** Why a transaction must not stay open across main-loop iterations: a link
      taken out at 1 s with a deadline of 11 s is put back after a pass that
      only saw an item with a deadline of 18 s. */
  lemma OpenTransactionDelaysExpiry()
    ensures var after := SetInterval(Timeout(true, 0, 9_000_000), 9_000);
      && Covers(Timeout(true, 0, 0), [Item(2, 8_000_000), Item(1, 1_000_000)], 10_000, 8_000_000)
      && IsNextInterval(9_000, Waiting([Item(2, 8_000_000)], 10_000, 9_000_000), 10_000, 9_000_000)
      && !Covered(Prepend(State([Item(2, 8_000_000)], after), Item(1, 1_000_000)).timeout,
                  Item(1, 1_000_000), 10_000, 9_000_000)
  {
    var waiting := [Item(2, 8_000_000)];
    assert waiting[1..] == [];
    assert Waiting(waiting, 10_000, 9_000_000) == waiting;
    assert waiting[0] in waiting && WaitOf(waiting[0], 10_000, 9_000_000) == 9_000;
  }

  /** When it is on time after all: a link that was held across a complete pass and
      is put back is covered if and only if nothing was left waiting, or the timer
      fires at once, or no later than the deadline of the link. */
  lemma HeldLinkIsOnTimeExactly<P>(waiting: seq<Item<P>>, t: Timeout, next: int, link: Item<P>,
                                   expireAfter: int, now: int)
    requires IsNextInterval(next, waiting, expireAfter, now) && t.base <= now
    requires expireAfter > 0 && link.added != 0
    ensures var after := Prepend(State(waiting, SetInterval(t, next)), link);
      Covered(after.timeout, link, expireAfter, now) <==>
        (waiting == [] || t.base + 1000 * next <= now || t.base + 1000 * next <= link.added + 1000 * expireAfter)
  {
  }

  // ---- the list as the daemon holds it ----------------------------------------

  class BusExpireList<P(==)> {
    var items: seq<Item<P>>
    var timeout: Timeout
    const expireAfter: int

    constructor (expireAfter: int, now: int)
      ensures items == [] && timeout == Timeout(false, 100, now) && this.expireAfter == expireAfter
    {
      items, timeout := [], Timeout(false, 100, now);
      this.expireAfter := expireAfter;
    }

    function Contents(): State<P>
      reads this
    {
      State(items, timeout)
    }

    method AddLink(link: Item<P>)
      modifies this
      ensures Contents() == Prepend(old(Contents()), link)
    {
      items := [link] + items;
      if !timeout.enabled {
        timeout := SetInterval(timeout, 0);
      }
    }

    method Unlink(link: nat)
      requires link < |items|
      modifies `items
      ensures items == DropAt(old(items), link)
    {
      items := items[..link] + items[link + 1..];
    }

    method RecheckImmediately()
      modifies `timeout
      ensures timeout == SetInterval(old(timeout), 0)
    {
      timeout := SetInterval(timeout, 0);
    }

    /** expire_timeout_handler and bus_expirelist_expire: the main loop has just
        set the timer's base; the handler reads the clock itself. */
    method Expire(base: int, now: int, canExpire: P -> bool) returns (expired: seq<Item<P>>, done: bool)
      requires timeout.base <= base <= now
      modifies this
      ensures done <==> forall i :: i in old(items) && IsDue(i, expireAfter, now) ==> canExpire(i.data)
      ensures done ==>
        && expired == Due(old(items), expireAfter, now)
        && items == Waiting(old(items), expireAfter, now)
        && exists next :: IsNextInterval(next, items, expireAfter, now) &&
             timeout == SetInterval(old(timeout).(base := base), next)
      ensures !done ==>
        && timeout == Timeout(true, OOM_WAIT, base)
        && multiset(expired) + multiset(items) == multiset(old(items))
        && forall i :: i in expired ==> IsDue(i, expireAfter, now) && canExpire(i.data)
    {
      timeout := timeout.(base := base);
      var next := -1;
      var stopped := 0;
      expired := [];
      if items != [] {
        ghost var was := items;
        var length := |items|;
        items, expired, next, stopped := DoExpiration(items, expireAfter, now, canExpire);
        PartialPass(was, stopped, expireAfter, now);
        DueMembers(was[..stopped], expireAfter, now);
        done := stopped == length;
        assert done ==> was[..stopped] == was && items + [] == items;
        assert !done ==> was[stopped] in was;
      } else {
        done := true;
      }
      timeout := SetInterval(timeout, next);
    }
  }

  lemma {:induction false} DueMembers<P>(items: seq<Item<P>>, expireAfter: int, now: int)
    ensures forall i :: i in Due(items, expireAfter, now) <==> i in items && IsDue(i, expireAfter, now)
  {
    if items != [] {
      assert items == [items[0]] + items[1..];
      DueMembers(items[1..], expireAfter, now);
    }
  }

  /** Nothing is lost: an item is either expired or still waiting. */
  lemma {:induction false} DueAndWaiting<P>(items: seq<Item<P>>, expireAfter: int, now: int)
    ensures multiset(Due(items, expireAfter, now)) + multiset(Waiting(items, expireAfter, now)) == multiset(items)
  {
    if items != [] {
      assert items == [items[0]] + items[1..];
      DueAndWaiting(items[1..], expireAfter, now);
    }
  }

  lemma PartialPass<P>(items: seq<Item<P>>, stopped: nat, expireAfter: int, now: int)
    requires stopped <= |items|
    ensures var (due, waiting) :=
      (Due(items[..stopped], expireAfter, now), Waiting(items[..stopped], expireAfter, now));
      multiset(due) + multiset(waiting + items[stopped..]) == multiset(items)
  {
    DueAndWaiting(items[..stopped], expireAfter, now);
    assert items == items[..stopped] + items[stopped..];
  }
}

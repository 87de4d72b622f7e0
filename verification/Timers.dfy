// The list of active timers: a singly linked list, ordered by expiry, edited in
// place, whose due timers are run while their callbacks edit it again.
module Timers {

  // ------------------------------------------------------ the list as a value

  // An active timer, by number, and when it expires.
  datatype Entry = Entry(id: nat, at: int)

  predicate Sorted(q: seq<Entry>) { forall i, j | 0 <= i < j < |q| :: q[i].at <= q[j].at }

  predicate Distinct(q: seq<Entry>) { forall i, j | 0 <= i < j < |q| :: q[i].id != q[j].id }

  predicate Active(q: seq<Entry>, id: nat) { exists i :: 0 <= i < |q| && q[i].id == id }

  function Without(q: seq<Entry>, id: nat): seq<Entry> {
    if q == [] then []
    else if q[0].id == id then q[1..]
    else [q[0]] + Without(q[1..], id)
  }

  // Behind every entry that expires no later, so equal expiries keep their order.
  function Insert(q: seq<Entry>, e: Entry): seq<Entry> {
    if q == [] || q[0].at > e.at then [e] + q else [q[0]] + Insert(q[1..], e)
  }

  lemma {:induction false} WithoutAt(q: seq<Entry>, id: nat, k: nat)
    requires k < |q| && q[k].id == id && forall i | 0 <= i < k :: q[i].id != id
    ensures Without(q, id) == q[..k] + q[k + 1..]
  {
    if k > 0 {
      WithoutAt(q[1..], id, k - 1);
      assert [q[0]] + (q[1..][..k - 1] + q[1..][k..]) == q[..k] + q[k + 1..];
    }
  }

  lemma {:induction false} WithoutAbsent(q: seq<Entry>, id: nat)
    requires !Active(q, id)
    ensures Without(q, id) == q
  {
    if q != [] {
      assert q[0].id != id;
      forall i | 0 <= i < |q[1..]| ensures q[1..][i].id != id { assert q[i + 1].id != id; }
      WithoutAbsent(q[1..], id);
    }
  }

  lemma WithoutDrops(q: seq<Entry>, id: nat)
    requires Distinct(q)
    ensures !Active(Without(q, id), id)
  {
    if Active(q, id) {
      var k :| 0 <= k < |q| && q[k].id == id;
      WithoutAt(q, id, k);
    } else {
      WithoutAbsent(q, id);
    }
  }

  lemma {:induction false} InsertAt(q: seq<Entry>, e: Entry, k: nat)
    requires k <= |q| && (forall i | 0 <= i < k :: q[i].at <= e.at) && (k < |q| ==> q[k].at > e.at)
    ensures Insert(q, e) == q[..k] + [e] + q[k..]
  {
    if k > 0 {
      InsertAt(q[1..], e, k - 1);
      assert [q[0]] + (q[1..][..k - 1] + [e] + q[1..][k - 1..]) == q[..k] + [e] + q[k..];
    } else {
      assert q[..0] + [e] + q[0..] == [e] + q;
    }
  }

  lemma RemovalKeepsOrder(q: seq<Entry>, k: nat)
    requires k < |q| && Distinct(q) && Sorted(q)
    ensures Distinct(q[..k] + q[k + 1..]) && Sorted(q[..k] + q[k + 1..])
  {}

  lemma DifferentIds(q: seq<Entry>, i: nat, j: nat)
    requires Distinct(q) && i < |q| && j < |q| && i != j
    ensures q[i].id != q[j].id
  {}

  lemma InsertionKeepsOrder(q: seq<Entry>, e: Entry, k: nat)
    requires k <= |q| && Distinct(q) && Sorted(q) && !Active(q, e.id)
    requires (forall i | 0 <= i < k :: q[i].at <= e.at) && (k < |q| ==> q[k].at > e.at)
    ensures Distinct(q[..k] + [e] + q[k..]) && Sorted(q[..k] + [e] + q[k..])
  {}

  // --------------------------------------------------- what a callback may do

  datatype Action = Arm(id: nat, at: int) | Cancel(id: nat)

  function Rearm(q: seq<Entry>, id: nat, at: int): seq<Entry> { Insert(Without(q, id), Entry(id, at)) }

  function Apply(q: seq<Entry>, actions: seq<Action>): seq<Entry>
    decreases |actions|
  {
    if actions == [] then q
    else
      Apply(match actions[0]
            case Arm(id, at) => Rearm(q, id, at)
            case Cancel(id) => Without(q, id),
            actions[1..])
  }

  // A callback may depend on every timer fired so far, its own last.
  type Callback = seq<nat> -> seq<Action>

  // Callbacks re-arm timers only for later than now.
  predicate Later(actions: seq<Action>, now: int) { forall a | a in actions :: a.Arm? ==> a.at > now }

  ghost predicate AlwaysLater(cb: Callback, now: int) { forall fired :: Later(cb(fired), now) }

  function DueCount(q: seq<Entry>, now: int): nat {
    if q == [] then 0 else (if q[0].at <= now then 1 else 0) + DueCount(q[1..], now)
  }

  lemma WithoutDueCount(q: seq<Entry>, id: nat, now: int)
    ensures DueCount(Without(q, id), now) <= DueCount(q, now)
  {}

  lemma {:induction false} InsertDueCount(q: seq<Entry>, e: Entry, now: int)
    requires e.at > now
    ensures DueCount(Insert(q, e), now) == DueCount(q, now)
  {
    if !(q == [] || q[0].at > e.at) { InsertDueCount(q[1..], e, now); }
  }

  lemma {:induction false} ApplyDueCount(q: seq<Entry>, actions: seq<Action>, now: int)
    requires Later(actions, now)
    ensures DueCount(Apply(q, actions), now) <= DueCount(q, now)
    decreases |actions|
  {
    if actions != [] {
      assert actions[0] in actions;
      WithoutDueCount(q, actions[0].id, now);
      match actions[0]
      case Arm(id, at) =>
        InsertDueCount(Without(q, id), Entry(id, at), now);
        ApplyDueCount(Rearm(q, id, at), actions[1..], now);
      case Cancel(id) => ApplyDueCount(Without(q, id), actions[1..], now);
    }
  }

  // The active list and the timers fired once no due timer heads the list. It
  // ends because every callback leaves fewer due timers than it found.
  ghost function RunDue(q: seq<Entry>, now: int, cb: Callback, fired: seq<nat>): (seq<Entry>, seq<nat>)
    requires AlwaysLater(cb, now)
    decreases DueCount(q, now)
  {
    if q == [] || q[0].at > now then (q, fired)
    else
      var fired' := fired + [q[0].id];
      ApplyDueCount(q[1..], cb(fired'), now);
      RunDue(Apply(q[1..], cb(fired')), now, cb, fired')
  }

  // ------------------------------------------------------- the list in memory

  class Timer {
    const id: nat
    var expire: int
    var next: Timer?

    constructor (id: nat)
      ensures this.id == id
    {
      this.id, expire, next := id, 0, null;
    }
  }

  class TimerList {
    const timers: seq<Timer>
    var head: Timer?
    ghost var queue: seq<Entry>

    ghost function NodeAt(q: seq<Entry>, i: nat): Timer?
      requires forall e | e in q :: e.id < |timers|
    {
      if i < |q| then timers[q[i].id] else null
    }

    ghost predicate Numbered()
      reads timers
    {
      forall i | 0 <= i < |timers| :: timers[i].id == i
    }

    // The node of entry `i` holds its expiry and points to the node of the next.
    ghost predicate NodeOk(q: seq<Entry>, i: nat)
      requires i < |q| && forall e | e in q :: e.id < |timers|
      reads timers
    {
      timers[q[i].id].expire == q[i].at && timers[q[i].id].next == NodeAt(q, i + 1)
    }

    // Acyclic, duplicate-free and sorted: the nodes are exactly those of the queue.
    ghost predicate Valid()
      reads this, timers
    {
      && Numbered()
      && (forall e | e in queue :: e.id < |timers|)
      && head == NodeAt(queue, 0)
      && (forall i | 0 <= i < |queue| :: NodeOk(queue, i))
      && Distinct(queue) && Sorted(queue)
    }

    constructor (timers: seq<Timer>)
      requires forall i | 0 <= i < |timers| :: timers[i].id == i
      ensures Valid() && queue == [] && this.timers == timers
    {
      this.timers, head, queue := timers, null, [];
    }

    // Take entry `i` out; `prev` is its predecessor's node, null at the head.
    method Unlink(prev: Timer?, ts: Timer, ghost i: nat)
      requires Valid() && i < |queue| && ts == timers[queue[i].id]
      requires prev == if i == 0 then null else timers[queue[i - 1].id]
      modifies this, timers
      ensures Valid() && queue == old(queue)[..i] + old(queue)[i + 1..]
      ensures forall t | t in timers && t != prev :: unchanged(t)
    {
      hide Sorted, Distinct;
      assert NodeOk(queue, i);
      if prev == null {
        head := ts.next;
      } else {
        prev.next := ts.next;
      }
      ghost var q := queue;
      queue := q[..i] + q[i + 1..];
      RemovalKeepsOrder(q, i);
      assert forall e | e in queue :: e in q;
      forall j | 0 <= j < |queue| ensures NodeOk(queue, j) {
        NodesAfterRemoval(q, i, j);
        ghost var m := if j < i then j else j + 1;
        assert old(NodeOk(q, m)) && old(NodeOk(q, i));
        DifferentIds(q, m, i);
        if i > 0 && m != i - 1 { DifferentIds(q, m, i - 1); }
      }
    }

    lemma NodesAfterRemoval(q: seq<Entry>, i: nat, j: nat)
      requires (forall f | f in q :: f.id < |timers|) && i < |q| && j < |q| - 1
      ensures var after := q[..i] + q[i + 1..];
              && (forall f | f in after :: f.id < |timers|)
              && after[j] == (if j < i then q[j] else q[j + 1])
              && NodeAt(after, j + 1) == (if j + 1 < i then NodeAt(q, j + 1) else NodeAt(q, j + 2))
    {
    }

    lemma NodesAfterInsert(q: seq<Entry>, e: Entry, i: nat, j: nat)
      requires (forall f | f in q :: f.id < |timers|) && e.id < |timers| && i <= |q| && j <= |q|
      ensures var after := q[..i] + [e] + q[i..];
              && (forall f | f in after :: f.id < |timers|)
              && after[j] == (if j < i then q[j] else if j == i then e else q[j - 1])
              && NodeAt(after, j + 1) ==
                 (if j + 1 < i then NodeAt(q, j + 1) else if j + 1 == i then timers[e.id] else NodeAt(q, j))
    {
    }

    method Link(prev: Timer?, ts: Timer, expire: int, ghost i: nat)
      requires Valid() && i <= |queue| && ts in timers && !Active(queue, ts.id)
      requires prev == if i == 0 then null else timers[queue[i - 1].id]
      requires (forall j | 0 <= j < i :: queue[j].at <= expire) && (i < |queue| ==> queue[i].at > expire)
      modifies this, timers
      ensures Valid() && queue == old(queue)[..i] + [Entry(ts.id, expire)] + old(queue)[i..]
    {
      ghost var q := queue;
      InsertionKeepsOrder(q, Entry(ts.id, expire), i);
      hide Sorted, Distinct;
      LinkNode(prev, ts, expire, i);
      if prev == null {
        head := ts;
      }
      queue := q[..i] + [Entry(ts.id, expire)] + q[i..];
    }

    // The pointer surgery among the nodes.
    method LinkNode(prev: Timer?, ts: Timer, expire: int, ghost i: nat)
      requires Valid() && i <= |queue| && ts in timers && !Active(queue, ts.id)
      requires prev == if i == 0 then null else timers[queue[i - 1].id]
      modifies timers
      ensures Numbered()
      ensures forall j | 0 <= j <= |queue| :: NodeOk(queue[..i] + [Entry(ts.id, expire)] + queue[i..], j)
    {
      ghost var q := queue;
      assert forall j | 0 <= j < |q| :: q[j].id != ts.id;
      assert head == NodeAt(q, 0) && Distinct(q);
      hide Sorted, Distinct, Active, Valid;
      ts.expire := expire;
      if prev == null {
        ts.next := head;
      } else {
        ts.next := prev.next;
        prev.next := ts;
      }
      forall j | 0 <= j <= |q| ensures NodeOk(q[..i] + [Entry(ts.id, expire)] + q[i..], j) {
        NodesAfterInsert(q, Entry(ts.id, expire), i, j);
        if i > 0 {
          assert old(NodeOk(q, i - 1));
        }
        if j != i {
          ghost var m := if j < i then j else j - 1;
          assert old(NodeOk(q, m)) && timers[q[m].id] != ts;
          if i > 0 && m != i - 1 {
            DifferentIds(q, m, i - 1);
            assert timers[q[m].id] != prev;
          }
        }
      }
    }

    method Del(ts: Timer)
      requires Valid() && ts in timers
      modifies this, timers
      ensures Valid() && queue == Without(old(queue), ts.id)
    {
      hide Sorted, Distinct;
      var prev: Timer? := null;
      var t := head;
      ghost var i := 0;
      while t != null && t != ts
        invariant 0 <= i <= |queue| && t == NodeAt(queue, i)
        invariant prev == if i == 0 then null else timers[queue[i - 1].id]
        invariant forall j | 0 <= j < i :: queue[j].id != ts.id
        decreases |queue| - i
      {
        assert NodeOk(queue, i);
        prev, t, i := t, t.next, i + 1;
      }
      assert i < |queue| ==> NodeOk(queue, i);
      if t == ts {
        WithoutAt(queue, ts.id, i);
        Unlink(prev, ts, i);
      } else {
        WithoutAbsent(queue, ts.id);
      }
    }

    method Mod(ts: Timer, expire: int)
      requires Valid() && ts in timers
      modifies this, timers
      ensures Valid() && queue == Rearm(old(queue), ts.id, expire)
    {
      WithoutDrops(queue, ts.id);
      hide Sorted, Distinct;
      Del(ts);
      var prev: Timer? := null;
      var t := head;
      ghost var i := 0;
      while t != null && t.expire <= expire
        invariant 0 <= i <= |queue| && t == NodeAt(queue, i)
        invariant prev == if i == 0 then null else timers[queue[i - 1].id]
        invariant forall j | 0 <= j < i :: queue[j].at <= expire
        decreases |queue| - i
      {
        assert NodeOk(queue, i);
        prev, t, i := t, t.next, i + 1;
      }
      assert i < |queue| ==> NodeOk(queue, i);
      InsertAt(queue, Entry(ts.id, expire), i);
      Link(prev, ts, expire, i);
    }

    // The alarm handler looks only at the head, and that is enough.
    method Expired(now: int) returns (r: bool)
      requires Valid()
      ensures r <==> exists e :: e in queue && e.at <= now
    {
      assert queue != [] ==> NodeOk(queue, 0) && queue[0] in queue;
      r := head != null && head.expire <= now;
    }

    method Perform(actions: seq<Action>)
      requires Valid() && forall a | a in actions :: a.id < |timers|
      modifies this, timers
      ensures Valid() && queue == Apply(old(queue), actions)
    {
      hide Distinct, Sorted;
      var i := 0;
      while i < |actions|
        invariant 0 <= i <= |actions| && Valid()
        invariant Apply(queue, actions[i..]) == Apply(old(queue), actions)
      {
        match actions[i] {
          case Arm(id, at) => Mod(timers[id], at);
          case Cancel(id) => Del(timers[id]);
        }
        assert actions[i..][1..] == actions[i + 1..];
        i := i + 1;
      }
    }

    // Take the head off before its callback runs.
    method Pop() returns (ts: Timer)
      requires Valid() && queue != []
      modifies this, timers
      ensures Valid() && ts.id == old(queue[0].id) && queue == old(queue)[1..]
    {
      hide Sorted, Distinct;
      ghost var q := queue;
      assert NodeOk(q, 0);
      ts := head;
      head := ts.next;
      ts.next := null;
      queue := q[1..];
      RemovalKeepsOrder(q, 0);
      assert q[..0] + q[1..] == q[1..];
      forall j | 0 <= j < |queue| ensures NodeOk(queue, j) {
        assert old(NodeOk(q, j + 1));
        DifferentIds(q, j + 1, 0);
      }
    }

    // Run every due timer; its callback edits the list it was taken from.
    method RunTimers(now: int, cb: Callback) returns (fired: seq<nat>)
      requires Valid() && AlwaysLater(cb, now)
      requires forall h, a | a in cb(h) :: a.id < |timers|
      modifies this, timers
      ensures Valid() && (queue, fired) == RunDue(old(queue), now, cb, [])
    {
      fired := [];
      while head != null && head.expire <= now
        invariant Valid()
        invariant RunDue(queue, now, cb, fired) == RunDue(old(queue), now, cb, [])
        decreases DueCount(queue, now)
      {
        assert NodeOk(queue, 0);
        var ts := Pop();
        fired := fired + [ts.id];
        ApplyDueCount(queue, cb(fired), now);
        Perform(cb(fired));
      }
      assert queue != [] ==> NodeOk(queue, 0);
    }
  }

  // ------------------------------------- which timers fire, without the list

  // The due entries at the front.
  function Due(q: seq<Entry>, now: int): seq<Entry> {
    if q == [] || q[0].at > now then [] else [q[0]] + Due(q[1..], now)
  }

  function Ids(actions: seq<Action>): set<nat> { set a | a in actions :: a.id }

  function Untouched(due: seq<Entry>, touched: set<nat>): seq<Entry> {
    if due == [] then []
    else (if due[0].id in touched then [] else [due[0]]) + Untouched(due[1..], touched)
  }

  // Go through the timers due at the start, in order, and fire each one unless
  // a callback that ran before has cancelled or re-armed it.
  function Fires(due: seq<Entry>, touched: set<nat>, cb: Callback, fired: seq<nat>): seq<nat> {
    if due == [] then fired
    else if due[0].id in touched then Fires(due[1..], touched, cb, fired)
    else
      var fired' := fired + [due[0].id];
      Fires(due[1..], touched + Ids(cb(fired')), cb, fired')
  }

  lemma {:induction false} DueIsAllDue(q: seq<Entry>, now: int)
    requires Sorted(q)
    ensures Due(q, now) <= q && forall i | 0 <= i < |q| :: q[i].at <= now <==> i < |Due(q, now)|
  {
    if q != [] && q[0].at <= now { DueIsAllDue(q[1..], now); }
  }

  lemma {:induction false} UntouchedAbsent(due: seq<Entry>, id: nat)
    requires !Active(due, id)
    ensures Untouched(due, {id}) == due
  {
    if due != [] {
      assert due[0].id != id;
      forall i | 0 <= i < |due[1..]| ensures due[1..][i].id != id { assert due[i + 1].id != id; }
      UntouchedAbsent(due[1..], id);
    }
  }

  lemma {:induction false} DueSubset(q: seq<Entry>, id: nat, now: int)
    requires !Active(q, id)
    ensures !Active(Due(q, now), id)
  {
    if q != [] && q[0].at <= now {
      assert q[0].id != id;
      forall i | 0 <= i < |q[1..]| ensures q[1..][i].id != id { assert q[i + 1].id != id; }
      DueSubset(q[1..], id, now);
    }
  }

  lemma {:induction false} WithoutDue(q: seq<Entry>, id: nat, now: int)
    requires Distinct(q) && Sorted(q)
    ensures Due(Without(q, id), now) == Untouched(Due(q, now), {id})
  {
    if q != [] {
      if q[0].id == id {
        assert !Active(q[1..], id) by {
          forall i | 0 <= i < |q[1..]| ensures q[1..][i].id != id { assert q[i + 1].id != q[0].id; }
        }
        if q[0].at <= now {
          DueSubset(q[1..], id, now);
          UntouchedAbsent(Due(q[1..], now), id);
        } else if |q| > 1 {
          assert q[1].at >= q[0].at;
        }
      } else {
        WithoutDue(q[1..], id, now);
      }
    }
  }

  lemma {:induction false} InsertDue(q: seq<Entry>, e: Entry, now: int)
    requires e.at > now
    ensures Due(Insert(q, e), now) == Due(q, now)
  {
    if !(q == [] || q[0].at > e.at) { InsertDue(q[1..], e, now); }
  }

  lemma WithoutKeepsOrder(q: seq<Entry>, id: nat)
    requires Distinct(q) && Sorted(q)
    ensures Distinct(Without(q, id)) && Sorted(Without(q, id)) && !Active(Without(q, id), id)
  {
    WithoutDrops(q, id);
    if k :| 0 <= k < |q| && q[k].id == id {
      WithoutAt(q, id, k);
      RemovalKeepsOrder(q, k);
    } else {
      WithoutAbsent(q, id);
    }
  }

  function Position(q: seq<Entry>, at: int): (k: nat)
    requires Sorted(q)
    ensures k <= |q| && (forall i | 0 <= i < k :: q[i].at <= at) && (k < |q| ==> q[k].at > at)
  {
    if q == [] || q[0].at > at then 0 else 1 + Position(q[1..], at)
  }

  lemma RearmKeepsOrder(q: seq<Entry>, id: nat, at: int)
    requires Distinct(q) && Sorted(q)
    ensures Distinct(Rearm(q, id, at)) && Sorted(Rearm(q, id, at))
  {
    WithoutKeepsOrder(q, id);
    var q' := Without(q, id);
    InsertAt(q', Entry(id, at), Position(q', at));
    InsertionKeepsOrder(q', Entry(id, at), Position(q', at));
  }

  lemma {:induction false} UntouchedTwice(due: seq<Entry>, s: set<nat>, t: set<nat>)
    ensures Untouched(Untouched(due, s), t) == Untouched(due, s + t)
  {
    if due != [] {
      UntouchedTwice(due[1..], s, t);
      var rest := Untouched(due[1..], s);
      if due[0].id !in s {
        assert Untouched(due, s) == [due[0]] + rest;
        assert ([due[0]] + rest)[1..] == rest;
      } else {
        assert Untouched(due, s) == rest;
      }
    }
  }

  // Callbacks that re-arm for later only thin out the due front.
  lemma {:induction false} ApplyDue(q: seq<Entry>, actions: seq<Action>, now: int)
    requires Distinct(q) && Sorted(q) && Later(actions, now)
    ensures Distinct(Apply(q, actions)) && Sorted(Apply(q, actions))
    ensures Due(Apply(q, actions), now) == Untouched(Due(q, now), Ids(actions))
    decreases |actions|
  {
    if actions == [] {
      assert Ids(actions) == {};
      UntouchedNone(Due(q, now));
    } else {
      assert actions[0] in actions;
      var id := actions[0].id;
      WithoutKeepsOrder(q, id);
      WithoutDue(q, id, now);
      var q' := Without(q, id);
      if actions[0].Arm? {
        RearmKeepsOrder(q, id, actions[0].at);
        InsertDue(q', Entry(id, actions[0].at), now);
        q' := Rearm(q, id, actions[0].at);
      }
      ApplyDue(q', actions[1..], now);
      UntouchedTwice(Due(q, now), {id}, Ids(actions[1..]));
      assert Ids(actions) == {id} + Ids(actions[1..]);
    }
  }

  lemma {:induction false} UntouchedNone(due: seq<Entry>)
    ensures Untouched(due, {}) == due
  {
    if due != [] { UntouchedNone(due[1..]); }
  }

  lemma {:induction false} RunFiresRest(q: seq<Entry>, now: int, cb: Callback, due: seq<Entry>, touched: set<nat>, fired: seq<nat>)
    requires Distinct(q) && Sorted(q) && AlwaysLater(cb, now)
    requires Due(q, now) == Untouched(due, touched)
    ensures RunDue(q, now, cb, fired).1 == Fires(due, touched, cb, fired)
    ensures var r := RunDue(q, now, cb, fired).0; Sorted(r) && Distinct(r) && Due(r, now) == []
    decreases |due|, DueCount(q, now)
  {
    if due == [] {
    } else if due[0].id in touched {
      RunFiresRest(q, now, cb, due[1..], touched, fired);
    } else {
      assert Untouched(due, touched) == [due[0]] + Untouched(due[1..], touched);
      assert Due(q, now)[0] == due[0] && Due(q, now)[1..] == Untouched(due[1..], touched);
      assert Due(q, now) == [q[0]] + Due(q[1..], now);
      assert q[0] == due[0] && Due(q[1..], now) == Due(q, now)[1..];
      var fired' := fired + [due[0].id];
      var q' := q[1..];
      assert Distinct(q') && Sorted(q');
      ApplyDue(q', cb(fired'), now);
      ApplyDueCount(q', cb(fired'), now);
      UntouchedTwice(due[1..], touched, Ids(cb(fired')));
      RunFiresRest(Apply(q', cb(fired')), now, cb, due[1..], touched + Ids(cb(fired')), fired');
    }
  }

  // Running the list fires, in order of expiry and first come first served,
  // exactly the timers due at the start that no earlier callback touched, and
  // leaves no due timer behind.
  lemma RunFiresTheDue(q: seq<Entry>, now: int, cb: Callback)
    requires Distinct(q) && Sorted(q) && AlwaysLater(cb, now)
    ensures RunDue(q, now, cb, []).1 == Fires(Due(q, now), {}, cb, [])
    ensures forall e | e in RunDue(q, now, cb, []).0 :: e.at > now
  {
    UntouchedNone(Due(q, now));
    RunFiresRest(q, now, cb, Due(q, now), {}, []);
    DueIsAllDue(RunDue(q, now, cb, []).0, now);
  }

  // Callbacks that only re-arm or cancel timers that have already fired, as
  // periodic devices do, let every due timer fire.
  lemma {:induction false} PeriodicTimersAllFire(due: seq<Entry>, touched: set<nat>, cb: Callback, fired: seq<nat>)
    requires Distinct(due) && forall h: seq<nat>, a | a in cb(h) :: a.id in h
    requires (forall id | id in touched :: id in fired) && forall e | e in due :: e.id !in fired
    ensures Fires(due, touched, cb, fired) == fired + seq(|due|, i requires 0 <= i < |due| => due[i].id)
  {
    if due != [] {
      assert due[0] in due;
      var fired' := fired + [due[0].id];
      forall e | e in due[1..] ensures e.id !in fired' {
        var k :| 1 <= k < |due| && due[k] == e;
        assert due[0].id != due[k].id;
      }
      PeriodicTimersAllFire(due[1..], touched + Ids(cb(fired')), cb, fired');
    }
  }

  // One turn of the loop, whether or not callbacks keep to later times, and `n`
  // of them.
  function Turn(q: seq<Entry>, cb: Callback, fired: seq<nat>): (seq<Entry>, seq<nat>)
    requires q != []
  {
    var fired' := fired + [q[0].id];
    (Apply(q[1..], cb(fired')), fired')
  }

  predicate AnyDue(q: seq<Entry>, now: int) { q != [] && q[0].at <= now }

  function Turns(q: seq<Entry>, now: int, cb: Callback, fired: seq<nat>, n: nat): (seq<Entry>, seq<nat>)
    decreases n
  {
    if n == 0 || !AnyDue(q, now) then (q, fired)
    else Turns(Turn(q, cb, fired).0, now, cb, Turn(q, cb, fired).1, n - 1)
  }

  // The last action on the entry's timer arms it for the entry's time.
  predicate Arms(actions: seq<Action>, e: Entry) {
    actions != [] &&
    (Arms(actions[1..], e) || (actions[0] == Arm(e.id, e.at) && e.id !in Ids(actions[1..])))
  }

  ghost predicate ArmsDue(actions: seq<Action>, now: int) { exists e :: Arms(actions, e) && e.at <= now }

  lemma WithoutMembers(q: seq<Entry>, id: nat)
    requires Distinct(q)
    ensures forall e :: e in Without(q, id) <==> e in q && e.id != id
  {
    if k :| 0 <= k < |q| && q[k].id == id {
      WithoutAt(q, id, k);
    } else {
      WithoutAbsent(q, id);
    }
  }

  lemma {:induction false} InsertMembers(q: seq<Entry>, e: Entry)
    ensures forall x :: x in Insert(q, e) <==> x in q || x == e
  {
    if !(q == [] || q[0].at > e.at) { InsertMembers(q[1..], e); }
  }

  // What is active after a callback: what it armed, and what it left alone.
  lemma {:induction false} ApplyMembers(q: seq<Entry>, actions: seq<Action>)
    requires Distinct(q) && Sorted(q)
    ensures Distinct(Apply(q, actions)) && Sorted(Apply(q, actions))
    ensures forall e :: e in Apply(q, actions) <==> Arms(actions, e) || (e in q && e.id !in Ids(actions))
    decreases |actions|
  {
    if actions != [] {
      var id := actions[0].id;
      WithoutKeepsOrder(q, id);
      WithoutMembers(q, id);
      var q' := Without(q, id);
      if actions[0].Arm? {
        RearmKeepsOrder(q, id, actions[0].at);
        InsertMembers(q', Entry(id, actions[0].at));
        q' := Rearm(q, id, actions[0].at);
      }
      ApplyMembers(q', actions[1..]);
      assert Ids(actions) == {id} + Ids(actions[1..]);
    }
  }

  // The loop has another timer to fire exactly when the callback armed one for
  // no later than now or left one of the due ones alone.
  lemma DueAfterTurn(q: seq<Entry>, now: int, cb: Callback, fired: seq<nat>)
    requires Distinct(q) && Sorted(q) && AnyDue(q, now)
    ensures var (q', fired') := Turn(q, cb, fired);
            && Distinct(q') && Sorted(q') && fired' == fired + [q[0].id]
            && (AnyDue(q', now) <==>
                  ArmsDue(cb(fired'), now) || exists e | e in q[1..] :: e.at <= now && e.id !in Ids(cb(fired')))
  {
    var (q', fired') := Turn(q, cb, fired);
    ApplyMembers(q[1..], cb(fired'));
    if AnyDue(q', now) {
      assert q'[0] in q';
    }
  }

  // With callbacks that each leave some timer, at whatever time, armed for no
  // later than now, the loop has a due timer to fire after any number of turns.
  lemma {:induction false} RearmingForNowNeverEnds(q: seq<Entry>, now: int, cb: Callback, fired: seq<nat>, n: nat)
    requires Distinct(q) && Sorted(q) && AnyDue(q, now)
    requires forall h | h != [] :: ArmsDue(cb(h), now)
    ensures AnyDue(Turns(q, now, cb, fired, n).0, now) && |Turns(q, now, cb, fired, n).1| == |fired| + n
    decreases n
  {
    hide Turn, ArmsDue, Sorted, Distinct;
    if n > 0 {
      DueAfterTurn(q, now, cb, fired);
      RearmingForNowNeverEnds(Turn(q, cb, fired).0, now, cb, Turn(q, cb, fired).1, n - 1);
    }
  }

  // If that stops after some number of firings, so does the loop.
  lemma {:induction false} RearmingForLaterEnds(q: seq<Entry>, now: int, cb: Callback, fired: seq<nat>, limit: nat)
    requires forall h: seq<nat> | |h| > limit :: Later(cb(h), now)
    ensures exists n: nat :: !AnyDue(Turns(q, now, cb, fired, n).0, now)
    decreases if |fired| < limit then limit - |fired| else 0, if |fired| < limit then 0 else DueCount(q, now)
  {
    hide Later;
    if !AnyDue(q, now) {
      assert Turns(q, now, cb, fired, 0).0 == q;
    } else {
      var (q', fired') := Turn(q, cb, fired);
      if |fired'| > limit { ApplyDueCount(q[1..], cb(fired'), now); }
      RearmingForLaterEnds(q', now, cb, fired', limit);
      var n: nat :| !AnyDue(Turns(q', now, cb, fired', n).0, now);
      assert Turns(q, now, cb, fired, n + 1) == Turns(q', now, cb, fired', n);
    }
  }
}

/**
 The mutable 2Q state of crates/mirage-cache/src/policy_core.rs: queues with mirror sets, and
 the protected LRU kept as an ordered map from tick to id beside its inverse. An ordered map
 is its sequence of entries in key order. Every method does to the abstract queues what the
 functions of TwoQ say. Frequencies and prefetch marks, which 2Q never reads, are left out.
 */
module PolicyCore {
  import opened Basics
  import opened Sequences
  import opened TwoQ

  type Order = seq<(nat, Id)>

  function Ids(order: Order): (r: seq<Id>)
    ensures |r| == |order| && forall k :: 0 <= k < |r| ==> r[k] == order[k].1
  {
    seq(|order|, k requires 0 <= k < |order| => order[k].1)
  }

  predicate Ascending(order: Order) {
    forall i, j :: 0 <= i < j < |order| ==> order[i].0 < order[j].0
  }

  function RemoveTick(order: Order, tick: nat): Order {
    if |order| == 0 then [] else if order[0].0 == tick then order[1..] else [order[0]] + RemoveTick(order[1..], tick)
  }

  function InsertTick(order: Order, tick: nat, id: Id): Order {
    if |order| == 0 then [(tick, id)]
    else if order[0].0 < tick then [order[0]] + InsertTick(order[1..], tick, id)
    else if order[0].0 == tick then [(tick, id)] + order[1..]
    else [(tick, id)] + order
  }

  function Cut(order: Order, k: nat): Order
    requires k < |order|
  {
    order[..k] + order[k + 1..]
  }

  lemma CutTail(order: Order, k: nat)
    requires 0 < k < |order|
    ensures Cut(order, k) == [order[0]] + Cut(order[1..], k - 1)
  {
  }

  lemma {:induction false} RemoveTickAt(order: Order, k: nat)
    requires k < |order| && forall i :: 0 <= i < k ==> order[i].0 != order[k].0
    ensures RemoveTick(order, order[k].0) == Cut(order, k)
  {
    if k > 0 {
      assert order[1..][k - 1] == order[k];
      RemoveTickAt(order[1..], k - 1);
      CutTail(order, k);
    }
  }

  lemma {:induction false} InsertNewest(order: Order, tick: nat, id: Id)
    requires forall k :: 0 <= k < |order| ==> order[k].0 < tick
    ensures InsertTick(order, tick, id) == order + [(tick, id)]
  {
    if |order| > 0 {
      InsertNewest(order[1..], tick, id);
    }
  }

  /** The inverse of an order: from id to tick. */
  function IndexOf(order: Order): map<Id, nat> {
    if |order| == 0 then map[]
    else
      var last := order[|order| - 1];
      IndexOf(order[..|order| - 1])[last.1 := last.0]
  }

  /** Ticks ascend strictly and none is later than `now`. */
  predicate Ticks(order: Order, now: int) {
    |order| > 0 ==>
      var last := order[|order| - 1];
      last.0 <= now && Ticks(order[..|order| - 1], last.0 - 1)
  }

  lemma {:induction false} TicksAscend(order: Order, now: int)
    requires Ticks(order, now)
    ensures Ascending(order) && forall k :: 0 <= k < |order| ==> order[k].0 <= now
  {
    if |order| > 0 {
      var last: int := order[|order| - 1].0;
      TicksAscend(order[..|order| - 1], last - 1);
    }
  }

  lemma {:induction false} TicksLater(order: Order, now: int, later: int)
    requires Ticks(order, now) && now <= later
    ensures Ticks(order, later)
  {
  }

  lemma {:induction false} TicksCut(order: Order, now: int, k: nat)
    requires Ticks(order, now) && k < |order|
    ensures Ticks(Cut(order, k), now)
    decreases |order|
  {
    var n := |order| - 1;
    var last: int := order[n].0;
    if k == n {
      assert Cut(order, k) == order[..n];
      TicksLater(order[..n], last - 1, now);
    } else {
      TicksCut(order[..n], last - 1, k);
      assert Cut(order, k)[..n - 1] == Cut(order[..n], k);
    }
  }

  lemma {:induction false} IndexKeys(order: Order)
    ensures IndexOf(order).Keys == Members(Ids(order))
  {
    if |order| > 0 {
      var n := |order| - 1;
      IndexKeys(order[..n]);
      assert Ids(order) == Ids(order[..n]) + [order[n].1];
    }
  }

  lemma {:induction false} IndexAt(order: Order, k: nat)
    requires Distinct(Ids(order)) && k < |order|
    ensures order[k].1 in IndexOf(order) && IndexOf(order)[order[k].1] == order[k].0
    decreases |order|
  {
    var n := |order| - 1;
    if k < n {
      assert Ids(order[..n]) == Ids(order)[..n];
      IndexAt(order[..n], k);
      assert Ids(order)[k] != Ids(order)[n];
    }
  }

  lemma IndexSnoc(order: Order, entry: (nat, Id))
    ensures IndexOf(order + [entry]) == IndexOf(order)[entry.1 := entry.0]
  {
    assert (order + [entry])[..|order|] == order;
  }

  /** The last id is not among the earlier ones. */
  lemma LastIsNew(order: Order)
    requires Distinct(Ids(order)) && |order| > 0
    ensures var n := |order| - 1;
            Distinct(Ids(order[..n])) && order[n].1 !in IndexOf(order[..n]) && forall k :: 0 <= k < n ==>
                order[k].1 != order[n].1
  {
    var n := |order| - 1;
    assert Ids(order[..n]) == Ids(order)[..n];
    assert Ids(order)[n] == order[n].1 && forall k :: 0 <= k < n ==> Ids(order)[k] != Ids(order)[n];
    IndexKeys(order[..n]);
  }

  lemma {:induction false} IndexCut(order: Order, k: nat)
    requires Distinct(Ids(order)) && k < |order|
    ensures IndexOf(Cut(order, k)) == IndexOf(order) - {order[k].1}
    decreases |order|
  {
    var n := |order| - 1;
    LastIsNew(order);
    if k == n {
      assert Cut(order, k) == order[..n];
    } else {
      IndexCut(order[..n], k);
      IndexSnoc(Cut(order[..n], k), order[n]);
      assert Cut(order, k) == Cut(order[..n], k) + [order[n]];
    }
  }

  lemma CutIds(order: Order, k: nat)
    requires k < |order|
    ensures Ids(Cut(order, k)) == RemoveAt(Ids(order), k)
  {
  }

  lemma FindTick(order: Order, id: Id) returns (k: nat)
    requires Distinct(Ids(order)) && id in IndexOf(order)
    ensures k < |order| && order[k] == (IndexOf(order)[id], id)
  {
    IndexKeys(order);
    assert id in Ids(order);
    k :| k < |order| && Ids(order)[k] == id;
    IndexAt(order, k);
  }

  /** The order map and its index are mutual inverses. */
  lemma IndexInverts(order: Order, now: int)
    requires Ticks(order, now) && Distinct(Ids(order))
    ensures Ascending(order) && |IndexOf(order)| == |order|
    ensures forall k :: 0 <= k < |order| ==> order[k].1 in IndexOf(order) && IndexOf(order)[order[k].1] == order[k].0
    ensures forall id :: id in IndexOf(order) ==> (IndexOf(order)[id], id) in order
  {
    TicksAscend(order, now);
    IndexSize(order);
    forall k | 0 <= k < |order|
      ensures order[k].1 in IndexOf(order) && IndexOf(order)[order[k].1] == order[k].0
    {
      IndexAt(order, k);
    }
    forall id | id in IndexOf(order)
      ensures (IndexOf(order)[id], id) in order
    {
      var k := FindTick(order, id);
    }
  }

  /** Removing the tick of an id removes the id. */
  lemma RemoveById(order: Order, now: int, id: Id)
    requires Ticks(order, now) && Distinct(Ids(order)) && id in IndexOf(order)
    ensures var out := RemoveTick(order, IndexOf(order)[id]);
            Ticks(out, now) && IndexOf(out) == IndexOf(order) - {id} && Ids(out) == Without(Ids(order), id)
  {
    var k := FindTick(order, id);
    RemoveByPosition(order, now, k);
    WithoutAt(Ids(order), k);
  }

  lemma RemoveByPosition(order: Order, now: int, k: nat)
    requires Ticks(order, now) && Distinct(Ids(order)) && k < |order|
    ensures var out := RemoveTick(order, order[k].0);
            Ticks(out, now) && IndexOf(out) == IndexOf(order) - {order[k].1} && Ids(out) == RemoveAt(Ids(order), k)
  {
    TicksAscend(order, now);
    RemoveTickAt(order, k);
    TicksCut(order, now, k);
    IndexCut(order, k);
    CutIds(order, k);
  }

  lemma IndexSize(order: Order)
    requires Distinct(Ids(order))
    ensures |IndexOf(order)| == |order|
  {
    IndexKeys(order);
    MembersSize(Ids(order));
    assert |IndexOf(order)| == |IndexOf(order).Keys|;
  }

  /** A newest tick goes last. */
  lemma PutNewest(order: Order, now: int, tick: nat, id: Id)
    requires Ticks(order, now) && now < tick
    ensures var out := InsertTick(order, tick, id);
            Ticks(out, tick) && IndexOf(out) == IndexOf(order)[id := tick] && Ids(out) == Ids(order) + [id]
  {
    TicksAscend(order, now);
    InsertNewest(order, tick, id);
    var out := order + [(tick, id)];
    assert out[..|order|] == order;
    TicksLater(order, now, tick - 1);
  }

  function Pins(entries: map<Id, bool>): set<Id> {
    set id | id in entries && entries[id]
  }

  lemma PinsAfter(entries: map<Id, bool>, id: Id)
    ensures Pins(entries - {id}) == Pins(entries) - {id} == Pins(entries[id := false])
  {
  }

  lemma MembersAfter(s: seq<Id>, id: Id)
    ensures Members(Without(s, id)) == Members(s) - {id} && Members(s + [id]) == Members(s) + {id}
  {
  }

  lemma MembersTail(s: seq<Id>)
    requires Distinct(s) && |s| > 0
    ensures Distinct(s[1..]) && Members(s[1..]) == Members(s) - {s[0]}
  {
    assert s[0] !in s[1..];
  }

  lemma UnpinnedLeaves(entries: map<Id, bool>, id: Id)
    requires id !in Pins(entries)
    ensures Pins(entries - {id}) == Pins(entries)
  {
  }

  lemma EvictKeeps(q: Queues, exclude: Id, preferProbationary: bool)
    requires Loose(q)
    ensures var step := EvictOne(q, exclude, preferProbationary);
            step.Some? ==> Loose(step.value.0) && |step.value.0.a1in| + |step.value.0.am| < |q.a1in| + |q.am|
  {
    var cold, warm := First(q.a1in, exclude, q.pinned), First(q.am, exclude, q.pinned);
    if cold.Some? { EvictProbationaryKeeps(q, cold.value); }
    if warm.Some? { EvictProtectedKeeps(q, warm.value); }
  }

  class Core {
    const capacity: nat
    var clock: nat
    var entries: map<Id, bool>
    var a1in: seq<Id>
    var a1inSet: set<Id>
    var a1out: seq<Id>
    var a1outSet: set<Id>
    var amOrder: Order
    var amIndex: map<Id, nat>

    ghost function Model(): Queues
      reads this
    {
      Queues(capacity, a1in, a1out, Ids(amOrder), Pins(entries))
    }

    /** Mirrors agree with their queues, the index inverts the order, and residency is membership. */
    ghost predicate Wired(now: int)
      reads this
    {
      && a1inSet == Members(a1in) && a1outSet == Members(a1out)
      && amIndex == IndexOf(amOrder) && Ticks(amOrder, now)
      && entries.Keys == a1inSet + amIndex.Keys
    }

    ghost predicate Valid()
      reads this
    {
      Wired(clock) && Sound(Model())
    }

    constructor (capacity: nat)
      requires capacity > 0
      ensures Valid() && Model() == Queues(capacity, [], [], [], {}) && clock == 0
    {
      this.capacity := capacity;
      clock, entries := 0, map[];
      a1in, a1inSet, a1out, a1outSet := [], {}, [], {};
      amOrder, amIndex := [], map[];
    }

    /** `TwoQQueues::ghost`. */
    method Remember(id: Id, bound: nat)
      requires bound > 0 && Distinct(a1out) && id !in a1out && a1outSet == Members(a1out)
      modifies this`a1out, this`a1outSet
      ensures a1out == Trim(old(a1out) + [id], bound) && a1outSet == Members(a1out)
    {
      AppendDistinct(a1out, id);
      a1out := a1out + [id];
      a1outSet := a1outSet + {id};
      ghost var all := a1out;
      while |a1out| > bound
        invariant |a1out| <= |all| && a1out == all[|all| - |a1out|..]
        invariant |a1out| >= Min(|all|, bound)
        invariant Distinct(a1out) && a1outSet == Members(a1out)
      {
        var oldest := a1out[0];
        MembersTail(a1out);
        a1out := a1out[1..];
        a1outSet := a1outSet - {oldest};
      }
    }

    /** The position of the first id that may be evicted. */
    method FirstEvictable(s: seq<Id>, exclude: Id) returns (position: Option<nat>)
      ensures position == First(s, exclude, Model().pinned)
    {
      for i := 0 to |s|
        invariant forall j :: 0 <= j < i ==> s[j] == exclude || s[j] in Model().pinned
      {
        if s[i] != exclude && !(s[i] in entries && entries[s[i]]) {
          assert s[i] in s;
          return Some(i);
        }
      }
      return None;
    }

    method EvictProbationaryAt(k: nat, ghost now: int) returns (victim: Id)
      requires Wired(now) && Loose(Model()) && k < |a1in| && a1in[k] !in Model().pinned
      modifies this
      ensures Wired(now) && Model() == EvictProbationary(old(Model()), k) && victim == old(a1in[k])
              && clock == old(clock)
    {
      RemoveAtDistinct(a1in, k);
      IndexKeys(amOrder);
      victim := a1in[k];
      assert victim in a1in;
      UnpinnedLeaves(entries, victim);
      a1in := RemoveAt(a1in, k);
      a1inSet := a1inSet - {victim};
      Remember(victim, capacity);
      entries := entries - {victim};
    }

    method EvictProtectedAt(k: nat, ghost now: int) returns (victim: Id)
      requires Wired(now) && Loose(Model()) && k < |amOrder| && amOrder[k].1 !in Model().pinned
      modifies this
      ensures Wired(now) && Model() == EvictProtected(old(Model()), k) && victim == old(amOrder[k].1)
              && clock == old(clock)
    {
      IndexKeys(amOrder);
      RemoveByPosition(amOrder, now, k);
      var tick := amOrder[k].0;
      victim := amOrder[k].1;
      assert Ids(amOrder)[k] in Ids(amOrder);
      UnpinnedLeaves(entries, victim);
      amOrder := RemoveTick(amOrder, tick);
      amIndex := amIndex - {victim};
      entries := entries - {victim};
    }

    method EvictOne(exclude: Id, preferProbationary: bool, ghost now: int) returns (victim: Option<Id>)
      requires Wired(now) && Loose(Model())
      modifies this
      ensures Wired(now) && clock == old(clock)
      ensures var step := TwoQ.EvictOne(old(Model()), exclude, preferProbationary);
              if step.None? then victim == None && Model() == old(Model())
              else victim == Some(step.value.1) && Model() == step.value.0
    {
      var cold := FirstEvictable(a1in, exclude);
      if preferProbationary && cold.Some? {
        var v := EvictProbationaryAt(cold.value, now);
        return Some(v);
      }
      var warm := FirstEvictable(Ids(amOrder), exclude);
      if warm.Some? {
        var v := EvictProtectedAt(warm.value, now);
        return Some(v);
      }
      if cold.Some? {
        var v := EvictProbationaryAt(cold.value, now);
        return Some(v);
      }
      return None;
    }

    /** The protected half of `TwoQQueues::drop_id`. */
    method DropProtected(id: Id, ghost now: int)
      requires amIndex == IndexOf(amOrder) && Ticks(amOrder, now) && Distinct(Ids(amOrder))
      modifies this`amIndex, this`amOrder
      ensures amIndex == IndexOf(amOrder) && Ticks(amOrder, now)
      ensures amIndex.Keys == old(amIndex.Keys) - {id} && Ids(amOrder) == Without(old(Ids(amOrder)), id)
    {
      IndexKeys(amOrder);
      if id in amIndex {
        RemoveById(amOrder, now, id);
        amOrder := RemoveTick(amOrder, amIndex[id]);
        amIndex := amIndex - {id};
      }
    }

    /** Removal of an id everywhere: its entry, and `TwoQQueues::drop_id`. */
    method Drop(id: Id, ghost now: int)
      requires Wired(now) && Distinct(Model().am)
      modifies this
      ensures Wired(now) && Model() == DropId(old(Model()), id) && clock == old(clock)
    {
      PinsAfter(entries, id);
      MembersAfter(a1in, id);
      MembersAfter(a1out, id);
      DropProtected(id, now);
      entries := entries - {id};
      a1inSet := a1inSet - {id};
      a1in := Without(a1in, id);
      a1outSet := a1outSet - {id};
      a1out := Without(a1out, id);
    }

    /** The id becomes the youngest protected one. */
    method PutProtected(id: Id)
      requires amIndex == IndexOf(amOrder) && Ticks(amOrder, clock - 1)
      modifies this`amIndex, this`amOrder
      ensures amIndex == IndexOf(amOrder) && Ticks(amOrder, clock)
      ensures amIndex.Keys == old(amIndex.Keys) + {id} && Ids(amOrder) == old(Ids(amOrder)) + [id]
    {
      PutNewest(amOrder, clock - 1, clock, id);
      amOrder := InsertTick(amOrder, clock, id);
      amIndex := amIndex[id := clock];
    }

    /** A repeat of a protected id: to the young end. */
    method Refresh(id: Id)
      requires Wired(clock - 1) && Distinct(Model().am) && id in amIndex
      modifies this
      ensures Wired(clock) && Model() == AccessTwoQ(old(Model()), id).queues && clock == old(clock)
    {
      IndexKeys(amOrder);
      DropProtected(id, clock - 1);
      PutProtected(id);
    }

    /** A repeat of a probationary id: into protected. */
    method Promote(id: Id)
      requires Wired(clock - 1) && id !in amIndex && id in a1inSet
      modifies this
      ensures Wired(clock) && Model() == AccessTwoQ(old(Model()), id).queues && clock == old(clock)
    {
      IndexKeys(amOrder);
      MembersAfter(a1in, id);
      a1inSet := a1inSet - {id};
      a1in := Without(a1in, id);
      PutProtected(id);
    }

    /** The first half of an admission: the id joins probation, or protected when its ghost is remembered. */
    method Place(id: Id)
      requires Wired(clock - 1) && Distinct(Model().am) && !Resident(Model(), id)
      modifies this
      ensures Wired(clock) && Model() == Placed(old(Model()), id) && clock == old(clock)
    {
      PinsAfter(entries, id);
      MembersAfter(a1in, id);
      MembersAfter(a1out, id);
      if id in a1outSet {
        a1outSet := a1outSet - {id};
        a1out := Without(a1out, id);
        PutProtected(id);
      } else {
        TicksLater(amOrder, clock - 1, clock);
        a1in := a1in + [id];
        a1inSet := a1inSet + {id};
      }
      entries := entries[id := false];
    }

    method Access(id: Id) returns (outcome: Outcome)
      requires Wired(clock - 1) && Sound(Model())
      modifies this
      ensures Valid() && clock == old(clock) && Answer(Model(), outcome) == AccessTwoQ(old(Model()), id)
    {
      IndexKeys(amOrder);
      AccessKeeps(Model(), id);
      if id in amIndex {
        Refresh(id);
        return Hit;
      }
      if id in a1inSet {
        Promote(id);
        return Hit;
      }
      ghost var before := Model();
      PlacedKeeps(before, id);
      Place(id);
      outcome := EvictUntilFits(id);
    }

    method EvictUntilFits(id: Id) returns (outcome: Outcome)
      requires Wired(clock) && Loose(Model())
      modifies this
      ensures Wired(clock) && clock == old(clock) && Answer(Model(), outcome) == Settle(old(Model()), id, None)
    {
      ghost var placed := Model();
      var evicted: Option<Id> := None;
      while true
        invariant Wired(clock) && Loose(Model()) && clock == old(clock)
        invariant Settle(Model(), id, evicted) == Settle(placed, id, None)
        decreases |a1in| + |amOrder|
      {
        IndexSize(amOrder);
        var probationary, total := |a1in|, |a1in| + |amIndex|;
        if probationary <= Bound(capacity) && total <= capacity { break; }
        ghost var here := Model();
        EvictKeeps(here, id, probationary > Bound(capacity));
        var victim := EvictOne(id, probationary > Bound(capacity), clock);
        if victim.None? {
          Drop(id, clock);
          return CacheFull;
        }
        evicted := victim;
      }
      return Admitted(evicted);
    }

    method SetPinned(id: Id, pinned: bool)
      requires Wired(clock)
      modifies this`entries
      ensures Wired(clock) && Model() == TwoQ.Apply(old(Model()), if pinned then Pin(id) else Unpin(id)).queues
    {
      IndexKeys(amOrder);
      PinsAfter(entries, id);
      if id in entries {
        assert Pins(entries[id := true]) == Pins(entries) + {id};
        entries := entries[id := pinned];
      } else {
        assert id !in Pins(entries);
      }
    }

    method Apply(e: Event) returns (outcome: Outcome)
      requires Valid() && clock < U64_MAX
      modifies this
      ensures Valid() && clock == old(clock) + 1
      ensures Answer(Model(), outcome) == TwoQ.Apply(old(Model()), e)
    {
      ApplyKeeps(Model(), e);
      IndexKeys(amOrder);
      TicksLater(amOrder, clock, clock + 1);
      clock := Min(clock + 1, U64_MAX);
      match e
      case Pin(id) =>
        SetPinned(id, true);
        outcome := Updated;
      case Unpin(id) =>
        SetPinned(id, false);
        outcome := Updated;
      case Remove(id) =>
        Drop(id, clock);
        outcome := Updated;
      case Access(id) =>
        outcome := Access(id);
    }
  }

  /** PolicyCore::new for 2Q: a zero capacity is refused. */
  method Open(capacity: nat) returns (core: Option<Core>)
    ensures core.Some? <==> capacity > 0
    ensures core.Some? ==>
              fresh(core.value) && core.value.Valid() && core.value.Model() == Queues(capacity, [], [], [], {})
  {
    if capacity == 0 { return None; }
    var opening := new Core(capacity);
    core := Some(opening);
  }
}

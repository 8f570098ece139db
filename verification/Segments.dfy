/**
 Segmented recency lists (crates/mirage-cache/src/segments.rs). First the meaning: four
 sequences of slots, most recent first, plus slots that are known but on no list.
 */
module Segments {
  import opened Basics
  import opened Sequences

  datatype Slot = Slot(index: int)

  datatype Segment = Window | Probationary | Protected | PrefetchedUnused | Detached

  datatype Event = Touch(slot: Slot) | Pin(slot: Slot) | Unpin(slot: Slot)

  /** `order[k]` is the list of segment `k`, head first. */
  datatype Lists = Lists(order: seq<seq<Slot>>, known: set<Slot>)

  function SegmentIndex(segment: Segment): (k: nat)
    requires segment != Detached
    ensures k < 4 && SegmentAt(k) == segment
  {
    match segment
    case Window => 0
    case Probationary => 1
    case Protected => 2
    case PrefetchedUnused => 3
  }

  function SegmentAt(k: nat): Segment
    requires k < 4
  {
    [Window, Probationary, Protected, PrefetchedUnused][k]
  }

  /** Which segment a slot is in; `None` for a slot never inserted. */
  function SegmentOf(m: Lists, slot: Slot): Option<Segment>
    requires |m.order| == 4
  {
    if slot !in m.known then None
    else if slot in m.order[0] then Some(Window)
    else if slot in m.order[1] then Some(Probationary)
    else if slot in m.order[2] then Some(Protected)
    else if slot in m.order[3] then Some(PrefetchedUnused)
    else Some(Detached)
  }

  predicate OffLists(m: Lists, slot: Slot)
    requires |m.order| == 4
  {
    SegmentOf(m, slot) == None || SegmentOf(m, slot) == Some(Detached)
  }

  /** The four lists are duplicate free, disjoint, and hold known slots only. */
  ghost predicate Partition(m: Lists) {
    && |m.order| == 4
    && (forall k :: 0 <= k < 4 ==> Distinct(m.order[k]))
    && (forall k, x :: 0 <= k < 4 && x in m.order[k] ==> SegmentOf(m, x) == Some(SegmentAt(k)))
  }

  function PushHead(m: Lists, slot: Slot, segment: Segment): Lists
    requires |m.order| == 4 && segment != Detached
  {
    var k := SegmentIndex(segment);
    m.(order := m.order[k := [slot] + m.order[k]])
  }

  function Detach(m: Lists, slot: Slot): Lists
    requires |m.order| == 4
  {
    var segment := SegmentOf(m, slot);
    if segment.None? || segment.value == Detached then m
    else
      var k := SegmentIndex(segment.value);
      m.(order := m.order[k := Without(m.order[k], slot)])
  }

  function Insert(m: Lists, slot: Slot, segment: Segment): Result<Lists>
    requires |m.order| == 4
  {
    if segment == Detached || slot in m.known then Err
    else Ok(PushHead(m.(known := m.known + {slot}), slot, segment))
  }

  /** The last protected slot falls back to probation when protected is over its target. */
  function Demote(m: Lists, target: nat): Lists
    requires |m.order| == 4
  {
    var protected := m.order[2];
    if |protected| > target && |protected| > 0 then
      var tail := protected[|protected| - 1];
      PushHead(Detach(m, tail), tail, Probationary)
    else m
  }

  function Apply(m: Lists, target: nat, e: Event): Lists
    requires |m.order| == 4
  {
    var segment := SegmentOf(m, e.slot);
    if segment.None? then m
    else
      match e
      case Pin(slot) => Detach(m, slot)
      case Unpin(slot) => if segment.value == Detached then PushHead(m, slot, Probationary) else m
      case Touch(slot) =>
        match segment.value
        case Detached => m
        case Window => Demote(PushHead(Detach(m, slot), slot, Window), target)
        case _ => Demote(PushHead(Detach(m, slot), slot, Protected), target)
  }

  function Victim(m: Lists): Option<Slot>
    requires |m.order| == 4
  {
    if |m.order[3]| > 0 then Some(m.order[3][|m.order[3]| - 1])
    else if |m.order[1]| > 0 then Some(m.order[1][|m.order[1]| - 1])
    else if |m.order[0]| > 0 then Some(m.order[0][|m.order[0]| - 1])
    else if |m.order[2]| > 0 then Some(m.order[2][|m.order[2]| - 1])
    else None
  }

  // ----- What every step keeps -----

  lemma PushKeeps(m: Lists, slot: Slot, segment: Segment)
    requires Partition(m) && SegmentOf(m, slot) == Some(Detached) && segment != Detached
    ensures Partition(PushHead(m, slot, segment)) && SegmentOf(PushHead(m, slot, segment), slot) == Some(segment)
    ensures forall x :: x != slot ==> SegmentOf(PushHead(m, slot, segment), x) == SegmentOf(m, x)
  {
    var k := SegmentIndex(segment);
    var out := PushHead(m, slot, segment);
    forall j | 0 <= j < 4
      ensures slot !in m.order[j]
    {
    }
    forall x | x != slot
      ensures SegmentOf(out, x) == SegmentOf(m, x)
    {
      assert forall j :: 0 <= j < 4 ==> (x in out.order[j] <==> x in m.order[j]);
    }
  }

  lemma DetachKeeps(m: Lists, slot: Slot)
    requires Partition(m) && slot in m.known
    ensures Partition(Detach(m, slot)) && SegmentOf(Detach(m, slot), slot) == Some(Detached)
    ensures forall x :: x != slot ==> SegmentOf(Detach(m, slot), x) == SegmentOf(m, x)
  {
    var out := Detach(m, slot);
    forall j | 0 <= j < 4
      ensures Distinct(out.order[j]) && slot !in out.order[j]
    {
      WithoutDistinct(m.order[j], slot);
      if slot in m.order[j] { assert SegmentOf(m, slot) == Some(SegmentAt(j)); }
    }
    forall x | x != slot
      ensures SegmentOf(out, x) == SegmentOf(m, x)
    {
      assert forall j :: 0 <= j < 4 ==> (x in out.order[j] <==> x in m.order[j]);
    }
  }

  /** Moving an attached slot to the head of a list. */
  lemma MoveKeeps(m: Lists, slot: Slot, segment: Segment)
    requires Partition(m) && slot in m.known && segment != Detached
    ensures var out := PushHead(Detach(m, slot), slot, segment);
            && Partition(out) && SegmentOf(out, slot) == Some(segment)
            && forall x :: x != slot ==> SegmentOf(out, x) == SegmentOf(m, x)
  {
    DetachKeeps(m, slot);
    PushKeeps(Detach(m, slot), slot, segment);
  }

  lemma DemoteKeeps(m: Lists, target: nat)
    requires Partition(m)
    ensures var out := Demote(m, target);
            && Partition(out) && out.known == m.known
            && forall x :: OffLists(m, x) ==> SegmentOf(out, x) == SegmentOf(m, x)
    ensures |Demote(m, target).order[2]| == if |m.order[2]| > target then |m.order[2]| - 1 else |m.order[2]|
  {
    if |m.order[2]| > target {
      var tail := m.order[2][|m.order[2]| - 1];
      assert tail in m.order[2];
      assert SegmentOf(m, tail) == Some(SegmentAt(2));
      MoveKeeps(m, tail, Probationary);
      WithoutDistinct(m.order[2], tail);
    }
  }

  lemma TouchKeeps(m: Lists, target: nat, slot: Slot)
    requires Partition(m)
    ensures var out := Apply(m, target, Touch(slot));
            && Partition(out) && out.known == m.known
            && forall x :: OffLists(m, x) ==> SegmentOf(out, x) == SegmentOf(m, x)
  {
    if !OffLists(m, slot) {
      var goal := if SegmentOf(m, slot) == Some(Window) then Window else Protected;
      MoveKeeps(m, slot, goal);
      DemoteKeeps(PushHead(Detach(m, slot), slot, goal), target);
    }
  }

  /** A touch never grows protected beyond its old length or the target, whichever is larger. */
  lemma TouchBound(m: Lists, target: nat, slot: Slot)
    requires Partition(m)
    ensures |Apply(m, target, Touch(slot)).order[2]| <= Max(|m.order[2]|, target)
  {
    if !OffLists(m, slot) {
      var goal := if SegmentOf(m, slot) == Some(Window) then Window else Protected;
      MoveKeeps(m, slot, goal);
      DemoteKeeps(PushHead(Detach(m, slot), slot, goal), target);
      WithoutDistinct(m.order[2], slot);
    }
  }

  /** Every event keeps the partition; a slot on no list stays off unless unpinned. */
  lemma ApplyKeeps(m: Lists, target: nat, e: Event)
    requires Partition(m)
    ensures var out := Apply(m, target, e);
            && Partition(out) && out.known == m.known
            && forall x :: SegmentOf(m, x) == Some(Detached) && e != Unpin(x) ==> SegmentOf(out, x) == Some(Detached)
  {
    match e
    case Touch(slot) => TouchKeeps(m, target, slot);
    case Pin(slot) => if slot in m.known { DetachKeeps(m, slot); }
    case Unpin(slot) => if SegmentOf(m, slot) == Some(Detached) { PushKeeps(m, slot, Probationary); }
  }

  lemma InsertKeeps(m: Lists, slot: Slot, segment: Segment)
    requires Partition(m) && Insert(m, slot, segment).Ok?
    ensures var out := Insert(m, slot, segment).value;
            && Partition(out) && out.known == m.known + {slot} && SegmentOf(out, slot) == Some(segment)
            && forall x :: x != slot ==> SegmentOf(out, x) == SegmentOf(m, x)
  {
    var wider := m.(known := m.known + {slot});
    forall x | x != slot
      ensures SegmentOf(wider, x) == SegmentOf(m, x)
    {
    }
    assert SegmentOf(wider, slot) == Some(Detached) by {
      forall j | 0 <= j < 4
        ensures slot !in m.order[j]
      {
        assert SegmentOf(m, slot) == None;
      }
    }
    PushKeeps(wider, slot, segment);
  }

  // ----- Runs -----

  datatype Op = Add(slot: Slot, segment: Segment) | Tell(event: Event)

  function Step(m: Lists, target: nat, op: Op): Lists
    requires |m.order| == 4
  {
    match op
    case Add(slot, segment) => if Insert(m, slot, segment).Ok? then Insert(m, slot, segment).value else m
    case Tell(event) => Apply(m, target, event)
  }

  lemma StepKeeps(m: Lists, target: nat, op: Op)
    requires Partition(m)
    ensures Partition(Step(m, target, op))
    ensures forall x :: SegmentOf(m, x) == Some(Detached) && op != Tell(Unpin(x)) ==>
              SegmentOf(Step(m, target, op), x) == Some(Detached)
  {
    match op
    case Add(slot, segment) => if Insert(m, slot, segment).Ok? { InsertKeeps(m, slot, segment); }
    case Tell(event) => ApplyKeeps(m, target, event);
  }

  ghost function Run(m: Lists, target: nat, ops: seq<Op>): Lists
    requires Partition(m)
    ensures Partition(Run(m, target, ops))
    decreases |ops|
  {
    if |ops| == 0 then m
    else
      StepKeeps(m, target, ops[0]);
      Run(Step(m, target, ops[0]), target, ops[1..])
  }

  lemma VictimIsAttached(m: Lists)
    requires Partition(m)
    ensures Victim(m).Some? ==> SegmentOf(m, Victim(m).value) != Some(Detached) && Victim(m).value in m.known
    ensures Victim(m).None? <==> forall x :: OffLists(m, x)
  {
    forall k | 0 <= k < 4 && |m.order[k]| > 0
      ensures SegmentOf(m, m.order[k][|m.order[k]| - 1]) == Some(SegmentAt(k))
    {
      assert m.order[k][|m.order[k]| - 1] in m.order[k];
    }
    if Victim(m).Some? { assert !OffLists(m, Victim(m).value); }
  }

  /** A known slot that is pinned is no victim in any later state until it is unpinned. */
  lemma {:induction false} PinnedIsNoVictim(m: Lists, target: nat, ops: seq<Op>, slot: Slot)
    requires Partition(m) && SegmentOf(m, slot) == Some(Detached)
    requires forall i :: 0 <= i < |ops| ==> ops[i] != Tell(Unpin(slot))
    ensures SegmentOf(Run(m, target, ops), slot) == Some(Detached) && Victim(Run(m, target, ops)) != Some(slot)
    decreases |ops|
  {
    if |ops| == 0 {
      VictimIsAttached(m);
    } else {
      StepKeeps(m, target, ops[0]);
      PinnedIsNoVictim(Step(m, target, ops[0]), target, ops[1..], slot);
    }
  }

  /** Pinning a slot that was never inserted is forgotten: inserting it later puts it on a list. */
  lemma EarlyPinIsForgotten(m: Lists, target: nat, slot: Slot, segment: Segment)
    requires Partition(m) && slot !in m.known && segment != Detached
    ensures SegmentOf(Run(m, target, [Tell(Pin(slot)), Add(slot, segment)]), slot) == Some(segment)
  {
    var ops := [Tell(Pin(slot)), Add(slot, segment)];
    assert Step(m, target, ops[0]) == m;
    assert ops[1..] == [ops[1]] && [ops[1]][1..] == [];
    InsertKeeps(m, slot, segment);
    var out := Step(m, target, ops[1]);
    assert Run(out, target, []) == out;
    assert Run(m, target, [ops[1]]) == Run(out, target, [ops[1]][1..]);
  }

  predicate NeverUnpins(ops: seq<Op>, slot: Slot) {
    forall i :: 0 <= i < |ops| ==> ops[i] != Tell(Unpin(slot))
  }

  /** The slot is on no list after a pin and then `ops`, and so no victim. */
  ghost predicate KeptOff(m: Lists, target: nat, slot: Slot, ops: seq<Op>)
    requires Partition(m)
  {
    var out := Run(m, target, [Tell(Pin(slot))] + ops);
    OffLists(out, slot) && Victim(out) != Some(slot)
  }

  lemma LatePinProtects(m: Lists, target: nat, slot: Slot, ops: seq<Op>)
    requires Partition(m) && slot in m.known && NeverUnpins(ops, slot)
    ensures KeptOff(m, target, slot, ops)
  {
    var all := [Tell(Pin(slot))] + ops;
    assert all[1..] == ops;
    StepKeeps(m, target, all[0]);
    DetachKeeps(m, slot);
    PinnedIsNoVictim(Step(m, target, all[0]), target, ops, slot);
  }

  /**
   A pin keeps its slot off the lists, in every later run that does not unpin it, exactly if
   the slot was known when the pin came: the guard `apply` begins with.
   */
  lemma PinProtectsExactlyWhen(m: Lists, target: nat, slot: Slot)
    requires Partition(m)
    ensures slot in m.known <==> forall ops :: NeverUnpins(ops, slot) ==> KeptOff(m, target, slot, ops)
  {
    if slot in m.known {
      forall ops | NeverUnpins(ops, slot)
        ensures KeptOff(m, target, slot, ops)
      {
        LatePinProtects(m, target, slot, ops);
      }
    } else {
      var ops := [Add(slot, Window)];
      EarlyPinIsForgotten(m, target, slot, Window);
      assert [Tell(Pin(slot))] + ops == [Tell(Pin(slot)), Add(slot, Window)];
      assert NeverUnpins(ops, slot) && !KeptOff(m, target, slot, ops);
    }
  }
}

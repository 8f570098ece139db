/**
 The 2Q replacement policy (crates/mirage-cache/src/policy_core.rs): a probationary FIFO, a
 protected LRU and a bounded ghost history. Queues are sequences, oldest first; pinned ids
 are never evicted.
 */
module TwoQ {
  import opened Basics
  import opened Sequences

  datatype Id = Id(value: int)

  datatype Queues = Queues(capacity: nat, a1in: seq<Id>, a1out: seq<Id>, am: seq<Id>, pinned: set<Id>)

  datatype Outcome = Hit | Admitted(evicted: Option<Id>) | Updated | CacheFull

  datatype Event = Access(id: Id) | Pin(id: Id) | Unpin(id: Id) | Remove(id: Id)

  datatype Answer = Answer(queues: Queues, outcome: Outcome)

  // ----- Sequences -----

  predicate Disjoint(s: seq<Id>, t: seq<Id>) {
    forall x :: x in s ==> x !in t
  }

  /** The pinned ids of `s`, in order. */
  function Kept(s: seq<Id>, pinned: set<Id>): (r: seq<Id>)
    ensures |r| <= |s| && forall y :: y in r <==> y in s && y in pinned
  {
    if |s| == 0 then [] else if s[0] in pinned then [s[0]] + Kept(s[1..], pinned) else Kept(s[1..], pinned)
  }

  /** The oldest id of `s` that may be evicted. */
  function First(s: seq<Id>, exclude: Id, pinned: set<Id>): (r: Option<nat>)
    ensures r.Some? ==> r.value < |s| && s[r.value] != exclude && s[r.value] !in pinned
    ensures r.Some? ==> forall i :: 0 <= i < r.value ==> s[i] == exclude || s[i] in pinned
    ensures r.None? ==> forall y :: y in s ==> y == exclude || y in pinned
  {
    if |s| == 0 then None
    else if s[0] != exclude && s[0] !in pinned then Some(0)
    else
      var rest := First(s[1..], exclude, pinned);
      if rest.Some? then Some(rest.value + 1) else None
  }

  // ----- The policy -----

  function Bound(capacity: nat): nat {
    Max(capacity / 4, 1)
  }

  function Trim(s: seq<Id>, bound: nat): seq<Id> {
    if |s| > bound then s[|s| - bound..] else s
  }

  function PushGhost(q: Queues, id: Id): seq<Id> {
    Trim(q.a1out + [id], q.capacity)
  }

  function EvictProbationary(q: Queues, k: nat): Queues
    requires k < |q.a1in|
  {
    q.(a1in := RemoveAt(q.a1in, k), a1out := PushGhost(q, q.a1in[k]))
  }

  function EvictProtected(q: Queues, k: nat): Queues
    requires k < |q.am|
  {
    q.(am := RemoveAt(q.am, k))
  }

  /** The evicted id and what is left, or nothing evictable. */
  function EvictOne(q: Queues, exclude: Id, preferProbationary: bool): Option<(Queues, Id)> {
    var cold := First(q.a1in, exclude, q.pinned);
    var warm := First(q.am, exclude, q.pinned);
    if preferProbationary && cold.Some? then Some((EvictProbationary(q, cold.value), q.a1in[cold.value]))
    else if warm.Some? then Some((EvictProtected(q, warm.value), q.am[warm.value]))
    else if cold.Some? then Some((EvictProbationary(q, cold.value), q.a1in[cold.value]))
    else None
  }

  function DropId(q: Queues, id: Id): Queues {
    q.(a1in := Without(q.a1in, id), a1out := Without(q.a1out, id), am := Without(q.am, id), pinned := q.pinned - {id})
  }

  predicate Fits(q: Queues) {
    |q.a1in| <= Bound(q.capacity) && |q.a1in| + |q.am| <= q.capacity
  }

  /** The eviction loop of an admission. */
  function Settle(q: Queues, id: Id, evicted: Option<Id>): Answer
    decreases |q.a1in| + |q.am|
  {
    if Fits(q) then Answer(q, Admitted(evicted))
    else
      var step := EvictOne(q, id, |q.a1in| > Bound(q.capacity));
      if step.None? then Answer(DropId(q, id), CacheFull)
      else Settle(step.value.0, id, Some(step.value.1))
  }

  function Placed(q: Queues, id: Id): Queues {
    (if id in q.a1out then q.(a1out := Without(q.a1out, id), am := q.am + [id]) else q.(a1in := q.a1in + [id]))
      .(pinned := q.pinned - {id})
  }

  function AccessTwoQ(q: Queues, id: Id): Answer {
    if id in q.am then Answer(q.(am := Without(q.am, id) + [id]), Hit)
    else if id in q.a1in then Answer(q.(a1in := Without(q.a1in, id), am := q.am + [id]), Hit)
    else Settle(Placed(q, id), id, None)
  }

  function Apply(q: Queues, e: Event): Answer {
    match e
    case Access(id) => AccessTwoQ(q, id)
    case Pin(id) => Answer(if id in q.a1in || id in q.am then q.(pinned := q.pinned + {id}) else q, Updated)
    case Unpin(id) => Answer(q.(pinned := q.pinned - {id}), Updated)
    case Remove(id) => Answer(DropId(q, id), Updated)
  }

  function Run(q: Queues, events: seq<Event>): Queues
    decreases |events|
  {
    if |events| == 0 then q else Run(Apply(q, events[0]).queues, events[1..])
  }

  // ----- Structure -----

  predicate Resident(q: Queues, id: Id) {
    id in q.a1in || id in q.am
  }

  predicate Sound(q: Queues) {
    && q.capacity > 0 && Fits(q)
    && Distinct(q.a1in) && Distinct(q.am) && Distinct(q.a1out)
    && Disjoint(q.a1in, q.am) && Disjoint(q.a1in, q.a1out) && Disjoint(q.am, q.a1out)
    && |q.a1out| <= q.capacity
    && forall id :: id in q.pinned ==> Resident(q, id)
  }

  // ----- Sequence lemmas -----

  lemma {:induction false} FirstAppend(s: seq<Id>, x: Id, pinned: set<Id>)
    ensures First(s + [x], x, pinned) == First(s, x, pinned)
  {
    if |s| > 0 {
      assert (s + [x])[1..] == s[1..] + [x];
      FirstAppend(s[1..], x, pinned);
    } else {
      assert First([x], x, pinned) == None;
    }
  }

  lemma {:induction false} KeptAll(s: seq<Id>, pinned: set<Id>)
    requires forall y :: y in s ==> y in pinned
    ensures Kept(s, pinned) == s
  {
    if |s| > 0 {
      assert s[0] in s;
      KeptAll(s[1..], pinned);
    }
  }

  lemma {:induction false} KeptSkips(s: seq<Id>, k: nat, pinned: set<Id>)
    requires k < |s| && s[k] !in pinned
    ensures Kept(RemoveAt(s, k), pinned) == Kept(s, pinned)
  {
    if k == 0 {
      assert RemoveAt(s, 0) == s[1..];
    } else {
      assert RemoveAt(s, k)[1..] == RemoveAt(s[1..], k - 1);
      KeptSkips(s[1..], k - 1, pinned);
    }
  }

  lemma {:induction false} KeptDistinct(s: seq<Id>, pinned: set<Id>)
    requires Distinct(s)
    ensures Distinct(Kept(s, pinned))
  {
    if |s| > 0 {
      KeptDistinct(s[1..], pinned);
      assert s[0] !in s[1..];
    }
  }

  // ----- What an admission amounts to -----

  /** The eviction loop in one look: at most one victim, or a refusal. */
  function Admit(q: Queues, id: Id): Answer {
    var cold, warm := First(q.a1in, id, q.pinned), First(q.am, id, q.pinned);
    var ghosted := id in q.a1out;
    if !ghosted && |q.a1in| >= Bound(q.capacity) then
      if cold.Some? then
        Answer(q.(a1in := RemoveAt(q.a1in, cold.value) + [id], a1out := PushGhost(q, q.a1in[cold.value])),
               Admitted(Some(q.a1in[cold.value])))
      else
        Answer(q.(am := Kept(q.am, q.pinned)), CacheFull)
    else if |q.a1in| + |q.am| < q.capacity then Answer(Placed(q, id), Admitted(None))
    else if warm.Some? then Answer(Placed(EvictProtected(q, warm.value), id), Admitted(Some(q.am[warm.value])))
    else if cold.Some? then
      var p := Placed(q, id);
      Answer(p.(a1in := RemoveAt(p.a1in, cold.value), a1out := PushGhost(p, q.a1in[cold.value])),
             Admitted(Some(q.a1in[cold.value])))
    else Answer(q.(a1out := Without(q.a1out, id)), CacheFull)
  }

  /** With probation over its bound and nothing there to evict, the loop empties protected of every unpinned id. */
  lemma {:induction false} DrainsProtected(q: Queues, id: Id, evicted: Option<Id>)
    requires |q.a1in| > Bound(q.capacity) && First(q.a1in, id, q.pinned).None? && id !in q.am
    ensures Settle(q, id, evicted) == Answer(DropId(q.(am := Kept(q.am, q.pinned)), id), CacheFull)
    decreases |q.am|
  {
    var warm := First(q.am, id, q.pinned);
    if warm.Some? {
      KeptSkips(q.am, warm.value, q.pinned);
      DrainsProtected(EvictProtected(q, warm.value), id, Some(q.am[warm.value]));
    } else {
      KeptAll(q.am, q.pinned);
    }
  }

  lemma OneEviction(q: Queues, id: Id)
    requires !Fits(q) && EvictOne(q, id, |q.a1in| > Bound(q.capacity)).Some?
    requires Fits(EvictOne(q, id, |q.a1in| > Bound(q.capacity)).value.0)
    ensures var step := EvictOne(q, id, |q.a1in| > Bound(q.capacity)).value;
            Settle(q, id, None) == Answer(step.0, Admitted(Some(step.1)))
  {
  }

  /** A cold id while probation is at its bound. */
  lemma CrowdedAdmission(q: Queues, id: Id)
    requires Sound(q) && !Resident(q, id) && id !in q.a1out && |q.a1in| >= Bound(q.capacity)
    ensures AccessTwoQ(q, id) == Admit(q, id)
  {
    var p := Placed(q, id);
    assert p == q.(a1in := q.a1in + [id]) by { assert q.pinned - {id} == q.pinned; }
    FirstAppend(q.a1in, id, q.pinned);
    var cold := First(q.a1in, id, q.pinned);
    if cold.Some? {
      assert RemoveAt(p.a1in, cold.value) == RemoveAt(q.a1in, cold.value) + [id];
      OneEviction(p, id);
    } else {
      DrainsProtected(p, id, None);
      WithoutLast(q.a1in, id);
      assert DropId(p.(am := Kept(q.am, q.pinned)), id) == q.(am := Kept(q.am, q.pinned));
    }
  }

  lemma RoomyAdmission(q: Queues, id: Id)
    requires Sound(q) && !Resident(q, id) && id !in q.a1out && |q.a1in| < Bound(q.capacity)
    ensures AccessTwoQ(q, id) == Admit(q, id)
  {
    var p := Placed(q, id);
    assert p == q.(a1in := q.a1in + [id]) by { assert q.pinned - {id} == q.pinned; }
    FirstAppend(q.a1in, id, q.pinned);
    if !Fits(p) {
      if First(q.am, id, q.pinned).Some? || First(q.a1in, id, q.pinned).Some? {
        OneEviction(p, id);
      } else {
        WithoutLast(q.a1in, id);
        assert DropId(p, id) == q;
      }
    }
  }

  lemma GhostAdmission(q: Queues, id: Id)
    requires Sound(q) && !Resident(q, id) && id in q.a1out
    ensures AccessTwoQ(q, id) == Admit(q, id)
  {
    var p := Placed(q, id);
    assert p == q.(a1out := Without(q.a1out, id), am := q.am + [id]) by { assert q.pinned - {id} == q.pinned; }
    FirstAppend(q.am, id, q.pinned);
    var warm := First(q.am, id, q.pinned);
    if !Fits(p) {
      if warm.Some? {
        assert RemoveAt(p.am, warm.value) == RemoveAt(q.am, warm.value) + [id];
        OneEviction(p, id);
      } else if First(q.a1in, id, q.pinned).Some? {
        OneEviction(p, id);
      } else {
        WithoutLast(q.am, id);
        assert DropId(p, id) == q.(a1out := Without(q.a1out, id));
      }
    }
  }

  lemma AdmissionIsOneLook(q: Queues, id: Id)
    requires Sound(q) && !Resident(q, id)
    ensures AccessTwoQ(q, id) == Admit(q, id)
  {
    if id in q.a1out {
      GhostAdmission(q, id);
    } else if |q.a1in| < Bound(q.capacity) {
      RoomyAdmission(q, id);
    } else {
      CrowdedAdmission(q, id);
    }
  }

  // ----- Structure is kept -----

  lemma PushGhostOk(q: Queues, id: Id)
    requires q.capacity > 0 && Distinct(q.a1out) && id !in q.a1out
    ensures Distinct(PushGhost(q, id)) && |PushGhost(q, id)| <= q.capacity && id in PushGhost(q, id)
    ensures forall y :: y in PushGhost(q, id) ==> y in q.a1out || y == id
  {
    var all := q.a1out + [id];
    AppendDistinct(q.a1out, id);
    assert PushGhost(q, id) == all[|all| - |PushGhost(q, id)|..];
    assert PushGhost(q, id)[|PushGhost(q, id)| - 1] == id;
  }

  lemma EvictProbationaryKeeps(q: Queues, k: nat)
    requires k < |q.a1in| && q.a1in[k] !in q.pinned && Loose(q)
    ensures Loose(EvictProbationary(q, k)) && |EvictProbationary(q, k).a1in| == |q.a1in| - 1
    ensures forall y :: y in EvictProbationary(q, k).a1in <==> y in q.a1in && y != q.a1in[k]
  {
    RemoveAtDistinct(q.a1in, k);
    assert q.a1in[k] in q.a1in;
    PushGhostOk(q, q.a1in[k]);
  }

  lemma EvictProtectedKeeps(q: Queues, k: nat)
    requires k < |q.am| && q.am[k] !in q.pinned && Loose(q)
    ensures Loose(EvictProtected(q, k)) && |EvictProtected(q, k).am| == |q.am| - 1
    ensures forall y :: y in EvictProtected(q, k).am <==> y in q.am && y != q.am[k]
  {
    RemoveAtDistinct(q.am, k);
  }

  /** Everything `Sound` asks but the bounds on probation and total. */
  predicate Loose(q: Queues) {
    && q.capacity > 0
    && Distinct(q.a1in) && Distinct(q.am) && Distinct(q.a1out)
    && Disjoint(q.a1in, q.am) && Disjoint(q.a1in, q.a1out) && Disjoint(q.am, q.a1out)
    && |q.a1out| <= q.capacity
    && forall id :: id in q.pinned ==> Resident(q, id)
  }

  lemma PlacedKeeps(q: Queues, id: Id)
    requires Loose(q) && !Resident(q, id)
    ensures Loose(Placed(q, id)) && forall y :: Resident(Placed(q, id), y) <==> Resident(q, y) || y == id
    ensures Placed(q, id).pinned == q.pinned
  {
    WithoutDistinct(q.a1out, id);
    AppendDistinct(q.am, id);
    AppendDistinct(q.a1in, id);
  }

  lemma DropKeeps(q: Queues, id: Id)
    requires Loose(q)
    ensures Loose(DropId(q, id)) && forall y :: Resident(DropId(q, id), y) <==> Resident(q, y) && y != id
    ensures |DropId(q, id).a1in| <= |q.a1in| && |DropId(q, id).am| <= |q.am|
  {
    WithoutDistinct(q.a1in, id);
    WithoutDistinct(q.a1out, id);
    WithoutDistinct(q.am, id);
  }

  lemma HitKeeps(q: Queues, id: Id)
    requires Sound(q) && Resident(q, id)
    ensures Sound(AccessTwoQ(q, id).queues) && AccessTwoQ(q, id).outcome == Hit
    ensures forall y :: Resident(AccessTwoQ(q, id).queues, y) <==> Resident(q, y)
    ensures AccessTwoQ(q, id).queues.a1out == q.a1out && AccessTwoQ(q, id).queues.pinned == q.pinned
    ensures id in AccessTwoQ(q, id).queues.am
  {
    WithoutDistinct(q.am, id);
    WithoutDistinct(q.a1in, id);
    AppendDistinct(Without(q.am, id), id);
    if id !in q.am { AppendDistinct(q.am, id); }
  }

  /** What the caller may rely on after an admission, admitted or refused. */
  ghost predicate Reported(q: Queues, id: Id, a: Answer) {
    match a.outcome
    case Hit => Resident(q, id) && forall y :: Resident(a.queues, y) <==> Resident(q, y)
    case Admitted(None) => !Resident(q, id) && forall y :: Resident(a.queues, y) <==> Resident(q, y) || y == id
    case Admitted(Some(victim)) =>
      && !Resident(q, id) && Resident(q, victim) && victim !in q.pinned
      && forall y :: Resident(a.queues, y) <==> (Resident(q, y) && y != victim) || y == id
    case CacheFull =>
      && !Resident(q, id) && !Resident(a.queues, id)
      && (forall y :: Resident(a.queues, y) ==> Resident(q, y))
      && forall y :: y in q.pinned ==> Resident(a.queues, y)
    case Updated => false
  }

  lemma CrowdedKeeps(q: Queues, id: Id)
    requires Sound(q) && !Resident(q, id) && id !in q.a1out && |q.a1in| >= Bound(q.capacity)
    ensures Sound(Admit(q, id).queues) && Admit(q, id).queues.pinned == q.pinned && Reported(q, id, Admit(q, id))
  {
    var cold := First(q.a1in, id, q.pinned);
    if cold.Some? {
      var k := cold.value;
      EvictProbationaryKeeps(q, k);
      AppendDistinct(RemoveAt(q.a1in, k), id);
      PushGhostOk(q, q.a1in[k]);
      assert q.a1in[k] in q.a1in;
    } else {
      KeptDistinct(q.am, q.pinned);
    }
  }

  lemma EvictThenPlace(q: Queues, id: Id)
    requires Sound(q) && !Resident(q, id) && (id in q.a1out || |q.a1in| < Bound(q.capacity))
    requires |q.a1in| + |q.am| >= q.capacity
    ensures Sound(Admit(q, id).queues) && Admit(q, id).queues.pinned == q.pinned && Reported(q, id, Admit(q, id))
  {
    var cold, warm := First(q.a1in, id, q.pinned), First(q.am, id, q.pinned);
    if warm.Some? {
      EvictProtectedKeeps(q, warm.value);
      assert q.am[warm.value] in q.am;
      PlacedKeeps(EvictProtected(q, warm.value), id);
    } else if cold.Some? {
      var p := Placed(q, id);
      PlacedKeeps(q, id);
      assert p.a1in[cold.value] == q.a1in[cold.value] && q.a1in[cold.value] in q.a1in;
      EvictProbationaryKeeps(p, cold.value);
    } else {
      WithoutDistinct(q.a1out, id);
    }
  }

  /** Every access keeps the structure and reports exactly what it did to residency. */
  lemma AccessKeeps(q: Queues, id: Id)
    requires Sound(q)
    ensures Sound(AccessTwoQ(q, id).queues) && AccessTwoQ(q, id).queues.pinned == q.pinned
    ensures Reported(q, id, AccessTwoQ(q, id))
    ensures AccessTwoQ(q, id).queues.capacity == q.capacity
  {
    if Resident(q, id) {
      HitKeeps(q, id);
    } else {
      AdmissionIsOneLook(q, id);
      if id !in q.a1out && |q.a1in| >= Bound(q.capacity) {
        CrowdedKeeps(q, id);
      } else if |q.a1in| + |q.am| < q.capacity {
        PlacedKeeps(q, id);
      } else {
        EvictThenPlace(q, id);
      }
    }
  }

  lemma ApplyKeeps(q: Queues, e: Event)
    requires Sound(q)
    ensures Sound(Apply(q, e).queues) && Apply(q, e).queues.capacity == q.capacity
  {
    match e
    case Access(id) => AccessKeeps(q, id);
    case Remove(id) => DropKeeps(q, id);
    case _ =>
  }

  /** In every reachable state the queues are duplicate free, pairwise disjoint and within their bounds. */
  lemma {:induction false} RunKeeps(q: Queues, events: seq<Event>)
    requires Sound(q)
    ensures Sound(Run(q, events))
    decreases |events|
  {
    if |events| != 0 {
      ApplyKeeps(q, events[0]);
      RunKeeps(Apply(q, events[0]).queues, events[1..]);
    }
  }

  // ----- Refusals -----

  /** Probation at its bound and pinned throughout: the guard that makes a cold access drain protected. */
  predicate ProbationStuck(q: Queues) {
    |q.a1in| >= Bound(q.capacity) && forall y :: y in q.a1in ==> y in q.pinned
  }

  predicate AllPinned(q: Queues) {
    |q.a1in| + |q.am| >= q.capacity && forall y :: y in q.a1in + q.am ==> y in q.pinned
  }

  /** Exactly when an admission is refused, and what the refusal costs. */
  lemma RefusedExactlyWhen(q: Queues, id: Id)
    requires Sound(q) && !Resident(q, id)
    ensures AccessTwoQ(q, id).outcome == CacheFull <==> AllPinned(q) || (id !in q.a1out && ProbationStuck(q))
    ensures AccessTwoQ(q, id).outcome == CacheFull ==>
              AccessTwoQ(q, id).queues == q.(a1out := Without(q.a1out, id), am := Kept(q.am, q.pinned))
  {
    AdmissionIsOneLook(q, id);
    if AllPinned(q) { KeptAll(q.am, q.pinned); }
    var cold, warm := First(q.a1in, id, q.pinned), First(q.am, id, q.pinned);
    if cold.Some? { assert q.a1in[cold.value] in q.a1in; }
    if warm.Some? { assert q.am[warm.value] in q.am; }
    if cold.None? && warm.None? { KeptAll(q.am, q.pinned); }
  }

  /** A refusal leaves the queues alone exactly if the id was not remembered and every protected id is pinned. */
  lemma RefusalIsHarmlessExactlyWhen(q: Queues, id: Id)
    requires Sound(q) && AccessTwoQ(q, id).outcome == CacheFull
    ensures AccessTwoQ(q, id).queues == q <==> id !in q.a1out && forall y :: y in q.am ==> y in q.pinned
  {
    if Resident(q, id) { HitKeeps(q, id); }
    RefusedExactlyWhen(q, id);
    var after := AccessTwoQ(q, id).queues;
    if after == q {
      assert after.am == Kept(q.am, q.pinned) && after.a1out == Without(q.a1out, id);
    } else if forall y :: y in q.am ==> y in q.pinned {
      KeptAll(q.am, q.pinned);
    }
  }

  function Fresh(capacity: nat): Queues {
    Queues(capacity, [], [], [], {})
  }

  /** A run follows the states its events lead through. */
  lemma {:induction false} RunFollows(q: Queues, events: seq<Event>, states: seq<Queues>)
    requires |states| == |events| + 1 && states[0] == q
    requires forall i :: 0 <= i < |events| ==> Apply(states[i], events[i]).queues == states[i + 1]
    ensures Run(q, events) == states[|events|]
    decreases |events|
  {
    if |events| != 0 { RunFollows(states[1], events[1..], states[1..]); }
  }

  /** A cold id with room in probation and in all goes to the end of probation. */
  lemma ColdAccess(q: Queues, id: Id)
    requires !Resident(q, id) && id !in q.a1out && id !in q.pinned
    requires |q.a1in| < Bound(q.capacity) && |q.a1in| + |q.am| < q.capacity
    ensures Apply(q, Access(id)).queues == q.(a1in := q.a1in + [id])
  {
    assert q.pinned - {id} == q.pinned;
  }

  lemma EarlyStates()
    ensures Apply(Fresh(8), Access(Id(1))).queues == Queues(8, [Id(1)], [], [], {})
    ensures Apply(Queues(8, [Id(1)], [], [], {}), Access(Id(1))).queues == Queues(8, [], [], [Id(1)], {})
  {
    ColdAccess(Fresh(8), Id(1));
    assert Without([Id(1)], Id(1)) == Without([Id(1)][1..], Id(1));
  }

  lemma LaterStates()
    ensures Apply(Queues(8, [], [], [Id(1)], {}), Access(Id(2))).queues == Queues(8, [Id(2)], [], [Id(1)], {})
    ensures Apply(Queues(8, [Id(2)], [], [Id(1)], {}), Access(Id(3))).queues
            == Queues(8, [Id(2), Id(3)], [], [Id(1)], {})
  {
    ColdAccess(Queues(8, [], [], [Id(1)], {}), Id(2));
    ColdAccess(Queues(8, [Id(2)], [], [Id(1)], {}), Id(3));
  }

  lemma PinnedStates()
    ensures Apply(Queues(8, [Id(2), Id(3)], [], [Id(1)], {}), Pin(Id(2))).queues
            == Queues(8, [Id(2), Id(3)], [], [Id(1)], {Id(2)})
    ensures Apply(Queues(8, [Id(2), Id(3)], [], [Id(1)], {Id(2)}), Pin(Id(3))).queues
            == Queues(8, [Id(2), Id(3)], [], [Id(1)], {Id(2), Id(3)})
  {
  }

  const CROWDING: seq<Event> := [Access(Id(1)), Access(Id(1)), Access(Id(2)), Access(Id(3)), Pin(Id(2)), Pin(Id(3))]

  lemma CrowdedQueues()
    ensures Run(Fresh(8), CROWDING) == Queues(8, [Id(2), Id(3)], [], [Id(1)], {Id(2), Id(3)})
  {
    EarlyStates();
    LaterStates();
    PinnedStates();
    RunFollows(Fresh(8), CROWDING,
               [Fresh(8), Queues(8, [Id(1)], [], [], {}), Queues(8, [], [], [Id(1)], {}),
                Queues(8, [Id(2)], [], [Id(1)], {}), Queues(8, [Id(2), Id(3)], [], [Id(1)], {}),
                Queues(8, [Id(2), Id(3)], [], [Id(1)], {Id(2)}),
                    Queues(8, [Id(2), Id(3)], [], [Id(1)], {Id(2), Id(3)})]);
  }

  /**
   A reachable refusal that is no no-op: two pinned ids fill the probation of a cache of
   eight; accessing a fourth id is refused, and the protected first one is gone.
   */
  lemma RefusalLosesProtected()
    ensures var q := Run(Fresh(8), CROWDING);
            && Sound(Fresh(8)) && Resident(q, Id(1))
            && AccessTwoQ(q, Id(4)).outcome == CacheFull && !Resident(AccessTwoQ(q, Id(4)).queues, Id(1))
  {
    var q := Run(Fresh(8), CROWDING);
    CrowdedQueues();
    RunKeeps(Fresh(8), CROWDING);
    RefusedExactlyWhen(q, Id(4));
    assert ProbationStuck(q);
    assert Id(1) !in Kept(q.am, q.pinned);
  }

  // ----- Scan resistance -----

  /** Every access of the scan is to an id that is neither resident nor remembered at its turn. */
  predicate ColdScan(q: Queues, ids: seq<Id>)
    decreases |ids|
  {
    |ids| > 0 ==> !Resident(q, ids[0]) && ids[0] !in q.a1out && ColdScan(AccessTwoQ(q, ids[0]).queues, ids[1..])
  }

  function Scan(q: Queues, ids: seq<Id>): Queues
    decreases |ids|
  {
    if |ids| == 0 then q else Scan(AccessTwoQ(q, ids[0]).queues, ids[1..])
  }

  lemma ScanStep(q: Queues, id: Id)
    requires Sound(q) && !Resident(q, id) && id !in q.a1out && !ProbationStuck(q)
    ensures var r := AccessTwoQ(q, id).queues;
            && !ProbationStuck(r) && r.capacity == q.capacity
            && (forall y :: y in r.am ==> y in q.am)
            && |r.am| >= Min(|q.am|, q.capacity - Bound(q.capacity))
  {
    AccessKeeps(q, id);
    AdmissionIsOneLook(q, id);
    var r := AccessTwoQ(q, id).queues;
    var cold, warm := First(q.a1in, id, q.pinned), First(q.am, id, q.pinned);
    if r.a1in != q.a1in { assert id in r.a1in && id !in q.pinned; }
    if cold.Some? { assert q.a1in[cold.value] in q.a1in; }
    if warm.Some? { RemoveAtDistinct(q.am, warm.value); }
  }

  /** However long a cold scan is, protected keeps all it held, up to what fits beside probation. */
  lemma {:induction false} ScanResistance(q: Queues, ids: seq<Id>)
    requires Sound(q) && !ProbationStuck(q) && ColdScan(q, ids)
    ensures forall y :: y in Scan(q, ids).am ==> y in q.am
    ensures |Scan(q, ids).am| >= Min(|q.am|, q.capacity - Bound(q.capacity))
    ensures |q.am| - |Scan(q, ids).am| <= Max(0, |q.am| + Bound(q.capacity) - q.capacity)
    decreases |ids|
  {
    if |ids| != 0 {
      AccessKeeps(q, ids[0]);
      ScanStep(q, ids[0]);
      ScanResistance(AccessTwoQ(q, ids[0]).queues, ids[1..]);
    }
  }

  /** A protected set that fits beside probation survives a cold scan whole. */
  lemma ScanLosesNothing(q: Queues, ids: seq<Id>)
    requires Sound(q) && !ProbationStuck(q) && ColdScan(q, ids) && |q.am| + Bound(q.capacity) <= q.capacity
    ensures forall y :: y in Scan(q, ids).am <==> y in q.am
  {
    ScanResistance(q, ids);
    ScanIsSound(q, ids);
    SubsetOfSameSize(Scan(q, ids).am, q.am);
  }

  lemma {:induction false} ScanIsSound(q: Queues, ids: seq<Id>)
    requires Sound(q)
    ensures Sound(Scan(q, ids))
    decreases |ids|
  {
    if |ids| != 0 {
      AccessKeeps(q, ids[0]);
      ScanIsSound(AccessTwoQ(q, ids[0]).queues, ids[1..]);
    }
  }

  lemma {:induction false} SubsetOfSameSize(s: seq<Id>, t: seq<Id>)
    requires Distinct(s) && Distinct(t) && |s| >= |t| && forall y :: y in s ==> y in t
    ensures forall y :: y in s <==> y in t
    decreases |s|
  {
    if |s| > 0 {
      var x := s[0];
      WithoutDistinct(s, x);
      WithoutDistinct(t, x);
      SubsetOfSameSize(Without(s, x), Without(t, x));
      forall y | y in t
        ensures y in s
      {
        if y != x { assert y in Without(t, x); }
      }
    }
  }
}

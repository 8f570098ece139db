/**
 The space-lease planner (crates/mirage-cache/src/space_lease.rs): which resident units to
 reclaim so that a local-space promise can be kept. Sums are 64-bit and checked.
 */
module SpaceLease {
  import opened Basics
  import opened Sequences

  datatype Id = Id(value: nat)

  datatype Candidate = Candidate(id: Id, bytes: nat, lastAccess: nat, verified: bool, dirty: bool, pinned: bool,
                                 activeReads: nat, mounted: bool)

  datatype Snapshot = Snapshot(free: nat, reserve: nat, outstanding: nat, candidates: seq<Candidate>)

  datatype Blocked = Blocked(unique: nat, unverified: nat, dirty: nat, pinned: nat, activeRead: nat, mounted: nat)

  datatype Plan = Plan(requested: nat, immediate: nat, required: nat, totalReclaimable: nat, selectedBytes: nat,
                       availableAfter: nat, shortfall: nat, selected: seq<Candidate>, blocked: Blocked)

  predicate Reclaimable(c: Candidate) {
    c.bytes != 0 && c.verified && !c.dirty && !c.pinned && c.activeReads == 0 && !c.mounted
  }

  function SaturatingSub(a: nat, b: nat): nat {
    if a < b then 0 else a - b
  }

  function Immediate(s: Snapshot): nat {
    SaturatingSub(SaturatingSub(s.free, s.reserve), s.outstanding)
  }

  predicate Grantable(p: Plan) {
    p.shortfall == 0 && p.availableAfter >= p.requested
  }

  // ----- Sums -----

  datatype Kind = Everything | Reclaim | AnyBlock | Unverified | Dirty | Pinned | ActiveRead | Mounted

  /** The bytes a candidate adds to a counter. */
  function Weight(c: Candidate, kind: Kind): nat {
    match kind
    case Everything => c.bytes
    case Reclaim => if Reclaimable(c) then c.bytes else 0
    case AnyBlock => if Reclaimable(c) then 0 else c.bytes
    case Unverified => if c.verified then 0 else c.bytes
    case Dirty => if c.dirty then c.bytes else 0
    case Pinned => if c.pinned then c.bytes else 0
    case ActiveRead => if c.activeReads != 0 then c.bytes else 0
    case Mounted => if c.mounted then c.bytes else 0
  }

  function Total(cs: seq<Candidate>, kind: Kind): nat {
    if |cs| == 0 then 0 else Total(cs[..|cs| - 1], kind) + Weight(cs[|cs| - 1], kind)
  }

  lemma {:induction false} TotalConcat(a: seq<Candidate>, b: seq<Candidate>, kind: Kind)
    ensures Total(a + b, kind) == Total(a, kind) + Total(b, kind)
    decreases |b|
  {
    if |b| == 0 {
      assert a + b == a;
    } else {
      assert (a + b)[..|a + b| - 1] == a + b[..|b| - 1];
      TotalConcat(a, b[..|b| - 1], kind);
    }
  }

  lemma TotalNext(cs: seq<Candidate>, n: nat, kind: Kind)
    requires n < |cs|
    ensures Total(cs[..n + 1], kind) == Total(cs[..n], kind) + Weight(cs[n], kind) <= Total(cs, kind)
  {
    assert cs[..n + 1][..n] == cs[..n];
    assert cs == cs[..n + 1] + cs[n + 1..];
    TotalConcat(cs[..n + 1], cs[n + 1..], kind);
  }

  lemma {:induction false} TotalWithin(cs: seq<Candidate>, a: Kind, b: Kind)
    requires forall i :: 0 <= i < |cs| ==> Weight(cs[i], a) <= Weight(cs[i], b)
    ensures Total(cs, a) <= Total(cs, b)
  {
    if |cs| > 0 {
      assert Weight(cs[|cs| - 1], a) <= Weight(cs[|cs| - 1], b);
      TotalWithin(cs[..|cs| - 1], a, b);
    }
  }

  /** Every byte is either reclaimable or blocked, once. */
  lemma {:induction false} BytesAreAccounted(cs: seq<Candidate>)
    ensures Total(cs, Reclaim) + Total(cs, AnyBlock) == Total(cs, Everything)
  {
    if |cs| > 0 { BytesAreAccounted(cs[..|cs| - 1]); }
  }

  lemma DropTotal(cs: seq<Candidate>, k: nat, kind: Kind)
    requires k < |cs|
    ensures Total(cs, kind) == Total(RemoveAt(cs, k), kind) + Weight(cs[k], kind)
  {
    TotalNext(cs, k, kind);
    assert cs == cs[..k + 1] + cs[k + 1..];
    TotalConcat(cs[..k + 1], cs[k + 1..], kind);
    TotalConcat(cs[..k], cs[k + 1..], kind);
  }

  lemma {:induction false} TotalPermutes(a: seq<Candidate>, b: seq<Candidate>, kind: Kind)
    requires multiset(a) == multiset(b)
    ensures Total(a, kind) == Total(b, kind)
    decreases |a|
  {
    if |a| == 0 {
      assert |b| == |multiset(b)| == 0;
    } else {
      var k := Match(a, |a| - 1, b);
      assert RemoveAt(a, |a| - 1) == a[..|a| - 1];
      DropTotal(b, k, kind);
      TotalPermutes(a[..|a| - 1], RemoveAt(b, k), kind);
    }
  }

  // ----- Order -----

  /** Least recently accessed first, then largest, then by identity. */
  predicate Before(a: Candidate, b: Candidate) {
    || a.lastAccess < b.lastAccess
    || (a.lastAccess == b.lastAccess && a.bytes > b.bytes)
    || (a.lastAccess == b.lastAccess && a.bytes == b.bytes && a.id.value <= b.id.value)
  }

  predicate Sorted(cs: seq<Candidate>) {
    forall i, j :: 0 <= i < j < |cs| ==> Before(cs[i], cs[j])
  }

  predicate DistinctIds(cs: seq<Candidate>) {
    forall i, j :: 0 <= i < j < |cs| ==> cs[i].id != cs[j].id
  }

  function Filter(cs: seq<Candidate>): seq<Candidate> {
    if |cs| == 0 then []
    else
      var front := Filter(cs[..|cs| - 1]);
      if Reclaimable(cs[|cs| - 1]) then front + [cs[|cs| - 1]] else front
  }

  function InsertInOrder(c: Candidate, cs: seq<Candidate>): seq<Candidate> {
    if |cs| == 0 || Before(c, cs[0]) then [c] + cs else [cs[0]] + InsertInOrder(c, cs[1..])
  }

  function Sort(cs: seq<Candidate>): seq<Candidate> {
    if |cs| == 0 then [] else InsertInOrder(cs[0], Sort(cs[1..]))
  }

  lemma {:induction false} InsertContents(c: Candidate, cs: seq<Candidate>)
    ensures multiset(InsertInOrder(c, cs)) == multiset(cs) + multiset{c}
  {
    if |cs| > 0 && !Before(c, cs[0]) {
      InsertContents(c, cs[1..]);
      assert cs == [cs[0]] + cs[1..];
    }
  }

  lemma {:induction false} InsertSorted(c: Candidate, cs: seq<Candidate>)
    requires Sorted(cs)
    ensures Sorted(InsertInOrder(c, cs))
    ensures forall k :: 0 <= k < |InsertInOrder(c, cs)| ==>
              InsertInOrder(c, cs)[k] == c || InsertInOrder(c, cs)[k] in cs
  {
    if |cs| > 0 && !Before(c, cs[0]) {
      InsertSorted(c, cs[1..]);
    }
  }

  lemma {:induction false} SortSorts(cs: seq<Candidate>)
    ensures Sorted(Sort(cs)) && multiset(Sort(cs)) == multiset(cs)
  {
    if |cs| > 0 {
      SortSorts(cs[1..]);
      InsertSorted(cs[0], Sort(cs[1..]));
      InsertContents(cs[0], Sort(cs[1..]));
      assert cs == [cs[0]] + cs[1..];
    }
  }

  lemma {:induction false} FilterCounts(cs: seq<Candidate>, c: Candidate)
    ensures multiset(Filter(cs))[c] == if Reclaimable(c) then multiset(cs)[c] else 0
  {
    if |cs| > 0 {
      FilterCounts(cs[..|cs| - 1], c);
      assert cs == cs[..|cs| - 1] + [cs[|cs| - 1]];
    }
  }

  lemma FilterPermutes(a: seq<Candidate>, b: seq<Candidate>)
    requires multiset(a) == multiset(b)
    ensures multiset(Filter(a)) == multiset(Filter(b))
  {
    forall c
      ensures multiset(Filter(a))[c] == multiset(Filter(b))[c]
    {
      FilterCounts(a, c);
      FilterCounts(b, c);
    }
  }

  lemma {:induction false} FilterTotal(cs: seq<Candidate>)
    ensures Total(Filter(cs), Everything) == Total(cs, Reclaim)
  {
    if |cs| > 0 {
      var front := Filter(cs[..|cs| - 1]);
      FilterTotal(cs[..|cs| - 1]);
      TotalConcat(front, [cs[|cs| - 1]], Everything);
      assert [cs[|cs| - 1]][..0] == [];
    }
  }

  /** Every id occurs in one candidate only. */
  predicate UniqueIds(cs: seq<Candidate>) {
    forall c, d :: c in cs && d in cs && c.id == d.id ==> c == d
  }

  lemma SortedUniqueHead(a: seq<Candidate>, b: seq<Candidate>)
    requires Sorted(a) && Sorted(b) && multiset(a) == multiset(b) && UniqueIds(a) && |a| > 0
    ensures |b| > 0 && a[0] == b[0]
  {
    assert a[0] in multiset(a);
    var k := Find(b, a[0]);
    assert b[0] in multiset(b);
    var j := Find(a, b[0]);
    assert Before(b[0], a[0]) && Before(a[0], b[0]);
    assert a[0] in a && a[j] in a;
  }

  /** A strict order leaves one way to sort. */
  lemma {:induction false} SortedUnique(a: seq<Candidate>, b: seq<Candidate>)
    requires Sorted(a) && Sorted(b) && multiset(a) == multiset(b) && UniqueIds(a)
    ensures a == b
    decreases |a|
  {
    if |a| == 0 {
      assert |b| == |multiset(b)| == 0;
    } else {
      SortedUniqueHead(a, b);
      RemoveAtMultiset(a, 0);
      RemoveAtMultiset(b, 0);
      assert RemoveAt(a, 0) == a[1..] && RemoveAt(b, 0) == b[1..];
      SortedUnique(a[1..], b[1..]);
    }
  }

  // ----- The plan -----

  /** How many of the sorted candidates cover the need: the fewest that do, or all. */
  function Shortest(cs: seq<Candidate>, need: nat, n: nat): (m: nat)
    requires n <= |cs|
    ensures n <= m <= |cs|
    ensures m < |cs| ==> Total(cs[..m], Everything) >= need
    ensures forall k :: n <= k < m ==> Total(cs[..k], Everything) < need
    decreases |cs| - n
  {
    if n == |cs| || Total(cs[..n], Everything) >= need then n else Shortest(cs, need, n + 1)
  }

  function BlockedOf(cs: seq<Candidate>): Blocked {
    Blocked(Total(cs, AnyBlock), Total(cs, Unverified), Total(cs, Dirty), Total(cs, Pinned), Total(cs, ActiveRead),
            Total(cs, Mounted))
  }

  /** What the snapshot itself can be refused for. */
  predicate Malformed(s: Snapshot, requested: nat) {
    requested == 0 || !DistinctIds(s.candidates) || Total(s.candidates, AnyBlock) > U64_MAX
  }

  /** The plan for sorted reclaimable candidates, with no order of evaluation in it. */
  function Decided(immediate: nat, requested: nat, order: seq<Candidate>, blocked: Blocked): Result<Plan> {
    var total := Total(order, Everything);
    var required := SaturatingSub(requested, immediate);
    var selected := order[..Shortest(order, required, 0)];
    if immediate + total > U64_MAX then Err
    else
      Ok(Plan(requested, immediate, required, total, Total(selected, Everything),
              immediate + Total(selected, Everything),
              SaturatingSub(requested, immediate + total), selected, blocked))
  }

  function PlanFor(s: Snapshot, requested: nat): Result<Plan> {
    if Malformed(s, requested) then Err
    else Decided(Immediate(s), requested, Sort(Filter(s.candidates)), BlockedOf(s.candidates))
  }

  lemma OrderTotal(cs: seq<Candidate>)
    ensures Total(Sort(Filter(cs)), Everything) == Total(cs, Reclaim)
  {
    SortSorts(Filter(cs));
    TotalPermutes(Sort(Filter(cs)), Filter(cs), Everything);
    FilterTotal(cs);
  }

  /** Planning fails exactly on an empty request, a repeated id, or sums that leave 64 bits. */
  lemma RefusedExactlyWhen(s: Snapshot, requested: nat)
    ensures PlanFor(s, requested) == Err <==>
            requested == 0 || !DistinctIds(s.candidates) || Total(s.candidates, AnyBlock) > U64_MAX
            || Immediate(s) + Total(s.candidates, Reclaim) > U64_MAX
  {
    OrderTotal(s.candidates);
  }

  lemma DistinctIsUnique(cs: seq<Candidate>)
    requires DistinctIds(cs)
    ensures UniqueIds(cs)
  {
  }

  lemma PutBack(b: seq<Candidate>, k: nat)
    requires k < |b| && DistinctIds(RemoveAt(b, k)) && forall c :: c in RemoveAt(b, k) ==> c.id != b[k].id
    ensures DistinctIds(b)
  {
    var rest := RemoveAt(b, k);
    forall i, j | 0 <= i < j < |b|
      ensures b[i].id != b[j].id
    {
      if i != k { assert b[i] == rest[if i < k then i else i - 1]; }
      if j != k { assert b[j] == rest[if j < k then j else j - 1]; }
    }
  }

  /** A rearrangement of distinct ids has distinct ids. */
  lemma {:induction false} DistinctPermutes(a: seq<Candidate>, b: seq<Candidate>)
    requires multiset(a) == multiset(b) && DistinctIds(a)
    ensures DistinctIds(b)
    decreases |a|
  {
    if |a| == 0 {
      assert |b| == |multiset(b)| == 0;
    } else {
      var front := a[..|a| - 1];
      var k := Match(a, |a| - 1, b);
      assert RemoveAt(a, |a| - 1) == a[..|a| - 1];
      DistinctPermutes(front, RemoveAt(b, k));
      forall c | c in RemoveAt(b, k)
        ensures c.id != b[k].id
      {
        assert c in multiset(RemoveAt(b, k));
        var j := Find(front, c);
      }
      PutBack(b, k);
    }
  }

  /** Success or failure, and the whole plan, do not depend on the order of the candidates. */
  lemma PlanPermutes(s: Snapshot, other: seq<Candidate>, requested: nat)
    requires multiset(s.candidates) == multiset(other)
    ensures PlanFor(s, requested) == PlanFor(s.(candidates := other), requested)
  {
    var cs := s.candidates;
    if DistinctIds(cs) { DistinctPermutes(cs, other); }
    if DistinctIds(other) { DistinctPermutes(other, cs); }
    TotalsPermute(cs, other);
    if DistinctIds(cs) { OrderPermutes(cs, other); }
  }

  lemma TotalsPermute(a: seq<Candidate>, b: seq<Candidate>)
    requires multiset(a) == multiset(b)
    ensures BlockedOf(a) == BlockedOf(b) && Total(a, Reclaim) == Total(b, Reclaim)
  {
    TotalPermutes(a, b, AnyBlock);
    TotalPermutes(a, b, Unverified);
    TotalPermutes(a, b, Dirty);
    TotalPermutes(a, b, Pinned);
    TotalPermutes(a, b, ActiveRead);
    TotalPermutes(a, b, Mounted);
    TotalPermutes(a, b, Reclaim);
  }

  lemma OrderPermutes(a: seq<Candidate>, b: seq<Candidate>)
    requires multiset(a) == multiset(b) && DistinctIds(a)
    ensures Sort(Filter(a)) == Sort(Filter(b))
  {
    FilterPermutes(a, b);
    SortSorts(Filter(a));
    SortSorts(Filter(b));
    forall c | c in Sort(Filter(a))
      ensures c in a
    {
      assert c in multiset(Sort(Filter(a)));
      FilterCounts(a, c);
      assert c in multiset(a);
    }
    DistinctIsUnique(a);
    SortedUnique(Sort(Filter(a)), Sort(Filter(b)));
  }

  /** The selection is the shortest prefix of the sorted order that covers the need, or all of it. */
  lemma SelectionIsShortest(s: Snapshot, requested: nat)
    requires PlanFor(s, requested).Ok?
    ensures var p := PlanFor(s, requested).value;
            var order := Sort(Filter(s.candidates));
            && Sorted(order) && multiset(order) == multiset(Filter(s.candidates)) && p.selected <= order
            && (Total(p.selected, Everything) >= p.required || p.selected == order)
            && (forall k :: 0 <= k < |p.selected| ==> Total(order[..k], Everything) < p.required)
  {
    SortSorts(Filter(s.candidates));
  }

  lemma PrefixTotal(cs: seq<Candidate>, n: nat)
    requires n <= |cs|
    ensures Total(cs[..n], Everything) <= Total(cs, Everything)
  {
    assert cs == cs[..n] + cs[n..];
    TotalConcat(cs[..n], cs[n..], Everything);
  }

  /** Reclaimable and uniquely blocked bytes are all bytes; no later sum overflows. */
  lemma PlanAddsUp(s: Snapshot, requested: nat)
    requires PlanFor(s, requested).Ok?
    ensures var p := PlanFor(s, requested).value;
            && p.totalReclaimable == Total(s.candidates, Reclaim)
            && p.totalReclaimable + p.blocked.unique == Total(s.candidates, Everything)
            && p.selectedBytes <= p.totalReclaimable && p.availableAfter <= U64_MAX
  {
    OrderTotal(s.candidates);
    BytesAreAccounted(s.candidates);
    PrefixTotal(Sort(Filter(s.candidates)), |PlanFor(s, requested).value.selected|);
  }

  /** A plan can be granted exactly when the request fits what is free plus all that may be reclaimed. */
  lemma GrantedExactlyWhen(s: Snapshot, requested: nat)
    requires PlanFor(s, requested).Ok?
    ensures var p := PlanFor(s, requested).value;
            Grantable(p) <==> requested <= Immediate(s) + Total(s.candidates, Reclaim)
  {
    var p := PlanFor(s, requested).value;
    var order := Sort(Filter(s.candidates));
    SelectionIsShortest(s, requested);
    OrderTotal(s.candidates);
    PrefixTotal(order, |p.selected|);
  }

  /** Selected candidates are among those given, and every one of them may be reclaimed. */
  lemma SelectedAreReclaimable(s: Snapshot, requested: nat, c: Candidate)
    requires PlanFor(s, requested).Ok? && c in PlanFor(s, requested).value.selected
    ensures c in s.candidates && Reclaimable(c)
  {
    var order := Sort(Filter(s.candidates));
    SortSorts(Filter(s.candidates));
    assert c in order;
    assert c in multiset(order);
    FilterCounts(s.candidates, c);
    assert c in multiset(s.candidates);
  }

  // ----- The planner -----

  function CheckedAdd(a: nat, b: nat): Option<nat> {
    if a + b > U64_MAX then None else Some(a + b)
  }

  /** Adds one blocked candidate to the counters that name why it is blocked. */
  method Charge(blocked: Blocked, c: Candidate) returns (out: Option<Blocked>)
    requires blocked.unverified <= blocked.unique && blocked.dirty <= blocked.unique && blocked.pinned <= blocked.unique
    requires blocked.activeRead <= blocked.unique && blocked.mounted <= blocked.unique
    ensures out.None? <==> blocked.unique + c.bytes > U64_MAX
    ensures out.Some? ==> out.value == Blocked(blocked.unique + c.bytes, blocked.unverified + Weight(c, Unverified),
                                               blocked.dirty + Weight(c, Dirty), blocked.pinned + Weight(c, Pinned),
                                               blocked.activeRead + Weight(c, ActiveRead),
                                                   blocked.mounted + Weight(c, Mounted))
  {
    var b := blocked;
    var sum := CheckedAdd(b.unique, c.bytes);
    if sum.None? { return None; }
    b := b.(unique := sum.value);
    if !c.verified {
      sum := CheckedAdd(b.unverified, c.bytes);
      if sum.None? { return None; }
      b := b.(unverified := sum.value);
    }
    if c.dirty {
      sum := CheckedAdd(b.dirty, c.bytes);
      if sum.None? { return None; }
      b := b.(dirty := sum.value);
    }
    if c.pinned {
      sum := CheckedAdd(b.pinned, c.bytes);
      if sum.None? { return None; }
      b := b.(pinned := sum.value);
    }
    if c.activeReads != 0 {
      sum := CheckedAdd(b.activeRead, c.bytes);
      if sum.None? { return None; }
      b := b.(activeRead := sum.value);
    }
    if c.mounted {
      sum := CheckedAdd(b.mounted, c.bytes);
      if sum.None? { return None; }
      b := b.(mounted := sum.value);
    }
    return Some(b);
  }

  /** Every reason counter stays within the unique one. */
  lemma ReasonsWithinUnique(cs: seq<Candidate>)
    ensures var b := BlockedOf(cs);
            b.unverified <= b.unique && b.dirty <= b.unique && b.pinned <= b.unique && b.activeRead <= b.unique
                && b.mounted <= b.unique
  {
    TotalWithin(cs, Unverified, AnyBlock);
    TotalWithin(cs, Dirty, AnyBlock);
    TotalWithin(cs, Pinned, AnyBlock);
    TotalWithin(cs, ActiveRead, AnyBlock);
    TotalWithin(cs, Mounted, AnyBlock);
  }

  lemma BlockedNext(cs: seq<Candidate>, n: nat)
    requires n < |cs|
    ensures var a, b, c := BlockedOf(cs[..n]), BlockedOf(cs[..n + 1]), cs[n];
            && b == Blocked(a.unique + Weight(c, AnyBlock), a.unverified + Weight(c, Unverified),
                            a.dirty + Weight(c, Dirty),
                            a.pinned + Weight(c, Pinned), a.activeRead + Weight(c, ActiveRead),
                                a.mounted + Weight(c, Mounted))
            && b.unique <= Total(cs, AnyBlock)
  {
    TotalNext(cs, n, AnyBlock);
    TotalNext(cs, n, Unverified);
    TotalNext(cs, n, Dirty);
    TotalNext(cs, n, Pinned);
    TotalNext(cs, n, ActiveRead);
    TotalNext(cs, n, Mounted);
  }

  predicate HasId(cs: seq<Candidate>, id: Id) {
    exists i :: 0 <= i < |cs| && cs[i].id == id
  }

  /** The scan over the candidates: duplicates and overflows refused, the rest sorted into two heaps. */
  method Classify(cs: seq<Candidate>) returns (result: Option<(seq<Candidate>, Blocked)>)
    ensures result.None? <==> !DistinctIds(cs) || Total(cs, AnyBlock) > U64_MAX
    ensures result.Some? ==> result.value == (Filter(cs), BlockedOf(cs))
  {
    var seen: set<Id> := {};
    var reclaimable: seq<Candidate> := [];
    var blocked := Blocked(0, 0, 0, 0, 0, 0);
    for n := 0 to |cs|
      invariant DistinctIds(cs[..n]) && forall id :: id in seen <==> HasId(cs[..n], id)
      invariant reclaimable == Filter(cs[..n]) && blocked == BlockedOf(cs[..n]) && blocked.unique <= U64_MAX
    {
      var c := cs[n];
      if c.id in seen {
        RepeatedId(cs, n);
        return None;
      }
      SeenNext(cs, n);
      BlockedNext(cs, n);
      seen := seen + {c.id};
      assert cs[..n + 1][..n] == cs[..n];
      if Reclaimable(c) {
        reclaimable := reclaimable + [c];
      } else if c.bytes != 0 {
        ReasonsWithinUnique(cs[..n]);
        var charged := Charge(blocked, c);
        if charged.None? { return None; }
        blocked := charged.value;
      }
    }
    assert cs[..|cs|] == cs;
    result := Some((reclaimable, blocked));
  }

  lemma RepeatedId(cs: seq<Candidate>, n: nat)
    requires n < |cs| && HasId(cs[..n], cs[n].id)
    ensures !DistinctIds(cs)
  {
    var i :| 0 <= i < n && cs[..n][i].id == cs[n].id;
    assert cs[i].id == cs[n].id;
  }

  lemma SeenNext(cs: seq<Candidate>, n: nat)
    requires n < |cs| && DistinctIds(cs[..n]) && !HasId(cs[..n], cs[n].id)
    ensures DistinctIds(cs[..n + 1])
    ensures forall id :: HasId(cs[..n + 1], id) <==> HasId(cs[..n], id) || id == cs[n].id
  {
    assert cs[..n + 1] == cs[..n] + [cs[n]];
    forall id
      ensures HasId(cs[..n + 1], id) <==> HasId(cs[..n], id) || id == cs[n].id
    {
      if HasId(cs[..n], id) {
        var i :| 0 <= i < n && cs[..n][i].id == id;
        assert cs[..n + 1][i].id == id;
      }
      assert cs[..n + 1][n] == cs[n];
    }
  }

  method SumChecked(cs: seq<Candidate>) returns (total: Option<nat>)
    ensures total == if Total(cs, Everything) > U64_MAX then None else Some(Total(cs, Everything))
  {
    var sum := 0;
    for n := 0 to |cs|
      invariant sum == Total(cs[..n], Everything) <= U64_MAX
    {
      TotalNext(cs, n, Everything);
      var next := CheckedAdd(sum, cs[n].bytes);
      if next.None? { return None; }
      sum := next.value;
    }
    assert cs[..|cs|] == cs;
    total := Some(sum);
  }

  /** Takes candidates until the need is covered. */
  method SelectPrefix(order: seq<Candidate>, need: nat) returns (selected: seq<Candidate>, bytes: nat)
    requires Total(order, Everything) <= U64_MAX
    ensures selected == order[..Shortest(order, need, 0)] && bytes == Total(selected, Everything)
  {
    selected, bytes := [], 0;
    if need == 0 { return; }
    var n := 0;
    while n < |order|
      invariant n <= |order| && selected == order[..n] && bytes == Total(selected, Everything)
      invariant Shortest(order, need, 0) == Shortest(order, need, n) && bytes < need
    {
      TotalNext(order, n, Everything);
      var sum := CheckedAdd(bytes, order[n].bytes);
      bytes := sum.value;
      selected := selected + [order[n]];
      n := n + 1;
      if bytes >= need { return; }
    }
  }

  /** The second half of the planner, once the candidates are classified and sorted. */
  method Decide(immediate: nat, requested: nat, order: seq<Candidate>, blocked: Blocked) returns (plan: Result<Plan>)
    ensures plan == Decided(immediate, requested, order, blocked)
  {
    var required := SaturatingSub(requested, immediate);
    var total := SumChecked(order);
    if total.None? { return Err; }
    var maximum := CheckedAdd(immediate, total.value);
    if maximum.None? { return Err; }
    var selected, bytes := SelectPrefix(order, required);
    PrefixTotal(order, Shortest(order, required, 0));
    var after := CheckedAdd(immediate, bytes);
    plan := Ok(Plan(requested, immediate, required, total.value, bytes, after.value,
                    SaturatingSub(requested, maximum.value), selected, blocked));
  }

  method PlanSpaceLease(s: Snapshot, requested: nat) returns (plan: Result<Plan>)
    ensures plan == PlanFor(s, requested)
  {
    if requested == 0 { return Err; }
    var classified := Classify(s.candidates);
    if classified.None? { return Err; }
    plan := Decide(Immediate(s), requested, Sort(classified.value.0), classified.value.1);
  }
}

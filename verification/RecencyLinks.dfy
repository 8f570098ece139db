/**
 The intrusive doubly linked lists of crates/mirage-cache/src/segments.rs, proved to behave
 as the sequences of Segments, and the `verify` walk that recognises well-formed links.
 */
module RecencyLinks {
  import opened Basics
  import opened Sequences
  import opened Segments

  datatype Node = Node(segment: Segment, prev: Option<Slot>, next: Option<Slot>)

  datatype List = List(head: Option<Slot>, tail: Option<Slot>, len: nat)

  type Nodes = map<Slot, Node>

  /** The node the `i`-th slot of a list must have. */
  function Expected(segment: Segment, s: seq<Slot>, i: nat): Node
    requires i < |s|
  {
    Node(segment, if i == 0 then None else Some(s[i - 1]), if i + 1 == |s| then None else Some(s[i + 1]))
  }

  function Ends(s: seq<Slot>): List {
    if |s| == 0 then List(None, None, 0) else List(Some(s[0]), Some(s[|s| - 1]), |s|)
  }

  /** The links spell out `s`. */
  ghost predicate Chain(nodes: Nodes, segment: Segment, s: seq<Slot>) {
    && Distinct(s)
    && forall i {:trigger Expected(segment, s, i)} :: 0 <= i < |s| ==>
        s[i] in nodes && nodes[s[i]] == Expected(segment, s, i)
  }

  /** Nodes and list ends are the linked form of the four sequences; a detached node's links are free. */
  ghost predicate Represents(nodes: Nodes, lists: seq<List>, order: seq<seq<Slot>>) {
    && |lists| == 4 && |order| == 4
    && (forall k :: 0 <= k < 4 ==> Chain(nodes, SegmentAt(k), order[k]) && lists[k] == Ends(order[k]))
    && forall x :: x in nodes && nodes[x].segment != Detached ==> x in order[SegmentIndex(nodes[x].segment)]
  }

  // ----- One list -----

  /** Nodes outside a list can change freely. */
  lemma ChainFrame(nodes: Nodes, after: Nodes, segment: Segment, s: seq<Slot>)
    requires Chain(nodes, segment, s)
    requires forall x :: x in s ==> x in after && (x in nodes ==> after[x] == nodes[x])
    ensures Chain(after, segment, s)
  {
    forall i | 0 <= i < |s|
      ensures s[i] in after && after[s[i]] == Expected(segment, s, i)
    {
      Look(nodes, segment, s, i);
      assert s[i] in s;
    }
  }

  lemma Look(nodes: Nodes, segment: Segment, s: seq<Slot>, i: nat)
    requires Chain(nodes, segment, s) && i < |s|
    ensures s[i] in nodes && nodes[s[i]] == Expected(segment, s, i)
  {
    var expected := Expected(segment, s, i);
  }

  lemma ChainAt(nodes: Nodes, segment: Segment, s: seq<Slot>, x: Slot) returns (i: nat)
    requires Chain(nodes, segment, s) && x in s
    ensures i < |s| && s[i] == x && x in nodes && nodes[x] == Expected(segment, s, i)
  {
    i :| i < |s| && s[i] == x;
    Look(nodes, segment, s, i);
  }

  function Linked(nodes: Nodes, slot: Slot, segment: Segment, head: Option<Slot>): Nodes
    requires head.Some? ==> head.value in nodes
  {
    var placed := nodes[slot := Node(segment, None, head)];
    if head.Some? then placed[head.value := placed[head.value].(prev := Some(slot))] else placed
  }

  lemma LinkChain(nodes: Nodes, segment: Segment, s: seq<Slot>, slot: Slot)
    requires Chain(nodes, segment, s) && slot !in s
    ensures Ends(s).head.Some? ==> Ends(s).head.value in nodes
    ensures Chain(Linked(nodes, slot, segment, Ends(s).head), segment, [slot] + s)
  {
    if |s| > 0 { Look(nodes, segment, s, 0); }
    var out, t := Linked(nodes, slot, segment, Ends(s).head), [slot] + s;
    forall i | 0 <= i < |t|
      ensures t[i] in out && out[t[i]] == Expected(segment, t, i)
    {
      if i > 0 {
        Look(nodes, segment, s, i - 1);
        assert s[i - 1] in s;
      }
    }
  }

  function Unlinked(nodes: Nodes, slot: Slot): Nodes
    requires slot in nodes
    requires nodes[slot].prev.Some? ==> nodes[slot].prev.value in nodes
    requires nodes[slot].next.Some? ==> nodes[slot].next.value in nodes
  {
    var node := nodes[slot];
    var a := if node.prev.Some? then nodes[node.prev.value := nodes[node.prev.value].(next := node.next)] else nodes;
    var b := if node.next.Some? then a[node.next.value := a[node.next.value].(prev := node.prev)] else a;
    b[slot := Node(Detached, None, None)]
  }

  lemma NeighboursAreNodes(nodes: Nodes, segment: Segment, s: seq<Slot>, k: nat)
    requires Chain(nodes, segment, s) && k < |s|
    ensures s[k] in nodes && nodes[s[k]] == Expected(segment, s, k)
    ensures k > 0 ==> s[k - 1] in nodes && nodes[s[k - 1]] == Expected(segment, s, k - 1)
    ensures k + 1 < |s| ==> s[k + 1] in nodes && nodes[s[k + 1]] == Expected(segment, s, k + 1)
  {
    Look(nodes, segment, s, k);
    if k > 0 { Look(nodes, segment, s, k - 1); }
    if k + 1 < |s| { Look(nodes, segment, s, k + 1); }
  }

  lemma UnlinkChain(nodes: Nodes, segment: Segment, s: seq<Slot>, k: nat)
    requires Chain(nodes, segment, s) && k < |s|
    requires s[k] in nodes
    requires nodes[s[k]].prev.Some? ==> nodes[s[k]].prev.value in nodes
    requires nodes[s[k]].next.Some? ==> nodes[s[k]].next.value in nodes
    ensures Chain(Unlinked(nodes, s[k]), segment, RemoveAt(s, k))
  {
    NeighboursAreNodes(nodes, segment, s, k);
    var out, t := Unlinked(nodes, s[k]), RemoveAt(s, k);
    forall i | 0 <= i < |t|
      ensures t[i] in out && out[t[i]] == Expected(segment, t, i)
    {
      var j := if i < k then i else i + 1;
      assert t[i] == s[j];
      Look(nodes, segment, s, j);
    }
  }

  // ----- Four lists -----

  /** A node's segment names the one list it is on. */
  lemma SegmentTells(nodes: Nodes, lists: seq<List>, order: seq<seq<Slot>>, x: Slot, k: nat)
    requires Represents(nodes, lists, order) && k < 4
    ensures x in order[k] <==> x in nodes && nodes[x].segment == SegmentAt(k)
  {
    if x in order[k] {
      var i := ChainAt(nodes, SegmentAt(k), order[k], x);
    }
  }

  lemma ModelTells(nodes: Nodes, lists: seq<List>, order: seq<seq<Slot>>, x: Slot)
    requires Represents(nodes, lists, order)
    ensures SegmentOf(Lists(order, nodes.Keys), x) == if x in nodes then Some(nodes[x].segment) else None
  {
    SegmentTells(nodes, lists, order, x, 0);
    SegmentTells(nodes, lists, order, x, 1);
    SegmentTells(nodes, lists, order, x, 2);
    SegmentTells(nodes, lists, order, x, 3);
  }

  lemma IsPartition(nodes: Nodes, lists: seq<List>, order: seq<seq<Slot>>)
    requires Represents(nodes, lists, order)
    ensures Partition(Lists(order, nodes.Keys))
  {
    forall k, x | 0 <= k < 4 && x in order[k]
      ensures SegmentOf(Lists(order, nodes.Keys), x) == Some(SegmentAt(k))
    {
      SegmentTells(nodes, lists, order, x, k);
      ModelTells(nodes, lists, order, x);
    }
    forall k | 0 <= k < 4
      ensures Distinct(order[k])
    {
      assert Chain(nodes, SegmentAt(k), order[k]);
    }
  }

  function Pushed(list: List, slot: Slot): List {
    List(Some(slot), if list.head.Some? then list.tail else Some(slot), list.len + 1)
  }

  lemma LinkOther(nodes: Nodes, lists: seq<List>, order: seq<seq<Slot>>, slot: Slot, k: nat, j: nat)
    requires Represents(nodes, lists, order) && slot in nodes && nodes[slot].segment == Detached && k < 4 && j < 4
             && j != k
    requires lists[k].head.Some? ==> lists[k].head.value in order[k] && lists[k].head.value in nodes
    ensures Chain(Linked(nodes, slot, SegmentAt(k), lists[k].head), SegmentAt(j), order[j])
  {
    var after := Linked(nodes, slot, SegmentAt(k), lists[k].head);
    forall x | x in order[j]
      ensures x in after && after[x] == nodes[x]
    {
      SegmentTells(nodes, lists, order, x, j);
      SegmentTells(nodes, lists, order, x, k);
    }
    ChainFrame(nodes, after, SegmentAt(j), order[j]);
  }

  lemma HeadIsMember(nodes: Nodes, lists: seq<List>, order: seq<seq<Slot>>, k: nat)
    requires Represents(nodes, lists, order) && k < 4
    ensures lists[k].head.Some? ==> lists[k].head.value in order[k] && lists[k].head.value in nodes
    ensures lists[k].tail.Some? ==> lists[k].tail.value in order[k] && lists[k].tail.value in nodes
    ensures lists[k].head.Some? == lists[k].tail.Some? == (|order[k]| > 0)
  {
    assert lists[k] == Ends(order[k]);
    if |order[k]| > 0 {
      assert order[k][0] in order[k] && order[k][|order[k]| - 1] in order[k];
      SegmentTells(nodes, lists, order, order[k][0], k);
      SegmentTells(nodes, lists, order, order[k][|order[k]| - 1], k);
    }
  }

  /** Linking a detached slot at the head of list `k` is pushing it on sequence `k`. */
  lemma LinkRepresents(nodes: Nodes, lists: seq<List>, order: seq<seq<Slot>>, slot: Slot, k: nat)
    requires Represents(nodes, lists, order) && slot in nodes && nodes[slot].segment == Detached && k < 4
    ensures lists[k].head.Some? ==> lists[k].head.value in nodes
    ensures Represents(Linked(nodes, slot, SegmentAt(k), lists[k].head), lists[k := Pushed(lists[k], slot)],
                       order[k := [slot] + order[k]])
  {
    HeadIsMember(nodes, lists, order, k);
    SegmentTells(nodes, lists, order, slot, k);
    var after := Linked(nodes, slot, SegmentAt(k), lists[k].head);
    var lists', order' := lists[k := Pushed(lists[k], slot)], order[k := [slot] + order[k]];
    LinkChain(nodes, SegmentAt(k), order[k], slot);
    forall j | 0 <= j < 4
      ensures Chain(after, SegmentAt(j), order'[j]) && lists'[j] == Ends(order'[j])
    {
      if j != k { LinkOther(nodes, lists, order, slot, k, j); }
    }
    forall x | x in after && after[x].segment != Detached
      ensures x in order'[SegmentIndex(after[x].segment)]
    {
      if x != slot { assert x in nodes && after[x].segment == nodes[x].segment; }
    }
  }

  function Shrunk(list: List, node: Node): List
    requires list.len > 0
  {
    List(if node.prev.Some? then list.head else node.next, if node.next.Some? then list.tail else node.prev,
         list.len - 1)
  }

  lemma UnlinkOther(nodes: Nodes, lists: seq<List>, order: seq<seq<Slot>>, k: nat, i: nat, j: nat)
    requires Represents(nodes, lists, order) && k < 4 && i < |order[k]| && j < 4 && j != k
    requires var slot := order[k][i];
             && slot in nodes && (nodes[slot].prev.Some? ==> nodes[slot].prev.value in nodes)
             && (nodes[slot].next.Some? ==> nodes[slot].next.value in nodes)
    ensures Chain(Unlinked(nodes, order[k][i]), SegmentAt(j), order[j])
  {
    var after := Unlinked(nodes, order[k][i]);
    assert Chain(nodes, SegmentAt(k), order[k]);
    NeighboursAreNodes(nodes, SegmentAt(k), order[k], i);
    forall x | x in order[j]
      ensures x in after && after[x] == nodes[x]
    {
      SegmentTells(nodes, lists, order, x, j);
    }
    ChainFrame(nodes, after, SegmentAt(j), order[j]);
  }

  lemma UnlinkEnds(segment: Segment, s: seq<Slot>, i: nat)
    requires i < |s|
    ensures Shrunk(Ends(s), Expected(segment, s, i)) == Ends(RemoveAt(s, i))
  {
  }

  lemma UnlinkSafe(nodes: Nodes, lists: seq<List>, order: seq<seq<Slot>>, k: nat, i: nat)
    requires Represents(nodes, lists, order) && k < 4 && i < |order[k]|
    ensures var slot := order[k][i];
            && slot in nodes && nodes[slot] == Expected(SegmentAt(k), order[k], i)
            && (nodes[slot].prev.Some? ==> nodes[slot].prev.value in nodes)
            && (nodes[slot].next.Some? ==> nodes[slot].next.value in nodes) && lists[k].len > 0
  {
    assert Chain(nodes, SegmentAt(k), order[k]) && lists[k] == Ends(order[k]);
    NeighboursAreNodes(nodes, SegmentAt(k), order[k], i);
  }

  lemma UnlinkMembers(nodes: Nodes, lists: seq<List>, order: seq<seq<Slot>>, k: nat, i: nat, x: Slot)
    requires Represents(nodes, lists, order) && k < 4 && i < |order[k]|
    requires var slot := order[k][i];
             && slot in nodes && (nodes[slot].prev.Some? ==> nodes[slot].prev.value in nodes)
             && (nodes[slot].next.Some? ==> nodes[slot].next.value in nodes)
    requires x in Unlinked(nodes, order[k][i]) && Unlinked(nodes, order[k][i])[x].segment != Detached
    ensures x in order[k := Without(order[k], order[k][i])][SegmentIndex(Unlinked(nodes, order[k][i])[x].segment)]
  {
    assert x in nodes && Unlinked(nodes, order[k][i])[x].segment == nodes[x].segment && x != order[k][i];
  }

  /** Unlinking a slot is removing it from its sequence. */
  lemma UnlinkRepresents(nodes: Nodes, lists: seq<List>, order: seq<seq<Slot>>, k: nat, i: nat)
    requires Represents(nodes, lists, order) && k < 4 && i < |order[k]|
    ensures var slot := order[k][i];
            && slot in nodes && (nodes[slot].prev.Some? ==> nodes[slot].prev.value in nodes)
            && (nodes[slot].next.Some? ==> nodes[slot].next.value in nodes) && lists[k].len > 0
            && Represents(Unlinked(nodes, slot), lists[k := Shrunk(lists[k], nodes[slot])],
                          order[k := Without(order[k], slot)])
  {
    var s, slot := order[k], order[k][i];
    UnlinkSafe(nodes, lists, order, k, i);
    var after := Unlinked(nodes, slot);
    var lists', order' := lists[k := Shrunk(lists[k], nodes[slot])], order[k := Without(s, slot)];
    forall j | 0 <= j < 4
      ensures Chain(after, SegmentAt(j), order'[j]) && lists'[j] == Ends(order'[j])
    {
      assert Chain(nodes, SegmentAt(j), order[j]) && lists[j] == Ends(order[j]);
      if j != k {
        UnlinkOther(nodes, lists, order, k, i, j);
      } else {
        WithoutAt(s, i);
        UnlinkChain(nodes, SegmentAt(k), s, i);
        UnlinkEnds(SegmentAt(k), s, i);
      }
    }
    forall x | x in after && after[x].segment != Detached
      ensures x in order'[SegmentIndex(after[x].segment)]
    {
      UnlinkMembers(nodes, lists, order, k, i, x);
    }
  }

  // ----- Recognising well-formed links -----

  /** What the walk has checked so far: `s` starts at the head and every link back is right. */
  ghost predicate Walked(nodes: Nodes, segment: Segment, head: Option<Slot>, s: seq<Slot>, current: Option<Slot>) {
    && Distinct(s)
    && (forall i :: 0 <= i < |s| ==> s[i] in nodes && nodes[s[i]].segment == segment)
    && (forall i {:trigger Expected(segment, s, i)} :: 0 <= i < |s| ==>
        nodes[s[i]].prev == Expected(segment, s, i).prev)
    && (forall i {:trigger Expected(segment, s, i)} :: 0 <= i < |s| - 1 ==>
        nodes[s[i]].next == Expected(segment, s, i).next)
    && (if |s| == 0 then current == head else head == Some(s[0]) && current == nodes[s[|s| - 1]].next)
  }

  lemma WalkOn(nodes: Nodes, segment: Segment, head: Option<Slot>, s: seq<Slot>, slot: Slot)
    requires Walked(nodes, segment, head, s, Some(slot)) && slot in nodes && nodes[slot].segment == segment
    requires nodes[slot].prev == if |s| == 0 then None else Some(s[|s| - 1])
    ensures Walked(nodes, segment, head, s + [slot], nodes[slot].next)
  {
    var t := s + [slot];
    forall j | 0 <= j < |s|
      ensures s[j] != slot
    {
      assert nodes[s[j]].prev == Expected(segment, s, j).prev;
      assert j > 0 ==> s[j - 1] != s[|s| - 1];
    }
    forall i | 0 <= i < |t| - 1
      ensures nodes[t[i]] == Expected(segment, t, i)
    {
      assert t[i] == s[i] && nodes[s[i]].prev == Expected(segment, s, i).prev;
    }
  }

  /** A walk that reaches the end has read off a chain. */
  lemma WalkedOut(nodes: Nodes, segment: Segment, head: Option<Slot>, s: seq<Slot>)
    requires Walked(nodes, segment, head, s, None)
    ensures Chain(nodes, segment, s) && head == Ends(s).head
  {
    forall i | 0 <= i < |s|
      ensures nodes[s[i]] == Expected(segment, s, i)
    {
      assert nodes[s[i]].prev == Expected(segment, s, i).prev;
    }
  }

  /** Any chain from the same head goes the way the walk went. */
  lemma {:induction false} WalkIsForced(nodes: Nodes, segment: Segment, s: seq<Slot>, current: Option<Slot>,
                                        t: seq<Slot>, n: nat)
    requires Chain(nodes, segment, t) && Walked(nodes, segment, Ends(t).head, s, current) && n <= |s|
    ensures n <= |t| && s[..n] == t[..n]
  {
    if n > 0 {
      WalkIsForced(nodes, segment, s, current, t, n - 1);
      if n > 1 {
        assert nodes[s[n - 2]] == Expected(segment, s, n - 2);
        Look(nodes, segment, t, n - 2);
        assert s[n - 2] == s[..n - 1][n - 2] == t[..n - 1][n - 2] == t[n - 2];
      }
    }
  }

  lemma NextIsForced(nodes: Nodes, segment: Segment, s: seq<Slot>, current: Option<Slot>, t: seq<Slot>)
    requires Chain(nodes, segment, t) && Walked(nodes, segment, Ends(t).head, s, current)
    ensures |s| <= |t| && s == t[..|s|]
    ensures current == if |s| == |t| then None else Some(t[|s|])
  {
    WalkIsForced(nodes, segment, s, current, t, |s|);
    assert s[..|s|] == s;
    if |s| > 0 { Look(nodes, segment, t, |s| - 1); }
  }

  lemma {:induction false} Pigeonhole(s: seq<Slot>, room: set<Slot>)
    requires Distinct(s) && forall x :: x in s ==> x in room
    ensures |s| <= |room|
  {
    if |s| > 0 {
      forall x | x in s[1..]
        ensures x in room - {s[0]}
      {
        assert s[0] !in s[1..];
      }
      assert s[0] in s;
      Pigeonhole(s[1..], room - {s[0]});
    }
  }

  lemma ChainFits(nodes: Nodes, segment: Segment, t: seq<Slot>)
    requires Chain(nodes, segment, t)
    ensures |t| <= |nodes|
  {
    forall x | x in t
      ensures x in nodes.Keys
    {
      var i := ChainAt(nodes, segment, t, x);
    }
    Pigeonhole(t, nodes.Keys);
  }

  ghost predicate ListOk(nodes: Nodes, segment: Segment, list: List, s: seq<Slot>) {
    Chain(nodes, segment, s) && list == Ends(s)
  }

  /** One list of `verify`: it accepts exactly the chains, on any links whatever, cyclic ones included. */
  method WalkList(nodes: Nodes, segment: Segment, list: List) returns (ok: bool, count: nat, ghost s: seq<Slot>)
    ensures ok ==> ListOk(nodes, segment, list, s) && count == |s|
    ensures !ok ==> forall t :: !ListOk(nodes, segment, list, t)
  {
    var current, previous: Option<Slot> := list.head, None;
    count, s := 0, [];
    while current.Some?
      invariant Walked(nodes, segment, list.head, s, current)
      invariant count == |s| && previous == (if |s| == 0 then None else Some(s[|s| - 1])) && count <= |nodes|
      decreases |nodes| - count, current.Some?
    {
      var slot := current.value;
      if slot !in nodes || nodes[slot].segment != segment || nodes[slot].prev != previous {
        forall t | ListOk(nodes, segment, list, t)
          ensures false
        {
          NextIsForced(nodes, segment, s, current, t);
          Look(nodes, segment, t, |s|);
        }
        return false, count, s;
      }
      WalkOn(nodes, segment, list.head, s, slot);
      s := s + [slot];
      previous := Some(slot);
      current := nodes[slot].next;
      count := count + 1;
      if count > |nodes| {
        forall t | ListOk(nodes, segment, list, t)
          ensures false
        {
          NextIsForced(nodes, segment, s, current, t);
          ChainFits(nodes, segment, t);
        }
        return false, count, s;
      }
    }
    WalkedOut(nodes, segment, list.head, s);
    if previous != list.tail || count != list.len {
      forall t | ListOk(nodes, segment, list, t)
        ensures false
      {
        NextIsForced(nodes, segment, s, current, t);
      }
      return false, count, s;
    }
    ok := true;
  }

  // ----- Membership by counting -----

  function In(nodes: Nodes, segment: Segment): set<Slot> {
    set x | x in nodes && nodes[x].segment == segment
  }

  lemma SubsetBySize(a: set<Slot>, b: set<Slot>)
    requires a <= b
    ensures |a| <= |b| && (|a| == |b| ==> a == b)
  {
    assert b == a + (b - a);
  }

  /** A chain holds nodes of its segment only, all of them exactly when it is long enough. */
  lemma ChainCounts(nodes: Nodes, segment: Segment, s: seq<Slot>)
    requires Chain(nodes, segment, s)
    ensures |s| <= |In(nodes, segment)|
    ensures |s| == |In(nodes, segment)| <==> forall x :: x in nodes && nodes[x].segment == segment ==> x in s
  {
    MembersSize(s);
    forall x | x in Members(s)
      ensures x in In(nodes, segment)
    {
      var i := ChainAt(nodes, segment, s, x);
    }
    SubsetBySize(Members(s), In(nodes, segment));
    if forall x :: x in nodes && nodes[x].segment == segment ==> x in s {
      assert Members(s) == In(nodes, segment);
    }
    if |s| == |In(nodes, segment)| {
      forall x | x in nodes && nodes[x].segment == segment
        ensures x in s
      {
        assert x in In(nodes, segment) && x in Members(s);
      }
    }
  }

  /** The nodes whose segment comes at or after `k`, detached last. */
  function From(nodes: Nodes, k: nat): set<Slot> {
    set x | x in nodes && (nodes[x].segment == Detached || SegmentIndex(nodes[x].segment) >= k)
  }

  lemma SplitOff(nodes: Nodes, k: nat)
    requires k < 4
    ensures |From(nodes, k)| == |In(nodes, SegmentAt(k))| + |From(nodes, k + 1)|
  {
    forall x | x in nodes
      ensures x in From(nodes, k) <==> x in In(nodes, SegmentAt(k)) + From(nodes, k + 1)
    {
      if nodes[x].segment == SegmentAt(k) { assert SegmentIndex(nodes[x].segment) == k; }
    }
    assert From(nodes, k) == In(nodes, SegmentAt(k)) + From(nodes, k + 1);
    assert In(nodes, SegmentAt(k)) !! From(nodes, k + 1);
  }

  lemma NodesBySegment(nodes: Nodes)
    ensures |nodes| == |In(nodes, Window)| + |In(nodes, Probationary)| + |In(nodes, Protected)|
            + |In(nodes, PrefetchedUnused)| + |In(nodes, Detached)|
  {
    SplitOff(nodes, 0);
    SplitOff(nodes, 1);
    SplitOff(nodes, 2);
    SplitOff(nodes, 3);
    assert From(nodes, 0) == nodes.Keys;
    assert From(nodes, 4) == In(nodes, Detached);
  }

  ghost predicate ListsOk(nodes: Nodes, lists: seq<List>, order: seq<seq<Slot>>) {
    |lists| == 4 && |order| == 4 && forall k :: 0 <= k < 4 ==> ListOk(nodes, SegmentAt(k), lists[k], order[k])
  }

  /** With all four lists well formed, counting decides whether any attached node is missing from its list. */
  lemma CountDecides(nodes: Nodes, lists: seq<List>, order: seq<seq<Slot>>)
    requires ListsOk(nodes, lists, order)
    ensures |order[0]| + |order[1]| + |order[2]| + |order[3]| + |In(nodes, Detached)| == |nodes|
            <==> Represents(nodes, lists, order)
  {
    NodesBySegment(nodes);
    forall k | 0 <= k < 4
      ensures |order[k]| <= |In(nodes, SegmentAt(k))|
      ensures |order[k]| == |In(nodes, SegmentAt(k))|
              <==> forall x :: x in nodes && nodes[x].segment == SegmentAt(k) ==> x in order[k]
    {
      assert ListOk(nodes, SegmentAt(k), lists[k], order[k]);
      ChainCounts(nodes, SegmentAt(k), order[k]);
    }
    forall k, x | 0 <= k < 4 && x in nodes && nodes[x].segment == SegmentAt(k)
      ensures SegmentIndex(nodes[x].segment) == k
    {
    }
  }

  /** The sequences a list spells out are unique. */
  lemma OrderIsUnique(nodes: Nodes, segment: Segment, list: List, s: seq<Slot>, t: seq<Slot>)
    requires ListOk(nodes, segment, list, s) && ListOk(nodes, segment, list, t)
    ensures s == t
  {
    OrderAgrees(nodes, segment, s, t, |s|);
  }

  lemma {:induction false} OrderAgrees(nodes: Nodes, segment: Segment, s: seq<Slot>, t: seq<Slot>, n: nat)
    requires Chain(nodes, segment, s) && Chain(nodes, segment, t) && Ends(s) == Ends(t) && n <= |s|
    ensures s[..n] == t[..n]
  {
    if n > 1 {
      OrderAgrees(nodes, segment, s, t, n - 1);
      Look(nodes, segment, s, n - 2);
      Look(nodes, segment, t, n - 2);
      assert s[..n - 1][n - 2] == t[..n - 1][n - 2];
    }
  }

  lemma RepresentationIsUnique(nodes: Nodes, lists: seq<List>, order: seq<seq<Slot>>, other: seq<seq<Slot>>)
    requires ListsOk(nodes, lists, order) && Represents(nodes, lists, other)
    ensures order == other
  {
    forall k | 0 <= k < 4
      ensures order[k] == other[k]
    {
      assert ListOk(nodes, SegmentAt(k), lists[k], order[k]);
      assert ListOk(nodes, SegmentAt(k), lists[k], other[k]);
      OrderIsUnique(nodes, SegmentAt(k), lists[k], order[k], other[k]);
    }
  }

  /** `verify` succeeds exactly on the links that represent some four sequences. */
  method Verify(nodes: Nodes, lists: seq<List>) returns (ok: bool)
    requires |lists| == 4
    ensures ok <==> exists order :: Represents(nodes, lists, order)
  {
    var seen := 0;
    ghost var order: seq<seq<Slot>> := [];
    for k := 0 to 4
      invariant |order| == k && forall j :: 0 <= j < k ==> ListOk(nodes, SegmentAt(j), lists[j], order[j])
      invariant seen == Total(order)
    {
      var fine, count, s := WalkList(nodes, SegmentAt(k), lists[k]);
      if !fine {
        forall other | Represents(nodes, lists, other)
          ensures false
        {
          assert ListOk(nodes, SegmentAt(k), lists[k], other[k]);
        }
        return false;
      }
      TotalSnoc(order, s);
      order := order + [s];
      seen := seen + count;
    }
    TotalOfFour(order);
    CountDecides(nodes, lists, order);
    ok := seen + |set x | x in nodes && nodes[x].segment == Detached| == |nodes|;
    assert (set x | x in nodes && nodes[x].segment == Detached) == In(nodes, Detached);
    if !ok {
      forall other | Represents(nodes, lists, other)
        ensures false
      {
        RepresentationIsUnique(nodes, lists, order, other);
      }
    }
  }

  function Total(order: seq<seq<Slot>>): nat {
    if |order| == 0 then 0 else Total(order[..|order| - 1]) + |order[|order| - 1]|
  }

  lemma TotalSnoc(order: seq<seq<Slot>>, s: seq<Slot>)
    ensures Total(order + [s]) == Total(order) + |s|
  {
    assert (order + [s])[..|order|] == order;
  }

  lemma TotalOfFour(order: seq<seq<Slot>>)
    requires |order| == 4
    ensures Total(order) == |order[0]| + |order[1]| + |order[2]| + |order[3]|
  {
    assert order[..3][..2] == order[..2] && order[..2][..1] == order[..1] && order[..1][..0] == [];
    assert Total(order[..3]) == Total(order[..2]) + |order[2]|;
    assert Total(order[..2]) == Total(order[..1]) + |order[1]|;
    assert Total(order[..1]) == Total([]) + |order[0]|;
  }

  // ----- The structure itself -----

  class SegmentedRecency {
    const protectedTarget: nat
    var nodes: Nodes
    var lists: seq<List>
    ghost var order: seq<seq<Slot>>

    ghost predicate Valid()
      reads this
    {
      Represents(nodes, lists, order)
    }

    ghost function Model(): Lists
      reads this
    {
      Lists(order, nodes.Keys)
    }

    constructor (protectedTarget: nat)
      ensures Valid() && Model() == Lists([[], [], [], []], {}) && this.protectedTarget == protectedTarget
    {
      this.protectedTarget := protectedTarget;
      nodes := map[];
      lists := seq(4, _ => List(None, None, 0));
      order := [[], [], [], []];
    }

    method LinkHead(slot: Slot, segment: Segment)
      requires Valid() && slot in nodes && nodes[slot].segment == Detached && segment != Detached
      modifies this
      ensures Valid() && Model() == Segments.PushHead(old(Model()), slot, segment)
    {
      var k := SegmentIndex(segment);
      LinkRepresents(nodes, lists, order, slot, k);
      HeadIsMember(nodes, lists, order, k);
      var head := lists[k].head;
      nodes := nodes[slot := Node(segment, None, head)];
      if head.Some? {
        nodes := nodes[head.value := nodes[head.value].(prev := Some(slot))];
      } else {
        lists := lists[k := lists[k].(tail := Some(slot))];
      }
      lists := lists[k := lists[k].(head := Some(slot))];
      lists := lists[k := lists[k].(len := lists[k].len + 1)];
      order := order[k := [slot] + order[k]];
      assert lists == old(lists)[k := Pushed(old(lists[k]), slot)];
      assert nodes.Keys == old(nodes.Keys);
    }

    /** Closes the gap around a slot: the link surgery of `detach`. */
    method Splice(slot: Slot, k: nat)
      requires k < |lists| && slot in nodes && lists[k].len > 0
      requires nodes[slot].prev.Some? ==> nodes[slot].prev.value in nodes
      requires nodes[slot].next.Some? ==> nodes[slot].next.value in nodes
      modifies this`nodes, this`lists
      ensures nodes == Unlinked(old(nodes), slot) && lists == old(lists)[k := Shrunk(old(lists[k]), old(nodes[slot]))]
    {
      var node := nodes[slot];
      if node.prev.Some? {
        nodes := nodes[node.prev.value := nodes[node.prev.value].(next := node.next)];
      } else {
        lists := lists[k := lists[k].(head := node.next)];
      }
      if node.next.Some? {
        nodes := nodes[node.next.value := nodes[node.next.value].(prev := node.prev)];
      } else {
        lists := lists[k := lists[k].(tail := node.prev)];
      }
      lists := lists[k := lists[k].(len := lists[k].len - 1)];
      nodes := nodes[slot := Node(Detached, None, None)];
    }

    method Unlink(slot: Slot)
      requires Valid() && slot in nodes && nodes[slot].segment != Detached
      modifies this
      ensures Valid() && nodes.Keys == old(nodes.Keys) && nodes[slot].segment == Detached
      ensures var k := SegmentIndex(old(nodes[slot].segment));
              order == old(order)[k := Without(old(order[k]), slot)]
    {
      var k := SegmentIndex(nodes[slot].segment);
      ghost var i := ChainAt(nodes, SegmentAt(k), order[k], slot);
      UnlinkRepresents(nodes, lists, order, k, i);
      Splice(slot, k);
      order := order[k := Without(order[k], slot)];
    }

    method DetachSlot(slot: Slot)
      requires Valid() && slot in nodes
      modifies this
      ensures Valid() && Model() == Segments.Detach(old(Model()), slot) && nodes.Keys == old(nodes.Keys)
              && nodes[slot].segment == Detached
    {
      ModelTells(nodes, lists, order, slot);
      if nodes[slot].segment != Detached { Unlink(slot); }
    }

    method Insert(slot: Slot, segment: Segment) returns (ok: bool)
      requires Valid()
      modifies this
      ensures Valid()
      ensures var result := Segments.Insert(old(Model()), slot, segment);
              ok == result.Ok? && Model() == if ok then result.value else old(Model())
    {
      if segment == Detached || slot in nodes { return false; }
      nodes := nodes[slot := Node(Detached, None, None)];
      assert Valid() by { NewNodeRepresents(old(nodes), lists, order, slot); }
      assert nodes.Keys == old(nodes.Keys) + {slot};
      LinkHead(slot, segment);
      ok := true;
    }

    /** An attached slot to the head of a list, in its own or another. */
    method MoveToHead(slot: Slot, segment: Segment)
      requires Valid() && slot in nodes && segment != Detached
      modifies this
      ensures Valid() && Model() == Segments.PushHead(Segments.Detach(old(Model()), slot), slot, segment)
    {
      DetachSlot(slot);
      LinkHead(slot, segment);
    }

    method TouchSlot(slot: Slot)
      requires Valid() && slot in nodes && nodes[slot].segment != Detached
      modifies this
      ensures Valid() && Model() == Segments.Apply(old(Model()), protectedTarget, Touch(slot))
    {
      ModelTells(nodes, lists, order, slot);
      var segment := nodes[slot].segment;
      MoveToHead(slot, if segment == Window then Window else Protected);
      HeadIsMember(nodes, lists, order, 2);
      assert lists[2] == Ends(order[2]);
      if lists[2].len > protectedTarget && lists[2].tail.Some? {
        MoveToHead(lists[2].tail.value, Probationary);
      }
    }

    method ApplyEvent(e: Event)
      requires Valid()
      modifies this
      ensures Valid() && Model() == Segments.Apply(old(Model()), protectedTarget, e)
    {
      ModelTells(nodes, lists, order, e.slot);
      if e.slot !in nodes { return; }
      match e
      case Pin(slot) => DetachSlot(slot);
      case Unpin(slot) => if nodes[slot].segment == Detached { LinkHead(slot, Probationary); }
      case Touch(slot) => if nodes[slot].segment != Detached { TouchSlot(slot); }
    }

    /** Applies queued events in order. */
    method Drain(events: seq<Event>) returns (count: nat)
      requires Valid()
      modifies this
      ensures Valid() && count == |events| && Model() == ApplyAll(old(Model()), protectedTarget, events)
    {
      IsPartition(nodes, lists, order);
      ghost var start := Model();
      for i := 0 to |events|
        invariant Valid() && ApplyAll(Model(), protectedTarget, events[i..]) == ApplyAll(start, protectedTarget, events)
      {
        assert events[i..][1..] == events[i + 1..];
        ApplyEvent(events[i]);
      }
      count := |events|;
    }

    method FindVictim() returns (victim: Option<Slot>)
      requires Valid()
      ensures victim == Segments.Victim(Model())
    {
      HeadIsMember(nodes, lists, order, 3);
      HeadIsMember(nodes, lists, order, 1);
      HeadIsMember(nodes, lists, order, 0);
      HeadIsMember(nodes, lists, order, 2);
      victim := lists[3].tail;
      if victim.None? { victim := lists[1].tail; }
      if victim.None? { victim := lists[0].tail; }
      if victim.None? { victim := lists[2].tail; }
    }
  }

  function ApplyAll(m: Lists, target: nat, events: seq<Event>): Lists
    requires |m.order| == 4
    decreases |events|
  {
    if |events| == 0 then m else ApplyAll(Segments.Apply(m, target, events[0]), target, events[1..])
  }

  lemma NewNodeRepresents(nodes: Nodes, lists: seq<List>, order: seq<seq<Slot>>, slot: Slot)
    requires Represents(nodes, lists, order) && slot !in nodes
    ensures Represents(nodes[slot := Node(Detached, None, None)], lists, order)
  {
    var after := nodes[slot := Node(Detached, None, None)];
    forall k | 0 <= k < 4
      ensures Chain(after, SegmentAt(k), order[k])
    {
      forall x | x in order[k]
        ensures x in nodes
      {
        SegmentTells(nodes, lists, order, x, k);
      }
      ChainFrame(nodes, after, SegmentAt(k), order[k]);
    }
  }
}

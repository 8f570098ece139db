/**
 The mutable namespace (crates/mirage-db/src/namespace.rs): inodes, directory entries keyed
 by parent and folded name, and the operations on them. Each call is one transaction; an
 error leaves the tree as it was. Timestamps, pins and legacy path bindings are left out.
 */
module Namespace {
  import opened Basics

  datatype Inode = Inode(id: int)

  datatype Node = Node(directory: bool, size: nat, versionRoot: Option<int>, extentRoot: Option<int>, pending: bool)

  /** Where an entry sits: its parent and its folded name, the key of the `dirents` table. */
  type Place = (Inode, string)

  datatype Entry = Entry(child: Inode, display: string)

  datatype Tree = Tree(root: Inode, nodes: map<Inode, Node>, entries: map<Place, Entry>, nextSequence: nat)

  /** Name folding (`None`: an invalid name) and the identity made from a sequence number. */
  datatype Naming = Naming(fold: string -> Option<string>, identity: nat -> Inode)

  const MAX_RENAME_DEPTH: nat := 256

  /** One recorded mutation (crates/mirage-manifest/src/namespace.rs). */
  datatype Op =
    | Create(parent: Inode, inode: Inode, display: string, folded: string, directory: bool, size: nat)
    | Rename(inode: Inode, fromParent: Inode, fromFolded: string, toParent: Inode, display: string, folded: string)
    | Delete(parent: Inode, folded: string, inode: Inode)
    | SetRoots(inode: Inode, size: nat, versionRoot: Option<int>, extentRoot: Option<int>)

  /** A tree and the deltas recorded on the way to it. */
  datatype Change = Change(tree: Tree, ops: seq<Op>)

  // ----- Shape -----

  ghost predicate HasPlace(t: Tree, i: Inode) {
    exists p :: p in t.entries && t.entries[p].child == i
  }

  ghost function PlaceOf(t: Tree, i: Inode): (p: Place)
    requires HasPlace(t, i)
    ensures p in t.entries && t.entries[p].child == i
  {
    var p :| p in t.entries && t.entries[p].child == i;
    p
  }

  ghost predicate OneEntryPerChild(t: Tree) {
    forall p :: p in t.entries ==> HasPlace(t, t.entries[p].child) && PlaceOf(t, t.entries[p].child) == p
  }

  predicate Linked(t: Tree) {
    forall p :: p in t.entries ==>
      && p.0 in t.nodes && t.nodes[p.0].directory
      && t.entries[p].child in t.nodes && !t.nodes[t.entries[p].child].pending && t.entries[p].child != t.root
  }

  ghost predicate Wellformed(t: Tree) {
    OneEntryPerChild(t) && Linked(t) && t.root in t.nodes && t.nodes[t.root].directory && !t.nodes[t.root].pending
  }

  lemma OneEntryIsUnique(t: Tree)
    ensures OneEntryPerChild(t) <==>
            forall p, q :: p in t.entries && q in t.entries && t.entries[p].child == t.entries[q].child ==> p == q
  {
    if forall p, q :: p in t.entries && q in t.entries && t.entries[p].child == t.entries[q].child ==> p == q {
      forall p | p in t.entries
        ensures HasPlace(t, t.entries[p].child) && PlaceOf(t, t.entries[p].child) == p
      {
        assert HasPlace(t, t.entries[p].child);
      }
    }
  }

  /** The parent relation. */
  ghost function Up(t: Tree): map<Inode, Inode> {
    map i | i in t.nodes && HasPlace(t, i) :: PlaceOf(t, i).0
  }

  predicate HasChildren(t: Tree, i: Inode) {
    exists p :: p in t.entries && p.0 == i
  }

  // ----- Climbing the parent relation -----

  /** Climbing from `x` leaves the tree after exactly `n` steps. */
  predicate Tops(up: map<Inode, Inode>, x: Inode, n: nat)
    decreases n
  {
    if x in up then n > 0 && Tops(up, up[x], n - 1) else n == 0
  }

  /** ... and never meets `m`. */
  predicate TopsAvoiding(up: map<Inode, Inode>, x: Inode, m: Inode, n: nat)
    decreases n
  {
    x != m && if x in up then n > 0 && TopsAvoiding(up, up[x], m, n - 1) else n == 0
  }

  /** Climbing `n` steps from `x` arrives at `m`. */
  predicate Hits(up: map<Inode, Inode>, x: Inode, m: Inode, n: nat)
    decreases n
  {
    if n == 0 then x == m else x in up && Hits(up, up[x], m, n - 1)
  }

  ghost predicate Grounded(up: map<Inode, Inode>, x: Inode) {
    exists n :: Tops(up, x, n)
  }

  /** Every inode has one place at most, under a directory, and climbing always ends. */
  ghost predicate Forest(t: Tree) {
    Wellformed(t) && forall i :: i in t.nodes ==> Grounded(Up(t), i)
  }

  // ----- The ancestor walk of a rename -----

  datatype Walked = Clear | Cycle | TooDeep

  function Walk(up: map<Inode, Inode>, x: Inode, target: Inode, hops: nat): Walked
    requires hops < MAX_RENAME_DEPTH
    decreases MAX_RENAME_DEPTH - hops
  {
    if x == target then Cycle
    else if x !in up then Clear
    else if hops + 1 >= MAX_RENAME_DEPTH then TooDeep
    else Walk(up, up[x], target, hops + 1)
  }

  // ----- Operations -----

  function CreateNode(cfg: Naming, t: Tree, parent: Inode, name: string, directory: bool): Result<Change> {
    var folded := cfg.fold(name);
    var inode := cfg.identity(t.nextSequence);
    if folded.None? || parent !in t.nodes || !t.nodes[parent].directory || inode in t.nodes
        || (parent, folded.value) in t.entries then Err
    else
      Ok(Change(t.(nodes := t.nodes[inode := Node(directory, 0, None, None, false)],
                   entries := t.entries[(parent, folded.value) := Entry(inode, name)],
                   nextSequence := t.nextSequence + 1),
                [Create(parent, inode, name, folded.value, directory, 0)]))
  }

  /** Takes an inode out of the live tree: kept as a tombstone while handles are open, or removed. */
  function Unlink(nodes: map<Inode, Node>, i: Inode, retain: bool): map<Inode, Node>
    requires i in nodes
  {
    if retain then nodes[i := nodes[i].(pending := true)] else nodes - {i}
  }

  function DeleteNode(cfg: Naming, t: Tree, parent: Inode, name: string, retain: bool): Result<Change> {
    var folded := cfg.fold(name);
    if folded.None? || (parent, folded.value) !in t.entries then Err
    else
      var inode := t.entries[(parent, folded.value)].child;
      if inode !in t.nodes || (t.nodes[inode].directory && HasChildren(t, inode)) then Err
      else
        Ok(Change(t.(nodes := Unlink(t.nodes, inode, retain), entries := t.entries - {(parent, folded.value)}),
                  [Delete(parent, folded.value, inode)]))
  }

  datatype Move = Move(fromParent: Inode, fromName: string, toParent: Inode, toName: string,
                       replace: bool, retain: bool, expected: Option<Option<Inode>>)

  ghost predicate Approved(cfg: Naming, t: Tree, m: Move) {
    var from, to := cfg.fold(m.fromName), cfg.fold(m.toName);
    && from.Some? && to.Some?
    && (m.fromParent, from.value) in t.entries && t.entries[(m.fromParent, from.value)].child in t.nodes
    && m.toParent in t.nodes && t.nodes[m.toParent].directory
    && (t.nodes[t.entries[(m.fromParent, from.value)].child].directory ==>
          Walk(Up(t), m.toParent, t.entries[(m.fromParent, from.value)].child, 0) == Clear)
  }

  /** The inode a rename would displace, if any. */
  function Victim(t: Tree, to: Place, moved: Inode): Option<Inode> {
    if to in t.entries && t.entries[to].child != moved then Some(t.entries[to].child) else None
  }

  ghost function RenameNode(cfg: Naming, t: Tree, m: Move): Result<Change> {
    if !Approved(cfg, t, m) then Err
    else
      var from: Place := (m.fromParent, cfg.fold(m.fromName).value);
      var to: Place := (m.toParent, cfg.fold(m.toName).value);
      var moved := t.entries[from].child;
      var victim := Victim(t, to, moved);
      if m.expected.Some? && m.expected.value != victim then Err
      else if victim.Some?
          && (victim.value !in t.nodes || (t.nodes[victim.value].directory && HasChildren(t, victim.value))
              || !m.replace) then Err
      else
        var nodes := if victim.Some? then Unlink(t.nodes, victim.value, m.retain) else t.nodes;
        var dropped := if victim.Some? then [Delete(to.0, to.1, victim.value)] else [];
        Ok(Change(t.(nodes := nodes, entries := (t.entries - {from})[to := Entry(moved, m.toName)]),
                  dropped + [Rename(moved, from.0, from.1, to.0, m.toName, to.1)]))
  }

  function SetFileRoots(t: Tree, inode: Inode, size: nat, versionRoot: Option<int>,
                        extentRoot: Option<int>): Result<Change> {
    if inode !in t.nodes || t.nodes[inode].directory || size > I64_MAX then Err
    else
      Ok(Change(t.(nodes :=
                   t.nodes[inode :=
                           t.nodes[inode].(size := size, versionRoot := versionRoot, extentRoot := extentRoot)]),
                [SetRoots(inode, size, versionRoot, extentRoot)]))
  }

  /** The tombstone half of release_inode_extents; a tombstone with entries under it is refused by the foreign key. */
  function FinalizeInode(t: Tree, inode: Inode): Result<Change> {
    if inode in t.nodes && t.nodes[inode].pending then
      if HasChildren(t, inode) then Err else Ok(Change(t.(nodes := t.nodes - {inode}), []))
    else Ok(Change(t, []))
  }

  // ----- Climbing lemmas -----

  lemma {:induction false} TopsIsUnique(up: map<Inode, Inode>, x: Inode, n: nat, k: nat)
    requires Tops(up, x, n) && Tops(up, x, k)
    ensures n == k
    decreases n
  {
    if x in up { TopsIsUnique(up, up[x], n - 1, k - 1); }
  }

  lemma {:induction false} AvoidingTops(up: map<Inode, Inode>, x: Inode, m: Inode, n: nat)
    requires TopsAvoiding(up, x, m, n)
    ensures Tops(up, x, n) && forall k :: !Hits(up, x, m, k)
    decreases n
  {
    if x in up { AvoidingTops(up, up[x], m, n - 1); }
    forall k: nat
      ensures !Hits(up, x, m, k)
    {
      if k > 0 && x in up { assert !Hits(up, up[x], m, k - 1); }
    }
  }

  lemma {:induction false} TopsOrHits(up: map<Inode, Inode>, x: Inode, m: Inode, n: nat) returns (k: nat)
    requires Tops(up, x, n)
    ensures TopsAvoiding(up, x, m, n) || Hits(up, x, m, k)
    decreases n
  {
    k := 0;
    if x != m && x in up {
      k := TopsOrHits(up, up[x], m, n - 1);
      k := k + 1;
    }
  }

  /** Clear: the climb ends within the bound and avoids the target. Cycle: it meets the target. */
  lemma {:induction false} WalkIsSound(up: map<Inode, Inode>, x: Inode, m: Inode, hops: nat) returns (n: nat)
    requires hops < MAX_RENAME_DEPTH
    ensures Walk(up, x, m, hops).Clear? ==> n + hops < MAX_RENAME_DEPTH && TopsAvoiding(up, x, m, n)
    ensures Walk(up, x, m, hops).Cycle? ==> n + hops < MAX_RENAME_DEPTH && Hits(up, x, m, n)
    decreases MAX_RENAME_DEPTH - hops
  {
    n := 0;
    if x != m && x in up && hops + 1 < MAX_RENAME_DEPTH {
      n := WalkIsSound(up, up[x], m, hops + 1);
      n := n + 1;
    }
  }

  /** Conversely, within the bound the walk decides; beyond it, it never says Clear. */
  lemma {:induction false} WalkIsComplete(up: map<Inode, Inode>, x: Inode, m: Inode, hops: nat, n: nat)
    requires hops < MAX_RENAME_DEPTH
    ensures n + hops < MAX_RENAME_DEPTH && TopsAvoiding(up, x, m, n) ==> Walk(up, x, m, hops).Clear?
    ensures n + hops < MAX_RENAME_DEPTH && Hits(up, x, m, n) ==> !Walk(up, x, m, hops).TooDeep?
    ensures Hits(up, x, m, n) ==> !Walk(up, x, m, hops).Clear?
    decreases MAX_RENAME_DEPTH - hops
  {
    if x != m && x in up && hops + 1 < MAX_RENAME_DEPTH && n > 0 {
      WalkIsComplete(up, up[x], m, hops + 1, n - 1);
    }
  }

  ghost predicate MeetsSoon(up: map<Inode, Inode>, x: Inode, m: Inode) {
    exists k :: 0 <= k < MAX_RENAME_DEPTH && Hits(up, x, m, k)
  }

  /**
   What the bounded loop decides, on every climb of length `n`: it clears the target exactly
   if the climb is short enough and never meets it, and says cycle exactly if it meets it soon enough.
   */
  lemma WalkDecidesAncestry(up: map<Inode, Inode>, x: Inode, m: Inode, n: nat)
    requires Tops(up, x, n)
    ensures Walk(up, x, m, 0).Clear? <==> n < MAX_RENAME_DEPTH && forall k :: !Hits(up, x, m, k)
    ensures Walk(up, x, m, 0).Cycle? <==> MeetsSoon(up, x, m)
  {
    var at := WalkIsSound(up, x, m, 0);
    var met := TopsOrHits(up, x, m, n);
    if Walk(up, x, m, 0).Clear? {
      AvoidingTops(up, x, m, at);
      TopsIsUnique(up, x, n, at);
    }
    WalkIsComplete(up, x, m, 0, n);
    forall k: nat | Hits(up, x, m, k)
      ensures !Walk(up, x, m, 0).Clear? && (k < MAX_RENAME_DEPTH ==> Walk(up, x, m, 0).Cycle?)
    {
      WalkIsComplete(up, x, m, 0, k);
    }
    assert Walk(up, x, m, 0).Cycle? ==> at < MAX_RENAME_DEPTH && Hits(up, x, m, at);
  }

  /** Hanging `m` below `t` keeps every climb finite when the climb from `t` avoids `m`. */
  lemma {:induction false} GroundedAfterHang(up: map<Inode, Inode>, m: Inode, t: Inode, k: nat, x: Inode, n: nat)
    requires TopsAvoiding(up, t, m, k) && Tops(up, x, n)
    ensures Grounded(up[m := t], x)
    decreases n
  {
    var after := up[m := t];
    if x == m {
      HangKeepsClimb(up, m, t, t, k);
      assert Tops(after, x, k + 1);
    } else if x in up {
      GroundedAfterHang(up, m, t, k, up[x], n - 1);
      var j: nat :| Tops(after, up[x], j);
      assert Tops(after, x, j + 1);
    } else {
      assert Tops(after, x, 0);
    }
  }

  lemma {:induction false} HangKeepsClimb(up: map<Inode, Inode>, m: Inode, t: Inode, x: Inode, k: nat)
    requires TopsAvoiding(up, x, m, k)
    ensures Tops(up[m := t], x, k)
    decreases k
  {
    if x in up { HangKeepsClimb(up, m, t, up[x], k - 1); }
  }

  /** Taking places away only shortens climbs. */
  lemma {:induction false} GroundedAfterCut(up: map<Inode, Inode>, cut: set<Inode>, x: Inode, n: nat)
    requires Tops(up, x, n)
    ensures Grounded(up - cut, x)
    decreases n
  {
    if x in up && x !in cut {
      GroundedAfterCut(up, cut, up[x], n - 1);
      var j: nat :| Tops(up - cut, up[x], j);
      assert Tops(up - cut, x, j + 1);
    } else {
      assert Tops(up - cut, x, 0);
    }
  }

  /** A finite climb is no cycle. */
  lemma {:induction false} GroundedMeansAcyclic(up: map<Inode, Inode>, x: Inode, n: nat, k: nat)
    requires Tops(up, x, n) && k > 0
    ensures !Hits(up, x, x, k)
  {
    if Hits(up, x, x, k) {
      HitsShifts(up, x, x, k, n);
      TopsIsUnique(up, x, n, n - k);
    }
  }

  lemma {:induction false} HitsShifts(up: map<Inode, Inode>, x: Inode, y: Inode, k: nat, n: nat)
    requires Hits(up, x, y, k) && Tops(up, x, n)
    ensures k <= n && Tops(up, y, n - k)
    decreases k
  {
    if k > 0 { HitsShifts(up, up[x], y, k - 1, n - 1); }
  }

  lemma {:induction false} AvoidingAfterCut(up: map<Inode, Inode>, cut: set<Inode>, x: Inode, m: Inode, n: nat)
    returns (k: nat)
    requires TopsAvoiding(up, x, m, n)
    ensures TopsAvoiding(up - cut, x, m, k)
    decreases n
  {
    k := 0;
    if x in up && x !in cut {
      k := AvoidingAfterCut(up, cut, up[x], m, n - 1);
      k := k + 1;
    }
  }

  /** Directories only have directories above them, so a file is on no climb that starts at one. */
  lemma {:induction false} ClimbAvoidsFiles(t: Tree, x: Inode, m: Inode, n: nat)
    requires Wellformed(t) && Tops(Up(t), x, n)
    requires x in t.nodes && t.nodes[x].directory && m in t.nodes && !t.nodes[m].directory
    ensures TopsAvoiding(Up(t), x, m, n)
    decreases n
  {
    if x in Up(t) {
      assert PlaceOf(t, x) in t.entries;
      ClimbAvoidsFiles(t, Up(t)[x], m, n - 1);
    }
  }

  // ----- Every operation keeps the forest -----

  lemma EntryIsUp(t: Tree, p: Place)
    requires Wellformed(t) && p in t.entries
    ensures t.entries[p].child in Up(t) && Up(t)[t.entries[p].child] == p.0 && PlaceOf(t, t.entries[p].child) == p
  {
  }

  /** Adding one entry for a new child, or one that has none, adds one pair to the parent relation. */
  lemma UpBesidePut(t: Tree, out: Tree, place: Place, child: Inode, display: string, i: Inode)
    requires Wellformed(t) && Wellformed(out) && place !in t.entries && i != child
    requires out.entries == t.entries[place := Entry(child, display)] && out.nodes.Keys == t.nodes.Keys + {child}
    ensures i in Up(out) <==> i in Up(t)
    ensures i in Up(out) ==> Up(out)[i] == Up(t)[i]
  {
    if i in Up(out) { EntryIsUp(t, PlaceOf(out, i)); }
    if i in Up(t) { EntryIsUp(out, PlaceOf(t, i)); }
  }

  lemma UpAfterPut(t: Tree, out: Tree, place: Place, child: Inode, display: string)
    requires Wellformed(t) && Wellformed(out) && !HasPlace(t, child) && place !in t.entries
    requires out.entries == t.entries[place := Entry(child, display)] && out.nodes.Keys == t.nodes.Keys + {child}
    ensures Up(out) == Up(t)[child := place.0]
  {
    EntryIsUp(out, place);
    forall i | i != child
      ensures i in Up(out) <==> i in Up(t)
      ensures i in Up(out) ==> Up(out)[i] == Up(t)[i]
    {
      UpBesidePut(t, out, place, child, display, i);
    }
  }

  lemma UpAfterDrop(t: Tree, out: Tree, place: Place)
    requires Wellformed(t) && Wellformed(out) && place in t.entries && out.entries == t.entries - {place}
    requires forall i :: i in t.nodes && i != t.entries[place].child ==> i in out.nodes
    requires out.nodes.Keys <= t.nodes.Keys
    ensures Up(out) == Up(t) - {t.entries[place].child}
    ensures !HasPlace(out, t.entries[place].child)
  {
    var child := t.entries[place].child;
    var a, b := Up(out), Up(t) - {child};
    forall i
      ensures i in a <==> i in b
      ensures i in a ==> a[i] == b[i]
    {
      if i in a { EntryIsUp(t, PlaceOf(out, i)); }
      if i in b { EntryIsUp(out, PlaceOf(t, i)); }
    }
  }

  lemma HangKeepsForest(t: Tree, out: Tree, m: Inode, parent: Inode, k: nat)
    requires Forest(t) && Wellformed(out) && Up(out) == Up(t)[m := parent] && TopsAvoiding(Up(t), parent, m, k)
    requires forall i :: i in out.nodes ==> i in t.nodes || (i == m && i !in Up(t))
    ensures Forest(out)
  {
    forall i | i in out.nodes
      ensures Grounded(Up(out), i)
    {
      if i in t.nodes {
        var n: nat :| Tops(Up(t), i, n);
        GroundedAfterHang(Up(t), m, parent, k, i, n);
      } else {
        assert Tops(Up(t), i, 0);
        GroundedAfterHang(Up(t), m, parent, k, i, 0);
      }
    }
  }

  lemma CutKeepsForest(t: Tree, out: Tree, cut: set<Inode>)
    requires Forest(t) && Wellformed(out) && out.nodes.Keys <= t.nodes.Keys && Up(out) == Up(t) - cut
    ensures Forest(out)
  {
    forall i | i in out.nodes
      ensures Grounded(Up(out), i)
    {
      var n: nat :| Tops(Up(t), i, n);
      GroundedAfterCut(Up(t), cut, i, n);
    }
  }

  /** An inode that is not in the tree is on no climb. */
  lemma {:induction false} StrangerIsAvoided(t: Tree, x: Inode, m: Inode, n: nat)
    requires Wellformed(t) && Tops(Up(t), x, n) && x in t.nodes && m !in t.nodes
    ensures TopsAvoiding(Up(t), x, m, n)
    decreases n
  {
    if x in Up(t) {
      assert PlaceOf(t, x) in t.entries;
      StrangerIsAvoided(t, Up(t)[x], m, n - 1);
    }
  }

  lemma CreateKeepsWellformed(cfg: Naming, t: Tree, parent: Inode, name: string, directory: bool)
    requires Wellformed(t) && CreateNode(cfg, t, parent, name, directory).Ok?
    ensures Wellformed(CreateNode(cfg, t, parent, name, directory).value.tree)
            && !HasPlace(t, cfg.identity(t.nextSequence))
  {
    var out := CreateNode(cfg, t, parent, name, directory).value.tree;
    forall p | p in out.entries && p in t.entries
      ensures out.entries[p] == t.entries[p] && t.entries[p].child != cfg.identity(t.nextSequence)
    {
    }
  }

  lemma CreateUp(cfg: Naming, t: Tree, parent: Inode, name: string, directory: bool)
    requires Wellformed(t) && CreateNode(cfg, t, parent, name, directory).Ok?
    ensures Wellformed(CreateNode(cfg, t, parent, name, directory).value.tree)
    ensures Up(CreateNode(cfg, t, parent, name, directory).value.tree) == Up(t)[cfg.identity(t.nextSequence) := parent]
  {
    CreateKeepsWellformed(cfg, t, parent, name, directory);
    var out := CreateNode(cfg, t, parent, name, directory).value.tree;
    UpAfterPut(t, out, (parent, cfg.fold(name).value), cfg.identity(t.nextSequence), name);
  }

  lemma CreateKeepsForest(cfg: Naming, t: Tree, parent: Inode, name: string, directory: bool)
    requires Forest(t) && CreateNode(cfg, t, parent, name, directory).Ok?
    ensures Forest(CreateNode(cfg, t, parent, name, directory).value.tree)
  {
    var inode := cfg.identity(t.nextSequence);
    CreateUp(cfg, t, parent, name, directory);
    var n: nat :| Tops(Up(t), parent, n);
    StrangerIsAvoided(t, parent, inode, n);
    HangKeepsForest(t, CreateNode(cfg, t, parent, name, directory).value.tree, inode, parent, n);
  }

  /** Removing a childless inode together with its entry breaks no link. */
  lemma DropKeepsWellformed(t: Tree, out: Tree, place: Place, retain: bool)
    requires Wellformed(t) && place in t.entries
    requires var i := t.entries[place].child;
             !(t.nodes[i].directory && HasChildren(t, i))
                 && out == t.(nodes := Unlink(t.nodes, i, retain), entries := t.entries - {place})
    ensures Wellformed(out) && out.nodes.Keys <= t.nodes.Keys
  {
    var i := t.entries[place].child;
    forall p | p in out.entries
      ensures p.0 in out.nodes && out.nodes[p.0].directory && out.entries[p].child in out.nodes
              && !out.nodes[out.entries[p].child].pending && out.entries[p].child != out.root
    {
      assert p in t.entries && (p.0 == i ==> HasChildren(t, i));
      assert t.entries[p].child != i;
    }
  }

  lemma DropKeepsForest(t: Tree, out: Tree, place: Place, retain: bool)
    requires Forest(t) && place in t.entries
    requires var i := t.entries[place].child;
             !(t.nodes[i].directory && HasChildren(t, i))
                 && out == t.(nodes := Unlink(t.nodes, i, retain), entries := t.entries - {place})
    ensures Forest(out) && Up(out) == Up(t) - {t.entries[place].child} && !HasPlace(out, t.entries[place].child)
  {
    DropKeepsWellformed(t, out, place, retain);
    UpAfterDrop(t, out, place);
    CutKeepsForest(t, out, {t.entries[place].child});
  }

  /** An inode loses its place but stays in the tree. */
  lemma DetachKeepsForest(t: Tree, out: Tree, place: Place)
    requires Forest(t) && place in t.entries && out == t.(entries := t.entries - {place})
    ensures Forest(out) && Up(out) == Up(t) - {t.entries[place].child} && !HasPlace(out, t.entries[place].child)
  {
    UpAfterDrop(t, out, place);
    CutKeepsForest(t, out, {t.entries[place].child});
  }

  lemma AttachKeepsWellformed(t: Tree, out: Tree, place: Place, child: Inode, display: string)
    requires Wellformed(t) && place !in t.entries && !HasPlace(t, child)
             && out == t.(entries := t.entries[place := Entry(child, display)])
    requires place.0 in t.nodes && t.nodes[place.0].directory && child in t.nodes && !t.nodes[child].pending
             && child != t.root
    ensures Wellformed(out)
  {
    forall p | p in t.entries
      ensures t.entries[p].child != child && out.entries[p] == t.entries[p]
    {
      assert HasPlace(t, t.entries[p].child);
    }
  }

  /** A placeless inode is hung under a directory whose climb avoids it. */
  lemma AttachKeepsForest(t: Tree, out: Tree, place: Place, child: Inode, display: string, k: nat)
    requires Forest(t) && place !in t.entries && !HasPlace(t, child)
             && out == t.(entries := t.entries[place := Entry(child, display)])
    requires place.0 in t.nodes && t.nodes[place.0].directory && child in t.nodes && !t.nodes[child].pending
             && child != t.root
    requires TopsAvoiding(Up(t), place.0, child, k)
    ensures Forest(out) && Up(out) == Up(t)[child := place.0]
  {
    AttachKeepsWellformed(t, out, place, child, display);
    assert out.nodes.Keys == t.nodes.Keys + {child};
    UpAfterPut(t, out, place, child, display);
    HangKeepsForest(t, out, child, place.0, k);
  }

  /** A rename in three steps: the victim dropped, the mover detached, the mover attached. */
  function AfterVictim(t: Tree, to: Place, moved: Inode, retain: bool): Tree {
    var victim := Victim(t, to, moved);
    if victim.Some? && victim.value in t.nodes
        then t.(nodes := Unlink(t.nodes, victim.value, retain), entries := t.entries - {to}) else t
  }

  predicate Displaceable(t: Tree, victim: Option<Inode>) {
    victim.Some? ==> victim.value in t.nodes && !(t.nodes[victim.value].directory && HasChildren(t, victim.value))
  }

  lemma VictimStep(t: Tree, from: Place, to: Place, retain: bool)
    requires Forest(t) && from in t.entries && to.0 in t.nodes && t.nodes[to.0].directory
    requires Displaceable(t, Victim(t, to, t.entries[from].child))
    ensures var moved := t.entries[from].child;
            var t1 := AfterVictim(t, to, moved, retain);
            && Forest(t1) && from in t1.entries && t1.entries[from] == t.entries[from]
            && to.0 in t1.nodes && t1.nodes[to.0] == t.nodes[to.0] && moved in t1.nodes
            && t1.nodes[moved] == t.nodes[moved]
            && (if Victim(t, to, moved).Some? then Up(t1) == Up(t) - {Victim(t, to, moved).value} else t1 == t)
  {
    var moved := t.entries[from].child;
    if Victim(t, to, moved).Some? {
      assert HasChildren(t, to.0);
      DropKeepsForest(t, AfterVictim(t, to, moved, retain), to, retain);
    }
  }

  lemma EntriesAgree(t: Tree, from: Place, to: Place, retain: bool, display: string)
    requires Wellformed(t) && from in t.entries && Displaceable(t, Victim(t, to, t.entries[from].child))
    ensures var moved := t.entries[from].child;
            var rest := AfterVictim(t, to, moved, retain).entries - {from};
            to !in rest && (t.entries - {from})[to := Entry(moved, display)] == rest[to := Entry(moved, display)]
  {
  }

  lemma MoverIsAvoided(cfg: Naming, t: Tree, m: Move) returns (k: nat)
    requires Forest(t) && Approved(cfg, t, m)
    ensures TopsAvoiding(Up(t), m.toParent, t.entries[(m.fromParent, cfg.fold(m.fromName).value)].child, k)
  {
    var moved := t.entries[(m.fromParent, cfg.fold(m.fromName).value)].child;
    if t.nodes[moved].directory {
      k := WalkIsSound(Up(t), m.toParent, moved, 0);
    } else {
      k :| Tops(Up(t), m.toParent, k);
      ClimbAvoidsFiles(t, m.toParent, moved, k);
    }
  }

  lemma RenameKeepsForest(cfg: Naming, t: Tree, m: Move)
    requires Forest(t) && RenameNode(cfg, t, m).Ok?
    ensures Forest(RenameNode(cfg, t, m).value.tree)
    ensures RenamedUp(t, RenameNode(cfg, t, m).value.tree, (m.fromParent, cfg.fold(m.fromName).value),
                      (m.toParent, cfg.fold(m.toName).value))
  {
    var from, to := (m.fromParent, cfg.fold(m.fromName).value), (m.toParent, cfg.fold(m.toName).value);
    var k := MoverIsAvoided(cfg, t, m);
    MoveKeepsForest(t, RenameNode(cfg, t, m).value.tree, from, to, m.retain, m.toName, k);
  }

  ghost predicate RenamedUp(t: Tree, out: Tree, from: Place, to: Place) {
    && from in t.entries
    && var moved := t.entries[from].child;
       var victim := Victim(t, to, moved);
       Up(out) == ((if victim.Some? then Up(t) - {victim.value} else Up(t)) - {moved})[moved := to.0]
  }

  /** Without a victim in the way, an entry can move to where the climb avoids its inode. */
  lemma ReattachKeepsForest(t: Tree, out: Tree, from: Place, to: Place, display: string, k: nat)
    requires Forest(t) && from in t.entries && to !in t.entries - {from} && to.0 in t.nodes && t.nodes[to.0].directory
    requires TopsAvoiding(Up(t), to.0, t.entries[from].child, k)
    requires out == t.(entries := (t.entries - {from})[to := Entry(t.entries[from].child, display)])
    ensures Forest(out) && Up(out) == (Up(t) - {t.entries[from].child})[t.entries[from].child := to.0]
  {
    var moved := t.entries[from].child;
    var t2 := t.(entries := t.entries - {from});
    DetachKeepsForest(t, t2, from);
    var n := AvoidingAfterCut(Up(t), {moved}, to.0, moved, k);
    AttachKeepsForest(t2, out, to, moved, display, n);
  }

  lemma MoveKeepsForest(t: Tree, out: Tree, from: Place, to: Place, retain: bool, display: string, k: nat)
    requires Forest(t) && from in t.entries && to.0 in t.nodes && t.nodes[to.0].directory
    requires Displaceable(t, Victim(t, to, t.entries[from].child))
    requires TopsAvoiding(Up(t), to.0, t.entries[from].child, k)
    requires out == AfterVictim(t, to, t.entries[from].child,
                                retain).(entries := (t.entries - {from})[to := Entry(t.entries[from].child, display)])
    ensures Forest(out) && RenamedUp(t, out, from, to)
  {
    var moved := t.entries[from].child;
    var t1 := AfterVictim(t, to, moved, retain);
    VictimStep(t, from, to, retain);
    EntriesAgree(t, from, to, retain, display);
    if Victim(t, to, moved).Some? {
      var n := AvoidingAfterCut(Up(t), {Victim(t, to, moved).value}, to.0, moved, k);
      ReattachKeepsForest(t1, out, from, to, display, n);
    } else {
      ReattachKeepsForest(t1, out, from, to, display, k);
    }
  }

  /** With the same entries the parent relation is the same, so climbs end as before. */
  lemma SameUp(t: Tree, out: Tree)
    requires Wellformed(t) && Wellformed(out) && out.entries == t.entries
    ensures Up(out) == Up(t)
  {
    forall i
      ensures i in Up(out) <==> i in Up(t)
      ensures i in Up(out) ==> Up(out)[i] == Up(t)[i]
    {
      if i in Up(t) { EntryIsUp(out, PlaceOf(t, i)); }
      if i in Up(out) { EntryIsUp(t, PlaceOf(out, i)); }
    }
  }

  lemma SameEntriesKeepForest(t: Tree, out: Tree)
    requires Forest(t) && Wellformed(out) && out.entries == t.entries && out.nodes.Keys <= t.nodes.Keys
    ensures Forest(out)
  {
    SameUp(t, out);
  }

  lemma SamePlaces(t: Tree, out: Tree)
    requires OneEntryPerChild(t) && out.entries == t.entries
    ensures OneEntryPerChild(out)
  {
    OneEntryIsUnique(t);
    OneEntryIsUnique(out);
  }

  lemma SameShapeKeepsForest(t: Tree, out: Tree)
    requires Forest(t) && out.entries == t.entries && out.root == t.root && out.nodes.Keys == t.nodes.Keys
    requires forall i :: i in t.nodes ==>
               out.nodes[i].directory == t.nodes[i].directory && out.nodes[i].pending == t.nodes[i].pending
    ensures Forest(out)
  {
    SamePlaces(t, out);
    SameEntriesKeepForest(t, out);
  }

  lemma FinalizeKeepsWellformed(t: Tree, inode: Inode)
    requires Wellformed(t) && FinalizeInode(t, inode).Ok?
    ensures Wellformed(FinalizeInode(t, inode).value.tree)
  {
    SamePlaces(t, FinalizeInode(t, inode).value.tree);
    forall p | p in t.entries && FinalizeInode(t, inode).value.tree != t
      ensures p.0 != inode && t.entries[p].child != inode
    {
      assert HasChildren(t, p.0);
    }
  }

  lemma FinalizeKeepsForest(t: Tree, inode: Inode)
    requires Forest(t) && FinalizeInode(t, inode).Ok?
    ensures Forest(FinalizeInode(t, inode).value.tree)
  {
    FinalizeKeepsWellformed(t, inode);
    SameEntriesKeepForest(t, FinalizeInode(t, inode).value.tree);
  }
}

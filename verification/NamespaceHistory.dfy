/**
 Runs of the namespace, and its history: each mutation appends its deltas to the open
 segment, each checkpoint snapshots the live inodes and opens the next segment
 (crates/mirage-db/src/namespace.rs:1708-1906).
 */
module NamespaceHistory {
  import opened Basics
  import opened Namespace

  datatype Act =
    | DoCreate(parent: Inode, name: string, directory: bool)
    | DoRename(m: Move)
    | DoDelete(parent: Inode, name: string, retain: bool)
    | DoSetRoots(inode: Inode, size: nat, versionRoot: Option<int>, extentRoot: Option<int>)
    | DoFinalize(inode: Inode)

  ghost function Perform(cfg: Naming, t: Tree, a: Act): Result<Change> {
    match a
    case DoCreate(parent, name, directory) => CreateNode(cfg, t, parent, name, directory)
    case DoRename(m) => RenameNode(cfg, t, m)
    case DoDelete(parent, name, retain) => DeleteNode(cfg, t, parent, name, retain)
    case DoSetRoots(inode, size, versionRoot, extentRoot) => SetFileRoots(t, inode, size, versionRoot, extentRoot)
    case DoFinalize(inode) => FinalizeInode(t, inode)
  }

  ghost function After(cfg: Naming, t: Tree, a: Act): Tree {
    var result := Perform(cfg, t, a);
    if result.Ok? then result.value.tree else t
  }

  ghost function AfterAll(cfg: Naming, t: Tree, acts: seq<Act>): Tree
    decreases |acts|
  {
    if |acts| == 0 then t else AfterAll(cfg, After(cfg, t, acts[0]), acts[1..])
  }

  // ----- Forest -----

  lemma ActKeepsForest(cfg: Naming, t: Tree, a: Act)
    requires Forest(t)
    ensures Forest(After(cfg, t, a))
  {
    if Perform(cfg, t, a).Ok? {
      match a
      case DoCreate(parent, name, directory) => CreateKeepsForest(cfg, t, parent, name, directory);
      case DoRename(m) => RenameKeepsForest(cfg, t, m);
      case DoDelete(parent, name, retain) =>
          DropKeepsForest(t, After(cfg, t, a), (parent, cfg.fold(name).value), retain);
      case DoSetRoots(_, _, _, _) => SameShapeKeepsForest(t, After(cfg, t, a));
      case DoFinalize(inode) => FinalizeKeepsForest(t, inode);
    }
  }

  /** The namespace stays a forest through every run: one place per inode, under directories, no cycle. */
  lemma {:induction false} ForestForever(cfg: Naming, t: Tree, acts: seq<Act>)
    requires Forest(t)
    ensures Forest(AfterAll(cfg, t, acts))
    ensures var end := AfterAll(cfg, t, acts);
            forall p, q :: p in end.entries && q in end.entries && end.entries[p].child == end.entries[q].child ==>
                p == q
    ensures forall x, k: nat :: x in AfterAll(cfg, t, acts).nodes && k > 0 ==>
              !Hits(Up(AfterAll(cfg, t, acts)), x, x, k)
    decreases |acts|
  {
    if |acts| != 0 {
      ActKeepsForest(cfg, t, acts[0]);
      ForestForever(cfg, After(cfg, t, acts[0]), acts[1..]);
    } else {
      OneEntryIsUnique(t);
      forall x, k: nat | x in t.nodes && k > 0
        ensures !Hits(Up(t), x, x, k)
      {
        var n: nat :| Tops(Up(t), x, n);
        GroundedMeansAcyclic(Up(t), x, n, k);
      }
    }
  }

  /** A directory is never moved into itself or anything below it, however deep the target lies. */
  lemma OwnSubtreeIsRefused(cfg: Naming, t: Tree, m: Move, n: nat)
    requires Approved(cfg, t, m) ==> t.nodes[t.entries[(m.fromParent, cfg.fold(m.fromName).value)].child].directory
                                     && Hits(Up(t), m.toParent,
                                             t.entries[(m.fromParent, cfg.fold(m.fromName).value)].child, n)
    ensures RenameNode(cfg, t, m).Err?
  {
    if Approved(cfg, t, m) {
      WalkIsComplete(Up(t), m.toParent, t.entries[(m.fromParent, cfg.fold(m.fromName).value)].child, 0, n);
    }
  }

  /** A rename changes the mover's place and nothing else about it, and leaves every other surviving inode alone. */
  lemma RenameKeepsIdentity(cfg: Naming, t: Tree, m: Move, i: Inode)
    requires Forest(t) && RenameNode(cfg, t, m).Ok?
    ensures var out := RenameNode(cfg, t, m).value.tree;
            var to := (m.toParent, cfg.fold(m.toName).value);
            var moved := t.entries[(m.fromParent, cfg.fold(m.fromName).value)].child;
            && moved in out.nodes && out.nodes[moved] == t.nodes[moved] && to in out.entries
            && out.entries[to] == Entry(moved, m.toName)
            && (i in t.nodes && Some(i) != Victim(t, to, moved) ==> i in out.nodes && out.nodes[i] == t.nodes[i])
            && (forall p :: p in t.entries && t.entries[p].child != moved
                            && Some(t.entries[p].child) != Victim(t, to, moved) ==>
                  p in out.entries && out.entries[p] == t.entries[p])
  {
    var to := (m.toParent, cfg.fold(m.toName).value);
    var from := (m.fromParent, cfg.fold(m.fromName).value);
    VictimStep(t, from, to, m.retain);
  }

  // ----- Reachability -----

  ghost predicate ReachesRoot(t: Tree, i: Inode) {
    exists n: nat :: Hits(Up(t), i, t.root, n)
  }

  ghost predicate AllReachRoot(t: Tree) {
    forall i :: i in t.nodes && !t.nodes[i].pending ==> ReachesRoot(t, i)
  }

  /** Every live inode but the root hangs under a live one. */
  ghost predicate LiveLinked(t: Tree) {
    forall i :: i in t.nodes && !t.nodes[i].pending && i != t.root ==>
      HasPlace(t, i) && PlaceOf(t, i).0 in t.nodes && !t.nodes[PlaceOf(t, i).0].pending
  }

  lemma {:induction false} LinkedClimbReaches(t: Tree, i: Inode, n: nat)
    requires Wellformed(t) && LiveLinked(t) && i in t.nodes && !t.nodes[i].pending && Tops(Up(t), i, n)
    ensures Hits(Up(t), i, t.root, n)
    decreases n
  {
    if i != t.root {
      LinkedClimbReaches(t, Up(t)[i], n - 1);
    }
  }

  /** Reaching the root is the same as being linked at every level. */
  lemma ReachIsLinked(t: Tree)
    requires Forest(t)
    ensures AllReachRoot(t) <==> LiveLinked(t)
  {
    if LiveLinked(t) {
      forall i | i in t.nodes && !t.nodes[i].pending
        ensures ReachesRoot(t, i)
      {
        var n: nat :| Tops(Up(t), i, n);
        LinkedClimbReaches(t, i, n);
      }
    }
    if AllReachRoot(t) {
      forall i | i in t.nodes && !t.nodes[i].pending && i != t.root
        ensures HasPlace(t, i) && PlaceOf(t, i).0 in t.nodes && !t.nodes[PlaceOf(t, i).0].pending
      {
        var n: nat :| Hits(Up(t), i, t.root, n);
        assert n > 0 && i in Up(t) && Hits(Up(t), Up(t)[i], t.root, n - 1);
        var above := Up(t)[i];
        assert PlaceOf(t, i) in t.entries;
        if above != t.root {
          assert PlaceOf(t, above) in t.entries;
        }
      }
    }
  }

  /** The directory an act hangs something under is not a tombstone. */
  predicate UnderLiveParent(t: Tree, a: Act) {
    match a
    case DoCreate(parent, _, _) => parent in t.nodes && !t.nodes[parent].pending
    case DoRename(m) => m.toParent in t.nodes && !t.nodes[m.toParent].pending
    case _ => true
  }

  // ----- The live view -----

  /** One node of a checkpoint document. */
  datatype Record = Record(parent: Option<Inode>, folded: string, display: string,
                           directory: bool, size: nat, versionRoot: Option<int>, extentRoot: Option<int>)

  type View = map<Inode, Record>

  ghost function RecordOf(t: Tree, i: Inode): Record
    requires i in t.nodes
  {
    var n := t.nodes[i];
    if HasPlace(t, i) then
      Record(Some(PlaceOf(t, i).0), PlaceOf(t, i).1, t.entries[PlaceOf(t, i)].display, n.directory, n.size,
             n.versionRoot, n.extentRoot)
    else
      Record(None, "", "", n.directory, n.size, n.versionRoot, n.extentRoot)
  }

  /** The rows a checkpoint scan selects: every inode that is not a tombstone. */
  ghost function LiveView(t: Tree): View {
    map i | i in t.nodes && !t.nodes[i].pending :: RecordOf(t, i)
  }

  function Replay(v: View, op: Op): View {
    match op
    case Create(parent, inode, display, folded, directory, size) =>
      v[inode := Record(Some(parent), folded, display, directory, size, None, None)]
    case Rename(inode, _, _, toParent, display, folded) =>
      if inode in v then v[inode := v[inode].(parent := Some(toParent), folded := folded, display := display)] else v
    case Delete(_, _, inode) => v - {inode}
    case SetRoots(inode, size, versionRoot, extentRoot) =>
      if inode in v then v[inode := v[inode].(size := size, versionRoot := versionRoot, extentRoot := extentRoot)]
          else v
  }

  function ReplayAll(v: View, ops: seq<Op>): View
    decreases |ops|
  {
    if |ops| == 0 then v else ReplayAll(Replay(v, ops[0]), ops[1..])
  }

  lemma {:induction false} ReplayConcat(v: View, a: seq<Op>, b: seq<Op>)
    ensures ReplayAll(v, a + b) == ReplayAll(ReplayAll(v, a), b)
    decreases |a|
  {
    if |a| == 0 {
      assert a + b == b;
    } else {
      assert (a + b)[1..] == a[1..] + b;
      ReplayConcat(Replay(v, a[0]), a[1..], b);
    }
  }

  // ----- Each act does to the live view what its deltas say -----

  /** Two trees that agree except about the inodes in `touched`. */
  ghost predicate SameElsewhere(t: Tree, out: Tree, touched: set<Inode>) {
    && Wellformed(t) && Wellformed(out)
    && (forall i :: i !in touched ==> (i in out.nodes <==> i in t.nodes))
    && (forall i :: i !in touched && i in t.nodes ==> out.nodes[i] == t.nodes[i])
    && (forall p :: p in t.entries && t.entries[p].child !in touched ==>
        p in out.entries && out.entries[p] == t.entries[p])
    && (forall p :: p in out.entries && out.entries[p].child !in touched ==>
        p in t.entries && t.entries[p] == out.entries[p])
  }

  lemma ViewElsewhere(t: Tree, out: Tree, touched: set<Inode>, i: Inode)
    requires SameElsewhere(t, out, touched) && i !in touched
    ensures i in LiveView(out) <==> i in LiveView(t)
    ensures i in LiveView(t) ==> LiveView(out)[i] == LiveView(t)[i]
    ensures HasPlace(out, i) == HasPlace(t, i)
    ensures HasPlace(t, i) ==> PlaceOf(out, i) == PlaceOf(t, i)
  {
    if HasPlace(t, i) {
      EntryIsUp(out, PlaceOf(t, i));
    }
  }

  lemma ViewPut(t: Tree, out: Tree, x: Inode)
    requires SameElsewhere(t, out, {x})
    ensures LiveView(out) == if x in LiveView(out) then LiveView(t)[x := LiveView(out)[x]] else LiveView(t) - {x}
  {
    forall i | i != x
      ensures i in LiveView(out) <==> i in LiveView(t)
      ensures i in LiveView(t) ==> LiveView(out)[i] == LiveView(t)[i]
    {
      ViewElsewhere(t, out, {x}, i);
    }
  }

  lemma CreateElsewhere(cfg: Naming, t: Tree, parent: Inode, name: string, directory: bool)
    requires Wellformed(t) && CreateNode(cfg, t, parent, name, directory).Ok?
    ensures SameElsewhere(t, CreateNode(cfg, t, parent, name, directory).value.tree, {cfg.identity(t.nextSequence)})
  {
    CreateKeepsWellformed(cfg, t, parent, name, directory);
  }

  lemma CreateIsReplayed(cfg: Naming, t: Tree, parent: Inode, name: string, directory: bool)
    requires Wellformed(t) && CreateNode(cfg, t, parent, name, directory).Ok?
    ensures var c := CreateNode(cfg, t, parent, name, directory).value;
            LiveView(c.tree) == ReplayAll(LiveView(t), c.ops)
  {
    var c := CreateNode(cfg, t, parent, name, directory).value;
    CreateElsewhere(cfg, t, parent, name, directory);
    EntryIsUp(c.tree, (parent, cfg.fold(name).value));
    ViewPut(t, c.tree, cfg.identity(t.nextSequence));
    assert c.ops[1..] == [];
  }

  lemma DropElsewhere(t: Tree, out: Tree, place: Place, retain: bool)
    requires Wellformed(t) && place in t.entries
    requires var i := t.entries[place].child;
             !(t.nodes[i].directory && HasChildren(t, i))
                 && out == t.(nodes := Unlink(t.nodes, i, retain), entries := t.entries - {place})
    ensures SameElsewhere(t, out, {t.entries[place].child}) && t.entries[place].child !in LiveView(out)
  {
    DropKeepsWellformed(t, out, place, retain);
  }

  lemma DropIsReplayed(t: Tree, out: Tree, place: Place, retain: bool)
    requires Wellformed(t) && place in t.entries
    requires var i := t.entries[place].child;
             !(t.nodes[i].directory && HasChildren(t, i))
                 && out == t.(nodes := Unlink(t.nodes, i, retain), entries := t.entries - {place})
    ensures LiveView(out) == LiveView(t) - {t.entries[place].child}
  {
    DropElsewhere(t, out, place, retain);
    ViewPut(t, out, t.entries[place].child);
  }

  /** The mover's record changes its place only. */
  lemma ReattachIsReplayed(t: Tree, out: Tree, from: Place, to: Place, display: string)
    requires Wellformed(t) && Wellformed(out) && from in t.entries && to !in t.entries - {from}
    requires out == t.(entries := (t.entries - {from})[to := Entry(t.entries[from].child, display)])
    ensures SameElsewhere(t, out, {t.entries[from].child})
    ensures LiveView(out) == Replay(LiveView(t), Rename(t.entries[from].child, from.0, from.1, to.0, display, to.1))
  {
    EntryIsUp(t, from);
    EntryIsUp(out, to);
    ViewPut(t, out, t.entries[from].child);
  }

  lemma RenameIsReplayed(cfg: Naming, t: Tree, m: Move)
    requires Forest(t) && RenameNode(cfg, t, m).Ok?
    ensures LiveView(RenameNode(cfg, t, m).value.tree) == ReplayAll(LiveView(t), RenameNode(cfg, t, m).value.ops)
  {
    var from, to := (m.fromParent, cfg.fold(m.fromName).value), (m.toParent, cfg.fold(m.toName).value);
    RenameKeepsForest(cfg, t, m);
    MoveIsReplayed(t, RenameNode(cfg, t, m).value, from, to, m.retain, m.toName);
  }

  lemma VictimIsReplayed(t: Tree, from: Place, to: Place, retain: bool)
    requires Wellformed(t) && from in t.entries && Displaceable(t, Victim(t, to, t.entries[from].child))
    ensures var moved := t.entries[from].child;
            LiveView(AfterVictim(t, to, moved, retain)) == ReplayAll(LiveView(t), DropOps(t, to, moved))
  {
    var moved := t.entries[from].child;
    if Victim(t, to, moved).Some? {
      DropIsReplayed(t, AfterVictim(t, to, moved, retain), to, retain);
      assert DropOps(t, to, moved)[1..] == [];
    }
  }

  function DropOps(t: Tree, to: Place, moved: Inode): seq<Op> {
    if Victim(t, to, moved).Some? then [Delete(to.0, to.1, Victim(t, to, moved).value)] else []
  }

  lemma MoveView(t: Tree, out: Tree, from: Place, to: Place, retain: bool, display: string)
    requires Forest(t) && Wellformed(out) && from in t.entries && to.0 in t.nodes && t.nodes[to.0].directory
    requires Displaceable(t, Victim(t, to, t.entries[from].child))
    requires var moved := t.entries[from].child;
             out == AfterVictim(t, to, moved, retain).(entries := (t.entries - {from})[to := Entry(moved, display)])
    ensures var moved := t.entries[from].child;
            LiveView(out)
                == Replay(LiveView(AfterVictim(t, to, moved, retain)),
                          Rename(moved, from.0, from.1, to.0, display, to.1))
  {
    VictimStep(t, from, to, retain);
    EntriesAgree(t, from, to, retain, display);
    ReattachIsReplayed(AfterVictim(t, to, t.entries[from].child, retain), out, from, to, display);
  }

  lemma MoveIsReplayed(t: Tree, c: Change, from: Place, to: Place, retain: bool, display: string)
    requires Forest(t) && Wellformed(c.tree) && from in t.entries && to.0 in t.nodes && t.nodes[to.0].directory
    requires Displaceable(t, Victim(t, to, t.entries[from].child))
    requires var moved := t.entries[from].child;
             && c.tree == AfterVictim(t, to, moved,
                                      retain).(entries := (t.entries - {from})[to := Entry(moved, display)])
             && c.ops == DropOps(t, to, moved) + [Rename(moved, from.0, from.1, to.0, display, to.1)]
    ensures LiveView(c.tree) == ReplayAll(LiveView(t), c.ops)
  {
    var moved := t.entries[from].child;
    var op := Rename(moved, from.0, from.1, to.0, display, to.1);
    MoveView(t, c.tree, from, to, retain, display);
    VictimIsReplayed(t, from, to, retain);
    ReplayConcat(LiveView(t), DropOps(t, to, moved), [op]);
    assert [op][1..] == [];
  }

  lemma SetRootsElsewhere(t: Tree, inode: Inode, size: nat, versionRoot: Option<int>, extentRoot: Option<int>)
    requires Forest(t) && SetFileRoots(t, inode, size, versionRoot, extentRoot).Ok?
    ensures SameElsewhere(t, SetFileRoots(t, inode, size, versionRoot, extentRoot).value.tree, {inode})
  {
    SameShapeKeepsForest(t, SetFileRoots(t, inode, size, versionRoot, extentRoot).value.tree);
  }

  lemma SetRootsIsReplayed(t: Tree, inode: Inode, size: nat, versionRoot: Option<int>, extentRoot: Option<int>)
    requires Forest(t) && SetFileRoots(t, inode, size, versionRoot, extentRoot).Ok?
    ensures var c := SetFileRoots(t, inode, size, versionRoot, extentRoot).value;
            LiveView(c.tree) == ReplayAll(LiveView(t), c.ops)
  {
    var c := SetFileRoots(t, inode, size, versionRoot, extentRoot).value;
    SetRootsElsewhere(t, inode, size, versionRoot, extentRoot);
    SamePlace(t, c.tree, inode);
    ViewPut(t, c.tree, inode);
    assert c.ops[1..] == [];
  }

  lemma SamePlace(t: Tree, out: Tree, i: Inode)
    requires Wellformed(t) && Wellformed(out) && out.entries == t.entries
    ensures HasPlace(out, i) == HasPlace(t, i)
    ensures HasPlace(t, i) ==> PlaceOf(out, i) == PlaceOf(t, i)
  {
    if HasPlace(t, i) { EntryIsUp(out, PlaceOf(t, i)); }
  }

  lemma FinalizeIsSilent(t: Tree, inode: Inode)
    requires Forest(t) && FinalizeInode(t, inode).Ok?
    ensures LiveView(FinalizeInode(t, inode).value.tree) == LiveView(t)
  {
    var out := FinalizeInode(t, inode).value.tree;
    FinalizeKeepsForest(t, inode);
    if out != t { ViewPut(t, out, inode); }
  }

  lemma ActIsReplayed(cfg: Naming, t: Tree, a: Act)
    requires Forest(t) && Perform(cfg, t, a).Ok?
    ensures LiveView(Perform(cfg, t, a).value.tree) == ReplayAll(LiveView(t), Perform(cfg, t, a).value.ops)
  {
    match a
    case DoCreate(parent, name, directory) => CreateIsReplayed(cfg, t, parent, name, directory);
    case DoRename(m) => RenameIsReplayed(cfg, t, m);
    case DoDelete(parent, name, retain) =>
      DropIsReplayed(t, Perform(cfg, t, a).value.tree, (parent, cfg.fold(name).value), retain);
      assert ReplayAll(LiveView(t), Perform(cfg, t, a).value.ops)
             == Replay(LiveView(t), Perform(cfg, t, a).value.ops[0]);
    case DoSetRoots(inode, size, versionRoot, extentRoot) =>
        SetRootsIsReplayed(t, inode, size, versionRoot, extentRoot);
    case DoFinalize(inode) => FinalizeIsSilent(t, inode);
  }

  // ----- Reachability is kept exactly by acts under live parents -----

  ghost predicate LinkedAt(t: Tree, i: Inode) {
    i in t.nodes && !t.nodes[i].pending && i != t.root ==>
      HasPlace(t, i) && PlaceOf(t, i).0 in t.nodes && !t.nodes[PlaceOf(t, i).0].pending
  }

  lemma LinkedElsewhere(t: Tree, out: Tree, x: Inode, i: Inode)
    requires SameElsewhere(t, out, {x}) && out.root == t.root && LinkedAt(t, i) && i != x
    requires HasChildren(t, x) ==> x in t.nodes && x in out.nodes && out.nodes[x].pending == t.nodes[x].pending
    ensures LinkedAt(out, i)
  {
    ViewElsewhere(t, out, {x}, i);
    if HasPlace(t, i) {
      assert PlaceOf(t, i).0 == x ==> HasChildren(t, x);
    }
  }

  /** When only `x` changes and does not die above its children, the links survive exactly when that of `x` does. */
  lemma LinkedAfter(t: Tree, out: Tree, x: Inode)
    requires SameElsewhere(t, out, {x}) && out.root == t.root && LiveLinked(t)
    requires HasChildren(t, x) ==> x in t.nodes && x in out.nodes && out.nodes[x].pending == t.nodes[x].pending
    ensures LiveLinked(out) <==> LinkedAt(out, x)
  {
    if LinkedAt(out, x) {
      forall i | i in out.nodes && !out.nodes[i].pending && i != out.root
        ensures LinkedAt(out, i)
      {
        if i != x { LinkedElsewhere(t, out, x, i); }
      }
    }
  }

  lemma CreateReach(cfg: Naming, t: Tree, parent: Inode, name: string, directory: bool)
    requires Forest(t) && LiveLinked(t) && CreateNode(cfg, t, parent, name, directory).Ok?
    ensures LiveLinked(CreateNode(cfg, t, parent, name, directory).value.tree) <==> !t.nodes[parent].pending
  {
    var out := CreateNode(cfg, t, parent, name, directory).value.tree;
    CreateElsewhere(cfg, t, parent, name, directory);
    EntryIsUp(out, (parent, cfg.fold(name).value));
    LinkedAfter(t, out, cfg.identity(t.nextSequence));
  }

  lemma DropReach(t: Tree, out: Tree, place: Place, retain: bool)
    requires Wellformed(t) && LiveLinked(t) && place in t.entries
    requires var i := t.entries[place].child;
             !(t.nodes[i].directory && HasChildren(t, i))
                 && out == t.(nodes := Unlink(t.nodes, i, retain), entries := t.entries - {place})
    ensures LiveLinked(out)
  {
    DropElsewhere(t, out, place, retain);
    LinkedAfter(t, out, t.entries[place].child);
  }

  lemma ReattachReach(t: Tree, out: Tree, from: Place, to: Place, display: string)
    requires Wellformed(t) && Wellformed(out) && LiveLinked(t) && from in t.entries && to !in t.entries - {from}
             && to.0 in t.nodes
    requires out == t.(entries := (t.entries - {from})[to := Entry(t.entries[from].child, display)])
    ensures LiveLinked(out) <==> !t.nodes[to.0].pending
  {
    ReattachIsReplayed(t, out, from, to, display);
    EntryIsUp(out, to);
    LinkedAfter(t, out, t.entries[from].child);
  }

  lemma MoveReach(t: Tree, out: Tree, from: Place, to: Place, retain: bool, display: string)
    requires Forest(t) && LiveLinked(t) && Wellformed(out) && from in t.entries && to.0 in t.nodes
             && t.nodes[to.0].directory
    requires Displaceable(t, Victim(t, to, t.entries[from].child))
    requires var moved := t.entries[from].child;
             out == AfterVictim(t, to, moved, retain).(entries := (t.entries - {from})[to := Entry(moved, display)])
    ensures LiveLinked(out) <==> !t.nodes[to.0].pending
  {
    var t1 := AfterVictim(t, to, t.entries[from].child, retain);
    VictimStep(t, from, to, retain);
    EntriesAgree(t, from, to, retain, display);
    if t1 != t { DropReach(t, t1, to, retain); }
    ReattachReach(t1, out, from, to, display);
  }

  lemma RenameReach(cfg: Naming, t: Tree, m: Move)
    requires Forest(t) && LiveLinked(t) && RenameNode(cfg, t, m).Ok?
    ensures LiveLinked(RenameNode(cfg, t, m).value.tree) <==> !t.nodes[m.toParent].pending
  {
    var from, to := (m.fromParent, cfg.fold(m.fromName).value), (m.toParent, cfg.fold(m.toName).value);
    RenameKeepsForest(cfg, t, m);
    MoveReach(t, RenameNode(cfg, t, m).value.tree, from, to, m.retain, m.toName);
  }

  lemma SetRootsReach(t: Tree, inode: Inode, size: nat, versionRoot: Option<int>, extentRoot: Option<int>)
    requires Forest(t) && LiveLinked(t) && SetFileRoots(t, inode, size, versionRoot, extentRoot).Ok?
    ensures LiveLinked(SetFileRoots(t, inode, size, versionRoot, extentRoot).value.tree)
  {
    var out := SetFileRoots(t, inode, size, versionRoot, extentRoot).value.tree;
    SetRootsElsewhere(t, inode, size, versionRoot, extentRoot);
    SamePlace(t, out, inode);
    assert LinkedAt(t, inode);
    LinkedAfter(t, out, inode);
  }

  lemma FinalizeReach(t: Tree, inode: Inode)
    requires Forest(t) && LiveLinked(t) && FinalizeInode(t, inode).Ok?
    ensures LiveLinked(FinalizeInode(t, inode).value.tree)
  {
    FinalizeKeepsForest(t, inode);
    if FinalizeInode(t, inode).value.tree != t { LinkedAfter(t, FinalizeInode(t, inode).value.tree, inode); }
  }

  /**
   A successful act keeps every live inode reachable exactly when what it hangs something under is
   not a tombstone.
   */
  lemma ReachKeptExactlyWhen(cfg: Naming, t: Tree, a: Act)
    requires Forest(t) && AllReachRoot(t) && Perform(cfg, t, a).Ok?
    ensures AllReachRoot(Perform(cfg, t, a).value.tree) <==> UnderLiveParent(t, a)
  {
    ReachIsLinked(t);
    ActKeepsForest(cfg, t, a);
    ReachIsLinked(Perform(cfg, t, a).value.tree);
    match a
    case DoCreate(parent, name, directory) => CreateReach(cfg, t, parent, name, directory);
    case DoRename(m) => RenameReach(cfg, t, m);
    case DoDelete(parent, name, retain) =>
        DropReach(t, Perform(cfg, t, a).value.tree, (parent, cfg.fold(name).value), retain);
    case DoSetRoots(inode, size, versionRoot, extentRoot) => SetRootsReach(t, inode, size, versionRoot, extentRoot);
    case DoFinalize(inode) => FinalizeReach(t, inode);
  }

  ghost predicate NeverUnderTombstone(cfg: Naming, t: Tree, acts: seq<Act>)
    decreases |acts|
  {
    |acts| > 0 ==>
      && (Perform(cfg, t, acts[0]).Ok? ==> UnderLiveParent(t, acts[0]))
      && NeverUnderTombstone(cfg, After(cfg, t, acts[0]), acts[1..])
  }

  lemma {:induction false} ReachForever(cfg: Naming, t: Tree, acts: seq<Act>)
    requires Forest(t) && AllReachRoot(t) && NeverUnderTombstone(cfg, t, acts)
    ensures AllReachRoot(AfterAll(cfg, t, acts))
    decreases |acts|
  {
    if |acts| != 0 {
      ActKeepsForest(cfg, t, acts[0]);
      if Perform(cfg, t, acts[0]).Ok? { ReachKeptExactlyWhen(cfg, t, acts[0]); }
      ReachForever(cfg, After(cfg, t, acts[0]), acts[1..]);
    }
  }

  /** A volume holding its root and, when `d` is given, a tombstoned directory. */
  function Bare(root: Inode, tombstone: Option<Inode>, nextSequence: nat): Tree {
    var top := map[root := Node(true, 0, None, None, false)];
    Tree(root, if tombstone.Some? then top[tombstone.value := Node(true, 0, None, None, true)] else top, map[],
         nextSequence)
  }

  lemma BareIsOk(root: Inode, tombstone: Option<Inode>, nextSequence: nat)
    requires tombstone != Some(root)
    ensures Forest(Bare(root, tombstone, nextSequence)) && AllReachRoot(Bare(root, tombstone, nextSequence))
  {
    var t := Bare(root, tombstone, nextSequence);
    forall i | i in t.nodes
      ensures Grounded(Up(t), i)
    {
      assert Tops(Up(t), i, 0);
    }
    assert Hits(Up(t), root, root, 0);
  }

  lemma MakeAndUnlink(cfg: Naming, root: Inode)
    requires cfg.identity(0) != root && cfg.fold("d") == Some("d")
    ensures AfterAll(cfg, Bare(root, None, 0), [DoCreate(root, "d", true), DoDelete(root, "d", true)])
            == Bare(root, Some(cfg.identity(0)), 1)
  {
    var d, t := cfg.identity(0), Bare(root, None, 0);
    var a0, a1 := DoCreate(root, "d", true), DoDelete(root, "d", true);
    var t1 := After(cfg, t, a0);
    assert t1 == Tree(root, t.nodes[d := Node(true, 0, None, None, false)], map[(root, "d") := Entry(d, "d")], 1);
    assert !HasChildren(t1, d);
    assert After(cfg, t1, a1) == Bare(root, Some(d), 1);
    assert AfterAll(cfg, t1, [a1]) == AfterAll(cfg, After(cfg, t1, a1), []);
    assert [a0, a1][1..] == [a1];
  }

  /** Make a directory, delete it while a handle keeps it, create inside it: the new file is live and unreachable. */
  lemma TombstoneParentLosesAFile(cfg: Naming, root: Inode)
    requires cfg.identity(0) != root && cfg.identity(1) != root && cfg.identity(0) != cfg.identity(1)
    requires cfg.fold("d") == Some("d")
    ensures Forest(Bare(root, None, 0)) && AllReachRoot(Bare(root, None, 0))
    ensures var t := AfterAll(cfg, Bare(root, None, 0), [DoCreate(root, "d", true), DoDelete(root, "d", true)]);
            var a := DoCreate(cfg.identity(0), "d", false);
            Perform(cfg, t, a).Ok? && !AllReachRoot(After(cfg, t, a))
  {
    var t := Bare(root, Some(cfg.identity(0)), 1);
    BareIsOk(root, None, 0);
    BareIsOk(root, Some(cfg.identity(0)), 1);
    MakeAndUnlink(cfg, root);
    ReachKeptExactlyWhen(cfg, t, DoCreate(cfg.identity(0), "d", false));
  }

  // ----- Checkpoints and segments -----

  /** `segments[0]` precedes the first checkpoint; `segments[k]` is written against `checkpoints[k - 1]`. */
  datatype Store = Store(tree: Tree, checkpoints: seq<View>, segments: seq<seq<Op>>)

  datatype Event = Mutate(act: Act) | Checkpoint

  ghost function Step(cfg: Naming, s: Store, e: Event): Store
    requires |s.segments| > 0
  {
    match e
    case Mutate(act) =>
      var result := Perform(cfg, s.tree, act);
      if result.Err? then s else Appended(s, result.value.tree, result.value.ops)
    case Checkpoint => s.(checkpoints := s.checkpoints + [LiveView(s.tree)], segments := s.segments + [[]])
  }

  ghost predicate Recorded(s: Store) {
    && Forest(s.tree)
    && |s.segments| == |s.checkpoints| + 1
    && (forall k :: 0 < k < |s.checkpoints| ==> s.checkpoints[k] == ReplayAll(s.checkpoints[k - 1], s.segments[k]))
    && (|s.checkpoints| > 0 ==>
        LiveView(s.tree) == ReplayAll(s.checkpoints[|s.checkpoints| - 1], s.segments[|s.checkpoints|]))
  }

  ghost function Run(cfg: Naming, s: Store, events: seq<Event>): Store
    requires Recorded(s)
    ensures Recorded(Run(cfg, s, events))
    decreases |events|
  {
    if |events| == 0 then s
    else
      StepKeepsRecord(cfg, s, events[0]);
      Run(cfg, Step(cfg, s, events[0]), events[1..])
  }

  function Appended(s: Store, tree: Tree, ops: seq<Op>): Store
    requires |s.segments| > 0
  {
    var open := |s.segments| - 1;
    s.(tree := tree, segments := s.segments[open := s.segments[open] + ops])
  }

  lemma AppendKeepsRecord(s: Store, tree: Tree, ops: seq<Op>)
    requires Recorded(s) && Forest(tree) && LiveView(tree) == ReplayAll(LiveView(s.tree), ops)
    ensures Recorded(Appended(s, tree, ops))
  {
    if |s.checkpoints| > 0 {
      ReplayConcat(s.checkpoints[|s.checkpoints| - 1], s.segments[|s.checkpoints|], ops);
    }
  }

  lemma StepKeepsRecord(cfg: Naming, s: Store, e: Event)
    requires Recorded(s)
    ensures Recorded(Step(cfg, s, e))
  {
    match e
    case Checkpoint =>
    case Mutate(act) =>
      var result := Perform(cfg, s.tree, act);
      if result.Ok? {
        ActKeepsForest(cfg, s.tree, act);
        ActIsReplayed(cfg, s.tree, act);
        AppendKeepsRecord(s, result.value.tree, result.value.ops);
      }
  }

  /** All deltas recorded since checkpoint `k`. */
  function Since(s: Store, k: nat): seq<Op>
    requires |s.segments| == |s.checkpoints| + 1 && k < |s.checkpoints|
    decreases |s.checkpoints| - k
  {
    s.segments[k + 1] + if k + 1 < |s.checkpoints| then Since(s, k + 1) else []
  }

  /** Any checkpoint, however old, replayed with everything recorded since gives the live view. */
  lemma {:induction false} AnyCheckpointRecovers(s: Store, k: nat)
    requires Recorded(s) && k < |s.checkpoints|
    ensures ReplayAll(s.checkpoints[k], Since(s, k)) == LiveView(s.tree)
    decreases |s.checkpoints| - k
  {
    if k + 1 < |s.checkpoints| {
      AnyCheckpointRecovers(s, k + 1);
      ReplayConcat(s.checkpoints[k], s.segments[k + 1], Since(s, k + 1));
    } else {
      assert s.segments[k + 1] + [] == s.segments[k + 1];
    }
  }

  /** From the empty history on: after every run, every checkpoint taken recovers the live view. */
  lemma HistoryRecovers(cfg: Naming, t: Tree, events: seq<Event>, k: nat)
    requires Forest(t)
    requires k < |Run(cfg, Store(t, [], [[]]), events).checkpoints|
    ensures var s := Run(cfg, Store(t, [], [[]]), events);
            ReplayAll(s.checkpoints[k], Since(s, k)) == LiveView(s.tree)
  {
    AnyCheckpointRecovers(Run(cfg, Store(t, [], [[]]), events), k);
  }

  // ----- The tables, updated in place -----

  class Volume {
    const cfg: Naming
    const root: Inode
    var nodes: map<Inode, Node>
    var entries: map<Place, Entry>
    var nextSequence: nat
    var checkpoints: seq<View>
    var segments: seq<seq<Op>>

    ghost function Live(): Tree
      reads this
    {
      Tree(root, nodes, entries, nextSequence)
    }

    ghost function State(): Store
      reads this
    {
      Store(Live(), checkpoints, segments)
    }

    ghost predicate Valid()
      reads this
    {
      Recorded(State())
    }

    constructor (cfg: Naming, root: Inode)
      ensures Valid() && this.cfg == cfg && this.root == root && checkpoints == []
      ensures Live() == Bare(root, None, 0)
    {
      this.cfg, this.root := cfg, root;
      nodes, entries, nextSequence := map[root := Node(true, 0, None, None, false)], map[], 0;
      checkpoints, segments := [], [[]];
      new;
      BareIsOk(root, None, 0);
      assert Live() == Bare(root, None, 0);
    }

    /** The `SELECT parent_inode` of the ancestor walk. */
    method Parent(x: Inode) returns (up: Option<Inode>)
      requires Valid() && x in nodes
      ensures up == if x in Up(Live()) then Some(Up(Live())[x]) else None
      ensures up.Some? ==> up.value in nodes
    {
      if p :| p in entries && entries[p].child == x {
        EntryIsUp(Live(), p);
        up := Some(p.0);
      } else {
        up := None;
      }
    }

    /** Climbs from `start`; meeting `target` or running past the bound refuses the move. */
    method CheckAncestors(start: Inode, target: Inode) returns (walked: Walked)
      requires Valid() && start in nodes
      ensures walked == Walk(Up(Live()), start, target, 0)
    {
      var ancestor, hops := start, 0;
      while true
        invariant hops < MAX_RENAME_DEPTH && ancestor in nodes
        invariant Walk(Up(Live()), ancestor, target, hops) == Walk(Up(Live()), start, target, 0)
        decreases MAX_RENAME_DEPTH - hops
      {
        if ancestor == target { return Cycle; }
        var up := Parent(ancestor);
        if up.None? { return Clear; }
        ancestor := up.value;
        hops := hops + 1;
        if hops >= MAX_RENAME_DEPTH { return TooDeep; }
      }
    }

    /** Appends to the newest segment. */
    method RecordDelta(op: Op)
      requires |segments| > 0
      modifies this`segments
      ensures State() == Appended(old(State()), Live(), [op])
    {
      var open := |segments| - 1;
      segments := segments[open := segments[open] + [op]];
    }

    method Create(parent: Inode, name: string, directory: bool) returns (ok: bool)
      requires Valid()
      modifies this
      ensures Valid() && State() == Step(cfg, old(State()), Mutate(DoCreate(parent, name, directory)))
      ensures ok == Perform(cfg, old(Live()), DoCreate(parent, name, directory)).Ok?
    {
      StepKeepsRecord(cfg, State(), Mutate(DoCreate(parent, name, directory)));
      ok := InsertRows(parent, name, directory);
    }

    method InsertRows(parent: Inode, name: string, directory: bool) returns (ok: bool)
      requires |segments| > 0
      modifies this
      ensures State() == Step(cfg, old(State()), Mutate(DoCreate(parent, name, directory)))
      ensures ok == CreateNode(cfg, old(Live()), parent, name, directory).Ok?
    {
      var folded := cfg.fold(name);
      if folded.None? || parent !in nodes || !nodes[parent].directory { return false; }
      var inode := cfg.identity(nextSequence);
      if inode in nodes || (parent, folded.value) in entries { return false; }
      nextSequence := nextSequence + 1;
      nodes := nodes[inode := Node(directory, 0, None, None, false)];
      entries := entries[(parent, folded.value) := Entry(inode, name)];
      RecordDelta(Namespace.Create(parent, inode, name, folded.value, directory, 0));
      ok := true;
    }

    method Delete(parent: Inode, name: string, retain: bool) returns (ok: bool)
      requires Valid()
      modifies this
      ensures Valid() && State() == Step(cfg, old(State()), Mutate(DoDelete(parent, name, retain)))
      ensures ok == Perform(cfg, old(Live()), DoDelete(parent, name, retain)).Ok?
    {
      StepKeepsRecord(cfg, State(), Mutate(DoDelete(parent, name, retain)));
      ok := DeleteRows(parent, name, retain);
    }

    method DeleteRows(parent: Inode, name: string, retain: bool) returns (ok: bool)
      requires |segments| > 0
      modifies this
      ensures State() == Step(cfg, old(State()), Mutate(DoDelete(parent, name, retain)))
      ensures ok == DeleteNode(cfg, old(Live()), parent, name, retain).Ok?
    {
      var folded := cfg.fold(name);
      if folded.None? || (parent, folded.value) !in entries { return false; }
      var inode := entries[(parent, folded.value)].child;
      if inode !in nodes { return false; }
      if nodes[inode].directory && HasChildren(Tree(root, nodes, entries, nextSequence), inode) { return false; }
      entries := entries - {(parent, folded.value)};
      nodes := Unlink(nodes, inode, retain);
      RecordDelta(Namespace.Delete(parent, folded.value, inode));
      ok := true;
    }

    method SetRoots(inode: Inode, size: nat, versionRoot: Option<int>, extentRoot: Option<int>) returns (ok: bool)
      requires Valid()
      modifies this
      ensures Valid() && State() == Step(cfg, old(State()), Mutate(DoSetRoots(inode, size, versionRoot, extentRoot)))
      ensures ok == Perform(cfg, old(Live()), DoSetRoots(inode, size, versionRoot, extentRoot)).Ok?
    {
      StepKeepsRecord(cfg, State(), Mutate(DoSetRoots(inode, size, versionRoot, extentRoot)));
      if size > I64_MAX || inode !in nodes || nodes[inode].directory { return false; }
      nodes := nodes[inode := nodes[inode].(size := size, versionRoot := versionRoot, extentRoot := extentRoot)];
      RecordDelta(Namespace.SetRoots(inode, size, versionRoot, extentRoot));
      ok := true;
    }

    /** The first half of a rename: everything that is checked before a row changes. */
    method Approve(m: Move) returns (plan: Option<(Place, Place)>)
      requires Valid()
      ensures plan.Some? <==> Approved(cfg, Live(), m)
      ensures plan.Some? ==>
                plan.value == ((m.fromParent, cfg.fold(m.fromName).value), (m.toParent, cfg.fold(m.toName).value))
    {
      var from, to := cfg.fold(m.fromName), cfg.fold(m.toName);
      if from.None? || to.None? || (m.fromParent, from.value) !in entries { return None; }
      if m.toParent !in nodes || !nodes[m.toParent].directory { return None; }
      var moved := entries[(m.fromParent, from.value)].child;
      if nodes[moved].directory {
        var walked := CheckAncestors(m.toParent, moved);
        if walked != Clear { return None; }
      }
      plan := Some(((m.fromParent, from.value), (m.toParent, to.value)));
    }

    method Rename(m: Move) returns (ok: bool)
      requires Valid()
      modifies this
      ensures Valid() && State() == Step(cfg, old(State()), Mutate(DoRename(m)))
      ensures ok == Perform(cfg, old(Live()), DoRename(m)).Ok?
    {
      StepKeepsRecord(cfg, State(), Mutate(DoRename(m)));
      var plan := Approve(m);
      if plan.None? { return false; }
      ok := MoveRows(m, plan.value.0, plan.value.1);
    }

    method MoveRows(m: Move, from: Place, to: Place) returns (ok: bool)
      requires |segments| > 0 && Approved(cfg, Live(), m)
      requires from == (m.fromParent, cfg.fold(m.fromName).value) && to == (m.toParent, cfg.fold(m.toName).value)
      modifies this
      ensures State() == Step(cfg, old(State()), Mutate(DoRename(m)))
      ensures ok == RenameNode(cfg, old(Live()), m).Ok?
    {
      var moved := entries[from].child;
      var victim := Victim(Tree(root, nodes, entries, nextSequence), to, moved);
      if m.expected.Some? && m.expected.value != victim { return false; }
      if victim.Some? {
        if victim.value !in nodes { return false; }
        if nodes[victim.value].directory
            && HasChildren(Tree(root, nodes, entries, nextSequence), victim.value) { return false; }
        if !m.replace { return false; }
        nodes := Unlink(nodes, victim.value, m.retain);
        RecordDelta(Namespace.Delete(to.0, to.1, victim.value));
      }
      entries := (entries - {from})[to := Entry(moved, m.toName)];
      RecordDelta(Namespace.Rename(moved, from.0, from.1, to.0, m.toName, to.1));
      ok := true;
      assert segments[|segments| - 1] == old(segments[|segments| - 1]) + RenameNode(cfg, old(Live()), m).value.ops;
    }

    /** One row of the checkpoint scan: the inode joined with its entry, if it has one. */
    method Scan(i: Inode) returns (row: Record)
      requires Valid() && i in nodes
      ensures row == RecordOf(Live(), i)
    {
      var n := nodes[i];
      if p :| p in entries && entries[p].child == i {
        EntryIsUp(Live(), p);
        row := Record(Some(p.0), p.1, entries[p].display, n.directory, n.size, n.versionRoot, n.extentRoot);
      } else {
        row := Record(None, "", "", n.directory, n.size, n.versionRoot, n.extentRoot);
      }
    }

    method Snapshot() returns (document: View)
      requires Valid()
      ensures document == LiveView(Live())
    {
      var left := set i | i in nodes && !nodes[i].pending;
      document := map[];
      while left != {}
        invariant forall i :: i in left ==> i in nodes && !nodes[i].pending
        invariant forall i :: i in nodes && !nodes[i].pending ==> i in left || i in document
        invariant forall i :: i in document ==> i in LiveView(Live()) && document[i] == LiveView(Live())[i]
        decreases left
      {
        var i :| i in left;
        var row := Scan(i);
        document := document[i := row];
        left := left - {i};
      }
    }

    method CreateCheckpoint()
      requires Valid()
      modifies this`checkpoints, this`segments
      ensures Valid() && State() == Step(cfg, old(State()), Checkpoint)
    {
      StepKeepsRecord(cfg, State(), Checkpoint);
      var document := Snapshot();
      checkpoints := checkpoints + [document];
      segments := segments + [[]];
    }
  }
}

/**
 The payload ledger (crates/mirage-db/src: extent.rs, operation.rs, physical.rs,
 payload_remote.rs). Versioned byte extents reference journal payloads; a payload's bytes
 are local while its physical extent is alive and remote once it is published. Every call
 is one transaction: an error leaves the ledger as it was.
 */
module PayloadLedger {
  import opened Basics

  /** 16-byte identifiers: volumes, inodes, extents, payloads, files, operations. */
  datatype Id = Id(value: int)

  datatype Kind = Base | Dirty | Zero

  datatype Extent = Extent(volume: Id, inode: Id, version: nat, start: nat, length: nat, kind: Kind,
                           pageHash: Option<PageHash>, baseOffset: Option<nat>, payload: Option<Id>,
                               payloadOffset: Option<nat>)

  datatype Head = Head(version: nat, eof: nat)

  datatype Residency = Reserved | Alive | Dead

  datatype Physical = Physical(file: Id, slot: nat, length: nat, state: Residency, pins: nat)

  datatype Status = Pending | Committed | Flushed | Published | Reclaimed

  datatype Operation = Operation(volume: Id, seqNo: int, status: Status)

  datatype PayloadRecord = PayloadRecord(operation: Id, flushed: bool)

  datatype Ledger = Ledger(
    rows: map<Id, Extent>,                  // byte_extents
    heads: map<(Id, Id), Head>,             // byte_extent_heads, by volume and inode
    physical: map<Id, Physical>,            // physical_extents; a payload's extent carries its id
    leases: map<Id, int>,                   // physical_reservations: expiry
    published: map<Id, Id>,                 // payload_remote_objects: volume by payload
    operations: map<Id, Operation>,         // local_operations
    payloads: map<Id, PayloadRecord>)       // operation_payloads

  // ----- Extents -----

  predicate Coherent(e: Extent) {
    && e.length != 0
    && match e.kind
       case Base => e.pageHash.Some? && e.baseOffset.Some? && e.payload.None? && e.payloadOffset.None?
       case Dirty => e.payload.Some? && e.payloadOffset.Some? && e.pageHash.None? && e.baseOffset.None?
       case Zero => e.pageHash.None? && e.baseOffset.None? && e.payload.None? && e.payloadOffset.None?
  }

  /** The extent set of one inode version, as a caller submits it. */
  datatype Mutation = Mutation(volume: Id, inode: Id, version: nat, eof: nat, extents: seq<(Id, Extent)>)

  predicate Submittable(m: Mutation) {
    && (forall k :: 0 <= k < |m.extents| ==>
        Coherent(m.extents[k].1) && m.extents[k].1.volume == m.volume && m.extents[k].1.inode == m.inode)
    && (forall k :: 0 < k < |m.extents| ==>
        m.extents[k - 1].1.start + m.extents[k - 1].1.length <= m.extents[k].1.start)
  }

  predicate WithinEof(m: Mutation) {
    forall k :: 0 <= k < |m.extents| ==> m.extents[k].1.start + m.extents[k].1.length <= m.eof
  }

  function Referenced(rows: map<Id, Extent>): set<Id> {
    set id | id in rows && rows[id].payload.Some? :: rows[id].payload.value
  }

  function ReferencedBy(m: Mutation): set<Id> {
    set k | 0 <= k < |m.extents| && m.extents[k].1.payload.Some? :: m.extents[k].1.payload.value
  }

  /** Rows of other versions stay; an id that is already taken refuses the insert. */
  function InsertAll(rows: map<Id, Extent>, m: Mutation, k: nat): (out: Option<map<Id, Extent>>)
    requires k <= |m.extents|
    decreases |m.extents| - k
  {
    if k == |m.extents| then Some(rows)
    else if m.extents[k].0 in rows then None
    else InsertAll(rows[m.extents[k].0 := m.extents[k].1.(version := m.version)], m, k + 1)
  }

  function Without(rows: map<Id, Extent>, m: Mutation): map<Id, Extent> {
    map id | id in rows
        && !(rows[id].volume == m.volume && rows[id].inode == m.inode && rows[id].version == m.version) :: rows[id]
  }

  /** The head only moves up. */
  function RaiseHead(heads: map<(Id, Id), Head>, m: Mutation): map<(Id, Id), Head> {
    var key := (m.volume, m.inode);
    if key in heads && m.version <= heads[key].version then heads else heads[key := Head(m.version, m.eof)]
  }

  function Replace(l: Ledger, m: Mutation): Result<Ledger> {
    if !Submittable(m) then Err
    else
      match InsertAll(Without(l.rows, m), m, 0)
      case None => Err
      case Some(rows) => Ok(l.(rows := rows, heads := RaiseHead(l.heads, m)))
  }

  // ----- Physical extents -----

  ghost predicate Occupied(physical: map<Id, Physical>, file: Id, slot: nat) {
    exists id :: id in physical && physical[id].file == file && physical[id].slot == slot
  }

  ghost function Occupant(physical: map<Id, Physical>, file: Id, slot: nat): (id: Id)
    requires Occupied(physical, file, slot)
    ensures id in physical && physical[id].file == file && physical[id].slot == slot
  {
    var id :| id in physical && physical[id].file == file && physical[id].slot == slot;
    id
  }

  /** reserve_extent_in: an empty slot, or a dead one whose old extent then disappears. */
  ghost function ReserveExtent(l: Ledger, id: Id, file: Id, slot: nat, length: nat, expires: int): Result<Ledger> {
    var entry := Physical(file, slot, length, Reserved, 0);
    if Occupied(l.physical, file, slot) then
      var held := Occupant(l.physical, file, slot);
      if l.physical[held].state.Dead? && (id == held || id !in l.physical) then
        Ok(l.(physical := (l.physical - {held})[id := entry], leases := l.leases[id := expires]))
      else Err
    else if id in l.physical then Err
    else Ok(l.(physical := l.physical[id := entry], leases := l.leases[id := expires]))
  }

  function CommitExtent(l: Ledger, id: Id): Result<Ledger> {
    if id in l.physical && l.physical[id].state.Reserved? then
      Ok(l.(physical := l.physical[id := l.physical[id].(state := Alive)], leases := l.leases - {id}))
    else Err
  }

  function ReleaseExtent(l: Ledger, id: Id): Result<Ledger> {
    if id in l.physical && l.physical[id].state.Reserved? && l.physical[id].pins == 0 then
      Ok(l.(physical := l.physical[id := l.physical[id].(state := Dead)], leases := l.leases - {id}))
    else Err
  }

  predicate Killable(physical: map<Id, Physical>, id: Id) {
    id in physical && physical[id].state.Alive? && physical[id].pins == 0
  }

  function Kill(physical: map<Id, Physical>, ids: set<Id>): map<Id, Physical> {
    map id | id in physical :: if id in ids then physical[id].(state := Dead) else physical[id]
  }

  function MarkDead(l: Ledger, id: Id): Result<Ledger> {
    if Killable(l.physical, id) then Ok(l.(physical := Kill(l.physical, {id}))) else Err
  }

  ghost function Revive(l: Ledger, id: Id, file: Id, slot: nat, length: nat): Result<Ledger> {
    if id in l.physical then
      match l.physical[id].state
      case Dead => Ok(l.(physical := l.physical[id := l.physical[id].(state := Alive, length := length)]))
      case Alive => Ok(l)
      case Reserved => Err
    else if Occupied(l.physical, file, slot) then Err
    else Ok(l.(physical := l.physical[id := Physical(file, slot, length, Alive, 0)]))
  }

  function AdjustPin(l: Ledger, id: Id, delta: int): Result<Ledger> {
    if id in l.physical && l.physical[id].state.Alive? && l.physical[id].pins + delta >= 0 then
      Ok(l.(physical := l.physical[id := l.physical[id].(pins := l.physical[id].pins + delta)]))
    else Err
  }

  function Expired(leases: map<Id, int>, now: int): set<Id> {
    set id | id in leases && leases[id] <= now
  }

  function Reaped(x: Physical, expired: bool): Physical {
    if expired && x.state.Reserved? then x.(state := Dead) else x
  }

  function Reap(l: Ledger, now: int): Ledger {
    var gone := Expired(l.leases, now);
    l.(physical := map id | id in l.physical :: Reaped(l.physical[id], id in gone),
       leases := l.leases - gone)
  }

  // ----- Publication, compaction, release -----

  predicate References(rows: map<Id, Extent>, volume: Id, payload: Id) {
    exists id :: id in rows && rows[id].volume == volume && rows[id].payload == Some(payload)
  }

  /** record_payload_publications: all the records of a pack, or none. */
  function Publish(l: Ledger, records: seq<(Id, Id)>): Result<Ledger>
    decreases |records|
  {
    if |records| == 0 then Ok(l)
    else if !References(l.rows, records[0].0, records[0].1) then Err
    else Publish(l.(published := if records[0].1 in l.published then l.published
                    else l.published[records[0].1 := records[0].0]), records[1..])
  }

  /** published_payloads_evictable: published, referenced, alive, unpinned, in the journal file. */
  function Evictable(l: Ledger, volume: Id, journal: Id): set<Id> {
    set p | p in l.published && l.published[p] == volume && Killable(l.physical, p) && l.physical[p].file == journal
        && References(l.rows, volume, p)
  }

  predicate Superseded(l: Ledger, volume: Id, e: Extent) {
    e.volume == volume && (volume, e.inode) in l.heads && e.version < l.heads[(volume, e.inode)].version
  }

  function HeadRows(l: Ledger, volume: Id): map<Id, Extent> {
    map id | id in l.rows && !Superseded(l, volume, l.rows[id]) :: l.rows[id]
  }

  /** Extents of the journal file that nothing references and nobody pins. */
  function Orphans(physical: map<Id, Physical>, rows: map<Id, Extent>, journal: Id): set<Id> {
    set id | id in physical && Killable(physical, id) && physical[id].file == journal && id !in Referenced(rows)
  }

  function Compact(l: Ledger, volume: Id, journal: Id): Ledger {
    var rows := HeadRows(l, volume);
    l.(rows := rows, physical := Kill(l.physical, Orphans(l.physical, rows, journal)))
  }

  function InodeRows(l: Ledger, volume: Id, inode: Id): map<Id, Extent> {
    map id | id in l.rows && l.rows[id].volume == volume && l.rows[id].inode == inode :: l.rows[id]
  }

  function ReleaseInode(l: Ledger, volume: Id, inode: Id, journal: Id): Ledger {
    var gone := InodeRows(l, volume, inode);
    var rows := l.rows - gone.Keys;
    l.(rows := rows, heads := l.heads - {(volume, inode)},
       physical := Kill(l.physical, Referenced(gone) * Orphans(l.physical, rows, journal)))
  }

  function DropVersions(l: Ledger, volume: Id, inode: Id, keepFrom: nat): Ledger {
    l.(rows := map id | id in l.rows
       && !(l.rows[id].volume == volume && l.rows[id].inode == inode && l.rows[id].version < keepFrom) :: l.rows[id])
  }

  // ----- Operations -----

  predicate SequenceFree(operations: map<Id, Operation>, volume: Id, seqNo: int) {
    forall id :: id in operations && operations[id].volume == volume ==> operations[id].seqNo != seqNo
  }

  predicate FreshPayloads(l: Ledger, payloads: seq<Id>) {
    && (forall k :: 0 <= k < |payloads| ==> payloads[k] !in l.payloads)
    && (forall j, k :: 0 <= j < k < |payloads| ==> payloads[j] != payloads[k])
  }

  function AddOperation(l: Ledger, op: Id, volume: Id, seqNo: int, status: Status, payloads: seq<Id>,
                        flushed: bool): Result<Ledger> {
    if op in l.operations || !SequenceFree(l.operations, volume, seqNo) || !FreshPayloads(l, payloads) then Err
    else
      Ok(l.(operations := l.operations[op := Operation(volume, seqNo, status)],
            payloads := map p | p in l.payloads.Keys + (set k | 0 <= k < |payloads| :: payloads[k])
                            :: if p in l.payloads then l.payloads[p] else PayloadRecord(op, flushed)))
  }

  /** commit_mutation_in: operation, payload records, extents and physical extent in one transaction. */
  function CommitMutation(l: Ledger, m: Option<Mutation>, op: Id, volume: Id, seqNo: int, payloads: seq<Id>,
                          physical: Option<Id>): Result<Ledger> {
    match AddOperation(l, op, volume, seqNo, Committed, payloads, true)
    case Err => Err
    case Ok(logged) =>
      var replaced := if m.Some? then Replace(logged, m.value) else Ok(logged);
      if replaced.Err? then Err
      else if physical.Some? then CommitExtent(replaced.value, physical.value)
      else replaced
  }

  predicate AllFlushed(l: Ledger, op: Id) {
    forall p :: p in l.payloads && l.payloads[p].operation == op ==> l.payloads[p].flushed
  }

  function SetStatus(l: Ledger, ops: set<Id>, from: Status, to: Status): Ledger {
    l.(operations := map id | id in l.operations ::
         if id in ops && l.operations[id].status == from then l.operations[id].(status := to) else l.operations[id])
  }

  /** The later status transitions: pending operations are reclaimed, committed ones flushed, flushed ones published. */
  function Advance(l: Ledger, ops: set<Id>, from: Status): Ledger {
    match from
    case Pending => SetStatus(l, ops, Pending, Reclaimed)
    case Committed => SetStatus(l, ops, Committed, Flushed)
    case Flushed => SetStatus(l, ops, Flushed, Published)
    case _ => l
  }

  function CommitOperation(l: Ledger, op: Id): Result<Ledger> {
    if AllFlushed(l, op) && op in l.operations && l.operations[op].status.Pending?
        then Ok(SetStatus(l, {op}, Pending, Committed)) else Err
  }

  function MarkFlushed(l: Ledger, payload: Id): Result<Ledger> {
    if payload in l.payloads then Ok(l.(payloads := l.payloads[payload := l.payloads[payload].(flushed := true)]))
        else Err
  }

  // ----- Steps of the whole ledger -----

  /** `listed` remembers every payload the evictor was ever shown. */
  datatype State = State(ledger: Ledger, listed: set<Id>)

  /** Transactions on extent rows, publications and what they keep alive. */
  datatype RowStep =
    | DoCommitMutation(mutation: Option<Mutation>, op: Id, volume: Id, seqNo: int, payloads: seq<Id>,
                       physical: Option<Id>)
    | DoReplace(m: Mutation)
    | DoPublish(records: seq<(Id, Id)>)
    | DoCompact(volume: Id, journal: Id)
    | DoReleaseInode(volume: Id, inode: Id, journal: Id)
    | DoDropVersions(volume: Id, inode: Id, keepFrom: nat)
    | DoEvict(id: Id)

  /** Transactions on physical extents. */
  datatype ExtentStep =
    | DoReserve(id: Id, file: Id, slot: nat, length: nat, expires: int)
    | DoCommitExtent(id: Id)
    | DoRelease(id: Id)
    | DoRevive(id: Id, file: Id, slot: nat, length: nat)
    | DoPin(id: Id, delta: int)
    | DoReap(now: int)

  /** Transactions on operations and their payloads. */
  datatype JournalStep =
    | DoBegin(op: Id, volume: Id, seqNo: int, payloads: seq<Id>)
    | DoFlush(payload: Id)
    | DoCommitOperation(op: Id)
    | DoAdvance(ops: set<Id>, from: Status)

  datatype Step =
    | OnRows(rows: RowStep)
    | OnExtents(extents: ExtentStep)
    | OnJournal(journal: JournalStep)
    | DoList(volume: Id, file: Id)

  /** The mutation's own payload, when it has one. */
  function Own(physical: Option<Id>): set<Id> {
    if physical.Some? then {physical.value} else {}
  }

  /** Callers' discipline: extents name their own payload or one already named; evictions come from a list. */
  ghost predicate Allowed(s: State, t: Step) {
    match t
    case OnRows(DoCommitMutation(m, _, _, _, _, physical)) =>
      m.Some? ==> ReferencedBy(m.value) <= Referenced(s.ledger.rows) + Own(physical)
    case OnRows(DoReplace(m)) => ReferencedBy(m) <= Referenced(s.ledger.rows)
    case OnRows(DoEvict(id)) => id in s.listed
    case _ => true
  }

  function OrElse(r: Result<Ledger>, l: Ledger): Ledger {
    if r.Ok? then r.value else l
  }

  ghost function AfterRows(l: Ledger, t: RowStep): Ledger {
    match t
    case DoCommitMutation(m, op, volume, seqNo, payloads, physical) =>
        OrElse(CommitMutation(l, m, op, volume, seqNo, payloads, physical), l)
    case DoReplace(m) => OrElse(if WithinEof(m) then Replace(l, m) else Err, l)
    case DoPublish(records) => OrElse(Publish(l, records), l)
    case DoCompact(volume, journal) => Compact(l, volume, journal)
    case DoReleaseInode(volume, inode, journal) => ReleaseInode(l, volume, inode, journal)
    case DoDropVersions(volume, inode, keepFrom) => DropVersions(l, volume, inode, keepFrom)
    case DoEvict(id) => OrElse(MarkDead(l, id), l)
  }

  ghost function AfterExtents(l: Ledger, t: ExtentStep): Ledger {
    match t
    case DoReserve(id, file, slot, length, expires) => OrElse(ReserveExtent(l, id, file, slot, length, expires), l)
    case DoCommitExtent(id) => OrElse(CommitExtent(l, id), l)
    case DoRelease(id) => OrElse(ReleaseExtent(l, id), l)
    case DoRevive(id, file, slot, length) => OrElse(Revive(l, id, file, slot, length), l)
    case DoPin(id, delta) => OrElse(AdjustPin(l, id, delta), l)
    case DoReap(now) => Reap(l, now)
  }

  function AfterJournal(l: Ledger, t: JournalStep): Ledger {
    match t
    case DoBegin(op, volume, seqNo, payloads) => OrElse(AddOperation(l, op, volume, seqNo, Pending, payloads, false), l)
    case DoFlush(payload) => OrElse(MarkFlushed(l, payload), l)
    case DoCommitOperation(op) => OrElse(CommitOperation(l, op), l)
    case DoAdvance(ops, from) => Advance(l, ops, from)
  }

  ghost function Apply(s: State, t: Step): State {
    match t
    case OnRows(r) => s.(ledger := AfterRows(s.ledger, r))
    case OnExtents(e) => s.(ledger := AfterExtents(s.ledger, e))
    case OnJournal(j) => s.(ledger := AfterJournal(s.ledger, j))
    case DoList(volume, file) => s.(listed := s.listed + Evictable(s.ledger, volume, file))
  }

  // ----- No referenced byte is lost -----

  /** The payload's bytes can still be had. */
  predicate Available(l: Ledger, p: Id) {
    (p in l.physical && l.physical[p].state.Alive?) || p in l.published
  }

  predicate NothingLost(l: Ledger) {
    forall id :: id in l.rows && l.rows[id].payload.Some? ==> Available(l, l.rows[id].payload.value)
  }

  predicate PinsHold(l: Ledger) {
    forall id :: id in l.physical && l.physical[id].pins > 0 ==> l.physical[id].state.Alive?
  }

  /** Each row belongs to an inode with a head at or above its version. */
  predicate HeadsCover(l: Ledger) {
    forall id :: id in l.rows ==>
      var key := (l.rows[id].volume, l.rows[id].inode);
      key in l.heads && l.rows[id].version <= l.heads[key].version
  }

  /** The flush fence: an operation is past pending only when all its payloads are durable. */
  predicate FenceHolds(l: Ledger) {
    && (forall p :: p in l.payloads ==> l.payloads[p].operation in l.operations)
    && (forall p :: p in l.payloads && !l.payloads[p].flushed ==>
        l.operations[l.payloads[p].operation].status in {Pending, Reclaimed})
  }

  predicate Sound(l: Ledger) {
    NothingLost(l) && PinsHold(l) && HeadsCover(l) && FenceHolds(l)
  }

  ghost predicate Inv(s: State) {
    Sound(s.ledger) && s.listed <= s.ledger.published.Keys
  }

  predicate PinsKept(l: Ledger, out: Ledger) {
    forall id :: id in l.physical && l.physical[id].pins > 0 ==>
        id in out.physical && out.physical[id] == l.physical[id]
  }

  /** What every transaction but an unpin does for the others. */
  predicate Safe(l: Ledger, out: Ledger) {
    Sound(out) && PinsKept(l, out) && l.published.Keys <= out.published.Keys
  }

  // Extent rows

  lemma {:induction false} InsertAllRows(rows: map<Id, Extent>, m: Mutation, k: nat)
    requires k <= |m.extents| && InsertAll(rows, m, k).Some?
    ensures forall id :: id in InsertAll(rows, m, k).value ==>
              || (id in rows && InsertAll(rows, m, k).value[id] == rows[id])
              || (exists j :: k <= j < |m.extents|
                              && InsertAll(rows, m, k).value[id] == m.extents[j].1.(version := m.version))
    decreases |m.extents| - k
  {
    if k < |m.extents| {
      InsertAllRows(rows[m.extents[k].0 := m.extents[k].1.(version := m.version)], m, k + 1);
    }
  }

  /** What replacing a version leaves behind: old rows, and rows of the submitted extents. */
  lemma ReplaceRows(l: Ledger, m: Mutation)
    requires Replace(l, m).Ok?
    ensures var out := Replace(l, m).value;
            && out == l.(rows := out.rows, heads := out.heads)
            && (HeadsCover(l) ==> HeadsCover(out))
            && (forall id :: id in out.rows && out.rows[id].payload.Some? ==>
                  out.rows[id].payload.value in Referenced(l.rows) + ReferencedBy(m))
  {
    var out := Replace(l, m).value;
    InsertAllRows(Without(l.rows, m), m, 0);
    forall id | id in out.rows
      ensures out.rows[id].payload.Some? ==> out.rows[id].payload.value in Referenced(l.rows) + ReferencedBy(m)
      ensures HeadsCover(l) ==> (out.rows[id].volume, out.rows[id].inode) in out.heads
                                && out.rows[id].version <= out.heads[(out.rows[id].volume, out.rows[id].inode)].version
    {
      if id in l.rows && out.rows[id] == l.rows[id] {
      } else {
        var j :| 0 <= j < |m.extents| && out.rows[id] == m.extents[j].1.(version := m.version);
      }
    }
  }

  lemma ReferencedIsAvailable(l: Ledger, p: Id)
    requires NothingLost(l) && p in Referenced(l.rows)
    ensures Available(l, p)
  {
    var id :| id in l.rows && l.rows[id].payload == Some(p);
  }

  lemma ReplaceIsSafe(l: Ledger, m: Mutation)
    requires Sound(l) && Replace(l, m).Ok? && ReferencedBy(m) <= Referenced(l.rows)
    ensures Safe(l, Replace(l, m).value)
  {
    ReplaceRows(l, m);
    var out := Replace(l, m).value;
    forall id | id in out.rows && out.rows[id].payload.Some?
      ensures Available(out, out.rows[id].payload.value)
    {
      ReferencedIsAvailable(l, out.rows[id].payload.value);
    }
  }

  // Physical extents

  /** A change to the physical ledger that lets no alive extent go is safe. */
  lemma AliveStays(l: Ledger, out: Ledger)
    requires Sound(l) && out == l.(physical := out.physical, leases := out.leases) && PinsHold(out)
    requires forall id :: id in l.physical && l.physical[id].state.Alive? ==>
               id in out.physical && out.physical[id].state.Alive?
    ensures Sound(out)
  {
    forall r | r in l.rows && l.rows[r].payload.Some?
      ensures Available(out, l.rows[r].payload.value)
    {
      assert Available(l, l.rows[r].payload.value);
    }
  }

  lemma ReserveIsSafe(l: Ledger, id: Id, file: Id, slot: nat, length: nat, expires: int)
    requires Sound(l) && ReserveExtent(l, id, file, slot, length, expires).Ok?
    ensures Safe(l, ReserveExtent(l, id, file, slot, length, expires).value)
  {
    AliveStays(l, ReserveExtent(l, id, file, slot, length, expires).value);
  }

  lemma CommitExtentIsSafe(l: Ledger, id: Id)
    requires Sound(l) && CommitExtent(l, id).Ok?
    ensures Safe(l, CommitExtent(l, id).value)
  {
    AliveStays(l, CommitExtent(l, id).value);
  }

  lemma ReleaseIsSafe(l: Ledger, id: Id)
    requires Sound(l) && ReleaseExtent(l, id).Ok?
    ensures Safe(l, ReleaseExtent(l, id).value)
  {
    AliveStays(l, ReleaseExtent(l, id).value);
  }

  lemma ReviveIsSafe(l: Ledger, id: Id, file: Id, slot: nat, length: nat)
    requires Sound(l) && Revive(l, id, file, slot, length).Ok?
    ensures Safe(l, Revive(l, id, file, slot, length).value)
  {
    AliveStays(l, Revive(l, id, file, slot, length).value);
  }

  lemma PinIsSound(l: Ledger, id: Id, delta: int)
    requires Sound(l) && AdjustPin(l, id, delta).Ok?
    ensures Sound(AdjustPin(l, id, delta).value)
  {
    AliveStays(l, AdjustPin(l, id, delta).value);
  }

  lemma ReapIsSafe(l: Ledger, now: int)
    requires Sound(l)
    ensures Safe(l, Reap(l, now))
  {
    AliveStays(l, Reap(l, now));
  }

  /** Dropping rows and killing extents that no remaining row names, or that are published, is safe. */
  lemma ShrinkIsSafe(l: Ledger, rows: map<Id, Extent>, heads: map<(Id, Id), Head>, dead: set<Id>)
    requires Sound(l) && HeadsCover(l.(rows := rows, heads := heads))
    requires forall id :: id in rows ==> id in l.rows && rows[id] == l.rows[id]
    requires forall id :: id in dead ==> Killable(l.physical, id) && (id in l.published || id !in Referenced(rows))
    ensures Safe(l, l.(rows := rows, heads := heads, physical := Kill(l.physical, dead)))
  {
    var out := l.(rows := rows, heads := heads, physical := Kill(l.physical, dead));
    forall id | id in rows && rows[id].payload.Some?
      ensures Available(out, rows[id].payload.value)
    {
      assert Available(l, rows[id].payload.value);
      assert rows[id].payload.value in Referenced(rows);
    }
  }

  lemma CompactIsSafe(l: Ledger, volume: Id, journal: Id)
    requires Sound(l)
    ensures Safe(l, Compact(l, volume, journal))
  {
    ShrinkIsSafe(l, HeadRows(l, volume), l.heads, Orphans(l.physical, HeadRows(l, volume), journal));
  }

  lemma ReleaseInodeIsSafe(l: Ledger, volume: Id, inode: Id, journal: Id)
    requires Sound(l)
    ensures Safe(l, ReleaseInode(l, volume, inode, journal))
  {
    var gone := InodeRows(l, volume, inode);
    ShrinkIsSafe(l, l.rows - gone.Keys, l.heads - {(volume, inode)},
                 Referenced(gone) * Orphans(l.physical, l.rows - gone.Keys, journal));
  }

  lemma DropVersionsIsSafe(l: Ledger, volume: Id, inode: Id, keepFrom: nat)
    requires Sound(l)
    ensures Safe(l, DropVersions(l, volume, inode, keepFrom))
  {
    ShrinkIsSafe(l, DropVersions(l, volume, inode, keepFrom).rows, l.heads, {});
    KillNothing(l.physical);
  }

  lemma KillNothing(physical: map<Id, Physical>)
    ensures Kill(physical, {}) == physical
  {
  }

  lemma MarkDeadIsSafe(l: Ledger, id: Id)
    requires Sound(l) && MarkDead(l, id).Ok? && id in l.published
    ensures Safe(l, MarkDead(l, id).value)
  {
    ShrinkIsSafe(l, l.rows, l.heads, {id});
  }

  lemma {:induction false} PublishRecords(l: Ledger, records: seq<(Id, Id)>)
    requires Publish(l, records).Ok?
    ensures var out := Publish(l, records).value; out == l.(published := out.published)
                                                  && l.published.Keys <= out.published.Keys
    decreases |records|
  {
    if |records| != 0 {
      PublishRecords(l.(published := if records[0].1 in l.published then l.published
                        else l.published[records[0].1 := records[0].0]), records[1..]);
    }
  }

  lemma PublishIsSafe(l: Ledger, records: seq<(Id, Id)>)
    requires Sound(l) && Publish(l, records).Ok?
    ensures Safe(l, Publish(l, records).value)
  {
    PublishRecords(l, records);
    var out := Publish(l, records).value;
    forall r | r in l.rows && l.rows[r].payload.Some?
      ensures Available(out, l.rows[r].payload.value)
    {
      assert Available(l, l.rows[r].payload.value);
    }
  }

  // Operations

  lemma JournalIsSafe(l: Ledger, out: Ledger)
    requires Sound(l) && FenceHolds(out) && out == l.(operations := out.operations, payloads := out.payloads)
    ensures Safe(l, out)
  {
    forall r | r in l.rows && l.rows[r].payload.Some?
      ensures Available(out, l.rows[r].payload.value)
    {
      assert Available(l, l.rows[r].payload.value);
    }
  }

  lemma AddOperationIsSafe(l: Ledger, op: Id, volume: Id, seqNo: int, status: Status, payloads: seq<Id>, flushed: bool)
    requires Sound(l) && AddOperation(l, op, volume, seqNo, status, payloads, flushed).Ok?
             && (flushed || status.Pending?)
    ensures var out := AddOperation(l, op, volume, seqNo, status, payloads, flushed).value;
            Safe(l, out) && out == l.(operations := out.operations, payloads := out.payloads)
  {
    JournalIsSafe(l, AddOperation(l, op, volume, seqNo, status, payloads, flushed).value);
  }

  lemma StatusIsSafe(l: Ledger, ops: set<Id>, from: Status, to: Status)
    requires Sound(l)
    requires from in {Committed, Flushed} || to.Reclaimed? || forall op :: op in ops ==> AllFlushed(l, op)
    ensures Safe(l, SetStatus(l, ops, from, to))
  {
    JournalIsSafe(l, SetStatus(l, ops, from, to));
  }

  lemma FlushIsSafe(l: Ledger, payload: Id)
    requires Sound(l) && MarkFlushed(l, payload).Ok?
    ensures Safe(l, MarkFlushed(l, payload).value)
  {
    JournalIsSafe(l, MarkFlushed(l, payload).value);
  }

  /** A ledger whose rows name old payloads or the mutation's own, and which is otherwise sound. */
  predicate HalfDone(l: Ledger, half: Ledger, physical: Option<Id>) {
    && half == l.(operations := half.operations, payloads := half.payloads, rows := half.rows, heads := half.heads)
    && HeadsCover(half) && FenceHolds(half)
    && forall id :: id in half.rows && half.rows[id].payload.Some? ==>
        half.rows[id].payload.value in Referenced(l.rows) + Own(physical)
  }

  lemma MutationIsHalfDone(l: Ledger, m: Option<Mutation>, op: Id, volume: Id, seqNo: int, payloads: seq<Id>,
                           physical: Option<Id>)
    requires Sound(l) && CommitMutation(l, m, op, volume, seqNo, payloads, physical).Ok?
    requires m.Some? ==> ReferencedBy(m.value) <= Referenced(l.rows) + Own(physical)
    ensures var logged := AddOperation(l, op, volume, seqNo, Committed, payloads, true).value;
            HalfDone(l, if m.Some? then Replace(logged, m.value).value else logged, physical)
  {
    AddOperationIsSafe(l, op, volume, seqNo, Committed, payloads, true);
    if m.Some? { ReplaceRows(AddOperation(l, op, volume, seqNo, Committed, payloads, true).value, m.value); }
  }

  /** Bringing the own payload to life makes up for what the rows newly name. */
  lemma SettlingIsSafe(l: Ledger, half: Ledger, out: Ledger, physical: Option<Id>)
    requires Sound(l) && HalfDone(l, half, physical)
    requires if physical.Some? then CommitExtent(half, physical.value) == Ok(out) else out == half
    ensures Safe(l, out)
  {
    forall id | id in out.rows && out.rows[id].payload.Some?
      ensures Available(out, out.rows[id].payload.value)
    {
      SettledIsAvailable(l, half, out, physical, id);
    }
    assert NothingLost(out);
    SettledPins(l, half, out, physical);
  }

  lemma SettledPins(l: Ledger, half: Ledger, out: Ledger, physical: Option<Id>)
    requires Sound(l) && HalfDone(l, half, physical)
    requires if physical.Some? then CommitExtent(half, physical.value) == Ok(out) else out == half
    ensures PinsHold(out) && PinsKept(l, out)
  {
  }

  lemma SettledIsAvailable(l: Ledger, half: Ledger, out: Ledger, physical: Option<Id>, id: Id)
    requires Sound(l) && HalfDone(l, half, physical)
    requires if physical.Some? then CommitExtent(half, physical.value) == Ok(out) else out == half
    requires id in out.rows && out.rows[id].payload.Some?
    ensures Available(out, out.rows[id].payload.value)
  {
    var p := out.rows[id].payload.value;
    if p in Referenced(l.rows) { ReferencedIsAvailable(l, p); }
  }

  lemma CommitMutationIsSafe(l: Ledger, m: Option<Mutation>, op: Id, volume: Id, seqNo: int, payloads: seq<Id>,
                             physical: Option<Id>)
    requires Sound(l) && CommitMutation(l, m, op, volume, seqNo, payloads, physical).Ok?
    requires m.Some? ==> ReferencedBy(m.value) <= Referenced(l.rows) + Own(physical)
    ensures Safe(l, CommitMutation(l, m, op, volume, seqNo, payloads, physical).value)
  {
    MutationIsHalfDone(l, m, op, volume, seqNo, payloads, physical);
    var logged := AddOperation(l, op, volume, seqNo, Committed, payloads, true).value;
    SettlingIsSafe(l, if m.Some? then Replace(logged, m.value).value else logged,
                   CommitMutation(l, m, op, volume, seqNo, payloads, physical).value, physical);
  }

  // All transactions

  lemma ChangeIsSafe(s: State, t: RowStep)
    requires Inv(s) && Allowed(s, OnRows(t)) && (t.DoCommitMutation? || t.DoReplace? || t.DoEvict?)
    ensures Safe(s.ledger, AfterRows(s.ledger, t))
  {
    var l := s.ledger;
    match t
    case DoCommitMutation(m, op, volume, seqNo, payloads, physical) =>
      if CommitMutation(l, m, op, volume, seqNo, payloads, physical).Ok? {
        CommitMutationIsSafe(l, m, op, volume, seqNo, payloads, physical);
      }
    case DoReplace(m) => if WithinEof(m) && Replace(l, m).Ok? { ReplaceIsSafe(l, m); }
    case DoEvict(id) => if MarkDead(l, id).Ok? { MarkDeadIsSafe(l, id); }
  }

  lemma RowStepIsSafe(s: State, t: RowStep)
    requires Inv(s) && Allowed(s, OnRows(t))
    ensures Safe(s.ledger, AfterRows(s.ledger, t))
  {
    var l := s.ledger;
    match t
    case DoPublish(records) => if Publish(l, records).Ok? { PublishIsSafe(l, records); }
    case DoCompact(volume, journal) => CompactIsSafe(l, volume, journal);
    case DoReleaseInode(volume, inode, journal) => ReleaseInodeIsSafe(l, volume, inode, journal);
    case DoDropVersions(volume, inode, keepFrom) => DropVersionsIsSafe(l, volume, inode, keepFrom);
    case _ => ChangeIsSafe(s, t);
  }

  lemma ExtentStepIsSafe(l: Ledger, t: ExtentStep)
    requires Sound(l) && !t.DoPin?
    ensures Safe(l, AfterExtents(l, t))
  {
    match t
    case DoReserve(id, file, slot, length, expires) =>
      if ReserveExtent(l, id, file, slot, length, expires).Ok? { ReserveIsSafe(l, id, file, slot, length, expires); }
    case DoCommitExtent(id) => if CommitExtent(l, id).Ok? { CommitExtentIsSafe(l, id); }
    case DoRelease(id) => if ReleaseExtent(l, id).Ok? { ReleaseIsSafe(l, id); }
    case DoRevive(id, file, slot, length) =>
        if Revive(l, id, file, slot, length).Ok? { ReviveIsSafe(l, id, file, slot, length); }
    case DoReap(now) => ReapIsSafe(l, now);
  }

  lemma AdvanceIsSafe(l: Ledger, ops: set<Id>, from: Status)
    requires Sound(l)
    ensures Safe(l, Advance(l, ops, from))
  {
    match from
    case Pending => StatusIsSafe(l, ops, Pending, Reclaimed);
    case Committed => StatusIsSafe(l, ops, Committed, Flushed);
    case Flushed => StatusIsSafe(l, ops, Flushed, Published);
    case _ =>
  }

  lemma BeginIsSafe(l: Ledger, op: Id, volume: Id, seqNo: int, payloads: seq<Id>)
    requires Sound(l)
    ensures Safe(l, OrElse(AddOperation(l, op, volume, seqNo, Pending, payloads, false), l))
  {
    if AddOperation(l, op, volume, seqNo, Pending, payloads, false).Ok? {
      AddOperationIsSafe(l, op, volume, seqNo, Pending, payloads, false);
    }
  }

  lemma FlushOrNotIsSafe(l: Ledger, payload: Id)
    requires Sound(l)
    ensures Safe(l, OrElse(MarkFlushed(l, payload), l))
  {
    if MarkFlushed(l, payload).Ok? { FlushIsSafe(l, payload); }
  }

  lemma CommitOperationIsSafe(l: Ledger, op: Id)
    requires Sound(l)
    ensures Safe(l, OrElse(CommitOperation(l, op), l))
  {
    if CommitOperation(l, op).Ok? { StatusIsSafe(l, {op}, Pending, Committed); }
  }

  lemma JournalStepIsSafe(l: Ledger, t: JournalStep)
    requires Sound(l)
    ensures Safe(l, AfterJournal(l, t))
  {
    match t
    case DoBegin(op, volume, seqNo, payloads) => BeginIsSafe(l, op, volume, seqNo, payloads);
    case DoFlush(payload) => FlushOrNotIsSafe(l, payload);
    case DoCommitOperation(op) => CommitOperationIsSafe(l, op);
    case DoAdvance(ops, from) => AdvanceIsSafe(l, ops, from);
  }

  lemma PinStepIsSound(l: Ledger, id: Id, delta: int)
    requires Sound(l)
    ensures var out := AfterExtents(l, DoPin(id, delta)); Sound(out) && out.published == l.published
  {
    if AdjustPin(l, id, delta).Ok? { PinIsSound(l, id, delta); }
  }

  predicate Pins(t: Step) {
    t.OnExtents? && t.extents.DoPin?
  }

  /** Every allowed step keeps the invariant; all but unpins keep pinned extents and published payloads. */
  lemma StepKeepsInv(s: State, t: Step)
    requires Inv(s) && Allowed(s, t)
    ensures Inv(Apply(s, t)) && s.ledger.published.Keys <= Apply(s, t).ledger.published.Keys
    ensures !Pins(t) ==> PinsKept(s.ledger, Apply(s, t).ledger)
  {
    match t
    case OnRows(r) => RowStepIsSafe(s, r);
    case OnExtents(e) => if e.DoPin? { PinStepIsSound(s.ledger, e.id, e.delta); }
                         else { ExtentStepIsSafe(s.ledger, e); }
    case OnJournal(j) => JournalStepIsSafe(s.ledger, j);
    case DoList(_, _) =>
  }

  // ----- Runs -----

  ghost predicate Disciplined(s: State, ts: seq<Step>)
    decreases |ts|
  {
    |ts| == 0 || (Allowed(s, ts[0]) && Disciplined(Apply(s, ts[0]), ts[1..]))
  }

  ghost function ApplyAll(s: State, ts: seq<Step>): State
    decreases |ts|
  {
    if |ts| == 0 then s else ApplyAll(Apply(s, ts[0]), ts[1..])
  }

  /**
   No referenced byte is lost: after any disciplined run of commits, publications,
   evictions, revivals, reaps, slot reuse, compactions and releases, every payload that any
   extent row names is alive on disk or published.
   */
  lemma {:induction false} NoReferencedByteIsLost(s: State, ts: seq<Step>)
    requires Inv(s) && Disciplined(s, ts)
    ensures Inv(ApplyAll(s, ts)) && NothingLost(ApplyAll(s, ts).ledger)
    decreases |ts|
  {
    if |ts| != 0 {
      StepKeepsInv(s, ts[0]);
      NoReferencedByteIsLost(Apply(s, ts[0]), ts[1..]);
    }
  }

  lemma EmptyLedgerIsOk()
    ensures Inv(State(Ledger(map[], map[], map[], map[], map[], map[], map[]), {}))
  {
  }

  /** Flushed payloads of committed operations, still referenced, not yet published. */
  function AwaitingPublication(l: Ledger, volume: Id): set<Id> {
    set p | p in l.payloads && l.payloads[p].flushed && l.payloads[p].operation in l.operations
            && l.operations[l.payloads[p].operation].volume == volume
            && l.operations[l.payloads[p].operation].status in {Committed, Flushed, Published}
            && References(l.rows, volume, p) && p !in l.published
  }

  /** unpublished_payloads, which also drops payloads whose physical extent is dead. */
  function Unpublished(l: Ledger, volume: Id): set<Id> {
    set p | p in AwaitingPublication(l, volume) && !(p in l.physical && l.physical[p].state.Dead?)
  }

  /** The filter on dead extents never hides a payload the publisher still owes. */
  lemma DeadFilterHidesNothing(s: State, ts: seq<Step>, volume: Id)
    requires Inv(s) && Disciplined(s, ts)
    ensures var l := ApplyAll(s, ts).ledger; Unpublished(l, volume) == AwaitingPublication(l, volume)
  {
    NoReferencedByteIsLost(s, ts);
    var l := ApplyAll(s, ts).ledger;
    forall p | p in AwaitingPublication(l, volume)
      ensures p in Unpublished(l, volume)
    {
      var id :| id in l.rows && l.rows[id].volume == volume && l.rows[id].payload == Some(p);
      assert Available(l, p);
    }
  }

  /** Once published a payload stays published, so an eviction list never goes stale. */
  lemma {:induction false} PublicationIsForever(s: State, ts: seq<Step>)
    requires Inv(s) && Disciplined(s, ts)
    ensures s.ledger.published.Keys <= ApplyAll(s, ts).ledger.published.Keys
    decreases |ts|
  {
    if |ts| != 0 {
      StepKeepsInv(s, ts[0]);
      PublicationIsForever(Apply(s, ts[0]), ts[1..]);
    }
  }

  // ----- Pins -----

  predicate NeverUnpins(ts: seq<Step>, id: Id) {
    forall k :: 0 <= k < |ts| && Pins(ts[k]) && ts[k].extents.id == id ==> ts[k].extents.delta >= 0
  }

  /** A pinned extent stays alive through any run that does not unpin it. */
  lemma {:induction false} PinnedStaysAlive(s: State, ts: seq<Step>, id: Id)
    requires Inv(s) && Disciplined(s, ts) && NeverUnpins(ts, id)
    requires id in s.ledger.physical && s.ledger.physical[id].pins > 0
    ensures var out := ApplyAll(s, ts).ledger.physical; id in out && out[id].state.Alive?
                                                        && out[id].pins >= s.ledger.physical[id].pins
    decreases |ts|
  {
    if |ts| != 0 {
      StepKeepsInv(s, ts[0]);
      PinnedStaysAlive(Apply(s, ts[0]), ts[1..], id);
    }
  }

  // ----- Compaction -----

  /** What a reader of an inode sees: its head version and EOF, and the extents of that version. */
  datatype View = View(head: Head, extents: map<Id, Extent>)

  function ExtentsAt(l: Ledger, volume: Id, inode: Id, version: nat): map<Id, Extent> {
    map id | id in l.rows && l.rows[id].volume == volume && l.rows[id].inode == inode
        && l.rows[id].version == version :: l.rows[id]
  }

  function ViewOf(l: Ledger, volume: Id, inode: Id): Option<View> {
    if (volume, inode) in l.heads then
      Some(View(l.heads[(volume, inode)], ExtentsAt(l, volume, inode, l.heads[(volume, inode)].version)))
    else None
  }

  /** latest_version: no head and no row of the inode has a higher version. */
  predicate IsLatest(l: Ledger, volume: Id, inode: Id, version: nat) {
    && ((volume, inode) in l.heads ==> l.heads[(volume, inode)].version <= version)
    && (forall id :: id in l.rows && l.rows[id].volume == volume && l.rows[id].inode == inode ==>
        l.rows[id].version <= version)
    && (|| ((volume, inode) in l.heads && l.heads[(volume, inode)].version == version)
        || (exists id :: id in l.rows && l.rows[id].volume == volume && l.rows[id].inode == inode
                         && l.rows[id].version == version))
  }

  /**
   Compaction preserves meaning: no inode of any volume changes its view, everything the
   views name can still be had, and only alive, unpinned, unreferenced extents of the
   journal file die.
   */
  lemma CompactionPreservesMeaning(s: State, volume: Id, journal: Id, v: Id, inode: Id)
    requires Inv(s)
    ensures var l, out := s.ledger, Compact(s.ledger, volume, journal);
            && ViewOf(out, v, inode) == ViewOf(l, v, inode)
            && (forall version :: IsLatest(l, v, inode, version) <==> IsLatest(out, v, inode, version))
            && NothingLost(out)
            && out.physical.Keys == l.physical.Keys
            && forall id :: id in l.physical && out.physical[id] != l.physical[id] ==>
                 l.physical[id].state.Alive? && l.physical[id].pins == 0 && l.physical[id].file == journal
                     && id !in Referenced(out.rows)
                 && out.physical[id] == l.physical[id].(state := Dead)
  {
    StepKeepsInv(s, OnRows(DoCompact(volume, journal)));
    var l, out := s.ledger, Compact(s.ledger, volume, journal);
    if (v, inode) in l.heads {
      var version := l.heads[(v, inode)].version;
      forall id | id in l.rows && l.rows[id].volume == v && l.rows[id].inode == inode && l.rows[id].version == version
        ensures id in out.rows
      {
        assert !Superseded(l, volume, l.rows[id]);
      }
      assert ExtentsAt(out, v, inode, version) == ExtentsAt(l, v, inode, version);
    }
    forall id | id in l.rows && l.rows[id].volume == v && l.rows[id].inode == inode
      ensures (v, inode) in l.heads && l.rows[id].version <= l.heads[(v, inode)].version
    {
    }
  }

  /** A second compaction finds nothing to drop and nothing to kill. */
  lemma CompactionIsIdempotent(l: Ledger, volume: Id, journal: Id)
    ensures var out := Compact(l, volume, journal);
            Compact(out, volume, journal) == out && Orphans(out.physical, HeadRows(out, volume), journal) == {}
  {
    var out := Compact(l, volume, journal);
    forall id | id in out.rows
      ensures !Superseded(out, volume, out.rows[id])
    {
      assert !Superseded(l, volume, l.rows[id]);
    }
    assert HeadRows(out, volume) == out.rows;
    assert Orphans(out.physical, out.rows, journal) == {};
    assert Kill(out.physical, {}) == out.physical;
  }

  // ----- The transactions that loop -----

  /** `list` names each extent of `ids` once, with its length. */
  predicate Lists(list: seq<(Id, nat)>, physical: map<Id, Physical>, ids: set<Id>) {
    && |list| == |ids|
    && (forall k :: 0 <= k < |list| ==>
        list[k].0 in ids && list[k].0 in physical && list[k].1 == physical[list[k].0].length)
    && (forall j, k :: 0 <= j < k < |list| ==> list[j].0 != list[k].0)
  }

  lemma ListsOneMore(list: seq<(Id, nat)>, physical: map<Id, Physical>, ids: set<Id>, id: Id)
    requires Lists(list, physical, ids) && id !in ids && id in physical
    ensures Lists(list + [(id, physical[id].length)], physical, ids + {id})
  {
  }

  lemma OrphanTest(physical: map<Id, Physical>, rows: map<Id, Extent>, journal: Id, killed: set<Id>, id: Id)
    requires id !in killed
    ensures var out := Kill(physical, killed);
            id in Orphans(physical, rows, journal)
            <==> id !in Referenced(rows) && Killable(out, id) && out[id].file == journal
    ensures id in Orphans(physical, rows, journal) ==> Kill(physical, killed)[id] == physical[id]
  {
  }

  lemma OneDone(candidates: set<Id>, todo: set<Id>, orphans: set<Id>, id: Id)
    requires todo <= candidates && id in todo
    ensures (candidates - (todo - {id})) * orphans == (candidates - todo) * orphans
            + (if id in orphans then {id} else {})
  {
  }

  /** The loop's test on the half-killed extents decides whether the next candidate is an orphan. */
  lemma NextKilled(physical: map<Id, Physical>, rows: map<Id, Extent>, journal: Id, candidates: set<Id>, todo: set<Id>,
                   id: Id)
    requires todo <= candidates && id in todo
    ensures var orphans := Orphans(physical, rows, journal);
            var killed := (candidates - todo) * orphans;
            var out := Kill(physical, killed);
            var test := id !in Referenced(rows) && Killable(out, id) && out[id].file == journal;
            && id !in killed && (test ==> id in physical && out[id] == physical[id])
            && (candidates - (todo - {id})) * orphans == (if test then killed + {id} else killed)
  {
    var orphans := Orphans(physical, rows, journal);
    OrphanTest(physical, rows, journal, (candidates - todo) * orphans, id);
    OneDone(candidates, todo, orphans, id);
  }

  lemma KillOneMore(physical: map<Id, Physical>, ids: set<Id>, id: Id)
    requires id in physical && id !in ids
    ensures Kill(physical, ids + {id}) == Kill(physical, ids)[id := physical[id].(state := Dead)]
  {
  }

  class Journal {
    var ledger: Ledger

    /** compact_volume */
    method CompactVolume(volume: Id, journal: Id) returns (dead: seq<(Id, nat)>)
      modifies this
      ensures ledger == Compact(old(ledger), volume, journal)
      ensures Lists(dead, old(ledger).physical, Orphans(old(ledger).physical, ledger.rows, journal))
    {
      var rows := DropSuperseded(ledger, volume);
      var physical;
      var alive := set id | id in ledger.physical && ledger.physical[id].state.Alive?
          && ledger.physical[id].file == journal;
      dead, physical := KillOrphans(ledger.physical, rows, journal, alive);
      assert alive * Orphans(ledger.physical, rows, journal) == Orphans(ledger.physical, rows, journal);
      ledger := ledger.(rows := rows, physical := physical);
    }

    /** release_inode_extents */
    method ReleaseInodeExtents(volume: Id, inode: Id, journal: Id) returns (dead: seq<(Id, nat)>)
      modifies this
      ensures ledger == ReleaseInode(old(ledger), volume, inode, journal)
      ensures Lists(dead, old(ledger).physical,
                    Referenced(InodeRows(old(ledger), volume, inode))
                    * Orphans(old(ledger).physical, ledger.rows, journal))
    {
      var gone := InodeRows(ledger, volume, inode);
      var rows := ledger.rows - gone.Keys;
      var physical;
      dead, physical := KillOrphans(ledger.physical, rows, journal, Referenced(gone));
      ledger := ledger.(rows := rows, heads := ledger.heads - {(volume, inode)}, physical := physical);
    }

    /** reap_expired_reservations */
    method ReapExpired(now: int) returns (count: nat)
      modifies this
      ensures ledger == Reap(old(ledger), now) && count == |Expired(old(ledger).leases, now)|
    {
      var expired := Expired(ledger.leases, now);
      var physical := ledger.physical;
      var leases := ledger.leases;
      var todo: set<Id> := expired;
      while todo != {}
        invariant todo <= expired && ledger == old(ledger) && leases == ledger.leases - (expired - todo)
        invariant physical.Keys == ledger.physical.Keys
        invariant forall id :: id in physical ==>
                    physical[id] == Reaped(ledger.physical[id], id in expired && id !in todo)
        decreases |todo|
      {
        var id :| id in todo;
        if id in physical && physical[id].state.Reserved? { physical := physical[id := physical[id].(state := Dead)]; }
        leases := leases - {id};
        todo := todo - {id};
      }
      assert expired - todo == expired;
      assert physical == Reap(ledger, now).physical;
      count := |expired|;
      ledger := ledger.(physical := physical, leases := leases);
    }

    /** replace_extents_with_eof */
    method ReplaceExtents(m: Mutation) returns (ok: bool)
      modifies this
      ensures ok <==> WithinEof(m) && Replace(old(ledger), m).Ok?
      ensures ledger == if ok then Replace(old(ledger), m).value else old(ledger)
    {
      var rows := Without(ledger.rows, m);
      for k := 0 to |m.extents|
        invariant ledger == old(ledger)
        invariant forall j :: 0 <= j < k ==>
                    Coherent(m.extents[j].1) && m.extents[j].1.volume == m.volume && m.extents[j].1.inode == m.inode
                                             && m.extents[j].1.start + m.extents[j].1.length <= m.eof
        invariant forall j :: 0 < j < k ==> m.extents[j - 1].1.start + m.extents[j - 1].1.length <= m.extents[j].1.start
        invariant InsertAll(Without(ledger.rows, m), m, 0) == InsertAll(rows, m, k)
      {
        var (id, e) := m.extents[k];
        if !Coherent(e) || e.volume != m.volume || e.inode != m.inode || e.start + e.length > m.eof { return false; }
        if k > 0 && e.start < m.extents[k - 1].1.start + m.extents[k - 1].1.length { return false; }
        if id in rows { return false; }
        rows := rows[id := e.(version := m.version)];
      }
      ledger := ledger.(rows := rows, heads := RaiseHead(ledger.heads, m));
      return true;
    }
  }

  /** Head by head, drops the rows of older versions. */
  method DropSuperseded(l: Ledger, volume: Id) returns (rows: map<Id, Extent>)
    ensures rows == HeadRows(l, volume)
  {
    rows := l.rows;
    var todo := set key | key in l.heads && key.0 == volume;
    while todo != {}
      invariant forall key :: key in todo ==> key in l.heads && key.0 == volume
      invariant forall id :: id in rows
                             <==> id in l.rows
                                  && !(Superseded(l, volume, l.rows[id]) && (volume, l.rows[id].inode) !in todo)
      invariant forall id :: id in rows ==> rows[id] == l.rows[id]
      decreases |todo|
    {
      var key :| key in todo;
      var version := l.heads[key].version;
      rows := map id | id in rows
          && !(rows[id].volume == volume && rows[id].inode == key.1 && rows[id].version < version) :: rows[id];
      assert key == (volume, key.1);
      todo := todo - {key};
    }
    assert todo == {};
    assert forall id :: id in rows <==> id in l.rows && !Superseded(l, volume, l.rows[id]);
    assert rows.Keys == HeadRows(l, volume).Keys;
  }

  /** Marks dead, one by one, the candidates that are alive, unpinned, unreferenced and in the journal file. */
  method KillOrphans(physical: map<Id, Physical>, rows: map<Id, Extent>, journal: Id, candidates: set<Id>)
    returns (dead: seq<(Id, nat)>, out: map<Id, Physical>)
    ensures out == Kill(physical, candidates * Orphans(physical, rows, journal))
    ensures Lists(dead, physical, candidates * Orphans(physical, rows, journal))
  {
    ghost var killed: set<Id> := {};
    var todo: set<Id> := candidates;
    out, dead := physical, [];
    KillNothing(physical);
    while todo != {}
      invariant todo <= candidates && killed == (candidates - todo) * Orphans(physical, rows, journal)
      invariant out == Kill(physical, killed) && Lists(dead, physical, killed)
      decreases |todo|
    {
      var id :| id in todo;
      NextKilled(physical, rows, journal, candidates, todo, id);
      if id !in Referenced(rows) && Killable(out, id) && out[id].file == journal {
        dead, out := KillOne(physical, killed, dead, out, id);
        killed := killed + {id};
      }
      todo := todo - {id};
    }
    assert candidates - todo == candidates;
  }

  method KillOne(ghost physical: map<Id, Physical>, ghost killed: set<Id>, dead: seq<(Id, nat)>, out: map<Id, Physical>,
                 id: Id)
    returns (longer: seq<(Id, nat)>, next: map<Id, Physical>)
    requires id in physical && id !in killed && id in out && out[id] == physical[id]
    requires out == Kill(physical, killed) && Lists(dead, physical, killed)
    ensures next == Kill(physical, killed + {id}) && Lists(longer, physical, killed + {id})
  {
    KillOneMore(physical, killed, id);
    ListsOneMore(dead, physical, killed, id);
    longer := dead + [(id, out[id].length)];
    next := out[id := out[id].(state := Dead)];
  }
}

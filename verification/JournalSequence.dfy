/**
 Device sequence numbers (crates/mirage-db/src/operation.rs:488-529, 650-687). The counter
 is meant never to hand out a number the journal already holds. It does so exactly when
 the volume has a counter row or an empty journal: the statement that creates the counter
 row returns one less than the one that updates it.
 */
module JournalSequence {
  import opened Basics
  import opened PayloadLedger

  datatype Book = Book(ledger: Ledger, counters: map<Id, int>)

  predicate HasOperations(operations: map<Id, Operation>, volume: Id) {
    exists op :: op in operations && operations[op].volume == volume
  }

  /** COALESCE(MAX(device_seq) + 1, 0) over the volume's operations. */
  predicate IsJournalNext(operations: map<Id, Operation>, volume: Id, next: int) {
    && (forall op :: op in operations && operations[op].volume == volume ==> operations[op].seqNo < next)
    && (if HasOperations(operations, volume)
        then exists op :: op in operations && operations[op].volume == volume && operations[op].seqNo == next - 1
        else next == 0)
  }

  lemma {:induction false} JournalNextExists(operations: map<Id, Operation>, volume: Id) returns (next: int)
    ensures IsJournalNext(operations, volume, next)
    decreases |operations|
  {
    if !HasOperations(operations, volume) {
      next := 0;
    } else {
      var op :| op in operations && operations[op].volume == volume;
      var rest := operations - {op};
      assert operations.Keys == rest.Keys + {op};
      assert |operations.Keys| == |rest.Keys| + 1;
      var below := JournalNextExists(rest, volume);
      next := if HasOperations(rest, volume) then Max(below, operations[op].seqNo + 1) else operations[op].seqNo + 1;
      if next == operations[op].seqNo + 1 {
        assert operations[op].seqNo == next - 1;
      } else {
        var top :| top in rest && rest[top].volume == volume && rest[top].seqNo == below - 1;
        assert top in operations && operations[top].seqNo == next - 1;
      }
    }
  }

  ghost function JournalNext(operations: map<Id, Operation>, volume: Id): (next: int)
    ensures IsJournalNext(operations, volume, next)
  {
    assert exists n :: IsJournalNext(operations, volume, n) by { var n := JournalNextExists(operations, volume); }
    var n :| IsJournalNext(operations, volume, n);
    n
  }

  /** The upsert: `next_seq` after it, and `next_seq - 1` handed out. */
  ghost function Allocate(b: Book, volume: Id): (int, Book) {
    var next := JournalNext(b.ledger.operations, volume);
    var stored := if volume in b.counters then Max(b.counters[volume], next) + 1 else next;
    (stored - 1, b.(counters := b.counters[volume := stored]))
  }

  /** An allocated number is unused exactly when the counter row existed or the journal was empty. */
  lemma FreshExactlyWhen(b: Book, volume: Id)
    ensures SequenceFree(b.ledger.operations, volume, Allocate(b, volume).0)
            <==> volume in b.counters || !HasOperations(b.ledger.operations, volume)
  {
    var next := JournalNext(b.ledger.operations, volume);
    if volume !in b.counters && HasOperations(b.ledger.operations, volume) {
      var op :| op in b.ledger.operations && b.ledger.operations[op].volume == volume
          && b.ledger.operations[op].seqNo == next - 1;
      assert b.ledger.operations[op].seqNo == Allocate(b, volume).0;
    }
  }

  /** A journal with one operation and no counter row, as the migration leaves it: the number is taken. */
  lemma MigratedJournalCollides(volume: Id, op: Id)
    ensures var l := Ledger(map[], map[], map[], map[], map[], map[op := Operation(volume, 7, Committed)], map[]);
            var b := Book(l, map[]);
            Allocate(b, volume).0 == 7 && !SequenceFree(l.operations, volume, Allocate(b, volume).0)
  {
    var l := Ledger(map[], map[], map[], map[], map[], map[op := Operation(volume, 7, Committed)], map[]);
    assert op in l.operations && l.operations[op].volume == volume;
    var next := JournalNext(l.operations, volume);
  }

  /** sequenced_mutation_commit: reservation, number, mutation; any error takes all of it back. */
  ghost function SequencedCommit(b: Book, reservation: Option<(Id, nat, nat, int)>, m: Option<Mutation>, op: Id,
                                 volume: Id,
                                 payloads: seq<Id>, physical: Option<Id>): Book
  {
    var reserved :=
      if reservation.Some? && physical.Some? then
        var (file, slot, length, expires) := reservation.value;
        ReserveExtent(b.ledger, physical.value, file, slot, length, expires)
      else Ok(b.ledger);
    if reserved.Err? then b
    else
      var (seqNo, counted) := Allocate(b.(ledger := reserved.value), volume);
      var committed := CommitMutation(counted.ledger, m, op, volume, seqNo, payloads, physical);
      if committed.Ok? then counted.(ledger := committed.value) else b
  }

  /** While a volume has journaled operations but no counter row, every sequenced commit to it is refused. */
  lemma WithoutCounterNothingCommits(b: Book, reservation: Option<(Id, nat, nat, int)>, m: Option<Mutation>, op: Id,
                                     volume: Id, payloads: seq<Id>, physical: Option<Id>)
    requires Stuck(b, volume)
    ensures SequencedCommit(b, reservation, m, op, volume, payloads, physical) == b
  {
    if reservation.Some? && physical.Some? {
      var (file, slot, length, expires) := reservation.value;
      var reserved := ReserveExtent(b.ledger, physical.value, file, slot, length, expires);
      if reserved.Ok? {
        assert reserved.value.operations == b.ledger.operations;
        FreshExactlyWhen(b.(ledger := reserved.value), volume);
      }
    } else {
      FreshExactlyWhen(b, volume);
    }
  }

  // ----- Runs -----

  /** The volume's next number is taken. */
  predicate Stuck(b: Book, volume: Id) {
    volume !in b.counters && HasOperations(b.ledger.operations, volume)
  }

  /**
   Transactions: a number taken by itself, which stays taken; a sequenced commit; a journal
   entry beside a namespace change; and every other transaction of the ledger.
   */
  datatype Deed =
    | Standalone(volume: Id)
    | Sequenced(volume: Id, op: Id, reservation: Option<(Id, nat, nat, int)>, mutation: Option<Mutation>,
                payloads: seq<Id>, physical: Option<Id>)
    | Entry(volume: Id, op: Id)
    | Elsewhere(step: Step)

  /** journal_entry_commit_in: number, pending operation, commit; any error takes all of it back. */
  ghost function EntryCommit(b: Book, op: Id, volume: Id): Book {
    var (seqNo, counted) := Allocate(b, volume);
    var begun := AddOperation(counted.ledger, op, volume, seqNo, Pending, [], false);
    if begun.Err? then b
    else
      var committed := CommitOperation(begun.value, op);
      if committed.Ok? then counted.(ledger := committed.value) else b
  }

  ghost function Perform(b: Book, d: Deed): Book {
    match d
    case Standalone(volume) => Allocate(b, volume).1
    case Sequenced(volume, op, reservation, m, payloads, physical) =>
      SequencedCommit(b, reservation, m, op, volume, payloads, physical)
    case Entry(volume, op) => EntryCommit(b, op, volume)
    case Elsewhere(step) => b.(ledger := Apply(State(b.ledger, {}), step).ledger)
  }

  ghost function PerformAll(b: Book, deeds: seq<Deed>): Book {
    if |deeds| == 0 then b else Perform(PerformAll(b, deeds[..|deeds| - 1]), deeds[|deeds| - 1])
  }

  /** The transaction journals an operation of the volume under a number it allocates. */
  predicate Numbered(d: Deed, volume: Id) {
    (d.Sequenced? || d.Entry?) && d.volume == volume
  }

  /** No operation disappears or changes its volume or number. */
  predicate Grew(before: map<Id, Operation>, after: map<Id, Operation>) {
    forall op :: op in before ==>
      op in after && after[op].volume == before[op].volume && after[op].seqNo == before[op].seqNo
  }

  lemma MutationLogs(l: Ledger, m: Option<Mutation>, op: Id, volume: Id, seqNo: int, payloads: seq<Id>,
                     physical: Option<Id>)
    requires CommitMutation(l, m, op, volume, seqNo, payloads, physical).Ok?
    ensures op !in l.operations
    ensures CommitMutation(l, m, op, volume, seqNo, payloads, physical).value.operations
            == l.operations[op := Operation(volume, seqNo, Committed)]
  {
  }

  lemma RowStepGrows(l: Ledger, t: RowStep)
    ensures Grew(l.operations, AfterRows(l, t).operations)
  {
    match t
    case DoCommitMutation(m, op, volume, seqNo, payloads, physical) =>
      if CommitMutation(l, m, op, volume, seqNo, payloads, physical).Ok? {
        MutationLogs(l, m, op, volume, seqNo, payloads, physical);
      }
    case DoPublish(records) => if Publish(l, records).Ok? { PublishRecords(l, records); }
    case _ =>
  }

  lemma ExtentStepGrows(l: Ledger, t: ExtentStep)
    ensures AfterExtents(l, t).operations == l.operations
  {
    match t
    case DoReserve(id, file, slot, length, expires) =>
      assert OrElse(ReserveExtent(l, id, file, slot, length, expires), l).operations == l.operations;
    case DoRevive(id, file, slot, length) => assert OrElse(Revive(l, id, file, slot, length), l).operations
                                             == l.operations;
    case _ =>
  }

  lemma StatusGrows(l: Ledger, ops: set<Id>, from: Status, to: Status)
    ensures Grew(l.operations, SetStatus(l, ops, from, to).operations)
  {
  }

  lemma AdvanceGrows(l: Ledger, ops: set<Id>, from: Status)
    ensures Grew(l.operations, Advance(l, ops, from).operations)
  {
    match from
    case Pending => StatusGrows(l, ops, Pending, Reclaimed);
    case Committed => StatusGrows(l, ops, Committed, Flushed);
    case Flushed => StatusGrows(l, ops, Flushed, Published);
    case _ =>
  }

  lemma JournalStepGrows(l: Ledger, t: JournalStep)
    ensures Grew(l.operations, AfterJournal(l, t).operations)
  {
    match t
    case DoBegin(_, _, _, _) =>
    case DoFlush(_) =>
    case DoCommitOperation(op) => StatusGrows(l, {op}, Pending, Committed);
    case DoAdvance(ops, from) => AdvanceGrows(l, ops, from);
  }

  lemma StepGrows(l: Ledger, step: Step)
    ensures Grew(l.operations, Apply(State(l, {}), step).ledger.operations)
  {
    match step
    case OnRows(t) => RowStepGrows(l, t);
    case OnExtents(t) => ExtentStepGrows(l, t);
    case OnJournal(t) => JournalStepGrows(l, t);
    case DoList(_, _) =>
  }

  /** The operation was journaled under the number the counter then stands behind. */
  ghost predicate Journaled(b: Book, after: Book, volume: Id, op: Id) {
    && op !in b.ledger.operations
    && after.ledger.operations == b.ledger.operations[op := Operation(volume, Allocate(b, volume).0, Committed)]
    && after.counters == b.counters[volume := Allocate(b, volume).0 + 1]
  }

  lemma SequencedEffect(b: Book, d: Deed)
    requires d.Sequenced?
    ensures Perform(b, d) == b || Journaled(b, Perform(b, d), d.volume, d.op)
  {
    var reserved :=
      if d.reservation.Some? && d.physical.Some? then
        var (file, slot, length, expires) := d.reservation.value;
        ReserveExtent(b.ledger, d.physical.value, file, slot, length, expires)
      else Ok(b.ledger);
    if reserved.Ok? {
      assert reserved.value.operations == b.ledger.operations;
      var (seqNo, counted) := Allocate(b.(ledger := reserved.value), d.volume);
      if CommitMutation(counted.ledger, d.mutation, d.op, d.volume, seqNo, d.payloads, d.physical).Ok? {
        MutationLogs(counted.ledger, d.mutation, d.op, d.volume, seqNo, d.payloads, d.physical);
      }
    }
  }

  lemma EntryEffect(b: Book, d: Deed)
    requires d.Entry?
    ensures Perform(b, d) == b || Journaled(b, Perform(b, d), d.volume, d.op)
  {
    var (seqNo, counted) := Allocate(b, d.volume);
    var begun := AddOperation(counted.ledger, d.op, d.volume, seqNo, Pending, [], false);
    if begun.Ok? && CommitOperation(begun.value, d.op).Ok? {
      assert CommitOperation(begun.value, d.op).value.operations
          == b.ledger.operations[d.op := Operation(d.volume, seqNo, Committed)];
    }
  }

  lemma NumberedEffect(b: Book, d: Deed)
    requires d.Sequenced? || d.Entry?
    ensures Perform(b, d) == b || Journaled(b, Perform(b, d), d.volume, d.op)
  {
    if d.Sequenced? { SequencedEffect(b, d); } else { EntryEffect(b, d); }
  }

  lemma PerformGrows(b: Book, d: Deed)
    ensures Grew(b.ledger.operations, Perform(b, d).ledger.operations)
    ensures b.counters.Keys <= Perform(b, d).counters.Keys
  {
    match d
    case Standalone(_) =>
    case Elsewhere(step) => StepGrows(b.ledger, step);
    case _ => NumberedEffect(b, d);
  }

  /** A stuck volume journals nothing under a new number, and only a number taken by itself ends that. */
  lemma StuckStep(b: Book, volume: Id, d: Deed)
    requires Stuck(b, volume)
    ensures Stuck(Perform(b, d), volume) <==> d != Standalone(volume)
    ensures Numbered(d, volume) ==> Perform(b, d) == b
  {
    PerformGrows(b, d);
    var op :| op in b.ledger.operations && b.ledger.operations[op].volume == volume;
    assert op in Perform(b, d).ledger.operations;
    FreshExactlyWhen(b, volume);
    if d.Sequenced? && d.volume == volume {
      WithoutCounterNothingCommits(b, d.reservation, d.mutation, d.op, volume, d.payloads, d.physical);
    }
  }

  /** Over every run a stuck volume stays stuck exactly as long as no number was taken by itself. */
  lemma {:induction false} StuckUntilAllocated(b: Book, volume: Id, deeds: seq<Deed>)
    requires Stuck(b, volume)
    ensures Stuck(PerformAll(b, deeds), volume) <==> Standalone(volume) !in deeds
    ensures Standalone(volume) in deeds ==> volume in PerformAll(b, deeds).counters
  {
    if |deeds| != 0 {
      var n := |deeds| - 1;
      StuckUntilAllocated(b, volume, deeds[..n]);
      assert deeds == deeds[..n] + [deeds[n]];
      var before := PerformAll(b, deeds[..n]);
      PerformGrows(before, deeds[n]);
      if Stuck(before, volume) { StuckStep(before, volume, deeds[n]); }
    }
  }

  /** Until then every journaling transaction of the run leaves everything as it was. */
  lemma RefusedUntilAllocated(b: Book, volume: Id, deeds: seq<Deed>, k: nat)
    requires Stuck(b, volume) && k < |deeds| && Standalone(volume) !in deeds[..k] && Numbered(deeds[k], volume)
    ensures PerformAll(b, deeds[..k + 1]) == PerformAll(b, deeds[..k])
  {
    StuckUntilAllocated(b, volume, deeds[..k]);
    assert deeds[..k + 1][..k] == deeds[..k];
    StuckStep(PerformAll(b, deeds[..k]), volume, deeds[k]);
  }

  /** From then on the number is good: a fresh operation is accepted after a run exactly if the run took one. */
  lemma AcceptedExactlyOnceAllocated(b: Book, volume: Id, deeds: seq<Deed>, op: Id, payloads: seq<Id>)
    requires Stuck(b, volume)
    requires op !in PerformAll(b, deeds).ledger.operations && FreshPayloads(PerformAll(b, deeds).ledger, payloads)
    ensures var t := PerformAll(b, deeds);
            AddOperation(t.ledger, op, volume, Allocate(t, volume).0, Committed, payloads, true).Ok?
            <==> Standalone(volume) in deeds
  {
    StuckUntilAllocated(b, volume, deeds);
    FreshExactlyWhen(PerformAll(b, deeds), volume);
  }

  /**
   `OperationJournal::begin` takes its number by itself and then journals under it: on a
   stuck volume the first call fails, and the next one with a fresh operation succeeds.
   */
  lemma SecondBeginWorks(b: Book, volume: Id, op: Id, payloads: seq<Id>)
    requires Stuck(b, volume) && op !in b.ledger.operations && FreshPayloads(b.ledger, payloads)
    ensures var (first, once) := Allocate(b, volume);
            var (second, twice) := Allocate(once, volume);
            && AddOperation(once.ledger, op, volume, first, Pending, payloads, false).Err?
            && AddOperation(twice.ledger, op, volume, second, Pending, payloads, false).Ok?
  {
    FreshExactlyWhen(b, volume);
    FreshExactlyWhen(Allocate(b, volume).1, volume);
  }

  // ----- Numbers over a run -----

  /** The step left the volume's counter at a new value. */
  predicate Counted(before: Book, after: Book, volume: Id) {
    volume in after.counters && (volume !in before.counters || after.counters[volume] != before.counters[volume])
  }

  /** The numbers a run hands out to a volume and does not take back, in order. */
  ghost function Handed(b: Book, volume: Id, deeds: seq<Deed>): seq<int> {
    if |deeds| == 0 then []
    else
      var n := |deeds| - 1;
      var after := PerformAll(b, deeds);
      Handed(b, volume, deeds[..n])
      + if Counted(PerformAll(b, deeds[..n]), after, volume) then [after.counters[volume] - 1] else []
  }

  /** A number that counts is above the counter before it, and is the one the operation is journaled under. */
  lemma CountedNumber(b: Book, volume: Id, d: Deed)
    requires Counted(b, Perform(b, d), volume)
    ensures volume in b.counters ==> b.counters[volume] < Perform(b, d).counters[volume]
    ensures d == Standalone(volume) || Numbered(d, volume)
    ensures Numbered(d, volume) ==>
              && d.op !in b.ledger.operations && d.op in Perform(b, d).ledger.operations
              && Perform(b, d).ledger.operations[d.op]
                  == Operation(volume, Perform(b, d).counters[volume] - 1, Committed)
  {
    if d.Sequenced? || d.Entry? { NumberedEffect(b, d); }
  }

  ghost predicate Rising(numbers: seq<int>, b: Book, volume: Id) {
    && (forall i, j :: 0 <= i < j < |numbers| ==> numbers[i] < numbers[j])
    && (numbers != [] ==> volume in b.counters)
    && (forall i :: 0 <= i < |numbers| ==> numbers[i] < b.counters[volume])
  }

  lemma RisesOn(numbers: seq<int>, before: Book, after: Book, volume: Id)
    requires Rising(numbers, before, volume) && before.counters.Keys <= after.counters.Keys
    requires Counted(before, after, volume) && volume in before.counters ==>
               before.counters[volume] < after.counters[volume]
    ensures Rising(numbers + if Counted(before, after, volume) then [after.counters[volume] - 1] else [], after, volume)
  {
  }

  /** The numbers a volume is handed strictly grow, whatever else the run does and takes back. */
  lemma {:induction false} NeverHandedOutTwice(b: Book, volume: Id, deeds: seq<Deed>)
    ensures Rising(Handed(b, volume, deeds), PerformAll(b, deeds), volume)
  {
    if |deeds| != 0 {
      var n := |deeds| - 1;
      NeverHandedOutTwice(b, volume, deeds[..n]);
      var before, after := PerformAll(b, deeds[..n]), PerformAll(b, deeds);
      PerformGrows(before, deeds[n]);
      if Counted(before, after, volume) { CountedNumber(before, volume, deeds[n]); }
      RisesOn(Handed(b, volume, deeds[..n]), before, after, volume);
    }
  }

  /** With a counter row, the number never is what makes a sequenced commit fail. */
  lemma WithCounterNumberIsAccepted(b: Book, op: Id, volume: Id, payloads: seq<Id>)
    requires volume in b.counters && op !in b.ledger.operations && FreshPayloads(b.ledger, payloads)
    ensures AddOperation(b.ledger, op, volume, Allocate(b, volume).0, Committed, payloads, true).Ok?
  {
    FreshExactlyWhen(b, volume);
  }
}

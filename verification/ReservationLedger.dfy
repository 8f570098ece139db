/**
 The cache budget ledger (crates/mirage-cache/src/reservation_ledger.rs and budget.rs): 64-bit
 counters under a lock, changed by reservations that are later committed, released or
 dropped. Each critical section is one step.
 */
module ReservationLedger {
  import opened Basics

  datatype Class = Blocking | Capsule | Prefetch | DirtyUpdate | Staging

  datatype Config = Config(hard: nat, prefetchSoft: nat, safety: nat, dirtyUpdate: nat)

  predicate Validated(c: Config) {
    0 < c.hard <= U64_MAX && c.prefetchSoft <= c.hard && c.safety <= c.hard && c.dirtyUpdate <= c.safety
  }

  predicate IsDirty(class_: Class) {
    class_ == DirtyUpdate || class_ == Staging
  }

  datatype Reservation = Reservation(bytes: nat, class_: Class, active: bool)

  datatype State = State(committed: nat, reserved: int, dirtyReserved: int, peak: nat, handed: seq<Reservation>)

  datatype Event =
    | Reserve(bytes: nat, class_: Class)
    | Commit(ticket: nat)
    | Release(ticket: nat)
    | SetCommitted(bytes: nat)

  function Limit(c: Config, class_: Class): int {
    match class_
    case Prefetch => c.prefetchSoft
    case DirtyUpdate | Staging => c.hard
    case Blocking | Capsule => c.hard - c.safety
  }

  // ----- Sums over live reservations -----

  function Live(r: Reservation, dirtyOnly: bool): nat {
    if r.active && (!dirtyOnly || IsDirty(r.class_)) then r.bytes else 0
  }

  function Sum(rs: seq<Reservation>, dirtyOnly: bool): nat {
    if |rs| == 0 then 0 else Sum(rs[..|rs| - 1], dirtyOnly) + Live(rs[|rs| - 1], dirtyOnly)
  }

  lemma SumSnoc(rs: seq<Reservation>, r: Reservation, dirtyOnly: bool)
    ensures Sum(rs + [r], dirtyOnly) == Sum(rs, dirtyOnly) + Live(r, dirtyOnly)
  {
    assert (rs + [r])[..|rs|] == rs;
  }

  lemma {:induction false} SumClose(rs: seq<Reservation>, k: nat, dirtyOnly: bool)
    requires k < |rs|
    ensures Sum(rs[k := rs[k].(active := false)], dirtyOnly) == Sum(rs, dirtyOnly) - Live(rs[k], dirtyOnly)
    decreases |rs|
  {
    var n := |rs| - 1;
    if k < n {
      assert rs[k := rs[k].(active := false)][..n] == rs[..n][k := rs[k].(active := false)];
      SumClose(rs[..n], k, dirtyOnly);
    } else {
      assert rs[k := rs[k].(active := false)][..n] == rs[..n];
    }
  }

  lemma {:induction false} DirtyWithinAll(rs: seq<Reservation>)
    ensures Sum(rs, true) <= Sum(rs, false)
  {
    if |rs| > 0 { DirtyWithinAll(rs[..|rs| - 1]); }
  }

  // ----- Steps -----

  /** Whether a reservation is granted; sums past 64 bits are refused like sums past the limit. */
  predicate Granted(c: Config, s: State, bytes: nat, class_: Class) {
    && bytes > 0
    && s.committed + s.reserved + bytes <= Limit(c, class_)
    && (IsDirty(class_) ==> s.dirtyReserved + bytes <= c.dirtyUpdate)
  }

  predicate MayCommit(s: State, ticket: nat) {
    ticket < |s.handed| && s.handed[ticket].active
  }

  function Close(s: State, ticket: nat): State
    requires ticket < |s.handed|
  {
    var r := s.handed[ticket];
    s.(reserved := s.reserved - r.bytes,
       dirtyReserved := if IsDirty(r.class_) then s.dirtyReserved - r.bytes else s.dirtyReserved,
       handed := s.handed[ticket := r.(active := false)])
  }

  function Next(c: Config, s: State, e: Event): State {
    match e
    case Reserve(bytes, class_) =>
      if !Granted(c, s, bytes, class_) then s
      else
        s.(reserved := s.reserved + bytes,
           dirtyReserved := if IsDirty(class_) then s.dirtyReserved + bytes else s.dirtyReserved,
           peak := if s.peak < s.committed + s.reserved + bytes then s.committed + s.reserved + bytes else s.peak,
           handed := s.handed + [Reservation(bytes, class_, true)])
    case Commit(ticket) =>
      if !MayCommit(s, ticket) then s else Close(s, ticket).(committed := s.committed + s.handed[ticket].bytes)
    case Release(ticket) => if MayCommit(s, ticket) then Close(s, ticket) else s
    case SetCommitted(bytes) =>
      if bytes + s.reserved > c.hard then s
      else s.(committed := bytes, peak := if s.peak < bytes + s.reserved then bytes + s.reserved else s.peak)
  }

  function Run(c: Config, s: State, events: seq<Event>): State
    decreases |events|
  {
    if |events| == 0 then s else Run(c, Next(c, s, events[0]), events[1..])
  }

  predicate Inv(c: Config, s: State) {
    && Validated(c)
    && s.reserved == Sum(s.handed, false) && s.dirtyReserved == Sum(s.handed, true)
    && s.committed + s.reserved <= s.peak <= c.hard
    && s.dirtyReserved <= c.dirtyUpdate
  }

  /** A live reservation is part of the sums, so taking it out cannot underflow. */
  lemma LiveIsCounted(s: State, ticket: nat)
    requires s.reserved == Sum(s.handed, false) && s.dirtyReserved == Sum(s.handed, true) && MayCommit(s, ticket)
    ensures s.handed[ticket].bytes <= s.reserved
    ensures IsDirty(s.handed[ticket].class_) ==> s.handed[ticket].bytes <= s.dirtyReserved
    ensures Close(s, ticket).reserved == Sum(Close(s, ticket).handed, false)
    ensures Close(s, ticket).dirtyReserved == Sum(Close(s, ticket).handed, true)
  {
    SumClose(s.handed, ticket, false);
    SumClose(s.handed, ticket, true);
  }

  lemma ReserveKeepsInv(c: Config, s: State, bytes: nat, class_: Class)
    requires Inv(c, s) && Granted(c, s, bytes, class_)
    ensures Inv(c, Next(c, s, Reserve(bytes, class_)))
  {
    var r := Reservation(bytes, class_, true);
    SumSnoc(s.handed, r, false);
    SumSnoc(s.handed, r, true);
  }

  lemma StepKeepsInv(c: Config, s: State, e: Event)
    requires Inv(c, s)
    ensures Inv(c, Next(c, s, e))
  {
    match e
    case Reserve(bytes, class_) => if Granted(c, s, bytes, class_) { ReserveKeepsInv(c, s, bytes, class_); }
    case Commit(ticket) => if MayCommit(s, ticket) { LiveIsCounted(s, ticket); }
    case Release(ticket) => if MayCommit(s, ticket) { LiveIsCounted(s, ticket); }
    case SetCommitted(_) =>
  }

  /** Over every run the counters are the sums over live reservations and the envelope stays within peak and budget. */
  lemma {:induction false} RunKeepsInv(c: Config, s: State, events: seq<Event>)
    requires Inv(c, s)
    ensures Inv(c, Run(c, s, events))
    decreases |events|
  {
    if |events| != 0 {
      StepKeepsInv(c, s, events[0]);
      RunKeepsInv(c, Next(c, s, events[0]), events[1..]);
    }
  }

  /** Committing a live reservation never overflows: its bytes are inside the envelope already. */
  lemma CommitNeverOverflows(c: Config, s: State, ticket: nat)
    requires Inv(c, s) && MayCommit(s, ticket)
    ensures s.committed + s.handed[ticket].bytes <= c.hard <= U64_MAX
    ensures Next(c, s, Commit(ticket)).peak == s.peak
    ensures Next(c, s, Commit(ticket)).committed + Next(c, s, Commit(ticket)).reserved == s.committed + s.reserved
  {
    LiveIsCounted(s, ticket);
  }

  /** The envelope without dirty reservations leaves the safety reserve free. */
  predicate Room(c: Config, s: State) {
    s.committed + (s.reserved - s.dirtyReserved) <= c.hard - c.safety
  }

  /** A dirty request within its allotment is granted while the safety reserve is free of other uses. */
  lemma DirtyIsGranted(c: Config, s: State, bytes: nat, class_: Class)
    requires Inv(c, s) && IsDirty(class_) && bytes > 0 && s.dirtyReserved + bytes <= c.dirtyUpdate && Room(c, s)
    ensures Granted(c, s, bytes, class_)
  {
  }

  /** Which steps keep that room: releases and blocking reservations do; commits of dirty bytes may not. */
  lemma RoomIsKept(c: Config, s: State, e: Event)
    requires Inv(c, s) && Room(c, s)
    requires match e
             case Reserve(_, class_) => class_ != Prefetch || c.prefetchSoft <= c.hard - c.safety
             case Release(_) => true
             case Commit(ticket) => MayCommit(s, ticket) ==> !IsDirty(s.handed[ticket].class_)
             case SetCommitted(bytes) => bytes <= s.committed
    ensures Room(c, Next(c, s, e))
  {
    match e
    case Commit(ticket) => if MayCommit(s, ticket) { LiveIsCounted(s, ticket); }
    case Release(ticket) => if MayCommit(s, ticket) { LiveIsCounted(s, ticket); }
    case _ => DirtyWithinAll(s.handed);
  }

  function Fresh(committed: nat): State {
    State(committed, 0, 0, committed, [])
  }

  /** Prefetching leaves the room alone in every state exactly when its own ceiling does. */
  lemma PrefetchKeepsRoomExactlyWhen(c: Config)
    requires Validated(c)
    ensures (forall s, bytes: nat :: Inv(c, s) && Room(c, s) ==> Room(c, Next(c, s, Reserve(bytes, Prefetch))))
            <==> c.prefetchSoft <= c.hard - c.safety
  {
    if c.prefetchSoft <= c.hard - c.safety {
      forall s, bytes: nat | Inv(c, s) && Room(c, s)
        ensures Room(c, Next(c, s, Reserve(bytes, Prefetch)))
      {
        RoomIsKept(c, s, Reserve(bytes, Prefetch));
      }
    } else {
      assert Inv(c, Fresh(0)) && Room(c, Fresh(0));
      assert !Room(c, Next(c, Fresh(0), Reserve(c.prefetchSoft, Prefetch)));
    }
  }

  /** With a ceiling above that, one prefetch can make a dirty update within its allotment fail. */
  lemma PrefetchCanStarveDirty()
    ensures var c := Config(10, 10, 5, 5);
            var s := Next(c, Fresh(0), Reserve(10, Prefetch));
            Validated(c) && Inv(c, Fresh(0)) && s.dirtyReserved + 1 <= c.dirtyUpdate && !Granted(c, s, 1, DirtyUpdate)
  {
    assert Inv(Config(10, 10, 5, 5), Fresh(0));
  }

  // ----- The ledger -----

  class Ledger {
    const config: Config
    var committed: nat
    var reserved: nat
    var dirtyReserved: nat
    var peak: nat
    var handed: seq<Reservation>

    ghost function View(): State
      reads this
    {
      State(committed, reserved, dirtyReserved, peak, handed)
    }

    ghost predicate Valid()
      reads this
    {
      Inv(config, View())
    }

    constructor (config: Config, committed: nat)
      requires Validated(config) && committed <= config.hard
      ensures Valid() && this.config == config && View() == Fresh(committed)
    {
      this.config, this.committed := config, committed;
      reserved, dirtyReserved, peak, handed := 0, 0, committed, [];
    }

    method Reserve(bytes: nat, class_: Class) returns (ticket: Option<nat>)
      requires Valid() && bytes <= U64_MAX
      modifies this
      ensures Valid() && View() == Next(config, old(View()), Event.Reserve(bytes, class_))
      ensures ticket.Some? <==> Granted(config, old(View()), bytes, class_)
      ensures ticket.Some? ==>
                MayCommit(View(), ticket.value) && handed[ticket.value] == Reservation(bytes, class_, true)
    {
      StepKeepsInv(config, View(), Event.Reserve(bytes, class_));
      var granted := Check(bytes, class_);
      if !granted { return None; }
      peak := if peak < committed + reserved + bytes then committed + reserved + bytes else peak;
      reserved := reserved + bytes;
      if IsDirty(class_) { dirtyReserved := dirtyReserved + bytes; }
      handed := handed + [Reservation(bytes, class_, true)];
      ticket := Some(|handed| - 1);
    }

    /** The checks of `reserve`, in 64-bit arithmetic. */
    method Check(bytes: nat, class_: Class) returns (granted: bool)
      requires Validated(config) && bytes <= U64_MAX
      ensures granted <==> Granted(config, View(), bytes, class_)
    {
      if bytes == 0 { return false; }
      if reserved + bytes > U64_MAX || committed + reserved + bytes > U64_MAX { return false; }
      if committed + reserved + bytes > Limit(config, class_) { return false; }
      if IsDirty(class_) {
        if dirtyReserved + bytes > U64_MAX { return false; }
        if dirtyReserved + bytes > config.dirtyUpdate { return false; }
      }
      return true;
    }

    /** Consumes a live reservation; the overflow check never fails. */
    method Commit(ticket: nat) returns (ok: bool)
      requires Valid() && MayCommit(View(), ticket)
      modifies this
      ensures Valid() && ok && View() == Next(config, old(View()), Event.Commit(ticket))
    {
      StepKeepsInv(config, View(), Event.Commit(ticket));
      LiveIsCounted(View(), ticket);
      var r := handed[ticket];
      if committed + r.bytes > U64_MAX { return false; }
      reserved := reserved - r.bytes;
      if IsDirty(r.class_) { dirtyReserved := dirtyReserved - r.bytes; }
      committed := committed + r.bytes;
      handed := handed[ticket := r.(active := false)];
      ok := true;
    }

    /** Release and drop: at most once per reservation. */
    method ReleaseInner(ticket: nat)
      requires Valid() && ticket < |handed|
      modifies this
      ensures Valid() && View() == Next(config, old(View()), Release(ticket))
    {
      StepKeepsInv(config, View(), Release(ticket));
      var r := handed[ticket];
      if !r.active { return; }
      LiveIsCounted(View(), ticket);
      reserved := reserved - r.bytes;
      if IsDirty(r.class_) { dirtyReserved := dirtyReserved - r.bytes; }
      handed := handed[ticket := r.(active := false)];
    }

    method SetCommittedBytes(bytes: nat) returns (ok: bool)
      requires Valid()
      modifies this
      ensures Valid() && View() == Next(config, old(View()), SetCommitted(bytes))
      ensures ok <==> bytes + old(reserved) <= config.hard
    {
      StepKeepsInv(config, View(), SetCommitted(bytes));
      if bytes + reserved > config.hard { return false; }
      committed := bytes;
      peak := if peak < bytes + reserved then bytes + reserved else peak;
      ok := true;
    }
  }

  /** ReservationLedger::new: refused on an inconsistent budget or one that is exceeded already. */
  method Open(config: Config, committed: nat) returns (ledger: Option<Ledger>)
    requires config.hard <= U64_MAX
    ensures ledger.Some? <==> Validated(config) && committed <= config.hard
    ensures ledger.Some? ==> fresh(ledger.value) && ledger.value.Valid() && ledger.value.View() == Fresh(committed)
  {
    if config.hard == 0 || config.prefetchSoft > config.hard || config.safety > config.hard
        || config.dirtyUpdate > config.safety {
      return None;
    }
    if committed > config.hard { return None; }
    var opening := new Ledger(config, committed);
    ledger := Some(opening);
  }
}

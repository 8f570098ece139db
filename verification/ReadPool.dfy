/**
 The bounded read-connection pool (crates/mirage-db/src/open.rs:107-193): a mutex, an idle
 list, a permit count and a condition variable. Each critical section is one step; the
 scheduler picks any enabled step, any sleeper to wake, and may wake sleepers for nothing.
 */
module ReadPool {
  import opened Basics

  const READ_POOL_CAPACITY: nat := 8

  datatype Connection = Connection(id: nat)

  /** Where a thread is: `Notified` means woken and not yet back at the lock. */
  datatype Phase = Outside | Opening | Holding(connection: Connection) | Waiting | Notified

  datatype State = State(idle: seq<Connection>, total: nat, created: nat, threads: seq<Phase>)

  /** `woken` is the sleeper that notify_one picks. */
  datatype Event =
    | Attempt(t: nat)
    | OpenOk(t: nat)
    | OpenFail(t: nat, woken: Option<nat>)
    | Return(t: nat, woken: Option<nat>)
    | Spurious(t: nat)

  predicate Sleeps(s: State, t: nat) {
    t < |s.threads| && s.threads[t] == Waiting
  }

  /** notify_one wakes some sleeper when there is one, and is lost otherwise. */
  predicate LegalWake(s: State, woken: Option<nat>) {
    if woken.Some? then Sleeps(s, woken.value) else forall t :: 0 <= t < |s.threads| ==> s.threads[t] != Waiting
  }

  predicate Enabled(s: State, e: Event) {
    && e.t < |s.threads|
    && match e
       case Attempt(t) => s.threads[t] == Outside || s.threads[t] == Notified
       case OpenOk(t) => s.threads[t] == Opening
       case OpenFail(t, woken) => s.threads[t] == Opening && LegalWake(s, woken)
       case Return(t, woken) => s.threads[t].Holding? && LegalWake(s, woken)
       case Spurious(t) => s.threads[t] == Waiting
  }

  function Put(s: State, t: nat, phase: Phase): State
    requires t < |s.threads|
  {
    s.(threads := s.threads[t := phase])
  }

  function Wake(s: State, woken: Option<nat>): State {
    if woken.Some? && woken.value < |s.threads| then Put(s, woken.value, Notified) else s
  }

  function Next(s: State, e: Event): State
    requires Enabled(s, e)
  {
    match e
    case Attempt(t) =>
      if |s.idle| > 0 then Put(s, t, Holding(s.idle[|s.idle| - 1])).(idle := s.idle[..|s.idle| - 1])
      else if s.total < READ_POOL_CAPACITY then Put(s, t, Opening).(total := s.total + 1)
      else Put(s, t, Waiting)
    case OpenOk(t) => Put(s, t, Holding(Connection(s.created))).(created := s.created + 1)
    case OpenFail(t, woken) => Wake(Put(s, t, Outside).(total := if s.total > 0 then s.total - 1 else 0), woken)
    case Return(t, woken) => Wake(Put(s, t, Outside).(idle := s.idle + [s.threads[t].connection]), woken)
    case Spurious(t) => Put(s, t, Notified)
  }

  predicate Legal(s: State, events: seq<Event>)
    decreases |events|
  {
    |events| > 0 ==> Enabled(s, events[0]) && Legal(Next(s, events[0]), events[1..])
  }

  function Exec(s: State, events: seq<Event>): State
    requires Legal(s, events)
    decreases |events|
  {
    if |events| == 0 then s else Exec(Next(s, events[0]), events[1..])
  }

  // ----- Counting threads -----

  datatype Kind = Busy | Woken

  predicate Is(p: Phase, kind: Kind) {
    match kind
    case Busy => p.Holding? || p == Opening
    case Woken => p == Notified
  }

  function One(p: Phase, kind: Kind): nat {
    if Is(p, kind) then 1 else 0
  }

  function Count(threads: seq<Phase>, kind: Kind): nat {
    if |threads| == 0 then 0 else One(threads[0], kind) + Count(threads[1..], kind)
  }

  lemma {:induction false} CountPut(threads: seq<Phase>, t: nat, p: Phase, kind: Kind)
    requires t < |threads|
    ensures Count(threads[t := p], kind) == Count(threads, kind) - One(threads[t], kind) + One(p, kind)
  {
    if t == 0 {
      assert threads[0 := p][1..] == threads[1..];
    } else {
      assert threads[t := p][1..] == threads[1..][t - 1 := p];
      CountPut(threads[1..], t - 1, p, kind);
    }
  }

  lemma {:induction false} CountPositive(threads: seq<Phase>, t: nat, kind: Kind)
    requires t < |threads| && Is(threads[t], kind)
    ensures Count(threads, kind) > 0
  {
    if t > 0 { CountPositive(threads[1..], t - 1, kind); }
  }

  lemma {:induction false} CountWitness(threads: seq<Phase>, kind: Kind) returns (t: nat)
    requires Count(threads, kind) > 0
    ensures t < |threads| && Is(threads[t], kind)
  {
    if Is(threads[0], kind) {
      t := 0;
    } else {
      t := CountWitness(threads[1..], kind);
      t := t + 1;
    }
  }

  // ----- The invariant -----

  /** Permits nobody holds: idle connections and connections still allowed to be opened. */
  function Free(s: State): int {
    |s.idle| + READ_POOL_CAPACITY - s.total
  }

  predicate Accounted(s: State) {
    s.total == |s.idle| + Count(s.threads, Busy) && s.total <= READ_POOL_CAPACITY
  }

  /** While a thread sleeps, every free permit has a woken thread coming for it. */
  ghost predicate NoLostWakeup(s: State) {
    (exists t :: Sleeps(s, t)) ==> Free(s) <= Count(s.threads, Woken)
  }

  /** Each connection is in one place: idle once, or with one thread. */
  predicate Exclusive(s: State) {
    && (forall i, j :: 0 <= i < j < |s.idle| ==> s.idle[i] != s.idle[j])
    && (forall i :: 0 <= i < |s.idle| ==> s.idle[i].id < s.created)
    && (forall t :: 0 <= t < |s.threads| && s.threads[t].Holding? ==>
        s.threads[t].connection.id < s.created && s.threads[t].connection !in s.idle)
    && (forall t, u :: 0 <= t < u < |s.threads| && s.threads[t].Holding? && s.threads[u].Holding? ==>
        s.threads[t].connection != s.threads[u].connection)
  }

  ghost predicate Inv(s: State) {
    Accounted(s) && NoLostWakeup(s) && Exclusive(s)
  }

  lemma AttemptKeepsCounts(s: State, t: nat)
    requires Accounted(s) && NoLostWakeup(s) && Enabled(s, Attempt(t))
    ensures Accounted(Next(s, Attempt(t))) && NoLostWakeup(Next(s, Attempt(t)))
  {
    var out := Next(s, Attempt(t));
    CountPut(s.threads, t, out.threads[t], Busy);
    CountPut(s.threads, t, out.threads[t], Woken);
    if exists u :: Sleeps(out, u) {
      if out.threads[t] != Waiting {
        var u :| Sleeps(out, u);
        assert Sleeps(s, u);
      }
    }
  }

  /** A permit becomes free and one sleeper is woken for it. */
  lemma FreeKeepsCounts(s: State, t: nat, mid: State, woken: Option<nat>)
    requires Accounted(s) && NoLostWakeup(s) && t < |s.threads| && Is(s.threads[t], Busy) && LegalWake(s, woken)
    requires mid.threads == s.threads[t := Outside] && Free(mid) == Free(s) + 1
    requires mid.total == |mid.idle| + Count(s.threads, Busy) - 1 && mid.total <= READ_POOL_CAPACITY
    ensures Accounted(Wake(mid, woken)) && NoLostWakeup(Wake(mid, woken))
  {
    CountPut(s.threads, t, Outside, Busy);
    CountPut(s.threads, t, Outside, Woken);
    var out := Wake(mid, woken);
    if woken.Some? {
      CountPut(mid.threads, woken.value, Notified, Busy);
      CountPut(mid.threads, woken.value, Notified, Woken);
      assert Sleeps(s, woken.value);
    } else {
      assert forall u :: 0 <= u < |s.threads| ==> !Sleeps(out, u);
    }
  }

  lemma StepKeepsCounts(s: State, e: Event)
    requires Accounted(s) && NoLostWakeup(s) && Enabled(s, e)
    ensures Accounted(Next(s, e)) && NoLostWakeup(Next(s, e))
  {
    match e
    case Attempt(t) => AttemptKeepsCounts(s, t);
    case OpenOk(t) =>
      CountPut(s.threads, t, Holding(Connection(s.created)), Busy);
      CountPut(s.threads, t, Holding(Connection(s.created)), Woken);
      assert forall u :: Sleeps(Next(s, e), u) ==> Sleeps(s, u);
    case OpenFail(t, woken) =>
      CountPositive(s.threads, t, Busy);
      FreeKeepsCounts(s, t, Put(s, t, Outside).(total := s.total - 1), woken);
    case Return(t, woken) =>
      FreeKeepsCounts(s, t, Put(s, t, Outside).(idle := s.idle + [s.threads[t].connection]), woken);
    case Spurious(t) =>
      CountPut(s.threads, t, Notified, Busy);
      CountPut(s.threads, t, Notified, Woken);
      assert forall u :: Sleeps(Next(s, e), u) ==> Sleeps(s, u);
  }

  lemma AttemptKeepsExclusive(s: State, t: nat)
    requires Exclusive(s) && Enabled(s, Attempt(t))
    ensures Exclusive(Next(s, Attempt(t)))
  {
    if |s.idle| > 0 {
      var last := s.idle[|s.idle| - 1];
      assert last in s.idle && last !in s.idle[..|s.idle| - 1];
    }
  }

  /** A thread that lets go of what it had, idle or not, shares nothing with anyone. */
  lemma LetGoKeepsExclusive(s: State, t: nat, phase: Phase)
    requires Exclusive(s) && t < |s.threads| && !phase.Holding?
    ensures Exclusive(Put(s, t, phase))
    ensures s.threads[t].Holding? ==> Exclusive(Put(s, t, phase).(idle := s.idle + [s.threads[t].connection]))
  {
  }

  lemma StepKeepsExclusive(s: State, e: Event)
    requires Exclusive(s) && Enabled(s, e)
    ensures Exclusive(Next(s, e))
  {
    match e
    case Attempt(t) => AttemptKeepsExclusive(s, t);
    case OpenOk(t) =>
    case OpenFail(t, woken) =>
      LetGoKeepsExclusive(s, t, Outside);
      if woken.Some? { LetGoKeepsExclusive(Put(s, t, Outside), woken.value, Notified); }
    case Return(t, woken) =>
      LetGoKeepsExclusive(s, t, Outside);
      if woken.Some? { LetGoKeepsExclusive(Put(s, t, Outside).(idle := s.idle + [s.threads[t].connection]), woken.value,
                                           Notified); }
    case Spurious(t) => LetGoKeepsExclusive(s, t, Notified);
  }

  lemma StepKeepsInv(s: State, e: Event)
    requires Inv(s) && Enabled(s, e)
    ensures Inv(Next(s, e))
  {
    StepKeepsCounts(s, e);
    StepKeepsExclusive(s, e);
  }

  /** In every interleaving, with failed opens, stolen connections and spurious wakeups. */
  lemma {:induction false} RunKeepsInv(s: State, events: seq<Event>)
    requires Inv(s) && Legal(s, events)
    ensures Inv(Exec(s, events))
    decreases |events|
  {
    if |events| != 0 {
      StepKeepsInv(s, events[0]);
      RunKeepsInv(Next(s, events[0]), events[1..]);
    }
  }

  lemma EmptyPoolIsOk(n: nat)
    ensures Inv(State([], 0, 0, seq(n, _ => Outside)))
  {
    var threads := seq(n, _ => Outside);
    if Count(threads, Busy) > 0 {
      var t := CountWitness(threads, Busy);
    }
  }

  /** No deadlock: beside a sleeping thread there is one that holds, opens or has been woken. */
  lemma SomeoneWillRun(s: State, t: nat)
    requires Inv(s) && Sleeps(s, t)
    ensures exists u :: 0 <= u < |s.threads| && (Is(s.threads[u], Busy) || Is(s.threads[u], Woken))
  {
    if Count(s.threads, Busy) > 0 {
      var u := CountWitness(s.threads, Busy);
    } else {
      var u := CountWitness(s.threads, Woken);
    }
  }

  /** A free permit beside a sleeper always has a woken thread on its way. */
  lemma FreePermitIsClaimed(s: State, t: nat)
    requires Inv(s) && Sleeps(s, t) && Free(s) > 0
    ensures exists u :: 0 <= u < |s.threads| && s.threads[u] == Notified
  {
    var u := CountWitness(s.threads, Woken);
  }

  // ----- The critical sections -----

  datatype Turn = Got(connection: Connection) | MayOpen | MustWait

  /** The shared state under its lock; the threads around it are ghost. */
  class Pool {
    var idle: seq<Connection>
    var total: nat
    var created: nat
    ghost var threads: seq<Phase>

    ghost function View(): State
      reads this
    {
      State(idle, total, created, threads)
    }

    ghost predicate Valid()
      reads this
    {
      Inv(View())
    }

    constructor (ghost n: nat)
      ensures Valid() && View() == State([], 0, 0, seq(n, _ => Outside))
    {
      idle, total, created, threads := [], 0, 0, seq(n, _ => Outside);
      new;
      EmptyPoolIsOk(n);
    }

    /** The body of the acquire loop: take an idle connection, reserve a permit, or sleep. */
    method TryAcquire(ghost t: nat) returns (turn: Turn)
      requires Valid() && Enabled(View(), Attempt(t))
      modifies this
      ensures Valid() && View() == Next(old(View()), Attempt(t))
      ensures match turn
              case Got(connection) => threads[t] == Holding(connection)
              case MayOpen => threads[t] == Opening
              case MustWait => threads[t] == Waiting && old(|idle|) == 0 && old(total) == READ_POOL_CAPACITY
    {
      StepKeepsInv(View(), Attempt(t));
      if |idle| > 0 {
        var connection := idle[|idle| - 1];
        idle := idle[..|idle| - 1];
        threads := threads[t := Holding(connection)];
        return Got(connection);
      }
      if total < READ_POOL_CAPACITY {
        total := total + 1;
        threads := threads[t := Opening];
        return MayOpen;
      }
      threads := threads[t := Waiting];
      return MustWait;
    }

    /** A connection was opened under the reserved permit. */
    method FinishOpen(ghost t: nat) returns (connection: Connection)
      requires Valid() && Enabled(View(), OpenOk(t))
      modifies this
      ensures Valid() && View() == Next(old(View()), OpenOk(t)) && threads[t] == Holding(connection)
      ensures forall u :: 0 <= u < |threads| && u != t ==> threads[u] != Holding(connection)
    {
      StepKeepsInv(View(), OpenOk(t));
      connection := Connection(created);
      created := created + 1;
      threads := threads[t := Holding(connection)];
    }

    /** Opening failed: the permit goes back, and the subtraction cannot underflow. */
    method AbandonOpen(ghost t: nat, ghost woken: Option<nat>)
      requires Valid() && Enabled(View(), OpenFail(t, woken))
      modifies this
      ensures Valid() && View() == Next(old(View()), OpenFail(t, woken)) && total == old(total) - 1
    {
      StepKeepsInv(View(), OpenFail(t, woken));
      CountPositive(threads, t, Busy);
      total := total - 1;
      threads := Wake(Put(View(), t, Outside), woken).threads;
    }

    /** Dropping the guard: the connection goes back to the idle list. */
    method GiveBack(connection: Connection, ghost t: nat, ghost woken: Option<nat>)
      requires Valid() && Enabled(View(), Return(t, woken)) && threads[t] == Holding(connection)
      modifies this
      ensures Valid() && View() == Next(old(View()), Return(t, woken))
    {
      StepKeepsInv(View(), Return(t, woken));
      idle := idle + [connection];
      threads := Wake(Put(View(), t, Outside), woken).threads;
    }
  }
}

/**
 Read leases against eviction (crates/mirage-cache/src: resident.rs, lease.rs, index.rs,
 evict.rs). Each resident page has a 64-bit gate word: state in the high half, number of
 leases in the low half. Readers and evictors race on it with atomic steps while inserts
 and discards go on in the slot protocol underneath.
 */
module ReadGate {
  import opened Basics
  import opened CacheTable
  import opened SlotProtocol

  const HALF: nat := 0x1_0000_0000
  const RESIDENT_WORD: nat := 2 * HALF
  const EVICTING_WORD: nat := 3 * HALF
  const LEASE_MASK: nat := 0xffff_ffff

  /** One `ResidentPage`: a record that was resident once, and its gate. */
  datatype Page = Page(slot: nat, generation: nat, hash: PageHash, length: nat, gate: nat)

  /** A reader between the atomic steps of `acquire`, or holding a guard. */
  datatype Reader = Away | Found(page: nat) | Loaded(page: nat, word: nat) | Holding(page: nat)

  /** A thread inside `evict_inner`. */
  datatype Evictor = Off | Chosen(page: nat) | Won(page: nat) | Retiring(page: nat)

  datatype State = State(w: World, pages: seq<Page>, index: map<PageHash, nat>, readers: seq<Reader>,
                         evictors: seq<Evictor>)

  /** `failed`: the database or the arena answers with an error of its own. */
  datatype Move =
    | Install(slot: nat)
    | Lookup(reader: nat, hash: PageHash)
    | Load(reader: nat)
    | CompareExchange(reader: nat, spurious: bool)
    | Release(reader: nat)
    | Choose(evictor: nat, hash: PageHash)
    | CloseGate(evictor: nat)
    | EvictRow(evictor: nat, failed: bool)
    | Unindex(evictor: nat, failed: bool)
    | Protocol(event: Event)

  /** Protocol steps other than crashes, repairs and evictions, which go through the gate. */
  predicate Background(e: Event) {
    !e.BeginEvict? && !e.Crash? && !e.Recover?
  }

  predicate Covered(s: State, slot: nat)
    requires Shaped(s.w) && slot < |s.w.rows|
  {
    exists p :: 0 <= p < |s.pages| && s.pages[p].slot == slot && s.pages[p].generation == s.w.rows[slot].generation
  }

  ghost predicate CanMove(cfg: Config, s: State, m: Move)
    requires Shaped(s.w)
  {
    match m
    case Install(slot) => slot < |s.w.rows| && s.w.rows[slot].state.Resident? && s.w.rows[slot].hash.Some?
                          && !Covered(s, slot)
    case Lookup(r, hash) => r < |s.readers| && s.readers[r].Away? && hash in s.index
    case Load(r) => r < |s.readers| && s.readers[r].Found? && s.readers[r].page < |s.pages|
    case CompareExchange(r, _) => r < |s.readers| && s.readers[r].Loaded? && s.readers[r].page < |s.pages|
    case Release(r) => r < |s.readers| && s.readers[r].Holding? && s.readers[r].page < |s.pages|
    case Choose(v, hash) => v < |s.evictors| && s.evictors[v].Off? && hash in s.index
    case CloseGate(v) => v < |s.evictors| && s.evictors[v].Chosen? && s.evictors[v].page < |s.pages|
    case EvictRow(v, failed) =>
      && v < |s.evictors| && s.evictors[v].Won? && s.evictors[v].page < |s.pages|
      && (!failed && Evicts(s, s.evictors[v].page) ==> Enabled(cfg, s.w, BeginEvict(s.pages[s.evictors[v].page].slot)))
    case Unindex(v, _) => v < |s.evictors| && s.evictors[v].Retiring? && s.evictors[v].page < |s.pages|
    case Protocol(e) => Background(e) && Enabled(cfg, s.w, e)
  }

  /** begin_cache_eviction accepts the page's record. */
  predicate Evicts(s: State, p: nat)
    requires Shaped(s.w) && p < |s.pages|
  {
    var page := s.pages[p];
    BeginEvictionSpec(s.w.rows, Record(page.slot, page.generation, Resident, Some(page.hash), page.length)).result.Ok?
  }

  function SetGate(s: State, p: nat, word: nat): State
    requires p < |s.pages|
  {
    s.(pages := s.pages[p := s.pages[p].(gate := word)])
  }

  ghost function Move1(cfg: Config, s: State, m: Move): (t: State)
    requires Shaped(s.w) && CanMove(cfg, s, m)
    ensures Shaped(t.w)
  {
    match m
    case Install(slot) =>
      var row := s.w.rows[slot];
      if row.hash.value in s.index then s
      else s.(pages := s.pages + [Page(slot, row.generation, row.hash.value, row.length, RESIDENT_WORD)],
              index := s.index[row.hash.value := |s.pages|])
    case Lookup(r, hash) => s.(readers := s.readers[r := Found(s.index[hash])])
    case Load(r) =>
      var p := s.readers[r].page;
      var word := s.pages[p].gate;
      s.(readers := s.readers[r := if word / HALF != 2 || word % HALF == LEASE_MASK then Away else Loaded(p, word)])
    case CompareExchange(r, spurious) =>
      var p := s.readers[r].page;
      var word := s.readers[r].word;
      if s.pages[p].gate == word && !spurious then SetGate(s, p, word + 1).(readers := s.readers[r := Holding(p)])
      else s.(readers := s.readers[r := Found(p)])
    case Release(r) =>
      var p := s.readers[r].page;
      SetGate(s, p, if s.pages[p].gate == 0 then U64_MAX else s.pages[p].gate - 1).(readers := s.readers[r := Away])
    case Choose(v, hash) => s.(evictors := s.evictors[v := Chosen(s.index[hash])])
    case CloseGate(v) =>
      var p := s.evictors[v].page;
      if s.pages[p].gate == RESIDENT_WORD then SetGate(s, p, EVICTING_WORD).(evictors := s.evictors[v := Won(p)])
      else s.(evictors := s.evictors[v := Off])
    case EvictRow(v, failed) =>
      var p := s.evictors[v].page;
      if !failed && Evicts(s, p)
          then s.(w := Next(cfg, s.w, BeginEvict(s.pages[p].slot)), evictors := s.evictors[v := Retiring(p)])
      else
        SetGate(s, p, if s.pages[p].gate == EVICTING_WORD then RESIDENT_WORD
                else s.pages[p].gate).(evictors := s.evictors[v := Off])
    case Unindex(v, failed) =>
      var gone := if failed then {} else {s.pages[s.evictors[v].page].hash};
      s.(index := s.index - gone, evictors := s.evictors[v := Off])
    case Protocol(e) => s.(w := Next(cfg, s.w, e))
  }

  // ----- Counting guards -----

  function Guards(readers: seq<Reader>, p: nat): nat {
    if |readers| == 0 then 0
    else Guards(readers[..|readers| - 1], p) + if readers[|readers| - 1] == Holding(p) then 1 else 0
  }

  lemma {:induction false} GuardsUpdate(readers: seq<Reader>, r: nat, x: Reader, p: nat)
    requires r < |readers|
    ensures Guards(readers[r := x], p) == Guards(readers, p) - (if readers[r] == Holding(p) then 1 else 0)
            + (if x == Holding(p) then 1 else 0)
    decreases |readers|
  {
    var n := |readers| - 1;
    if r < n {
      GuardsUpdate(readers[..n], r, x, p);
      assert readers[r := x][..n] == readers[..n][r := x];
    } else {
      assert readers[r := x][..n] == readers[..n];
    }
  }

  lemma {:induction false} HolderIsCounted(readers: seq<Reader>, r: nat, p: nat)
    requires r < |readers| && readers[r] == Holding(p)
    ensures Guards(readers, p) > 0
    decreases |readers|
  {
    if r < |readers| - 1 { HolderIsCounted(readers[..|readers| - 1], r, p); }
  }

  // ----- Invariant -----

  /** The page's slot still is what the page says. */
  predicate Live(w: World, page: Page)
    requires Shaped(w)
  {
    page.slot < |w.rows| && w.rows[page.slot] == Row(page.generation, Resident, Some(page.hash), page.length)
  }

  /** Open: the low half counts the guards. Closed: there are none. */
  predicate GateOk(s: State, p: nat)
    requires Shaped(s.w) && p < |s.pages|
  {
    var guards := Guards(s.readers, p);
    || (s.pages[p].gate == RESIDENT_WORD + guards && guards <= LEASE_MASK && Live(s.w, s.pages[p]))
    || (s.pages[p].gate == EVICTING_WORD && guards == 0)
  }

  predicate ReaderOk(s: State, r: Reader) {
    match r
    case Away => true
    case Found(p) => p < |s.pages|
    case Loaded(p, word) => p < |s.pages| && word / HALF == 2 && word % HALF != LEASE_MASK
    case Holding(p) => p < |s.pages|
  }

  predicate EvictorOk(s: State, v: Evictor)
    requires Shaped(s.w)
  {
    match v
    case Off => true
    case Chosen(p) => p < |s.pages|
    case Won(p) => p < |s.pages| && s.pages[p].gate == EVICTING_WORD && Live(s.w, s.pages[p])
    case Retiring(p) => p < |s.pages| && s.pages[p].gate == EVICTING_WORD
  }

  /** This evictor closed the gate of its page. */
  predicate Closer(v: Evictor) {
    v.Won? || v.Retiring?
  }

  ghost predicate GateInv(cfg: Config, s: State) {
    && Inv(cfg, s.w)
    && (forall h :: h in s.index ==> s.index[h] < |s.pages| && s.pages[s.index[h]].hash == h)
    && (forall p :: 0 <= p < |s.pages| ==> GateOk(s, p))
    && (forall p, q :: 0 <= p < q < |s.pages| ==>
        s.pages[p].slot != s.pages[q].slot || s.pages[p].generation != s.pages[q].generation)
    && (forall r :: 0 <= r < |s.readers| ==> ReaderOk(s, s.readers[r]))
    && (forall v :: 0 <= v < |s.evictors| ==> EvictorOk(s, s.evictors[v]))
    && (forall v, u :: 0 <= v < u < |s.evictors| && Closer(s.evictors[v]) && Closer(s.evictors[u]) ==>
          s.evictors[v].page != s.evictors[u].page)
  }

  /** Background steps leave resident rows, and the bytes under them, alone. */
  lemma ResidentIsKept(cfg: Config, w: World, e: Event, i: nat)
    requires Inv(cfg, w) && Enabled(cfg, w, e) && Background(e)
    requires i < |w.rows| && w.rows[i].state.Resident?
    ensures Next(cfg, w, e).rows[i] == w.rows[i] && Next(cfg, w, e).cells[i].payload == w.cells[i].payload
  {
    assert SlotOk(cfg, i, w.rows[i], w.cells[i], w.tasks[i]);
    if e.CommitAll? {
      var recs := TaskRecords(w, e.slots);
      if CommitBatchSpec(w.rows, recs).result.Ok? {
        PublishAllEffect(w.rows, recs);
      }
    }
  }

  lemma ProtocolMove(cfg: Config, s: State, e: Event)
    requires GateInv(cfg, s) && CanMove(cfg, s, Protocol(e))
    ensures GateInv(cfg, Move1(cfg, s, Protocol(e)))
  {
    StepKeepsInv(cfg, s.w, e);
    forall p | 0 <= p < |s.pages| && Live(s.w, s.pages[p])
      ensures Live(Next(cfg, s.w, e), s.pages[p])
    {
      ResidentIsKept(cfg, s.w, e, s.pages[p].slot);
    }
    var t := Move1(cfg, s, Protocol(e));
    forall p | 0 <= p < |s.pages|
      ensures GateOk(t, p)
    {
      assert GateOk(s, p);
    }
    forall v | 0 <= v < |s.evictors|
      ensures EvictorOk(t, t.evictors[v])
    {
      assert EvictorOk(s, s.evictors[v]);
    }
  }

  lemma EvictMove(cfg: Config, s: State, v: nat)
    requires GateInv(cfg, s) && CanMove(cfg, s, EvictRow(v, false))
    ensures GateInv(cfg, Move1(cfg, s, EvictRow(v, false)))
    ensures Evicts(s, s.evictors[v].page)
  {
    var p := s.evictors[v].page;
    var i := s.pages[p].slot;
    assert EvictorOk(s, s.evictors[v]) && GateOk(s, p);
    assert SlotOk(cfg, i, s.w.rows[i], s.w.cells[i], s.w.tasks[i]);
    StepKeepsInv(cfg, s.w, BeginEvict(i));
    var t := Move1(cfg, s, EvictRow(v, false));
    forall q | 0 <= q < |s.pages| && q != p && Live(s.w, s.pages[q])
      ensures Live(t.w, t.pages[q])
    {
      assert s.pages[q].slot != i;
    }
    assert forall q :: 0 <= q < |s.pages| ==> GateOk(s, q) ==> GateOk(t, q);
  }

  /** The database fails: the evictor reopens the gate only it had closed. */
  lemma CancelMove(cfg: Config, s: State, v: nat)
    requires GateInv(cfg, s) && CanMove(cfg, s, EvictRow(v, true))
    ensures GateInv(cfg, Move1(cfg, s, EvictRow(v, true)))
  {
    var p := s.evictors[v].page;
    var t := Move1(cfg, s, EvictRow(v, true));
    assert EvictorOk(s, s.evictors[v]) && GateOk(s, p);
    forall q | 0 <= q < |s.pages|
      ensures GateOk(t, q)
    {
      assert GateOk(s, q);
    }
    forall u | 0 <= u < |s.evictors|
      ensures EvictorOk(t, t.evictors[u])
    {
      assert EvictorOk(s, s.evictors[u]);
    }
  }

  /** A reader looks a page up or loads its gate: no gate changes. */
  lemma LookMove(cfg: Config, s: State, m: Move)
    requires GateInv(cfg, s) && CanMove(cfg, s, m) && (m.Lookup? || m.Load?)
    ensures GateInv(cfg, Move1(cfg, s, m))
  {
    var r := m.reader;
    var t := Move1(cfg, s, m);
    assert ReaderOk(s, s.readers[r]);
    forall p | 0 <= p < |s.pages|
      ensures GateOk(t, p)
    {
      assert GateOk(s, p);
      GuardsUpdate(s.readers, r, t.readers[r], p);
    }
    forall v | 0 <= v < |s.evictors|
      ensures EvictorOk(t, t.evictors[v])
    {
      assert EvictorOk(s, s.evictors[v]);
    }
  }

  /** A reader takes its guard, or lets it go. */
  lemma CountMove(cfg: Config, s: State, m: Move)
    requires GateInv(cfg, s) && CanMove(cfg, s, m) && (m.CompareExchange? || m.Release?)
    ensures GateInv(cfg, Move1(cfg, s, m))
  {
    var r := m.reader;
    var t := Move1(cfg, s, m);
    assert ReaderOk(s, s.readers[r]);
    if s.readers[r].Holding? {
      HolderIsCounted(s.readers, r, s.readers[r].page);
      assert GateOk(s, s.readers[r].page);
    }
    if s.readers[r].Loaded? { assert s.readers[r].word != EVICTING_WORD; }
    forall p | 0 <= p < |s.pages|
      ensures GateOk(t, p)
    {
      assert GateOk(s, p);
      GuardsUpdate(s.readers, r, t.readers[r], p);
    }
    forall v | 0 <= v < |s.evictors|
      ensures EvictorOk(t, t.evictors[v])
    {
      assert EvictorOk(s, s.evictors[v]);
    }
  }

  /** The evictor that closes the gate of a page without guards is the only one that does. */
  lemma CloseMove(cfg: Config, s: State, v: nat)
    requires GateInv(cfg, s) && CanMove(cfg, s, CloseGate(v))
    ensures GateInv(cfg, Move1(cfg, s, CloseGate(v)))
  {
    var t := Move1(cfg, s, CloseGate(v));
    assert EvictorOk(s, s.evictors[v]) && GateOk(s, s.evictors[v].page);
    forall p | 0 <= p < |s.pages|
      ensures GateOk(t, p)
    {
      assert GateOk(s, p);
    }
    forall u | 0 <= u < |s.evictors|
      ensures EvictorOk(t, t.evictors[u])
    {
      assert EvictorOk(s, s.evictors[u]);
    }
    assert forall u :: 0 <= u < |s.evictors| && Closer(s.evictors[u]) ==>
             s.pages[s.evictors[u].page].gate == EVICTING_WORD;
  }

  lemma EvictorMove(cfg: Config, s: State, m: Move)
    requires GateInv(cfg, s) && CanMove(cfg, s, m) && (m.Choose? || m.Unindex?)
    ensures GateInv(cfg, Move1(cfg, s, m))
  {
    var t := Move1(cfg, s, m);
    assert EvictorOk(s, s.evictors[m.evictor]);
    forall p | 0 <= p < |s.pages|
      ensures GateOk(t, p)
    {
      assert GateOk(s, p);
    }
    forall u | 0 <= u < |s.evictors|
      ensures EvictorOk(t, t.evictors[u])
    {
      assert EvictorOk(s, s.evictors[u]);
    }
  }

  lemma {:induction false} NoGuardsYet(readers: seq<Reader>, n: nat)
    requires forall r :: 0 <= r < |readers| ==> readers[r] != Holding(n)
    ensures Guards(readers, n) == 0
  {
    if |readers| != 0 { NoGuardsYet(readers[..|readers| - 1], n); }
  }

  lemma InstallMove(cfg: Config, s: State, slot: nat)
    requires GateInv(cfg, s) && CanMove(cfg, s, Install(slot))
    ensures GateInv(cfg, Move1(cfg, s, Install(slot)))
  {
    var t := Move1(cfg, s, Install(slot));
    forall r | 0 <= r < |s.readers|
      ensures ReaderOk(t, t.readers[r]) && s.readers[r] != Holding(|s.pages|)
    {
      assert ReaderOk(s, s.readers[r]);
    }
    NoGuardsYet(s.readers, |s.pages|);
    forall p | 0 <= p < |t.pages|
      ensures GateOk(t, p)
    {
      if p < |s.pages| { assert GateOk(s, p); }
    }
    forall v | 0 <= v < |s.evictors|
      ensures EvictorOk(t, t.evictors[v])
    {
      assert EvictorOk(s, s.evictors[v]);
    }
  }

  lemma MoveKeepsInv(cfg: Config, s: State, m: Move)
    requires GateInv(cfg, s) && CanMove(cfg, s, m)
    ensures GateInv(cfg, Move1(cfg, s, m))
  {
    match m
    case Install(slot) => InstallMove(cfg, s, slot);
    case Protocol(e) => ProtocolMove(cfg, s, e);
    case EvictRow(v, failed) => if failed { CancelMove(cfg, s, v); } else { EvictMove(cfg, s, v); }
    case Choose(_, _) => EvictorMove(cfg, s, m);
    case Unindex(_, _) => EvictorMove(cfg, s, m);
    case CloseGate(v) => CloseMove(cfg, s, v);
    case Lookup(_, _) => LookMove(cfg, s, m);
    case Load(_) => LookMove(cfg, s, m);
    case _ => CountMove(cfg, s, m);
  }

  // ----- Runs -----

  ghost predicate Playable(cfg: Config, s: State, ms: seq<Move>)
    requires Shaped(s.w)
    decreases |ms|
  {
    |ms| == 0 || (CanMove(cfg, s, ms[0]) && Playable(cfg, Move1(cfg, s, ms[0]), ms[1..]))
  }

  ghost function Play(cfg: Config, s: State, ms: seq<Move>): (t: State)
    requires Shaped(s.w) && Playable(cfg, s, ms)
    ensures Shaped(t.w)
    decreases |ms|
  {
    if |ms| == 0 then s else Play(cfg, Move1(cfg, s, ms[0]), ms[1..])
  }

  lemma {:induction false} PlayKeepsInv(cfg: Config, s: State, ms: seq<Move>)
    requires GateInv(cfg, s) && Playable(cfg, s, ms)
    ensures GateInv(cfg, Play(cfg, s, ms))
    decreases |ms|
  {
    if |ms| != 0 {
      MoveKeepsInv(cfg, s, ms[0]);
      PlayKeepsInv(cfg, Move1(cfg, s, ms[0]), ms[1..]);
    }
  }

  /** Readers, evictors and the index start with nothing, over any sound cache. */
  lemma StartIsOk(cfg: Config, w: World, readers: nat, evictors: nat)
    requires Inv(cfg, w)
    ensures GateInv(cfg, State(w, [], map[], seq(readers, _ => Away), seq(evictors, _ => Off)))
  {
  }

  /**
   Reader stability: in every interleaving, whoever holds a guard has the slot resident in
   the generation the guard was taken for, and the bytes under it hash to the page asked
   for; the low half of the gate is the number of guards, and a closed gate has none.
   */
  lemma GuardPinsItsPage(cfg: Config, s: State, ms: seq<Move>, r: nat)
    requires GateInv(cfg, s) && Playable(cfg, s, ms)
    requires r < |Play(cfg, s, ms).readers| && Play(cfg, s, ms).readers[r].Holding?
    ensures var t := Play(cfg, s, ms);
            var p := t.readers[r].page;
            && p < |t.pages| && Live(t.w, t.pages[p])
            && t.pages[p].gate == RESIDENT_WORD + Guards(t.readers, p) && 0 < Guards(t.readers, p) <= LEASE_MASK
            && t.pages[p].length <= |t.w.cells[t.pages[p].slot].payload|
            && cfg.digest(t.w.cells[t.pages[p].slot].payload[..t.pages[p].length]) == t.pages[p].hash
  {
    PlayKeepsInv(cfg, s, ms);
    var t := Play(cfg, s, ms);
    var p := t.readers[r].page;
    assert ReaderOk(t, t.readers[r]) && GateOk(t, p);
    HolderIsCounted(t.readers, r, p);
    var i := t.pages[p].slot;
    assert SlotOk(cfg, i, t.w.rows[i], t.w.cells[i], t.w.tasks[i]);
  }

  /** While the guard lives no step changes a byte under it, so all its reads agree. */
  lemma GuardedBytesAreStill(cfg: Config, s: State, m: Move, r: nat)
    requires GateInv(cfg, s) && CanMove(cfg, s, m)
    requires r < |s.readers| && s.readers[r].Holding? && Move1(cfg, s, m).readers[r] == s.readers[r]
    ensures var i := s.pages[s.readers[r].page].slot;
            i < |s.w.rows| && Move1(cfg, s, m).w.rows[i] == s.w.rows[i]
                && Move1(cfg, s, m).w.cells[i].payload == s.w.cells[i].payload
  {
    var p := s.readers[r].page;
    assert ReaderOk(s, s.readers[r]) && GateOk(s, p);
    HolderIsCounted(s.readers, r, p);
    var i := s.pages[p].slot;
    match m
    case Protocol(e) => ResidentIsKept(cfg, s.w, e, i);
    case EvictRow(v, _) =>
      assert EvictorOk(s, s.evictors[v]);
      var q := s.evictors[v].page;
      assert q != p && s.pages[q].slot != i;
    case _ =>
  }
}

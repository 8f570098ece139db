/**
 The gate of one resident page as the code changes it (crates/mirage-cache/src/resident.rs):
 a word other threads may change between the atomic operations, and the retry loop of
 `acquire` over it. The loop is tied to the interleaved machine of ReadGate.
 */
module LeaseGate {
  import opened Basics
  import opened SlotProtocol
  import opened ReadGate

  /** What `acquire` answers: a guard, no page any more, or the saturation error. */
  datatype Lease = Granted | Gone | Saturated

  /** Other threads leave `word` between a load and the compare-exchange after it, which may fail by itself. */
  datatype Turn = Turn(word: nat, spurious: bool)

  datatype Acquired = Acquired(lease: Lease, word: nat)

  predicate Grantable(word: nat) {
    word / HALF == 2 && word % HALF != LEASE_MASK
  }

  /** The answer and the word left behind; after the listed turns nobody interferes. */
  function AcquireSpec(word: nat, turns: seq<Turn>): Acquired
    decreases |turns|
  {
    if word / HALF != 2 then Acquired(Gone, word)
    else if word % HALF == LEASE_MASK then Acquired(Saturated, word)
    else if |turns| == 0 then Acquired(Granted, word + 1)
    else if turns[0].word == word && !turns[0].spurious then Acquired(Granted, word + 1)
    else AcquireSpec(turns[0].word, turns[1..])
  }

  /** The word the gate holds once the first `k` turns are over. */
  function WordAfter(word: nat, turns: seq<Turn>, k: nat): nat
    requires k <= |turns|
  {
    if k == 0 then word else turns[k - 1].word
  }

  /**
   Whatever the others do, a call leaves the gate as they left it after some number of
   turns, and adds one exactly if it grants; it grants only on an open, unsaturated word,
   says gone only on a word that is not open and saturated only on a full one.
   */
  lemma {:induction false} AcquireAnswers(word: nat, turns: seq<Turn>) returns (k: nat)
    ensures k <= |turns|
    ensures var a := AcquireSpec(word, turns);
            var seen := WordAfter(word, turns, k);
            && a.word == seen + (if a.lease.Granted? then 1 else 0)
            && (a.lease.Granted? <==> Grantable(seen))
            && (a.lease.Gone? <==> seen / HALF != 2)
            && (a.lease.Granted? ==> a.word / HALF == 2 && a.word % HALF == seen % HALF + 1)
    ensures forall j :: 0 <= j < k ==>
              Grantable(WordAfter(word, turns, j)) && (turns[j].spurious || turns[j].word != WordAfter(word, turns, j))
    decreases |turns|
  {
    if !Grantable(word) || |turns| == 0 || (turns[0].word == word && !turns[0].spurious) {
      k := 0;
    } else {
      var i := AcquireAnswers(turns[0].word, turns[1..]);
      k := i + 1;
      forall j | 0 <= j <= i
        ensures WordAfter(word, turns, j + 1) == WordAfter(turns[0].word, turns[1..], j)
      {
      }
      forall j | 0 <= j < k
        ensures Grantable(WordAfter(word, turns, j))
                && (turns[j].spurious || turns[j].word != WordAfter(word, turns, j))
      {
        if j > 0 { assert turns[j] == turns[1..][j - 1]; }
      }
    }
  }

  /** fetch_sub wraps at zero. */
  function Released(word: nat): nat {
    if word == 0 then U64_MAX else word - 1
  }

  function Closed(word: nat): nat {
    if word == RESIDENT_WORD then EVICTING_WORD else word
  }

  function Reopened(word: nat): nat {
    if word == EVICTING_WORD then RESIDENT_WORD else word
  }

  class ResidentPage {
    var gate: nat

    constructor ()
      ensures gate == RESIDENT_WORD && ActiveReadLeases() == 0
    {
      gate := RESIDENT_WORD;
    }

    /** One guard, or the reason for none, in spite of the others' turns. */
    method Acquire(turns: seq<Turn>) returns (lease: Lease)
      modifies this
      ensures Acquired(lease, gate) == AcquireSpec(old(gate), turns)
    {
      var k := 0;
      while true
        invariant k <= |turns|
        invariant AcquireSpec(gate, turns[k..]) == AcquireSpec(old(gate), turns)
        decreases |turns| - k
      {
        var current := gate;
        if current / HALF != 2 { return Gone; }
        if current % HALF == LEASE_MASK { return Saturated; }
        var spurious := false;
        if k < |turns| {
          gate, spurious := turns[k].word, turns[k].spurious;
        }
        if gate == current && !spurious {
          gate := current + 1;
          return Granted;
        }
        assert turns[k..][1..] == turns[k + 1..];
        k := k + 1;
      }
    }

    method Release()
      modifies this
      ensures gate == Released(old(gate))
      ensures 0 < old(gate) % HALF ==> gate + 1 == old(gate) && gate / HALF == old(gate) / HALF
    {
      gate := if gate == 0 then U64_MAX else gate - 1;
    }

    function ActiveReadLeases(): (n: nat)
      reads this
      ensures n <= LEASE_MASK
      ensures gate == RESIDENT_WORD + n || n == 0
    {
      if gate / HALF == 2 then gate % HALF else 0
    }

    method BeginEviction() returns (won: bool)
      modifies this
      ensures won <==> old(gate) == RESIDENT_WORD
      ensures won <==> old(gate) / HALF == 2 && old(ActiveReadLeases()) == 0
      ensures gate == Closed(old(gate))
    {
      won := gate == RESIDENT_WORD;
      if won { gate := EVICTING_WORD; }
    }

    method CancelEviction()
      modifies this
      ensures gate == Reopened(old(gate))
    {
      if gate == EVICTING_WORD { gate := RESIDENT_WORD; }
    }
  }

  // ----- The loop inside the interleaved machine -----

  /** What the others do between a reader's load and its compare-exchange. */
  datatype Round = Round(moves: seq<Move>, spurious: bool)

  predicate Finds(s: State, r: nat, p: nat) {
    p < |s.pages| && r < |s.readers| && s.readers[r] == Found(p)
  }

  /** Reader `r` has loaded the gate of `p`, the others' round is over, and no one moved the reader. */
  ghost predicate Undisturbed(cfg: Config, s: State, r: nat, p: nat, moves: seq<Move>)
    requires Shaped(s.w) && r < |s.readers|
  {
    && Playable(cfg, s, moves)
    && var t := Play(cfg, s, moves);
       p < |t.pages| && r < |t.readers| && t.readers[r] == s.readers[r]
  }

  /** From `s` the calls of reader `r` on page `p`, with the others' rounds in between, end in `t`. */
  ghost predicate Attempt(cfg: Config, s: State, r: nat, p: nat, rounds: seq<Round>, t: State)
    requires Shaped(s.w) && Finds(s, r, p)
    decreases |rounds|
  {
    var loaded := Move1(cfg, s, Load(r));
    if loaded.readers[r].Away? then t == loaded
    else if |rounds| == 0 then t == Move1(cfg, loaded, CompareExchange(r, false))
    else
      && Undisturbed(cfg, loaded, r, p, rounds[0].moves)
      && var tried := Move1(cfg, Play(cfg, loaded, rounds[0].moves), CompareExchange(r, rounds[0].spurious));
         if tried.readers[r].Holding? then t == tried else Attempt(cfg, tried, r, p, rounds[1..], t)
  }

  /** What the loop sees of those rounds: the word each leaves in the gate. */
  ghost function Seen(cfg: Config, s: State, r: nat, p: nat, rounds: seq<Round>, t: State): seq<Turn>
    requires Shaped(s.w) && Finds(s, r, p) && Attempt(cfg, s, r, p, rounds, t)
    decreases |rounds|
  {
    var loaded := Move1(cfg, s, Load(r));
    if loaded.readers[r].Away? || |rounds| == 0 then []
    else
      var mid := Play(cfg, loaded, rounds[0].moves);
      var tried := Move1(cfg, mid, CompareExchange(r, rounds[0].spurious));
      [Turn(mid.pages[p].gate, rounds[0].spurious)] + if tried.readers[r].Holding? then []
          else Seen(cfg, tried, r, p, rounds[1..], t)
  }

  /** The code's loop answers as the machine's reader fares, and leaves the gate it leaves. */
  lemma {:induction false} LoopIsAttempt(cfg: Config, s: State, r: nat, p: nat, rounds: seq<Round>, t: State)
    requires Shaped(s.w) && Finds(s, r, p) && Attempt(cfg, s, r, p, rounds, t)
    ensures p < |t.pages| && r < |t.readers|
    ensures AcquireSpec(s.pages[p].gate, Seen(cfg, s, r, p, rounds, t)).word == t.pages[p].gate
    ensures t.readers[r] == if AcquireSpec(s.pages[p].gate, Seen(cfg, s, r, p, rounds, t)).lease.Granted?
            then Holding(p) else Away
    decreases |rounds|
  {
    var loaded := Move1(cfg, s, Load(r));
    if !loaded.readers[r].Away? && |rounds| != 0 {
      var mid := Play(cfg, loaded, rounds[0].moves);
      var tried := Move1(cfg, mid, CompareExchange(r, rounds[0].spurious));
      if !tried.readers[r].Holding? {
        LoopIsAttempt(cfg, tried, r, p, rounds[1..], t);
        assert Seen(cfg, s, r, p, rounds, t)[1..] == Seen(cfg, tried, r, p, rounds[1..], t);
      }
    }
  }

  lemma {:induction false} AttemptKeepsInv(cfg: Config, s: State, r: nat, p: nat, rounds: seq<Round>, t: State)
    requires GateInv(cfg, s) && Finds(s, r, p) && Attempt(cfg, s, r, p, rounds, t)
    ensures GateInv(cfg, t)
    decreases |rounds|
  {
    var loaded := Move1(cfg, s, Load(r));
    MoveKeepsInv(cfg, s, Load(r));
    if !loaded.readers[r].Away? {
      if |rounds| == 0 {
        MoveKeepsInv(cfg, loaded, CompareExchange(r, false));
      } else {
        PlayKeepsInv(cfg, loaded, rounds[0].moves);
        var mid := Play(cfg, loaded, rounds[0].moves);
        MoveKeepsInv(cfg, mid, CompareExchange(r, rounds[0].spurious));
        var tried := Move1(cfg, mid, CompareExchange(r, rounds[0].spurious));
        if !tried.readers[r].Holding? { AttemptKeepsInv(cfg, tried, r, p, rounds[1..], t); }
      }
    }
  }

  /** Pages once installed change nothing but their gate. */
  predicate SamePage(a: State, b: State, p: nat) {
    p < |a.pages| && p < |b.pages| && a.pages[p].(gate := 0) == b.pages[p].(gate := 0)
  }

  lemma {:induction false} PlayKeepsPages(cfg: Config, s: State, ms: seq<Move>, p: nat)
    requires Shaped(s.w) && Playable(cfg, s, ms) && p < |s.pages|
    ensures SamePage(s, Play(cfg, s, ms), p)
    decreases |ms|
  {
    if |ms| != 0 { PlayKeepsPages(cfg, Move1(cfg, s, ms[0]), ms[1..], p); }
  }

  lemma {:induction false} AttemptKeepsPages(cfg: Config, s: State, r: nat, p: nat, rounds: seq<Round>, t: State)
    requires Shaped(s.w) && Finds(s, r, p) && Attempt(cfg, s, r, p, rounds, t)
    ensures SamePage(s, t, p)
    decreases |rounds|
  {
    var loaded := Move1(cfg, s, Load(r));
    if !loaded.readers[r].Away? && |rounds| != 0 {
      PlayKeepsPages(cfg, loaded, rounds[0].moves, p);
      var mid := Play(cfg, loaded, rounds[0].moves);
      var tried := Move1(cfg, mid, CompareExchange(r, rounds[0].spurious));
      if !tried.readers[r].Holding? { AttemptKeepsPages(cfg, tried, r, p, rounds[1..], t); }
    }
  }

  /**
   What `acquire` is for: however many rounds of other readers, evictors and writers come
   between its attempts, a granted call returns with its page resident in the slot and
   generation of the page, bytes of the requested hash under it, and itself counted.
   */
  lemma GrantedMeansReadable(cfg: Config, s: State, r: nat, p: nat, rounds: seq<Round>, t: State)
    requires GateInv(cfg, s) && Finds(s, r, p) && Attempt(cfg, s, r, p, rounds, t)
    requires AcquireSpec(s.pages[p].gate, Seen(cfg, s, r, p, rounds, t)).lease.Granted?
    ensures Shaped(t.w) && p < |t.pages| && Live(t.w, t.pages[p])
    ensures t.pages[p].gate == RESIDENT_WORD + Guards(t.readers, p) && Guards(t.readers, p) > 0
    ensures var slot := t.pages[p].slot;
            && t.pages[p].length <= |t.w.cells[slot].payload|
            && slot == s.pages[p].slot && t.pages[p].generation == s.pages[p].generation
            && cfg.digest(t.w.cells[slot].payload[..t.pages[p].length]) == s.pages[p].hash
  {
    AttemptKeepsPages(cfg, s, r, p, rounds, t);
    AttemptKeepsInv(cfg, s, r, p, rounds, t);
    LoopIsAttempt(cfg, s, r, p, rounds, t);
    assert Play(cfg, t, []) == t;
    GuardPinsItsPage(cfg, t, [], r);
  }

  // ----- Release and eviction inside the interleaved machine -----

  /** Of all pages' gates a move changes that of `p` alone, to `word`. */
  predicate OnlyGate(s: State, t: State, p: nat, word: nat)
    requires p < |s.pages|
  {
    t.pages == s.pages[p := s.pages[p].(gate := word)]
  }

  /** Dropping a guard in any reachable state: one guard less, and the word counts those left without wrapping. */
  lemma ReleaseIsMove(cfg: Config, s: State, r: nat)
    requires GateInv(cfg, s) && CanMove(cfg, s, Release(r))
    ensures var p := s.readers[r].page;
            var t := Move1(cfg, s, Release(r));
            && OnlyGate(s, t, p, Released(s.pages[p].gate))
            && Guards(t.readers, p) == Guards(s.readers, p) - 1
            && Released(s.pages[p].gate) == RESIDENT_WORD + Guards(t.readers, p)
  {
    var p := s.readers[r].page;
    assert GateOk(s, p);
    HolderIsCounted(s.readers, r, p);
    GuardsUpdate(s.readers, r, Away, p);
  }

  /** An evictor wins exactly if the gate is open and nobody holds a guard, and then nobody else can. */
  lemma BeginIsMove(cfg: Config, s: State, v: nat)
    requires GateInv(cfg, s) && CanMove(cfg, s, CloseGate(v))
    ensures var p := s.evictors[v].page;
            var t := Move1(cfg, s, CloseGate(v));
            && OnlyGate(s, t, p, Closed(s.pages[p].gate))
            && (t.evictors[v] == Won(p) <==> s.pages[p].gate != EVICTING_WORD && Guards(s.readers, p) == 0)
            && (t.evictors[v] == Won(p) <==> Closed(s.pages[p].gate) != s.pages[p].gate)
            && !Grantable(Closed(RESIDENT_WORD)) && Closed(Closed(s.pages[p].gate)) == Closed(s.pages[p].gate)
  {
    var p := s.evictors[v].page;
    assert GateOk(s, p) && EvictorOk(s, s.evictors[v]);
    var t := Move1(cfg, s, CloseGate(v));
    assert s.pages[p := s.pages[p].(gate := s.pages[p].gate)] == s.pages;
  }

  /** When the database refuses, the gate is open again on a page that is still resident. */
  lemma CancelIsMove(cfg: Config, s: State, v: nat)
    requires GateInv(cfg, s) && CanMove(cfg, s, EvictRow(v, true))
    ensures var p := s.evictors[v].page;
            var t := Move1(cfg, s, EvictRow(v, true));
            && OnlyGate(s, t, p, Reopened(s.pages[p].gate))
            && Grantable(Reopened(s.pages[p].gate)) && t.w == s.w && Live(t.w, t.pages[p])
  {
    assert EvictorOk(s, s.evictors[v]);
  }

  /** A failed eviction is undone: whatever others did in between, closing and reopening restores the gate. */
  lemma CancelUndoesBegin(cfg: Config, s: State, v: nat, ms: seq<Move>)
    requires GateInv(cfg, s) && CanMove(cfg, s, CloseGate(v))
    requires var t := Move1(cfg, s, CloseGate(v)); t.evictors[v].Won? && Playable(cfg, t, ms)
    requires var t := Play(cfg, Move1(cfg, s, CloseGate(v)), ms);
             v < |t.evictors| && t.evictors[v] == Won(s.evictors[v].page)
    ensures var p := s.evictors[v].page;
            var t := Play(cfg, Move1(cfg, s, CloseGate(v)), ms);
            && p < |t.pages| && CanMove(cfg, t, EvictRow(v, true))
            && Move1(cfg, t, EvictRow(v, true)).pages[p] == s.pages[p]
  {
    var p := s.evictors[v].page;
    var closed := Move1(cfg, s, CloseGate(v));
    MoveKeepsInv(cfg, s, CloseGate(v));
    PlayKeepsInv(cfg, closed, ms);
    PlayKeepsPages(cfg, closed, ms, p);
    var t := Play(cfg, closed, ms);
    assert EvictorOk(t, t.evictors[v]);
  }
}

/** The rules of ArrivalOrder are exact. Draining the cache means that no packet comes in any
    more: the handler at most writes the index it still owes, and the reader reads on. A schedule
    obeys the rules if and only if at every point of it draining hands out in order. */
module Draining {
  import opened Common
  import opened PacketCaches
  import opened InterleavedCache
  import opened ArrivalOrder

  predicate Drains(s: State, m: Move)
  {
    match m
    case Offer(_) => false
    case HandlerMove => s.h.Advancing?
    case StartRead => s.r.Resting? && !s.h.Advancing?
    case ReaderMove(_) => !s.r.Resting?
  }

  predicate DrainRun(s: State, moves: seq<Move>)
    requires Shaped(s) && PcsInRange(s)
    ensures DrainRun(s, moves) ==> Schedule(s, moves)
    decreases |moves|
  {
    moves == [] || (Drains(s, moves[0]) && DrainRun(Step(s, moves[0]), moves[1..]))
  }

  ghost predicate DrainsInOrder(s: State)
    requires Shaped(s) && PcsInRange(s)
  {
    forall moves :: DrainRun(s, moves) ==> OutInOrder(Run(s, moves))
  }

  /** At every point of the schedule. */
  ghost predicate AlwaysDrainsInOrder(s: State, moves: seq<Move>)
    requires Shaped(s) && PcsInRange(s) && Schedule(s, moves)
    decreases |moves|
  {
    DrainsInOrder(s) && (moves != [] ==> AlwaysDrainsInOrder(Step(s, moves[0]), moves[1..]))
  }

  /* ---- in order: draining keeps it ---- */

  lemma DrainObeys(s: State, m: Move)
    requires Shaped(s) && PcsInRange(s) && Drains(s, m)
    ensures ObeysAll(ALL_RULES, s, m)
  {
  }

  lemma {:induction false} DrainKeepsOrder(s: State, moves: seq<Move>)
    requires Inv(s) && InOrder(s) && DrainRun(s, moves)
    ensures OutInOrder(Run(s, moves))
    decreases |moves|
  {
    hide SearchOk, UnusedOk, HandlerOk, SlotsOk, ReaderOk, PlacesOk, CountsOk, SlotsInOrder, ReadInOrder, ObeysAll;
    if moves != [] {
      StepKeepsInv(s, moves[0]);
      DrainObeys(s, moves[0]);
      StepIsExact(s, moves[0]);
      DrainKeepsOrder(Step(s, moves[0]), moves[1..]);
    }
  }

  /* ---- out of order: draining shows it ---- */

  /** One more step before a drain that goes wrong. */
  lemma DrainFirst(s: State, m: Move)
    requires Shaped(s) && PcsInRange(s) && Drains(s, m) && !DrainsInOrder(Step(s, m))
    ensures !DrainsInOrder(s)
  {
    var rest :| DrainRun(Step(s, m), rest) && !OutInOrder(Run(Step(s, m), rest));
    var moves := [m] + rest;
    assert moves[0] == m && moves[1..] == rest;
    assert DrainRun(s, moves) && Run(s, moves) == Run(Step(s, m), rest);
  }

  lemma AlreadyWrong(s: State)
    requires Shaped(s) && PcsInRange(s) && !OutInOrder(s)
    ensures !DrainsInOrder(s)
  {
    assert DrainRun(s, []) && Run(s, []) == s;
  }

  /** Steps left of a scan. */
  function ScanLeft(r: ReaderPc): (n: int)
  {
    match r
    case Scanning(_, _, tries) => (MAX_PKT - tries) * (PKT_BUFFER_SIZE + 3) + 1
    case Grabbing(_, _, tries, k) => (MAX_PKT - tries) * (PKT_BUFFER_SIZE + 3) - k
    case _ => 0
  }

  /** A read that takes the wrong packets goes on and delivers them. */
  lemma {:induction false} WrongReadShows(s: State)
    requires Inv(s) && !ReadInOrder(s)
    ensures !DrainsInOrder(s)
    decreases ScanLeft(s.r)
  {
    var s' := ReaderStep(s, true);
    assert s.r.Scanning? || s.r.Grabbing? || s.r.Delivering?;
    hide SearchOk, UnusedOk, HandlerOk, SlotsOk, ReaderOk, PlacesOk, CountsOk, Will, Coming;
    if s.r.Delivering? {
      WrongDelivery(s);
      AlreadyWrong(s');
    } else {
      ScanKeepsWill(s);
      StepKeepsInv(s, ReaderMove(true));
      WrongReadShows(s');
    }
    DrainFirst(s, ReaderMove(true));
  }

  lemma WrongDelivery(s: State)
    requires Inv(s) && s.r.Delivering? && !ReadInOrder(s)
    ensures !OutInOrder(ReaderStep(s, true))
  {
    var s' := ReaderStep(s, true);
    var j :| 0 <= j < |s.taken| && s.idAt[s.taken[j]] != |s.out| + j;
    assert s'.out[|s.out| + j] == Deliveries(s)[j];
  }

  /** An older packet in a slot that is not before the newer one's. */
  predicate WrongPair(s: State, i: nat, j: nat)
    requires Shaped(s) && PcsInRange(s)
  {
    && i < MAX_PKT && j < MAX_PKT && Live(s, i) && Live(s, j)
    && s.idAt[i] < s.idAt[j] && Ahead(Cur(s), j) <= Ahead(Cur(s), i)
  }

  /** A scan leaves out no flagged slot that it has passed. */
  lemma {:induction false} ComingLeavesNoneOut(status: seq<bool>, start: nat, ci: nat, tries: nat, n: nat,
                                               i: nat, k: nat)
    requires |status| == MAX_PKT && start < MAX_PKT && ci < MAX_PKT && i < MAX_PKT && status[i]
    requires tries < MAX_PKT ==> Ahead(start, ci) == tries
    requires var q := Coming(status, ci, tries, n); k < |q| && tries <= Ahead(start, i) <= Ahead(start, q[k])
    ensures i in Coming(status, ci, tries, n)
    decreases MAX_PKT - tries
  {
    if i != ci {
      if Ahead(start, i) == tries { AheadDiffers(start, i, ci); }
      if tries < MAX_PKT - 1 { AheadOfNext(start, ci); }
      if status[ci] {
        if k > 0 { ComingLeavesNoneOut(status, start, NextSlot(ci), tries + 1, n + 1, i, k - 1); }
      } else {
        ComingLeavesNoneOut(status, start, NextSlot(ci), tries + 1, n, i, k);
      }
    }
  }

  /** A scan in order that took one of a wrong pair would have taken both, and the newer one first. */
  lemma TakesNeither(s: State, start: nat, q: seq<nat>, i: nat, j: nat)
    requires Inv(s) && OutInOrder(s) && i < MAX_PKT && j < MAX_PKT && Live(s, i) && Live(s, j)
    requires start < MAX_PKT && s.idAt[i] < s.idAt[j] && Ahead(start, j) <= Ahead(start, i)
    requires Outward(start, q, 0) && Oldest(s, q, |s.out|) && forall k :: 0 <= k < |q| ==> Live(s, q[k])
    requires i in q ==> j in q
    ensures i !in q && j !in q
  {
    IdOfLive(s, i);
    if j in q {
      var b :| 0 <= b < |q| && q[b] == j;
      var a := s.idAt[i] - |s.out|;
      if q[a] != i { OneSlotForAnId(s, i, q[a]); }
    }
  }

  /** If a read starts and takes the right packets, it stops before a wrong pair. */
  lemma StopsBeforePair(s: State, i: nat, j: nat)
    requires Inv(s) && OutInOrder(s) && s.r.Resting? && !s.h.Advancing? && WrongPair(s, i, j)
    requires ReadInOrder(Step(s, StartRead))
    ensures var q := Will(Step(s, StartRead)); q != [] && i !in q && j !in q
  {
    hide SearchOk, UnusedOk, HandlerOk, SlotsOk, ReaderOk, PlacesOk, CountsOk, Coming, Ahead, Will;
    var c := s.current;
    var q := Coming(s.status, c, 0, 0);
    WillFromStart(s);
    FirstComing(s.status, c, c, 0, i);
    ComingSorted(s.status, c, c, 0, 0);
    if i in q {
      var a :| 0 <= a < |q| && q[a] == i;
      ComingLeavesNoneOut(s.status, c, c, 0, 0, j, a);
    }
    TakesNeither(s, c, q, i, j);
  }

  function WipeLeft(s: State): (n: int)
  {
    if s.r.Wiping? then (|s.taken| - s.r.i) * (PKT_BUFFER_SIZE + 2) - s.r.k else 0
  }

  /** Phases, in the order the proof goes through them. */
  function Phase(s: State): (n: nat)
  {
    if s.r.Wiping? then 4 else if !s.r.Resting? then 3 else if s.h.Advancing? then 2 else 1
  }

  /** Whatever read is under way fails; from then on the reader reads until it comes to the pair. */
  lemma {:induction false} WrongPairShows(s: State, i: nat, j: nat)
    requires Inv(s) && OutInOrder(s) && WrongPair(s, i, j)
    ensures !DrainsInOrder(s)
    decreases |LiveSlots(s)|, Phase(s), ScanLeft(s.r), WipeLeft(s)
  {
    hide SearchOk, UnusedOk, HandlerOk, SlotsOk, ReaderOk, PlacesOk, CountsOk;
    if s.r.Resting? && !s.h.Advancing? {
      var m, s' := StartRead, Step(s, StartRead);
      StepKeepsInv(s, m);
      if ReadInOrder(s') {
        StopsBeforePair(s, i, j);
        SameLive(s, s');
        RightReadShows(s', i, j);
      } else {
        WrongReadShows(s');
      }
      DrainFirst(s, m);
    } else {
      var m := if s.r.Resting? then HandlerMove else ReaderMove(false);
      StepKeepsInv(s, m);
      StepKeepsPair(s, m, i, j);
      WrongPairShows(Step(s, m), i, j);
      DrainFirst(s, m);
    }
  }

  lemma StepKeepsPair(s: State, m: Move, i: nat, j: nat)
    requires Inv(s) && OutInOrder(s) && WrongPair(s, i, j) && Drains(s, m) && !m.StartRead? && m != ReaderMove(true)
    ensures var s' := Step(s, m);
            && OutInOrder(s') && WrongPair(s', i, j) && LiveSlots(s') == LiveSlots(s)
  {
    if s.r.Wiping? && m.ReaderMove? { WipeKeepsLive(s); }
    var s' := Step(s, m);
    assert forall i: nat :: i < MAX_PKT ==> Live(s', i) == Live(s, i);
  }

  /** A read that takes the right packets leaves the pair behind, in a smaller cache. */
  lemma {:induction false} RightReadShows(s: State, i: nat, j: nat)
    requires Inv(s) && OutInOrder(s) && WrongPair(s, i, j) && ReadInOrder(s) && !s.r.Wiping?
    requires Will(s) != [] && i !in Will(s) && j !in Will(s)
    ensures !DrainsInOrder(s)
    decreases |LiveSlots(s)|, 0, ScanLeft(s.r), 0
  {
    hide SearchOk, UnusedOk, HandlerOk, SlotsOk, ReaderOk, PlacesOk, CountsOk;
    var m, s' := ReaderMove(true), ReaderStep(s, true);
    StepKeepsInv(s, m);
    if s.r.Delivering? {
      DeliverKeepsPair(s, i, j);
      WrongPairShows(s', i, j);
    } else {
      ScanKeepsWill(s);
      ScanKeepsPair(s, i, j);
      RightReadShows(s', i, j);
    }
    DrainFirst(s, m);
  }

  lemma DeliverKeepsPair(s: State, i: nat, j: nat)
    requires Inv(s) && OutInOrder(s) && WrongPair(s, i, j) && ReadInOrder(s) && s.r.Delivering?
    requires s.taken != [] && i !in s.taken && j !in s.taken
    ensures var s' := ReaderStep(s, true);
            && OutInOrder(s') && WrongPair(s', i, j) && |LiveSlots(s')| < |LiveSlots(s)|
  {
    DeliverLive(s);
  }

  lemma ScanKeepsPair(s: State, i: nat, j: nat)
    requires Inv(s) && OutInOrder(s) && WrongPair(s, i, j) && ReadInOrder(s) && (s.r.Scanning? || s.r.Grabbing?)
    ensures var s' := ReaderStep(s, true);
            && OutInOrder(s') && WrongPair(s', i, j) && ReadInOrder(s') && LiveSlots(s') == LiveSlots(s)
  {
    ScanKeepsWill(s);
    var s' := ReaderStep(s, true);
    assert forall i: nat :: i < MAX_PKT ==> Live(s', i) == Live(s, i);
    hide Will;
  }

  /* ---- both directions ---- */

  /** Where order can be lost, draining loses it, and nowhere else. */
  lemma DrainsInOrderExactly(s: State)
    requires Inv(s)
    ensures DrainsInOrder(s) <==> InOrder(s)
  {
    if !OutInOrder(s) {
      AlreadyWrong(s);
    } else if !ReadInOrder(s) {
      WrongReadShows(s);
    } else if !SlotsInOrder(s) {
      var i: nat, j: nat :| i < MAX_PKT && j < MAX_PKT && Live(s, i) && Live(s, j) &&
        s.idAt[i] < s.idAt[j] && Ahead(Cur(s), j) <= Ahead(Cur(s), i);
      WrongPairShows(s, i, j);
    } else {
      forall moves | DrainRun(s, moves) ensures OutInOrder(Run(s, moves)) {
        DrainKeepsOrder(s, moves);
      }
    }
  }

  lemma {:induction false} RulesAreExactFrom(s: State, moves: seq<Move>)
    requires Inv(s) && InOrder(s) && Schedule(s, moves)
    ensures Orderly(s, moves, ALL_RULES) <==> AlwaysDrainsInOrder(s, moves)
    decreases |moves|
  {
    hide SearchOk, UnusedOk, HandlerOk, SlotsOk, ReaderOk, PlacesOk, CountsOk, InOrder, ObeysAll, DrainsInOrder;
    DrainsInOrderExactly(s);
    if moves != [] {
      var s' := Step(s, moves[0]);
      StepKeepsInv(s, moves[0]);
      StepIsExact(s, moves[0]);
      DrainsInOrderExactly(s');
      if InOrder(s') { RulesAreExactFrom(s', moves[1..]); }
    }
  }

  /** For every schedule: it obeys the rules if and only if draining the cache would hand out in
      order at every point of it. */
  lemma RulesAreExact(moves: seq<Move>)
    requires Schedule(Start, moves)
    ensures Orderly(Start, moves, ALL_RULES) <==> AlwaysDrainsInOrder(Start, moves)
  {
    StartInv();
    StartInOrder();
    RulesAreExactFrom(Start, moves);
  }
}

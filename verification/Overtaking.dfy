/** None of the rules of ArrivalOrder can be dropped: for each there is a schedule that obeys the
    other two and hands packets out of order. */
module Overtaking {
  import opened Common
  import opened PacketCaches
  import opened InterleavedCache
  import opened ArrivalOrder

  lemma {:induction false} OneMoreMove(s: State, moves: seq<Move>, rules: set<Rule>, m: Move)
    requires Shaped(s) && PcsInRange(s) && Orderly(s, moves, rules) && Schedule(s, moves)
    requires Enabled(Run(s, moves), m) && ObeysAll(rules, Run(s, moves), m)
    ensures Orderly(s, moves + [m], rules) && Schedule(s, moves + [m])
    ensures Run(s, moves + [m]) == Step(Run(s, moves), m)
    decreases |moves|
  {
    hide ObeysAll, Enabled, Step;
    if moves == [] {
      assert [m][1..] == [];
    } else {
      OneMoreMove(Step(s, moves[0]), moves[1..], rules, m);
      assert (moves + [m])[1..] == moves[1..] + [m];
    }
  }

  /** `moves` obey the rules and lead from `s0` to `s`. */
  predicate From(s0: State, rules: set<Rule>, moves: seq<Move>, s: State)
  {
    && Shaped(s0) && PcsInRange(s0) && Orderly(s0, moves, rules) && Schedule(s0, moves) && Run(s0, moves) == s
    && Shaped(s) && PcsInRange(s)
  }

  lemma Go(s0: State, rules: set<Rule>, moves: seq<Move>, s: State, m: Move) returns (moves': seq<Move>, s': State)
    requires From(s0, rules, moves, s) && Enabled(s, m) && ObeysAll(rules, s, m)
    ensures Shaped(s) && PcsInRange(s) && s' == Step(s, m) && From(s0, rules, moves', s')
  {
    OneMoreMove(s0, moves, rules, m);
    moves', s' := moves + [m], Step(s, m);
  }

  /* ---- the handler ---- */

  /** What handler steps leave alone. */
  predicate SameReader(s: State, s': State)
  {
    s'.r == s.r && s'.taken == s.taken && s'.out == s.out
  }

  /** With a slot for the one-byte packet [b] found, the handler goes through to the end. */
  lemma PutIn(s0: State, rules: set<Rule>, moves: seq<Move>, s: State, b: byte) returns (moves': seq<Move>, s': State)
    requires From(s0, rules, moves, s) && s.h.Testing? && s.h.data == [b] && !s.status[s.h.w]
    requires s.r.Resting? || NoFlagUnderRead !in rules
    requires s.h.w == s.current || NoFlagPastPackets !in rules
    ensures From(s0, rules, moves', s') && s'.h.Idle? && SameReader(s, s')
    ensures s'.status == s.status[s.h.w := true] && s'.idAt == s.idAt[s.h.w := |s.stored|]
    ensures s'.stored == s.stored + [[b]] && s'.current == (s.h.w + 1) % MAX_PKT
  {
    hide From, Shaped, PcsInRange;
    var m1, s1 := Go(s0, rules, moves, s, HandlerMove);
    var m2, s2 := Go(s0, rules, m1, s1, HandlerMove);
    var m3, s3 := Go(s0, rules, m2, s2, HandlerMove);
    moves', s' := Go(s0, rules, m3, s3, HandlerMove);
  }

  /** The handler takes in a packet without a search. */
  lemma TakeIn(s0: State, rules: set<Rule>, moves: seq<Move>, s: State, b: byte) returns (moves': seq<Move>, s': State)
    requires From(s0, rules, moves, s) && s.h.Idle? && !s.status[s.current]
    requires s.r.Resting? || NoFlagUnderRead !in rules
    ensures From(s0, rules, moves', s') && s'.h.Idle? && SameReader(s, s')
    ensures s'.status == s.status[s.current := true] && s'.idAt == s.idAt[s.current := |s.stored|]
    ensures s'.stored == s.stored + [[b]] && s'.current == (s.current + 1) % MAX_PKT
  {
    hide From, Shaped, PcsInRange;
    var data: PacketData := [b];
    var m1, s1 := Go(s0, rules, moves, s, Offer(data));
    moves', s' := PutIn(s0, rules, m1, s1, b);
  }

  /** The handler passes `n` occupied slots. */
  lemma PassOccupied(s0: State, rules: set<Rule>, moves: seq<Move>, s: State, n: nat)
    returns (moves': seq<Move>, s': State)
    requires From(s0, rules, moves, s) && s.h.Testing? && s.h.tries + n < KM_FIND_BUFF_SLOT_MAX_TRY
    requires forall k: nat :: k < n ==> s.status[TestedSlot(s.h.w, k)]
    ensures From(s0, rules, moves', s')
    ensures s' == s.(h := Testing(s.h.data, TestedSlot(s.h.w, n), s.h.tries + n))
  {
    moves', s' := moves, s;
    assert TestedSlot(s.h.w, 0) == s.h.w;
    hide From, Shaped, PcsInRange, TestedSlot;
    for k := 0 to n
      invariant From(s0, rules, moves', s')
      invariant s' == s.(h := Testing(s.h.data, TestedSlot(s.h.w, k), s.h.tries + k))
    {
      NextTested(s.h.w, k);
      moves', s' := Go(s0, rules, moves', s', HandlerMove);
    }
  }

  /* ---- the reader ---- */

  predicate SameCache(s: State, s': State)
  {
    && s'.status == s.status && s'.idAt == s.idAt && s'.stored == s.stored
    && s'.current == s.current && s'.h == s.h
  }

  /** The reader copies the slot it is at. */
  lemma Grab(s0: State, rules: set<Rule>, moves: seq<Move>, s: State) returns (moves': seq<Move>, s': State)
    requires From(s0, rules, moves, s) && s.r.Scanning? && s.status[s.r.ci]
    requires |s.taken| < PKTS_PER_BUFFER && s.r.tries < MAX_PKT
    ensures From(s0, rules, moves', s') && SameCache(s, s') && s'.out == s.out
    ensures s'.r == Scanning(s.r.start, (s.r.ci + 1) % MAX_PKT, s.r.tries + 1) && s'.taken == s.taken + [s.r.ci]
  {
    hide From, Shaped, PcsInRange;
    var copy := ReaderMove(true);
    moves', s' := Go(s0, rules, moves, s, copy);
    for k := 0 to PKT_BUFFER_SIZE
      invariant From(s0, rules, moves', s') && SameCache(s, s') && s'.out == s.out
      invariant s'.r == Grabbing(s.r.start, s.r.ci, s.r.tries, k) && s'.taken == s.taken
    {
      moves', s' := Go(s0, rules, moves', s', copy);
    }
    moves', s' := Go(s0, rules, moves', s', copy);
  }

  /** Four occupied slots in a row fill the read buffer. */
  lemma GrabFour(s0: State, rules: set<Rule>, moves: seq<Move>, s: State) returns (moves': seq<Move>, s': State)
    requires From(s0, rules, moves, s) && s.r.Scanning? && s.taken == []
    requires s.r.ci + 4 < MAX_PKT && s.r.tries + 4 <= MAX_PKT
    requires forall i :: s.r.ci <= i < s.r.ci + 4 ==> s.status[i]
    ensures From(s0, rules, moves', s') && SameCache(s, s') && s'.out == s.out && s'.r.Scanning?
    ensures s'.taken == [s.r.ci, s.r.ci + 1, s.r.ci + 2, s.r.ci + 3]
  {
    hide Orderly, Schedule, Run, PcsInRange;
    moves', s' := Grab(s0, rules, moves, s);
    moves', s' := Grab(s0, rules, moves', s');
    moves', s' := Grab(s0, rules, moves', s');
    moves', s' := Grab(s0, rules, moves', s');
  }

  /** The reader passes `n` free slots. */
  lemma PassFree(s0: State, rules: set<Rule>, moves: seq<Move>, s: State, n: nat)
    returns (moves': seq<Move>, s': State)
    requires From(s0, rules, moves, s) && s.r.Scanning? && s.r.tries + n <= MAX_PKT
    requires |s.taken| < PKTS_PER_BUFFER && forall k: nat :: k < n ==> !s.status[TestedSlot(s.r.ci, k)]
    ensures From(s0, rules, moves', s')
    ensures s' == s.(r := Scanning(s.r.start, TestedSlot(s.r.ci, n), s.r.tries + n))
  {
    var test := ReaderMove(true);
    moves', s' := moves, s;
    assert TestedSlot(s.r.ci, 0) == s.r.ci;
    hide From, Shaped, PcsInRange, TestedSlot;
    for k := 0 to n
      invariant From(s0, rules, moves', s')
      invariant s' == s.(r := Scanning(s.r.start, TestedSlot(s.r.ci, k), s.r.tries + k))
    {
      NextTested(s.r.ci, k);
      moves', s' := Go(s0, rules, moves', s', test);
    }
  }

  /** The scan is over and copy_to_user succeeds. */
  lemma HandOut(s0: State, rules: set<Rule>, moves: seq<Move>, s: State) returns (moves': seq<Move>, s': State)
    requires From(s0, rules, moves, s) && s.r.Scanning?
    requires |s.taken| == PKTS_PER_BUFFER || s.r.tries == MAX_PKT
    ensures From(s0, rules, moves', s') && SameCache(s, s') && s'.r == Wiping(0, 0) && s'.taken == s.taken
    ensures |s'.out| == |s.out| + |s.taken|
    ensures forall j :: 0 <= j < |s.taken| ==> s'.out[|s.out| + j].id == s.idAt[s.taken[j]]
  {
    hide From, PcsInRange;
    var m1, s1 := Go(s0, rules, moves, s, ReaderMove(true));
    moves', s' := Go(s0, rules, m1, s1, ReaderMove(true));
    assert s'.out == s1.out + Deliveries(s1);
  }

  /** The reader clears and releases the slots it has taken. */
  lemma ReleaseTaken(s0: State, rules: set<Rule>, moves: seq<Move>, s: State) returns (moves': seq<Move>, s': State)
    requires From(s0, rules, moves, s) && s.r == Wiping(0, 0)
    ensures From(s0, rules, moves', s') && s'.r.Resting? && s'.taken == s.taken && s'.out == s.out
    ensures s'.h == s.h && s'.idAt == s.idAt && s'.stored == s.stored && s'.current == s.current
    ensures forall i :: 0 <= i < MAX_PKT ==> (s'.status[i] <==> s.status[i] && i !in s.taken)
  {
    var wipe := ReaderMove(true);
    moves', s' := moves, s;
    for i := 0 to |s.taken|
      invariant From(s0, rules, moves', s') && s'.r == Wiping(i, 0) && s'.taken == s.taken && s'.out == s.out
      invariant s'.h == s.h && s'.idAt == s.idAt && s'.stored == s.stored && s'.current == s.current
      invariant forall j :: 0 <= j < MAX_PKT ==> (s'.status[j] <==> s.status[j] && j !in s.taken[..i])
    {
      moves', s' := ReleaseOne(s0, rules, moves', s');
      assert s.taken[..i + 1] == s.taken[..i] + [s.taken[i]];
    }
    assert s.taken[..|s.taken|] == s.taken;
    moves', s' := Go(s0, rules, moves', s', wipe);
  }

  lemma ReleaseOne(s0: State, rules: set<Rule>, moves: seq<Move>, s: State) returns (moves': seq<Move>, s': State)
    requires From(s0, rules, moves, s) && s.r.Wiping? && s.r.i < |s.taken| && s.r.k == 0
    ensures From(s0, rules, moves', s') && s'.r == Wiping(s.r.i + 1, 0) && s'.taken == s.taken && s'.out == s.out
    ensures s'.h == s.h && s'.idAt == s.idAt && s'.stored == s.stored && s'.current == s.current
    ensures s'.status == s.status[s.taken[s.r.i] := false]
  {
    hide From, Shaped, PcsInRange;
    var wipe := ReaderMove(true);
    moves', s' := moves, s;
    for k := 0 to PKT_BUFFER_SIZE
      invariant From(s0, rules, moves', s') && SameCache(s, s') && s'.out == s.out
      invariant s'.r == Wiping(s.r.i, k) && s'.taken == s.taken
    {
      moves', s' := Go(s0, rules, moves', s', wipe);
    }
    moves', s' := Go(s0, rules, moves', s', wipe);
  }

  /* ---- three schedules ---- */

  lemma Begin(rules: set<Rule>)
    ensures From(Start, rules, [], Start)
  {
  }

  lemma SlotsAfter(w: nat, n: nat)
    requires w + n <= MAX_PKT && w < MAX_PKT
    ensures forall k: nat :: k < n ==> TestedSlot(w, k) == w + k
    ensures TestedSlot(w, n) == if w + n < MAX_PKT then w + n else 0
  {
  }

  /** The reader has passed slot 0; then two packets are flagged; then the reader goes on. */
  lemma FlagUnderRead(s0: State, rules: set<Rule>, moves: seq<Move>, s: State) returns (moves': seq<Move>, s': State)
    requires From(s0, rules, moves, s) && NoFlagUnderRead !in rules && s.h.Idle? && s.r == Scanning(0, 0, 0)
    requires s.current == 0 && s.stored == [] && s.taken == [] && s.out == []
    requires forall i :: 0 <= i < MAX_PKT ==> !s.status[i]
    ensures From(s0, rules, moves', s') && |s'.out| == 1 && s'.out[0].id == 1
  {
    hide Orderly, Schedule, Run, PcsInRange, TestedSlot;
    SlotsAfter(0, 1);
    moves', s' := PassFree(s0, rules, moves, s, 1);
    moves', s' := TakeIn(s0, rules, moves', s', 1);
    moves', s' := TakeIn(s0, rules, moves', s', 2);
    moves', s' := Grab(s0, rules, moves', s');
    SlotsAfter(2, 198);
    moves', s' := PassFree(s0, rules, moves', s', 198);
    ghost var before := s';
    moves', s' := HandOut(s0, rules, moves', s');
    assert s'.out[|before.out| + 0].id == before.idAt[before.taken[0]];
  }

  /** A packet flagged under the reader's eyes is taken before one that the reader has passed. */
  lemma FlagUnderReadBreaksOrder() returns (moves: seq<Move>)
    ensures Orderly(Start, moves, ALL_RULES - {NoFlagUnderRead}) && Schedule(Start, moves)
    ensures !OutInOrder(Run(Start, moves))
  {
    var rules := ALL_RULES - {NoFlagUnderRead};
    Begin(rules);
    var s: State;
    moves, s := Go(Start, rules, [], Start, StartRead);
    moves, s := FlagUnderRead(Start, rules, moves, s);
  }

  /** Two packets are flagged, the second one's index update is still to come; then a read. */
  lemma ReadBeforeAdvance(s0: State, rules: set<Rule>, moves: seq<Move>, s: State)
    returns (moves': seq<Move>, s': State)
    requires From(s0, rules, moves, s) && NoReadBeforeAdvance !in rules
    requires s.h == Advancing(1) && s.r.Resting? && s.current == 1 && s.out == []
    requires forall i :: 0 <= i < MAX_PKT ==> (s.status[i] <==> i < 2)
    requires s.idAt[0] == 0 && s.idAt[1] == 1
    ensures From(s0, rules, moves', s') && |s'.out| == 2 && s'.out[0].id == 1
  {
    hide Orderly, Schedule, Run, PcsInRange, TestedSlot;
    moves', s' := Go(s0, rules, moves, s, StartRead);
    moves', s' := Grab(s0, rules, moves', s');
    SlotsAfter(2, 198);
    moves', s' := PassFree(s0, rules, moves', s', 198);
    moves', s' := Grab(s0, rules, moves', s');
    ghost var before := s';
    moves', s' := HandOut(s0, rules, moves', s');
    assert s'.out[|before.out| + 0].id == before.idAt[before.taken[0]];
  }

  lemma StoreAndFlag(s0: State, rules: set<Rule>, moves: seq<Move>, s: State) returns (moves': seq<Move>, s': State)
    requires From(s0, rules, moves, s) && s.h.Idle? && s.r.Resting? && s.current == 0 && s.stored == [] && s.out == []
    requires forall i :: 0 <= i < MAX_PKT ==> !s.status[i]
    ensures From(s0, rules, moves', s') && s'.h == Advancing(1) && s'.r.Resting? && s'.current == 1 && s'.out == []
    ensures forall i :: 0 <= i < MAX_PKT ==> (s'.status[i] <==> i < 2)
    ensures s'.idAt[0] == 0 && s'.idAt[1] == 1
  {
    hide Orderly, Schedule, Run, PcsInRange;
    var data: PacketData := [2];
    moves', s' := TakeIn(s0, rules, moves, s, 1);
    moves', s' := Go(s0, rules, moves', s', Offer(data));
    moves', s' := Go(s0, rules, moves', s', HandlerMove);
    moves', s' := Go(s0, rules, moves', s', HandlerMove);
    moves', s' := Go(s0, rules, moves', s', HandlerMove);
  }

  /** A read that starts between flag and index update takes the newest packet first. */
  lemma ReadBeforeAdvanceBreaksOrder() returns (moves: seq<Move>)
    ensures Orderly(Start, moves, ALL_RULES - {NoReadBeforeAdvance}) && Schedule(Start, moves)
    ensures !OutInOrder(Run(Start, moves))
  {
    var rules := ALL_RULES - {NoReadBeforeAdvance};
    Begin(rules);
    var s: State;
    moves, s := StoreAndFlag(Start, rules, [], Start);
    moves, s := ReadBeforeAdvance(Start, rules, moves, s);
  }

  /** Fill the cache. */
  lemma FillUp(s0: State, rules: set<Rule>, moves: seq<Move>, s: State) returns (moves': seq<Move>, s': State)
    requires From(s0, rules, moves, s) && s.h.Idle? && s.r.Resting? && s.current == 0 && s.stored == [] && s.out == []
    requires forall i :: 0 <= i < MAX_PKT ==> !s.status[i]
    ensures From(s0, rules, moves', s') && s'.h.Idle? && s'.r.Resting? && s'.current == 0 && s'.out == []
    ensures |s'.stored| == MAX_PKT
    ensures forall i :: 0 <= i < MAX_PKT ==> s'.status[i] && s'.idAt[i] == i
  {
    hide Orderly, Schedule, Run, PcsInRange;
    moves', s' := moves, s;
    for n := 0 to MAX_PKT
      invariant From(s0, rules, moves', s') && s'.h.Idle? && s'.r.Resting? && s'.out == []
      invariant s'.current == n % MAX_PKT && |s'.stored| == n
      invariant forall i :: 0 <= i < MAX_PKT ==> (s'.status[i] <==> i < n) && (i < n ==> s'.idAt[i] == i)
    {
      moves', s' := TakeIn(s0, rules, moves', s', 1);
    }
  }

  /** A full cache; the handler's search passes the three oldest slots, and then a read releases
      them. */
  lemma ReadDuringSearch(s0: State, rules: set<Rule>, moves: seq<Move>, s: State) returns (moves': seq<Move>, s': State)
    requires From(s0, rules, moves, s) && NoFlagPastPackets !in rules
    requires s.h.Idle? && s.r.Resting? && s.current == 0 && s.out == [] && |s.stored| == MAX_PKT
    requires forall i :: 0 <= i < MAX_PKT ==> s.status[i] && s.idAt[i] == i
    ensures From(s0, rules, moves', s') && s'.h == Testing([1], 3, 3) && s'.r.Resting? && s'.current == 0
    ensures |s'.out| == 4 && |s'.stored| == MAX_PKT
    ensures forall i :: 0 <= i < MAX_PKT ==> (s'.status[i] <==> i >= 4) && s'.idAt[i] == i
  {
    hide Orderly, Schedule, Run, PcsInRange, TestedSlot;
    var data: PacketData := [1];
    moves', s' := Go(s0, rules, moves, s, Offer(data));
    SlotsAfter(0, 3);
    moves', s' := PassOccupied(s0, rules, moves', s', 3);
    moves', s' := Go(s0, rules, moves', s', StartRead);
    moves', s' := GrabFour(s0, rules, moves', s');
    moves', s' := HandOut(s0, rules, moves', s');
    moves', s' := ReleaseTaken(s0, rules, moves', s');
    assert forall i :: 0 <= i < MAX_PKT ==> (i in s'.taken <==> i < 4);
  }

  /** The handler stores in slot 3; the next packet goes all the way round into slot 0, so the
      next read begins at slot 1 and meets slot 3 first. */
  lemma StoreAround(s0: State, rules: set<Rule>, moves: seq<Move>, s: State) returns (moves': seq<Move>, s': State)
    requires From(s0, rules, moves, s) && NoFlagPastPackets !in rules
    requires s.h == Testing([1], 3, 3) && s.r.Resting? && s.current == 0
    requires |s.out| == 4 && |s.stored| == MAX_PKT
    requires forall i :: 0 <= i < MAX_PKT ==> (s.status[i] <==> i >= 4) && s.idAt[i] == i
    ensures From(s0, rules, moves', s') && s'.h.Idle? && s'.r.Resting? && s'.current == 1 && |s'.out| == 4
    ensures forall i :: 0 <= i < MAX_PKT ==> (s'.status[i] <==> i == 0 || i >= 3)
    ensures s'.idAt[3] == MAX_PKT
  {
    hide Orderly, Schedule, Run, PcsInRange, TestedSlot;
    var data: PacketData := [1];
    moves', s' := PutIn(s0, rules, moves, s, 1);
    moves', s' := Go(s0, rules, moves', s', Offer(data));
    SlotsAfter(4, 196);
    moves', s' := PassOccupied(s0, rules, moves', s', 196);
    moves', s' := PutIn(s0, rules, moves', s', 1);
  }

  lemma ReadAround(s0: State, rules: set<Rule>, moves: seq<Move>, s: State) returns (moves': seq<Move>, s': State)
    requires From(s0, rules, moves, s) && s.h.Idle? && s.r.Resting? && s.current == 1 && |s.out| == 4
    requires forall i :: 0 <= i < MAX_PKT ==> (s.status[i] <==> i == 0 || i >= 3)
    requires s.idAt[3] == MAX_PKT
    ensures From(s0, rules, moves', s') && |s'.out| == 8 && s'.out[4].id == MAX_PKT
  {
    hide Orderly, Schedule, Run, PcsInRange, TestedSlot;
    moves', s' := Go(s0, rules, moves, s, StartRead);
    SlotsAfter(1, 2);
    moves', s' := PassFree(s0, rules, moves', s', 2);
    moves', s' := GrabFour(s0, rules, moves', s');
    ghost var before := s';
    moves', s' := HandOut(s0, rules, moves', s');
    assert s'.out[|before.out| + 0].id == before.idAt[before.taken[0]];
  }

  /** A slot that is released behind a running search is not filled by it; a later search goes
      past the other packets and fills it, and its packet goes out too early. */
  lemma FlagPastPacketsBreaksOrder() returns (moves: seq<Move>)
    ensures Orderly(Start, moves, ALL_RULES - {NoFlagPastPackets}) && Schedule(Start, moves)
    ensures !OutInOrder(Run(Start, moves))
  {
    var rules := ALL_RULES - {NoFlagPastPackets};
    Begin(rules);
    var s: State;
    moves, s := FillUp(Start, rules, [], Start);
    moves, s := ReadDuringSearch(Start, rules, moves, s);
    moves, s := StoreAround(Start, rules, moves, s);
    moves, s := ReadAround(Start, rules, moves, s);
  }

  /* ---- which rules it takes ---- */

  /** Whatever else handler and reader do, if they obey these rules, order is kept. */
  ghost predicate Guarantee(s0: State, rules: set<Rule>)
    requires Shaped(s0) && PcsInRange(s0)
  {
    forall moves :: Orderly(s0, moves, rules) && Schedule(s0, moves) ==> OutInOrder(Run(s0, moves))
  }

  lemma {:induction false} FewerRules(s: State, moves: seq<Move>, rules: set<Rule>, fewer: set<Rule>)
    requires Shaped(s) && PcsInRange(s) && Orderly(s, moves, rules) && fewer <= rules
    ensures Orderly(s, moves, fewer)
    decreases |moves|
  {
    if moves != [] {
      assert ObeysAll(rules, s, moves[0]);
      hide Obeys;
      assert ObeysAll(fewer, s, moves[0]);
      FewerRules(Step(s, moves[0]), moves[1..], rules, fewer);
    }
  }

  lemma EveryRule(rule: Rule)
    ensures rule in ALL_RULES
  {
    match rule
    case NoFlagPastPackets =>
    case NoFlagUnderRead =>
    case NoReadBeforeAdvance =>
  }

  lemma NeededRule(rule: Rule) returns (moves: seq<Move>)
    ensures Orderly(Start, moves, ALL_RULES - {rule}) && Schedule(Start, moves)
    ensures !OutInOrder(Run(Start, moves))
  {
    match rule
    case NoFlagPastPackets => moves := FlagPastPacketsBreaksOrder();
    case NoFlagUnderRead => moves := FlagUnderReadBreaksOrder();
    case NoReadBeforeAdvance => moves := ReadBeforeAdvanceBreaksOrder();
  }

  /** A set of rules guarantees order if and only if it has all three. */
  lemma GuaranteeTakesAllRules(rules: set<Rule>)
    ensures Guarantee(Start, rules) <==> ALL_RULES <= rules
  {
    if rule :| rule in ALL_RULES && rule !in rules {
      var moves := NeededRule(rule);
      forall other: Rule ensures other in ALL_RULES {
        EveryRule(other);
      }
      FewerRules(Start, moves, ALL_RULES - {rule}, rules);
    } else {
      forall moves | Orderly(Start, moves, rules) && Schedule(Start, moves) ensures OutInOrder(Run(Start, moves)) {
        FewerRules(Start, moves, rules, ALL_RULES);
        RulesKeepOrder(moves);
      }
    }
  }
}

/** When the interleaved cache keeps arrival order. Three rules say which steps of one party are
    harmless in the midst of the other's. A step that obeys them keeps the packets in the cache,
    and those the read under way will take, in the order they were stored; a step that breaks
    one does not (Draining shows what happens then). */
module ArrivalOrder {
  import opened Common
  import opened PacketCaches
  import opened InterleavedCache

  /* ---- what the read under way will take ---- */

  function NextSlot(i: nat): (j: nat)
    requires i < MAX_PKT
    ensures j < MAX_PKT
  {
    (i + 1) % MAX_PKT
  }

  /** The slots a scan takes that has tested `tries` slots, taken `n` and goes on alone at `ci`. */
  function Coming(status: seq<bool>, ci: nat, tries: nat, n: nat): (q: seq<nat>)
    requires |status| == MAX_PKT && ci < MAX_PKT
    ensures forall j :: 0 <= j < |q| ==> q[j] < MAX_PKT && status[q[j]]
    decreases MAX_PKT - tries
  {
    if n >= PKTS_PER_BUFFER || tries >= MAX_PKT then []
    else if status[ci] then [ci] + Coming(status, NextSlot(ci), tries + 1, n + 1)
    else Coming(status, NextSlot(ci), tries + 1, n)
  }

  /** The slots a read will have taken when it delivers, if no slot changes. */
  function WillTake(status: seq<bool>, taken: seq<nat>, r: ReaderPc): (q: seq<nat>)
    requires |status| == MAX_PKT && (r.Scanning? || r.Grabbing? ==> r.ci < MAX_PKT)
  {
    match r
    case Resting => []
    case Scanning(_, ci, tries) => taken + Coming(status, ci, tries, |taken|)
    case Grabbing(_, ci, tries, _) => taken + ([ci] + Coming(status, NextSlot(ci), tries + 1, |taken| + 1))
    case Delivering => taken
    case Wiping(_, _) => []
  }

  function Will(s: State): (q: seq<nat>)
    requires Shaped(s) && PcsInRange(s)
  {
    WillTake(s.status, s.taken, s.r)
  }

  /* ---- the rules ---- */

  datatype Rule =
    | NoFlagPastPackets          // no slot is flagged by a search that passed some of the packets
    | NoFlagUnderRead            // nor one that the read under way takes, unless it takes it last
    | NoReadBeforeAdvance        // nor does a read start between packets on both sides of a flag

  const ALL_RULES: set<Rule> := {NoFlagPastPackets, NoFlagUnderRead, NoReadBeforeAdvance}

  predicate Flags(s: State, m: Move)
  {
    m.HandlerMove? && s.h.Filling? && s.h.k >= |s.h.data|
  }

  /** Of the packets in the cache, either none or all are in the `d` slots from current_index. */
  predicate OneSide(s: State, d: nat)
    requires Shaped(s)
  {
    forall i: nat, j: nat :: i < MAX_PKT && j < MAX_PKT && Live(s, i) && Live(s, j) ==>
      (Ahead(s.current, i) < d ==> Ahead(s.current, j) < d)
  }

  /** The read under way does not come to slot `w`, or takes it after all other packets. */
  predicate TakenLast(s: State, w: nat)
    requires Shaped(s) && PcsInRange(s)
  {
    var q := Will(s);
    w in q ==> q[|q| - 1] == w && forall i: nat :: i < MAX_PKT && Live(s, i) ==> i in q
  }

  predicate Obeys(rule: Rule, s: State, m: Move)
    requires Shaped(s) && PcsInRange(s)
  {
    match rule
    case NoFlagPastPackets => Flags(s, m) ==> OneSide(s, Ahead(s.current, s.h.w))
    case NoFlagUnderRead => Flags(s, m) ==> TakenLast(HandlerStep(s), s.h.w)
    case NoReadBeforeAdvance => m.StartRead? && s.h.Advancing? ==> OneSide(s, Ahead(s.current, s.h.w) + 1)
  }

  predicate ObeysAll(rules: set<Rule>, s: State, m: Move)
    requires Shaped(s) && PcsInRange(s)
  {
    forall rule :: rule in rules ==> Obeys(rule, s, m)
  }

  predicate Orderly(s: State, moves: seq<Move>, rules: set<Rule>)
    requires Shaped(s) && PcsInRange(s)
    decreases |moves|
  {
    moves == [] ||
    (Enabled(s, moves[0]) && ObeysAll(rules, s, moves[0]) && Orderly(Step(s, moves[0]), moves[1..], rules))
  }

  /* ---- what they keep ---- */

  /** Where the handler continues. */
  function Cur(s: State): (cur: nat)
    requires Shaped(s) && PcsInRange(s)
    ensures cur < MAX_PKT
  {
    if s.h.Advancing? then NextSlot(s.h.w) else s.current
  }

  predicate OutInOrder(s: State)
  {
    forall p: nat :: p < |s.out| ==> s.out[p].id == p
  }

  /** Going round from where the handler continues, older packets come first. */
  predicate SlotsInOrder(s: State)
    requires Shaped(s) && PcsInRange(s)
  {
    forall i: nat, j: nat :: i < MAX_PKT && j < MAX_PKT && Live(s, i) && Live(s, j) ==>
      (s.idAt[i] < s.idAt[j] ==> Ahead(Cur(s), i) < Ahead(Cur(s), j))
  }

  /** The slots hold consecutive packets, the oldest first. */
  predicate Oldest(s: State, q: seq<nat>, first: nat)
    requires Shaped(s)
  {
    forall j :: 0 <= j < |q| ==> q[j] < MAX_PKT && s.idAt[q[j]] == first + j
  }

  predicate ReadInOrder(s: State)
    requires Shaped(s) && PcsInRange(s)
  {
    Oldest(s, Will(s), |s.out|)
  }

  predicate InOrder(s: State)
    requires Shaped(s) && PcsInRange(s)
  {
    OutInOrder(s) && SlotsInOrder(s) && ReadInOrder(s)
  }

  lemma StartInOrder()
    ensures InOrder(Start)
  {
  }

  /* ---- ids and slots ---- */

  lemma IdOfLive(s: State, i: nat)
    requires Inv(s) && OutInOrder(s) && i < MAX_PKT && Live(s, i)
    ensures |s.out| <= s.idAt[i] < |s.stored|
  {
    forall id: nat | id < |s.out| ensures id < |s.place| && s.place[id] == Out(id) {
      assert DeliveryOk(s, id);
    }
  }

  lemma SlotOfId(s: State, id: nat) returns (i: nat)
    requires Inv(s) && OutInOrder(s) && |s.out| <= id < |s.stored|
    ensures i < MAX_PKT && Live(s, i) && s.idAt[i] == id
  {
    assert PlaceOk(s, id);
    i := s.place[id].i;
  }

  lemma OneSlotForAnId(s: State, i: nat, j: nat)
    requires Inv(s) && i < MAX_PKT && j < MAX_PKT && Live(s, i) && Live(s, j) && i != j
    ensures s.idAt[i] != s.idAt[j]
  {
    assert s.place[s.idAt[i]] == InSlot(i) && s.place[s.idAt[j]] == InSlot(j);
  }

  /* ---- distances ---- */

  lemma AheadOfNext(start: nat, i: nat)
    requires start < MAX_PKT && i < MAX_PKT && Ahead(start, i) < MAX_PKT - 1
    ensures Ahead(start, NextSlot(i)) == Ahead(start, i) + 1
  {
  }

  lemma AheadDiffers(start: nat, i: nat, j: nat)
    requires start < MAX_PKT && i < MAX_PKT && j < MAX_PKT && Ahead(start, i) == Ahead(start, j)
    ensures i == j
  {
  }

  /** Seen from behind slot `w`. */
  lemma AheadBehind(start: nat, w: nat, i: nat)
    requires start < MAX_PKT && w < MAX_PKT && i < MAX_PKT
    ensures var d, a := Ahead(start, w) + 1, Ahead(start, i);
            Ahead(NextSlot(w), i) == if a >= d then a - d else a + MAX_PKT - d
  {
  }

  lemma LastBehind(w: nat, i: nat)
    requires w < MAX_PKT && i < MAX_PKT && i != w
    ensures Ahead(NextSlot(w), i) < Ahead(NextSlot(w), w)
  {
  }

  /** Two slots on the same side of `w` keep their order, two on different sides change it. */
  lemma OrderBehind(start: nat, w: nat, i: nat, j: nat)
    requires start < MAX_PKT && w < MAX_PKT && i < MAX_PKT && j < MAX_PKT && i != w && j != w
    requires Ahead(start, i) < Ahead(start, j)
    ensures Ahead(NextSlot(w), i) < Ahead(NextSlot(w), j) <==>
            (Ahead(start, i) < Ahead(start, w) ==> Ahead(start, j) < Ahead(start, w))
    ensures Ahead(NextSlot(w), i) != Ahead(NextSlot(w), j)
  {
    AheadBehind(start, w, i);
    AheadBehind(start, w, j);
    if Ahead(start, i) == Ahead(start, w) { AheadDiffers(start, i, w); }
    if Ahead(start, j) == Ahead(start, w) { AheadDiffers(start, j, w); }
    hide Ahead, NextSlot;
  }

  /* ---- a flag ---- */

  lemma FlagKeepsSlots(s: State)
    requires Inv(s) && OutInOrder(s) && SlotsInOrder(s) && s.h.Filling? && s.h.k == |s.h.data|
    requires OneSide(s, Ahead(s.current, s.h.w))
    ensures SlotsInOrder(HandlerStep(s))
  {
    var s', w := HandlerStep(s), s.h.w;
    FlagLive(s);
    assert forall j: nat :: j < MAX_PKT && Live(s, j) ==> s.idAt[j] < |s.stored|;
    hide SearchOk, UnusedOk, HandlerOk, SlotsOk, ReaderOk, PlacesOk, CountsOk, Live, NextSlot, Ahead;
    forall i: nat, j: nat | i < MAX_PKT && j < MAX_PKT && Live(s', i) && Live(s', j) && s'.idAt[i] < s'.idAt[j]
      ensures Ahead(NextSlot(w), i) < Ahead(NextSlot(w), j)
    {
      if j == w {
        LastBehind(w, i);
      } else if i != w {
        OrderBehind(s.current, w, i, j);
      }
    }
  }

  lemma NearerIsOlder(s: State, i: nat, j: nat)
    requires Inv(s) && OutInOrder(s) && SlotsInOrder(s) && !s.h.Advancing?
    requires i < MAX_PKT && j < MAX_PKT && Live(s, i) && Live(s, j)
    requires Ahead(s.current, i) < Ahead(s.current, j)
    ensures s.idAt[i] < s.idAt[j]
  {
    hide SearchOk, UnusedOk, HandlerOk, SlotsOk, ReaderOk, PlacesOk, CountsOk, Live, Ahead;
    OneSlotForAnId(s, i, j);
  }

  /** One packet passed and one not: afterwards the newer one comes first. */
  lemma FlagBetween(s: State, i: nat, j: nat)
    requires Inv(s) && OutInOrder(s) && SlotsInOrder(s) && s.h.Filling? && s.h.k == |s.h.data|
    requires i < MAX_PKT && j < MAX_PKT && Live(s, i) && Live(s, j)
    requires Ahead(s.current, i) < Ahead(s.current, s.h.w) <= Ahead(s.current, j)
    ensures !SlotsInOrder(HandlerStep(s))
  {
    NearerIsOlder(s, i, j);
    FlagLive(s);
    hide SearchOk, UnusedOk, HandlerOk, SlotsOk, ReaderOk, PlacesOk, CountsOk, Live, NextSlot, Ahead, OutInOrder;
    OrderBehind(s.current, s.h.w, i, j);
    assert HandlerStep(s).idAt[i] < HandlerStep(s).idAt[j];
  }

  /** Flagging keeps the slots in order exactly if the search passed none or all of the packets. */
  lemma FlagAndSlots(s: State)
    requires Inv(s) && OutInOrder(s) && SlotsInOrder(s) && s.h.Filling? && s.h.k == |s.h.data|
    ensures SlotsInOrder(HandlerStep(s)) <==> OneSide(s, Ahead(s.current, s.h.w))
  {
    var d := Ahead(s.current, s.h.w);
    if OneSide(s, d) {
      FlagKeepsSlots(s);
    } else {
      var i: nat, j: nat :| i < MAX_PKT && j < MAX_PKT && Live(s, i) && Live(s, j) &&
        Ahead(s.current, i) < d <= Ahead(s.current, j);
      FlagBetween(s, i, j);
    }
  }

  /** `w` has come in at position `k`. */
  predicate ComesIn(q: seq<nat>, q': seq<nat>, w: nat, k: nat)
  {
    k < |q'| && k <= |q| && q'[k] == w && q'[..k] == q[..k]
  }

  /** Where the newly flagged slot comes in, if at all. */
  lemma {:induction false} ComingAfterFlag(status: seq<bool>, w: nat, ci: nat, tries: nat, n: nat)
    requires |status| == MAX_PKT && ci < MAX_PKT && w < MAX_PKT && !status[w]
    ensures var q, q' := Coming(status, ci, tries, n), Coming(status[w := true], ci, tries, n);
            q' == q || exists k: nat :: ComesIn(q, q', w, k)
    decreases MAX_PKT - tries
  {
    if n < PKTS_PER_BUFFER && tries < MAX_PKT {
      var q, q' := Coming(status, ci, tries, n), Coming(status[w := true], ci, tries, n);
      if ci == w {
        assert ComesIn(q, q', w, 0);
      } else if status[ci] {
        hide NextSlot;
        ComingAfterFlag(status, w, NextSlot(ci), tries + 1, n + 1);
        var r, r' := q[1..], q'[1..];
        if r' != r {
          var k: nat :| ComesIn(r, r', w, k);
          assert q'[..k + 1] == [ci] + r'[..k] == q[..k + 1];
          assert ComesIn(q, q', w, k + 1);
        }
      } else {
        ComingAfterFlag(status, w, NextSlot(ci), tries + 1, n);
      }
    }
  }

  /** The same for the whole read. */
  lemma WillAfterFlag(s: State)
    requires Inv(s) && s.h.Filling? && s.h.k == |s.h.data|
    ensures var w, q, q' := s.h.w, Will(s), Will(HandlerStep(s));
            q' == q || exists k: nat :: ComesIn(q, q', w, k)
  {
    var w, q, q' := s.h.w, Will(s), Will(HandlerStep(s));
    match s.r {
      case Scanning(_, ci, tries) =>
        WithPrefix(s.status, w, s.taken, ci, tries, |s.taken|);
      case Grabbing(_, ci, tries, _) =>
        WithPrefix(s.status, w, s.taken + [ci], NextSlot(ci), tries + 1, |s.taken| + 1);
        assert forall t: seq<nat> :: s.taken + ([ci] + t) == (s.taken + [ci]) + t;
      case _ =>
    }
  }

  lemma WithPrefix(status: seq<bool>, w: nat, p: seq<nat>, ci: nat, tries: nat, n: nat)
    requires |status| == MAX_PKT && ci < MAX_PKT && w < MAX_PKT && !status[w]
    ensures var q, q' := p + Coming(status, ci, tries, n), p + Coming(status[w := true], ci, tries, n);
            q' == q || exists k: nat :: ComesIn(q, q', w, k)
  {
    ComingAfterFlag(status, w, ci, tries, n);
    var q, q' := Coming(status, ci, tries, n), Coming(status[w := true], ci, tries, n);
    if q' != q {
      var k: nat :| ComesIn(q, q', w, k);
      assert (p + q')[..|p| + k] == p + q'[..k] == (p + q)[..|p| + k];
      assert ComesIn(p + q, p + q', w, |p| + k);
    }
  }

  /** The slots lie further and further from `start`, from `least` on. */
  predicate Outward(start: nat, q: seq<nat>, least: nat)
    requires start < MAX_PKT
  {
    && (forall j :: 0 <= j < |q| ==> q[j] < MAX_PKT && least <= Ahead(start, q[j]))
    && (forall j, k :: 0 <= j < k < |q| ==> Ahead(start, q[j]) < Ahead(start, q[k]))
  }

  lemma OutwardFrom(start: nat, i: nat, q: seq<nat>)
    requires start < MAX_PKT && i < MAX_PKT && Outward(start, q, Ahead(start, i) + 1)
    ensures Outward(start, [i] + q, Ahead(start, i))
  {
    hide Ahead;
    var all := [i] + q;
    forall j | 0 < j < |all| ensures all[j] == q[j - 1] {
    }
  }

  /** A scan meets the slots in the order of their distance from where it started. */
  lemma {:induction false} ComingSorted(status: seq<bool>, start: nat, ci: nat, tries: nat, n: nat)
    requires |status| == MAX_PKT && start < MAX_PKT && ci < MAX_PKT
    requires tries < MAX_PKT ==> Ahead(start, ci) == tries
    ensures Outward(start, Coming(status, ci, tries, n), tries)
    decreases MAX_PKT - tries
  {
    if n < PKTS_PER_BUFFER && tries < MAX_PKT {
      if tries < MAX_PKT - 1 { AheadOfNext(start, ci); }
      hide Ahead, NextSlot;
      ComingSorted(status, start, NextSlot(ci), tries + 1, if status[ci] then n + 1 else n);
      if status[ci] { OutwardFrom(start, ci, Coming(status, NextSlot(ci), tries + 1, n + 1)); }
    }
  }

  predicate Distinct(q: seq<nat>)
  {
    forall j, k :: 0 <= j < k < |q| ==> q[j] != q[k]
  }

  lemma OutwardBehind(start: nat, tries: nat, p: seq<nat>, q: seq<nat>)
    requires start < MAX_PKT && Distinct(p) && Outward(start, q, tries)
    requires forall j :: 0 <= j < |p| ==> p[j] < MAX_PKT && Ahead(start, p[j]) < tries
    ensures Distinct(p + q)
  {
    hide Ahead;
  }

  /** The read takes flagged slots, each once. */
  lemma WillDistinct(s: State)
    requires Inv(s)
    ensures forall j :: 0 <= j < |Will(s)| ==> Will(s)[j] < MAX_PKT && s.status[Will(s)[j]]
    ensures Distinct(Will(s))
  {
    match s.r {
      case Scanning(start, ci, tries) =>
        ComingSorted(s.status, start, ci, tries, |s.taken|);
        OutwardBehind(start, tries, s.taken, Coming(s.status, ci, tries, |s.taken|));
      case Grabbing(_, _, _, _) =>
        GrabDistinct(s);
      case _ =>
    }
  }

  lemma GrabDistinct(s: State)
    requires Inv(s) && s.r.Grabbing?
    ensures Distinct(Will(s))
  {
    var start, ci, tries := s.r.start, s.r.ci, s.r.tries;
    var q := Coming(s.status, NextSlot(ci), tries + 1, |s.taken| + 1);
    if tries < MAX_PKT - 1 { AheadOfNext(start, ci); }
    ComingSorted(s.status, start, NextSlot(ci), tries + 1, |s.taken| + 1);
    OutwardFrom(start, ci, q);
    OutwardBehind(start, tries, s.taken, [ci] + q);
  }

  /** If the newest packet is taken, and last, and all others are taken, then it has its turn. */
  lemma TakesAll(s: State, q: seq<nat>)
    requires Inv(s) && OutInOrder(s) && Oldest(s, q, |s.out|)
    requires forall j :: 0 <= j < |q| ==> Live(s, q[j])
    requires forall i: nat :: i < MAX_PKT && Live(s, i) ==> i in q
    ensures |s.out| + |q| == |s.stored|
  {
    if |q| > 0 {
      IdOfLive(s, q[|q| - 1]);
    }
    if |s.stored| > |s.out| {
      var i := SlotOfId(s, |s.stored| - 1);
      var j :| 0 <= j < |q| && q[j] == i;
    }
  }

  lemma FlagNotTaken(s: State)
    requires Inv(s) && ReadInOrder(s) && s.h.Filling? && s.h.k == |s.h.data|
    requires Will(HandlerStep(s)) == Will(s)
    ensures ReadInOrder(HandlerStep(s))
  {
    assert !s.status[s.h.w];
    WillDistinct(s);
    hide SearchOk, UnusedOk, HandlerOk, SlotsOk, ReaderOk, PlacesOk, CountsOk, Will, Coming, Ahead;
  }

  lemma FlagKeepsRead(s: State)
    requires Inv(s) && OutInOrder(s) && ReadInOrder(s) && s.h.Filling? && s.h.k == |s.h.data|
    requires TakenLast(HandlerStep(s), s.h.w)
    ensures ReadInOrder(HandlerStep(s))
  {
    var q, q' := Will(s), Will(HandlerStep(s));
    if q' == q {
      FlagNotTaken(s);
    } else {
      assert !s.r.Wiping?;
      hide SearchOk, UnusedOk, HandlerOk, SlotsOk, ReaderOk, PlacesOk, CountsOk, Coming, Live, Ahead, Will;
      WillAfterFlag(s);
      WillDistinct(s);
      FlagKeepsInv(s);
      WillDistinct(HandlerStep(s));
      var k: nat :| ComesIn(q, q', s.h.w, k);
      ComesInLast(q, q', s.h.w, k);
      TakenBefore(s, q', q[..k]);
    }
  }

  lemma ComesInLast(q: seq<nat>, q': seq<nat>, w: nat, k: nat)
    requires ComesIn(q, q', w, k) && Distinct(q') && q'[|q'| - 1] == w
    ensures q' == q[..k] + [w]
  {
    assert k == |q'| - 1;
  }

  lemma TakenBefore(s: State, q': seq<nat>, q: seq<nat>)
    requires Inv(s) && OutInOrder(s) && Oldest(s, q, |s.out|) && s.h.Filling? && s.h.k == |s.h.data|
    requires !s.r.Wiping? && forall j :: 0 <= j < |q| ==> q[j] < MAX_PKT && s.status[q[j]]
    requires q' == q + [s.h.w]
    requires forall i: nat :: i < MAX_PKT && Live(HandlerStep(s), i) ==> i in q'
    ensures Oldest(HandlerStep(s), q', |s.out|)
  {
    FlagLive(s);
    TakesAll(s, q);
  }

  /** A read that takes the newest packet too early, or instead of an older one, is out of order. */
  lemma NewestTakenWrongly(s: State, w: nat)
    requires Inv(s) && OutInOrder(s) && !s.r.Wiping? && w < MAX_PKT
    requires s.idAt[w] == |s.stored| - 1 && !TakenLast(s, w)
    ensures !ReadInOrder(s)
  {
    var q := Will(s);
    WillDistinct(s);
    hide SearchOk, UnusedOk, HandlerOk, SlotsOk, ReaderOk, PlacesOk, CountsOk, Will, Coming, Ahead;
    if q[|q| - 1] == w {
      var i: nat :| i < MAX_PKT && Live(s, i) && i !in q;
      LeavesOut(s, q, i);
    } else {
      var k :| 0 <= k < |q| && q[k] == w;
      NotLast(s, q, k);
    }
  }

  lemma FlagBreaksRead(s: State)
    requires Inv(s) && OutInOrder(s) && ReadInOrder(s) && s.h.Filling? && s.h.k == |s.h.data|
    requires !TakenLast(HandlerStep(s), s.h.w)
    ensures !ReadInOrder(HandlerStep(s))
  {
    FlagKeepsInv(s);
    var s' := HandlerStep(s);
    assert !s'.r.Wiping?;
    assert s'.idAt[s.h.w] == |s'.stored| - 1 && s'.out == s.out;
    hide SearchOk, UnusedOk, HandlerOk, SlotsOk, ReaderOk, PlacesOk, CountsOk, Will, HandlerStep;
    NewestTakenWrongly(s', s.h.w);
  }

  /** A read cannot take the newest packet in its turn and then another one. */
  lemma NotLast(s: State, q: seq<nat>, k: nat)
    requires Inv(s) && OutInOrder(s) && k < |q| - 1
    requires forall j :: 0 <= j < |q| ==> q[j] < MAX_PKT && Live(s, q[j])
    requires s.idAt[q[k]] == |s.stored| - 1
    ensures !Oldest(s, q, |s.out|)
  {
    IdOfLive(s, q[|q| - 1]);
  }

  /** A read that takes the newest packet last but not packet `i` is out of order. */
  lemma LeavesOut(s: State, q: seq<nat>, i: nat)
    requires Inv(s) && OutInOrder(s) && i < MAX_PKT && Live(s, i) && i !in q && q != []
    requires forall j :: 0 <= j < |q| ==> q[j] < MAX_PKT && Live(s, q[j])
    requires s.idAt[q[|q| - 1]] == |s.stored| - 1
    ensures !Oldest(s, q, |s.out|)
  {
    IdOfLive(s, i);
    var k := s.idAt[i] - |s.out|;
    if k < |q| { OneSlotForAnId(s, i, q[k]); }
  }

  lemma FlagIsExact(s: State)
    requires Inv(s) && InOrder(s) && s.h.Filling? && s.h.k == |s.h.data|
    ensures InOrder(HandlerStep(s)) <==> ObeysAll(ALL_RULES, s, HandlerMove)
  {
    hide SearchOk, UnusedOk, HandlerOk, SlotsOk, ReaderOk, PlacesOk, CountsOk,
         OneSide, TakenLast, SlotsInOrder, ReadInOrder;
    FlagAndSlots(s);
    if TakenLast(HandlerStep(s), s.h.w) { FlagKeepsRead(s); } else { FlagBreaksRead(s); }
    var m := HandlerMove;
    assert ObeysAll(ALL_RULES, s, m) <==> Obeys(NoFlagPastPackets, s, m) && Obeys(NoFlagUnderRead, s, m);
  }

  lemma TestTakesNext(status: seq<bool>, taken: seq<nat>, start: nat, ci: nat, tries: nat)
    requires |status| == MAX_PKT && ci < MAX_PKT
    ensures WillTake(status, taken, Scanning(start, ci, tries)) ==
      if |taken| >= PKTS_PER_BUFFER || tries >= MAX_PKT then WillTake(status, taken, Delivering)
      else if status[ci] then WillTake(status, taken, Grabbing(start, ci, tries, 0))
      else WillTake(status, taken, Scanning(start, NextSlot(ci), tries + 1))
  {
    hide NextSlot;
    assert taken + [] == taken;
  }

  lemma TestedNextIsTaken(s: State)
    requires Shaped(s) && PcsInRange(s) && s.h.Filling? && s.h.k == |s.h.data|
    requires s.r.Scanning? && s.r.ci == s.h.w && s.r.tries < MAX_PKT && |s.taken| < PKTS_PER_BUFFER
    ensures var s', w := HandlerStep(s), s.h.w;
            Will(s') == s.taken + ([w] + Coming(s'.status, NextSlot(w), s.r.tries + 1, |s.taken| + 1))
  {
    hide Coming, NextSlot;
    TestTakesNext(HandlerStep(s).status, s.taken, s.r.start, s.h.w, s.r.tries);
  }

  /** If the flagged slot is the one the reader tests next, it comes last exactly if every other
      packet in the cache is taken already. */
  lemma FlagUnderTheReader(s: State)
    requires Inv(s) && s.h.Filling? && s.h.k == |s.h.data|
    requires s.r.Scanning? && s.r.ci == s.h.w && s.r.tries < MAX_PKT && |s.taken| < PKTS_PER_BUFFER
    ensures TakenLast(HandlerStep(s), s.h.w) <==> forall i: nat :: i < MAX_PKT && Live(s, i) ==> i in s.taken
  {
    hide SearchOk, UnusedOk, HandlerOk, SlotsOk, ReaderOk, PlacesOk, CountsOk, Coming, NextSlot, Ahead, Will;
    var s', w := HandlerStep(s), s.h.w;
    var q := Coming(s'.status, NextSlot(w), s.r.tries + 1, |s.taken| + 1);
    TestedNextIsTaken(s);
    FlagLive(s);
    FlagKeepsInv(s);
    WillDistinct(s');
    OneInTheMiddle(s.taken, w, q);
    if q != [] {
      assert q[0] in Will(s') && s'.status[q[0]] && Live(s', q[0]);
    }
  }

  lemma OneInTheMiddle(p: seq<nat>, w: nat, q: seq<nat>)
    requires Distinct(p + ([w] + q))
    ensures var all := p + ([w] + q);
            && w in all && (all[|all| - 1] == w <==> q == [])
            && (q != [] ==> q[0] in all && q[0] !in p && q[0] != w)
            && (forall i :: i in all <==> i in p || i == w || i in q)
  {
    var all := p + ([w] + q);
    assert all[|p|] == w;
    if q != [] {
      assert all[|p| + 1] == q[0] && all[|all| - 1] == q[|q| - 1];
      forall i | 0 <= i < |p| ensures p[i] != q[0] {
        assert all[i] == p[i];
      }
    }
  }

  /* ---- a read ---- */

  /** Going round from `start`, older packets come first. */
  predicate InOrderFrom(s: State, start: nat)
    requires Shaped(s) && start < MAX_PKT
  {
    forall i: nat, j: nat :: i < MAX_PKT && j < MAX_PKT && Live(s, i) && Live(s, j) ==>
      (s.idAt[i] < s.idAt[j] ==> Ahead(start, i) < Ahead(start, j))
  }

  /** The first `n` packets are those in the slots tested so far. */
  predicate TestedAre(s: State, start: nat, tries: nat, n: nat)
    requires Shaped(s) && start < MAX_PKT
  {
    forall i: nat :: i < MAX_PKT && Live(s, i) ==> (Ahead(start, i) < tries <==> s.idAt[i] < |s.out| + n)
  }

  lemma NextIsOldest(s: State, start: nat, ci: nat, n: nat)
    requires Inv(s) && OutInOrder(s) && start < MAX_PKT && InOrderFrom(s, start)
    requires ci < MAX_PKT && Live(s, ci) && TestedAre(s, start, Ahead(start, ci), n)
    ensures s.idAt[ci] == |s.out| + n && TestedAre(s, start, Ahead(start, ci) + 1, n + 1)
  {
    hide Ahead;
    IdOfLive(s, ci);
    if s.idAt[ci] > |s.out| + n {
      var i := SlotOfId(s, |s.out| + n);
    }
    forall i: nat | i < MAX_PKT && Live(s, i)
      ensures Ahead(start, i) < Ahead(start, ci) + 1 <==> s.idAt[i] < |s.out| + n + 1
    {
      if Ahead(start, i) == Ahead(start, ci) { AheadDiffers(start, i, ci); }
      if i != ci { OneSlotForAnId(s, i, ci); }
    }
  }

  lemma NextIsFree(s: State, start: nat, ci: nat, n: nat)
    requires Shaped(s) && start < MAX_PKT && ci < MAX_PKT
    requires !Live(s, ci) && TestedAre(s, start, Ahead(start, ci), n)
    ensures TestedAre(s, start, Ahead(start, ci) + 1, n)
  {
    hide Ahead;
    forall i: nat | i < MAX_PKT && Live(s, i)
      ensures Ahead(start, i) < Ahead(start, ci) + 1 <==> s.idAt[i] < |s.out| + n
    {
      if Ahead(start, i) == Ahead(start, ci) { AheadDiffers(start, i, ci); }
    }
  }

  /** A scan through slots in order takes the oldest packets. */
  lemma {:induction false} ComingIsOldest(s: State, start: nat, ci: nat, tries: nat, n: nat)
    requires Inv(s) && OutInOrder(s) && !s.r.Wiping? && start < MAX_PKT && InOrderFrom(s, start)
    requires ci < MAX_PKT && (tries < MAX_PKT ==> Ahead(start, ci) == tries)
    requires TestedAre(s, start, tries, n)
    ensures Oldest(s, Coming(s.status, ci, tries, n), |s.out| + n)
    decreases MAX_PKT - tries
  {
    hide SearchOk, UnusedOk, HandlerOk, SlotsOk, ReaderOk, PlacesOk, CountsOk, InOrderFrom, TestedAre, Ahead;
    if n < PKTS_PER_BUFFER && tries < MAX_PKT {
      if tries < MAX_PKT - 1 { AheadOfNext(start, ci); }
      if s.status[ci] {
        NextIsOldest(s, start, ci, n);
        ComingIsOldest(s, start, NextSlot(ci), tries + 1, n + 1);
      } else {
        NextIsFree(s, start, ci, n);
        ComingIsOldest(s, start, NextSlot(ci), tries + 1, n);
      }
    }
  }

  /** The order seen from current_index and from behind the slot flagged last. */
  lemma OtherStart(s: State)
    requires Inv(s) && SlotsInOrder(s) && (s.h.Advancing? ==> OneSide(s, Ahead(s.current, s.h.w) + 1))
    ensures InOrderFrom(s, s.current)
  {
    if s.h.Advancing? {
      hide Ahead, NextSlot, Live;
      forall i: nat, j: nat | i < MAX_PKT && j < MAX_PKT && Live(s, i) && Live(s, j) && s.idAt[i] < s.idAt[j]
        ensures Ahead(s.current, i) < Ahead(s.current, j)
      {
        AheadBehind(s.current, s.h.w, i);
        AheadBehind(s.current, s.h.w, j);
      }
    }
  }

  lemma ReadStartsInOrder(s: State)
    requires Inv(s) && OutInOrder(s) && SlotsInOrder(s) && s.r.Resting?
    requires s.h.Advancing? ==> OneSide(s, Ahead(s.current, s.h.w) + 1)
    ensures ReadInOrder(Step(s, StartRead))
  {
    hide Coming, Ahead, Will;
    OtherStart(s);
    forall i: nat | i < MAX_PKT && Live(s, i) ensures |s.out| <= s.idAt[i] {
      IdOfLive(s, i);
    }
    WillFromStart(s);
    ComingIsOldest(s, s.current, s.current, 0, 0);
  }

  /** What a read will take that starts now. */
  lemma WillFromStart(s: State)
    requires Shaped(s) && PcsInRange(s) && s.r.Resting?
    ensures Will(Step(s, StartRead)) == Coming(s.status, s.current, 0, 0)
    ensures Ahead(s.current, s.current) == 0
  {
    hide Coming;
    var q := Coming(s.status, s.current, 0, 0);
    assert [] + q == q;
  }

  /** The first slot a scan takes is at most as far as any flagged one. */
  lemma {:induction false} FirstComing(status: seq<bool>, start: nat, ci: nat, tries: nat, i: nat)
    requires |status| == MAX_PKT && start < MAX_PKT && ci < MAX_PKT && i < MAX_PKT && status[i]
    requires tries < MAX_PKT && Ahead(start, ci) == tries <= Ahead(start, i)
    ensures var q := Coming(status, ci, tries, 0); q != [] && Ahead(start, q[0]) <= Ahead(start, i)
    decreases MAX_PKT - tries
  {
    if !status[ci] {
      if Ahead(start, i) == tries { AheadDiffers(start, i, ci); }
      AheadOfNext(start, ci);
      FirstComing(status, start, NextSlot(ci), tries + 1, i);
    }
  }

  /** A read that starts between packets on both sides takes a newer one first. */
  lemma ReadBetween(s: State, i: nat, j: nat)
    requires Inv(s) && OutInOrder(s) && SlotsInOrder(s) && s.r.Resting? && s.h.Advancing?
    requires i < MAX_PKT && j < MAX_PKT && Live(s, i) && Live(s, j)
    requires Ahead(s.current, i) <= Ahead(s.current, s.h.w) < Ahead(s.current, j)
    ensures !ReadInOrder(Step(s, StartRead))
  {
    hide SearchOk, UnusedOk, HandlerOk, SlotsOk, ReaderOk, PlacesOk, CountsOk, Coming;
    var c, w, q := s.current, s.h.w, Coming(s.status, s.current, 0, 0);
    WillFromStart(s);
    FirstComing(s.status, c, c, 0, i);
    hide Will;
    IdOfLive(s, j);
    IdOfLive(s, q[0]);
    AheadBehind(c, w, q[0]);
    AheadBehind(c, w, j);
    OneSlotForAnId(s, q[0], j);
    assert Will(Step(s, StartRead))[0] == q[0];
  }

  lemma StartReadKeepsSlots(s: State)
    requires Inv(s) && OutInOrder(s) && SlotsInOrder(s) && s.r.Resting?
    ensures OutInOrder(Step(s, StartRead)) && SlotsInOrder(Step(s, StartRead))
  {
    var s' := Step(s, StartRead);
    assert forall i: nat :: i < MAX_PKT ==> Live(s', i) == Live(s, i);
    hide Inv, Ahead, Live;
  }

  lemma ReadIsExact(s: State)
    requires Inv(s) && InOrder(s) && s.r.Resting?
    ensures InOrder(Step(s, StartRead)) <==> ObeysAll(ALL_RULES, s, StartRead)
  {
    var m := StartRead;
    hide SearchOk, UnusedOk, HandlerOk, SlotsOk, ReaderOk, PlacesOk, CountsOk,
         Will, Coming, Ahead, Live, SlotsInOrder, ReadInOrder, OutInOrder, Step;
    assert ObeysAll(ALL_RULES, s, m) <==> Obeys(NoReadBeforeAdvance, s, m);
    StartReadKeepsSlots(s);
    if s.h.Advancing? && !OneSide(s, Ahead(s.current, s.h.w) + 1) {
      var i: nat, j: nat :| i < MAX_PKT && j < MAX_PKT && Live(s, i) && Live(s, j) &&
        Ahead(s.current, i) < Ahead(s.current, s.h.w) + 1 <= Ahead(s.current, j);
      ReadBetween(s, i, j);
    } else {
      ReadStartsInOrder(s);
    }
  }

  /* ---- all other steps ---- */

  lemma SameOrder(s: State, s': State)
    requires Shaped(s) && PcsInRange(s) && Shaped(s') && PcsInRange(s') && OutInOrder(s) && SlotsInOrder(s)
    requires s'.idAt == s.idAt && s'.out == s.out && Cur(s') == Cur(s)
    requires forall i: nat :: i < MAX_PKT ==> Live(s', i) == Live(s, i)
    ensures OutInOrder(s') && SlotsInOrder(s')
  {
    hide Live, Ahead;
  }

  lemma SameWill(s: State, s': State)
    requires Shaped(s) && PcsInRange(s) && Shaped(s') && PcsInRange(s') && ReadInOrder(s)
    requires s'.r == s.r && s'.taken == s.taken && s'.status == s.status
    requires s'.idAt == s.idAt && s'.out == s.out
    ensures ReadInOrder(s')
  {
    hide Coming;
    assert Will(s') == Will(s);
  }

  lemma HandlerKeepsOrder(s: State, m: Move)
    requires Inv(s) && InOrder(s) && Enabled(s, m) && (m.Offer? || m.HandlerMove?) && !Flags(s, m)
    ensures InOrder(Step(s, m))
  {
    var s' := Step(s, m);
    assert forall i: nat :: i < MAX_PKT ==> Live(s', i) == Live(s, i);
    hide OutInOrder, SlotsInOrder, ReadInOrder;
    SameOrder(s, s');
    SameWill(s, s');
  }

  lemma TakeKeepsWill(s: State)
    requires Inv(s) && s.r.Grabbing? && s.r.k == PKT_BUFFER_SIZE
    ensures Will(ReaderStep(s, true)) == Will(s)
  {
    hide SearchOk, UnusedOk, HandlerOk, SlotsOk, ReaderOk, PlacesOk, CountsOk, Coming;
    var q := Coming(s.status, NextSlot(s.r.ci), s.r.tries + 1, |s.taken| + 1);
    assert (s.taken + [s.r.ci]) + q == s.taken + ([s.r.ci] + q);
  }

  lemma TestKeepsWill(s: State)
    requires Shaped(s) && PcsInRange(s) && s.r.Scanning?
    ensures Will(ReaderStep(s, true)) == Will(s)
  {
    hide Coming, WillTake;
    TestTakesNext(s.status, s.taken, s.r.start, s.r.ci, s.r.tries);
  }

  /** Testing and copying carry out what the read was going to take. */
  lemma ScanKeepsWill(s: State)
    requires Inv(s) && (s.r.Scanning? || s.r.Grabbing?)
    ensures Will(ReaderStep(s, true)) == Will(s)
  {
    hide SearchOk, UnusedOk, HandlerOk, SlotsOk, ReaderOk, PlacesOk, CountsOk, Coming;
    if s.r.Scanning? {
      TestKeepsWill(s);
    } else if s.r.k == PKT_BUFFER_SIZE {
      TakeKeepsWill(s);
    }
  }

  lemma ScanKeepsOrder(s: State)
    requires Inv(s) && InOrder(s) && (s.r.Scanning? || s.r.Grabbing?)
    ensures InOrder(ReaderStep(s, true))
  {
    hide SearchOk, UnusedOk, HandlerOk, SlotsOk, ReaderOk, PlacesOk, CountsOk, Will, Coming, Ahead;
    var s' := ReaderStep(s, true);
    ScanKeepsWill(s);
    assert forall i: nat :: i < MAX_PKT ==> Live(s', i) == Live(s, i);
    SameOrder(s, s');
  }

  lemma DeliverKeepsOrder(s: State)
    requires Inv(s) && InOrder(s) && s.r.Delivering?
    ensures InOrder(ReaderStep(s, true))
  {
    var s' := ReaderStep(s, true);
    DeliverLive(s);
    assert Will(s) == s.taken && Will(s') == [];
    hide Will, Ahead;
  }

  lemma FailKeepsOrder(s: State)
    requires Inv(s) && OutInOrder(s) && SlotsInOrder(s) && s.r.Delivering?
    ensures InOrder(ReaderStep(s, false))
  {
    var s' := ReaderStep(s, false);
    assert forall i: nat :: i < MAX_PKT ==> Live(s', i) == Live(s, i);
    SameOrder(s, s');
  }

  /** Clearing and releasing delivered slots concerns no packet in the cache. */
  lemma WipeKeepsLive(s: State)
    requires Inv(s) && s.r.Wiping?
    ensures forall i: nat :: i < MAX_PKT ==> Live(ReaderStep(s, true), i) == Live(s, i)
  {
    var s' := ReaderStep(s, true);
    if s.r.i < |s.taken| {
      assert Leaving(s, s.taken[s.r.i]);
      forall i: nat | i < MAX_PKT ensures Live(s', i) == Live(s, i) {
      }
    }
  }

  lemma WipeKeepsOrder(s: State)
    requires Inv(s) && InOrder(s) && s.r.Wiping?
    ensures InOrder(ReaderStep(s, true))
  {
    WipeKeepsLive(s);
    SameOrder(s, ReaderStep(s, true));
  }

  /* ---- runs ---- */

  /** Where all is in order, a step keeps it so exactly if it obeys the rules. */
  lemma StepIsExact(s: State, m: Move)
    requires Inv(s) && InOrder(s) && Enabled(s, m)
    ensures InOrder(Step(s, m)) <==> ObeysAll(ALL_RULES, s, m)
  {
    hide SearchOk, UnusedOk, HandlerOk, SlotsOk, ReaderOk, PlacesOk, CountsOk,
         InOrder, OneSide, TakenLast, Will, Coming, Ahead;
    match m {
      case Offer(_) => HandlerKeepsOrder(s, m);
      case HandlerMove => if Flags(s, m) { FlagIsExact(s); } else { HandlerKeepsOrder(s, m); }
      case StartRead => ReadIsExact(s);
      case ReaderMove(copyOk) =>
        ReaderKeepsOrder(s, copyOk);
    }
  }

  lemma ReaderKeepsOrder(s: State, copyOk: bool)
    requires Inv(s) && InOrder(s) && !s.r.Resting?
    ensures InOrder(ReaderStep(s, copyOk))
  {
    hide SearchOk, UnusedOk, HandlerOk, SlotsOk, ReaderOk, PlacesOk, CountsOk,
         OutInOrder, SlotsInOrder, ReadInOrder;
    match s.r {
      case Delivering => if copyOk { DeliverKeepsOrder(s); } else { FailKeepsOrder(s); }
      case Wiping(_, _) => WipeKeepsOrder(s);
      case _ => ScanKeepsOrder(s);
    }
  }

  lemma {:induction false} RunKeepsOrder(s: State, moves: seq<Move>)
    requires Inv(s) && InOrder(s) && Orderly(s, moves, ALL_RULES)
    ensures Schedule(s, moves) && Inv(Run(s, moves)) && InOrder(Run(s, moves))
    decreases |moves|
  {
    hide SearchOk, UnusedOk, HandlerOk, SlotsOk, ReaderOk, PlacesOk, CountsOk, InOrder, ObeysAll;
    if moves != [] {
      StepKeepsInv(s, moves[0]);
      StepIsExact(s, moves[0]);
      RunKeepsOrder(Step(s, moves[0]), moves[1..]);
    }
  }

  /** Every schedule that obeys the rules hands the packets out in the order they were stored,
      without a gap, and whole. */
  lemma RulesKeepOrder(moves: seq<Move>)
    requires Orderly(Start, moves, ALL_RULES)
    ensures Schedule(Start, moves)
    ensures var s := Run(Start, moves);
            && |s.out| <= |s.stored|
            && forall p: nat :: p < |s.out| ==> s.out[p] == Delivery(p, Padded(s.stored[p]))
  {
    StartInv();
    StartInOrder();
    RunKeepsOrder(Start, moves);
    var s := Run(Start, moves);
    forall p: nat | p < |s.out| ensures s.out[p] == Delivery(p, Padded(s.stored[p])) {
      HandedOutWhole(s, p);
    }
  }
}

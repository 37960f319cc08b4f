/** The interrupt distributor driver (kernel_module/lkmc/gic.h): per-interrupt fields packed into
    32-bit registers, and one bit per interrupt in registers where writing a one sets or clears. */
module Gic {

  const GIC_INT_MAX := 64
  const INT_PER_REG := 32

  /** A shift amount inside a register. */
  type Shift = s: bv6 | s < 32

  /** How a register packs its fields. */
  datatype Packing = Packing(per: nat, size: nat, mask: bv32)

  const BYTES := Packing(4, 8, 0xff)       // ITARGETSR, IPRIORITYR
  const PAIRS := Packing(16, 2, 0x3)       // ICFGR

  predicate Known(p: Packing)
  {
    p == BYTES || p == PAIRS
  }

  /* ---- one register ---- */

  /** reg &= ~(mask << shift); reg |= v << shift */
  function SetField(reg: bv32, mask: bv32, shift: Shift, v: bv32): (r: bv32)
  {
    (reg & !(mask << shift)) | (v << shift)
  }

  function GetField(reg: bv32, mask: bv32, shift: Shift): (v: bv32)
  {
    (reg >> shift) & mask
  }

  lemma ByteReadsBack(reg: bv32, s: Shift, v: bv32)
    requires s & 7 == 0
    ensures GetField(SetField(reg, 0xff, s, v), 0xff, s) == v <==> v <= 0xff
  {
  }

  lemma OtherByte(reg: bv32, s: Shift, t: Shift, v: bv32)
    requires s & 7 == 0 && t & 7 == 0 && s != t && v <= 0xff
    ensures GetField(SetField(reg, 0xff, s, v), 0xff, t) == GetField(reg, 0xff, t)
  {
  }

  lemma PairReadsBack(reg: bv32, s: Shift, v: bv32)
    requires s & 1 == 0
    ensures GetField(SetField(reg, 0x3, s, v), 0x3, s) == v <==> v <= 0x3
  {
  }

  lemma OtherPair(reg: bv32, s: Shift, t: Shift, v: bv32)
    requires s & 1 == 0 && t & 1 == 0 && s != t && v <= 0x3
    ensures GetField(SetField(reg, 0x3, s, v), 0x3, t) == GetField(reg, 0x3, t)
  {
  }

  function ShiftOf(k: nat): (s: Shift)
    requires k < 32
  {
    SmallShift(k);
    k as bv6
  }

  lemma SmallShift(k: nat)
    requires k < 32
    ensures (k as bv6) < 32
  {
  }

  lemma DistinctShifts(j: nat, k: nat)
    requires j < 32 && k < 32 && j != k
    ensures ShiftOf(j) != ShiftOf(k)
  {
    assert (j as bv6) as nat == j;
    assert (k as bv6) as nat == k;
  }

  lemma ByteShift(k: nat)
    requires k < 4
    ensures ShiftOf(8 * k) & 7 == 0
  {
  }

  lemma PairShift(k: nat)
    requires k < 16
    ensures ShiftOf(2 * k) & 1 == 0
  {
  }

  /* ---- a register array as a map of interrupts ---- */

  predicate Fits(regs: seq<bv32>, p: Packing)
  {
    Known(p) && |regs| * p.per == GIC_INT_MAX
  }

  lemma InRegister(regs: seq<bv32>, p: Packing, irq: nat)
    requires Fits(regs, p) && irq < GIC_INT_MAX
    ensures irq / p.per < |regs| && irq % p.per * p.size < 32
  {
  }

  function FieldShift(p: Packing, irq: nat): (s: Shift)
    requires Known(p)
  {
    ShiftOf(irq % p.per * p.size)
  }

  function FieldOf(regs: seq<bv32>, p: Packing, irq: nat): (v: bv32)
    requires Fits(regs, p) && irq < GIC_INT_MAX
  {
    InRegister(regs, p, irq);
    GetField(regs[irq / p.per], p.mask, FieldShift(p, irq))
  }

  /** What the register array says of each interrupt. */
  function Fields(regs: seq<bv32>, p: Packing): (vs: seq<bv32>)
    requires Fits(regs, p)
    ensures |vs| == GIC_INT_MAX
  {
    seq(GIC_INT_MAX, irq requires 0 <= irq < GIC_INT_MAX => FieldOf(regs, p, irq))
  }

  /** The read-modify-write of one field. */
  function Written(regs: seq<bv32>, p: Packing, irq: nat, v: bv32): (regs': seq<bv32>)
    requires Fits(regs, p) && irq < GIC_INT_MAX
    ensures Fits(regs', p)
  {
    InRegister(regs, p, irq);
    regs[irq / p.per := SetField(regs[irq / p.per], p.mask, FieldShift(p, irq), v)]
  }

  /** The shifts of the fields of a register. */
  predicate AlignedShift(p: Packing, s: Shift)
  {
    if p == BYTES then s & 7 == 0 else s & 1 == 0
  }

  lemma FieldIsAligned(p: Packing, irq: nat)
    requires Known(p)
    ensures AlignedShift(p, FieldShift(p, irq))
  {
    if p == BYTES { ByteShift(irq % 4); } else { PairShift(irq % 16); }
  }

  lemma FieldsAreApart(p: Packing, irq: nat, j: nat)
    requires Known(p) && j != irq && j / p.per == irq / p.per
    ensures FieldShift(p, irq) != FieldShift(p, j)
  {
    hide ShiftOf;
    DistinctShifts(irq % p.per * p.size, j % p.per * p.size);
  }

  lemma FieldReadsBack(reg: bv32, p: Packing, s: Shift, v: bv32)
    requires Known(p) && AlignedShift(p, s)
    ensures GetField(SetField(reg, p.mask, s, v), p.mask, s) == v <==> v <= p.mask
  {
    if p == BYTES { ByteReadsBack(reg, s, v); } else { PairReadsBack(reg, s, v); }
    hide GetField, SetField;
  }

  lemma OtherFieldStays(reg: bv32, p: Packing, s: Shift, t: Shift, v: bv32)
    requires Known(p) && AlignedShift(p, s) && AlignedShift(p, t) && s != t && v <= p.mask
    ensures GetField(SetField(reg, p.mask, s, v), p.mask, t) == GetField(reg, p.mask, t)
  {
    if p == BYTES { OtherByte(reg, s, t, v); } else { OtherPair(reg, s, t, v); }
    hide GetField, SetField;
  }

  lemma ReadsBack(regs: seq<bv32>, p: Packing, irq: nat, v: bv32)
    requires Fits(regs, p) && irq < GIC_INT_MAX
    ensures FieldOf(Written(regs, p, irq, v), p, irq) == v <==> v <= p.mask
  {
    hide GetField, SetField, FieldShift, AlignedShift;
    InRegister(regs, p, irq);
    FieldIsAligned(p, irq);
    FieldReadsBack(regs[irq / p.per], p, FieldShift(p, irq), v);
  }

  lemma OtherField(regs: seq<bv32>, p: Packing, irq: nat, v: bv32, j: nat)
    requires Fits(regs, p) && irq < GIC_INT_MAX && j < GIC_INT_MAX && j != irq && v <= p.mask
    ensures FieldOf(Written(regs, p, irq, v), p, j) == FieldOf(regs, p, j)
  {
    hide GetField, SetField, FieldShift, AlignedShift;
    InRegister(regs, p, irq);
    InRegister(regs, p, j);
    if j / p.per == irq / p.per {
      FieldIsAligned(p, irq);
      FieldIsAligned(p, j);
      FieldsAreApart(p, irq, j);
      OtherFieldStays(regs[irq / p.per], p, FieldShift(p, irq), FieldShift(p, j), v);
    }
  }

  /** A write to one field acts on the map of interrupts, and on nothing else of it, if and only
      if the value is in range. */
  lemma WriteRefinesMapUpdate(regs: seq<bv32>, p: Packing, irq: nat, v: bv32)
    requires Fits(regs, p) && irq < GIC_INT_MAX
    ensures Fields(Written(regs, p, irq, v), p) == Fields(regs, p)[irq := v] <==> v <= p.mask
  {
    ReadsBack(regs, p, irq, v);
    if v <= p.mask {
      forall j | 0 <= j < GIC_INT_MAX && j != irq
        ensures FieldOf(Written(regs, p, irq, v), p, j) == FieldOf(regs, p, j)
      {
        OtherField(regs, p, irq, v, j);
      }
    } else {
      assert Fields(Written(regs, p, irq, v), p)[irq] != v;
    }
  }

  /** Where the fields lie: four bytes a register, or sixteen pairs of bits. */
  lemma FieldLayout(regs: seq<bv32>, p: Packing, irq: nat)
    requires Fits(regs, p) && irq < GIC_INT_MAX
    ensures p == BYTES ==> FieldOf(regs, p, irq) == (regs[irq / 4] >> ((irq % 4 * 8) as bv6)) & 0xff
    ensures p == PAIRS ==> FieldOf(regs, p, irq) == (regs[irq / 16] >> ((irq % 16 * 2) as bv6)) & 0x3
  {
  }

  /* ---- bits ---- */

  predicate Bit(w: bv32, s: Shift)
  {
    w & (1 << s) != 0
  }

  /** What writing `1 << s` leaves of a write-one-to-clear register; `line` holds bits up. */
  function Cleared(w: bv32, line: bv32, s: Shift): (w': bv32)
  {
    w & (!(1 << s) | line)
  }

  function Marked(w: bv32, s: Shift): (w': bv32)
  {
    w | (1 << s)
  }

  lemma ClearBitMask(w: bv32, line: bv32, s: Shift, t: Shift)
    ensures Bit(w & (!(1 << s) | line), t) <==> Bit(w, t) && (s != t || Bit(line, t))
  {
  }

  lemma SetBitMask(w: bv32, s: Shift, t: Shift)
    ensures Bit(w | (1 << s), t) <==> Bit(w, t) || s == t
  {
  }

  lemma ClearBit(w: bv32, line: bv32, s: Shift, t: Shift)
    ensures Bit(Cleared(w, line, s), t) <==> Bit(w, t) && (s != t || Bit(line, t))
  {
    var w' := Cleared(w, line, s);
    assert w' == w & (!(1 << s) | line);
    ClearBitMask(w, line, s, t);
    hide Cleared, Bit;
  }

  lemma SetBit(w: bv32, s: Shift, t: Shift)
    ensures Bit(Marked(w, s), t) <==> Bit(w, t) || s == t
  {
    var w' := Marked(w, s);
    assert w' == w | (1 << s);
    SetBitMask(w, s, t);
    hide Marked, Bit;
  }

  predicate BitRegs(regs: seq<bv32>)
  {
    |regs| * INT_PER_REG == GIC_INT_MAX
  }

  predicate BitOf(regs: seq<bv32>, irq: nat)
    requires BitRegs(regs) && irq < GIC_INT_MAX
  {
    Bit(regs[irq / INT_PER_REG], ShiftOf(irq % INT_PER_REG))
  }

  lemma BitInWord(w: bv32, s: Shift)
    ensures Bit(w, s) <==> w & (1 << s) != 0
  {
  }

  lemma ShiftIsNumber(k: nat)
    requires k < 32
    ensures ShiftOf(k) as nat == k
  {
  }

  /** Where the bits lie: thirty-two a register; BitInWord says what a bit is. */
  lemma BitLayout(regs: seq<bv32>, irq: nat) returns (s: Shift)
    requires BitRegs(regs) && irq < GIC_INT_MAX
    ensures s as nat == irq % 32 && (BitOf(regs, irq) <==> Bit(regs[irq / 32], s))
  {
    hide ShiftOf, Bit;
    s := ShiftOf(irq % 32);
    ShiftIsNumber(irq % 32);
  }

  function ClearedIn(regs: seq<bv32>, line: seq<bv32>, irq: nat): (regs': seq<bv32>)
    requires BitRegs(regs) && BitRegs(line) && irq < GIC_INT_MAX
    ensures BitRegs(regs')
  {
    var n := irq / INT_PER_REG;
    regs[n := Cleared(regs[n], line[n], ShiftOf(irq % INT_PER_REG))]
  }

  function MarkedIn(regs: seq<bv32>, irq: nat): (regs': seq<bv32>)
    requires BitRegs(regs) && irq < GIC_INT_MAX
    ensures BitRegs(regs')
  {
    var n := irq / INT_PER_REG;
    regs[n := Marked(regs[n], ShiftOf(irq % INT_PER_REG))]
  }

  lemma ClearsOneBit(regs: seq<bv32>, line: seq<bv32>, irq: nat, j: nat)
    requires BitRegs(regs) && BitRegs(line) && irq < GIC_INT_MAX && j < GIC_INT_MAX
    ensures BitOf(ClearedIn(regs, line, irq), j) <==> BitOf(regs, j) && (j != irq || BitOf(line, j))
  {
    hide Bit, Cleared, ShiftOf;
    var n := irq / INT_PER_REG;
    if j / INT_PER_REG == n {
      ClearBit(regs[n], line[n], ShiftOf(irq % INT_PER_REG), ShiftOf(j % INT_PER_REG));
      if j != irq {
        DistinctShifts(irq % INT_PER_REG, j % INT_PER_REG);
      }
    }
  }

  lemma MarksOneBit(regs: seq<bv32>, irq: nat, j: nat)
    requires BitRegs(regs) && irq < GIC_INT_MAX && j < GIC_INT_MAX
    ensures BitOf(MarkedIn(regs, irq), j) <==> BitOf(regs, j) || j == irq
  {
    hide Bit, Marked, ShiftOf;
    var n := irq / INT_PER_REG;
    if j / INT_PER_REG == n {
      SetBit(regs[n], ShiftOf(irq % INT_PER_REG), ShiftOf(j % INT_PER_REG));
      if j != irq {
        DistinctShifts(irq % INT_PER_REG, j % INT_PER_REG);
      }
    }
  }

  /* ---- settings ---- */

  datatype Settings = Settings(target: seq<bv32>, priority: seq<bv32>, config: seq<bv32>)

  predicate Full(s: Settings)
  {
    |s.target| == |s.priority| == |s.config| == GIC_INT_MAX
  }

  datatype Call =
    | SetTarget(irq: nat, v: bv32)
    | SetPriority(irq: nat, v: bv32)
    | Config(irq: nat, v: bv32)

  predicate InRange(c: Call)
  {
    c.v <= if c.Config? then 0x3 else 0xff
  }

  predicate ForIrqs(calls: seq<Call>)
  {
    forall i :: 0 <= i < |calls| ==> calls[i].irq < GIC_INT_MAX
  }

  function Apply(s: Settings, c: Call): (s': Settings)
    requires Full(s) && c.irq < GIC_INT_MAX
    ensures Full(s')
  {
    match c {
      case SetTarget(irq, v) => s.(target := s.target[irq := v])
      case SetPriority(irq, v) => s.(priority := s.priority[irq := v])
      case Config(irq, v) => s.(config := s.config[irq := v])
    }
  }

  function ApplyAll(s: Settings, calls: seq<Call>): (s': Settings)
    requires Full(s) && ForIrqs(calls)
    ensures Full(s')
    decreases |calls|
  {
    if calls == [] then s else ApplyAll(Apply(s, calls[0]), calls[1..])
  }

  /** Which setting of which interrupt a call is for. */
  predicate SameField(c: Call, d: Call)
  {
    c.irq == d.irq && c.SetTarget? == d.SetTarget? && c.SetPriority? == d.SetPriority?
  }

  function FieldIn(s: Settings, about: Call): (v: bv32)
    requires Full(s) && about.irq < GIC_INT_MAX
  {
    match about {
      case SetTarget(irq, _) => s.target[irq]
      case SetPriority(irq, _) => s.priority[irq]
      case Config(irq, _) => s.config[irq]
    }
  }

  /** The value of the last of the calls that is for `about`'s field. */
  function LastValue(calls: seq<Call>, about: Call, otherwise: bv32): (v: bv32)
    decreases |calls|
  {
    if calls == [] then otherwise
    else LastValue(calls[1..], about, if SameField(calls[0], about) then calls[0].v else otherwise)
  }

  lemma OneWrite(s: Settings, c: Call, about: Call)
    requires Full(s) && c.irq < GIC_INT_MAX && about.irq < GIC_INT_MAX
    ensures FieldIn(Apply(s, c), about) == if SameField(c, about) then c.v else FieldIn(s, about)
  {
  }

  /** Each field reads back the value last written to it, whatever happened to the others. */
  lemma {:induction false} LastWriteWins(s: Settings, calls: seq<Call>, about: Call)
    requires Full(s) && about.irq < GIC_INT_MAX && ForIrqs(calls)
    ensures FieldIn(ApplyAll(s, calls), about) == LastValue(calls, about, FieldIn(s, about))
    decreases |calls|
  {
    hide Apply, FieldIn, SameField;
    if calls != [] {
      OneWrite(s, calls[0], about);
      LastWriteWins(Apply(s, calls[0]), calls[1..], about);
    }
  }

  const GIC_INTNO_PPI0 := 16
  const GIC_INTNO_SPI0 := 32

  /** The settings init_gicd leaves. */
  function Initialised(s: Settings): (s': Settings)
    requires Full(s)
    ensures Full(s')
  {
    Settings(seq(GIC_INT_MAX, j requires 0 <= j < GIC_INT_MAX => if j >= GIC_INTNO_SPI0 then 0x1 else s.target[j]),
             seq(GIC_INT_MAX, j => 0xff),
             seq(GIC_INT_MAX, j requires 0 <= j < GIC_INT_MAX =>
                   if j >= GIC_INTNO_PPI0 then ICFGR_LEVEL else s.config[j]))
  }

  /* ---- the distributor ---- */

  class Distributor {
    const itargetsr: array<bv32>
    const ipriorityr: array<bv32>
    const icfgr: array<bv32>
    const pending: array<bv32>           // read through ISPENDR
    const enabled: array<bv32>           // set through ISENABLER, cleared through ICENABLER
    const line: seq<bv32>                // level-sensitive inputs; their pending bits cannot be cleared
    var ctlr: bv32

    ghost predicate Valid()
    {
      && itargetsr != ipriorityr && itargetsr != icfgr && itargetsr != pending && itargetsr != enabled
      && ipriorityr != icfgr && ipriorityr != pending && ipriorityr != enabled
      && icfgr != pending && icfgr != enabled && pending != enabled
      && itargetsr.Length == ipriorityr.Length == 16 && icfgr.Length == 4
      && pending.Length == enabled.Length == |line| == 2
    }

    /** The register contents at reset are not the driver's concern. */
    constructor (line: seq<bv32>)
      requires |line| == 2
      ensures Valid() && this.line == line
    {
      itargetsr, ipriorityr, icfgr := new bv32[16], new bv32[16], new bv32[4];
      pending, enabled := new bv32[2], new bv32[2];
      this.line, ctlr := line, 0;
    }

    ghost function View(): (s: Settings)
      requires Valid()
      reads itargetsr, ipriorityr, icfgr
      ensures Full(s)
    {
      Settings(Fields(itargetsr[..], BYTES), Fields(ipriorityr[..], BYTES), Fields(icfgr[..], PAIRS))
    }

    ghost predicate Pending(irq: nat)
      requires Valid() && irq < GIC_INT_MAX
      reads pending
    {
      BitOf(pending[..], irq)
    }

    ghost predicate Enabled(irq: nat)
      requires Valid() && irq < GIC_INT_MAX
      reads enabled
    {
      BitOf(enabled[..], irq)
    }

    ghost predicate Held(irq: nat)
      requires Valid() && irq < GIC_INT_MAX
    {
      BitOf(line, irq)
    }

    /* ---- fields ---- */

    /** gicd_set_target */
    method GicdSetTarget(irq: nat, p: bv32)
      requires Valid() && irq < GIC_INT_MAX
      modifies itargetsr
      ensures Valid()
      ensures p <= 0xff <==> View() == Apply(old(View()), SetTarget(irq, p))
    {
      hide Fields, FieldOf, SetField, ShiftOf;
      ghost var before := itargetsr[..];
      var shift := ShiftOf(irq % 4 * 8);
      var reg := itargetsr[irq / 4];
      reg := SetField(reg, 0xff, shift, p);
      itargetsr[irq / 4] := reg;
      assert itargetsr[..] == Written(before, BYTES, irq, p);
      WriteRefinesMapUpdate(before, BYTES, irq, p);
    }

    /** gicd_set_priority */
    method GicdSetPriority(irq: nat, prio: bv32)
      requires Valid() && irq < GIC_INT_MAX
      modifies ipriorityr
      ensures Valid()
      ensures prio <= 0xff <==> View() == Apply(old(View()), SetPriority(irq, prio))
    {
      hide Fields, FieldOf, SetField, ShiftOf;
      ghost var before := ipriorityr[..];
      var shift := ShiftOf(irq % 4 * 8);
      var reg := ipriorityr[irq / 4];
      reg := SetField(reg, 0xff, shift, prio);
      ipriorityr[irq / 4] := reg;
      assert ipriorityr[..] == Written(before, BYTES, irq, prio);
      WriteRefinesMapUpdate(before, BYTES, irq, prio);
    }

    /** gicd_config */
    method GicdConfig(irq: nat, config: bv32)
      requires Valid() && irq < GIC_INT_MAX
      modifies icfgr
      ensures Valid()
      ensures config <= 0x3 <==> View() == Apply(old(View()), Config(irq, config))
    {
      hide Fields, FieldOf, SetField, ShiftOf;
      ghost var before := icfgr[..];
      var shift := ShiftOf(irq % 16 * 2);
      var reg := icfgr[irq / 16];
      reg := SetField(reg, 0x3, shift, config);
      icfgr[irq / 16] := reg;
      assert icfgr[..] == Written(before, PAIRS, irq, config);
      WriteRefinesMapUpdate(before, PAIRS, irq, config);
    }

    method GicdCall(c: Call)
      requires Valid() && c.irq < GIC_INT_MAX && InRange(c)
      modifies itargetsr, ipriorityr, icfgr
      ensures Valid() && View() == Apply(old(View()), c)
    {
      match c {
        case SetTarget(irq, v) => GicdSetTarget(irq, v);
        case SetPriority(irq, v) => GicdSetPriority(irq, v);
        case Config(irq, v) => GicdConfig(irq, v);
      }
    }

    /** Any sequence of calls: each register field reads back the value last written to it. */
    method GicdCalls(calls: seq<Call>)
      requires Valid() && ForIrqs(calls) && forall i :: 0 <= i < |calls| ==> InRange(calls[i])
      modifies itargetsr, ipriorityr, icfgr
      ensures Valid() && View() == ApplyAll(old(View()), calls)
      ensures forall about: Call :: about.irq < GIC_INT_MAX ==>
                FieldIn(View(), about) == LastValue(calls, about, FieldIn(old(View()), about))
      decreases |calls|
    {
      ghost var before := View();
      forall about: Call | about.irq < GIC_INT_MAX
        ensures FieldIn(ApplyAll(before, calls), about) == LastValue(calls, about, FieldIn(before, about))
      {
        LastWriteWins(before, calls, about);
      }
      if calls != [] {
        GicdCall(calls[0]);
        GicdCalls(calls[1..]);
      }
    }

    /* ---- initialisation ---- */

    /** Disable all. */
    method ClearEnables()
      requires Valid()
      modifies enabled
      ensures Valid() && forall j: nat :: j < GIC_INT_MAX ==> !Enabled(j)
    {
      hide Bit, Wiped, ShiftOf;
      for i := 0 to enabled.Length
        invariant forall k :: 0 <= k < i ==> enabled[k] == Wiped(old(enabled[k]), NO_LINES[k])
        invariant forall k :: i <= k < enabled.Length ==> enabled[k] == old(enabled[k])
      {
        enabled[i] := Wiped(enabled[i], NO_LINES[i]);
      }
      forall j: nat | j < GIC_INT_MAX ensures !Enabled(j) {
        WipedBit(old(enabled[j / INT_PER_REG]), NO_LINES[j / INT_PER_REG], ShiftOf(j % INT_PER_REG));
        NoLine(j);
      }
    }

    /** Clear every pending bit that no line holds up. */
    method ClearPendings()
      requires Valid()
      modifies pending
      ensures Valid() && forall j: nat :: j < GIC_INT_MAX ==> (Pending(j) <==> old(Pending(j)) && Held(j))
    {
      hide Bit, Wiped, ShiftOf;
      for i := 0 to pending.Length
        invariant forall k :: 0 <= k < i ==> pending[k] == Wiped(old(pending[k]), line[k])
        invariant forall k :: i <= k < pending.Length ==> pending[k] == old(pending[k])
      {
        pending[i] := Wiped(pending[i], line[i]);
      }
      forall j: nat | j < GIC_INT_MAX ensures Pending(j) <==> old(Pending(j)) && Held(j) {
        WipedBit(old(pending[j / INT_PER_REG]), line[j / INT_PER_REG], ShiftOf(j % INT_PER_REG));
      }
    }

    /** All interrupts at the lowest priority. */
    method InitPriorities()
      requires Valid()
      modifies ipriorityr
      ensures Valid()
      ensures View().priority == Initialised(old(View())).priority
    {
      for i := 0 to ipriorityr.Length
        invariant Valid() && forall k :: 0 <= k < i ==> ipriorityr[k] == ALL_BITS
      {
        ipriorityr[i] := ALL_BITS;
      }
      forall j | 0 <= j < GIC_INT_MAX ensures FieldOf(ipriorityr[..], BYTES, j) == 0xff {
        ByteShift(j % 4);
        LowestPriority(FieldShift(BYTES, j));
      }
    }

    /** All shared peripheral interrupts to processor 0. */
    method InitTargets()
      requires Valid()
      modifies itargetsr
      ensures Valid()
      ensures View().target == Initialised(old(View())).target
    {
      for i := GIC_INTNO_SPI0 / 4 to itargetsr.Length
        invariant Valid() && forall k :: GIC_INTNO_SPI0 / 4 <= k < i ==> itargetsr[k] == ITARGETSR_CORE0
        invariant forall k :: 0 <= k < GIC_INTNO_SPI0 / 4 ==> itargetsr[k] == old(itargetsr[k])
      {
        itargetsr[i] := ITARGETSR_CORE0;
      }
      forall j | GIC_INTNO_SPI0 <= j < GIC_INT_MAX ensures FieldOf(itargetsr[..], BYTES, j) == 0x1 {
        ByteShift(j % 4);
        Core0(FieldShift(BYTES, j));
      }
    }

    /** All peripheral interrupts level-triggered. */
    method InitTriggers()
      requires Valid()
      modifies icfgr
      ensures Valid()
      ensures View().config == Initialised(old(View())).config
    {
      for i := GIC_INTNO_PPI0 / 16 to icfgr.Length
        invariant Valid() && forall k :: GIC_INTNO_PPI0 / 16 <= k < i ==> icfgr[k] == ICFGR_LEVEL
        invariant forall k :: 0 <= k < GIC_INTNO_PPI0 / 16 ==> icfgr[k] == old(icfgr[k])
      {
        icfgr[i] := ICFGR_LEVEL;
      }
      forall j | GIC_INTNO_PPI0 <= j < GIC_INT_MAX ensures FieldOf(icfgr[..], PAIRS, j) == ICFGR_LEVEL {
        Level(FieldShift(PAIRS, j));
      }
    }

    /** init_gicd */
    method InitGicd()
      requires Valid()
      modifies this`ctlr, itargetsr, ipriorityr, icfgr, pending, enabled
      ensures Valid() && ctlr == 1
      ensures forall j: nat :: j < GIC_INT_MAX ==> !Enabled(j) && (Pending(j) <==> old(Pending(j)) && Held(j))
      ensures View() == Initialised(old(View()))
      ensures forall j: nat :: j < GIC_INT_MAX ==>
                && View().priority[j] == 0xff
                && View().target[j] == (if j >= 32 then 0x1 else old(View()).target[j])
                && View().config[j] == (if j >= 16 then 0x0 else old(View()).config[j])
    {
      hide FieldOf, Fields, BitOf;
      ctlr := 0;
      ClearEnables();
      ClearPendings();
      ghost var targets, triggers := itargetsr[..], icfgr[..];
      InitPriorities();
      ghost var priorities := ipriorityr[..];
      assert itargetsr[..] == targets && icfgr[..] == triggers;
      InitTargets();
      targets := itargetsr[..];
      assert icfgr[..] == triggers;
      InitTriggers();
      assert ipriorityr[..] == priorities && itargetsr[..] == targets;
      ctlr := 1;
      ghost var s := Initialised(old(View()));
      assert View() == s;
    }

    /** The distributor's part of gic_initialize: only the timer interrupt is set up. */
    method GicInitialize(timerIrq: nat)
      requires Valid() && timerIrq < GIC_INT_MAX
      modifies this`ctlr, itargetsr, ipriorityr, icfgr, pending, enabled
      ensures Valid() && ctlr == 1
      ensures forall j: nat :: j < GIC_INT_MAX ==> (Enabled(j) <==> j == timerIrq)
      ensures forall j: nat :: j < GIC_INT_MAX ==> (Pending(j) <==> old(Pending(j)) && Held(j))
      ensures var s := Initialised(old(View()));
              View() == Settings(s.target[timerIrq := 0x1], s.priority[timerIrq := 0], s.config[timerIrq := ICFGR_EDGE])
      ensures forall j: nat :: j < GIC_INT_MAX ==>
                && View().priority[j] == (if j == timerIrq then 0 else 0xff)
                && View().target[j] == (if j == timerIrq || j >= 32 then 0x1 else old(View()).target[j])
                && View().config[j] == (if j == timerIrq then 0x2 else if j >= 16 then 0x0 else old(View()).config[j])
    {
      hide FieldOf, Fields, BitOf, Initialised;
      InitGicd();
      GicdConfig(timerIrq, ICFGR_EDGE);
      GicdSetPriority(timerIrq, 0);
      GicdSetTarget(timerIrq, 0x1);
      GicdClearPending(timerIrq);
      GicdEnableInt(timerIrq);
    }

    /* ---- enabling and pending ---- */

    /** gicd_disable_int */
    method GicdDisableInt(irq: nat)
      requires Valid() && irq < GIC_INT_MAX
      modifies enabled
      ensures Valid()
      ensures forall j: nat :: j < GIC_INT_MAX ==> (Enabled(j) <==> old(Enabled(j)) && j != irq)
    {
      hide Bit, Cleared, ShiftOf;
      ghost var before := enabled[..];
      var n := irq / INT_PER_REG;
      enabled[n] := Cleared(enabled[n], 0, ShiftOf(irq % INT_PER_REG));
      assert enabled[..] == ClearedIn(before, NO_LINES, irq);
      forall j: nat | j < GIC_INT_MAX ensures Enabled(j) <==> BitOf(before, j) && j != irq {
        ClearsOneBit(before, NO_LINES, irq, j);
        NoLine(j);
      }
    }

    /** gicd_enable_int */
    method GicdEnableInt(irq: nat)
      requires Valid() && irq < GIC_INT_MAX
      modifies enabled
      ensures Valid()
      ensures forall j: nat :: j < GIC_INT_MAX ==> (Enabled(j) <==> old(Enabled(j)) || j == irq)
    {
      hide Bit, Marked, ShiftOf;
      ghost var before := enabled[..];
      var n := irq / INT_PER_REG;
      enabled[n] := Marked(enabled[n], ShiftOf(irq % INT_PER_REG));
      assert enabled[..] == MarkedIn(before, irq);
      forall j: nat | j < GIC_INT_MAX ensures Enabled(j) <==> BitOf(before, j) || j == irq {
        MarksOneBit(before, irq, j);
      }
    }

    /** gicd_clear_pending: clears this interrupt's bit, unless its line holds it up. */
    method GicdClearPending(irq: nat)
      requires Valid() && irq < GIC_INT_MAX
      modifies pending
      ensures Valid()
      ensures forall j: nat :: j < GIC_INT_MAX ==> (Pending(j) <==> old(Pending(j)) && (j != irq || Held(j)))
    {
      hide Bit, Cleared, ShiftOf;
      ghost var before := pending[..];
      var n := irq / INT_PER_REG;
      pending[n] := Cleared(pending[n], line[n], ShiftOf(irq % INT_PER_REG));
      assert pending[..] == ClearedIn(before, line, irq);
      forall j: nat | j < GIC_INT_MAX ensures Pending(j) <==> BitOf(before, j) && (j != irq || BitOf(line, j)) {
        ClearsOneBit(before, line, irq, j);
      }
    }

    /** gicd_probe_pending */
    method GicdProbePending(irq: nat) returns (isPending: bool)
      requires Valid() && irq < GIC_INT_MAX
      ensures isPending <==> Pending(irq)
    {
      isPending := pending[irq / INT_PER_REG] & (1 << ShiftOf(irq % INT_PER_REG)) != 0;
    }

    /** gic_find_pending_irq: the lowest pending interrupt, or rc 1 if there is none. */
    method GicFindPendingIrq() returns (rc: nat, irq: nat)
      requires Valid()
      ensures rc == 0 || rc == 1
      ensures rc == 0 ==> irq < GIC_INT_MAX && Pending(irq) && forall j: nat :: j < irq ==> !Pending(j)
      ensures rc == 1 <==> forall j: nat :: j < GIC_INT_MAX ==> !Pending(j)
    {
      hide BitOf;
      for i := 0 to GIC_INT_MAX
        invariant forall j: nat :: j < i ==> !Pending(j)
      {
        var isPending := GicdProbePending(i);
        if isPending {
          return 0, i;
        }
      }
      return 1, GIC_INT_MAX;
    }

    /** gic_eoi */
    method GicEoi(irq: nat)
      requires Valid() && irq < GIC_INT_MAX
      modifies pending
      ensures Valid()
      ensures forall j: nat :: j < GIC_INT_MAX ==> (Pending(j) <==> old(Pending(j)) && (j != irq || Held(j)))
    {
      GicdClearPending(irq);
    }

    ghost function PendingSet(): (irqs: set<nat>)
      requires Valid()
      reads pending
    {
      set irq: nat | irq < GIC_INT_MAX && Pending(irq)
    }

    /** Finding and ending interrupts in turn, with no new arrivals: if no pending interrupt is
        held up by its line, each is served exactly once, in ascending order, and then the loop
        ends. */
    method ServeAll() returns (served: seq<nat>)
      requires Valid()
      requires forall irq: nat :: irq < GIC_INT_MAX && Pending(irq) ==> !Held(irq)
      modifies pending
      ensures Valid() && PendingSet() == {}
      ensures forall i, j :: 0 <= i < j < |served| ==> served[i] < served[j]
      ensures forall irq: nat :: irq in served <==> irq in old(PendingSet())
    {
      hide BitOf;
      served := [];
      var rc: nat, irq: nat := GicFindPendingIrq();
      while rc == 0
        invariant Valid()
        invariant forall j: nat :: j < GIC_INT_MAX && Pending(j) ==> !Held(j)
        invariant rc == 0 ==> irq < GIC_INT_MAX && Pending(irq) && forall j: nat :: j < irq ==> !Pending(j)
        invariant rc == 0 || PendingSet() == {}
        invariant forall i, j :: 0 <= i < j < |served| ==> served[i] < served[j]
        invariant rc == 0 ==> forall i :: 0 <= i < |served| ==> served[i] < irq
        invariant forall j: nat :: j in served || j in PendingSet() <==> j in old(PendingSet())
        decreases PendingSet()
      {
        ghost var before := PendingSet();
        served := served + [irq];
        GicEoi(irq);
        assert PendingSet() == before - {irq};
        rc, irq := GicFindPendingIrq();
      }
    }

    /** The same loop cut off after `limit` turns. With a pending interrupt that its line holds
        up it uses up any limit, so ServeAll's condition is exact. */
    method ServeAtMost(limit: nat, ghost heldUp: nat) returns (turns: nat, rc: nat)
      requires Valid() && heldUp < GIC_INT_MAX && Pending(heldUp) && Held(heldUp)
      modifies pending
      ensures Valid() && Pending(heldUp)
      ensures turns == limit && rc == 0
    {
      hide BitOf;
      var irq: nat;
      turns := 0;
      rc, irq := GicFindPendingIrq();
      while turns < limit && rc == 0
        invariant turns <= limit && Pending(heldUp)
        invariant rc == 0 && irq < GIC_INT_MAX && Pending(irq)
        decreases limit - turns
      {
        GicEoi(irq);
        rc, irq := GicFindPendingIrq();
        turns := turns + 1;
      }
    }
  }

  const NO_LINES: seq<bv32> := [0, 0]

  const ALL_BITS: bv32 := 0xffff_ffff
  const ITARGETSR_CORE0: bv32 := 0x0101_0101
  const ICFGR_LEVEL: bv32 := 0x0
  const ICFGR_EDGE: bv32 := 0x2

  lemma LowestPriority(s: Shift)
    requires s & 7 == 0
    ensures GetField(ALL_BITS, 0xff, s) == 0xff
  {
  }

  lemma Core0(s: Shift)
    requires s & 7 == 0
    ensures GetField(ITARGETSR_CORE0, 0xff, s) == 0x1
  {
  }

  lemma Level(s: Shift)
    ensures GetField(ICFGR_LEVEL, 0x3, s) == ICFGR_LEVEL
  {
  }

  /** What writing all ones leaves of a write-one-to-clear register. */
  function Wiped(w: bv32, line: bv32): (w': bv32)
  {
    w & (!ALL_BITS | line)
  }

  lemma WipedMask(w: bv32, line: bv32, s: Shift)
    ensures Bit(w & (!ALL_BITS | line), s) <==> Bit(w, s) && Bit(line, s)
  {
  }

  lemma WipedBit(w: bv32, line: bv32, s: Shift)
    ensures Bit(Wiped(w, line), s) <==> Bit(w, s) && Bit(line, s)
  {
    var w' := Wiped(w, line);
    assert w' == w & (!ALL_BITS | line);
    WipedMask(w, line, s);
    hide Wiped, Bit;
  }

  lemma NoLine(j: nat)
    requires j < GIC_INT_MAX
    ensures !BitOf(NO_LINES, j)
  {
  }
}

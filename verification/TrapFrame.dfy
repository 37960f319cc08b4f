/** The exception entry and exit macros of kernel_module/lkmc/aarch64.h: they build a trap frame
    on the stack, call the handler, and restore the interrupted context from the frame.
    Handlers can be interrupted themselves, to any depth. */
module TrapFrame {
  import opened Common

  const NUM_REGS := 31                     // x0 to x30
  const EXC_FRAME_SIZE := 288
  const EXC_TYPE_OFFSET := 0
  const EXC_ESR_OFFSET := 8
  const EXC_SP_OFFSET := 16
  const EXC_ELR_OFFSET := 24
  const EXC_SPSR_OFFSET := 32

  /* ---- the frame ---- */

  /** LkmcVectorExceptionFrame */
  datatype Frame = Frame(excType: u64, excEsr: u64, excSp: u64, excElr: u64, excSpsr: u64, x: seq<u64>)

  /** The struct in memory: 64-bit words in declaration order. */
  function Words(f: Frame): (ws: seq<u64>)
    ensures |ws| == 5 + |f.x|
  {
    [f.excType, f.excEsr, f.excSp, f.excElr, f.excSpsr] + f.x
  }

  type Memory = map<int, u64>

  /** `ws` lies in memory from `addr` on. */
  ghost predicate Holds(mem: Memory, addr: int, ws: seq<u64>)
  {
    forall k: int :: 0 <= k < |ws| ==> addr + 8 * k in mem && mem[addr + 8 * k] == ws[k]
  }

  /** A frame in memory is the struct, field by field, at the offsets the macros use. */
  lemma FrameLayout(mem: Memory, addr: int, f: Frame)
    requires |f.x| == NUM_REGS && Holds(mem, addr, Words(f))
    ensures 8 * |Words(f)| == EXC_FRAME_SIZE
    ensures Holds(mem, addr + EXC_TYPE_OFFSET, [f.excType]) && Holds(mem, addr + EXC_ESR_OFFSET, [f.excEsr])
    ensures Holds(mem, addr + EXC_SP_OFFSET, [f.excSp]) && Holds(mem, addr + EXC_ELR_OFFSET, [f.excElr])
    ensures Holds(mem, addr + EXC_SPSR_OFFSET, [f.excSpsr])
    ensures forall i :: 0 <= i < NUM_REGS ==> Holds(mem, addr + EXC_SPSR_OFFSET + 8 + 8 * i, [f.x[i]])
  {
    var ws := Words(f);
    assert ws[0] == f.excType && ws[1] == f.excEsr && ws[2] == f.excSp && ws[3] == f.excElr && ws[4] == f.excSpsr;
    forall k | 0 <= k < |ws| ensures addr + 8 * k in mem && mem[addr + 8 * k] == ws[k] {
    }
    forall i | 0 <= i < NUM_REGS ensures Holds(mem, addr + EXC_SPSR_OFFSET + 8 + 8 * i, [f.x[i]]) {
      assert ws[5 + i] == f.x[i];
    }
  }

  lemma FramePieces(mem: Memory, addr: int, f: Frame)
    requires Holds(mem, addr, Words(f))
    ensures Holds(mem, addr, [f.excType, f.excEsr]) && Holds(mem, addr + 16, [f.excSp])
    ensures Holds(mem, addr + 24, [f.excElr, f.excSpsr]) && Holds(mem, addr + 40, f.x)
  {
    var ws := Words(f);
    assert ws[0] == f.excType && ws[1] == f.excEsr && ws[2] == f.excSp && ws[3] == f.excElr && ws[4] == f.excSpsr;
    forall k: int | 0 <= k < |ws| ensures addr + 8 * k in mem && mem[addr + 8 * k] == ws[k] {
    }
    forall k: int | 0 <= k < |f.x| ensures addr + 40 + 8 * k in mem && mem[addr + 40 + 8 * k] == f.x[k] {
      assert addr + 8 * (5 + k) in mem && ws[5 + k] == f.x[k];
    }
  }

  /** Outside [lo, hi), memory `m` is still as in `m0`. */
  ghost predicate Same(m0: Memory, m: Memory, lo: int, hi: int)
  {
    forall a :: a in m0 && !(lo <= a < hi) ==> a in m && m[a] == m0[a]
  }

  /** `ws` was pushed on a stack that started at `top` in memory `m0`. */
  ghost predicate Pushed(m0: Memory, top: int, m: Memory, sp: int, ws: seq<u64>)
  {
    sp + 8 * |ws| == top && Holds(m, sp, ws) && Same(m0, m, sp, top)
  }

  lemma PushPair(m0: Memory, top: int, m: Memory, sp: int, ws: seq<u64>, a: u64, b: u64)
    requires Pushed(m0, top, m, sp, ws)
    ensures Pushed(m0, top, m[sp - 16 := a][sp - 16 + 8 := b], sp - 16, [a, b] + ws)
  {
    var m' := m[sp - 16 := a][sp - 16 + 8 := b];
    var ws' := [a, b] + ws;
    forall k: int | 0 <= k < |ws'| ensures sp - 16 + 8 * k in m' && m'[sp - 16 + 8 * k] == ws'[k] {
      if k >= 2 {
        assert sp + 8 * (k - 2) in m && m[sp + 8 * (k - 2)] == ws[k - 2];
      }
    }
  }

  lemma PopPair(mem: Memory, sp: int, ws: seq<u64>)
    requires Holds(mem, sp, ws) && |ws| >= 2
    ensures sp in mem && mem[sp] == ws[0] && sp + 8 in mem && mem[sp + 8] == ws[1]
    ensures Holds(mem, sp + 16, ws[2..])
  {
    assert sp + 8 * 0 in mem && sp + 8 * 1 in mem;
    forall k: int | 0 <= k < |ws| - 2 ensures sp + 16 + 8 * k in mem && mem[sp + 16 + 8 * k] == ws[2..][k] {
      assert sp + 8 * (k + 2) in mem;
    }
  }

  /* ---- the processor ---- */

  class Cpu {
    var x: seq<u64>            // x0 to x30
    var sp: int
    var spEl0: u64
    var elr: u64               // ELR_EL1
    var spsr: u64              // SPSR_EL1
    var esr: u64               // ESR_EL1
    var pc: u64
    var pstate: u64
    var mem: Memory

    ghost predicate Valid()
      reads this
    {
      |x| == NUM_REGS
    }

    /** stp a, b, [sp, -16]! */
    method Stp(a: u64, b: u64, ghost m0: Memory, ghost top: int, ghost ws: seq<u64>)
      requires Pushed(m0, top, mem, sp, ws)
      modifies this`sp, this`mem
      ensures sp == old(sp) - 16 && Pushed(m0, top, mem, sp, [a, b] + ws)
    {
      hide Pushed;
      PushPair(m0, top, mem, sp, ws, a, b);
      sp := sp - 16;
      mem := mem[sp := a][sp + 8 := b];
    }

    /** x_i and above are on the stack. */
    ghost predicate Saved(i: nat, m0: Memory, top: int)
      reads this`x, this`sp, this`mem
    {
      i <= |x| == NUM_REGS && Pushed(m0, top, mem, sp, x[i..])
    }

    /** stp of x_i and x_(i + 1) */
    method StpX(i: nat, ghost m0: Memory, ghost top: int)
      requires i + 2 <= NUM_REGS && Saved(i + 2, m0, top)
      modifies this`sp, this`mem
      ensures sp == old(sp) - 16 && Saved(i, m0, top)
    {
      hide Pushed;
      Stp(x[i], x[i + 1], m0, top, x[i + 2..]);
      assert [x[i], x[i + 1]] + x[i + 2..] == x[i..];
    }

    /** LKMC_VECTOR_BUILD_TRAPFRAME */
    method BuildTrapframe(excType: u64)
      requires Valid()
      modifies this`x, this`sp, this`mem
      ensures Valid() && sp == old(sp) - EXC_FRAME_SIZE
      ensures Holds(mem, sp, Words(Frame(excType, esr, 0, elr, spsr, old(x))))
      ensures Same(old(mem), mem, sp, old(sp))
    {
      hide Holds, Same;
      ghost var m0, top := mem, sp;
      BuildX(m0, top);
      FinishFrame(excType, m0, top, x);
    }

    /** The first part: x1 and above. */
    method BuildX(ghost m0: Memory, ghost top: int)
      requires Valid() && mem == m0 && sp == top
      modifies this`sp, this`mem
      ensures Saved(1, m0, top)
    {
      NothingSaved();
      BuildHigh(m0, top);
      BuildLow(m0, top);
    }

    method BuildHigh(ghost m0: Memory, ghost top: int)
      requires Saved(NUM_REGS, m0, top)
      modifies this`sp, this`mem
      ensures sp == old(sp) - 112 && Saved(17, m0, top)
    {
      hide Saved;
      StpX(29, m0, top);
      StpX(27, m0, top);
      StpX(25, m0, top);
      StpX(23, m0, top);
      StpX(21, m0, top);
      StpX(19, m0, top);
      StpX(17, m0, top);
    }

    method BuildLow(ghost m0: Memory, ghost top: int)
      requires Saved(17, m0, top)
      modifies this`sp, this`mem
      ensures sp == old(sp) - 128 && Saved(1, m0, top)
    {
      hide Saved;
      StpX(15, m0, top);
      StpX(13, m0, top);
      StpX(11, m0, top);
      StpX(9, m0, top);
      StpX(7, m0, top);
      StpX(5, m0, top);
      StpX(3, m0, top);
      StpX(1, m0, top);
    }

    lemma NothingSaved()
      requires Valid()
      ensures Saved(NUM_REGS, mem, sp)
    {
      assert x[NUM_REGS..] == [];
    }

    /** The rest of the build: the special registers and x0. */
    method FinishFrame(excType: u64, ghost m0: Memory, ghost top: int, ghost ctx: seq<u64>)
      requires Valid() && x == ctx && Pushed(m0, top, mem, sp, ctx[1..])
      modifies this`x, this`sp, this`mem
      ensures Valid() && Pushed(m0, top, mem, sp, Words(Frame(excType, esr, 0, elr, spsr, ctx)))
    {
      hide Pushed;
      x := x[21 := spsr];
      Stp(x[21], x[0], m0, top, ctx[1..]);
      ghost var w1 := [spsr, ctx[0]] + ctx[1..];
      x := x[21 := elr];
      Stp(0, x[21], m0, top, w1);
      ghost var w2 := [0, elr] + w1;
      x := x[21 := excType];
      x := x[22 := esr];
      Stp(x[21], x[22], m0, top, w2);
      assert [excType, esr] + w2 == Words(Frame(excType, esr, 0, elr, spsr, ctx));
    }

    /** LKMC_VECTOR_STORE_TRAPED_SP: the interrupted code ran on SP_EL0. */
    method StoreTrapedSp(ghost f: Frame)
      requires Valid() && |f.x| == NUM_REGS && Holds(mem, sp, Words(f))
      modifies this`x, this`mem
      ensures Valid() && Holds(mem, sp, Words(f.(excSp := spEl0))) && Same(old(mem), mem, sp, sp + EXC_FRAME_SIZE)
    {
      x := x[21 := spEl0];
      StoreSpField(f);
    }

    /** LKMC_VECTOR_STORE_NESTED_SP: it ran on this stack. */
    method StoreNestedSp(ghost f: Frame)
      requires Valid() && |f.x| == NUM_REGS && Holds(mem, sp, Words(f))
      modifies this`x, this`mem
      ensures Valid() && Holds(mem, sp, Words(f.(excSp := Word(sp + EXC_FRAME_SIZE))))
      ensures Same(old(mem), mem, sp, sp + EXC_FRAME_SIZE)
    {
      x := x[21 := Word(sp)];
      x := x[21 := Word(x[21] + EXC_FRAME_SIZE)];
      StoreSpField(f);
    }

    /** str x21, [sp, LKMC_VECTOR_EXC_EXC_SP_OFFSET] */
    method StoreSpField(ghost f: Frame)
      requires Valid() && |f.x| == NUM_REGS && Holds(mem, sp, Words(f))
      modifies this`mem
      ensures Holds(mem, sp, Words(f.(excSp := x[21]))) && Same(old(mem), mem, sp, sp + EXC_FRAME_SIZE)
    {
      ghost var m, ws, ws' := mem, Words(f), Words(f.(excSp := x[21]));
      mem := mem[sp + EXC_SP_OFFSET := x[21]];
      forall k: int | 0 <= k < |ws'| ensures sp + 8 * k in mem && mem[sp + 8 * k] == ws'[k] {
        assert sp + 8 * k in m && m[sp + 8 * k] == ws[k];
      }
    }

    /** LKMC_VECTOR_RESTORE_TRAPED_SP */
    method RestoreTrapedSp(ghost f: Frame)
      requires Valid() && |f.x| == NUM_REGS && Holds(mem, sp, Words(f))
      modifies this`x, this`spEl0
      ensures Valid() && spEl0 == f.excSp
    {
      FrameLayout(mem, sp, f);
      assert sp + EXC_SP_OFFSET + 8 * 0 in mem;
      x := x[21 := mem[sp + EXC_SP_OFFSET]];
      spEl0 := x[21];
    }

    /** ldp x_i, x_j, [sp], 16 */
    method Ldp(i: nat, j: nat, ghost ws: seq<u64>)
      requires Valid() && i < NUM_REGS && j < NUM_REGS && |ws| >= 2 && Holds(mem, sp, ws)
      modifies this`x, this`sp
      ensures Valid() && sp == old(sp) + 16 && Holds(mem, sp, ws[2..])
      ensures x == old(x)[i := ws[0]][j := ws[1]]
    {
      PopPair(mem, sp, ws);
      x := x[i := mem[sp]];
      x := x[j := mem[sp + 8]];
      sp := sp + 16;
    }

    /** x_0 up to x_(i - 1) are restored from `ctx`, the rest is next on the stack. */
    ghost predicate Restored(i: nat, ctx: seq<u64>)
      reads this`x, this`sp, this`mem
    {
      i <= |x| == |ctx| == NUM_REGS && Holds(mem, sp, ctx[i..]) && x[..i] == ctx[..i]
    }

    /** ldp of x_i and x_(i + 1) */
    method LdpX(i: nat, ghost ctx: seq<u64>)
      requires i + 2 <= NUM_REGS && Restored(i, ctx)
      modifies this`x, this`sp
      ensures sp == old(sp) + 16 && Restored(i + 2, ctx)
    {
      hide Holds;
      Ldp(i, i + 1, ctx[i..]);
      assert ctx[i..][2..] == ctx[i + 2..];
      assert forall k :: 0 <= k < i ==> x[k] == old(x)[..i][k];
    }

    /** LKMC_VECTOR_RESTORE_TRAPFRAME up to the eret */
    method RestoreTrapframe(ghost f: Frame)
      requires Valid() && |f.x| == NUM_REGS && Holds(mem, sp, Words(f))
      modifies this`x, this`sp, this`elr, this`spsr
      ensures x == f.x && sp == old(sp) + EXC_FRAME_SIZE && elr == f.excElr && spsr == f.excSpsr
    {
      RestoreSpecials(f);
      RestoreX(f.x);
    }

    /** The second part. */
    method RestoreX(ghost ctx: seq<u64>)
      requires Restored(1, ctx)
      modifies this`x, this`sp
      ensures x == ctx && sp == old(sp) + 240
    {
      hide Restored;
      RestoreLow(ctx);
      RestoreHigh(ctx);
      AllRestored(ctx);
    }

    method RestoreLow(ghost ctx: seq<u64>)
      requires Restored(1, ctx)
      modifies this`x, this`sp
      ensures sp == old(sp) + 128 && Restored(17, ctx)
    {
      hide Restored;
      LdpX(1, ctx);
      LdpX(3, ctx);
      LdpX(5, ctx);
      LdpX(7, ctx);
      LdpX(9, ctx);
      LdpX(11, ctx);
      LdpX(13, ctx);
      LdpX(15, ctx);
    }

    method RestoreHigh(ghost ctx: seq<u64>)
      requires Restored(17, ctx)
      modifies this`x, this`sp
      ensures sp == old(sp) + 112 && Restored(NUM_REGS, ctx)
    {
      hide Restored;
      LdpX(17, ctx);
      LdpX(19, ctx);
      LdpX(21, ctx);
      LdpX(23, ctx);
      LdpX(25, ctx);
      LdpX(27, ctx);
      LdpX(29, ctx);
    }

    lemma AllRestored(ctx: seq<u64>)
      requires Restored(NUM_REGS, ctx)
      ensures x == ctx
    {
      assert x[..NUM_REGS] == x && ctx[..NUM_REGS] == ctx;
    }

    /** The first part of the restore: the special registers and x0. */
    method RestoreSpecials(ghost f: Frame)
      requires Valid() && |f.x| == NUM_REGS && Holds(mem, sp, Words(f))
      modifies this`x, this`sp, this`elr, this`spsr
      ensures Valid() && sp == old(sp) + 48 && elr == f.excElr && spsr == f.excSpsr
      ensures Restored(1, f.x)
    {
      ghost var ws := Words(f);
      PopPair(mem, sp, ws);
      hide Holds;
      sp := sp + 16;
      Ldp(21, 22, ws[2..]);
      elr := x[22];
      Ldp(21, 0, ws[2..][2..]);
      spsr := x[21];
      assert ws[2..][2..][2..] == f.x[1..];
    }

    /* ---- exceptions ---- */

    /** What the processor does on an exception. */
    method Trap(syndrome: u64, vectorPc: u64, vectorPstate: u64)
      modifies this`elr, this`spsr, this`esr, this`pc, this`pstate
      ensures elr == old(pc) && spsr == old(pstate) && esr == syndrome
    {
      elr, spsr, esr := pc, pstate, syndrome;
      pc, pstate := vectorPc, vectorPstate;
    }

    method Eret()
      modifies this`pc, this`pstate
      ensures pc == elr && pstate == spsr
    {
      pc, pstate := elr, spsr;
    }

    /** From the exception up to the call of the handler. */
    method Enter(kind: Kind, excType: u64, syndrome: u64, vectorPc: u64, vectorPstate: u64)
      requires Valid()
      modifies this
      ensures Valid() && sp == old(sp) - EXC_FRAME_SIZE
      ensures Holds(mem, sp, Words(old(Context(kind, excType, syndrome))))
      ensures Same(old(mem), mem, sp, old(sp))
      ensures Holds(mem, sp, [excType, syndrome]) && Holds(mem, sp + 24, [old(pc), old(pstate)])
      ensures Holds(mem, sp + 16, [if kind.Traped? then old(spEl0) else Word(old(sp))])
      ensures Holds(mem, sp + 40, old(x)) && x[0] == Word(sp)
    {
      hide Holds, Words;
      ghost var o := x;
      Trap(syndrome, vectorPc, vectorPstate);
      BuildTrapframe(excType);
      ghost var f := Frame(excType, esr, 0, elr, spsr, o);
      if kind.Traped? {
        StoreTrapedSp(f);
      } else {
        StoreNestedSp(f);
      }
      FramePieces(mem, sp, old(Context(kind, excType, syndrome)));
      // mov x0, sp; bl lkmc_vector_trap_handler
      x := x[0 := Word(sp)];
      x := x[30 := pc];
    }

    /** The frame that stands for the interrupted context. */
    ghost function Context(kind: Kind, excType: u64, syndrome: u64): (f: Frame)
      reads this
    {
      Frame(excType, syndrome, if kind.Traped? then spEl0 else Word(sp), pc, pstate, x)
    }

    /** From the handler's return to the interrupted code. */
    method Leave(kind: Kind, ghost f: Frame)
      requires Valid() && |f.x| == NUM_REGS && Holds(mem, sp, Words(f))
      modifies this`x, this`sp, this`spEl0, this`elr, this`spsr, this`pc, this`pstate
      ensures x == f.x && sp == old(sp) + EXC_FRAME_SIZE && pc == f.excElr && pstate == f.excSpsr
      ensures spEl0 == if kind.Traped? then f.excSp else old(spEl0)
    {
      if kind.Traped? {
        RestoreTrapedSp(f);
      }
      RestoreTrapframe(f);
      Eret();
    }

    /** One exception: entry, handler, exit. The interrupted code finds x0 to x30, its stack
        pointers, the program counter, the processor state and everything that was saved on the
        stack as they were. */
    method TakeException(kind: Kind, excType: u64, syndrome: u64, vectorPc: u64, vectorPstate: u64,
                         handler: seq<Step>, ghost saved: set<int>)
      requires Valid() && Above(saved, sp)
      requires var base := sp - EXC_FRAME_SIZE; LegalSteps(handler, base, base, saved + FrameAddrs(base))
      modifies this
      ensures x == old(x) && sp == old(sp) && pc == old(pc) && pstate == old(pstate)
      ensures kind.Traped? ==> spEl0 == old(spEl0)
      ensures Keeps(old(mem), mem, saved)
      decreases handler, 1
    {
      hide Holds, LegalSteps;
      ghost var f := Context(kind, excType, syndrome);
      Enter(kind, excType, syndrome, vectorPc, vectorPstate);
      ghost var m, base := mem, sp;
      SavedAndFrame(saved, base);
      RunHandler(handler, base, saved + FrameAddrs(base));
      FrameIsKept(m, mem, saved, base, Words(f));
      Leave(kind, f);
    }

    /** A handler that keeps the stack pointer and the saved frames, with whatever exceptions
        it takes itself. */
    method RunHandler(steps: seq<Step>, ghost base: int, ghost saved: set<int>)
      requires Valid() && sp <= base && Above(saved, base) && LegalSteps(steps, base, sp, saved)
      modifies this
      ensures Valid() && sp == base && Keeps(old(mem), mem, saved)
      decreases steps, 0
    {
      if steps != [] {
        match steps[0] {
          case Work(x', sp', sps, pc', pstate', writes) =>
            x, sp, pc, pstate := x', sp', pc', pstate';
            spEl0, elr, spsr, esr := sps.spEl0, sps.elr, sps.spsr, sps.esr;
            mem := mem + writes;
          case Exception(kind, excType, syndrome, vectorPc, vectorPstate, handler) =>
            TakeException(kind, excType, syndrome, vectorPc, vectorPstate, handler, saved);
        }
        RunHandler(steps[1..], base, saved);
      }
    }
  }

  /** Which of the two entry macros: LKMC_VECTOR_FUNC or LKMC_VECTOR_FUNC_NESTED. */
  datatype Kind = Traped | Nested

  datatype SpecialRegs = SpecialRegs(spEl0: u64, elr: u64, spsr: u64, esr: u64)

  /** What a handler does between two exceptions it takes: anything to any register and to
      memory; or it takes one. */
  datatype Step =
    | Work(x: seq<u64>, sp: int, special: SpecialRegs, pc: u64, pstate: u64, writes: Memory)
    | Exception(kind: Kind, excType: u64, syndrome: u64, vectorPc: u64, vectorPstate: u64, handler: seq<Step>)

  function FrameAddrs(base: int): (addrs: set<int>)
  {
    set k: int | 0 <= k < EXC_FRAME_SIZE / 8 :: base + 8 * k
  }

  ghost predicate Above(addrs: set<int>, base: int)
  {
    forall a :: a in addrs ==> a >= base
  }

  /** The handler stays below its frame, leaves all saved frames alone, and returns with the
      stack pointer it was called with. */
  ghost predicate LegalSteps(steps: seq<Step>, base: int, sp: int, saved: set<int>)
    decreases steps
  {
    if steps == [] then sp == base
    else match steps[0] {
      case Work(x', sp', _, _, _, writes) =>
        && |x'| == NUM_REGS && sp' <= base && writes.Keys !! saved
        && LegalSteps(steps[1..], base, sp', saved)
      case Exception(_, _, _, _, _, handler) =>
        && LegalSteps(handler, sp - EXC_FRAME_SIZE, sp - EXC_FRAME_SIZE, saved + FrameAddrs(sp - EXC_FRAME_SIZE))
        && LegalSteps(steps[1..], base, sp, saved)
    }
  }

  /** What was in memory at the saved addresses is still there. */
  ghost predicate Keeps(m0: Memory, m: Memory, saved: set<int>)
  {
    forall a :: a in saved && a in m0 ==> a in m && m[a] == m0[a]
  }

  lemma SavedAndFrame(saved: set<int>, base: int)
    requires Above(saved, base + EXC_FRAME_SIZE)
    ensures Above(saved + FrameAddrs(base), base)
  {
  }

  lemma FrameIsKept(m: Memory, m': Memory, saved: set<int>, base: int, ws: seq<u64>)
    requires Keeps(m, m', saved + FrameAddrs(base)) && |ws| == EXC_FRAME_SIZE / 8 && Holds(m, base, ws)
    ensures Holds(m', base, ws) && Keeps(m, m', saved)
  {
    forall k: int | 0 <= k < |ws| ensures base + 8 * k in m' && m'[base + 8 * k] == ws[k] {
      assert base + 8 * k in FrameAddrs(base);
    }
  }

  /** A stack pointer in a 64-bit register. */
  function Word(a: int): (w: u64)
  {
    a % U64
  }
}

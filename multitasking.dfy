// The context switch of the x86-64 kernel: `switch_context` saves the six
// callee-saved registers on the old stack and restores them from the new one,
// and `init_stack` seeds a new task's stack with a frame that the first switch
// to it pops, returning into `trampoline` with the entry point in R12 and its
// argument in R13.

module Multitasking {
  import opened Words

  /** Memory as 64-bit words by byte address; every access here is an aligned 8-byte word. */
  type Memory = map<int, u64>

  /** The callee-saved registers of the System V AMD64 ABI that `switch_context` saves. */
  datatype Regs = Regs(rbx: u64, rbp: u64, r12: u64, r13: u64, r14: u64, r15: u64)

  /** Where a `ret` out of `switch_context` lands: the registers, the new RIP and the new RSP. */
  datatype Resumed = Resumed(regs: Regs, rip: u64, rsp: int)

  /** The frame size: six registers and the return address, plus the zero word above them. */
  const FRAME_SIZE: int := 64

  /** `mem` holds `ws` as consecutive words from address `a`. */
  predicate Holds(mem: Memory, a: int, ws: seq<u64>)
  {
    forall k :: 0 <= k < |ws| ==> a + 8 * k in mem && mem[a + 8 * k] == ws[k]
  }

  // ---------------------------------------------------------------------
  // switch_context

  /** The seven words the restore half pops, from `sp` up: R15, R14, R13, R12, RBP, RBX, RIP. */
  predicate Poppable(mem: Memory, sp: int)
  {
    forall k :: 0 <= k < 7 ==> sp + 8 * k in mem
  }

  /** `pop r15; pop r14; pop r13; pop r12; pop rbp; pop rbx; ret` from `sp`. */
  function Restore(mem: Memory, sp: int): (r: Resumed)
    requires Poppable(mem, sp)
    ensures r.rsp == sp + 56
  {
    assert sp + 8 * 0 in mem && sp + 8 * 1 in mem && sp + 8 * 2 in mem && sp + 8 * 3 in mem;
    assert sp + 8 * 4 in mem && sp + 8 * 5 in mem && sp + 8 * 6 in mem;
    Resumed(Regs(rbx := mem[sp + 40], rbp := mem[sp + 32], r12 := mem[sp + 24], r13 := mem[sp + 16],
                 r14 := mem[sp + 8], r15 := mem[sp]),
            mem[sp + 48], sp + 56)
  }

  /** The CPU state `switch_context` acts on. */
  class Cpu {
    var rsp: int
    var rip: u64
    var regs: Regs
    var mem: Memory

    constructor (rsp: int, rip: u64, regs: Regs, mem: Memory)
      ensures this.rsp == rsp && this.rip == rip && this.regs == regs && this.mem == mem
    {
      this.rsp := rsp;
      this.rip := rip;
      this.regs := regs;
      this.mem := mem;
    }

    /** `push v`. */
    method Push(v: u64)
      modifies this
      ensures rsp == old(rsp) - 8 && mem == old(mem)[rsp := v]
      ensures rip == old(rip) && regs == old(regs)
    {
      rsp := rsp - 8;
      mem := mem[rsp := v];
    }

    /** `pop`: the word at RSP. */
    method Pop() returns (v: u64)
      requires rsp in mem
      modifies this
      ensures v == old(mem[rsp]) && rsp == old(rsp) + 8
      ensures mem == old(mem) && rip == old(rip) && regs == old(regs)
    {
      v := mem[rsp];
      rsp := rsp + 8;
    }

    /** `push rbx; push rbp; push r12; push r13; push r14; push r15`. */
    method PushRegs()
      modifies this
      ensures mem == Pushed(old(mem), old(rsp), old(regs)) && rsp == old(rsp) - 48
      ensures rip == old(rip) && regs == old(regs)
    {
      Push(regs.rbx);
      Push(regs.rbp);
      Push(regs.r12);
      Push(regs.r13);
      Push(regs.r14);
      Push(regs.r15);
    }

    /** `pop r15; pop r14; pop r13; pop r12; pop rbp; pop rbx; ret`. */
    method PopFrame()
      requires Poppable(mem, rsp)
      modifies this
      ensures Resumed(regs, rip, rsp) == Restore(old(mem), old(rsp)) && mem == old(mem)
    {
      assert rsp + 8 * 0 in mem && rsp + 8 * 1 in mem && rsp + 8 * 2 in mem && rsp + 8 * 3 in mem;
      assert rsp + 8 * 4 in mem && rsp + 8 * 5 in mem && rsp + 8 * 6 in mem;
      var r15 := Pop();
      var r14 := Pop();
      var r13 := Pop();
      var r12 := Pop();
      var rbp := Pop();
      var rbx := Pop();
      regs := Regs(rbx, rbp, r12, r13, r14, r15);
      rip := Pop();
    }

    /**
     * `switch_context(new_sp, old_sp_ptr)`, entered by a `call` (RSP at the return
     * address): push the six registers, store RSP at `old_sp_ptr`, load `new_sp`, pop
     * them in reverse order and return.
     */
    method SwitchContext(newSp: int, oldSpPtr: int)
      requires Poppable(Saved(mem, rsp, regs, oldSpPtr), newSp)
      modifies this
      ensures mem == Saved(old(mem), old(rsp), old(regs), oldSpPtr)
      ensures Resumed(regs, rip, rsp) == Restore(mem, newSp)
    {
      PushRegs();
      mem := mem[oldSpPtr := rsp % U64_LIMIT];
      rsp := newSp;
      PopFrame();
    }
  }

  /** The six pushes of `switch_context` from `rsp`: the saved registers, RBX highest. */
  function Pushed(mem: Memory, rsp: int, r: Regs): (m: Memory)
    ensures Holds(m, rsp - 48, [r.r15, r.r14, r.r13, r.r12, r.rbp, r.rbx])
    ensures forall a :: a in m <==> a in mem || a in {rsp - 8, rsp - 16, rsp - 24, rsp - 32, rsp - 40, rsp - 48}
    ensures forall a :: a in mem && !(rsp - 48 <= a < rsp) ==> m[a] == mem[a]
  {
    mem[rsp - 8 := r.rbx][rsp - 16 := r.rbp][rsp - 24 := r.r12][rsp - 32 := r.r13][rsp - 40 := r.r14][rsp - 48 := r.r15]
  }

  /** The memory the save half leaves: the pushes, then the saved RSP stored at `oldSpPtr`. */
  function Saved(mem: Memory, rsp: int, r: Regs, oldSpPtr: int): Memory
  {
    Pushed(mem, rsp, r)[oldSpPtr := (rsp - 48) % U64_LIMIT]
  }

  /**
   * The save/restore round trip: a task that switched away at `rsp` stored `rsp - 48`.
   * Switching back to it, on any memory that still holds the saved frame and the
   * return address, restores its six registers and returns to its caller with RSP as
   * after the `call`'s `ret`.
   */
  lemma {:induction false} SwitchBack(mem: Memory, rsp: int, r: Regs, later: Memory)
    requires rsp in mem
    requires Holds(later, rsp - 48, [r.r15, r.r14, r.r13, r.r12, r.rbp, r.rbx, mem[rsp]])
    ensures Poppable(later, rsp - 48)
    ensures Restore(later, rsp - 48) == Resumed(r, mem[rsp], rsp + 8)
  {
    assert forall k :: 0 <= k < 7 ==> (rsp - 48) + 8 * k in later;
    assert later[rsp - 48 + 8 * 0] == r.r15 && later[rsp - 48 + 8 * 1] == r.r14 && later[rsp - 48 + 8 * 2] == r.r13;
    assert later[rsp - 48 + 8 * 3] == r.r12 && later[rsp - 48 + 8 * 4] == r.rbp && later[rsp - 48 + 8 * 5] == r.rbx;
    assert later[rsp - 48 + 8 * 6] == mem[rsp];
  }

  /**
   * Right after the save, the frame is in place: unless `old_sp_ptr` points into it,
   * the memory `switch_context` leaves holds the registers and return address that a
   * switch back pops.
   */
  lemma SavedHoldsFrame(mem: Memory, rsp: int, r: Regs, oldSpPtr: int)
    requires rsp in mem && !(rsp - 48 <= oldSpPtr <= rsp)
    ensures Holds(Saved(mem, rsp, r, oldSpPtr), rsp - 48, [r.r15, r.r14, r.r13, r.r12, r.rbp, r.rbx, mem[rsp]])
  {
    var s := Saved(mem, rsp, r, oldSpPtr);
    var ws := [r.r15, r.r14, r.r13, r.r12, r.rbp, r.rbx, mem[rsp]];
    forall k | 0 <= k < 7
      ensures rsp - 48 + 8 * k in s && s[rsp - 48 + 8 * k] == ws[k]
    {
      if k == 6 {
        assert rsp - 48 + 8 * k == rsp;
      }
    }
  }

  // ---------------------------------------------------------------------
  // init_stack

  /** The seeded frame from the returned SP up: R15, R14, R13 = arg0, R12 = entry, RBP, RBX, RIP = trampoline, 0. */
  function SeedFrame(entry: u64, arg0: u64, trampoline: u64): seq<u64>
  {
    [0, 0, arg0, entry, 0, 0, trampoline, 0]
  }

  /** The addresses of the eight words of a seeded frame at `sp`. */
  function FrameSlots(sp: int): (r: set<int>)
    ensures forall a :: a in r ==> sp <= a < sp + FRAME_SIZE
  {
    {sp, sp + 8, sp + 16, sp + 24, sp + 32, sp + 40, sp + 48, sp + 56}
  }

  /** The stack pointer `init_stack` returns for the buffer `[base, base + len)`. */
  function SeedSp(base: int, len: int): int
  {
    AlignDown16(base + len) - FRAME_SIZE
  }

  /**
   * `init_stack(stack, entry_point, arg0)` on the buffer `[base, base + len)`, with each
   * store placed at `sp` itself (the stack start plus `sp - base`), as the frame layout
   * intends. The source's `usize` subtractions `sp - base` need `base <= sp`.
   */
  method InitStack(mem: Memory, base: nat, len: nat, entry: u64, arg0: u64, trampoline: u64)
    returns (sp: int, mem': Memory)
    requires base + len < U64_LIMIT
    requires base <= SeedSp(base, len)
    ensures sp == SeedSp(base, len)
    ensures Holds(mem', sp, SeedFrame(entry, arg0, trampoline))
    ensures forall a :: a in mem' <==> a in mem || a in FrameSlots(sp)
    ensures forall a :: a in mem && !(sp <= a < sp + FRAME_SIZE) ==> mem'[a] == mem[a]
  {
    var stackTop := base + len;
    sp := AlignDown16(stackTop);
    // The trap-context slot, which stays as the zero word above the return address.
    sp := sp - 8;
    var trapSlot := sp;
    mem' := mem[trapSlot := 0];
    // The return address of the first switch.
    sp := sp - 8;
    var ripSlot := sp;
    mem' := mem'[ripSlot := trampoline];
    // Room for R15..RBX, stored from the lowest address up in pop order.
    sp := sp - 8 * 6;
    var regs := sp;
    mem' := mem'[regs := 0][regs + 8 := 0][regs + 16 := arg0][regs + 24 := entry][regs + 32 := 0][regs + 40 := 0];
    SeedStores(mem, trapSlot, ripSlot, regs, entry, arg0, trampoline);
  }

  /** The eight stores of `init_stack`, highest first, leave the seeded frame at `regs` and nothing else changed. */
  lemma SeedStores(mem: Memory, trapSlot: int, ripSlot: int, regs: int, entry: u64, arg0: u64, trampoline: u64)
    requires ripSlot == trapSlot - 8 && regs == ripSlot - 48
    ensures var m := mem[trapSlot := 0][ripSlot := trampoline]
                        [regs := 0][regs + 8 := 0][regs + 16 := arg0][regs + 24 := entry][regs + 32 := 0][regs + 40 := 0];
            && Holds(m, regs, SeedFrame(entry, arg0, trampoline))
            && (forall a :: a in m <==> a in mem || a in FrameSlots(regs))
            && (forall a :: a in mem && !(regs <= a < regs + FRAME_SIZE) ==> m[a] == mem[a])
  {
    var m := mem[trapSlot := 0][ripSlot := trampoline]
               [regs := 0][regs + 8 := 0][regs + 16 := arg0][regs + 24 := entry][regs + 32 := 0][regs + 40 := 0];
    var ws := SeedFrame(entry, arg0, trampoline);
    forall k | 0 <= k < 8
      ensures regs + 8 * k in m && m[regs + 8 * k] == ws[k]
    {
    }
  }

  /** The seeded frame lies inside the buffer, 16-byte aligned, and ends at the aligned top. */
  lemma SeedInBuffer(base: nat, len: nat)
    requires base <= SeedSp(base, len)
    ensures SeedSp(base, len) % 16 == 0
    ensures base <= SeedSp(base, len) && SeedSp(base, len) + FRAME_SIZE <= base + len
    ensures base + len - (SeedSp(base, len) + FRAME_SIZE) < 16
  {
  }

  /**
   * The first switch to a seeded stack pops R15 = R14 = RBP = RBX = 0, R12 = entry and
   * R13 = arg0, and returns into `trampoline` with RSP = aligned top - 8, the alignment
   * of a function entry (RSP + 8 a multiple of 16, section 3.2.2 of the System V AMD64
   * psABI).
   */
  lemma SeedResumes(mem: Memory, sp: int, entry: u64, arg0: u64, trampoline: u64)
    requires Holds(mem, sp, SeedFrame(entry, arg0, trampoline)) && sp % 16 == 0
    ensures Poppable(mem, sp)
    ensures Restore(mem, sp) == Resumed(Regs(0, 0, entry, arg0, 0, 0), trampoline, sp + FRAME_SIZE - 8)
    ensures (Restore(mem, sp).rsp + 8) % 16 == 0
  {
    var ws := SeedFrame(entry, arg0, trampoline);
    assert forall k :: 0 <= k < 7 ==> sp + 8 * k in mem && mem[sp + 8 * k] == ws[k];
    assert mem[sp + 8 * 0] == 0 && mem[sp + 8 * 1] == 0 && mem[sp + 8 * 2] == arg0 && mem[sp + 8 * 3] == entry;
    assert mem[sp + 8 * 4] == 0 && mem[sp + 8 * 5] == 0 && mem[sp + 8 * 6] == trampoline;
  }

  // ---------------------------------------------------------------------
  // The stores as written

  /**
   * As written, the stores go through `ptr = sp as *mut u8` taken at the aligned top, so
   * the word meant for `s` lands at `ptr + (s - base)`.
   */
  function AsWrittenStore(base: int, len: int, s: int): int
  {
    AlignDown16(base + len) + (s - base)
  }

  /** The eight addresses `init_stack` stores to, as written. */
  function AsWrittenStores(base: int, len: int): (r: seq<int>)
    ensures |r| == 8
  {
    var sp := SeedSp(base, len);
    seq(8, k => AsWrittenStore(base, len, sp + 8 * k))
  }

  /**
   * As written, for a buffer of 94 bytes or more every store of `init_stack` lands at
   * or above the end of the buffer, so none of the seeded frame is where the returned
   * SP points.
   */
  lemma AsWrittenStoresOutside(base: nat, len: nat)
    requires len >= 94
    ensures forall k :: 0 <= k < 8 ==> AsWrittenStores(base, len)[k] >= base + len
  {
  }

  /** A 4 KB stack at 0x1000: the R15 store meant for 0x1FC0 goes to 0x2FC0, past the buffer's end at 0x2000. */
  lemma AsWrittenExample()
    ensures SeedSp(0x1000, 0x1000) == 0x1FC0
    ensures AsWrittenStores(0x1000, 0x1000)[0] == 0x2FC0
  {
  }
}

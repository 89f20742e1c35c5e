// The AArch64 user-access walk over a 4-level translation table with the 4 KB
// granule (VMSAv8-64, Arm Architecture Reference Manual chapter D8): for every
// page of a range, follow L0 -> L1 -> L2 -> L3 and rewrite the descriptor that
// maps it so that EL0 may read, write and execute.

module Mmu {
  import opened Words

  // ---------------------------------------------------------------------
  // Descriptors

  /**
   * A 64-bit stage-1 descriptor, split at bits 12 and 48: `lo` is bits 11:0 (VALID,
   * TABLE, AP[7:6], AF), `oa` the output address bits 47:12 as a page number, and
   * `hi` bits 63:48 (UXN is descriptor bit 54, bit 6 of `hi`). Every bit operation
   * of the walk touches exactly one of the three parts.
   */
  datatype Desc = Desc(lo: bv12, oa: nat, hi: bv16)

  const VALID: bv12 := 1
  const TABLE: bv12 := 2
  const AP_MASK: bv12 := 0xC0
  const AP_RW_EL1_RW_EL0: bv12 := 0x40
  const AF: bv12 := 0x400
  /** `1 << 54`, as a bit of `hi`. */
  const UXN: bv16 := 0x40

  const PAGE_SIZE: nat := 0x1000
  const L2_BLOCK: nat := 0x20_0000
  const L1_BLOCK: nat := 0x4000_0000

  /** `entry & 0xFFFF_FFFF_F000`: the table a table descriptor points to. */
  function NextTable(d: Desc): int
  {
    d.oa * PAGE_SIZE
  }

  /** The two rewrites: a block descriptor (L1 or L2) and a page descriptor (L3). */
  datatype Upd = Blk | Pg

  /**
   * `entry | AP_RW_EL1_RW_EL0 | AF`, the rewrite of a block descriptor: it gains AP[6]
   * and AF, loses no bit, and no other bit changes.
   */
  function BlockUpdate(d: Desc): (r: Desc)
    ensures r.lo & (AP_RW_EL1_RW_EL0 | AF) == AP_RW_EL1_RW_EL0 | AF
    ensures r.lo & d.lo == d.lo
    ensures r.lo & !(AP_RW_EL1_RW_EL0 | AF) == d.lo & !(AP_RW_EL1_RW_EL0 | AF)
    ensures r.oa == d.oa && r.hi == d.hi
  {
    d.(lo := d.lo | AP_RW_EL1_RW_EL0 | AF)
  }

  /**
   * AP[7:6] cleared then set to 01, UXN cleared, AF set: the rewrite of a page
   * descriptor. Every other bit is kept.
   */
  function PageUpdate(d: Desc): (r: Desc)
    ensures r.lo & AP_MASK == AP_RW_EL1_RW_EL0
    ensures r.lo & AF == AF
    ensures r.hi & UXN == 0
    ensures r.lo & !(AP_MASK | AF) == d.lo & !(AP_MASK | AF)
    ensures r.hi & !UXN == d.hi & !UXN
    ensures r.oa == d.oa
  {
    d.(lo := ((d.lo & !AP_MASK) | AP_RW_EL1_RW_EL0) | AF, hi := d.hi & !UXN)
  }

  function Update(u: Upd, d: Desc): Desc
  {
    match u
    case Blk => BlockUpdate(d)
    case Pg => PageUpdate(d)
  }

  /**
   * The block rewrite only ORs AP[6] in: a block mapped read-only at EL1 (AP = 10)
   * ends with AP = 11, read-only at both levels, and keeps UXN.
   */
  lemma BlockOfReadOnly(d: Desc)
    requires d.lo & AP_MASK == 0x80
    ensures BlockUpdate(d).lo & AP_MASK == AP_MASK
    ensures BlockUpdate(d).hi & UXN == d.hi & UXN
  {
  }

  /** Both rewrites keep VALID, TABLE and the output address, so they never change where the walk goes. */
  lemma UpdateKeepsWalkBits(u: Upd, d: Desc)
    ensures Update(u, d).lo & (VALID | TABLE) == d.lo & (VALID | TABLE)
    ensures Update(u, d).oa == d.oa
  {
  }

  /** The stronger of two rewrites: a page rewrite subsumes a block rewrite. */
  function Join(u: Upd, v: Upd): Upd
  {
    if u == Pg || v == Pg then Pg else Blk
  }

  /** Rewriting twice is rewriting once with the stronger rewrite; in particular each rewrite is idempotent. */
  lemma UpdateCompose(u: Upd, v: Upd, d: Desc)
    ensures Update(v, Update(u, d)) == Update(Join(u, v), d)
  {
  }

  // ---------------------------------------------------------------------
  // The walk

  /**
   * The table indices of a virtual address: bits 47:39 (L0), 38:30 (L1), 29:21 (L2)
   * and 20:12 (L3), `(addr >> shift) & 0x1FF`.
   */
  function Indices(addr: int): (idx: seq<int>)
    ensures |idx| == 4 && forall k :: 0 <= k < 4 ==> 0 <= idx[k] < 512
  {
    [(addr / 0x80_0000_0000) % 512, (addr / 0x4000_0000) % 512,
     (addr / 0x20_0000) % 512, (addr / 0x1000) % 512]
  }

  /** Page tables: descriptors by physical address (identity mapped). */
  type Tables = map<int, Desc>

  /**
   * What one iteration finds at `addr`: an invalid descriptor at some level, or the
   * descriptor at `at` that maps it (an L1 block of 1 GB, an L2 block of 2 MB, an L3 page).
   */
  datatype Visit = Skip | L1Block(at: int) | L2Block(at: int) | L3Page(at: int)

  /**
   * One iteration's reads, from the table `t` at `level` down: None where it would
   * read a word that is not mapped. An L0 descriptor is always taken as a table.
   */
  function WalkFrom(mem: Tables, t: int, idx: seq<int>, level: nat): (r: Option<Visit>)
    requires level <= 3 && |idx| == 4
    ensures r.Some? && !r.value.Skip? ==> r.value.at in mem
    decreases 3 - level
  {
    var a := t + 8 * idx[level];
    if a !in mem then None
    else if mem[a].lo & VALID == 0 then Some(Skip)
    else if level == 3 then Some(L3Page(a))
    else if level > 0 && mem[a].lo & TABLE == 0 then Some(if level == 1 then L1Block(a) else L2Block(a))
    else WalkFrom(mem, NextTable(mem[a]), idx, level + 1)
  }

  /** What the iteration at `addr` finds, starting from the L0 table `l0`. */
  function VisitAt(mem: Tables, l0: int, addr: int): Option<Visit>
  {
    WalkFrom(mem, l0, Indices(addr), 0)
  }

  /** The rewrite an iteration applies to the descriptor it found. */
  function UpdOf(v: Visit): Upd
  {
    if v.L3Page? then Pg else Blk
  }

  /** How far the iteration advances `addr`: the size of what the descriptor maps, a page after a skip. */
  function Advance(v: Visit): nat
  {
    match v
    case Skip => PAGE_SIZE
    case L1Block(_) => L1_BLOCK
    case L2Block(_) => L2_BLOCK
    case L3Page(_) => PAGE_SIZE
  }

  /** The rewrites made so far: for each descriptor, the strongest one applied to it. */
  type Marks = map<int, Upd>

  function AddMark(m: Marks, v: Visit): Marks
  {
    if v.Skip? then m
    else m[v.at := if v.at in m then Join(m[v.at], UpdOf(v)) else UpdOf(v)]
  }

  /**
   * The next address. As written, the walk adds the advance to `addr` itself; `aligned`
   * selects the corrected walk, which moves to the start of the next block or page.
   */
  function NextAddr(addr: int, v: Visit, aligned: bool): (n: int)
    ensures n > addr
  {
    if !aligned then addr + Advance(v)
    else match v
      case L1Block(_) => addr - addr % 0x4000_0000 + 0x4000_0000
      case L2Block(_) => addr - addr % 0x20_0000 + 0x20_0000
      case _ => addr - addr % 0x1000 + 0x1000
  }

  /**
   * The rewrites of the iterations from `addr` up to `end`, added to `m`; None where
   * an iteration reads an unmapped word or `addr +=` overflows 64 bits.
   */
  function WalkMarks(mem: Tables, l0: int, addr: int, end: int, m: Marks, aligned: bool): Option<Marks>
    decreases end - addr
  {
    if addr >= end then Some(m)
    else match VisitAt(mem, l0, addr)
      case None => None
      case Some(v) =>
        var next := NextAddr(addr, v, aligned);
        if next >= U64_LIMIT then None
        else WalkMarks(mem, l0, next, end, AddMark(m, v), aligned)
  }

  /** First page of the walk: `start_addr & !(4096 - 1)`. */
  function FirstPage(startAddr: int): int
  {
    startAddr - startAddr % PAGE_SIZE
  }

  /** End of the walk: `(start_addr + len + 4096 - 1) & !(4096 - 1)`. */
  function EndPage(startAddr: int, len: int): int
  {
    (startAddr + len + PAGE_SIZE - 1) - (startAddr + len + PAGE_SIZE - 1) % PAGE_SIZE
  }

  /** The L0 table: bits 47:12 of TTBR0_EL1, `ttbr0 & 0xFFFF_FFFF_F000` (the ASID masked off). */
  function L0Table(ttbr0: u64): (r: int)
    ensures 0 <= r < 0x1_0000_0000_0000 && r % PAGE_SIZE == 0
    ensures r == ttbr0 % 0x1_0000_0000_0000 - ttbr0 % PAGE_SIZE
  {
    ttbr0 / PAGE_SIZE % 0x10_0000_0000 * PAGE_SIZE
  }

  /**
   * The walk runs over whole pages: it starts at the page holding `start_addr` and ends
   * at the first page boundary at or after `start_addr + len`, so every page that
   * overlaps the range is in `[FirstPage, EndPage)` and no other page is.
   */
  lemma PageRounding(startAddr: nat, len: nat)
    ensures FirstPage(startAddr) % PAGE_SIZE == 0 && EndPage(startAddr, len) % PAGE_SIZE == 0
    ensures FirstPage(startAddr) <= startAddr < FirstPage(startAddr) + PAGE_SIZE
    ensures startAddr + len <= EndPage(startAddr, len) < startAddr + len + PAGE_SIZE
  {
  }

  /** The rewrites of `make_user_accessible(start_addr, len)`. */
  function UserMarks(mem: Tables, ttbr0: u64, startAddr: int, len: int): Option<Marks>
  {
    WalkMarks(mem, L0Table(ttbr0), FirstPage(startAddr), EndPage(startAddr, len), map[], false)
  }

  /** The rewrites of the corrected walk over the same range. */
  function AlignedUserMarks(mem: Tables, ttbr0: u64, startAddr: int, len: int): Option<Marks>
  {
    WalkMarks(mem, L0Table(ttbr0), FirstPage(startAddr), EndPage(startAddr, len), map[], true)
  }

  /** One iteration of a walk that completes: the rest of the walk starts after the visit. */
  lemma WalkMarksStep(mem: Tables, l0: int, addr: int, end: int, m: Marks, v: Visit, next: int, aligned: bool)
    requires addr < end && VisitAt(mem, l0, addr) == Some(v) && next == NextAddr(addr, v, aligned)
    requires WalkMarks(mem, l0, addr, end, m, aligned).Some?
    ensures WalkMarks(mem, l0, next, end, AddMark(m, v), aligned) == WalkMarks(mem, l0, addr, end, m, aligned)
  {
  }

  /** A descriptor after the rewrites `m`: rewritten once by its mark, if it has one. */
  function Marked(m: Marks, a: int, d: Desc): Desc
  {
    if a in m then Update(m[a], d) else d
  }

  /** `mem` is `mem0` with every marked descriptor rewritten by its mark and nothing else changed. */
  predicate RewrittenBy(mem0: Tables, m: Marks, mem: Tables)
  {
    mem.Keys == mem0.Keys && forall a :: a in mem0 ==> mem[a] == Marked(m, a, mem0[a])
  }

  // ---------------------------------------------------------------------
  // make_user_accessible

  /**
   * `make_user_accessible(start_addr, len)` over the tables `mem0`, with TTBR0_EL1 given
   * as `ttbr0`: rewrite, in place, every descriptor the walk finds.
   */
  method MakeUserAccessible(mem0: Tables, ttbr0: u64, startAddr: u64, len: u64) returns (mem: Tables)
    requires startAddr + len + PAGE_SIZE - 1 < U64_LIMIT
    requires UserMarks(mem0, ttbr0, startAddr, len).Some?
    ensures RewrittenBy(mem0, UserMarks(mem0, ttbr0, startAddr, len).value, mem)
  {
    mem := RewriteRange(mem0, L0Table(ttbr0), FirstPage(startAddr), EndPage(startAddr, len), false);
  }

  /** The corrected `make_user_accessible`: after a block the walk moves to the next block boundary. */
  method MakeUserAccessibleAligned(mem0: Tables, ttbr0: u64, startAddr: u64, len: u64) returns (mem: Tables)
    requires startAddr + len + PAGE_SIZE - 1 < U64_LIMIT
    requires AlignedUserMarks(mem0, ttbr0, startAddr, len).Some?
    ensures RewrittenBy(mem0, AlignedUserMarks(mem0, ttbr0, startAddr, len).value, mem)
  {
    mem := RewriteRange(mem0, L0Table(ttbr0), FirstPage(startAddr), EndPage(startAddr, len), true);
  }

  /** The `while addr < end` loop: one visit and at most one descriptor write per iteration. */
  method RewriteRange(mem0: Tables, l0: int, first: int, end: int, aligned: bool) returns (mem: Tables)
    requires WalkMarks(mem0, l0, first, end, map[], aligned).Some?
    ensures RewrittenBy(mem0, WalkMarks(mem0, l0, first, end, map[], aligned).value, mem)
  {
    var addr := first;
    mem := mem0;
    ghost var m: Marks := map[];
    while addr < end
      invariant RewrittenBy(mem0, m, mem)
      invariant WalkMarks(mem0, l0, addr, end, m, aligned) == WalkMarks(mem0, l0, first, end, map[], aligned)
      decreases end - addr
    {
      RewrittenKeepsWalkBits(mem0, m, mem);
      WalkSameWalkBits(mem0, mem, l0, Indices(addr), 0);
      var v := ReadDescriptors(mem, l0, addr);
      var next := NextAddr(addr, v, aligned);
      WalkMarksStep(mem0, l0, addr, end, m, v, next, aligned);
      mem := RewriteDescriptor(mem0, m, mem, v);
      m := AddMark(m, v);
      addr := next;
    }
  }

  /**
   * The reads of one iteration of `make_user_accessible`: the L0..L3 descriptors down
   * to the first invalid one, a block, or the page.
   */
  method ReadDescriptors(mem: Tables, l0: int, addr: int) returns (v: Visit)
    requires VisitAt(mem, l0, addr).Some?
    ensures Some(v) == VisitAt(mem, l0, addr)
    ensures !v.Skip? ==> v.at in mem
  {
    var idx := Indices(addr);
    var l0Entry := mem[l0 + 8 * idx[0]];
    if l0Entry.lo & VALID == 0 {
      return Skip;
    }
    var l1Table := NextTable(l0Entry);
    assert VisitAt(mem, l0, addr) == WalkFrom(mem, l1Table, idx, 1);
    var l1Entry := mem[l1Table + 8 * idx[1]];
    if l1Entry.lo & VALID == 0 {
      return Skip;
    }
    if l1Entry.lo & TABLE == 0 {
      return L1Block(l1Table + 8 * idx[1]);
    }
    var l2Table := NextTable(l1Entry);
    assert VisitAt(mem, l0, addr) == WalkFrom(mem, l2Table, idx, 2);
    var l2Entry := mem[l2Table + 8 * idx[2]];
    if l2Entry.lo & VALID == 0 {
      return Skip;
    }
    if l2Entry.lo & TABLE == 0 {
      return L2Block(l2Table + 8 * idx[2]);
    }
    var l3Table := NextTable(l2Entry);
    assert VisitAt(mem, l0, addr) == WalkFrom(mem, l3Table, idx, 3);
    var l3Entry := mem[l3Table + 8 * idx[3]];
    if l3Entry.lo & VALID == 0 {
      return Skip;
    }
    v := L3Page(l3Table + 8 * idx[3]);
  }

  /**
   * The write of one iteration: the descriptor found is replaced by its rewrite. On
   * tables that hold the rewrites `m`, the result holds `m` plus this one.
   */
  method RewriteDescriptor(ghost mem0: Tables, ghost m: Marks, mem: Tables, v: Visit) returns (mem': Tables)
    requires RewrittenBy(mem0, m, mem)
    requires !v.Skip? ==> v.at in mem
    ensures RewrittenBy(mem0, AddMark(m, v), mem')
  {
    mem' := mem;
    if !v.Skip? {
      mem' := mem[v.at := Update(UpdOf(v), mem[v.at])];
      if v.at in m {
        UpdateCompose(m[v.at], UpdOf(v), mem0[v.at]);
      }
      assert mem'[v.at] == Marked(AddMark(m, v), v.at, mem0[v.at]);
    }
  }

  // ---------------------------------------------------------------------
  // The rewrites never change the walk

  /** Every descriptor of `mem` agrees with the one in `mem0` on VALID, TABLE and the output address. */
  predicate SameWalkBits(mem0: Tables, mem: Tables)
  {
    mem.Keys == mem0.Keys &&
    forall a :: a in mem0 ==> mem[a].lo & (VALID | TABLE) == mem0[a].lo & (VALID | TABLE) && mem[a].oa == mem0[a].oa
  }

  /** Tables that hold rewrites steer the walk like the tables before them. */
  lemma RewrittenKeepsWalkBits(mem0: Tables, m: Marks, mem: Tables)
    requires RewrittenBy(mem0, m, mem)
    ensures SameWalkBits(mem0, mem)
  {
    forall a | a in mem0 && a in m
      ensures mem[a].lo & (VALID | TABLE) == mem0[a].lo & (VALID | TABLE) && mem[a].oa == mem0[a].oa
    {
      UpdateKeepsWalkBits(m[a], mem0[a]);
    }
  }

  /** Equal VALID|TABLE bits give equal VALID and TABLE tests. */
  lemma WalkBitsDecide(x: bv12, y: bv12)
    requires x & (VALID | TABLE) == y & (VALID | TABLE)
    ensures x & VALID == y & VALID && x & TABLE == y & TABLE
  {
  }

  /** What an iteration finds depends only on the walk bits: the rewrites never change the path. */
  lemma {:induction false} WalkSameWalkBits(mem0: Tables, mem: Tables, t: int, idx: seq<int>, level: nat)
    requires SameWalkBits(mem0, mem) && level <= 3 && |idx| == 4
    ensures WalkFrom(mem, t, idx, level) == WalkFrom(mem0, t, idx, level)
    decreases 3 - level
  {
    var a := t + 8 * idx[level];
    if a in mem0 {
      WalkBitsDecide(mem[a].lo, mem0[a].lo);
      if level < 3 {
        WalkSameWalkBits(mem0, mem, NextTable(mem0[a]), idx, level + 1);
      }
    }
  }

  /** The walk over tables with the same walk bits finds the same descriptors and makes the same rewrites. */
  lemma {:induction false} WalkMarksSameWalkBits(mem0: Tables, mem: Tables, l0: int, addr: int, end: int, m: Marks, aligned: bool)
    requires SameWalkBits(mem0, mem)
    ensures WalkMarks(mem, l0, addr, end, m, aligned) == WalkMarks(mem0, l0, addr, end, m, aligned)
    decreases end - addr
  {
    if addr < end {
      WalkSameWalkBits(mem0, mem, l0, Indices(addr), 0);
      var r := VisitAt(mem0, l0, addr);
      if r.Some? {
        var next := NextAddr(addr, r.value, aligned);
        if next < U64_LIMIT {
          WalkMarksSameWalkBits(mem0, mem, l0, next, end, AddMark(m, r.value), aligned);
        }
      }
    }
  }

  /** Applying the same rewrites to tables that already hold them changes nothing. */
  lemma RewriteIdempotent(mem0: Tables, m: Marks, mem1: Tables, mem2: Tables)
    requires RewrittenBy(mem0, m, mem1) && RewrittenBy(mem1, m, mem2)
    ensures mem2 == mem1
  {
    forall a | a in mem1
      ensures mem2[a] == mem1[a]
    {
      if a in m {
        UpdateCompose(m[a], m[a], mem0[a]);
      }
    }
  }

  /**
   * Calling `make_user_accessible` twice on the same range: the second walk finds the
   * same descriptors as the first, and its rewrites leave the tables as the first left them.
   */
  lemma AccessibleTwice(mem0: Tables, ttbr0: u64, startAddr: u64, len: u64, mem1: Tables, mem2: Tables)
    requires UserMarks(mem0, ttbr0, startAddr, len).Some?
    requires RewrittenBy(mem0, UserMarks(mem0, ttbr0, startAddr, len).value, mem1)
    ensures UserMarks(mem1, ttbr0, startAddr, len) == UserMarks(mem0, ttbr0, startAddr, len)
    ensures RewrittenBy(mem1, UserMarks(mem1, ttbr0, startAddr, len).value, mem2) ==> mem2 == mem1
  {
    var m := UserMarks(mem0, ttbr0, startAddr, len).value;
    RewrittenKeepsWalkBits(mem0, m, mem1);
    WalkMarksSameWalkBits(mem0, mem1, L0Table(ttbr0), FirstPage(startAddr), EndPage(startAddr, len), map[], false);
    if RewrittenBy(mem1, m, mem2) {
      RewriteIdempotent(mem0, m, mem1, mem2);
    }
  }

  /**
   * A rewritten descriptor grants EL0 access: a page ends with AP = 01, UXN clear and
   * AF set; a block ends with AP[6] and AF set. Unmarked descriptors are unchanged.
   */
  lemma RewrittenGrantsAccess(mem0: Tables, m: Marks, mem: Tables, a: int)
    requires RewrittenBy(mem0, m, mem) && a in mem0
    ensures a in m && m[a] == Pg ==>
              mem[a].lo & AP_MASK == AP_RW_EL1_RW_EL0 && mem[a].lo & AF == AF && mem[a].hi & UXN == 0
    ensures a in m && m[a] == Blk ==> mem[a].lo & (AP_RW_EL1_RW_EL0 | AF) == AP_RW_EL1_RW_EL0 | AF
    ensures a !in m ==> mem[a] == mem0[a]
  {
    if a in m {
      if m[a] == Pg {
        assert mem[a] == PageUpdate(mem0[a]);
      } else {
        assert mem[a] == BlockUpdate(mem0[a]);
      }
    }
  }

  // ---------------------------------------------------------------------
  // What the walk rewrites

  /** `v` is recorded in `m`: found descriptors are marked, pages with the page rewrite. */
  predicate Covered(m: Marks, v: Visit)
  {
    !v.Skip? ==> v.at in m && (v.L3Page? ==> m[v.at] == Pg)
  }

  /** `m2` keeps every mark of `m1`, and every page mark. */
  predicate Extends(m1: Marks, m2: Marks)
  {
    forall a :: a in m1 ==> a in m2 && (m1[a] == Pg ==> m2[a] == Pg)
  }

  /** The walk only adds marks. */
  lemma {:induction false} WalkMarksExtends(mem: Tables, l0: int, addr: int, end: int, m: Marks, aligned: bool)
    requires WalkMarks(mem, l0, addr, end, m, aligned).Some?
    ensures Extends(m, WalkMarks(mem, l0, addr, end, m, aligned).value)
    decreases end - addr
  {
    if addr < end {
      var v := VisitAt(mem, l0, addr).value;
      WalkMarksExtends(mem, l0, NextAddr(addr, v, aligned), end, AddMark(m, v), aligned);
    }
  }

  /**
   * Only the descriptors the walk finds are written: every new mark is the descriptor
   * some address of `[addr, end)` leads to, with the page rewrite only for an L3 page.
   */
  lemma {:induction false} MarksAreVisited(mem: Tables, l0: int, addr: int, end: int, m: Marks, aligned: bool, a: int)
    requires WalkMarks(mem, l0, addr, end, m, aligned).Some?
    requires a in WalkMarks(mem, l0, addr, end, m, aligned).value && a !in m
    ensures exists x :: addr <= x < end && VisitAt(mem, l0, x).Some? && !VisitAt(mem, l0, x).value.Skip?
                        && VisitAt(mem, l0, x).value.at == a
    decreases end - addr
  {
    var v := VisitAt(mem, l0, addr).value;
    var next := NextAddr(addr, v, aligned);
    if a in AddMark(m, v) {
      assert VisitAt(mem, l0, addr).value.at == a;
    } else {
      MarksAreVisited(mem, l0, next, end, AddMark(m, v), aligned, a);
    }
  }

  // ---------------------------------------------------------------------
  // Coverage: every address of the range reaches a rewritten descriptor

  /** How many table indices a visit depends on: L0..L1 for an L1 block, L0..L2 for an L2 block, all four otherwise. */
  function Depth(v: Visit): nat
  {
    match v
    case L1Block(_) => 2
    case L2Block(_) => 3
    case _ => 4
  }

  /** The walk only reads the indices its result depends on. */
  lemma {:induction false} WalkPrefix(mem: Tables, t: int, idx: seq<int>, idx2: seq<int>, level: nat)
    requires level <= 3 && |idx| == 4 && |idx2| == 4
    requires WalkFrom(mem, t, idx, level).Some?
    requires forall k :: level <= k < Depth(WalkFrom(mem, t, idx, level).value) ==> idx[k] == idx2[k]
    ensures WalkFrom(mem, t, idx2, level) == WalkFrom(mem, t, idx, level)
    decreases 3 - level
  {
    var a := t + 8 * idx[level];
    if a in mem && mem[a].lo & VALID != 0 && level < 3 && !(level > 0 && mem[a].lo & TABLE == 0) {
      WalkPrefix(mem, NextTable(mem[a]), idx, idx2, level + 1);
    }
  }

  /** The size of the region a visit covers: the block it found, or one page. */
  function Unit(v: Visit): nat
  {
    match v
    case L1Block(_) => L1_BLOCK
    case L2Block(_) => L2_BLOCK
    case _ => PAGE_SIZE
  }

  /** Addresses in the same page share all four indices; in the same 2 MB or 1 GB region, the leading ones. */
  lemma SameUnitIndices(x: int, y: int, v: Visit)
    requires 0 <= x && 0 <= y && x / Unit(v) == y / Unit(v)
    ensures forall k :: 0 <= k < Depth(v) ==> Indices(x)[k] == Indices(y)[k]
  {
    if Unit(v) == PAGE_SIZE {
      DivDiv(x, 0x1000, 512);
      DivDiv(y, 0x1000, 512);
    }
    if Unit(v) != L1_BLOCK {
      DivDiv(x, 0x20_0000, 512);
      DivDiv(y, 0x20_0000, 512);
    }
    DivDiv(x, 0x4000_0000, 512);
    DivDiv(y, 0x4000_0000, 512);
  }

  /** Every address between `addr` and the corrected next address finds what `addr` found. */
  lemma SameVisit(mem: Tables, l0: int, addr: int, x: int, v: Visit)
    requires 0 <= addr <= x < NextAddr(addr, v, true)
    requires VisitAt(mem, l0, addr) == Some(v)
    ensures VisitAt(mem, l0, x) == Some(v)
  {
    var u := Unit(v);
    var q := addr / u;
    DivUnique(x, u, q, x - q * u);
    SameUnitIndices(x, addr, v);
    WalkPrefix(mem, l0, Indices(addr), Indices(x), 0);
  }

  /**
   * The corrected walk covers the range: every address of `[addr, end)` leads to a
   * descriptor the walk marks, an L3 page with the page rewrite.
   */
  lemma {:induction false} AlignedWalkCovers(mem: Tables, l0: int, addr: int, end: int, m: Marks, x: int)
    requires 0 <= addr <= x < end
    requires WalkMarks(mem, l0, addr, end, m, true).Some?
    ensures VisitAt(mem, l0, x).Some?
    ensures Covered(WalkMarks(mem, l0, addr, end, m, true).value, VisitAt(mem, l0, x).value)
    decreases end - addr
  {
    var v := VisitAt(mem, l0, addr).value;
    var next := NextAddr(addr, v, true);
    if x < next {
      SameVisit(mem, l0, addr, x, v);
      WalkMarksExtends(mem, l0, next, end, AddMark(m, v), true);
    } else {
      AlignedWalkCovers(mem, l0, next, end, AddMark(m, v), x);
    }
  }

  /**
   * After the corrected walk, every address of `[start_addr, start_addr + len)` still
   * translates through the same descriptors, and the one that maps it grants EL0 access.
   */
  lemma AlignedRangeAccessible(mem0: Tables, ttbr0: u64, startAddr: u64, len: u64, mem: Tables, x: int)
    requires AlignedUserMarks(mem0, ttbr0, startAddr, len).Some?
    requires RewrittenBy(mem0, AlignedUserMarks(mem0, ttbr0, startAddr, len).value, mem)
    requires startAddr <= x < startAddr + len
    ensures VisitAt(mem, L0Table(ttbr0), x) == VisitAt(mem0, L0Table(ttbr0), x)
    ensures VisitAt(mem0, L0Table(ttbr0), x).Some?
    ensures var v := VisitAt(mem0, L0Table(ttbr0), x).value;
            && (v.L3Page? ==> mem[v.at].lo & AP_MASK == AP_RW_EL1_RW_EL0 && mem[v.at].lo & AF == AF && mem[v.at].hi & UXN == 0)
            && (v.L1Block? || v.L2Block? ==> mem[v.at].lo & (AP_RW_EL1_RW_EL0 | AF) == AP_RW_EL1_RW_EL0 | AF)
  {
    var l0 := L0Table(ttbr0);
    var m := AlignedUserMarks(mem0, ttbr0, startAddr, len).value;
    PageRounding(startAddr, len);
    AlignedWalkCovers(mem0, l0, FirstPage(startAddr), EndPage(startAddr, len), map[], x);
    RewrittenKeepsWalkBits(mem0, m, mem);
    WalkSameWalkBits(mem0, mem, l0, Indices(x), 0);
    var v := VisitAt(mem0, l0, x).value;
    if !v.Skip? {
      RewrittenGrantsAccess(mem0, m, mem, v.at);
    }
  }

  // ---------------------------------------------------------------------
  // The block advance as written

  /**
   * Tables with an L0 table at 0x1000 whose first entry points to an L1 table at 0x2000,
   * where the first two entries are 1 GB blocks (for 0..1G and 1G..2G).
   */
  const TwoBlocks: Tables := map[0x1000 := Desc(3, 2, 0), 0x2000 := Desc(1, 0, 0), 0x2008 := Desc(1, 0x40000, 0)]

  /**
   * As written, a walk that starts in the middle of a 1 GB block advances by 1 GB from
   * `addr` and skips the next block: for the range 0x2000_0000..0x4000_1000 only the
   * block at 0x2000 is rewritten, although 0x4000_0000 lies in the range and is mapped
   * by the block at 0x2008.
   */
  lemma AsWrittenSkipsBlock()
    ensures UserMarks(TwoBlocks, 0x1000, 0x2000_0000, 0x2000_1000) == Some(map[0x2000 := Blk])
    ensures 0x2000_0000 <= 0x4000_0000 < 0x2000_0000 + 0x2000_1000
    ensures VisitAt(TwoBlocks, 0x1000, 0x4000_0000) == Some(L1Block(0x2008))
  {
    FirstBlockVisit();
    SecondBlockVisit();
    assert WalkMarks(TwoBlocks, 0x1000, 0x6000_0000, 0x4000_1000, map[0x2000 := Blk], false) == Some(map[0x2000 := Blk]);
  }

  /** The range's first page lies in the block at 0x2000, which ends at 0x4000_0000. */
  lemma FirstBlockVisit()
    ensures L0Table(0x1000) == 0x1000 && FirstPage(0x2000_0000) == 0x2000_0000
    ensures EndPage(0x2000_0000, 0x2000_1000) == 0x4000_1000
    ensures VisitAt(TwoBlocks, 0x1000, 0x2000_0000) == Some(L1Block(0x2000))
    ensures NextAddr(0x2000_0000, L1Block(0x2000), true) == 0x4000_0000
  {
    assert Indices(0x2000_0000) == [0, 0, 256, 0];
    assert WalkFrom(TwoBlocks, 0x1000, [0, 0, 256, 0], 0) == WalkFrom(TwoBlocks, 0x2000, [0, 0, 256, 0], 1);
  }

  /** The range's last page lies in the block at 0x2008. */
  lemma SecondBlockVisit()
    ensures VisitAt(TwoBlocks, 0x1000, 0x4000_0000) == Some(L1Block(0x2008))
    ensures NextAddr(0x4000_0000, L1Block(0x2008), true) == 0x8000_0000
  {
    assert Indices(0x4000_0000) == [0, 1, 0, 0];
    assert WalkFrom(TwoBlocks, 0x1000, [0, 1, 0, 0], 0) == WalkFrom(TwoBlocks, 0x2000, [0, 1, 0, 0], 1);
  }

  /** The corrected walk rewrites both blocks for the same range. */
  lemma AlignedCoversBlock()
    ensures AlignedUserMarks(TwoBlocks, 0x1000, 0x2000_0000, 0x2000_1000) == Some(map[0x2000 := Blk, 0x2008 := Blk])
  {
    FirstBlockVisit();
    SecondBlockVisit();
    assert WalkMarks(TwoBlocks, 0x1000, 0x8000_0000, 0x4000_1000, map[0x2000 := Blk, 0x2008 := Blk], true)
        == Some(map[0x2000 := Blk, 0x2008 := Blk]);
    assert WalkMarks(TwoBlocks, 0x1000, 0x4000_0000, 0x4000_1000, map[0x2000 := Blk], true)
        == Some(map[0x2000 := Blk, 0x2008 := Blk]);
  }
}

// The ELF64 loader of `execve`: header validation, the program-header walk,
// and the copy of every PT_LOAD segment (file bytes, then zero-filled BSS)
// into byte-addressed memory. Field offsets are those of the System V gABI,
// chapter 4 (ELF Header) and chapter 5 (Program Header).

module Elf {
  import opened Words

  /** size_of::<Elf64Header>() and size_of::<Elf64Phdr>(). */
  const EHDR_SIZE: nat := 64
  const PHDR_SIZE: nat := 56

  const PT_LOAD: nat := 1
  const PT_INTERP: nat := 3

  /** The header fields the loader reads. */
  datatype Header = Header(entry: nat, phoff: nat, phentsize: nat, phnum: nat)

  /** The program-header fields the loader reads. */
  datatype Phdr = Phdr(ptype: nat, offset: nat, vaddr: nat, filesz: nat, memsz: nat)

  datatype LoadedSegment = LoadedSegment(vaddr: nat, size: nat)

  datatype LoadedElf = LoadedElf(entryPoint: nat, segments: seq<LoadedSegment>)

  /**
   * Why a load stops. The first four are the `Err` strings of `load_elf`;
   * `SlicePanic` is the panic of the unchecked slice `data[p_offset..p_offset + p_filesz]`.
   */
  datatype LoadError = TooSmall | BadMagic | NotElf64 | PhdrOutOfBounds | SlicePanic

  /** What the loader asks of the rest of the kernel, in order. */
  datatype Event =
    | MapUser(addr: nat, len: nat)   // make_user_accessible(addr, len)
    | Store(addr: nat, len: nat)     // a copy or zero fill of len bytes at addr

  /** Everything a load leaves behind: its result, the memory, the requests made. */
  datatype Outcome = Outcome(result: Result<LoadedElf, LoadError>, mem: map<int, u8>, events: seq<Event>)

  /** The part of the state that grows while the program headers are walked. */
  datatype Progress = Progress(mem: map<int, u8>, events: seq<Event>, segments: seq<LoadedSegment>)

  predicate HasMagic(data: seq<u8>)
    requires |data| >= EHDR_SIZE
  {
    data[0] == 0x7F && data[1] == 0x45 && data[2] == 0x4C && data[3] == 0x46
  }

  /** The checks made before any program header is read. */
  predicate HeaderAccepted(data: seq<u8>)
  {
    |data| >= EHDR_SIZE && HasMagic(data) && data[4] == 2
  }

  /**
   * `core::ptr::read` of the 64-byte `#[repr(C)]` header: `e_entry` and `e_phoff` are
   * the u64s at bytes 24 and 32, `e_phentsize` and `e_phnum` the u16s at bytes 54 and 56.
   */
  function ParseHeader(data: seq<u8>): (h: Header)
    requires |data| >= EHDR_SIZE
    ensures h.entry == LittleEndian(data[24..32]) && h.phoff == LittleEndian(data[32..40])
    ensures h.phentsize == LittleEndian(data[54..56]) && h.phnum == LittleEndian(data[56..58])
    ensures h.entry < U64_LIMIT && h.phoff < U64_LIMIT && h.phentsize < 0x1_0000 && h.phnum < 0x1_0000
  {
    Header(U64At(data, 24), U64At(data, 32), U16At(data, 54), U16At(data, 56))
  }

  /** Byte offset of program header `i`: `e_phoff` plus `i` entries of `e_phentsize` bytes. */
  function PhdrOffset(h: Header, i: nat): nat
  {
    if i == 0 then h.phoff else PhdrOffset(h, i - 1) + h.phentsize
  }

  lemma {:induction false} PhdrOffsetIsProduct(h: Header, i: nat)
    ensures PhdrOffset(h, i) == h.phoff + i * h.phentsize
  {
    if i > 0 {
      PhdrOffsetIsProduct(h, i - 1);
    }
  }

  /**
   * `core::ptr::read` of the 56-byte `#[repr(C)]` program header at `off`: `p_type` is
   * the u32 at byte 0, `p_offset`, `p_vaddr`, `p_filesz` and `p_memsz` the u64s at
   * bytes 8, 16, 32 and 40 (`p_flags`, `p_paddr` and `p_align` are not read).
   */
  function ParsePhdr(data: seq<u8>, off: nat): (ph: Phdr)
    requires off + PHDR_SIZE <= |data|
    ensures ph.ptype == LittleEndian(data[off..off + 4]) && ph.offset == LittleEndian(data[off + 8..off + 16])
    ensures ph.vaddr == LittleEndian(data[off + 16..off + 24])
    ensures ph.filesz == LittleEndian(data[off + 32..off + 40]) && ph.memsz == LittleEndian(data[off + 40..off + 48])
    ensures ph.ptype < 0x1_0000_0000 && ph.offset < U64_LIMIT && ph.vaddr < U64_LIMIT
    ensures ph.filesz < U64_LIMIT && ph.memsz < U64_LIMIT
  {
    Phdr(U32At(data, off), U64At(data, off + 8), U64At(data, off + 16), U64At(data, off + 32), U64At(data, off + 40))
  }

  /** A PT_LOAD whose file bytes lie inside the image (the slice does not panic). */
  predicate InFile(data: seq<u8>, ph: Phdr)
  {
    ph.offset + ph.filesz <= |data|
  }

  /** The requests one PT_LOAD makes: map the region, copy the file bytes, zero the BSS. */
  function SegmentEvents(ph: Phdr): seq<Event>
  {
    [MapUser(ph.vaddr, ph.memsz), Store(ph.vaddr, ph.filesz)]
      + (if ph.memsz > ph.filesz then [Store(ph.vaddr + ph.filesz, ph.memsz - ph.filesz)] else [])
  }

  /** Memory after one PT_LOAD is copied and its BSS zeroed. */
  function SegmentMemory(data: seq<u8>, ph: Phdr, mem: map<int, u8>): map<int, u8>
    requires InFile(data, ph)
  {
    var copied := StoreBytes(mem, ph.vaddr, data[ph.offset..ph.offset + ph.filesz]);
    if ph.memsz > ph.filesz then StoreBytes(copied, ph.vaddr + ph.filesz, Zeros(ph.memsz - ph.filesz))
    else copied
  }

  /** Program header `i` as the loop reads it, or `None` when it runs past the image. */
  function PhdrAt(data: seq<u8>, h: Header, i: nat): Option<Phdr>
  {
    var off := PhdrOffset(h, i);
    if off + PHDR_SIZE <= |data| then Some(ParsePhdr(data, off)) else None
  }

  /** The `e_phnum` program headers, decoded once, for the walk to run over. */
  function PhdrTable(data: seq<u8>, h: Header): (t: seq<Option<Phdr>>)
    ensures |t| == h.phnum
    ensures forall i :: 0 <= i < h.phnum ==> t[i] == PhdrAt(data, h, i)
    ensures forall i :: 0 <= i < h.phnum ==> (t[i].Some? <==> h.phoff + i * h.phentsize + PHDR_SIZE <= |data|)
    ensures forall i :: 0 <= i < h.phnum && t[i].Some? ==> t[i].value == ParsePhdr(data, h.phoff + i * h.phentsize)
  {
    PhdrOffsets(h);
    seq(h.phnum, i requires 0 <= i => PhdrAt(data, h, i))
  }

  /** Every program-header offset in closed form. */
  lemma PhdrOffsets(h: Header)
    ensures forall i: nat :: PhdrOffset(h, i) == h.phoff + i * h.phentsize
  {
    forall i: nat
      ensures PhdrOffset(h, i) == h.phoff + i * h.phentsize
    {
      PhdrOffsetIsProduct(h, i);
    }
  }

  /** The program-header table of an image whose header is at least 64 bytes long. */
  function Phdrs(data: seq<u8>): seq<Option<Phdr>>
    requires |data| >= EHDR_SIZE
  {
    PhdrTable(data, ParseHeader(data))
  }

  /** One PT_LOAD: the memory it writes, the requests it makes, the segment it records. */
  function LoadSegment(data: seq<u8>, ph: Phdr, p: Progress): Progress
    requires InFile(data, ph)
  {
    Progress(SegmentMemory(data, ph, p.mem), p.events + SegmentEvents(ph),
             p.segments + [LoadedSegment(ph.vaddr, ph.memsz)])
  }

  /** The segment a program header records: one for a PT_LOAD, none for any other type. */
  function SegmentOf(ph: Phdr): seq<LoadedSegment>
  {
    if ph.ptype == PT_LOAD then [LoadedSegment(ph.vaddr, ph.memsz)] else []
  }

  /** The requests a program header makes: those of `SegmentEvents` for a PT_LOAD, none otherwise. */
  function EventsOf(ph: Phdr): seq<Event>
  {
    if ph.ptype == PT_LOAD then SegmentEvents(ph) else []
  }

  /** A program header the walk gets past: any type but PT_LOAD, or a PT_LOAD inside the file. */
  predicate Passes(data: seq<u8>, ph: Phdr)
  {
    ph.ptype == PT_LOAD ==> InFile(data, ph)
  }

  /** The progress after one program header that passes: a PT_LOAD is loaded, others are skipped. */
  function Step(data: seq<u8>, ph: Phdr, p: Progress): (q: Progress)
    requires Passes(data, ph)
    ensures q.segments == p.segments + SegmentOf(ph)
    ensures q.events == p.events + EventsOf(ph)
  {
    if ph.ptype == PT_LOAD then LoadSegment(data, ph, p) else p
  }

  /**
   * The program-header walk from header `i` on, as the loop of `load_elf` performs it,
   * over the table `tbl` of the image `data` whose entry point is `entry`.
   */
  function WalkFrom(data: seq<u8>, tbl: seq<Option<Phdr>>, entry: nat, i: nat, p: Progress): Outcome
    decreases |tbl| - i
  {
    if i >= |tbl| then Outcome(Ok(LoadedElf(entry, p.segments)), p.mem, p.events)
    else if tbl[i].None? then Outcome(Err(PhdrOutOfBounds), p.mem, p.events)
    else
      var ph := tbl[i].value;
      if !Passes(data, ph) then Outcome(Err(SlicePanic), p.mem, p.events + [MapUser(ph.vaddr, ph.memsz)])
      else WalkFrom(data, tbl, entry, i + 1, Step(data, ph, p))
  }

  /** What `load_elf(data)` does to memory `mem`. */
  function LoadSpec(data: seq<u8>, mem: map<int, u8>): Outcome
  {
    if |data| < EHDR_SIZE then Outcome(Err(TooSmall), mem, [])
    else if !HasMagic(data) then Outcome(Err(BadMagic), mem, [])
    else if data[4] != 2 then Outcome(Err(NotElf64), mem, [])
    else WalkFrom(data, Phdrs(data), ParseHeader(data).entry, 0, Progress(mem, [], []))
  }

  /**
   * Lines 104-118 of `load_elf`: copy `p_filesz` file bytes to `p_vaddr`, then zero
   * the BSS when `p_memsz > p_filesz`; `stored` lists the two stores in order.
   */
  method CopySegment(data: seq<u8>, ph: Phdr, mem0: map<int, u8>) returns (mem: map<int, u8>, stored: seq<Event>)
    requires InFile(data, ph)
    ensures mem == SegmentMemory(data, ph, mem0)
    ensures [MapUser(ph.vaddr, ph.memsz)] + stored == SegmentEvents(ph)
  {
    mem := StoreBytes(mem0, ph.vaddr, data[ph.offset..ph.offset + ph.filesz]);
    stored := [Store(ph.vaddr, ph.filesz)];
    if ph.memsz > ph.filesz {
      mem := StoreBytes(mem, ph.vaddr + ph.filesz, Zeros(ph.memsz - ph.filesz));
      stored := stored + [Store(ph.vaddr + ph.filesz, ph.memsz - ph.filesz)];
    }
  }

  /** `load_elf`: validate the header, then walk the program headers and load every PT_LOAD. */
  method LoadElf(data: seq<u8>, mem0: map<int, u8>)
    returns (r: Result<LoadedElf, LoadError>, mem: map<int, u8>, events: seq<Event>)
    ensures Outcome(r, mem, events) == LoadSpec(data, mem0)
  {
    mem, events := mem0, [];
    if |data| < EHDR_SIZE {
      return Err(TooSmall), mem, events;
    }
    if !(data[0] == 0x7F && data[1] == 0x45 && data[2] == 0x4C && data[3] == 0x46) {
      return Err(BadMagic), mem, events;
    }
    if data[4] != 2 {
      return Err(NotElf64), mem, events;
    }
    r, mem, events := WalkProgramHeaders(data, ParseHeader(data), mem0);
  }

  /** Lines 85-92 of `load_elf`: locate program header `i` and read it if it lies in the image. */
  method ReadPhdr(data: seq<u8>, h: Header, i: nat) returns (ph: Option<Phdr>)
    ensures ph == PhdrAt(data, h, i)
  {
    var off := h.phoff + i * h.phentsize;
    PhdrOffsetIsProduct(h, i);
    if off + PHDR_SIZE > |data| {
      return None;
    }
    return Some(ParsePhdr(data, off));
  }

  /**
   * Lines 95-125 of `load_elf`, for one program header: a PT_LOAD is mapped, then
   * copied if its file bytes lie in the image (`ok`), other types are skipped.
   */
  method VisitPhdr(data: seq<u8>, ph: Phdr, mem0: map<int, u8>, events0: seq<Event>, segments0: seq<LoadedSegment>)
    returns (ok: bool, mem: map<int, u8>, events: seq<Event>, segments: seq<LoadedSegment>)
    ensures ok == Passes(data, ph)
    ensures ok ==> Progress(mem, events, segments) == Step(data, ph, Progress(mem0, events0, segments0))
    ensures !ok ==> mem == mem0 && events == events0 + [MapUser(ph.vaddr, ph.memsz)]
  {
    mem, events, segments := mem0, events0, segments0;
    if ph.ptype == PT_LOAD {
      events := events + [MapUser(ph.vaddr, ph.memsz)];
      if ph.offset + ph.filesz > |data| {
        return false, mem, events, segments;
      }
      var stored;
      mem, stored := CopySegment(data, ph, mem);
      events := events + stored;
      segments := segments + [LoadedSegment(ph.vaddr, ph.memsz)];
    }
    ok := true;
  }

  /** The `for i in 0..e_phnum` loop of `load_elf`. */
  method WalkProgramHeaders(data: seq<u8>, h: Header, mem0: map<int, u8>)
    returns (r: Result<LoadedElf, LoadError>, mem: map<int, u8>, events: seq<Event>)
    ensures Outcome(r, mem, events) == WalkFrom(data, PhdrTable(data, h), h.entry, 0, Progress(mem0, [], []))
  {
    ghost var tbl := PhdrTable(data, h);
    mem, events := mem0, [];
    var segments: seq<LoadedSegment> := [];
    var i: nat := 0;
    while i < h.phnum
      invariant i <= h.phnum
      invariant WalkFrom(data, tbl, h.entry, i, Progress(mem, events, segments))
                == WalkFrom(data, tbl, h.entry, 0, Progress(mem0, [], []))
    {
      var entry := ReadPhdr(data, h, i);
      if entry.None? {
        return Err(PhdrOutOfBounds), mem, events;
      }
      var ok;
      ok, mem, events, segments := VisitPhdr(data, entry.value, mem, events, segments);
      if !ok {
        return Err(SlicePanic), mem, events;
      }
      i := i + 1;
    }
    r := Ok(LoadedElf(h.entry, segments));
  }

  // ---------------------------------------------------------------------
  // Properties of the specification

  /** Every program header from `i` on is in bounds and every PT_LOAD among them in the file. */
  predicate WalkSucceedsFrom(data: seq<u8>, tbl: seq<Option<Phdr>>, i: nat)
    decreases |tbl| - i
  {
    i >= |tbl| || (tbl[i].Some? && Passes(data, tbl[i].value) && WalkSucceedsFrom(data, tbl, i + 1))
  }

  /** The segments headers `i..e_phnum` describe: one `(p_vaddr, p_memsz)` per PT_LOAD, in order. */
  function SegmentsFrom(tbl: seq<Option<Phdr>>, i: nat): seq<LoadedSegment>
    requires forall j :: i <= j < |tbl| ==> tbl[j].Some?
    decreases |tbl| - i
  {
    if i >= |tbl| then [] else SegmentOf(tbl[i].value) + SegmentsFrom(tbl, i + 1)
  }

  /** The requests headers `i..e_phnum` make: `SegmentEvents` of each PT_LOAD, in order. */
  function EventsFrom(tbl: seq<Option<Phdr>>, i: nat): seq<Event>
    requires forall j :: i <= j < |tbl| ==> tbl[j].Some?
    decreases |tbl| - i
  {
    if i >= |tbl| then [] else EventsOf(tbl[i].value) + EventsFrom(tbl, i + 1)
  }

  /** A walk that succeeds from `i` reads a header at every later index. */
  lemma {:induction false} SucceedsAllPresent(data: seq<u8>, tbl: seq<Option<Phdr>>, i: nat)
    requires WalkSucceedsFrom(data, tbl, i)
    ensures forall j :: i <= j < |tbl| ==> tbl[j].Some? && Passes(data, tbl[j].value)
    decreases |tbl| - i
  {
    if i < |tbl| {
      SucceedsAllPresent(data, tbl, i + 1);
    }
  }

  /**
   * The walk succeeds exactly when every header is in bounds and every PT_LOAD in the
   * file; a failed walk fails only with one of the two walk errors.
   */
  lemma {:induction false} WalkOkIff(data: seq<u8>, tbl: seq<Option<Phdr>>, entry: nat, i: nat, p: Progress)
    ensures WalkFrom(data, tbl, entry, i, p).result.Ok? <==> WalkSucceedsFrom(data, tbl, i)
    ensures WalkFrom(data, tbl, entry, i, p).result.Err? ==>
              WalkFrom(data, tbl, entry, i, p).result.error in {PhdrOutOfBounds, SlicePanic}
    decreases |tbl| - i
  {
    if i < |tbl| && tbl[i].Some? && Passes(data, tbl[i].value) {
      WalkOkIff(data, tbl, entry, i + 1, Step(data, tbl[i].value, p));
    }
  }

  /**
   * A successful walk records one segment per PT_LOAD, in header order (other types,
   * PT_INTERP included, add nothing), and reports `e_entry` unchanged.
   */
  lemma {:induction false} WalkOkSegments(data: seq<u8>, tbl: seq<Option<Phdr>>, entry: nat, i: nat, p: Progress)
    requires WalkSucceedsFrom(data, tbl, i)
    requires forall j :: i <= j < |tbl| ==> tbl[j].Some?
    ensures WalkFrom(data, tbl, entry, i, p).result == Ok(LoadedElf(entry, p.segments + SegmentsFrom(tbl, i)))
    decreases |tbl| - i
  {
    if i < |tbl| {
      var ph := tbl[i].value;
      var q := Step(data, ph, p);
      WalkOkSegments(data, tbl, entry, i + 1, q);
      AppendAssoc(p.segments, SegmentOf(ph), SegmentsFrom(tbl, i + 1));
    } else {
      assert p.segments + SegmentsFrom(tbl, i) == p.segments;
    }
  }

  /**
   * A successful walk makes, for each PT_LOAD in header order, the request
   * `make_user_accessible(p_vaddr, p_memsz)` followed by that segment's stores.
   */
  lemma {:induction false} WalkOkEvents(data: seq<u8>, tbl: seq<Option<Phdr>>, entry: nat, i: nat, p: Progress)
    requires WalkSucceedsFrom(data, tbl, i)
    requires forall j :: i <= j < |tbl| ==> tbl[j].Some?
    ensures WalkFrom(data, tbl, entry, i, p).events == p.events + EventsFrom(tbl, i)
    decreases |tbl| - i
  {
    if i < |tbl| {
      var ph := tbl[i].value;
      var q := Step(data, ph, p);
      WalkOkEvents(data, tbl, entry, i + 1, q);
      AppendAssoc(p.events, EventsOf(ph), EventsFrom(tbl, i + 1));
    } else {
      assert p.events + EventsFrom(tbl, i) == p.events;
    }
  }

  /**
   * The header checks come first: a short image, a bad magic or a class other than 2
   * is rejected with its own error, before any mapping request or store; an image
   * that passes them never yields one of these three errors.
   */
  lemma HeaderChecksFirst(data: seq<u8>, mem: map<int, u8>)
    ensures |data| < EHDR_SIZE ==> LoadSpec(data, mem) == Outcome(Err(TooSmall), mem, [])
    ensures |data| >= EHDR_SIZE && !HasMagic(data) ==> LoadSpec(data, mem) == Outcome(Err(BadMagic), mem, [])
    ensures |data| >= EHDR_SIZE && HasMagic(data) && data[4] != 2 ==>
              LoadSpec(data, mem) == Outcome(Err(NotElf64), mem, [])
    ensures HeaderAccepted(data) <==> LoadSpec(data, mem).result !in {Err(TooSmall), Err(BadMagic), Err(NotElf64)}
  {
    if HeaderAccepted(data) {
      WalkOkIff(data, Phdrs(data), ParseHeader(data).entry, 0, Progress(mem, [], []));
    }
  }

  /**
   * A successful load: `entry_point == e_entry` with no base added, every program
   * header in bounds and every PT_LOAD inside the file, one segment per PT_LOAD in
   * header order, and for every PT_LOAD the request `make_user_accessible(p_vaddr,
   * p_memsz)` followed by its stores.
   */
  lemma LoadOk(data: seq<u8>, mem: map<int, u8>)
    requires LoadSpec(data, mem).result.Ok?
    ensures HeaderAccepted(data)
    ensures forall j :: 0 <= j < |Phdrs(data)| ==> Phdrs(data)[j].Some? && Passes(data, Phdrs(data)[j].value)
    ensures LoadSpec(data, mem).result.value.entryPoint == ParseHeader(data).entry
    ensures LoadSpec(data, mem).result.value.segments == SegmentsFrom(Phdrs(data), 0)
    ensures LoadSpec(data, mem).events == EventsFrom(Phdrs(data), 0)
  {
    HeaderChecksFirst(data, mem);
    var tbl, entry, p := Phdrs(data), ParseHeader(data).entry, Progress(mem, [], []);
    WalkOkIff(data, tbl, entry, 0, p);
    SucceedsAllPresent(data, tbl, 0);
    WalkOkSegments(data, tbl, entry, 0, p);
    WalkOkEvents(data, tbl, entry, 0, p);
  }

  /**
   * A walk that stops early reports the first header that fails: `PhdrOutOfBounds`
   * when that header runs past the image, `SlicePanic` when it is a PT_LOAD whose
   * file bytes do not.
   */
  lemma {:induction false} WalkFirstFailure(data: seq<u8>, tbl: seq<Option<Phdr>>, entry: nat, i: nat, p: Progress, j: nat)
    requires i <= j < |tbl|
    requires forall l :: i <= l < j ==> tbl[l].Some? && Passes(data, tbl[l].value)
    requires !(tbl[j].Some? && Passes(data, tbl[j].value))
    ensures WalkFrom(data, tbl, entry, i, p).result == Err(if tbl[j].None? then PhdrOutOfBounds else SlicePanic)
    decreases j - i
  {
    if i < j {
      WalkFirstFailure(data, tbl, entry, i + 1, Step(data, tbl[i].value, p), j);
    }
  }

  /** `a` lies in the bytes a PT_LOAD writes: `[p_vaddr, p_vaddr + max(p_filesz, p_memsz))`. */
  predicate Covers(ph: Phdr, a: int)
  {
    ph.vaddr <= a && (a < ph.vaddr + ph.filesz || a < ph.vaddr + ph.memsz)
  }

  /** Header `j` is a loadable PT_LOAD that writes address `a`. */
  predicate LoadWrites(data: seq<u8>, tbl: seq<Option<Phdr>>, j: nat, a: int)
  {
    j < |tbl| && tbl[j].Some?
    && tbl[j].value.ptype == PT_LOAD
    && InFile(data, tbl[j].value)
    && Covers(tbl[j].value, a)
  }

  /** The byte one PT_LOAD leaves at `a`: file data below `p_filesz`, zero above. */
  lemma SegmentMemoryEffect(data: seq<u8>, ph: Phdr, mem: map<int, u8>, a: int)
    requires InFile(data, ph)
    ensures a in SegmentMemory(data, ph, mem) <==> a in mem || Covers(ph, a)
    ensures Covers(ph, a) && a < ph.vaddr + ph.filesz ==>
              SegmentMemory(data, ph, mem)[a] == data[ph.offset + (a - ph.vaddr)]
    ensures Covers(ph, a) && a >= ph.vaddr + ph.filesz ==> SegmentMemory(data, ph, mem)[a] == 0
    ensures a in mem && !Covers(ph, a) ==> SegmentMemory(data, ph, mem)[a] == mem[a]
  {
    var src := data[ph.offset..ph.offset + ph.filesz];
    StoreBytesEffect(mem, ph.vaddr, src);
    if ph.memsz > ph.filesz {
      StoreBytesEffect(StoreBytes(mem, ph.vaddr, src), ph.vaddr + ph.filesz, Zeros(ph.memsz - ph.filesz));
    }
  }

  /** The walk from header `i` leaves every byte no later PT_LOAD writes as it was. */
  lemma {:induction false} WalkFrame(data: seq<u8>, tbl: seq<Option<Phdr>>, entry: nat, i: nat, p: Progress, a: int)
    requires forall j :: i <= j < |tbl| ==> !LoadWrites(data, tbl, j, a)
    ensures a in WalkFrom(data, tbl, entry, i, p).mem <==> a in p.mem
    ensures a in p.mem ==> WalkFrom(data, tbl, entry, i, p).mem[a] == p.mem[a]
    decreases |tbl| - i
  {
    if i < |tbl| && tbl[i].Some? && Passes(data, tbl[i].value) {
      var ph := tbl[i].value;
      if ph.ptype == PT_LOAD {
        assert !LoadWrites(data, tbl, i, a);
        SegmentMemoryEffect(data, ph, p.mem, a);
      }
      WalkFrame(data, tbl, entry, i + 1, Step(data, ph, p), a);
    }
  }

  /** The byte a PT_LOAD puts at `a`: file data below `p_filesz`, zero above. */
  function LoadedByte(data: seq<u8>, ph: Phdr, a: int): u8
    requires InFile(data, ph) && Covers(ph, a)
  {
    if a < ph.vaddr + ph.filesz then data[ph.offset + (a - ph.vaddr)] else 0
  }

  /** The step at PT_LOAD `j` itself: its byte at `a` survives the rest of the walk. */
  lemma WalkLoadsSegmentHere(data: seq<u8>, tbl: seq<Option<Phdr>>, entry: nat, j: nat, p: Progress, a: int)
    requires LoadWrites(data, tbl, j, a)
    requires forall l :: j < l < |tbl| ==> !LoadWrites(data, tbl, l, a)
    ensures a in WalkFrom(data, tbl, entry, j, p).mem
    ensures WalkFrom(data, tbl, entry, j, p).mem[a] == LoadedByte(data, tbl[j].value, a)
  {
    var ph := tbl[j].value;
    SegmentMemoryEffect(data, ph, p.mem, a);
    WalkFrame(data, tbl, entry, j + 1, Step(data, ph, p), a);
  }

  /**
   * After a successful walk, a byte that PT_LOAD `j` writes and no later PT_LOAD
   * overwrites holds `data[p_offset + k]` when `k = a - p_vaddr < p_filesz`, and 0
   * in the BSS `p_filesz <= k < p_memsz`.
   */
  lemma {:induction false} WalkLoadsSegment(data: seq<u8>, tbl: seq<Option<Phdr>>, entry: nat, i: nat, p: Progress, j: nat, a: int)
    requires i <= j
    requires WalkFrom(data, tbl, entry, i, p).result.Ok?
    requires LoadWrites(data, tbl, j, a)
    requires forall l :: j < l < |tbl| ==> !LoadWrites(data, tbl, l, a)
    ensures a in WalkFrom(data, tbl, entry, i, p).mem
    ensures WalkFrom(data, tbl, entry, i, p).mem[a] == LoadedByte(data, tbl[j].value, a)
    decreases |tbl| - i
  {
    if i == j {
      WalkLoadsSegmentHere(data, tbl, entry, j, p, a);
    } else {
      WalkLoadsSegment(data, tbl, entry, i + 1, Step(data, tbl[i].value, p), j, a);
    }
  }

  /**
   * The bytes of a loaded image: for PT_LOAD header `j` of a successful load and a
   * byte `a = p_vaddr + k` that no later PT_LOAD overwrites, memory holds
   * `data[p_offset + k]` for `k < p_filesz` and 0 for `p_filesz <= k < p_memsz`.
   */
  lemma LoadedBytes(data: seq<u8>, mem: map<int, u8>, j: nat, a: int)
    requires LoadSpec(data, mem).result.Ok?
    requires |data| >= EHDR_SIZE
    requires LoadWrites(data, Phdrs(data), j, a)
    requires forall l :: j < l < |Phdrs(data)| ==> !LoadWrites(data, Phdrs(data), l, a)
    ensures a in LoadSpec(data, mem).mem
    ensures LoadSpec(data, mem).mem[a] == LoadedByte(data, Phdrs(data)[j].value, a)
  {
    HeaderChecksFirst(data, mem);
    WalkLoadsSegment(data, Phdrs(data), ParseHeader(data).entry, 0, Progress(mem, [], []), j, a);
  }
}

// The dynamic relocator: the fold of a DT_NULL-terminated PT_DYNAMIC array into
// a library record, the x86-64 RELA relocations it applies to 64-bit words, and
// the bounded C-string read used for symbol names. Layouts and tags are those of
// the System V gABI, chapter 5 ("Dynamic Section") and chapter 4 ("Symbol Table",
// "Relocation"); relocation types and their formulas are those of section 4.4.1
// of the AMD64 psABI.

module Dynlink {
  import opened Words

  /** size_of::<Elf64Dyn>(), size_of::<Elf64Sym>() and size_of::<Elf64Rela>(). */
  const DYN_SIZE: nat := 16
  const SYM_SIZE: nat := 24
  const RELA_SIZE: nat := 24

  const DT_NULL: int := 0
  const DT_NEEDED: int := 1
  const DT_PLTRELSZ: int := 2
  const DT_STRTAB: int := 5
  const DT_SYMTAB: int := 6
  const DT_RELA: int := 7
  const DT_RELASZ: int := 8
  const DT_INIT: int := 12
  const DT_JMPREL: int := 23

  const R_X86_64_NONE: int := 0
  const R_X86_64_64: int := 1
  const R_X86_64_GLOB_DAT: int := 6
  const R_X86_64_JUMP_SLOT: int := 7
  const R_X86_64_RELATIVE: int := 8

  /** The tables of one loaded object, as `parse_dynamic` records them. */
  datatype LoadedLibrary = LoadedLibrary(
    name: string, baseAddr: u64, symtab: u64, strtab: u64,
    rela: u64, relasz: u64, jmprel: u64, pltrelsz: u64, init: u64)

  /** The record before any dynamic entry is seen. */
  function EmptyLibrary(baseAddr: u64): LoadedLibrary
  {
    LoadedLibrary("main", baseAddr, 0, 0, 0, 0, 0, 0, 0)
  }

  // ---------------------------------------------------------------------
  // parse_dynamic

  /** Entry `i` of the dynamic array at `dyn` can be read: its `d_tag` and `d_val` words. */
  predicate DynReadable(words: map<int, u64>, dyn: int, i: nat)
  {
    dyn + DYN_SIZE * i in words && dyn + DYN_SIZE * i + 8 in words
  }

  /** The `d_tag` word of entry `i`. */
  function Tag(words: map<int, u64>, dyn: int, i: nat): u64
    requires DynReadable(words, dyn, i)
  {
    words[dyn + DYN_SIZE * i]
  }

  /** The `d_val` word of entry `i`. */
  function Val(words: map<int, u64>, dyn: int, i: nat): u64
    requires DynReadable(words, dyn, i)
  {
    words[dyn + DYN_SIZE * i + 8]
  }

  /** Entries `0..n` can be read, the first `n` have a tag other than DT_NULL and entry `n` is DT_NULL. */
  predicate NullAt(words: map<int, u64>, dyn: int, n: nat)
  {
    (forall i :: 0 <= i <= n ==> DynReadable(words, dyn, i))
    && (forall i :: 0 <= i < n ==> Tag(words, dyn, i) != DT_NULL)
    && Tag(words, dyn, n) == DT_NULL
  }

  /** The effect of one entry: the seven tracked tags set their field, every other tag does nothing. */
  function ApplyDyn(lib: LoadedLibrary, tag: u64, val: u64): (r: LoadedLibrary)
    ensures r.name == lib.name && r.baseAddr == lib.baseAddr
    ensures r.strtab == (if tag == DT_STRTAB then val else lib.strtab)
    ensures r.symtab == (if tag == DT_SYMTAB then val else lib.symtab)
    ensures r.rela == (if tag == DT_RELA then val else lib.rela)
    ensures r.relasz == (if tag == DT_RELASZ then val else lib.relasz)
    ensures r.jmprel == (if tag == DT_JMPREL then val else lib.jmprel)
    ensures r.pltrelsz == (if tag == DT_PLTRELSZ then val else lib.pltrelsz)
    ensures r.init == (if tag == DT_INIT then val else lib.init)
    ensures tag !in {DT_STRTAB, DT_SYMTAB, DT_RELA, DT_RELASZ, DT_JMPREL, DT_PLTRELSZ, DT_INIT} ==> r == lib
  {
    if tag == DT_STRTAB then lib.(strtab := val)
    else if tag == DT_SYMTAB then lib.(symtab := val)
    else if tag == DT_RELA then lib.(rela := val)
    else if tag == DT_RELASZ then lib.(relasz := val)
    else if tag == DT_JMPREL then lib.(jmprel := val)
    else if tag == DT_PLTRELSZ then lib.(pltrelsz := val)
    else if tag == DT_INIT then lib.(init := val)
    else lib
  }

  /** The record after the first `k` entries. */
  function ParsedUpTo(words: map<int, u64>, dyn: int, baseAddr: u64, k: nat): LoadedLibrary
    requires forall i :: 0 <= i < k ==> DynReadable(words, dyn, i)
  {
    if k == 0 then EmptyLibrary(baseAddr)
    else ApplyDyn(ParsedUpTo(words, dyn, baseAddr, k - 1), Tag(words, dyn, k - 1), Val(words, dyn, k - 1))
  }

  /** `parse_dynamic(base_addr, dyn_addr)`: fold the entries up to the first DT_NULL. */
  method ParseDynamic(words: map<int, u64>, baseAddr: u64, dynAddr: u64) returns (r: Option<LoadedLibrary>)
    requires exists n: nat :: NullAt(words, dynAddr, n)
    ensures forall n: nat :: NullAt(words, dynAddr, n) ==> r == Some(ParsedUpTo(words, dynAddr, baseAddr, n))
  {
    ghost var n: nat :| NullAt(words, dynAddr, n);
    var lib := EmptyLibrary(baseAddr);
    var ptr: int := dynAddr;
    ghost var i: nat := 0;
    while true
      invariant i <= n && ptr == dynAddr + DYN_SIZE * i
      invariant lib == ParsedUpTo(words, dynAddr, baseAddr, i)
      decreases n - i
    {
      assert DynReadable(words, dynAddr, i);
      var tag, val := words[ptr], words[ptr + 8];
      if tag == DT_NULL {
        break;
      }
      if tag == DT_STRTAB {
        lib := lib.(strtab := val);
      } else if tag == DT_SYMTAB {
        lib := lib.(symtab := val);
      } else if tag == DT_RELA {
        lib := lib.(rela := val);
      } else if tag == DT_RELASZ {
        lib := lib.(relasz := val);
      } else if tag == DT_JMPREL {
        lib := lib.(jmprel := val);
      } else if tag == DT_PLTRELSZ {
        lib := lib.(pltrelsz := val);
      } else if tag == DT_INIT {
        lib := lib.(init := val);
      }
      ptr := ptr + DYN_SIZE;
      i := i + 1;
    }
    forall m: nat | NullAt(words, dynAddr, m)
      ensures m == i
    {
      NullAtUnique(words, dynAddr, m, i);
    }
    r := Some(lib);
  }

  /** The value of the last of the first `k` entries whose tag is `tag`, or 0 when there is none. */
  function LastValue(words: map<int, u64>, dyn: int, k: nat, tag: int): u64
    requires forall i :: 0 <= i < k ==> DynReadable(words, dyn, i)
  {
    if k == 0 then 0
    else if Tag(words, dyn, k - 1) == tag then Val(words, dyn, k - 1)
    else LastValue(words, dyn, k - 1, tag)
  }

  /** The first DT_NULL is where every `NullAt` stops. */
  lemma NullAtUnique(words: map<int, u64>, dyn: int, m: nat, n: nat)
    requires NullAt(words, dyn, m) && NullAt(words, dyn, n)
    ensures m == n
  {
  }

  /**
   * Every tracked field holds the value of the last entry with its tag among the first
   * `k`, or 0; the name is "main" and the base address the one given.
   */
  lemma {:induction false} ParsedFields(words: map<int, u64>, dyn: int, baseAddr: u64, k: nat)
    requires forall i :: 0 <= i < k ==> DynReadable(words, dyn, i)
    ensures var lib := ParsedUpTo(words, dyn, baseAddr, k);
            lib.name == "main" && lib.baseAddr == baseAddr
            && lib.strtab == LastValue(words, dyn, k, DT_STRTAB)
            && lib.symtab == LastValue(words, dyn, k, DT_SYMTAB)
            && lib.rela == LastValue(words, dyn, k, DT_RELA)
            && lib.relasz == LastValue(words, dyn, k, DT_RELASZ)
            && lib.jmprel == LastValue(words, dyn, k, DT_JMPREL)
            && lib.pltrelsz == LastValue(words, dyn, k, DT_PLTRELSZ)
            && lib.init == LastValue(words, dyn, k, DT_INIT)
  {
    if k > 0 {
      ParsedFields(words, dyn, baseAddr, k - 1);
    }
  }

  /** An entry with any other tag, DT_NEEDED included, leaves the record as it was. */
  lemma UntrackedTagsIgnored(lib: LoadedLibrary, tag: u64, val: u64)
    requires tag !in {DT_STRTAB, DT_SYMTAB, DT_RELA, DT_RELASZ, DT_JMPREL, DT_PLTRELSZ, DT_INIT}
    ensures ApplyDyn(lib, tag, val) == lib
  {
  }

  /**
   * Nothing after the first DT_NULL is read: memory that agrees on entries `0..n`
   * ends the walk at the same place with the same record.
   */
  lemma {:induction false} ParseReadsPrefix(words: map<int, u64>, other: map<int, u64>, dyn: int, baseAddr: u64, n: nat)
    requires NullAt(words, dyn, n)
    requires forall i :: 0 <= i <= n ==> DynReadable(other, dyn, i)
    requires forall i :: 0 <= i <= n ==> Tag(other, dyn, i) == Tag(words, dyn, i) && Val(other, dyn, i) == Val(words, dyn, i)
    ensures NullAt(other, dyn, n)
    ensures ParsedUpTo(other, dyn, baseAddr, n) == ParsedUpTo(words, dyn, baseAddr, n)
  {
    SamePrefixSameRecord(words, other, dyn, baseAddr, n);
  }

  lemma {:induction false} SamePrefixSameRecord(words: map<int, u64>, other: map<int, u64>, dyn: int, baseAddr: u64, k: nat)
    requires forall i :: 0 <= i < k ==> DynReadable(words, dyn, i) && DynReadable(other, dyn, i)
    requires forall i :: 0 <= i < k ==> Tag(other, dyn, i) == Tag(words, dyn, i) && Val(other, dyn, i) == Val(words, dyn, i)
    ensures ParsedUpTo(other, dyn, baseAddr, k) == ParsedUpTo(words, dyn, baseAddr, k)
  {
    if k > 0 {
      SamePrefixSameRecord(words, other, dyn, baseAddr, k - 1);
      assert Tag(other, dyn, k - 1) == Tag(words, dyn, k - 1);
    }
  }

  // ---------------------------------------------------------------------
  // apply_relocation

  /** An `Elf64Rela`; the signed `r_addend` is kept as its two's-complement u64 bits. */
  datatype Rela = Rela(offset: u64, info: u64, addend: u64)

  /** `r_info & 0xFFFFFFFF`: the relocation type. */
  function RType(info: u64): (t: nat)
    ensures t < U32_LIMIT
  {
    info % U32_LIMIT
  }

  /** `r_info >> 32`: the symbol index. */
  function RSym(info: u64): (s: nat)
    ensures s < U32_LIMIT
  {
    info / U32_LIMIT
  }

  /** ELF64_R_INFO(sym, type): the `r_info` word that packs a symbol index and a type. */
  function RInfo(sym: nat, typ: nat): u64
    requires sym < U32_LIMIT && typ < U32_LIMIT
  {
    sym * U32_LIMIT + typ
  }

  /** Splitting `r_info` and packing it again are inverse. */
  lemma RInfoRoundTrip(info: u64, sym: nat, typ: nat)
    requires sym < U32_LIMIT && typ < U32_LIMIT
    ensures RInfo(RSym(info), RType(info)) == info
    ensures RSym(RInfo(sym, typ)) == sym && RType(RInfo(sym, typ)) == typ
  {
    var w := RInfo(sym, typ);
    assert w == sym * U32_LIMIT + typ;
    DivModUnique(w, sym, typ);
  }

  /** The quotient and remainder by 2^32 are the unique such pair. */
  lemma DivModUnique(w: int, q: int, r: int)
    requires 0 <= r < U32_LIMIT && w == q * U32_LIMIT + r
    ensures w / U32_LIMIT == q && w % U32_LIMIT == r
  {
  }

  /** The three words of an `Elf64Rela` or `Elf64Sym` at `a` can be read. */
  predicate EntryReadable(words: map<int, u64>, a: int)
  {
    a in words && a + 8 in words && a + 16 in words
  }

  /** The `Elf64Rela` at `a`. */
  function RelaAt(words: map<int, u64>, a: int): Rela
    requires EntryReadable(words, a)
  {
    Rela(words[a], words[a + 8], words[a + 16])
  }

  /** Address of the symbol a relocation names: `symtab + r_sym * 24`. */
  function SymAddr(lib: LoadedLibrary, r: Rela): int
  {
    lib.symtab + RSym(r.info) * SYM_SIZE
  }

  /** The word the relocation patches: `base_addr + r_offset`. */
  function Target(lib: LoadedLibrary, r: Rela): int
  {
    lib.baseAddr + r.offset
  }

  /** Whether the relocation reads its symbol: GLOB_DAT and JUMP_SLOT with a symbol table, R_X86_64_64 with a non-zero index. */
  predicate ReadsSymbol(lib: LoadedLibrary, r: Rela)
  {
    var t := RType(r.info);
    ((t == R_X86_64_GLOB_DAT || t == R_X86_64_JUMP_SLOT) && lib.symtab != 0)
    || (t == R_X86_64_64 && lib.symtab != 0 && RSym(r.info) > 0)
  }

  /** What one relocation does to memory. */
  datatype Patch = NoWrite | Write(addr: int, value: u64)

  /**
   * The patch one relocation makes, or None where the source would panic on a
   * non-wrapping `+` (the target address, the symbol address, `base + st_value`)
   * or dereference memory that is not there (the symbol, the target word).
   */
  function RelocationPatch(words: map<int, u64>, lib: LoadedLibrary, r: Rela): (p: Option<Patch>)
    ensures Target(lib, r) >= U64_LIMIT ==> p.None?
    ensures p.None? ==>
              Target(lib, r) >= U64_LIMIT || Target(lib, r) !in words
              || (ReadsSymbol(lib, r)
                  && (SymAddr(lib, r) >= U64_LIMIT || !EntryReadable(words, SymAddr(lib, r))
                      || lib.baseAddr + words[SymAddr(lib, r) + 8] >= U64_LIMIT))
    ensures p.Some? && p.value.Write? ==>
              p.value.addr == Target(lib, r) && p.value.addr in words && p.value.addr < U64_LIMIT
    ensures Target(lib, r) < U64_LIMIT && RType(r.info) != R_X86_64_RELATIVE && !ReadsSymbol(lib, r) ==> p == Some(NoWrite)
  {
    var t := RType(r.info);
    var target := Target(lib, r);
    if target >= U64_LIMIT then None
    else if t == R_X86_64_RELATIVE then
      if target in words then Some(Write(target, (lib.baseAddr + r.addend) % U64_LIMIT)) else None
    else if ReadsSymbol(lib, r) then
      var sa := SymAddr(lib, r);
      if sa >= U64_LIMIT || !EntryReadable(words, sa) then None
      else
        var stValue := words[sa + 8];
        if t == R_X86_64_64 then
          if lib.baseAddr + stValue >= U64_LIMIT || target !in words then None
          else Some(Write(target, (lib.baseAddr + stValue + r.addend) % U64_LIMIT))
        else if stValue == 0 then Some(NoWrite)
        else if lib.baseAddr + stValue >= U64_LIMIT || target !in words then None
        else Some(Write(target, lib.baseAddr + stValue))
    else Some(NoWrite)
  }

  /** Memory after a patch. */
  function ApplyPatch(words: map<int, u64>, p: Patch): map<int, u64>
  {
    match p
    case NoWrite => words
    case Write(a, v) => words[a := v]
  }

  /**
   * The relocation formulas: RELATIVE writes B + A; GLOB_DAT and JUMP_SLOT write
   * B + S for a defined symbol and nothing for an undefined one; R_X86_64_64
   * writes B + S + A; NONE, any other type, and a symbolic relocation without a
   * symbol table (or, for R_X86_64_64, with index 0) write nothing. Every write is
   * to `base_addr + r_offset`.
   */
  lemma RelocationFormulas(words: map<int, u64>, lib: LoadedLibrary, r: Rela)
    requires RelocationPatch(words, lib, r).Some?
    ensures var p := RelocationPatch(words, lib, r).value;
            var t := RType(r.info);
            && (p.Write? ==> p.addr == Target(lib, r) && p.addr in words)
            && (t == R_X86_64_RELATIVE ==> p == Write(Target(lib, r), (lib.baseAddr + r.addend) % U64_LIMIT))
            && ((t == R_X86_64_GLOB_DAT || t == R_X86_64_JUMP_SLOT) && lib.symtab != 0 ==>
                  var s := words[SymAddr(lib, r) + 8];
                  p == if s == 0 then NoWrite else Write(Target(lib, r), lib.baseAddr + s))
            && (t == R_X86_64_64 && lib.symtab != 0 && RSym(r.info) > 0 ==>
                  p == Write(Target(lib, r), (lib.baseAddr + words[SymAddr(lib, r) + 8] + r.addend) % U64_LIMIT))
            && (!ReadsSymbol(lib, r) && t != R_X86_64_RELATIVE ==> p == NoWrite)
  {
  }

  /** `apply_relocation`: compute the target, then write the value the relocation type calls for. */
  method ApplyRelocation(words: map<int, u64>, lib: LoadedLibrary, r: Rela) returns (w: map<int, u64>)
    requires RelocationPatch(words, lib, r).Some?
    ensures w == ApplyPatch(words, RelocationPatch(words, lib, r).value)
    ensures w.Keys == words.Keys
    ensures forall a :: a in words && a != Target(lib, r) ==> w[a] == words[a]
  {
    var t := RType(r.info);
    var rSym := RSym(r.info);
    var addr := lib.baseAddr + r.offset;
    w := words;
    if t == R_X86_64_RELATIVE {
      w := words[addr := (lib.baseAddr + r.addend) % U64_LIMIT];
    } else if t == R_X86_64_GLOB_DAT || t == R_X86_64_JUMP_SLOT {
      if lib.symtab != 0 {
        var stValue := words[lib.symtab + rSym * SYM_SIZE + 8];
        if stValue != 0 {
          w := words[addr := lib.baseAddr + stValue];
        }
      }
    } else if t == R_X86_64_64 {
      if lib.symtab != 0 && rSym > 0 {
        var stValue := words[lib.symtab + rSym * SYM_SIZE + 8];
        w := words[addr := (lib.baseAddr + stValue + r.addend) % U64_LIMIT];
      }
    }
  }

  /**
   * A relocation whose target is not one of the words it reads is idempotent:
   * applying it a second time finds the same symbol and writes the same value.
   */
  lemma RelocationIdempotent(words: map<int, u64>, lib: LoadedLibrary, r: Rela)
    requires RelocationPatch(words, lib, r).Some?
    requires ReadsSymbol(lib, r) ==> Target(lib, r) !in {SymAddr(lib, r), SymAddr(lib, r) + 8, SymAddr(lib, r) + 16}
    ensures var w1 := ApplyPatch(words, RelocationPatch(words, lib, r).value);
            RelocationPatch(w1, lib, r) == RelocationPatch(words, lib, r)
  {
  }

  // ---------------------------------------------------------------------
  // apply_relocations

  /**
   * Memory after entries `i..count` of the relocation table at `table`, in index
   * order, each read from memory as the earlier ones left it; None where the source
   * would panic (entry address overflow, an unreadable entry, or a relocation that
   * `RelocationPatch` rejects).
   */
  function TableFrom(words: map<int, u64>, lib: LoadedLibrary, table: u64, count: nat, i: nat): Option<map<int, u64>>
    decreases count - i
  {
    if i >= count then Some(words)
    else
      var a := table + i * RELA_SIZE;
      if a >= U64_LIMIT || !EntryReadable(words, a) then None
      else match RelocationPatch(words, lib, RelaAt(words, a))
        case None => None
        case Some(p) => TableFrom(ApplyPatch(words, p), lib, table, count, i + 1)
  }

  /** One table, skipped when its address or its size is 0; `size / 24` entries otherwise. */
  function Table(words: map<int, u64>, lib: LoadedLibrary, table: u64, size: u64): Option<map<int, u64>>
  {
    if table != 0 && size > 0 then TableFrom(words, lib, table, size / RELA_SIZE, 0) else Some(words)
  }

  /** `apply_relocations`: the RELA table, then the JMPREL table. */
  function Relocated(words: map<int, u64>, lib: LoadedLibrary): Option<map<int, u64>>
  {
    match Table(words, lib, lib.rela, lib.relasz)
    case None => None
    case Some(w) => Table(w, lib, lib.jmprel, lib.pltrelsz)
  }

  /** The loop over one table: entry `i` is read at `table + 24 i` and applied. */
  method ApplyTable(words0: map<int, u64>, lib: LoadedLibrary, table: u64, count: nat) returns (words: map<int, u64>)
    requires TableFrom(words0, lib, table, count, 0).Some?
    ensures words == TableFrom(words0, lib, table, count, 0).value
  {
    words := words0;
    for i := 0 to count
      invariant TableFrom(words, lib, table, count, i) == TableFrom(words0, lib, table, count, 0)
    {
      var a := table + i * RELA_SIZE;
      TableFromStep(words, lib, table, count, i, a);
      var rela := Rela(words[a], words[a + 8], words[a + 16]);
      words := ApplyRelocation(words, lib, rela);
    }
  }

  /** Entry `i` of a table that relocates without panicking: readable, accepted, and the rest follows from its patch. */
  lemma TableFromStep(words: map<int, u64>, lib: LoadedLibrary, table: u64, count: nat, i: nat, a: int)
    requires i < count && a == table + i * RELA_SIZE
    requires TableFrom(words, lib, table, count, i).Some?
    ensures EntryReadable(words, a) && RelocationPatch(words, lib, RelaAt(words, a)).Some?
    ensures TableFrom(words, lib, table, count, i)
            == TableFrom(ApplyPatch(words, RelocationPatch(words, lib, RelaAt(words, a)).value), lib, table, count, i + 1)
  {
  }

  /** `apply_relocations(lib)`. */
  method ApplyRelocations(words0: map<int, u64>, lib: LoadedLibrary) returns (words: map<int, u64>)
    requires Relocated(words0, lib).Some?
    ensures words == Relocated(words0, lib).value
  {
    words := words0;
    if lib.rela != 0 && lib.relasz > 0 {
      words := ApplyTable(words, lib, lib.rela, lib.relasz / RELA_SIZE);
    }
    if lib.jmprel != 0 && lib.pltrelsz > 0 {
      words := ApplyTable(words, lib, lib.jmprel, lib.pltrelsz / RELA_SIZE);
    }
  }

  /**
   * Relocation adds no word to memory and never writes below the load base: every
   * word under `base_addr` is the same afterwards.
   */
  lemma {:induction false} TableFrame(words: map<int, u64>, lib: LoadedLibrary, table: u64, count: nat, i: nat)
    requires TableFrom(words, lib, table, count, i).Some?
    ensures var w := TableFrom(words, lib, table, count, i).value;
            w.Keys == words.Keys
            && forall a :: a in words && a < lib.baseAddr ==> w[a] == words[a]
    decreases count - i
  {
    if i < count {
      var a := table + i * RELA_SIZE;
      var p := RelocationPatch(words, lib, RelaAt(words, a)).value;
      RelocationFormulas(words, lib, RelaAt(words, a));
      TableFrame(ApplyPatch(words, p), lib, table, count, i + 1);
    }
  }

  /** Both tables together keep the word set and every word below the load base. */
  lemma RelocatedFrame(words: map<int, u64>, lib: LoadedLibrary)
    requires Relocated(words, lib).Some?
    ensures var w := Relocated(words, lib).value;
            w.Keys == words.Keys
            && forall a :: a in words && a < lib.baseAddr ==> w[a] == words[a]
  {
    if lib.rela != 0 && lib.relasz > 0 {
      TableFrame(words, lib, lib.rela, lib.relasz / RELA_SIZE, 0);
    }
    var w1 := Table(words, lib, lib.rela, lib.relasz).value;
    if lib.jmprel != 0 && lib.pltrelsz > 0 {
      TableFrame(w1, lib, lib.jmprel, lib.pltrelsz / RELA_SIZE, 0);
    }
  }

  /** A library with neither table (address or size 0) leaves memory untouched. */
  lemma NoTablesNoChange(words: map<int, u64>, lib: LoadedLibrary)
    requires lib.rela == 0 || lib.relasz == 0
    requires lib.jmprel == 0 || lib.pltrelsz == 0
    ensures Relocated(words, lib) == Some(words)
  {
  }

  /** A table of fewer than 24 bytes holds no entry and changes nothing. */
  lemma ShortTableNoChange(words: map<int, u64>, lib: LoadedLibrary, table: u64, size: u64)
    requires size < RELA_SIZE
    ensures Table(words, lib, table, size) == Some(words)
  {
  }

  // ---------------------------------------------------------------------
  // get_string

  /** The longest name `get_string` returns. */
  const MAX_NAME: nat := 256

  /**
   * Every byte the scan from `p + i` dereferences is mapped. The loop condition
   * reads `p[len]` before it tests `len < 256`, so the scan also reads `p[256]`
   * when the first 256 bytes are non-zero.
   */
  predicate ScanReadable(mem: map<int, u8>, p: int, i: nat)
    requires i <= MAX_NAME
    decreases MAX_NAME - i
  {
    p + i in mem && (mem[p + i] != 0 && i < MAX_NAME ==> ScanReadable(mem, p, i + 1))
  }

  /** The byte at `a` is mapped, holds `b`, and is not NUL. */
  predicate NonNulAt(mem: map<int, u8>, a: int, b: u8)
  {
    a in mem && mem[a] == b && b != 0
  }

  /** `s` is what a bounded C-string read at `p` yields: at most 256 non-NUL bytes, followed by a NUL unless the cap was hit. */
  predicate BoundedCString(mem: map<int, u8>, p: int, s: seq<u8>)
  {
    |s| <= MAX_NAME
    && (forall j :: 0 <= j < |s| ==> NonNulAt(mem, p + j, s[j]))
    && (|s| < MAX_NAME ==> p + |s| in mem && mem[p + |s|] == 0)
  }

  /** `get_string(strtab, offset)`: the bytes at `strtab + offset` up to the first NUL, at most 256 of them. */
  method GetString(mem: map<int, u8>, strtab: u64, offset: u64) returns (s: seq<u8>)
    requires strtab + offset < U64_LIMIT
    requires ScanReadable(mem, strtab + offset, 0)
    ensures BoundedCString(mem, strtab + offset, s)
  {
    var p := strtab + offset;
    var len := 0;
    s := [];
    while mem[p + len] != 0 && len < MAX_NAME
      invariant len <= MAX_NAME && |s| == len
      invariant ScanReadable(mem, p, len)
      invariant forall j :: 0 <= j < len ==> NonNulAt(mem, p + j, s[j])
      decreases MAX_NAME - len
    {
      var c := mem[p + len];
      assert ScanReadable(mem, p, len + 1);
      s := s + [c];
      len := len + 1;
    }
  }

  /** Byte `k` of a bounded read is the non-NUL byte at `p + k`. */
  lemma ByteOfString(mem: map<int, u8>, p: int, s: seq<u8>, k: nat)
    requires BoundedCString(mem, p, s) && k < |s|
    ensures p + k in mem && mem[p + k] != 0
  {
    assert NonNulAt(mem, p + k, s[k]);
  }

  /** The bounded read has exactly one possible result. */
  lemma {:induction false} BoundedCStringUnique(mem: map<int, u8>, p: int, s: seq<u8>, t: seq<u8>)
    requires BoundedCString(mem, p, s) && BoundedCString(mem, p, t)
    ensures s == t
  {
    if |s| < |t| {
      ByteOfString(mem, p, t, |s|);
      assert false;
    }
    if |t| < |s| {
      ByteOfString(mem, p, s, |t|);
      assert false;
    }
    assert forall j :: 0 <= j < |s| ==> NonNulAt(mem, p + j, t[j]);
  }
}

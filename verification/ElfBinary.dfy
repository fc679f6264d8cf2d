/** The ELFBinary class and the process memory it loads into. */
module ElfBinaries {
  import opened Words
  import opened Memory
  import opened Outcomes
  import opened Elf
  import opened Loading
  import Dynamic

  /** The address space of the process. A false result is an access that
      faults, or a mapping the kernel places elsewhere; the process then ends. */
  class Process {
    var mem: Mem

    constructor (m: Mem)
      ensures mem == m
    {
      mem := m;
    }

    method Map(lo: nat, hi: nat) returns (ok: bool)
      modifies this
      ensures Mmap(old(mem), lo, hi) == if ok then Ok(mem) else Halt
    {
      ok := 0 < lo < hi <= USER_TOP && Free(mem, lo, hi);
      if ok {
        mem := MapZero(mem, lo, hi);
      }
    }

    method Write(a: nat, s: seq<byte>) returns (ok: bool)
      modifies this
      ensures ok <==> Mapped(old(mem), a, |s|)
      ensures mem == if ok then Store(old(mem), a, s) else old(mem)
    {
      ok := Mapped(mem, a, |s|);
      if ok {
        mem := Store(mem, a, s);
      }
    }
  }

  class ElfBinary {
    const path: Path
    const img: Image
    var phdrs: seq<Phdr>
    var dynamic: Option<Phdr>
    var tls: Option<Phdr>
    var base: nat
    var end: nat
    var dyn: DynInfo
    var relas: seq<Rela>
    var pltrelas: seq<Rela>
    var syms: seq<Sym>

    /** The value DynLoader keeps in its vector. */
    function View(): (b: Binary)
      reads this
    {
      Binary(path, img.entry, phdrs, tls, base, end, dyn, relas, pltrelas, syms)
    }

    /** The program headers have been read. */
    ghost predicate Opened()
      reads this
    {
      phdrs == img.phdrs && dynamic == LastOf(img.phdrs, PtDynamic) && tls == LastOf(img.phdrs, PtTls)
    }

    constructor (path: Path, img: Image)
      ensures this.path == path && this.img == img && Opened()
    {
      this.path, this.img := path, img;
      phdrs, dynamic, tls := [], None, None;
      base, end, dyn := 0, 0, Dynamic.EMPTY;
      relas, pltrelas, syms := [], [], [];
      new;
      for i := 0 to |img.phdrs|
        invariant phdrs == img.phdrs[..i]
        invariant dynamic == LastOf(img.phdrs[..i], PtDynamic) && tls == LastOf(img.phdrs[..i], PtTls)
      {
        var ph := img.phdrs[i];
        assert img.phdrs[..i + 1][..i] == img.phdrs[..i];
        phdrs := phdrs + [ph];
        if ph.kind.PtDynamic? {
          dynamic := Some(ph);
        } else if ph.kind.PtTls? {
          tls := Some(ph);
        }
      }
      assert img.phdrs[..|img.phdrs|] == img.phdrs;
    }

    /** Load: map and fill every PT_LOAD segment, parse the dynamic section, and
        return the base address for the next binary. */
    method Load(baseArg: nat, process: Process) returns (ok: bool, next: nat)
      requires Opened()
      modifies this, process
      ensures Opened()
      ensures LoadImage(img, path, old(process.mem), baseArg)
              == if ok then Ok(Loaded(View(), process.mem, next)) else Halt
    {
      next := 0;
      base := if img.etype.EtDyn? then baseArg else 0;
      end := base;
      ok := LoadSegmentsInto(process);
      if !ok {
        return;
      }
      ok := ParseDynamic();
      next := StepUp(end);
    }

    method LoadSegmentsInto(process: Process) returns (ok: bool)
      modifies this`end, process
      ensures LoadSegments(Segments(old(process.mem), old(end)), img.file, phdrs, base)
              == if ok then Ok(Segments(process.mem, end)) else Halt
    {
      hide LoadSegment, MapStart, MapEnd;
      for i := 0 to |phdrs|
        invariant LoadSegments(Segments(old(process.mem), old(end)), img.file, phdrs, base)
                  == LoadSegments(Segments(process.mem, end), img.file, phdrs[i..], base)
      {
        assert phdrs[i..][1..] == phdrs[i + 1..];
        if phdrs[i].kind.PtLoad? {
          ok := LoadOneSegment(phdrs[i], process);
          if !ok {
            return;
          }
        }
      }
      ok := true;
    }

    method LoadOneSegment(ph: Phdr, process: Process) returns (ok: bool)
      modifies this`end, process
      ensures LoadSegment(old(process.mem), img.file, ph, base) == if ok then Ok(process.mem) else Halt
      ensures ok ==> end == MapEnd(ph, base)
    {
      hide U64, PageDown, Store, MapZero;
      var lo, hi := MapStart(ph, base), MapEnd(ph, base);
      ok := process.Map(lo, hi);
      if !ok {
        return;
      }
      end := hi;
      if ph.offset + ph.filesz > |img.file| {
        ok := false;
        return;
      }
      ok := process.Write(U64(ph.vaddr + base), img.file[ph.offset..ph.offset + ph.filesz]);
    }

    /** ParseDynamic. */
    method ParseDynamic() returns (ok: bool)
      requires Opened()
      modifies this`dyn, this`relas, this`pltrelas, this`syms
      ensures Dynamic.Parse(img, base) == if ok then Ok(Dynamic.Parsed(dyn, relas, pltrelas, syms)) else Halt
    {
      hide Dynamic.ScanEntry, Dynamic.FindStrtab, Dynamic.RelaTable;
      var n := if dynamic.Some? then dynamic.value.filesz else 0;
      if (base == 0 && !img.etype.EtExec?) || n % 16 != 0 || n / 16 > |img.dyns| {
        return false;
      }
      var entries := img.dyns[..n / 16];
      var strtab := FindStrtab(entries);
      if strtab.None? && !img.etype.EtExec? {
        return false;
      }
      ok := ScanEntries(strtab, entries);
      if !ok {
        return;
      }
      var okRelas, rs := ReadTable(dyn.Pointer(DtRela, base), dyn.Scalar(DtRelasz), dyn.Scalar(DtRelaent));
      if !okRelas {
        return false;
      }
      var jmprel := dyn.Pointer(DtJmprel, base);
      if jmprel.Some? && dyn.Scalar(DtPltrel) != 7 {
        return false;
      }
      var okPlt, ps := ReadTable(jmprel, dyn.Scalar(DtPltrelsz), 24);
      if !okPlt {
        return false;
      }
      relas, pltrelas := rs, ps;
      syms := if dyn.Pointer(DtSymtab, base).Some? then img.syms else [];
    }

    /** The first pass. */
    method FindStrtab(entries: seq<Dyn>) returns (strtab: Option<u64>)
      ensures strtab == Dynamic.FindStrtab(entries, base, None)
    {
      strtab := None;
      for i := 0 to |entries|
        invariant Dynamic.FindStrtab(entries, base, None) == Dynamic.FindStrtab(entries[i..], base, strtab)
      {
        assert entries[i..][1..] == entries[i + 1..];
        if entries[i].tag.DtStrtab? {
          strtab := Ptr(base, entries[i].val);
        }
      }
    }

    /** The second pass. */
    method ScanEntries(strtab: Option<u64>, entries: seq<Dyn>) returns (ok: bool)
      modifies this`dyn
      ensures Dynamic.ScanAll(img, strtab, entries, Dynamic.EMPTY) == if ok then Ok(dyn) else Halt
    {
      hide Dynamic.ScanEntry;
      dyn := Dynamic.EMPTY;
      for i := 0 to |entries|
        invariant Dynamic.ScanAll(img, strtab, entries, Dynamic.EMPTY)
                  == Dynamic.ScanAll(img, strtab, entries[i..], dyn)
      {
        assert entries[i..][1..] == entries[i + 1..];
        var r := Dynamic.ScanEntry(img, strtab, entries[i], dyn);
        if r.Halt? {
          return false;
        }
        dyn := r.value;
      }
      ok := true;
    }

    /** One relocation table, record by record. */
    method ReadTable(table: Option<u64>, sz: u64, ent: u64) returns (ok: bool, rs: seq<Rela>)
      ensures Dynamic.RelaTable(img, table, sz, ent) == if ok then Ok(rs) else Halt
    {
      rs := [];
      if table.None? {
        return true, rs;
      }
      if ent == 0 || sz % ent != 0 {
        return false, rs;
      }
      hide U64;
      var a: u64 := table.value;
      var count: nat := sz / ent;
      BehindNothing(Dynamic.ReadRelas(img, a, count));
      for i := 0 to count
        invariant Dynamic.ReadRelas(img, table.value, count) == Behind(rs, Dynamic.ReadRelas(img, a, count - i))
      {
        if a !in img.relaTable {
          return false, rs;
        }
        BehindMore(rs, [img.relaTable[a]], Dynamic.ReadRelas(img, U64(a + 24), count - i - 1));
        rs := rs + [img.relaTable[a]];
        a := U64(a + 24);
      }
      assert rs + [] == rs;
      ok := true;
    }
  }
}

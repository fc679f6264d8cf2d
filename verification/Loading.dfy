/** ELFBinary::Load: maps each PT_LOAD segment, copies its file bytes, and
    steps the base address of the next binary. */
module Loading {
  import opened Words
  import opened Memory
  import opened Outcomes
  import opened Elf
  import Dynamic

  /** Start and end of the mapping of one segment, as the loader computes them. */
  function MapStart(ph: Phdr, base: nat): (a: nat) {
    PageDown(U64(ph.vaddr + base))
  }

  function MapEnd(ph: Phdr, base: nat): (a: nat) {
    PageDown(U64(ph.vaddr + ph.memsz + base + 0xfff))
  }

  /** mmap with a hint and without MAP_FIXED: the hint is honoured exactly when
      it is a nonempty free range of user addresses. Anywhere else is a failed CHECK. */
  function Mmap(m: Mem, lo: nat, hi: nat): (r: Result<Mem>) {
    if 0 < lo < hi <= USER_TOP && Free(m, lo, hi) then Ok(MapZero(m, lo, hi)) else Halt
  }

  function LoadSegment(m: Mem, file: seq<byte>, ph: Phdr, base: nat): (r: Result<Mem>) {
    var m' :- Mmap(m, MapStart(ph, base), MapEnd(ph, base));
    var dest := U64(ph.vaddr + base);
    if ph.offset + ph.filesz <= |file| && Mapped(m', dest, ph.filesz)
    then Ok(Store(m', dest, file[ph.offset..ph.offset + ph.filesz]))
    else Halt
  }

  datatype Segments = Segments(mem: Mem, end: nat)

  function LoadSegments(s: Segments, file: seq<byte>, phdrs: seq<Phdr>, base: nat): (r: Result<Segments>)
    decreases |phdrs|
  {
    if phdrs == [] then Ok(s)
    else if !phdrs[0].kind.PtLoad? then LoadSegments(s, file, phdrs[1..], base)
    else
      var m :- LoadSegment(s.mem, file, phdrs[0], base);
      LoadSegments(Segments(m, MapEnd(phdrs[0], base)), file, phdrs[1..], base)
  }

  datatype Loaded = Loaded(bin: Binary, mem: Mem, next: nat)

  /** Load the file img at the given base: the binary, the memory after it and
      the base address for the next one. */
  function LoadImage(img: Image, path: Path, m: Mem, baseArg: nat): (r: Result<Loaded>) {
    var base := if img.etype.EtDyn? then baseArg else 0;
    var segs :- LoadSegments(Segments(m, base), img.file, img.phdrs, base);
    var p :- Dynamic.Parse(img, base);
    Ok(Loaded(
      Binary(path, img.entry, img.phdrs, LastOf(img.phdrs, PtTls), base, segs.end, p.dyn, p.relas, p.pltrelas, p.syms),
      segs.mem, StepUp(segs.end)))
  }

  /** Open the file at path and load it. */
  function LoadBinary(w: World, m: Mem, path: Path, baseArg: nat): (r: Result<Loaded>) {
    if path !in w.fs || w.fs[path].size <= 24 then Halt else LoadImage(w.fs[path], path, m, baseArg)
  }

  // ---------- What a binary owns and what a loaded segment holds ----------

  /** a lies in the pages of segment ph of a binary at base. */
  predicate InPages(ph: Phdr, base: nat, a: nat) {
    ph.kind.PtLoad? && PageDown(ph.vaddr + base) <= a < PageUp(ph.vaddr + ph.memsz + base)
  }

  ghost predicate InSegments(phdrs: seq<Phdr>, base: nat, a: nat) {
    exists p :: 0 <= p < |phdrs| && InPages(phdrs[p], base, a)
  }

  /** a lies in a page mapped for b. */
  ghost predicate Owns(b: Binary, a: nat) {
    InSegments(b.phdrs, b.base, a)
  }

  /** The gABI's demands on a PT_LOAD segment: it is inside the user address
      space, and its file size does not exceed its memory size. */
  predicate SizedSegment(ph: Phdr) {
    ph.kind.PtLoad? ==> ph.filesz <= ph.memsz && ph.vaddr + ph.memsz <= USER_TOP
  }

  predicate Sized(phdrs: seq<Phdr>) {
    forall p :: 0 <= p < |phdrs| ==> SizedSegment(phdrs[p])
  }

  /** Byte i of a segment: the file's byte below filesz, zero above. */
  function SegmentByte(file: seq<byte>, ph: Phdr, i: int): (b: byte)
    requires ph.offset + ph.filesz <= |file|
  {
    if 0 <= i < ph.filesz then file[ph.offset + i] else 0
  }

  /** The memory holds ph as the gABI's program loading rules require: the file
      bytes up to filesz, then zeros up to memsz. */
  ghost predicate HoldsSegment(m: Mem, file: seq<byte>, ph: Phdr, base: nat) {
    ph.kind.PtLoad? ==>
      && ph.offset + ph.filesz <= |file|
      && forall a: nat :: base + ph.vaddr <= a < base + ph.vaddr + ph.memsz ==>
           a in m && m[a] == SegmentByte(file, ph, a - base - ph.vaddr)
  }

  ghost predicate HoldsImage(m: Mem, file: seq<byte>, phdrs: seq<Phdr>, base: nat) {
    forall p :: 0 <= p < |phdrs| ==> HoldsSegment(m, file, phdrs[p], base)
  }

  /** m' agrees with m wherever m is mapped. */
  ghost predicate Extends(m: Mem, m': Mem) {
    forall a: nat :: a in m ==> a in m' && m'[a] == m[a]
  }

  /** No segment's pages are empty. */
  ghost predicate Inhabited(phdrs: seq<Phdr>, base: nat) {
    forall p :: 0 <= p < |phdrs| && phdrs[p].kind.PtLoad? ==> InPages(phdrs[p], base, PageDown(phdrs[p].vaddr + base))
  }

  ghost predicate SegmentsApart(phdrs: seq<Phdr>, base: nat) {
    forall p, q, a: nat :: 0 <= p < q < |phdrs| && InPages(phdrs[p], base, a) ==> !InPages(phdrs[q], base, a)
  }

  // ---------- One segment ----------

  lemma NoWrap(ph: Phdr, base: nat)
    requires ph.kind.PtLoad? && SizedSegment(ph) && base <= USER_TOP
    ensures MapStart(ph, base) == PageDown(ph.vaddr + base) <= ph.vaddr + base == U64(ph.vaddr + base)
    ensures MapEnd(ph, base) == PageUp(ph.vaddr + ph.memsz + base) >= ph.vaddr + ph.memsz + base
  {
  }

  /** A segment that loads takes exactly its pages, all of them free before,
      changes nothing else, and holds its image. */
  lemma SegmentLoads(m: Mem, file: seq<byte>, ph: Phdr, base: nat)
    requires ph.kind.PtLoad? && SizedSegment(ph) && base <= USER_TOP
    requires LoadSegment(m, file, ph, base).Ok?
    ensures var m' := LoadSegment(m, file, ph, base).value;
      && Extends(m, m')
      && (forall a: nat :: a in m' <==> a in m || InPages(ph, base, a))
      && (forall a: nat :: InPages(ph, base, a) ==> a !in m)
      && InPages(ph, base, PageDown(ph.vaddr + base))
      && HoldsSegment(m', file, ph, base)
      && 0 < MapEnd(ph, base) <= USER_TOP
  {
    hide PageDown, PageUp, U64, Store;
    NoWrap(ph, base);
    var dest := ph.vaddr + base;
    var z := MapZero(m, MapStart(ph, base), MapEnd(ph, base));
    forall a: nat | a in z
      ensures LoadSegment(m, file, ph, base).value[a]
              == if dest <= a < dest + ph.filesz then file[ph.offset + (a - dest)] else z[a]
    {
      StoreAt(z, dest, file[ph.offset..ph.offset + ph.filesz], a);
    }
  }

  // ---------- A whole binary ----------

  lemma HoldsExtends(m: Mem, m': Mem, file: seq<byte>, ph: Phdr, base: nat)
    requires HoldsSegment(m, file, ph, base) && Extends(m, m')
    ensures HoldsSegment(m', file, ph, base)
  {
  }

  lemma InSegmentsCons(phdrs: seq<Phdr>, base: nat, a: nat)
    requires phdrs != []
    ensures InSegments(phdrs, base, a) <==> InPages(phdrs[0], base, a) || InSegments(phdrs[1..], base, a)
  {
  }

  /** m' is m with the pages of phdrs added, none of which m had. */
  ghost predicate TakesPages(m: Mem, m': Mem, phdrs: seq<Phdr>, base: nat) {
    && Extends(m, m')
    && (forall a: nat :: a in m' <==> a in m || InSegments(phdrs, base, a))
    && (forall a: nat :: InSegments(phdrs, base, a) ==> a !in m)
  }

  lemma {:induction false} SegmentsTakePages(s: Segments, file: seq<byte>, phdrs: seq<Phdr>, base: nat)
    requires Sized(phdrs) && base <= USER_TOP && LoadSegments(s, file, phdrs, base).Ok?
    ensures TakesPages(s.mem, LoadSegments(s, file, phdrs, base).value.mem, phdrs, base)
    decreases |phdrs|
  {
    hide LoadSegment, PageDown, PageUp;
    if phdrs != [] {
      var ph := phdrs[0];
      forall a: nat
        ensures InSegments(phdrs, base, a) <==> InPages(ph, base, a) || InSegments(phdrs[1..], base, a)
      {
        InSegmentsCons(phdrs, base, a);
      }
      if ph.kind.PtLoad? {
        assert SizedSegment(ph);
        SegmentLoads(s.mem, file, ph, base);
        SegmentsTakePages(Segments(LoadSegment(s.mem, file, ph, base).value, MapEnd(ph, base)), file, phdrs[1..], base);
      } else {
        SegmentsTakePages(s, file, phdrs[1..], base);
      }
    }
  }

  lemma {:induction false} SegmentsHold(s: Segments, file: seq<byte>, phdrs: seq<Phdr>, base: nat)
    requires Sized(phdrs) && base <= USER_TOP && LoadSegments(s, file, phdrs, base).Ok?
    ensures HoldsImage(LoadSegments(s, file, phdrs, base).value.mem, file, phdrs, base)
    ensures Inhabited(phdrs, base)
    decreases |phdrs|
  {
    hide LoadSegment, PageDown, PageUp;
    if phdrs != [] {
      var ph, rest := phdrs[0], phdrs[1..];
      var t := s;
      if ph.kind.PtLoad? {
        assert SizedSegment(ph);
        SegmentLoads(s.mem, file, ph, base);
        t := Segments(LoadSegment(s.mem, file, ph, base).value, MapEnd(ph, base));
        SegmentsTakePages(t, file, rest, base);
        HoldsExtends(t.mem, LoadSegments(t, file, rest, base).value.mem, file, ph, base);
      }
      SegmentsHold(t, file, rest, base);
      HoldsCons(LoadSegments(t, file, rest, base).value.mem, file, phdrs, base);
    }
  }

  lemma HoldsCons(m: Mem, file: seq<byte>, phdrs: seq<Phdr>, base: nat)
    requires phdrs != [] && HoldsSegment(m, file, phdrs[0], base) && HoldsImage(m, file, phdrs[1..], base)
    requires phdrs[0].kind.PtLoad? ==> InPages(phdrs[0], base, PageDown(phdrs[0].vaddr + base))
    requires Inhabited(phdrs[1..], base)
    ensures HoldsImage(m, file, phdrs, base) && Inhabited(phdrs, base)
  {
  }

  lemma {:induction false} SegmentsAreApart(s: Segments, file: seq<byte>, phdrs: seq<Phdr>, base: nat)
    requires Sized(phdrs) && base <= USER_TOP && LoadSegments(s, file, phdrs, base).Ok?
    ensures SegmentsApart(phdrs, base)
    decreases |phdrs|
  {
    hide LoadSegment, PageDown, PageUp;
    if phdrs != [] {
      var ph, rest := phdrs[0], phdrs[1..];
      var t := s;
      if ph.kind.PtLoad? {
        assert SizedSegment(ph);
        SegmentLoads(s.mem, file, ph, base);
        t := Segments(LoadSegment(s.mem, file, ph, base).value, MapEnd(ph, base));
        SegmentsTakePages(t, file, rest, base);
      }
      SegmentsAreApart(t, file, rest, base);
      ApartCons(phdrs, base);
    }
  }

  lemma ApartCons(phdrs: seq<Phdr>, base: nat)
    requires phdrs != [] && SegmentsApart(phdrs[1..], base)
    requires forall a: nat :: InPages(phdrs[0], base, a) ==> !InSegments(phdrs[1..], base, a)
    ensures SegmentsApart(phdrs, base)
  {
  }

  /** The page end of the last PT_LOAD segment. */
  function EndOf(phdrs: seq<Phdr>, base: nat, end: nat): (r: nat) {
    if phdrs == [] then end
    else
      var ph := phdrs[|phdrs| - 1];
      if ph.kind.PtLoad? then PageUp(ph.vaddr + ph.memsz + base) else EndOf(phdrs[..|phdrs| - 1], base, end)
  }

  lemma {:induction false} EndOfCons(phdrs: seq<Phdr>, base: nat, end: nat)
    requires phdrs != []
    ensures EndOf(phdrs, base, end)
            == EndOf(phdrs[1..], base,
                     if phdrs[0].kind.PtLoad? then PageUp(phdrs[0].vaddr + phdrs[0].memsz + base) else end)
  {
    var n := |phdrs| - 1;
    if n > 0 {
      assert phdrs[1..][..n - 1] == phdrs[..n][1..];
      EndOfCons(phdrs[..n], base, end);
    }
  }

  lemma {:induction false} SegmentsEnd(s: Segments, file: seq<byte>, phdrs: seq<Phdr>, base: nat)
    requires Sized(phdrs) && base <= USER_TOP && LoadSegments(s, file, phdrs, base).Ok?
    ensures LoadSegments(s, file, phdrs, base).value.end == EndOf(phdrs, base, s.end)
    ensures s.end <= USER_TOP ==> EndOf(phdrs, base, s.end) <= USER_TOP
    decreases |phdrs|
  {
    if phdrs != [] {
      var ph := phdrs[0];
      EndOfCons(phdrs, base, s.end);
      if ph.kind.PtLoad? {
        assert SizedSegment(ph);
        NoWrap(ph, base);
        SegmentsEnd(Segments(LoadSegment(s.mem, file, ph, base).value, MapEnd(ph, base)), file, phdrs[1..], base);
      } else {
        SegmentsEnd(s, file, phdrs[1..], base);
      }
    }
  }

  /** What a loaded binary b is, given the file it came from. */
  ghost predicate FromFile(w: World, b: Binary) {
    && b.path in w.fs
    && b.phdrs == w.fs[b.path].phdrs
    && b.base <= USER_TOP
    && b.end == EndOf(b.phdrs, b.base, b.base)
    && (forall n :: n in b.dyn.neededs ==> n in w.fs[b.path].strings.Values)
    && (forall r :: r in b.pltrelas + b.relas ==> r in w.fs[b.path].relaTable.Values)
    && (b.syms == [] || b.syms == w.fs[b.path].syms)
    && (b.base == 0 || w.fs[b.path].etype.EtDyn?)
    && SegmentsApart(b.phdrs, b.base) && Inhabited(b.phdrs, b.base)
  }

  ghost predicate HoldsBinary(w: World, m: Mem, b: Binary) {
    b.path in w.fs && HoldsImage(m, w.fs[b.path].file, b.phdrs, b.base)
  }

  /** Every file the loader can open has sized segments. */
  ghost predicate SizedFiles(w: World) {
    forall p :: p in w.fs ==> Sized(w.fs[p].phdrs)
  }

  lemma SegmentsLoad(s: Segments, file: seq<byte>, phdrs: seq<Phdr>, base: nat)
    requires Sized(phdrs) && base <= USER_TOP && s.end <= USER_TOP && LoadSegments(s, file, phdrs, base).Ok?
    ensures var t := LoadSegments(s, file, phdrs, base).value;
      && TakesPages(s.mem, t.mem, phdrs, base)
      && HoldsImage(t.mem, file, phdrs, base)
      && SegmentsApart(phdrs, base) && Inhabited(phdrs, base)
      && t.end == EndOf(phdrs, base, s.end) <= USER_TOP
  {
    SegmentsTakePages(s, file, phdrs, base);
    SegmentsHold(s, file, phdrs, base);
    SegmentsAreApart(s, file, phdrs, base);
    SegmentsEnd(s, file, phdrs, base);
  }

  /** Loading a binary takes only free pages, leaves every earlier byte alone,
      and puts the file's image at the base address. */
  lemma BinaryLoads(w: World, m: Mem, path: Path, baseArg: nat)
    requires SizedFiles(w) && baseArg <= USER_TOP && LoadBinary(w, m, path, baseArg).Ok?
    ensures var l := LoadBinary(w, m, path, baseArg).value;
      && l.bin.path == path && FromFile(w, l.bin)
      && TakesPages(m, l.mem, l.bin.phdrs, l.bin.base)
      && HoldsBinary(w, l.mem, l.bin)
      && l.next == StepUp(l.bin.end) <= USER_TOP
  {
    hide LoadSegments, Dynamic.Parse, PageDown, PageUp;
    var img := w.fs[path];
    var base := if img.etype.EtDyn? then baseArg else 0;
    SegmentsLoad(Segments(m, base), img.file, img.phdrs, base);
    Dynamic.ParseFromTables(img, base);
  }

  /** The fields of a loaded binary: an ET_DYN file sits at the base address given
      and any other at 0, its headers are the file's, its TLS segment is the last
      PT_TLS, and the rest is what the parse at that base yields. */
  lemma BinaryFields(w: World, m: Mem, path: Path, baseArg: nat)
    requires LoadBinary(w, m, path, baseArg).Ok?
    ensures path in w.fs && w.fs[path].size > 24
    ensures var b, img := LoadBinary(w, m, path, baseArg).value.bin, w.fs[path];
      && b.path == path && b.entry == img.entry && b.phdrs == img.phdrs
      && b.base == (if img.etype.EtDyn? then baseArg else 0)
      && b.tls == LastOf(img.phdrs, PtTls)
      && Dynamic.Parse(img, b.base) == Ok(Dynamic.Parsed(b.dyn, b.relas, b.pltrelas, b.syms))
  {
    hide LoadSegments, Dynamic.Parse, LastOf;
  }

  /** The end of a loaded binary is the page end of its last PT_LOAD segment, or
      its base address if it has none. */
  lemma {:induction false} EndIsLast(phdrs: seq<Phdr>, base: nat)
    ensures EndOf(phdrs, base, base)
            == match LastOf(phdrs, PtLoad)
               case Some(ph) => PageUp(ph.vaddr + ph.memsz + base)
               case None => base
  {
    hide PageUp;
    if phdrs != [] && !phdrs[|phdrs| - 1].kind.PtLoad? {
      EndIsLast(phdrs[..|phdrs| - 1], base);
    }
  }
}

/** When the loader does not halt: every closed set of requests for well-formed
    libraries is met, however the dependencies look. */
module Progress {
  import opened Words
  import opened Memory
  import opened Elf
  import opened Loading
  import opened LoadOrder
  import opened AddressSpace
  import Dynamic

  /** Segments the gABI allows: nonempty PT_LOAD segments in ascending order, on
      separate pages below `room`, whose bytes are in the file. */
  ghost predicate SoundSegments(img: Image, room: nat) {
    && img.size > 24 && Sized(img.phdrs) && Ascending(img.phdrs) && SegmentsApart(img.phdrs, 0)
    && forall p :: 0 <= p < |img.phdrs| && img.phdrs[p].kind.PtLoad? ==> SoundSegment(img.phdrs[p], |img.file|, room)
  }

  /** A shared object or position-independent program with such segments and a
      dynamic section that parses. */
  ghost predicate WellFormed(img: Image, room: nat) {
    && img.etype.EtDyn? && SoundSegments(img, room)
    && (forall base: nat :: 0 < base <= USER_TOP ==> Dynamic.Parse(img, base).Ok?)
  }

  predicate SoundSegment(ph: Phdr, file: nat, room: nat) {
    ph.memsz > 0 && ph.offset + ph.filesz <= file && PageUp(ph.vaddr + ph.memsz) <= room
  }

  // ---------- One binary ----------

  lemma PagesShift(x: nat, base: nat)
    requires base % 0x1000 == 0
    ensures PageDown(x + base) == PageDown(x) + base && PageUp(x + base) == PageUp(x) + base
  {
  }

  lemma InPagesShift(ph: Phdr, base: nat, a: nat)
    requires base % 0x1000 == 0
    ensures InPages(ph, base, a) <==> a >= base && InPages(ph, 0, a - base)
  {
  }

  lemma ApartShift(phdrs: seq<Phdr>, base: nat)
    requires base % 0x1000 == 0 && SegmentsApart(phdrs, 0)
    ensures SegmentsApart(phdrs, base)
  {
    hide InPages;
    forall p, q, a: nat | 0 <= p < q < |phdrs| && InPages(phdrs[p], base, a)
      ensures !InPages(phdrs[q], base, a)
    {
      InPagesShift(phdrs[p], base, a);
      InPagesShift(phdrs[q], base, a);
    }
  }

  /** The pages of ph at base are there for the taking. */
  ghost predicate Available(m: Mem, ph: Phdr, base: nat) {
    ph.kind.PtLoad? ==> forall a: nat :: InPages(ph, base, a) ==> a !in m
  }

  /** Page 0 is not asked for. */
  predicate OffNull(ph: Phdr, base: nat) {
    base > 0 || ph.vaddr >= 0x1000
  }

  lemma SegmentSucceeds(m: Mem, file: seq<byte>, ph: Phdr, base: nat, room: nat)
    requires ph.kind.PtLoad? && SizedSegment(ph) && SoundSegment(ph, |file|, room) && Available(m, ph, base)
    requires base % 0x1000 == 0 && base + room <= USER_TOP && OffNull(ph, base)
    ensures LoadSegment(m, file, ph, base).Ok?
  {
    NoWrap(ph, base);
    PagesShift(ph.vaddr, base);
    PagesShift(ph.vaddr + ph.memsz, base);
    hide PageDown, PageUp, U64, Store;
    var lo, hi := MapStart(ph, base), MapEnd(ph, base);
    assert Free(m, lo, hi) by {
      assert forall a: nat :: lo <= a < hi ==> InPages(ph, base, a);
    }
  }

  lemma {:induction false} SegmentsSucceed(s: Segments, file: seq<byte>, phdrs: seq<Phdr>, base: nat, room: nat)
    requires Sized(phdrs) && SegmentsApart(phdrs, base)
    requires forall p :: 0 <= p < |phdrs| && phdrs[p].kind.PtLoad? ==> SoundSegment(phdrs[p], |file|, room)
    requires forall p :: 0 <= p < |phdrs| ==>
      Available(s.mem, phdrs[p], base) && (phdrs[p].kind.PtLoad? ==> OffNull(phdrs[p], base))
    requires base % 0x1000 == 0 && base + room <= USER_TOP
    ensures LoadSegments(s, file, phdrs, base).Ok?
    decreases |phdrs|
  {
    hide LoadSegment, InPages, SoundSegment, SizedSegment, OffNull;
    if phdrs != [] {
      var ph, rest := phdrs[0], phdrs[1..];
      assert forall p :: 0 <= p < |rest| ==> rest[p] == phdrs[p + 1];
      var t := s;
      if ph.kind.PtLoad? {
        assert SizedSegment(ph) && Available(s.mem, ph, base);
        SegmentSucceeds(s.mem, file, ph, base, room);
        SegmentLoads(s.mem, file, ph, base);
        t := Segments(LoadSegment(s.mem, file, ph, base).value, MapEnd(ph, base));
      }
      forall p | 0 <= p < |rest|
        ensures Available(t.mem, rest[p], base)
      {
        assert Available(s.mem, phdrs[p + 1], base);
      }
      SegmentsSucceed(t, file, rest, base, room);
    }
  }

  lemma SegmentAvailable(m: Mem, file: nat, ph: Phdr, base: nat, room: nat)
    requires base % 0x1000 == 0 && Free(m, base, base + room)
    requires ph.kind.PtLoad? ==> SoundSegment(ph, file, room)
    ensures Available(m, ph, base)
  {
    hide PageUp, InPages;
    if ph.kind.PtLoad? {
      PageAboveBase(ph, base, room);
    }
  }

  lemma StepIsPage(base: nat)
    requires base % 0x40_0000 == 0
    ensures base % 0x1000 == 0
  {
  }

  lemma BinarySucceeds(w: World, m: Mem, path: Path, base: nat, room: nat)
    requires SizedFiles(w) && path in w.fs && WellFormed(w.fs[path], room)
    requires 0 < base && base % 0x40_0000 == 0 && base + room <= USER_TOP && Free(m, base, base + room)
    ensures LoadBinary(w, m, path, base).Ok?
  {
    hide Dynamic.Parse, SegmentsApart, Ascending, LoadSegments, SoundSegment, Free, Available, LastOf, SizedSegment;
    var img := w.fs[path];
    StepIsPage(base);
    ApartShift(img.phdrs, base);
    forall p | 0 <= p < |img.phdrs|
      ensures Available(m, img.phdrs[p], base)
    {
      SegmentAvailable(m, |img.file|, img.phdrs[p], base, room);
    }
    SegmentsSucceed(Segments(m, base), img.file, img.phdrs, base, room);
  }

  lemma PageAboveBase(ph: Phdr, base: nat, room: nat)
    requires base % 0x1000 == 0 && PageUp(ph.vaddr + ph.memsz) <= room
    ensures forall a: nat :: InPages(ph, base, a) ==> base <= a < base + room
  {
  }

  /** A load maps nothing from the next base on: what was free up to hi still is. */
  lemma FreeAfter(w: World, m: Mem, path: Path, base: nat, hi: nat)
    requires SizedFiles(w) && path in w.fs && Ascending(w.fs[path].phdrs) && base <= USER_TOP
    requires LoadBinary(w, m, path, base).Ok? && Free(m, LoadBinary(w, m, path, base).value.next, hi)
    ensures var l := LoadBinary(w, m, path, base).value;
      l.next % 0x40_0000 == 0 && Free(l.mem, l.next, hi)
  {
    var l := LoadBinary(w, m, path, base).value;
    BinaryLoads(w, m, path, base);
    StepUpBounds(l.bin.end);
    hide LoadBinary, PageDown, PageUp, StepUp, InSegments, InPages;
    forall a: nat | l.next <= a < hi
      ensures a !in l.mem
    {
      if Owns(l.bin, a) {
        EndIsTop(l.bin.phdrs, l.bin.base, a);
      }
    }
  }

  lemma EndOfLoaded(w: World, m: Mem, path: Path, base: nat)
    requires SizedFiles(w) && path in w.fs && w.fs[path].etype.EtDyn? && base <= USER_TOP
    requires LoadBinary(w, m, path, base).Ok?
    ensures LoadBinary(w, m, path, base).value.next == StepUp(EndOf(w.fs[path].phdrs, base, base))
  {
    hide LoadSegments, Dynamic.Parse, LastOf, EndOf, StepUp, TakesPages, HoldsBinary;
    BinaryLoads(w, m, path, base);
  }

  lemma EndWithin(img: Image, base: nat, room: nat)
    requires SoundSegments(img, room) && base % 0x40_0000 == 0 && room % 0x40_0000 == 0
    ensures base <= StepUp(EndOf(img.phdrs, base, base)) <= base + room
  {
    hide EndOf, StepUp, SoundSegment, SegmentsApart, Ascending, Sized;
    StepIsPage(base);
    EndBounded(img.phdrs, base, |img.file|, room);
    EndNotBelowBase(img.phdrs, base);
    StepUpBounds(EndOf(img.phdrs, base, base));
    StepUpWithin(base, EndOf(img.phdrs, base, base), room);
  }

  /** The next base after a well-formed library is at most `room` higher. */
  lemma RoomAfter(w: World, m: Mem, path: Path, base: nat, room: nat, hi: nat)
    requires SizedFiles(w) && path in w.fs && WellFormed(w.fs[path], room) && room % 0x40_0000 == 0
    requires base % 0x40_0000 == 0 && base <= USER_TOP && Free(m, base, hi)
    requires LoadBinary(w, m, path, base).Ok?
    ensures var l := LoadBinary(w, m, path, base).value;
      && base <= l.next <= base + room && l.next % 0x40_0000 == 0 && Free(l.mem, l.next, hi)
  {
    hide LoadBinary, StepUp, EndOf, SizedFiles, Dynamic.Parse, SoundSegment, SegmentsApart, Ascending, Sized;
    EndOfLoaded(w, m, path, base);
    EndWithin(w.fs[path], base, room);
    FreeAfter(w, m, path, base, hi);
  }

  lemma StepUpWithin(base: nat, end: nat, room: nat)
    requires base % 0x40_0000 == 0 && room % 0x40_0000 == 0 && end <= base + room
    ensures StepUp(end) <= base + room
  {
  }

  lemma {:induction false} EndBounded(phdrs: seq<Phdr>, base: nat, file: nat, room: nat)
    requires base % 0x1000 == 0
    requires forall p :: 0 <= p < |phdrs| && phdrs[p].kind.PtLoad? ==> SoundSegment(phdrs[p], file, room)
    ensures EndOf(phdrs, base, base) <= base + room
  {
    if phdrs != [] {
      var n := |phdrs| - 1;
      if phdrs[n].kind.PtLoad? {
        PagesShift(phdrs[n].vaddr + phdrs[n].memsz, base);
      } else {
        EndBounded(phdrs[..n], base, file, room);
      }
    }
  }

  // ---------- The whole load ----------

  /** Every request img makes, when it is loaded at base, is among reqs. */
  ghost predicate AsksAt(img: Image, base: nat, reqs: set<Request>) {
    Dynamic.Parse(img, base).Ok? ==>
      var d := Dynamic.Parse(img, base).value.dyn;
      forall n :: n in d.neededs ==> Request(n, d.runpath, d.rpath) in reqs
  }

  /** Every request img makes, wherever it is loaded, is among reqs. */
  ghost predicate AsksWithin(img: Image, reqs: set<Request>) {
    forall base: nat :: 0 < base <= USER_TOP ==> AsksAt(img, base, reqs)
  }

  /** reqs is closed: each request that is not skipped resolves to a well-formed
      library, all of whose own requests are among reqs. */
  ghost predicate Complete(w: World, reqs: set<Request>, room: nat) {
    forall q :: q in reqs && !Skipped(q.name) ==>
      var path := w.findLibrary(q.name, q.runpath, q.rpath);
      path.Some? && path.value in w.fs && WellFormed(w.fs[path.value], room) && AsksWithin(w.fs[path.value], reqs)
  }

  /** The names reqs can load. */
  ghost function NamesOf(reqs: set<Request>): (r: set<string>) {
    set q | q in reqs && !Skipped(q.name) :: q.name
  }

  /** From a on there are n times room user addresses where nothing is mapped. */
  ghost predicate FreeRooms(m: Mem, a: nat, n: nat, room: nat) {
    a + n * room <= USER_TOP && Free(m, a, a + n * room)
  }

  /** There is room for every such name not yet loaded; what is mapped
      elsewhere, such as the stack above, does not matter. */
  ghost predicate HasRoom(s: State, reqs: set<Request>, room: nat) {
    0 < s.next && s.next % 0x40_0000 == 0 && FreeRooms(s.mem, s.next, |NamesOf(reqs) - s.loaded|, room)
  }

  ghost predicate Among(q: seq<Pending>, reqs: set<Request>) {
    forall i :: 0 <= i < |q| ==> q[i].req in reqs
  }

  lemma OneNameLess(names: set<string>, loaded: set<string>, n: string)
    requires n in names && n !in loaded
    ensures |names - (loaded + {n})| == |names - loaded| - 1
  {
    assert names - loaded == (names - (loaded + {n})) + {n};
  }

  lemma SkippedNameCostsNothing(reqs: set<Request>, loaded: set<string>, n: string)
    requires Skipped(n)
    ensures NamesOf(reqs) - (loaded + {n}) == NamesOf(reqs) - loaded
  {
  }

  lemma AsksAreAmong(w: World, m: Mem, path: Path, base: nat, k: nat, reqs: set<Request>)
    requires LoadBinary(w, m, path, base).Ok?
    requires AsksAt(w.fs[path], if w.fs[path].etype.EtDyn? then base else 0, reqs)
    ensures Among(Asks(LoadBinary(w, m, path, base).value.bin, k), reqs)
  {
    hide LoadSegments, Dynamic.Parse, LastOf;
    var b := LoadBinary(w, m, path, base).value.bin;
    assert b.dyn == Dynamic.Parse(w.fs[path], if w.fs[path].etype.EtDyn? then base else 0).value.dyn;
    forall i | 0 <= i < |Asks(b, k)|
      ensures Asks(b, k)[i].req in reqs
    {
      assert Asks(b, k)[i].req == Request(b.dyn.neededs[i], b.dyn.runpath, b.dyn.rpath);
      assert b.dyn.neededs[i] in b.dyn.neededs;
    }
  }

  /** A library takes one of the rooms. */
  lemma LibrarySucceeds(w: World, s: State, path: Path, reqs: set<Request>, room: nat, n: nat)
    requires SizedFiles(w) && path in w.fs && WellFormed(w.fs[path], room) && room % 0x40_0000 == 0
    requires 0 < s.next && s.next % 0x40_0000 == 0 && FreeRooms(s.mem, s.next, n + 1, room)
    requires AsksWithin(w.fs[path], reqs)
    ensures LoadBinary(w, s.mem, path, s.next).Ok?
    ensures var l := LoadBinary(w, s.mem, path, s.next).value;
      && 0 < l.next && l.next % 0x40_0000 == 0 && FreeRooms(l.mem, l.next, n, room)
      && Among(Asks(l.bin, |s.bins|), reqs)
  {
    hide LoadBinary, WellFormed, Asks, SizedFiles, Free;
    OneRoomLess(n + 1, room);
    var hi := s.next + (n + 1) * room;
    FreeBelow(s.mem, s.next, s.next, s.next + room, hi);
    BinarySucceeds(w, s.mem, path, s.next, room);
    RoomAfter(w, s.mem, path, s.next, room, hi);
    var l := LoadBinary(w, s.mem, path, s.next).value;
    FreeBelow(l.mem, l.next, l.next, l.next + n * room, hi);
    assert AsksAt(w.fs[path], s.next, reqs);
    IsDynamic(w.fs[path], room);
    AsksAreAmong(w, s.mem, path, s.next, |s.bins|, reqs);
  }

  lemma FreeBelow(m: Mem, lo: nat, lo': nat, hi': nat, hi: nat)
    requires Free(m, lo, hi) && lo <= lo' && hi' <= hi
    ensures Free(m, lo', hi')
  {
  }

  lemma IsDynamic(img: Image, room: nat)
    requires WellFormed(img, room)
    ensures img.etype.EtDyn?
  {
  }

  lemma TurnSucceeds(w: World, s: State, q: seq<Pending>, reqs: set<Request>, room: nat)
    requires SizedFiles(w) && Complete(w, reqs, room) && room % 0x40_0000 == 0
    requires q != [] && Known(w, q) && Among(q, reqs) && HasRoom(s, reqs, room)
    ensures Turn(w, s, q).Ok?
    ensures HasRoom(Turn(w, s, q).value.s, reqs, room) && Among(Turn(w, s, q).value.q, reqs)
  {
    hide WellFormed, AsksWithin, LoadBinary, AllNames, FreeRooms, Asks, NamesOf, Skipped, SizedFiles;
    var req := q[0].req;
    if req.name !in s.loaded && Skipped(req.name) {
      SkippedNameCostsNothing(reqs, s.loaded, req.name);
    } else if req.name !in s.loaded {
      IsNameOf(reqs, req);
      OneNameLess(NamesOf(reqs), s.loaded, req.name);
      var left := |NamesOf(reqs) - s.loaded| - 1;
      LibrarySucceeds(w, s, w.findLibrary(req.name, req.runpath, req.rpath).value, reqs, room, left);
    }
  }

  lemma IsNameOf(reqs: set<Request>, q: Request)
    requires q in reqs && !Skipped(q.name)
    ensures q.name in NamesOf(reqs)
  {
  }

  lemma OneRoomLess(left: nat, room: nat)
    requires left > 0
    ensures left * room == (left - 1) * room + room && (left - 1) * room >= 0
  {
  }

  lemma {:induction false} DrainSucceeds(w: World, s: State, q: seq<Pending>, reqs: set<Request>, room: nat)
    requires SizedFiles(w) && Complete(w, reqs, room) && room % 0x40_0000 == 0
    requires Known(w, q) && Among(q, reqs) && HasRoom(s, reqs, room)
    ensures Drain(w, s, q).Ok?
    decreases AllNames(w) - s.loaded, |q|
  {
    hide Turn, HasRoom, Complete, Among;
    if q != [] {
      TurnSucceeds(w, s, q, reqs, room);
      DrainSucceeds(w, Turn(w, s, q).value.s, Turn(w, s, q).value.q, reqs, room);
    }
  }

  /** If the root loads, all that it and its libraries ask for resolves to
      well-formed libraries, and there is room for them, then the whole load
      succeeds: cycles and repeated names included. */
  lemma LoadSucceeds(w: World, s: State, root: Path, reqs: set<Request>, room: nat)
    requires SizedFiles(w) && Complete(w, reqs, room) && room % 0x40_0000 == 0
    requires Start(w, s, root).Ok? && Among(Start(w, s, root).value.q, reqs)
    requires HasRoom(Start(w, s, root).value.s, reqs, room)
    ensures LoadAll(w, s, root).Ok?
  {
    hide Start;
    DrainSucceeds(w, Start(w, s, root).value.s, Start(w, s, root).value.q, reqs, room);
  }

  /** A well-formed shared object or position-independent program starts; for
      ET_EXEC programs, see ExecStarts. */
  lemma StartSucceeds(w: World, s: State, root: Path, reqs: set<Request>, room: nat)
    requires SizedFiles(w) && root in w.fs && WellFormed(w.fs[root], room) && room % 0x40_0000 == 0
    requires AsksWithin(w.fs[root], reqs)
    requires 0 < s.next && s.next % 0x40_0000 == 0
    requires FreeRooms(s.mem, s.next, 1 + |NamesOf(reqs) - (s.loaded + {Filename(root)})|, room)
    ensures Start(w, s, root).Ok?
    ensures HasRoom(Start(w, s, root).value.s, reqs, room) && Among(Start(w, s, root).value.q, reqs)
  {
    hide WellFormed, AsksWithin, LoadBinary, AllNames, FreeRooms, Asks, NamesOf, Filename;
    LibrarySucceeds(w, s, root, reqs, room, |NamesOf(reqs) - (s.loaded + {Filename(root)})|);
  }

  // ---------- An ET_EXEC program ----------

  /** An ET_EXEC file with sound segments above page 0, at least one of them, and
      a dynamic section, if any, that parses. */
  ghost predicate WellFormedExec(img: Image) {
    && img.etype.EtExec? && SoundSegments(img, USER_TOP)
    && (exists p :: 0 <= p < |img.phdrs| && img.phdrs[p].kind.PtLoad?)
    && (forall p :: 0 <= p < |img.phdrs| && img.phdrs[p].kind.PtLoad? ==> OffNull(img.phdrs[p], 0))
    && Dynamic.Parse(img, 0).Ok?
  }

  /** The base address behind an ET_EXEC program. */
  function ExecNext(img: Image): (a: nat) {
    StepUp(EndOf(img.phdrs, 0, 0))
  }

  lemma ExecSucceeds(w: World, m: Mem, path: Path, base: nat)
    requires SizedFiles(w) && path in w.fs && WellFormedExec(w.fs[path])
    requires forall p :: 0 <= p < |w.fs[path].phdrs| ==> Available(m, w.fs[path].phdrs[p], 0)
    ensures LoadBinary(w, m, path, base).Ok?
  {
    hide InPages, PageUp, Dynamic.Parse, SegmentsApart, Ascending, LoadSegments, LastOf;
    var img := w.fs[path];
    SegmentsSucceed(Segments(m, 0), img.file, img.phdrs, 0, USER_TOP);
  }

  lemma {:induction false} EndIsPositive(phdrs: seq<Phdr>, p: nat)
    requires p < |phdrs| && phdrs[p].kind.PtLoad?
    requires forall q :: 0 <= q < |phdrs| && phdrs[q].kind.PtLoad? ==> phdrs[q].memsz > 0
    ensures EndOf(phdrs, 0, 0) > 0
  {
    var n := |phdrs| - 1;
    if !phdrs[n].kind.PtLoad? {
      assert phdrs[..n][p] == phdrs[p];
      EndIsPositive(phdrs[..n], p);
    }
  }

  /** A well-formed ET_EXEC program starts where its pages are free. */
  lemma ExecStarts(w: World, s: State, root: Path, reqs: set<Request>, room: nat)
    requires SizedFiles(w) && root in w.fs && WellFormedExec(w.fs[root]) && AsksAt(w.fs[root], 0, reqs)
    requires forall p :: 0 <= p < |w.fs[root].phdrs| ==> Available(s.mem, w.fs[root].phdrs[p], 0)
    requires s.next <= USER_TOP
    requires FreeRooms(s.mem, ExecNext(w.fs[root]), |NamesOf(reqs) - (s.loaded + {Filename(root)})|, room)
    ensures Start(w, s, root).Ok?
    ensures HasRoom(Start(w, s, root).value.s, reqs, room) && Among(Start(w, s, root).value.q, reqs)
  {
    hide AsksAt, AllNames, Free, Asks, NamesOf, Filename, Available, LoadSegments, LastOf, Ascending, SegmentsApart;
    hide Dynamic.Parse, StepUp, EndOf, FromFile, HoldsBinary, TakesPages, SizedFiles, LoadBinary, SoundSegment;
    var img := w.fs[root];
    ExecSucceeds(w, s.mem, root, s.next);
    BinaryLoads(w, s.mem, root, s.next);
    var l := LoadBinary(w, s.mem, root, s.next).value;
    ExecEnd(w, s.mem, root, s.next);
    var n := |NamesOf(reqs) - (s.loaded + {Filename(root)})|;
    FreeAfter(w, s.mem, root, s.next, l.next + n * room);
    AsksAreAmong(w, s.mem, root, s.next, |s.bins|, reqs);
  }

  lemma ExecEnd(w: World, m: Mem, path: Path, base: nat)
    requires SizedFiles(w) && path in w.fs && WellFormedExec(w.fs[path]) && base <= USER_TOP
    requires LoadBinary(w, m, path, base).Ok?
    ensures 0 < LoadBinary(w, m, path, base).value.next == ExecNext(w.fs[path])
  {
    hide LoadSegments, Dynamic.Parse, LastOf, SegmentsApart, Ascending;
    var l, img := LoadBinary(w, m, path, base).value, w.fs[path];
    BinaryLoads(w, m, path, base);
    assert l.bin.base == 0 && l.bin.phdrs == img.phdrs;
    hide StepUp, EndOf, LoadBinary, TakesPages, HoldsBinary;
    var p :| 0 <= p < |img.phdrs| && img.phdrs[p].kind.PtLoad?;
    assert SoundSegment(img.phdrs[p], |img.file|, USER_TOP);
    EndIsPositive(img.phdrs, p);
    StepUpBounds(l.bin.end);
  }
}

/** A program that opens a library: it defines f, to which main refers weakly,
    and has a TLS variable v. */
module OpenedLater {
  import opened Words
  import opened Memory
  import opened Outcomes
  import opened Elf
  import opened Loading
  import opened Symbols
  import opened LoadOrder
  import opened Relocation
  import opened Progress
  import opened Session
  import opened Examples
  import Dynamic
  import Tls

  /** A file with symbols and TLS, and no relocations. */
  function WithSymbols(ys: seq<Sym>, tls: nat): (img: Image) {
    Small([Dyn(DtStrtab, 16), Dyn(DtSymtab, 0x300)], map[], map[], ys, tls)
  }

  const REFERENCE := [Sym("f", 0, 0, false, true, false)]
  const DEFINITIONS := [Sym("f", 0x400, 8, true, false, false), Sym("v", 0, 8, true, false, true)]

  function MainFile(): (img: Image) { WithSymbols(REFERENCE, 0) }

  function LibraryFile(): (img: Image) { WithSymbols(DEFINITIONS, 8) }

  function OpeningWorld(): (w: World) {
    World(map["main" := MainFile(), "a" := LibraryFile()],
          (n, runpath, rpath) => Some("a"), map[], map[], 0, t => 1)
  }

  function OnlySymbols(ys: seq<Sym>): (p: Dynamic.Parsed) {
    Dynamic.Parsed(DynInfo([], None, None, map[DtSymtab := 0x300]), [], [], ys)
  }

  lemma SymbolsScanned(img: Image, base: nat)
    requires 0 < base <= USER_TOP && img.dyns == [Dyn(DtStrtab, 16), Dyn(DtSymtab, 0x300)]
    ensures Dynamic.FindStrtab(img.dyns, base, None) == Some(16)
    ensures Dynamic.ScanAll(img, Some(16), img.dyns, Dynamic.EMPTY)
            == Ok(DynInfo([], None, None, map[DtSymtab := 0x300]))
  {
    var d: seq<Dyn> := [Dyn(DtSymtab, 0x300)];
    assert img.dyns[1..] == d && d[1..] == [];
    assert Dynamic.FindStrtab(d, base, Some(16)) == Some(16);
    var acc := Dynamic.EMPTY;
    assert Dynamic.ScanEntry(img, Some(16), d[0], acc) == Ok(acc.(scalars := map[DtSymtab := 0x300]));
    assert Dynamic.ScanAll(img, Some(16), d, acc) == Ok(acc.(scalars := map[DtSymtab := 0x300]));
  }

  lemma SymbolsParse(ys: seq<Sym>, tls: nat)
    ensures ParsesTo(WithSymbols(ys, tls), OnlySymbols(ys))
  {
    hide Dynamic.ScanAll, Dynamic.FindStrtab, Dynamic.Parse;
    forall base: nat | 0 < base <= USER_TOP
      ensures Dynamic.Parse(WithSymbols(ys, tls), base) == Ok(OnlySymbols(ys))
    {
      ParseSmall(WithSymbols(ys, tls), tls, base);
      SymbolsScanned(WithSymbols(ys, tls), base);
    }
  }

  lemma OpeningFacts()
    ensures OpeningWorld().fs == map["main" := MainFile(), "a" := LibraryFile()]
    ensures OpeningWorld().findLibrary("a", None, None) == Some("a")
    ensures SizedFiles(OpeningWorld())
    ensures IsSmall(MainFile(), 0) && IsSmall(LibraryFile(), 8)
  {
    SymbolsParse(REFERENCE, 0);
    SymbolsParse(DEFINITIONS, 8);
    SmallIsWellFormed(MainFile(), 0, OnlySymbols(REFERENCE));
    SmallIsWellFormed(LibraryFile(), 8, OnlySymbols(DEFINITIONS));
  }

  /** The binary such a file becomes. */
  function Loads(path: Path, ys: seq<Sym>, tls: nat, base: nat): (b: Binary) {
    SmallBinary(path, WithSymbols(ys, tls), base, OnlySymbols(ys))
  }

  /** No binary has relocations. */
  ghost predicate Plain(bins: seq<Binary>) {
    forall k :: 0 <= k < |bins| ==> bins[k].pltrelas == [] && bins[k].relas == []
  }

  /** A load of one file, relocation included. */
  lemma OneLoad(w: World, s: State, path: Path, ys: seq<Sym>, tls: nat)
    requires SizedFiles(w) && path in w.fs && w.fs[path] == WithSymbols(ys, tls) && IsSmall(w.fs[path], tls)
    requires Plain(s.bins)
    requires 0 < s.next && s.next % 0x40_0000 == 0 && s.next + 0x40_0000 <= USER_TOP && Clear(s.mem, s.next)
    ensures LoadAndRelocate(w, s, path).Ok?
    ensures var t := LoadAndRelocate(w, s, path).value;
      && t.bins == s.bins + [Loads(path, ys, tls, s.next)] && Plain(t.bins)
      && t.next == s.next + 0x40_0000 && Clear(t.mem, t.next)
  {
    hide WithSymbols, IsSmall, ParsesTo, SizedFiles, LoadBinary, Clear, Asks, SmallBinary, RelocateAll, Loads, Filename;
    SymbolsParse(ys, tls);
    SmallLoads(w, s.mem, path, s.next, tls, OnlySymbols(ys));
    var l := LoadBinary(w, s.mem, path, s.next).value;
    LoadsIs(path, ys, tls, s.next);
    NoAsks(l.bin, |s.bins|);
    var t := Append(s, l, Root(Filename(path)));
    DrainNothing(w, t);
    assert LoadAll(w, s, path) == Ok(t);
    NothingToRelocate(w, t);
  }

  lemma LoadsIs(path: Path, ys: seq<Sym>, tls: nat, base: nat)
    ensures var b := Loads(path, ys, tls, base);
      && b == SmallBinary(path, WithSymbols(ys, tls), base, OnlySymbols(ys))
      && b.pltrelas == [] && b.relas == [] && b.dyn.neededs == [] && b.syms == ys && b.base == base
      && Tls.TlsSize(b) == tls && (b.tls.Some? <==> tls > 0)
  {
    TlsOf(tls);
  }

  lemma TlsOf(tls: nat)
    ensures LastOf(Headers(2, tls), PtTls) == if tls == 0 then None else Some(Phdr(PtTls, 0, 0, 4, tls))
  {
    var h := Headers(2, tls);
    if tls == 0 {
      assert h[..1][..0] == [] && LastOf(h[..1], PtTls) == None;
    } else {
      assert h[2] == Phdr(PtTls, 0, 0, 4, tls);
    }
  }

  lemma NothingToRelocate(w: World, t: State)
    requires Plain(t.bins)
    ensures RelocateAll(w, t).Ok?
    ensures var u := RelocateAll(w, t).value; u.bins == t.bins && u.next == t.next && u.mem.Keys == t.mem.Keys
    ensures Clear(t.mem, t.next) ==> Clear(RelocateAll(w, t).value.mem, t.next)
  {
    hide RelocateFirst;
    RelocateHaltsIff(w, t);
    RelocatesFreshPaths(w, t);
    KeysAfter(w, t, |t.bins|);
    var u := RelocateAll(w, t).value;
    assert forall a: nat :: a in u.mem <==> a in u.mem.Keys;
  }

  lemma FoundWeakly(b: Binary)
    requires b.syms == REFERENCE && b.base == 0x140_0000
    ensures DlsymAddr([b], "f") == Some(0x140_0000)
  {
    var bins := [b];
    assert Scan(bins, "f", Definition, 1) == None && Scan(bins, "f", Definition, 0) == None;
    assert MatchesAt(bins, Place(0, 0), "f", WeakReference);
    assert ScanSyms(b.syms, "f", WeakReference, 0) == Some(0);
  }

  lemma FoundDefined(b: Binary, c: Binary)
    requires b.syms == REFERENCE && c.syms == DEFINITIONS && c.base == 0x180_0000
    ensures DlsymAddr([b, c], "f") == Some(0x180_0400)
  {
    var bins := [b, c];
    assert MatchesAt(bins, Place(1, 0), "f", Definition);
    var p := Scan(bins, "f", Definition, 0).value;
    assert MatchesAt(bins, p, "f", Definition) && p == Place(1, 0);
  }

  const MAIN := Loads("main", REFERENCE, 0, 0x140_0000)
  const LIBRARY := Loads("a", DEFINITIONS, 8, 0x180_0000)

  lemma MainStarts()
    ensures LoadAndRelocate(OpeningWorld(), Initial(map[]), "main").Ok?
    ensures var s := LoadAndRelocate(OpeningWorld(), Initial(map[]), "main").value;
      s.bins == [MAIN] && Plain(s.bins) && s.next == 0x180_0000 && Clear(s.mem, s.next)
  {
    OpeningFacts();
    assert MainFile() == WithSymbols(REFERENCE, 0);
    hide OpeningWorld, MainFile, LibraryFile, WithSymbols, IsSmall, SizedFiles, LoadAndRelocate, Clear, Loads;
    NamesDiffer();
    ClearNothing(0x140_0000);
    assert [] + [MAIN] == [MAIN];
    OneLoad(OpeningWorld(), Initial(map[]), "main", REFERENCE, 0);
  }

  lemma LibraryOpens(s: State)
    requires s.bins == [MAIN] && Plain(s.bins) && s.next == 0x180_0000 && Clear(s.mem, s.next)
    ensures LoadAndRelocate(OpeningWorld(), s, "a").Ok?
    ensures LoadAndRelocate(OpeningWorld(), s, "a").value.bins == [MAIN, LIBRARY]
  {
    OpeningFacts();
    assert LibraryFile() == WithSymbols(DEFINITIONS, 8);
    hide OpeningWorld, MainFile, LibraryFile, WithSymbols, IsSmall, SizedFiles, LoadAndRelocate, Clear, Loads;
    NamesDiffer();
    assert [MAIN] + [LIBRARY] == [MAIN, LIBRARY];
    OneLoad(OpeningWorld(), s, "a", DEFINITIONS, 8);
  }

  /** The program starts and opens a. */
  lemma ProgramOpens()
    ensures Program(OpeningWorld(), map[], "main", []).Ok?
    ensures Program(OpeningWorld(), map[], "main", [Dlopen(Some("a"))]).Ok?
    ensures Program(OpeningWorld(), map[], "main", []).value.bins == [MAIN]
    ensures Program(OpeningWorld(), map[], "main", [Dlopen(Some("a"))]).value.bins == [MAIN, LIBRARY]
  {
    hide OpeningWorld, LoadAndRelocate, Clear, Skipped, Loads, Plain;
    OpeningResolves();
    ShortNotSkipped("a");
    MainStarts();
    var s := LoadAndRelocate(OpeningWorld(), Initial(map[]), "main").value;
    LibraryOpens(s);
    OneStepRun(OpeningWorld(), s, LoadAndRelocate(OpeningWorld(), s, "a").value);
  }

  lemma OpeningResolves()
    ensures OpeningWorld().findLibrary("a", None, None) == Some("a")
  {
  }

  /** dlsym's answer for f moves. */
  lemma WeakNameMoves()
    ensures Program(OpeningWorld(), map[], "main", []).Ok?
    ensures Program(OpeningWorld(), map[], "main", [Dlopen(Some("a"))]).Ok?
    ensures DlsymAddr(Program(OpeningWorld(), map[], "main", []).value.bins, "f") == Some(0x140_0000)
    ensures DlsymAddr(Program(OpeningWorld(), map[], "main", [Dlopen(Some("a"))]).value.bins, "f") == Some(0x180_0400)
  {
    hide OpeningWorld, Program, DlsymAddr, Loads;
    ProgramOpens();
    LoadsIs("main", REFERENCE, 0, 0x140_0000);
    LoadsIs("a", DEFINITIONS, 8, 0x180_0000);
    FoundWeakly(MAIN);
    FoundDefined(MAIN, LIBRARY);
  }

  /** The variable v is not laid out: its block ends where the part Execute laid out begins. */
  lemma LaterTlsNotLaidOut(m: Mem, bytes: seq<byte>)
    requires |bytes| == Tls.AREA_SIZE
    ensures Program(OpeningWorld(), map[], "main", []).Ok?
    ensures Program(OpeningWorld(), map[], "main", [Dlopen(Some("a"))]).Ok?
    ensures var s, u := Program(OpeningWorld(), map[], "main", []).value,
          Program(OpeningWorld(), map[], "main", [Dlopen(Some("a"))]).value;
      && |u.bins| == 2 && Scan(u.bins, "v", TlsDefinition, 0) == Some(Place(1, 1))
      && Tls.InitTls(OpeningWorld(), m, s.bins, bytes) == Ok(Tls.Area(bytes, 4096))
      && Tls.BlockStart(u.bins, 1) == 4088 && Tls.TlsSize(u.bins[1]) == 8
  {
    hide OpeningWorld, Program, Loads;
    ProgramOpens();
    LoadsIs("main", REFERENCE, 0, 0x140_0000);
    LoadsIs("a", DEFINITIONS, 8, 0x180_0000);
    FindsV(MAIN, LIBRARY);
    NoTlsYet(OpeningWorld(), m, MAIN, LIBRARY, bytes);
  }

  lemma FindsV(b: Binary, c: Binary)
    requires b.syms == REFERENCE && c.syms == DEFINITIONS
    ensures Scan([b, c], "v", TlsDefinition, 0) == Some(Place(1, 1))
  {
    var bins := [b, c];
    assert MatchesAt(bins, Place(1, 1), "v", TlsDefinition);
    var p := Scan(bins, "v", TlsDefinition, 0).value;
    assert MatchesAt(bins, p, "v", TlsDefinition) && !Precedes(Place(1, 1), p);
  }

  lemma NoTlsYet(w: World, m: Mem, b: Binary, c: Binary, bytes: seq<byte>)
    requires |bytes| == Tls.AREA_SIZE && b.tls.None? && Tls.TlsSize(c) == 8
    ensures Tls.InitTls(w, m, [b], bytes) == Ok(Tls.Area(bytes, 4096)) && Tls.BlockStart([b, c], 1) == 4088
  {
    assert Tls.TlsSum([b], 0) == 0 && Tls.TlsSum([b], 1) == 0;
    assert Tls.LayOut(w, m, [b], 0, bytes) == Ok(Tls.Area(bytes, 4096));
    assert Tls.TlsSum([b, c], 0) == 0 && Tls.TlsSum([b, c], 1) == 0;
  }

  lemma OneStepRun(w: World, s: State, u: State)
    requires DoStep(w, s, Dlopen(Some("a"))) == Ok(u)
    ensures Run(w, s, [Dlopen(Some("a"))]) == Ok(u) && Run(w, s, []) == Ok(s)
  {
    var steps := [Dlopen(Some("a"))];
    hide DoStep;
    assert steps[1..] == [];
    assert Run(w, u, []) == Ok(u);
  }
}

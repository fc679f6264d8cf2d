/** A program that needs every part of the loader: main copies a variable x of
    library a and refers to it, calls a's function fn through its PLT, a
    initialises x with a pointer by a relocation, both have initialised TLS, and
    main refers to its own variable tm in it. It meets the conditions of the
    relocation, binding and TLS theorems, and shows where the loader departs from
    the standards. */
module Linked {
  import opened Words
  import opened Memory
  import opened Outcomes
  import opened Elf
  import opened Loading
  import opened Symbols
  import opened Effects
  import opened LoadOrder
  import opened AddressSpace
  import opened Relocation
  import opened RelocationOrder
  import opened CopyRelocation
  import opened Progress
  import opened Session
  import opened Bindings
  import opened Examples
  import Dynamic
  import Tls

  // ---------- The two files ----------

  const PLT := Rela(0x700, JumpSlot, 3, 0)
  const SLOT := Rela(0x400, GlobDat, 1, 0)
  const COPY := Rela(0x500, Copy, 1, 0)
  const OFFSET := Rela(0x600, Tpoff64, 2, 0)
  const INIT_X := Rela(0x400, Relative, 0, 0x10)

  function Blank(): (y: Sym) { Sym("", 0, 0, false, false, false) }

  function MainSyms(): (r: seq<Sym>) {
    [Blank(), Sym("x", 0x500, 8, true, false, false), Sym("tm", 0, 4, true, false, true),
     Sym("fn", 0, 0, false, false, false)]
  }

  function ASyms(): (r: seq<Sym>) {
    [Blank(), Sym("x", 0x400, 8, true, false, false), Sym("fn", 0x20, 8, true, false, false)]
  }

  /** The relocation and symbol tables of n records. */
  function Tables(n: nat): (r: seq<Dyn>)
    requires n < 10
  {
    [Dyn(DtRela, 0x200), Dyn(DtRelasz, 24 * n), Dyn(DtRelaent, 24), Dyn(DtSymtab, 0x300)]
  }

  function MainFile(): (img: Image) {
    Small([Dyn(DtStrtab, 16), Dyn(DtNeeded, 1), Dyn(DtJmprel, 0x280), Dyn(DtPltrelsz, 24), Dyn(DtPltrel, 7)]
          + Tables(3), map[17 := "a"], map[0x200 := SLOT, 0x218 := COPY, 0x230 := OFFSET, 0x280 := PLT], MainSyms(), 4)
  }

  function AFile(): (img: Image) {
    Small([Dyn(DtStrtab, 16)] + Tables(1), map[], map[0x200 := INIT_X], ASyms(), 8)
  }

  function LinkedWorld(): (w: World) {
    World(map["main" := MainFile(), "a" := AFile()], (n, runpath, rpath) => Some("a"), map[], map[], 0, t => 1)
  }

  // ---------- What they parse to ----------

  function Scalars(n: nat): (r: map<Tag, u64>)
    requires n < 10
  {
    map[DtRela := 0x200, DtRelasz := 24 * n, DtRelaent := 24, DtSymtab := 0x300]
  }

  const PLT_SCALARS: map<Tag, u64> := map[DtJmprel := 0x280, DtPltrelsz := 24, DtPltrel := 7]

  lemma ScanTables(img: Image, n: nat, acc: DynInfo)
    requires n < 10
    ensures Dynamic.ScanAll(img, Some(16), Tables(n), acc) == Ok(acc.(scalars := acc.scalars + Scalars(n)))
  {
    var t := Tables(n);
    var a1 := acc.(scalars := acc.scalars[DtRela := 0x200]);
    var a2 := a1.(scalars := a1.scalars[DtRelasz := 24 * n]);
    var a3 := a2.(scalars := a2.scalars[DtRelaent := 24]);
    var a4 := a3.(scalars := a3.scalars[DtSymtab := 0x300]);
    assert a4.scalars == acc.scalars + Scalars(n);
    assert Dynamic.ScanAll(img, Some(16), t[3..], a3) == Ok(a4) by { assert t[3..][1..] == []; }
    assert Dynamic.ScanAll(img, Some(16), t[2..], a2) == Ok(a4) by { assert t[2..][1..] == t[3..]; }
    assert Dynamic.ScanAll(img, Some(16), t[1..], a1) == Ok(a4) by { assert t[1..][1..] == t[2..]; }
  }

  lemma {:induction false} TablesHaveNoStrtab(t: seq<Dyn>, base: nat)
    requires forall i :: 0 <= i < |t| ==> !t[i].tag.DtStrtab?
    ensures Dynamic.FindStrtab(t, base, Some(16)) == Some(16)
  {
    if t != [] {
      TablesHaveNoStrtab(t[1..], base);
    }
  }

  function MainParsed(): (p: Dynamic.Parsed) {
    Dynamic.Parsed(DynInfo(["a"], None, None, PLT_SCALARS + Scalars(3)), [SLOT, COPY, OFFSET], [PLT], MainSyms())
  }

  function AParsed(): (p: Dynamic.Parsed) {
    Dynamic.Parsed(DynInfo([], None, None, Scalars(1)), [INIT_X], [], ASyms())
  }

  lemma MainRecords()
    ensures Dynamic.ReadRelas(MainFile(), 0x200, 3) == Ok([SLOT, COPY, OFFSET])
    ensures Dynamic.ReadRelas(MainFile(), 0x280, 1) == Ok([PLT])
  {
    var img := MainFile();
    assert img.relaTable == map[0x200 := SLOT, 0x218 := COPY, 0x230 := OFFSET, 0x280 := PLT];
    hide MainFile;
    assert Dynamic.ReadRelas(img, 0x248, 0) == Ok([]);
    assert [OFFSET] + [] == [OFFSET];
    assert Dynamic.ReadRelas(img, 0x230, 1) == Ok([OFFSET]);
    assert [COPY] + [OFFSET] == [COPY, OFFSET];
    assert Dynamic.ReadRelas(img, 0x218, 2) == Ok([COPY, OFFSET]);
    assert [SLOT] + [COPY, OFFSET] == [SLOT, COPY, OFFSET];
    assert Dynamic.ReadRelas(img, 0x298, 0) == Ok([]);
    assert [PLT] + [] == [PLT];
  }

  lemma MainFields()
    ensures var d := MainParsed().dyn;
      && d.scalars == PLT_SCALARS + Scalars(3)
      && MainParsed() == Dynamic.Parsed(d, [SLOT, COPY, OFFSET], [PLT], MainSyms()) && MainFile().syms == MainSyms()
  {
  }

  lemma MainTables(base: nat)
    requires 0 < base <= USER_TOP
    ensures Dynamic.ReadTables(MainFile(), base, MainParsed().dyn) == Ok(MainParsed())
  {
    hide MainFile, MainParsed, MainSyms, Dynamic.ReadRelas;
    MainRecords();
    MainFields();
  }

  lemma ATables(base: nat)
    requires 0 < base <= USER_TOP
    ensures Dynamic.ReadTables(AFile(), base, AParsed().dyn) == Ok(AParsed())
  {
    var img := AFile();
    assert Dynamic.ReadRelas(img, 0x218, 0) == Ok([]);
    assert [INIT_X] + [] == [INIT_X];
    assert Dynamic.ReadRelas(img, 0x200, 1) == Ok([INIT_X]);
  }

  /** The entries of main behind DT_STRTAB. */
  function MainRest(): (r: seq<Dyn>) {
    [Dyn(DtNeeded, 1), Dyn(DtJmprel, 0x280), Dyn(DtPltrelsz, 24), Dyn(DtPltrel, 7)] + Tables(3)
  }

  lemma RestScanned(img: Image)
    requires img.strings == map[17 := "a"]
    ensures Dynamic.ScanAll(img, Some(16), MainRest(), Dynamic.EMPTY) == Ok(MainParsed().dyn)
  {
    var d := MainRest();
    var a0 := Dynamic.EMPTY.(neededs := ["a"]);
    var a1 := a0.(scalars := map[DtJmprel := 0x280]);
    var a2 := a1.(scalars := a1.scalars[DtPltrelsz := 24]);
    var a3 := a2.(scalars := a2.scalars[DtPltrel := 7]);
    assert a3.scalars == PLT_SCALARS && Dynamic.EMPTY.neededs + ["a"] == ["a"];
    assert d[4..] == Tables(3);
    ScanTables(img, 3, a3);
    hide Tables, Scalars;
    assert Dynamic.ScanAll(img, Some(16), d[3..], a2) == Ok(MainParsed().dyn) by { assert d[3..][1..] == d[4..]; }
    assert Dynamic.ScanAll(img, Some(16), d[2..], a1) == Ok(MainParsed().dyn) by { assert d[2..][1..] == d[3..]; }
    assert Dynamic.ScanAll(img, Some(16), d[1..], a0) == Ok(MainParsed().dyn) by { assert d[1..][1..] == d[2..]; }
    assert Dynamic.ScanEntry(img, Some(16), d[0], Dynamic.EMPTY) == Ok(a0);
  }

  lemma MainScans(base: nat)
    requires 0 < base <= USER_TOP
    ensures Dynamic.FindStrtab(MainFile().dyns, base, None) == Some(16)
    ensures Dynamic.ScanAll(MainFile(), Some(16), MainFile().dyns, Dynamic.EMPTY) == Ok(MainParsed().dyn)
  {
    var img := MainFile();
    assert img.dyns == [Dyn(DtStrtab, 16)] + MainRest() && img.strings == map[17 := "a"];
    TablesHaveNoStrtab(MainRest(), base);
    hide MainFile, MainRest, MainParsed;
    assert img.dyns[1..] == MainRest();
    RestScanned(img);
  }

  lemma AScans(base: nat)
    requires 0 < base <= USER_TOP
    ensures Dynamic.FindStrtab(AFile().dyns, base, None) == Some(16)
    ensures Dynamic.ScanAll(AFile(), Some(16), AFile().dyns, Dynamic.EMPTY) == Ok(AParsed().dyn)
  {
    var img := AFile();
    assert img.dyns[1..] == Tables(1);
    TablesHaveNoStrtab(Tables(1), base);
    ScanTables(img, 1, Dynamic.EMPTY);
    assert map[] + Scalars(1) == Scalars(1);
  }

  lemma FilesParse()
    ensures ParsesTo(MainFile(), MainParsed()) && ParsesTo(AFile(), AParsed())
  {
    hide Dynamic.ScanAll, Dynamic.FindStrtab, Dynamic.ReadTables, Dynamic.Parse;
    forall base: nat | 0 < base <= USER_TOP
      ensures Dynamic.Parse(MainFile(), base) == Ok(MainParsed()) && Dynamic.Parse(AFile(), base) == Ok(AParsed())
    {
      ParseSmall(MainFile(), 4, base);
      ParseSmall(AFile(), 8, base);
      MainScans(base);
      AScans(base);
      MainTables(base);
      ATables(base);
    }
  }

  lemma FilesSized()
    ensures SizedFiles(LinkedWorld())
  {
    FilesParse();
    hide ParsesTo;
    SmallIsWellFormed(MainFile(), 4, MainParsed());
    SmallIsWellFormed(AFile(), 8, AParsed());
  }

  // ---------- Loading ----------

  function M(): (b: Binary) { SmallBinary("main", MainFile(), 0x140_0000, MainParsed()) }

  function A(): (b: Binary) { SmallBinary("a", AFile(), 0x180_0000, AParsed()) }

  /** What loading gives. */
  ghost predicate Ready(t: State) {
    && LoadAll(LinkedWorld(), Initial(map[]), "main") == Ok(t)
    && t.bins == [M(), A()]
    && t.log == [Root("main"), Needed("a", 0)]
  }

  lemma LinkedFacts()
    ensures var w := LinkedWorld(); "main" in w.fs && "a" in w.fs && w.fs["main"] == MainFile() && w.fs["a"] == AFile()
    ensures LinkedWorld().findLibrary("a", None, None) == Some("a")
    ensures IsSmall(MainFile(), 4) && IsSmall(AFile(), 8)
    ensures Asks(M(), 0) == [Ask("a", 0)] && Asks(A(), 1) == []
    ensures !Skipped("a") && "a" != "main"
  {
    OneAsk(M(), 0, "a");
    NoAsks(A(), 1);
    ShortNotSkipped("a");
  }

  lemma LinkedLoads() returns (t: State)
    ensures Ready(t)
  {
    var w, s0 := LinkedWorld(), Initial(map[]);
    LinkedFacts();
    FilesParse();
    FilesSized();
    MainFilename();
    hide LinkedWorld, MainFile, AFile, MainParsed, AParsed, IsSmall, ParsesTo, SizedFiles, LoadBinary;
    hide Clear, Asks, Turn, Drain, Filename, Skipped, M, A, SmallBinary;
    assert M() == SmallBinary("main", MainFile(), 0x140_0000, MainParsed()) by { MIs(); }
    assert A() == SmallBinary("a", AFile(), 0x180_0000, AParsed()) by { AIs(); }
    ClearNothing(s0.next);
    SmallLoads(w, s0.mem, "main", s0.next, 4, MainParsed());
    var l0 := LoadBinary(w, s0.mem, "main", s0.next).value;
    var s1 := Append(s0, l0, Root("main"));
    assert Start(w, s0, "main") == Ok(Work(s1, [Ask("a", 0)]));
    SmallLoads(w, s1.mem, "a", s1.next, 8, AParsed());
    var l1 := LoadBinary(w, s1.mem, "a", s1.next).value;
    t := Append(s1, l1, Needed("a", 0));
    TurnLoads(w, s1, [Ask("a", 0)], "a", l1);
    assert [Ask("a", 0)][1..] + [] == [];
    DrainNothing(w, t);
    DrainTurn(w, s1, [Ask("a", 0)], t, []);
  }

  lemma MIs()
    ensures M() == SmallBinary("main", MainFile(), 0x140_0000, MainParsed())
  {
  }

  lemma AIs()
    ensures A() == SmallBinary("a", AFile(), 0x180_0000, AParsed())
  {
  }

  // ---------- Relocating ----------

  function Bins(): (r: seq<Binary>) { [M(), A()] }

  const PAGE := Phdr(PtLoad, 0, 0, 16, 4096)

  lemma FileFacts()
    ensures MainFile().syms == MainSyms() && AFile().syms == ASyms()
    ensures MainFile().relaTable == map[0x200 := SLOT, 0x218 := COPY, 0x230 := OFFSET, 0x280 := PLT]
    ensures AFile().relaTable == map[0x200 := INIT_X]
    ensures |MainFile().phdrs| > 0 && MainFile().phdrs[0] == PAGE && |AFile().phdrs| > 0 && AFile().phdrs[0] == PAGE
  {
  }

  lemma WorldFacts()
    ensures LinkedWorld().fs == map["main" := MainFile(), "a" := AFile()] && LinkedWorld().libcMap == map[]
  {
  }

  lemma MainFacts()
    ensures M().path == "main" && M().base == 0x140_0000 && M().syms == MainSyms()
    ensures Relas(M()) == [PLT, SLOT, COPY, OFFSET]
    ensures M().phdrs == MainFile().phdrs && M().pltrelas == [PLT] && M().relas == [SLOT, COPY, OFFSET]
  {
  }

  lemma AFacts()
    ensures A().path == "a" && A().base == 0x180_0000 && A().syms == ASyms() && Relas(A()) == [INIT_X]
    ensures A().phdrs == AFile().phdrs && A().pltrelas == [] && A().relas == [INIT_X]
  {
  }

  lemma Names()
    ensures "x" != "" && "x" != "tm" && "x" != "fn" && "fn" != "" && "tm" != "" && "tm" != "fn"
  {
    assert |"x"| != |"tm"| && |"x"| != |"fn"| && "tm"[0] != "fn"[0];
  }

  lemma FindsX()
    ensures Search(Bins(), "x", false) == Some(Place(0, 1)) && MatchesAt(Bins(), Place(0, 1), "x", Definition)
    ensures Search(Bins(), "x", true) == Some(Place(1, 1))
  {
    MainFacts();
    AFacts();
    hide M, A;
    Names();
    assert MatchesAt(Bins(), Place(0, 1), "x", Definition) && MatchesAt(Bins(), Place(1, 1), "x", Definition);
    var p := Scan(Bins(), "x", Definition, 0).value;
    assert !Precedes(Place(0, 1), p) && MatchesAt(Bins(), p, "x", Definition);
    var q := Scan(Bins(), "x", Definition, 1).value;
    assert !Precedes(Place(1, 1), q) && MatchesAt(Bins(), q, "x", Definition);
  }

  lemma FindsFn()
    ensures Search(Bins(), "fn", false) == Some(Place(1, 2))
  {
    MainFacts();
    AFacts();
    hide M, A;
    Names();
    assert MatchesAt(Bins(), Place(1, 2), "fn", Definition);
    var p := Scan(Bins(), "fn", Definition, 0).value;
    assert !Precedes(Place(1, 2), p) && MatchesAt(Bins(), p, "fn", Definition);
  }

  lemma AddressesOfX()
    ensures SymbolAddr(Bins(), Place(0, 1)) == 0x140_0500 && SymbolAddr(Bins(), Place(1, 1)) == 0x180_0400
    ensures SymbolAddr(Bins(), Place(1, 2)) == 0x180_0020 && Target(M(), PLT) == 0x140_0700
    ensures Target(M(), SLOT) == 0x140_0400 && Target(M(), COPY) == 0x140_0500 && Target(M(), OFFSET) == 0x140_0600
    ensures Target(A(), INIT_X) == 0x180_0400
  {
    MainFacts();
    AFacts();
    hide M, A;
  }

  const PUT_PLT := Put(0x140_0700, 0x180_0020)
  const PUT_SLOT := Put(0x140_0400, 0x140_0500)
  const COPY_X := CopyFrom(0x140_0500, 0x180_0400, 8)
  const PUT_OFFSET := Put(0x140_0600, 0xffff_ffff_ffff_fffc)
  const PUT_X := Put(0x180_0400, 0x180_0010)

  lemma OffsetOfTm()
    ensures Tls.SymOffset(LinkedWorld(), Bins(), "tm") == Some(0xffff_ffff_ffff_fffc)
  {
    FindsTm();
    TlsSums();
    hide M, A, Bins, LinkedWorld, Scan, Tls.TlsSum;
  }

  lemma MainEffects()
    ensures EffectsOf(LinkedWorld(), Bins(), M()) == [PUT_PLT, PUT_SLOT, COPY_X, PUT_OFFSET]
  {
    FindsX();
    FindsFn();
    AddressesOfX();
    WorldFacts();
    MainFacts();
    AFacts();
    OffsetOfTm();
    hide M, A, LinkedWorld, Search, SymbolAddr, Target, Tls.SymOffset;
    assert EffectOf(LinkedWorld(), Bins(), M(), PLT) == PUT_PLT;
    assert EffectOf(LinkedWorld(), Bins(), M(), SLOT) == PUT_SLOT;
    assert EffectOf(LinkedWorld(), Bins(), M(), COPY) == COPY_X;
    assert EffectOf(LinkedWorld(), Bins(), M(), OFFSET) == PUT_OFFSET;
  }

  lemma AEffects()
    ensures EffectsOf(LinkedWorld(), Bins(), A()) == [PUT_X]
  {
    AddressesOfX();
    AFacts();
    hide M, A, LinkedWorld, Target;
    assert EffectOf(LinkedWorld(), Bins(), A(), INIT_X) == PUT_X;
  }

  // ---------- The conditions on the files ----------

  lemma XHasSizeEight(n: nat)
    requires CopySize(LinkedWorld(), "x", n)
    ensures n == 8
  {
    FileFacts();
    WorldFacts();
    hide MainFile, AFile, LinkedWorld;
  }

  lemma InPage(img: Image, a: nat)
    requires |img.phdrs| > 0 && img.phdrs[0] == PAGE && a + 8 <= 4096
    ensures InsideSegment(img.phdrs, a, 8)
  {
    assert InThisSegment(img.phdrs[0], a, 8);
  }

  lemma MainContained()
    ensures SelfContained(LinkedWorld(), MainFile())
  {
    FileFacts();
    hide MainFile, LinkedWorld, CopySize, InsideSegment;
    InPage(MainFile(), 0x400);
    InPage(MainFile(), 0x500);
    InPage(MainFile(), 0x600);
    InPage(MainFile(), 0x700);
    forall n | CanSpan(LinkedWorld(), MainFile().syms, COPY, n)
      ensures n == 8
    {
      XHasSizeEight(n);
    }
  }

  lemma AContained()
    ensures SelfContained(LinkedWorld(), AFile())
  {
    FileFacts();
    hide AFile, LinkedWorld, CopySize, InsideSegment;
    InPage(AFile(), 0x400);
  }

  lemma FilesAreTidy()
    ensures Tidy(LinkedWorld(), Initial(map[]))
  {
    MainContained();
    AContained();
    WorldFacts();
    hide MainFile, AFile, LinkedWorld, SelfContained;
  }

  lemma SourcesAreInside()
    ensures SourcesInside(LinkedWorld(), map[], "main")
  {
    var w := LinkedWorld();
    FileFacts();
    WorldFacts();
    hide MainFile, AFile, LinkedWorld, InsideSegment;
    InPage(MainFile(), 0x500);
    InPage(AFile(), 0x400);
    assert "x" != "" && "x" != "tm";
    assert SourceInside(w, map[], "x");
  }

  lemma BinariesApart()
    ensures RecordsApart(LinkedWorld(), M()) && RecordsApart(LinkedWorld(), A())
  {
    MainFacts();
    AFacts();
    hide M, A, LinkedWorld, CopySize;
    forall n | CanSpan(LinkedWorld(), M().syms, COPY, n)
      ensures n == 8
    {
      XHasSizeEight(n);
    }
  }

  // ---------- The conditions on the state ----------

  /** Every page address of one of the two binaries is its own. */
  lemma PagesOwned(a: nat)
    ensures 0x140_0000 <= a < 0x140_1000 ==> Owns(M(), a)
    ensures 0x180_0000 <= a < 0x180_1000 ==> Owns(A(), a)
  {
    FileFacts();
    MainFacts();
    AFacts();
    hide M, A, MainFile, AFile;
    assert 0x140_0000 <= a < 0x140_1000 ==> InPages(M().phdrs[0], M().base, a);
    assert 0x180_0000 <= a < 0x180_1000 ==> InPages(A().phdrs[0], A().base, a);
  }

  lemma PagesMapped(t: State)
    requires Ready(t)
    ensures Placed(LinkedWorld(), t) && Added(LinkedWorld(), t, 0, map[])
    ensures Mapped(t.mem, 0x140_0000, 4096) && Mapped(t.mem, 0x180_0000, 4096)
  {
    FilesSized();
    StartSound(LinkedWorld(), map[]);
    hide LoadAll, M, A, LinkedWorld, FromFile, InSegments, HoldsBinary, SizedFiles;
    LoadAllPlaces(LinkedWorld(), Initial(map[]), "main");
    assert t.bins[0] == M() && t.bins[1] == A();
    forall a: nat | 0x140_0000 <= a < 0x140_0000 + 4096
      ensures a in t.mem
    {
      PagesOwned(a);
    }
    forall a: nat | 0x180_0000 <= a < 0x180_0000 + 4096
      ensures a in t.mem
    {
      PagesOwned(a);
    }
  }

  lemma EffectsApply(t: State)
    requires Ready(t)
    ensures RelocateAll(LinkedWorld(), t).Ok?
  {
    hide LoadAll, M, A, LinkedWorld, Placed, Added, EffectsOf, RelocateAll;
    var w := LinkedWorld();
    MainEffects();
    AEffects();
    PagesMapped(t);
    assert t.bins[0] == M() && t.bins[1] == A() && t.bins == Bins();
    assert Mapped(t.mem, 0x140_0400, 8) && Mapped(t.mem, 0x140_0500, 8) && Mapped(t.mem, 0x140_0600, 8);
    assert Mapped(t.mem, 0x140_0700, 8) && Mapped(t.mem, 0x180_0400, 8);
    hide Mapped;
    forall k: nat, e | Fresh(t, k) && e in EffectsOf(w, t.bins, t.bins[k])
      ensures Applicable(t.mem, e)
    {
      assert k == 0 || k == 1;
    }
    HaltsOnEffect(w, t);
  }

  /** Both binaries meet the conditions of the relocation theorems. */
  lemma BothRelocatable(t: State)
    requires Ready(t)
    ensures Relocatable(LinkedWorld(), t, 0) && Relocatable(LinkedWorld(), t, 1)
  {
    hide LoadAll, M, A, LinkedWorld, Placed, Added, Closure, Settled, Tidy;
    hide RecordsApart, SizedFiles, Relocatable, Mapped;
    var w, s0 := LinkedWorld(), Initial(map[]);
    FilesSized();
    FilesAreTidy();
    BinariesApart();
    PagesMapped(t);
    StartSound(w, map[]);
    MainFacts();
    AFacts();
    NamesDiffer();
    LoadAllCloses(w, s0, "main");
    assert t.bins[0] == M() && t.bins[1] == A();
    LoadedRelocatable(w, s0, t, 0);
    LoadedRelocatable(w, s0, t, 1);
  }

  lemma BothReadLoaded(t: State)
    requires Ready(t)
    ensures ReadsLoaded(LinkedWorld(), t, 0) && ReadsLoaded(LinkedWorld(), t, 1)
  {
    hide LoadAll, RelocateAll, M, A, LinkedWorld, SizedFiles, SourcesInside, ReadsLoaded;
    EffectsApply(t);
    FilesSized();
    SourcesAreInside();
    AFacts();
    assert t.bins[1] == A();
    StartReadsLoaded(LinkedWorld(), map[], "main", t);
    NoCopiesReadLoaded(LinkedWorld(), t, 1);
  }

  // ---------- Bindings ----------

  lemma XIsCopied(t: State)
    requires Ready(t)
    ensures Copies(LinkedWorld(), t, COPY, "x", 0x140_0500, 0x180_0400, 8, 1)
  {
    FindsX();
    AddressesOfX();
    WorldFacts();
    MainFacts();
    AFacts();
    hide LoadAll, M, A, LinkedWorld, Search, Target, SymbolAddr, MatchesAt;
    assert t.bins == Bins();
  }

  /** The program relocates, and main's slot for x is bound to main's copy. */
  lemma SlotIsBound(t: State)
    requires Ready(t)
    ensures RelocateAll(LinkedWorld(), t).Ok?
    ensures var m := RelocateAll(LinkedWorld(), t).value.mem;
      Mapped(m, 0x140_0400, 8) && WordAt(m, 0x140_0400) == 0x140_0500
  {
    hide LoadAll, RelocateAll, M, A, LinkedWorld, Relocatable, Target, MainCopies, Search, WordAt, Mapped;
    EffectsApply(t);
    BothRelocatable(t);
    XIsCopied(t);
    AddressesOfX();
    MainFacts();
    assert t.bins[0] == M();
    AllReferToCopy(LinkedWorld(), t, COPY, "x", 0, SLOT);
  }

  /** Main's PLT slot holds the address of a's fn. */
  lemma PltIsBound(t: State)
    requires Ready(t)
    ensures RelocateAll(LinkedWorld(), t).Ok?
    ensures var m := RelocateAll(LinkedWorld(), t).value.mem;
      Mapped(m, 0x140_0700, 8) && WordAt(m, 0x140_0700) == 0x180_0020
  {
    hide Ready, RelocateAll, M, A, LinkedWorld, Placed, AllContained, TargetsDisjoint, Search, WordAt, SymbolAddr, Bins;
    EffectsApply(t);
    BothRelocatable(t);
    LoadedBins(t);
    FindsFn();
    AddressesOfX();
    WorldFacts();
    MainFacts();
    assert PLT in M().pltrelas;
    RelocatedWord(LinkedWorld(), t, 0, PLT);
  }

  /** The conditions of the theorem on bindings of whole programs hold for that slot. */
  lemma SlotIsLive(t: State, s: State)
    requires Ready(t) && RelocateAll(LinkedWorld(), t) == Ok(s)
    ensures Program(LinkedWorld(), map[], "main", []) == Ok(s)
    ensures SizedFiles(LinkedWorld()) && Tidy(LinkedWorld(), Initial(map[])) && "x" !in LinkedWorld().libcMap
    ensures LiveSlot(LinkedWorld(), s.bins, 0, SLOT, "x") && DefinedInTime(s, 0, "x")
  {
    FilesSized();
    FilesAreTidy();
    WorldFacts();
    BinariesApart();
    XIsDefined();
    MainFacts();
    hide LoadAll, RelocateAll, M, A, LinkedWorld, RecordsApart, Defined, SizedFiles, Tidy;
    RelocatesFreshPaths(LinkedWorld(), t);
    assert s.bins == Bins() && s.bins[..2] == s.bins;
    assert CallEnd(s.log, 0) == 2 by { CallEndIs(s.log, 0, 2, 0); }
  }

  /** So do those of the theorem on thread-local variables, for main's reference to tm. */
  lemma OffsetIsLive(t: State, s: State)
    requires Ready(t) && RelocateAll(LinkedWorld(), t) == Ok(s)
    ensures LiveOffset(LinkedWorld(), s.bins, 0, OFFSET, "tm")
    ensures |s.log| == |s.bins| == 2 && Scan(s.bins[..CallEnd(s.log, 0)], "tm", TlsDefinition, 0).Some?
  {
    BinariesApart();
    FindsTm();
    MainFacts();
    hide LoadAll, RelocateAll, M, A, LinkedWorld, RecordsApart, Scan;
    RelocatesFreshPaths(LinkedWorld(), t);
    assert s.bins == Bins() && s.bins[..2] == s.bins;
    assert CallEnd(s.log, 0) == 2 by { CallEndIs(s.log, 0, 2, 0); }
  }

  lemma XIsDefined()
    ensures Defined(Bins(), "x")
  {
    FindsX();
    hide M, A;
  }

  // ---------- Departures ----------

  lemma XLoadsAsZero(t: State)
    requires Ready(t)
    ensures 0x180_0400 in t.mem && t.mem[0x180_0400] == 0
  {
    PagesMapped(t);
    WorldFacts();
    FileFacts();
    AFacts();
    hide LoadAll, Placed, LinkedWorld, InSegments, M, A, AFile, MainFile, Mapped;
    assert HoldsBinary(LinkedWorld(), t.mem, t.bins[1]);
    assert t.bins[1] == A() && "a" != "main" by { NamesDiffer(); }
    assert HoldsSegment(t.mem, AFile().file, AFile().phdrs[0], 0x180_0000);
  }

  lemma PointerByte(m: Mem)
    requires Mapped(m, 0x180_0000, 4096)
    ensures Touches(PUT_X, 0x180_0400) && Applicable(m, PUT_X) && ByteOf(PUT_X, m, 0x180_0400) == 0x10
  {
    assert Bytes(0x180_0010, 8)[0] == 0x10;
    hide Bytes;
  }

  lemma LoadedBins(t: State)
    requires Ready(t)
    ensures |t.bins| == 2 && t.bins == Bins() && t.bins[0] == M() && t.bins[1] == A()
  {
    hide LoadAll, M, A;
  }

  lemma AWritesX(t: State)
    requires Ready(t)
    ensures !RelocationKeeps(LinkedWorld(), t, 1, 0x180_0400)
  {
    XLoadsAsZero(t);
    AEffects();
    PagesMapped(t);
    LoadedBins(t);
    PointerByte(t.mem);
    hide Ready, Bins, M, A, LinkedWorld, EffectsOf, Touches, Applicable, ByteOf, Mapped, Placed, Added;
    assert PUT_X in EffectsOf(LinkedWorld(), t.bins, t.bins[1]);
  }

  /** The copy is stale: main's x is still zero where a's x holds the pointer. */
  lemma CopyIsStale(t: State)
    requires Ready(t)
    ensures RelocateAll(LinkedWorld(), t).Ok?
    ensures var m := RelocateAll(LinkedWorld(), t).value.mem; Peek(m, 0x140_0500) != Peek(m, 0x180_0400)
  {
    hide Ready, Bins, RelocateAll, M, A, LinkedWorld, Relocatable, ReadsLoaded, Copies, Owns, RelocationKeeps, Peek;
    EffectsApply(t);
    BothRelocatable(t);
    BothReadLoaded(t);
    XIsCopied(t);
    AWritesX(t);
    PagesOwned(0x180_0400);
    LoadedBins(t);
    CopyIsCurrentIff(LinkedWorld(), t, RelocateAll(LinkedWorld(), t).value, COPY, "x", 0x140_0500, 0x180_0400,
                     8, 1, 0);
  }

  // ---------- Order ----------

  lemma LinkedFlat(t: State)
    requires Ready(t)
    ensures Flat(LinkedWorld(), t, |t.bins|) == [PUT_PLT, PUT_SLOT, COPY_X, PUT_OFFSET, PUT_X]
  {
    hide EffectsOf, Ready, LinkedWorld, M, A;
    var w := LinkedWorld();
    BothRelocatable(t);
    hide Relocatable;
    assert Fresh(t, 0) && Fresh(t, 1) by { RelocatableIsFresh(t); }
    MainEffects();
    AEffects();
    LoadedBins(t);
    hide Fresh;
    assert Flat(w, t, 0) == [];
    assert Flat(w, t, 1) == [] + EffectsOf(w, t.bins, t.bins[0]);
    assert Flat(w, t, 2) == Flat(w, t, 1) + EffectsOf(w, t.bins, t.bins[1]);
  }

  lemma RelocatableIsFresh(t: State)
    requires Relocatable(LinkedWorld(), t, 0) && Relocatable(LinkedWorld(), t, 1)
    ensures Fresh(t, 0) && Fresh(t, 1)
    ensures |t.bins| == 2 ==> WritesApart(LinkedWorld(), t)
  {
    hide LinkedWorld, Fresh, Placed, AllContained, TargetsDisjoint;
    assert |t.bins| == 2 ==> forall k: nat :: Fresh(t, k) ==> k == 0 || k == 1 by { FreshBelow(t); }
  }

  lemma FreshBelow(t: State)
    ensures forall k: nat :: Fresh(t, k) ==> k < |t.bins|
  {
  }

  /** Only the copy depends on the order of the call: every other byte is the
      same however the five relocations are ordered. */
  lemma OthersInAnyOrder(t: State, fs: seq<Effect>, a: nat)
    requires Ready(t) && Reordered(Flat(LinkedWorld(), t, |t.bins|), fs) && a in t.mem
    requires !(0x140_0500 <= a < 0x140_0508)
    ensures ApplyAll(t.mem, fs).Ok? && RelocateAll(LinkedWorld(), t).Ok?
    ensures a in ApplyAll(t.mem, fs).value && a in RelocateAll(LinkedWorld(), t).value.mem
    ensures ApplyAll(t.mem, fs).value[a] == RelocateAll(LinkedWorld(), t).value.mem[a]
  {
    hide Ready, LinkedWorld, Bins, Flat, RelocateAll, ApplyAll, Relocatable, WritesApart, Reordered, InCopyTarget;
    EffectsApply(t);
    BothRelocatable(t);
    LoadedBins(t);
    RelocatableIsFresh(t);
    LinkedFlat(t);
    assert CleanAt(Flat(LinkedWorld(), t, |t.bins|), a);
    hide CleanAt;
    AnyOrder(LinkedWorld(), t, fs);
  }

  /** The copy does: some order of the five leaves another byte there. */
  lemma CopyDependsOnOrder(t: State)
    requires Ready(t)
    ensures RelocateAll(LinkedWorld(), t).Ok? && 0x140_0500 in RelocateAll(LinkedWorld(), t).value.mem
    ensures !forall fs :: Permuted(Flat(LinkedWorld(), t, |t.bins|), fs) ==>
              && ApplyAll(t.mem, fs).Ok? && 0x140_0500 in ApplyAll(t.mem, fs).value
              && ApplyAll(t.mem, fs).value[0x140_0500] == RelocateAll(LinkedWorld(), t).value.mem[0x140_0500]
  {
    hide Ready, LinkedWorld, Bins, Flat, RelocateAll, ApplyAll, Relocatable, WritesApart, Permuted, ByteOf, Applicable;
    hide Placed, Added;
    EffectsApply(t);
    BothRelocatable(t);
    LoadedBins(t);
    RelocatableIsFresh(t);
    LinkedFlat(t);
    XLoadsAsZero(t);
    PagesMapped(t);
    PointerByte(t.mem);
    assert CleanAt(Flat(LinkedWorld(), t, |t.bins|), 0x180_0400);
    assert 0x140_0500 in t.mem && Touches(COPY_X, 0x140_0500) && SourceOf(COPY_X, 0x140_0500) == 0x180_0400;
    hide CleanAt, Mapped, Touches, SourceOf;
    assert PUT_X in Flat(LinkedWorld(), t, |t.bins|) && PUT_X != COPY_X;
    CopiedByteOrderIff(LinkedWorld(), t, COPY_X, 0x140_0500);
  }

  const LIBRARY_FIRST := [PUT_X, PUT_PLT, PUT_SLOT, COPY_X, PUT_OFFSET]

  /** With a relocated before main, as the psABI wants, the copy would be current. */
  lemma LibraryFirstIsCurrent(t: State)
    requires Ready(t)
    ensures Permuted(Flat(LinkedWorld(), t, |t.bins|), LIBRARY_FIRST) && ApplyAll(t.mem, LIBRARY_FIRST).Ok?
    ensures var m := ApplyAll(t.mem, LIBRARY_FIRST).value; Peek(m, 0x140_0500) == Peek(m, 0x180_0400) != None
  {
    hide Ready, LinkedWorld, Flat, Placed, Added, Permuted, ApplyAll, Peek, Mapped;
    LinkedFlat(t);
    PagesMapped(t);
    LibraryFirst(t.mem);
    var main := [PUT_PLT, PUT_SLOT, COPY_X, PUT_OFFSET];
    assert LIBRARY_FIRST == [PUT_X] + main && Flat(LinkedWorld(), t, |t.bins|) == main + [PUT_X];
    Rotated(main, PUT_X);
  }

  lemma LibraryFirst(m: Mem)
    requires Mapped(m, 0x140_0000, 4096) && Mapped(m, 0x180_0000, 4096)
    ensures ApplyAll(m, LIBRARY_FIRST).Ok?
    ensures var m' := ApplyAll(m, LIBRARY_FIRST).value; Peek(m', 0x140_0500) == Peek(m', 0x180_0400) != None
  {
    hide ApplyAll;
    LibraryFirstApplies(m);
    var main := [PUT_PLT, PUT_SLOT, COPY_X, PUT_OFFSET];
    assert LIBRARY_FIRST == [PUT_X] + main;
    AppliesAfter(m, [PUT_X], main);
    AllApplicable(m, [PUT_X]);
    assert 0x140_0500 in m.Keys && 0x180_0400 in m.Keys;
    MainCopiesCurrent(ApplyAll(m, [PUT_X]).value);
  }

  lemma Rotated(es: seq<Effect>, e: Effect)
    ensures Permuted(es + [e], [e] + es)
  {
  }

  lemma LibraryFirstApplies(m: Mem)
    requires Mapped(m, 0x140_0000, 4096) && Mapped(m, 0x180_0000, 4096)
    ensures ApplyAll(m, LIBRARY_FIRST).Ok?
  {
    hide ApplyFirst;
    HaltsIff(m, LIBRARY_FIRST, 5);
  }

  lemma MainCopiesCurrent(m: Mem)
    requires 0x140_0500 in m && 0x180_0400 in m && ApplyAll(m, [PUT_PLT, PUT_SLOT, COPY_X, PUT_OFFSET]).Ok?
    ensures var m' := ApplyAll(m, [PUT_PLT, PUT_SLOT, COPY_X, PUT_OFFSET]).value;
      Peek(m', 0x140_0500) == Peek(m', 0x180_0400) != None
  {
    hide ApplyFirst;
    var main := [PUT_PLT, PUT_SLOT, COPY_X, PUT_OFFSET];
    AllApplicable(m, main);
    assert main[2] == COPY_X;
    assert CleanAt(main, 0x140_0500) && NoClash(main);
    ActAtOnce(m, main, 4, 2, 0x140_0500);
    Untouched(m, main, 4, 0x180_0400);
  }

  // ---------- TLS: 4 bytes in main, 8 in a ----------

  function ZeroArea(): (r: seq<byte>)
    ensures |r| == Tls.AREA_SIZE
  {
    seq(Tls.AREA_SIZE, _ => 0)
  }

  lemma TlsSegments()
    ensures M().tls == Some(Phdr(PtTls, 0, 0, 4, 4)) && A().tls == Some(Phdr(PtTls, 0, 0, 4, 8))
  {
    var h, h' := Headers(9, 4), Headers(5, 8);
    assert h[|h| - 1].kind.PtTls? && h'[|h'| - 1].kind.PtTls?;
    assert |MainFile().dyns| == 9 && |AFile().dyns| == 5;
  }

  lemma TlsSums()
    ensures Bins()[0].tls.Some? && Bins()[1].tls.Some?
    ensures Tls.TlsSize(Bins()[0]) == 4 && Tls.TlsSize(Bins()[1]) == 8
    ensures |Bins()| == 2 && Tls.TlsSum(Bins(), 0) == 0 && Tls.TlsSum(Bins(), 1) == 4 && Tls.TlsSum(Bins(), 2) == 12
  {
    TlsSegments();
    hide M, A;
    assert Tls.TlsSum(Bins(), 0) == 0;
  }

  /** The memory after the program's start. */
  ghost predicate Started(m: Mem) {
    exists t :: Ready(t) && RelocateAll(LinkedWorld(), t).Ok? && RelocateAll(LinkedWorld(), t).value.mem == m
  }

  lemma ProgramStarts() returns (m: Mem)
    ensures Started(m)
  {
    var t := LinkedLoads();
    EffectsApply(t);
    m := RelocateAll(LinkedWorld(), t).value.mem;
  }

  lemma BlocksAreMapped(m: Mem)
    requires Started(m)
    ensures Tls.Block(m, M()).Ok? && Tls.Block(m, A()).Ok?
  {
    TlsSegments();
    MainFacts();
    AFacts();
    hide M, A, LinkedWorld, Ready, RelocateFirst;
    var t :| Ready(t) && RelocateAll(LinkedWorld(), t).Ok? && RelocateAll(LinkedWorld(), t).value.mem == m;
    PagesMapped(t);
    hide Placed, Added;
    KeysAfter(LinkedWorld(), t, |t.bins|);
    assert forall a: nat :: a in t.mem.Keys ==> a in m;
  }

  lemma TlsLaysOut(m: Mem)
    requires Started(m)
    ensures Tls.InitTls(LinkedWorld(), m, Bins(), ZeroArea()).Ok?
  {
    var w, z := LinkedWorld(), ZeroArea();
    BlocksAreMapped(m);
    TlsSums();
    hide M, A, LinkedWorld, Started, Tls.LayBlock, ZeroArea, Tls.Block, Tls.TlsSum, Tls.TlsSize;
    assert Tls.LayOut(w, m, Bins(), 0, z).Ok?;
    assert Tls.LayOut(w, m, Bins(), 1, z).Ok?;
    assert Tls.LayOut(w, m, Bins(), 2, z).Ok?;
  }

  /** The pointers of the two binaries, wherever the area lies: a's is stored at
      main's block, four bytes below the thread pointer. */
  lemma PointerOfA(m: Mem, w: World, at: nat)
    requires Started(m) && w == LinkedWorld().(tlsBlock := w.tlsBlock) && 4092 <= at < 4100
    ensures Tls.InitTls(w, m, Bins(), ZeroArea()).Ok?
    ensures Tls.InitTls(w, m, Bins(), ZeroArea()).value.bytes[at] == Bytes(U64(w.tlsBlock + 4092), 8)[at - 4092]
  {
    hide Started, M, A, Bins, LinkedWorld, ZeroArea, U64, Bytes, Tls.LayOut, Tls.TlsSum, Tls.TlsSize;
    TlsLaysOut(m);
    TlsSums();
    Tls.SameHalts(LinkedWorld(), w, m, Bins(), 2, ZeroArea());
    Tls.WindowByte(w, m, Bins(), 2, ZeroArea(), 1, at);
  }

  /** The first byte of both files' pages is 42. */
  lemma TdataLoaded(t: State)
    requires Ready(t)
    ensures 0x140_0000 in t.mem && t.mem[0x140_0000] == 42 && 0x180_0000 in t.mem && t.mem[0x180_0000] == 42
  {
    PagesMapped(t);
    WorldFacts();
    FileFacts();
    MainFacts();
    AFacts();
    NamesDiffer();
    assert MainFile().file == Page() && AFile().file == Page() && Page()[0] == 42;
    hide LoadAll, Placed, LinkedWorld, InSegments, M, A, AFile, MainFile, Mapped, Page;
    assert t.bins[0] == M() && t.bins[1] == A();
    assert HoldsBinary(LinkedWorld(), t.mem, t.bins[0]) && HoldsBinary(LinkedWorld(), t.mem, t.bins[1]);
    assert HoldsSegment(t.mem, MainFile().file, MainFile().phdrs[0], 0x140_0000);
    assert HoldsSegment(t.mem, AFile().file, AFile().phdrs[0], 0x180_0000);
  }

  lemma TdataStays(m: Mem)
    requires Started(m)
    ensures 0x140_0000 in m && m[0x140_0000] == 42 && 0x180_0000 in m && m[0x180_0000] == 42
  {
    hide Ready, RelocateAll, M, A, Bins, LinkedWorld, EffectsOf, Owns, Placed, AllContained, TargetsDisjoint;
    var t :| Ready(t) && RelocateAll(LinkedWorld(), t).Ok? && RelocateAll(LinkedWorld(), t).value.mem == m;
    TdataLoaded(t);
    LoadedBins(t);
    BothRelocatable(t);
    MainEffects();
    AEffects();
    PagesOwned(0x140_0000);
    PagesOwned(0x180_0000);
    UnrelocatedByte(LinkedWorld(), t, 0, 0x140_0000);
    UnrelocatedByte(LinkedWorld(), t, 1, 0x180_0000);
  }

  lemma PointerByteNot42(a: u64)
    requires a % 64 == 0
    ensures Bytes(U64(a + 4092), 8)[0] != 42
  {
  }

  lemma TlsOfBins()
    ensures |Bins()| == 2 && Bins()[0].base == 0x140_0000 && Bins()[1].base == 0x180_0000
    ensures Bins()[0].tls == Some(Phdr(PtTls, 0, 0, 4, 4)) && Bins()[1].tls == Some(Phdr(PtTls, 0, 0, 4, 8))
    ensures Tls.BlockStart(Bins(), 0) == 4092 && Tls.BlockStart(Bins(), 1) == 4084
  {
    TlsSegments();
    MainFacts();
    AFacts();
    TlsSums();
    hide M, A, Tls.TlsSum;
  }

  /** Where no pointer lands, .tdata is in the block: a's first TLS byte is 42. */
  lemma TdataIsCopied(m: Mem, w: World)
    requires Started(m) && w == LinkedWorld().(tlsBlock := w.tlsBlock)
    ensures Tls.InitTls(w, m, Bins(), ZeroArea()).Ok?
    ensures |Tls.InitTls(w, m, Bins(), ZeroArea()).value.bytes| == Tls.AREA_SIZE
    ensures Tls.InitTls(w, m, Bins(), ZeroArea()).value.bytes[4084] == 42
  {
    hide Started, M, A, Bins, LinkedWorld, ZeroArea, Bytes, Tls.LayOut, Tls.TlsSum, Tls.TlsSize, Tls.BlockStart;
    TlsOfBins();
    TlsLaysOut(m);
    TlsSums();
    TdataStays(m);
    Tls.SameHalts(LinkedWorld(), w, m, Bins(), 2, ZeroArea());
    Tls.BlockByte(w, m, Bins(), 2, ZeroArea(), 1, 4084);
  }

  /** A pointer lands on main's block: it is wrong at every area address. */
  lemma BlocksNotExact(m: Mem, a: u64)
    requires Started(m) && Tls.UserArea(a)
    ensures !Tls.Exact(LinkedWorld().(tlsBlock := a), m, Bins(), ZeroArea())
  {
    hide Started, M, A, Bins, LinkedWorld, ZeroArea, Bytes, Tls.InitTls, Tls.TlsSum, Tls.TlsSize, Tls.BlockStart;
    var w := LinkedWorld().(tlsBlock := a);
    TlsOfBins();
    PointerOfA(m, w, 4092);
    PointerByteNot42(a);
    TdataStays(m);
    assert Tls.InBlock(Bins(), 0, 4092);
  }

  /** The first and the fifth byte of a word. */
  lemma FifthByte(v: u64)
    ensures Bytes(v, 8)[0] == v % 0x100 && Bytes(v, 8)[4] == v / 0x1_0000_0000 % 0x100
  {
    var v1, v2, v3, v4 := v / 0x100, v / 0x1_0000, v / 0x100_0000, v / 0x1_0000_0000;
    assert Bytes(v, 8)[4] == Bytes(v1, 7)[3];
    assert v1 / 0x100 == v2 && v2 / 0x100 == v3 && v3 / 0x100 == v4;
    assert Bytes(v1, 7)[3] == Bytes(v2, 6)[2] == Bytes(v3, 5)[1] == Bytes(v4, 4)[0];
  }

  lemma LowByteStays(a: nat)
    ensures (a + 4096) % 0x100 == a % 0x100
  {
  }

  lemma BytesDisagree(a: nat)
    requires a + 4096 < 0x1_0000_0000_0000_0000 && a % 0x100 != (a + 4092) / 0x1_0000_0000 % 0x100
    ensures Bytes(a + 4092, 8)[4] != Bytes(a + 4096, 8)[0]
  {
    hide Bytes;
    var low, high := a % 0x100, (a + 4092) / 0x1_0000_0000 % 0x100;
    assert Bytes(a + 4092, 8)[4] == high by { FifthByte(a + 4092); }
    assert Bytes(a + 4096, 8)[0] == low by {
      FifthByte(a + 4096);
      LowByteStays(a);
    }
  }

  /** The word at the thread pointer is not the thread pointer: its first four
      bytes are the high bytes of a's pointer, stored four bytes below. They can
      be right only where the address' own high and low bytes agree. */
  lemma SelfWordBroken(m: Mem, a: u64)
    requires Started(m) && Tls.UserArea(a) && a % 0x100 != (a + 4092) / 0x1_0000_0000 % 0x100
    ensures !Tls.SelfWord(LinkedWorld().(tlsBlock := a), m, Bins(), ZeroArea())
  {
    hide Started, M, A, Bins, LinkedWorld, ZeroArea, Tls.InitTls, Bytes, U64;
    var w := LinkedWorld().(tlsBlock := a);
    PointerOfA(m, w, 4096);
    SmallIsItself(a + 4092);
    SmallIsItself(a + 4096);
    BytesDisagree(a);
    AreaHasSize(m, w);
    var all := Tls.InitTls(w, m, Bins(), ZeroArea()).value.bytes;
    assert all[4096..][0] == all[4096];
  }

  lemma AreaHasSize(m: Mem, w: World)
    requires Tls.InitTls(w, m, Bins(), ZeroArea()).Ok?
    ensures |Tls.InitTls(w, m, Bins(), ZeroArea()).value.bytes| == Tls.AREA_SIZE
  {
    hide Bins, ZeroArea;
  }

  lemma FindsTm()
    ensures Scan(Bins(), "tm", TlsDefinition, 0) == Some(Place(0, 2)) && Bins()[0].syms[2].value == 0
  {
    MainFacts();
    AFacts();
    hide M, A;
    Names();
    assert MatchesAt(Bins(), Place(0, 2), "tm", TlsDefinition);
    var p := Scan(Bins(), "tm", TlsDefinition, 0).value;
    assert !Precedes(Place(0, 2), p) && MatchesAt(Bins(), p, "tm", TlsDefinition);
  }

  /** sloader_tls_get_addr misses main's variable tm. */
  lemma TlsGetAddrMisses(m: Mem)
    requires Started(m)
    ensures Tls.InitTls(LinkedWorld(), m, Bins(), ZeroArea()).Ok? && Tls.SymOffset(LinkedWorld(), Bins(), "tm").Some?
    ensures Tls.TlsGetAddr(LinkedWorld(), Tls.InitTls(LinkedWorld(), m, Bins(), ZeroArea()).value, 0)
            != U64(LinkedWorld().tlsBlock + 4096 + Tls.SymOffset(LinkedWorld(), Bins(), "tm").value)
  {
    hide Started, Bins, LinkedWorld, Tls.InitTls, ZeroArea, U64;
    hide Tls.SymOffset, Tls.TlsGetAddr, Tls.TlsSize, Tls.TlsSum, Scan;
    TlsLaysOut(m);
    TlsSums();
    FindsTm();
    Tls.TlsGetAddrAgreesIff(LinkedWorld(), m, Bins(), ZeroArea(), "tm");
  }

  /** With errno in libc's TLS, 16 bytes below the thread pointer, the word the
      loader stores for it leads elsewhere. */
  lemma ErrnoMisses()
    ensures var w := LinkedWorld().(tlsBlock := 0x7000_0000, libcTls := map["errno" := 0x7000_0ff0]);
      && Tls.SymOffset(w, Bins(), "errno") == Some(16)
      && U64(w.tlsBlock + 4096 + 16) != w.libcTls["errno"]
  {
    MainFacts();
    AFacts();
    hide M, A, LinkedWorld;
    assert |"errno"| == 5;
    assert forall q :: Here(Bins(), q) ==> |Bins()[q.bin].syms[q.sym].name| < 5;
    assert Scan(Bins(), "errno", TlsDefinition, 0) == None;
  }
}

/** Programs the theorems apply to: a library that needs itself, and a diamond
    whose constructors run in the wrong order. */
module Examples {
  import opened Words
  import opened Memory
  import opened Outcomes
  import opened Strings
  import opened Elf
  import opened Loading
  import opened LoadOrder
  import opened BreadthFirst
  import opened AddressSpace
  import opened Relocation
  import opened Progress
  import opened Session
  import opened Constructors
  import Dynamic

  // ---------- Small files ----------

  /** One page, a dynamic section and, unless it is empty, a TLS segment whose
      first four bytes are those of the page. */
  function Headers(dyns: nat, tls: nat): (r: seq<Phdr>) {
    [Phdr(PtLoad, 0, 0, 16, 4096), Phdr(PtDynamic, 0, 0, 16 * dyns, 16 * dyns)]
    + if tls == 0 then [] else [Phdr(PtTls, 0, 0, 4, tls)]
  }

  /** The page in the file: 42, then zeros. */
  function Page(): (r: seq<byte>) {
    seq(4096, i => if i == 0 then 42 else 0)
  }

  function Small(dyns: seq<Dyn>, strings: map<u64, string>, relas: map<u64, Rela>,
                 syms: seq<Sym>, tls: nat): (img: Image) {
    Image(EtDyn, 0, 4096, Page(), Headers(|dyns|, tls), dyns, strings, relas, syms)
  }

  ghost predicate IsSmall(img: Image, tls: nat) {
    img == Small(img.dyns, img.strings, img.relaTable, img.syms, tls)
  }

  /** img parses to p wherever it is loaded. */
  ghost predicate ParsesTo(img: Image, p: Dynamic.Parsed) {
    forall base: nat :: 0 < base <= USER_TOP ==> Dynamic.Parse(img, base) == Ok(p)
  }

  lemma ParseSmall(img: Image, tls: nat, base: nat)
    requires IsSmall(img, tls) && base > 0
    ensures Dynamic.Parse(img, base) == Dynamic.ParseEntries(img, base, img.dyns)
  {
    var h := img.phdrs;
    assert h[..2][..1] == h[..1];
    if tls > 0 {
      assert |h| == 3 && h[2].kind.PtTls? && h[..2] == Headers(|img.dyns|, 0);
      assert LastOf(h, PtDynamic) == LastOf(h[..2], PtDynamic);
    }
    assert LastOf(h, PtDynamic) == Some(h[1]);
    assert img.dyns[..|img.dyns|] == img.dyns;
  }

  lemma SmallIsWellFormed(img: Image, tls: nat, p: Dynamic.Parsed)
    requires IsSmall(img, tls) && ParsesTo(img, p)
    ensures Sized(img.phdrs) && WellFormed(img, 0x40_0000)
  {
    var h := img.phdrs;
    assert forall k :: 0 <= k < |h| && h[k].kind.PtLoad? ==> k == 0;
  }

  lemma {:induction false} SmallEnds(dyns: nat, tls: nat, base: nat)
    requires base % 0x40_0000 == 0
    ensures EndOf(Headers(dyns, tls), base, base) == base + 4096
  {
    var h := Headers(dyns, tls);
    PagesShift(4096, base);
    assert EndOf(h[..1], base, base) == base + 4096;
    assert h[..2][..1] == h[..1];
    assert EndOf(h[..2], base, base) == EndOf(h[..1], base, base);
    if tls > 0 {
      assert EndOf(h, base, base) == EndOf(h[..2], base, base);
    } else {
      assert h[..2] == h;
    }
  }

  /** The binary a small file becomes. */
  function SmallBinary(path: Path, img: Image, base: nat, p: Dynamic.Parsed): (b: Binary) {
    Binary(path, 0, img.phdrs, LastOf(img.phdrs, PtTls), base, base + 4096, p.dyn, p.relas, p.pltrelas, p.syms)
  }

  lemma LoadedFields(w: World, m: Mem, path: Path, base: nat, p: Dynamic.Parsed)
    requires LoadBinary(w, m, path, base).Ok? && w.fs[path].etype.EtDyn? && Dynamic.Parse(w.fs[path], base) == Ok(p)
    ensures var b, img := LoadBinary(w, m, path, base).value.bin, w.fs[path];
      b == Binary(path, img.entry, img.phdrs, LastOf(img.phdrs, PtTls), base, b.end, p.dyn, p.relas, p.pltrelas, p.syms)
  {
    hide LoadSegments, Dynamic.Parse, LastOf;
  }

  lemma SmallShape(img: Image, tls: nat)
    requires IsSmall(img, tls)
    ensures img.etype.EtDyn? && img.entry == 0 && img.phdrs == Headers(|img.dyns|, tls)
  {
  }

  /** Nothing is mapped from the next base on. */
  ghost predicate Clear(m: Mem, next: nat) {
    Free(m, next, USER_TOP)
  }

  lemma SmallLoads(w: World, m: Mem, path: Path, base: nat, tls: nat, p: Dynamic.Parsed)
    requires SizedFiles(w) && path in w.fs && IsSmall(w.fs[path], tls) && ParsesTo(w.fs[path], p)
    requires 0 < base && base % 0x40_0000 == 0 && base + 0x40_0000 <= USER_TOP && Clear(m, base)
    ensures LoadBinary(w, m, path, base).Ok?
    ensures var l := LoadBinary(w, m, path, base).value;
      l.bin == SmallBinary(path, w.fs[path], base, p) && l.next == base + 0x40_0000 && Clear(l.mem, l.next)
  {
    hide LoadBinary, Dynamic.Parse, LastOf, IsSmall, EndOf, WellFormed, Headers, Sized, StepUp, Clear;
    hide TakesPages, HoldsBinary, FromFile, ParsesTo, SizedFiles;
    var img := w.fs[path];
    SmallShape(img, tls);
    SmallIsWellFormed(img, tls, p);
    ClearIsFree(m, base, base + 0x40_0000);
    BinarySucceeds(w, m, path, base, 0x40_0000);
    RoomAfter(w, m, path, base, 0x40_0000, USER_TOP);
    ClearIsFree(LoadBinary(w, m, path, base).value.mem, LoadBinary(w, m, path, base).value.next, USER_TOP);
    BinaryLoads(w, m, path, base);
    ParsesHere(img, p, base);
    LoadedFields(w, m, path, base, p);
    EndOfFile(w, LoadBinary(w, m, path, base).value.bin);
    SmallEnds(|img.dyns|, tls, base);
    StepUpFromBase(base, 4096);
    OneStep();
  }

  lemma ClearIsFree(m: Mem, next: nat, hi: nat)
    requires hi <= USER_TOP
    ensures Clear(m, next) <==> Free(m, next, USER_TOP)
    ensures Clear(m, next) ==> Free(m, next, hi)
  {
  }

  lemma ParsesHere(img: Image, p: Dynamic.Parsed, base: nat)
    requires ParsesTo(img, p) && 0 < base <= USER_TOP
    ensures Dynamic.Parse(img, base) == Ok(p)
  {
  }

  lemma EndOfFile(w: World, b: Binary)
    requires FromFile(w, b)
    ensures b.end == EndOf(b.phdrs, b.base, b.base)
  {
  }

  lemma OneStep()
    ensures StepUp(4096) == 0x40_0000
  {
  }

  /** A turn that loads. */
  lemma TurnLoads(w: World, s: State, q: seq<Pending>, path: Path, l: Loaded)
    requires q != [] && Known(w, q) && q[0].req.name !in s.loaded && !Skipped(q[0].req.name)
    requires w.findLibrary(q[0].req.name, q[0].req.runpath, q[0].req.rpath) == Some(path)
    requires LoadBinary(w, s.mem, path, s.next) == Ok(l)
    ensures Turn(w, s, q)
            == Ok(Work(Append(s, l, Needed(q[0].req.name, q[0].asker)), q[1..] + Asks(l.bin, |s.bins|)))
  {
  }

  lemma ShortNotSkipped(name: string)
    requires |name| == 1
    ensures !Skipped(name)
  {
    assert Find(name[1..], "ld-linux").None? && Find(name[1..], "libc.so").None?;
  }

  lemma MainFilename()
    ensures Filename("main") == "main"
  {
    assert "main"[..3] == "mai" && "mai"[..2] == "ma" && "ma"[..1] == "m" && "m"[..0] == "";
    assert Filename("m") == "m";
    assert Filename("ma") == "ma";
    assert Filename("mai") == "mai";
  }

  // ---------- A cycle ----------

  function NeedsA(): (img: Image) {
    Small([Dyn(DtStrtab, 16), Dyn(DtNeeded, 1)], map[17 := "a"], map[], [], 0)
  }

  /** Main needs a, and a needs itself. */
  function Cycle(): (w: World) {
    World(map["main" := NeedsA(), "a" := NeedsA()], (n, runpath, rpath) => Some("a"), map[], map[], 0, t => 1)
  }

  function NeedsAParsed(): (p: Dynamic.Parsed) {
    Dynamic.Parsed(DynInfo(["a"], None, None, map[]), [], [], [])
  }

  lemma NeedsAParses()
    ensures ParsesTo(NeedsA(), NeedsAParsed())
  {
    forall base: nat | 0 < base <= USER_TOP
      ensures Dynamic.Parse(NeedsA(), base) == Ok(NeedsAParsed())
    {
      var img := NeedsA();
      ParseSmall(img, 0, base);
      var d: seq<Dyn> := [Dyn(DtNeeded, 1)];
      assert img.dyns[1..] == d && d[1..] == [];
      assert Dynamic.FindStrtab(d, base, Some(16)) == Some(16);
      assert Dynamic.FindStrtab(img.dyns, base, None) == Some(16);
      assert Dynamic.EMPTY.neededs + ["a"] == ["a"];
      assert Dynamic.ScanAll(img, Some(16), d, Dynamic.EMPTY) == Ok(DynInfo(["a"], None, None, map[]));
      assert Dynamic.ScanAll(img, Some(16), img.dyns, Dynamic.EMPTY) == Ok(DynInfo(["a"], None, None, map[]));
    }
  }

  const ASK_A := Request("a", None, None)

  lemma CycleIsComplete()
    ensures SizedFiles(Cycle()) && WellFormed(NeedsA(), 0x40_0000)
    ensures AsksWithin(NeedsA(), {ASK_A}) && Complete(Cycle(), {ASK_A}, 0x40_0000)
  {
    NeedsAParses();
    SmallIsWellFormed(NeedsA(), 0, NeedsAParsed());
    hide WellFormed, Sized, NeedsA, Skipped, Dynamic.Parse;
    assert AsksWithin(NeedsA(), {ASK_A});
    hide AsksWithin;
  }

  /** The cycle loads and relocates in every process in which the two steps of
      4 MiB from the first base on are free. */
  lemma CycleStarts(m: Mem)
    requires Free(m, 0x140_0000, 0x1c0_0000)
    ensures LoadAndRelocate(Cycle(), Initial(m), "main").Ok?
  {
    hide WellFormed, SizedFiles, NamesOf, NeedsA, Filename, Complete, AsksWithin, LoadAll, RelocateAll, Start;
    var w, s, room := Cycle(), Initial(m), 0x40_0000;
    CycleIsComplete();
    OneName();
    StartSucceeds(w, s, "main", {ASK_A}, room);
    LoadSucceeds(w, s, "main", {ASK_A}, room);
    NoRelocations(w, m);
  }

  lemma OneName()
    ensures |NamesOf({ASK_A}) - ({} + {Filename("main")})| <= 1
  {
    hide Filename, Skipped;
    SubsetSize(NamesOf({ASK_A}) - ({} + {Filename("main")}), "a");
  }

  lemma SubsetSize(a: set<string>, x: string)
    requires a <= {x}
    ensures |a| <= 1
  {
    assert a == {} || a == {x};
  }

  lemma InOneTable(b: Binary)
    ensures forall r :: r in b.pltrelas + b.relas <==> r in b.pltrelas || r in b.relas
  {
  }

  lemma NoRelocations(w: World, m: Mem)
    requires w == Cycle() && SizedFiles(w) && LoadAll(w, Initial(m), "main").Ok?
    ensures RelocateAll(w, LoadAll(w, Initial(m), "main").value).Ok?
  {
    hide LoadAll, SegmentsApart, Inhabited;
    var t := LoadAll(w, Initial(m), "main").value;
    LoadAllPlaces(w, Initial(m), "main");
    forall k, r | 0 <= k < |t.bins|
      ensures r !in t.bins[k].pltrelas && r !in t.bins[k].relas
    {
      InOneTable(t.bins[k]);
      assert FromFile(w, t.bins[k]);
    }
    RelocateHaltsIff(w, t);
  }

  // ---------- A diamond ----------

  /** A file with a DT_INIT function that needs up to two names. */
  function WithInit(needs: seq<Dyn>): (img: Image) {
    Small([Dyn(DtStrtab, 16), Dyn(DtInit, 8)] + needs, map[17 := "a", 18 := "b"], map[], [], 0)
  }

  /** Main needs a and b, and b needs a. Every file has a constructor. */
  function Diamond(): (w: World) {
    World(
      map["main" := WithInit([Dyn(DtNeeded, 1), Dyn(DtNeeded, 2)]), "a" := WithInit([]),
          "b" := WithInit([Dyn(DtNeeded, 1)])],
      (n, runpath, rpath) => Some(n), map[], map[], 0, t => 1)
  }

  function WithInitParsed(names: seq<string>): (p: Dynamic.Parsed) {
    Dynamic.Parsed(DynInfo(names, None, None, map[DtInit := 8]), [], [], [])
  }

  ghost predicate Denotes(needs: seq<Dyn>, names: seq<string>) {
    |needs| == |names| && forall i :: 0 <= i < |needs| ==>
      (needs[i] == Dyn(DtNeeded, 1) && names[i] == "a") || (needs[i] == Dyn(DtNeeded, 2) && names[i] == "b")
  }

  lemma {:induction false} ScanNeeds(img: Image, needs: seq<Dyn>, names: seq<string>, acc: DynInfo)
    requires img.strings == map[17 := "a", 18 := "b"] && Denotes(needs, names)
    ensures Dynamic.ScanAll(img, Some(16), needs, acc) == Ok(acc.(neededs := acc.neededs + names))
    decreases |needs|
  {
    if needs == [] {
      assert acc.neededs + names == acc.neededs;
    } else {
      var next := acc.(neededs := acc.neededs + [names[0]]);
      assert Dynamic.ScanEntry(img, Some(16), needs[0], acc) == Ok(next);
      ScanNeeds(img, needs[1..], names[1..], next);
      assert acc.neededs + [names[0]] + names[1..] == acc.neededs + names;
    }
  }

  lemma {:induction false} NoStrtab(needs: seq<Dyn>, base: nat, acc: Option<u64>)
    requires forall i :: 0 <= i < |needs| ==> needs[i].tag.DtNeeded?
    ensures Dynamic.FindStrtab(needs, base, acc) == acc
  {
    if needs != [] {
      NoStrtab(needs[1..], base, acc);
    }
  }

  lemma InitTableFound(needs: seq<Dyn>, base: nat)
    requires 0 < base <= USER_TOP && forall i :: 0 <= i < |needs| ==> needs[i].tag.DtNeeded?
    ensures Dynamic.FindStrtab([Dyn(DtStrtab, 16), Dyn(DtInit, 8)] + needs, base, None) == Some(16)
  {
    var d: seq<Dyn> := [Dyn(DtInit, 8)] + needs;
    var all := [Dyn(DtStrtab, 16), Dyn(DtInit, 8)] + needs;
    assert all[1..] == d && d[1..] == needs;
    NoStrtab(needs, base, Some(16));
    assert Dynamic.FindStrtab(d, base, Some(16)) == Some(16);
  }

  lemma InitScanned(img: Image, needs: seq<Dyn>, names: seq<string>)
    requires Denotes(needs, names) && img.strings == map[17 := "a", 18 := "b"]
    ensures Dynamic.ScanAll(img, Some(16), [Dyn(DtStrtab, 16), Dyn(DtInit, 8)] + needs, Dynamic.EMPTY)
            == Ok(WithInitParsed(names).dyn)
  {
    var d: seq<Dyn> := [Dyn(DtInit, 8)] + needs;
    assert ([Dyn(DtStrtab, 16), Dyn(DtInit, 8)] + needs)[1..] == d && d[1..] == needs;
    var acc := DynInfo([], None, None, map[DtInit := 8]);
    ScanNeeds(img, needs, names, acc);
    hide Denotes;
    assert [] + names == names;
    assert Dynamic.ScanEntry(img, Some(16), d[0], Dynamic.EMPTY) == Ok(acc);
    assert Dynamic.ScanAll(img, Some(16), d, Dynamic.EMPTY) == Ok(acc.(neededs := names));
  }

  lemma WithInitParses(needs: seq<Dyn>, names: seq<string>)
    requires Denotes(needs, names)
    ensures ParsesTo(WithInit(needs), WithInitParsed(names))
  {
    hide Dynamic.ScanAll, Dynamic.FindStrtab, Dynamic.Parse;
    forall base: nat | 0 < base <= USER_TOP
      ensures Dynamic.Parse(WithInit(needs), base) == Ok(WithInitParsed(names))
    {
      ParseSmall(WithInit(needs), 0, base);
      InitTableFound(needs, base);
      InitScanned(WithInit(needs), needs, names);
    }
  }

  lemma DiamondFiles()
    ensures SizedFiles(Diamond())
    ensures ParsesTo(Diamond().fs["main"], WithInitParsed(["a", "b"]))
    ensures ParsesTo(Diamond().fs["a"], WithInitParsed([])) && ParsesTo(Diamond().fs["b"], WithInitParsed(["a"]))
  {
    WithInitParses([Dyn(DtNeeded, 1), Dyn(DtNeeded, 2)], ["a", "b"]);
    WithInitParses([], []);
    WithInitParses([Dyn(DtNeeded, 1)], ["a"]);
    hide ParsesTo;
    SmallIsWellFormed(Diamond().fs["main"], 0, WithInitParsed(["a", "b"]));
    SmallIsWellFormed(Diamond().fs["a"], 0, WithInitParsed([]));
    SmallIsWellFormed(Diamond().fs["b"], 0, WithInitParsed(["a"]));
  }

  function DiamondBinary(path: Path, base: nat, names: seq<string>): (b: Binary)
    requires path in Diamond().fs
  {
    SmallBinary(path, Diamond().fs[path], base, WithInitParsed(names))
  }

  lemma OneAsk(b: Binary, k: nat, name: string)
    requires b.dyn.neededs == [name] && b.dyn.runpath == None && b.dyn.rpath == None
    ensures Asks(b, k) == [Pending(Request(name, None, None), k)]
  {
  }

  /** A state of the load: its binaries, log and names, and room above. */
  ghost predicate DiamondAt(s: State, bins: seq<Binary>, log: seq<Origin>, names: set<string>, next: nat) {
    s.bins == bins && s.log == log && s.loaded == names && s.next == next && Clear(s.mem, next)
  }

  function MainB(): (b: Binary) { DiamondBinary("main", 0x140_0000, ["a", "b"]) }

  function AB(): (b: Binary) { DiamondBinary("a", 0x180_0000, []) }

  function BB(): (b: Binary) { DiamondBinary("b", 0x1c0_0000, ["a"]) }

  function Ask(name: string, asker: nat): (p: Pending) {
    Pending(Request(name, None, None), asker)
  }

  lemma NamesDiffer()
    ensures "main" != "a" && "main" != "b" && "a" != "b"
  {
    assert "main"[0] != "a"[0] && "main"[0] != "b"[0] && "a"[0] != "b"[0];
  }

  lemma DiamondStart()
    ensures Start(Diamond(), Initial(map[]), "main").Ok?
    ensures var t := Start(Diamond(), Initial(map[]), "main").value;
      t.q == [Ask("a", 0), Ask("b", 0)] && DiamondAt(t.s, [MainB()], [Root("main")], {"main"}, 0x180_0000)
  {
    var w, s0 := Diamond(), Initial(map[]);
    DiamondFiles();
    MainFilename();
    hide ParsesTo, SizedFiles, LoadBinary, WithInit, Filename, Clear, Asks;
    ClearNothing(s0.next);
    assert IsSmall(w.fs["main"], 0) by { WithInitIsSmall([Dyn(DtNeeded, 1), Dyn(DtNeeded, 2)]); }
    SmallLoads(w, s0.mem, "main", s0.next, 0, WithInitParsed(["a", "b"]));
    TwoAsks(LoadBinary(w, s0.mem, "main", s0.next).value.bin, 0, "a", "b");
  }

  lemma WithInitIsSmall(needs: seq<Dyn>)
    ensures IsSmall(WithInit(needs), 0)
  {
  }

  /** A turn that loads a or b. */
  lemma DiamondTurn(s: State, q: seq<Pending>, needs: seq<Dyn>, names: seq<string>) returns (t: State)
    requires q != [] && Known(Diamond(), q) && q[0].req == Request(q[0].req.name, None, None)
    requires var n := q[0].req.name;
      && n !in s.loaded && |n| == 1 && n in Diamond().fs && Diamond().fs[n] == WithInit(needs)
      && ParsesTo(Diamond().fs[n], WithInitParsed(names))
    requires 0 < s.next && s.next % 0x40_0000 == 0 && s.next + 0x40_0000 <= USER_TOP && Clear(s.mem, s.next)
    ensures var n := q[0].req.name;
      && DiamondAt(t, s.bins + [DiamondBinary(n, s.next, names)], s.log + [Needed(n, q[0].asker)],
                   s.loaded + {n}, s.next + 0x40_0000)
      && Turn(Diamond(), s, q) == Ok(Work(t, q[1..] + Asks(DiamondBinary(n, s.next, names), |s.bins|)))
  {
    var w, n := Diamond(), q[0].req.name;
    DiamondFiles();
    ShortNotSkipped(n);
    WithInitIsSmall(needs);
    assert w.findLibrary(n, None, None) == Some(n);
    hide ParsesTo, SizedFiles, LoadBinary, WithInit, Skipped, Clear, Asks, IsSmall, SmallBinary, Diamond, Turn;
    SmallLoads(w, s.mem, n, s.next, 0, WithInitParsed(names));
    var l := LoadBinary(w, s.mem, n, s.next).value;
    t := Append(s, l, Needed(n, q[0].asker));
    TurnLoads(w, s, q, n, l);
  }

  lemma DiamondLoads()
    ensures LoadAll(Diamond(), Initial(map[]), "main").Ok?
    ensures DiamondAt(LoadAll(Diamond(), Initial(map[]), "main").value, [MainB(), AB(), BB()],
                      [Root("main"), Needed("a", 0), Needed("b", 0)], {"main", "a", "b"}, 0x200_0000)
  {
    DiamondStart();
    hide Start, DiamondAt;
    DiamondDrains(Start(Diamond(), Initial(map[]), "main").value);
  }

  /** What the two libraries are, before and after loading. */
  lemma DiamondFacts()
    ensures var fs := Diamond().fs;
      "a" in fs && "b" in fs && fs["a"] == WithInit([]) && fs["b"] == WithInit([Dyn(DtNeeded, 1)])
    ensures AB() == DiamondBinary("a", 0x180_0000, []) && Asks(AB(), 1) == []
    ensures BB() == DiamondBinary("b", 0x1c0_0000, ["a"]) && Asks(BB(), 2) == [Ask("a", 2)]
  {
    NoAsks(AB(), 1);
    OneAsk(BB(), 2, "a");
  }

  lemma DiamondDrains(start: Work)
    requires start.q == [Ask("a", 0), Ask("b", 0)] && Known(Diamond(), start.q)
    requires DiamondAt(start.s, [MainB()], [Root("main")], {"main"}, 0x180_0000)
    ensures Drain(Diamond(), start.s, start.q).Ok?
    ensures DiamondAt(Drain(Diamond(), start.s, start.q).value, [MainB(), AB(), BB()],
                      [Root("main"), Needed("a", 0), Needed("b", 0)], {"main", "a", "b"}, 0x200_0000)
  {
    DiamondFiles();
    DiamondFacts();
    NamesDiffer();
    var w := Diamond();
    hide Diamond, DiamondBinary, MainB, AB, BB, Turn, Drain, Asks, Clear, AllNames, ParsesTo, SizedFiles, WithInit;
    var s2 := DiamondTurn(start.s, start.q, [], []);
    assert start.q[1..] + [] == [Ask("b", 0)];
    var s3 := DiamondTurn(s2, [Ask("b", 0)], [Dyn(DtNeeded, 1)], ["a"]);
    assert [Ask("b", 0)][1..] + [Ask("a", 2)] == [Ask("a", 2)];
    TurnSkips(w, s3, [Ask("a", 2)]);
    assert [Ask("a", 2)][1..] == [];
    DrainNothing(w, s3);
    DrainTurn(w, s3, [Ask("a", 2)], s3, []);
    DrainTurn(w, s2, [Ask("b", 0)], s3, [Ask("a", 2)]);
    DrainTurn(w, start.s, start.q, s2, [Ask("b", 0)]);
  }

  lemma DrainNothing(w: World, s: State)
    ensures Drain(w, s, []) == Ok(s)
  {
  }

  lemma DrainTurn(w: World, s: State, q: seq<Pending>, t: State, r: seq<Pending>)
    requires q != [] && Known(w, q) && Known(w, r) && Turn(w, s, q) == Ok(Work(t, r))
    ensures Drain(w, s, q) == Drain(w, t, r)
  {
  }

  /** A turn for a name that is loaded. */
  lemma TurnSkips(w: World, s: State, q: seq<Pending>)
    requires q != [] && Known(w, q) && q[0].req.name in s.loaded
    ensures Turn(w, s, q) == Ok(Work(s, q[1..]))
  {
  }

  lemma ClearNothing(next: nat)
    ensures Clear(map[], next)
  {
  }

  lemma TwoAsks(b: Binary, k: nat, n: string, n': string)
    requires b.dyn.neededs == [n, n'] && b.dyn.runpath == None && b.dyn.rpath == None
    ensures Asks(b, k) == [Pending(Request(n, None, None), k), Pending(Request(n', None, None), k)]
  {
  }

  lemma NoAsks(b: Binary, k: nat)
    requires b.dyn.neededs == []
    ensures Asks(b, k) == []
  {
  }

  lemma OnlyInit(m: Mem, b: Binary)
    requires b.dyn.scalars == map[DtInit := 8]
    ensures FunctionsOf(m, b) == Ok([U64(8 + b.base)]) && HasConstructors(m, b)
  {
    assert InitCall(b) + [] == [U64(8 + b.base)];
  }

  /** The loader loads the diamond, and then runs b's constructor before the one of a, which b needs. */
  lemma DiamondRunsTooEarly()
    ensures LoadAll(Diamond(), Initial(map[]), "main").Ok?
    ensures var s := LoadAll(Diamond(), Initial(map[]), "main").value;
      && Edge(s, 2, 1)
      && Trace(s.mem, s.bins, |s.bins|).Ok?
      && !DependenciesFirst(Trace(s.mem, s.bins, |s.bins|).value, s)
  {
    DiamondLoads();
    hide LoadAll, FunctionsOf, HasConstructors, Trace;
    var s := LoadAll(Diamond(), Initial(map[]), "main").value;
    assert s.bins[0] == MainB() && s.bins[1] == AB() && s.bins[2] == BB();
    forall k | 0 <= k < 3
      ensures FunctionsOf(s.mem, s.bins[k]).Ok? && HasConstructors(s.mem, s.bins[k])
    {
      OnlyInit(s.mem, s.bins[k]);
    }
    assert s.bins[2].dyn.neededs[0] == "a" && s.log[1].name == "a";
    assert Edge(s, 2, 1);
    TraceOk(s.mem, s.bins, 3);
    DependenciesFirstIff(s.mem, s);
  }

  lemma {:induction false} TraceOk(m: Mem, bins: seq<Binary>, n: nat)
    requires n <= |bins| && forall k :: 0 <= k < n ==> FunctionsOf(m, bins[k]).Ok?
    ensures Trace(m, bins, n).Ok?
  {
    hide FunctionsOf;
    if n > 0 {
      TraceOk(m, bins, n - 1);
    }
  }
}

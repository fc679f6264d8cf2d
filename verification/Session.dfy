/** Whole runs: the start of a program, then any sequence of dlopen and dlsym
    calls and of the program's own writes. */
module Session {
  import opened Words
  import opened Memory
  import opened Outcomes
  import opened Elf
  import opened Loading
  import opened Symbols
  import opened Effects
  import opened LoadOrder
  import opened AddressSpace
  import opened Relocation

  /** The state of a new DynLoader, in a process whose memory is m. */
  function Initial(m: Mem): (s: State) {
    State([], FIRST_BASE, {}, map[], m, [], [])
  }

  /** A load and the relocation that follows it. */
  ghost function LoadAndRelocate(w: World, s: State, root: Path): (r: Result<State>) {
    var t :- LoadAll(w, s, root);
    RelocateAll(w, t)
  }

  /** What happens after the start: sloader_dlopen, sloader_dlsym, or a write by the program. */
  datatype Step = Dlopen(filename: Option<string>) | Dlsym(name: string) | Write(addr: nat, val: byte)

  ghost function DoStep(w: World, s: State, step: Step): (r: Result<State>) {
    match step
    case Dlopen(None) => Ok(s)
    case Dlopen(Some(f)) =>
      if Skipped(f) then Ok(s) else
      var path := w.findLibrary(f, None, None);
      if path.None? then Halt else LoadAndRelocate(w, s, path.value)
    case Dlsym(name) => if DlsymAddr(s.bins, name).Some? then Ok(s) else Halt
    case Write(a, v) => if a in s.mem then Ok(s.(mem := s.mem[a := v])) else Halt
  }

  ghost function Run(w: World, s: State, steps: seq<Step>): (r: Result<State>)
    decreases |steps|
  {
    if steps == [] then Ok(s) else
    var t :- DoStep(w, s, steps[0]);
    Run(w, t, steps[1..])
  }

  /** A program started in memory m and then run. */
  ghost function Program(w: World, m: Mem, main: Path, steps: seq<Step>): (r: Result<State>) {
    var s :- LoadAndRelocate(w, Initial(m), main);
    Run(w, s, steps)
  }

  // ---------- What every step keeps ----------

  /** The indices below k of binaries that are the first of their path. */
  ghost function Firsts(bins: seq<Binary>, k: nat): (r: seq<nat>)
    requires k <= |bins|
  {
    if k == 0 then [] else Firsts(bins, k - 1) + if HasPath(bins, k - 1, bins[k - 1].path) then [] else [k - 1]
  }

  /** Between calls, exactly the loaded paths are marked, and each has been
      relocated exactly once: for its first binary. */
  ghost predicate Settled(s: State) {
    && (forall p :: Marked(s, p) <==> HasPath(s.bins, |s.bins|, p))
    && s.relog == Firsts(s.bins, |s.bins|)
  }

  ghost predicate Sound(w: World, s: State) {
    Closure(s, []) && Placed(w, s) && Stepped(w, s) && Settled(s)
  }

  lemma HasPathPrefix(a: seq<Binary>, b: seq<Binary>, k: nat, p: Path)
    requires a <= b && k <= |a|
    ensures HasPath(a, k, p) <==> HasPath(b, k, p)
  {
  }

  lemma {:induction false} FirstsPrefix(a: seq<Binary>, b: seq<Binary>, k: nat)
    requires a <= b && k <= |a|
    ensures Firsts(a, k) == Firsts(b, k)
  {
    if k > 0 {
      FirstsPrefix(a, b, k - 1);
      HasPathPrefix(a, b, k - 1, a[k - 1].path);
    }
  }

  lemma FreshIffFirst(s: State, t: State, k: nat)
    requires Settled(s) && Grows(s, t) && k < |t.bins|
    ensures Fresh(t, k) <==> |s.bins| <= k && !HasPath(t.bins, k, t.bins[k].path)
  {
    var p := t.bins[k].path;
    HasPathPrefix(s.bins, t.bins, |s.bins|, p);
    assert Marked(t, p) <==> HasPath(t.bins, |s.bins|, p);
  }

  /** The binaries a call relocates after a load are the new first-of-path ones. */
  lemma {:induction false} FreshAreFirsts(s: State, t: State, k: nat)
    requires Settled(s) && Grows(s, t) && |s.bins| <= k <= |t.bins|
    ensures Firsts(t.bins, |s.bins|) + FreshIndices(t, k) == Firsts(t.bins, k)
    decreases k
  {
    if k == |s.bins| {
      NoOldFresh(s, t, k);
    } else {
      FreshIffFirst(s, t, k - 1);
      FreshAreFirsts(s, t, k - 1);
    }
  }

  lemma {:induction false} NoOldFresh(s: State, t: State, k: nat)
    requires Settled(s) && Grows(s, t) && k <= |s.bins|
    ensures FreshIndices(t, k) == []
  {
    if k > 0 {
      FreshIffFirst(s, t, k - 1);
      NoOldFresh(s, t, k - 1);
    }
  }

  lemma SettledAgain(w: World, s: State, t: State)
    requires Settled(s) && Grows(s, t) && RelocateAll(w, t).Ok?
    ensures Settled(RelocateAll(w, t).value)
  {
    hide RelocateAll;
    RelocatesFreshPaths(w, t);
    FirstsPrefix(s.bins, t.bins, |s.bins|);
    FreshAreFirsts(s, t, |t.bins|);
    forall p | HasPath(s.bins, |s.bins|, p)
      ensures HasPath(t.bins, |t.bins|, p)
    {
      HasPathPrefix(s.bins, t.bins, |s.bins|, p);
    }
  }

  lemma RelocateKeepsSound(w: World, t: State)
    requires Closure(t, []) && Placed(w, t) && Stepped(w, t) && RelocateAll(w, t).Ok?
    ensures var u := RelocateAll(w, t).value; Closure(u, []) && Placed(w, u) && Stepped(w, u)
  {
    hide InSegments, FromFile, RelocateFirst;
    var u := RelocateAll(w, t).value;
    RelocatesFreshPaths(w, t);
    KeysAfter(w, t, |t.bins|);
    SameClosure(t, u);
    forall k, a: nat | 0 <= k < |u.bins| && Owns(u.bins[k], a)
      ensures a in u.mem
    {
      assert a in t.mem && a in u.mem.Keys;
    }
  }

  /** The closure is a matter of binaries, log and marks only. */
  lemma SameClosure(t: State, u: State)
    requires Closure(t, []) && u.bins == t.bins && u.loaded == t.loaded && u.log == t.log
    ensures Closure(u, [])
  {
    assert forall v, n :: Needs(u, v, n) <==> Needs(t, v, n);
    forall n | n in u.loaded
      ensures (exists k :: 0 <= k < |u.log| && u.log[k].name == n) || (Skipped(n) && exists v :: Needs(u, v, n))
    {
      if !exists k :: 0 <= k < |u.log| && u.log[k].name == n {
        var v :| Needs(t, v, n);
        assert Needs(u, v, n);
      }
    }
  }

  lemma LoadAndRelocateSound(w: World, s: State, root: Path)
    requires SizedFiles(w) && Sound(w, s) && LoadAndRelocate(w, s, root).Ok?
    ensures Sound(w, LoadAndRelocate(w, s, root).value)
    ensures s.bins < LoadAndRelocate(w, s, root).value.bins
  {
    hide LoadAll, RelocateAll, Closure, Placed, Stepped, Settled;
    var t := LoadAll(w, s, root).value;
    LoadAllCloses(w, s, root);
    LoadAllPlaces(w, s, root);
    LoadAllSteps(w, s, root);
    RelocateKeepsSound(w, t);
    SettledAgain(w, s, t);
    RelocatesFreshPaths(w, t);
  }

  lemma StepSound(w: World, s: State, step: Step)
    requires SizedFiles(w) && Sound(w, s) && DoStep(w, s, step).Ok?
    ensures Sound(w, DoStep(w, s, step).value) && s.bins <= DoStep(w, s, step).value.bins
  {
    hide LoadAndRelocate, InSegments, FromFile, Firsts;
    match step
    case Dlopen(None) =>
    case Dlopen(Some(f)) =>
      if !Skipped(f) {
        LoadAndRelocateSound(w, s, w.findLibrary(f, None, None).value);
      }
    case Dlsym(name) =>
    case Write(a, v) =>
      SameClosure(s, s.(mem := s.mem[a := v]));
  }

  /** Every state of every run is sound, and binaries are only ever added behind the others. */
  lemma {:induction false} RunSound(w: World, s: State, steps: seq<Step>)
    requires SizedFiles(w) && Sound(w, s) && Run(w, s, steps).Ok?
    ensures Sound(w, Run(w, s, steps).value) && s.bins <= Run(w, s, steps).value.bins
    decreases |steps|
  {
    hide DoStep, Sound;
    if steps != [] {
      StepSound(w, s, steps[0]);
      RunSound(w, DoStep(w, s, steps[0]).value, steps[1..]);
    }
  }

  lemma StartSound(w: World, m: Mem)
    ensures Sound(w, Initial(m))
  {
  }

  /** From the start of the program to any later point: the dependency closure
      is exact, segments are disjoint, bases follow the allocator, and each path
      has been relocated once. */
  lemma ProgramSound(w: World, m: Mem, main: Path, steps: seq<Step>)
    requires SizedFiles(w) && Program(w, m, main, steps).Ok?
    ensures Sound(w, Program(w, m, main, steps).value)
  {
    hide LoadAndRelocate, Run, Sound;
    StartSound(w, m);
    LoadAndRelocateSound(w, Initial(m), main);
    RunSound(w, LoadAndRelocate(w, Initial(m), main).value, steps);
  }

  // ---------- Nobody else's bytes ----------

  /** n bytes from link-time address a on lie in one segment. */
  ghost predicate InsideSegment(phdrs: seq<Phdr>, a: nat, n: nat) {
    exists p :: 0 <= p < |phdrs| && InThisSegment(phdrs[p], a, n)
  }

  predicate InThisSegment(ph: Phdr, a: nat, n: nat) {
    ph.kind.PtLoad? && ph.vaddr <= a && a + n <= ph.vaddr + ph.memsz
  }

  /** A symbol a search for name can find: a definition or a weak reference. */
  predicate Findable(y: Sym, name: string) {
    y.name == name && (y.defined || y.weak)
  }

  /** A size a copy of name can have: that of a symbol of the name in some file,
      or a word for a name libc overrides. */
  ghost predicate CopySize(w: World, name: string, n: nat) {
    || (name in w.libcMap && n == 8)
    || exists p, i ::
         p in w.fs && 0 <= i < |w.fs[p].syms| && Findable(w.fs[p].syms[i], name) && w.fs[p].syms[i].size == n
  }

  /** What record r of a binary with these symbols can write: a word, or a copy's bytes. */
  ghost predicate CanSpan(w: World, syms: seq<Sym>, r: Rela, n: nat) {
    if r.kind.Copy? then r.sym < |syms| && CopySize(w, syms[r.sym].name, n) else n == 8
  }

  /** A file whose relocation records all point inside its own segments. */
  ghost predicate SelfContained(w: World, img: Image) {
    forall r, n :: r in img.relaTable.Values && CanSpan(w, img.syms, r, n) ==> InsideSegment(img.phdrs, r.offset, n)
  }

  /** Every file that can still be loaded under a new path is self-contained. */
  ghost predicate Tidy(w: World, s: State) {
    forall p :: p in w.fs && !HasPath(s.bins, |s.bins|, p) ==> SelfContained(w, w.fs[p])
  }

  ghost predicate AllFromFiles(w: World, bins: seq<Binary>) {
    forall k :: 0 <= k < |bins| ==> FromFile(w, bins[k])
  }

  /** The target of a record inside a segment does not wrap, and is the binary's own. */
  lemma InsideIsOwned(w: World, b: Binary, r: Rela, n: nat)
    requires FromFile(w, b) && SizedFiles(w) && InsideSegment(b.phdrs, r.offset, n)
    ensures Target(b, r) == b.base + r.offset
    ensures forall a: nat :: Target(b, r) <= a < Target(b, r) + n ==> Owns(b, a)
  {
    hide SegmentsApart, Inhabited;
    var p :| 0 <= p < |b.phdrs| && InThisSegment(b.phdrs[p], r.offset, n);
    assert SizedSegment(b.phdrs[p]);
    NoWrap(b.phdrs[p], b.base);
    assert forall a: nat :: Target(b, r) <= a < Target(b, r) + n ==> InPages(b.phdrs[p], b.base, a);
  }

  /** A copy takes the size of some symbol of its name. */
  lemma CopyHasCopySize(w: World, bins: seq<Binary>, name: string, dst: u64)
    requires AllFromFiles(w, bins) && CopyEffect(w, bins, name, dst).CopyFrom?
    ensures CopySize(w, name, CopyEffect(w, bins, name, dst).n)
  {
    hide SegmentsApart, Inhabited;
    if name !in w.libcMap {
      var p := Search(bins, name, true).value;
      FoundHasName(bins, name);
      assert FromFile(w, bins[p.bin]);
      assert w.fs[bins[p.bin].path].syms[p.sym] == bins[p.bin].syms[p.sym];
    }
  }

  lemma FoundHasName(bins: seq<Binary>, name: string)
    requires Search(bins, name, true).Some?
    ensures var p := Search(bins, name, true).value; p.bin > 0 && Findable(bins[p.bin].syms[p.sym], name)
  {
  }

  lemma ExtentCanSpan(w: World, bins: seq<Binary>, b: Binary, r: Rela)
    requires AllFromFiles(w, bins) && FromFile(w, b) && r in Relas(b) && !EffectOf(w, bins, b, r).Stop?
    ensures CanSpan(w, b.syms, r, Extent(w, bins, b, r)) && r in w.fs[b.path].relaTable.Values
    ensures b.syms == w.fs[b.path].syms
  {
    hide Search, Resolve, CopySize, SegmentsApart, Inhabited, FromFile;
    if r.kind.Copy? {
      CopyHasCopySize(w, bins, b.syms[r.sym].name, Target(b, r));
    }
    RecordOfFile(w, b, r);
  }

  lemma RecordOfFile(w: World, b: Binary, r: Rela)
    requires FromFile(w, b) && r in Relas(b)
    ensures r in w.fs[b.path].relaTable.Values && (b.syms == [] || b.syms == w.fs[b.path].syms)
  {
  }

  lemma SelfContainedIsContained(w: World, bins: seq<Binary>, b: Binary)
    requires AllFromFiles(w, bins) && FromFile(w, b) && SizedFiles(w) && SelfContained(w, w.fs[b.path])
    ensures Contained(w, bins, b)
  {
    hide EffectOf, FromFile, CanSpan, InsideSegment, Target, InSegments;
    var es := EffectsOf(w, bins, b);
    forall e, a: nat | e in es && Touches(e, a)
      ensures Owns(b, a)
    {
      var i :| 0 <= i < |es| && es[i] == e;
      var r := Relas(b)[i];
      RecordInside(w, bins, b, r);
      TouchedInTarget(w, bins, b, r, a);
      InsideIsOwned(w, b, r, Extent(w, bins, b, r));
    }
  }

  lemma RecordInside(w: World, bins: seq<Binary>, b: Binary, r: Rela)
    requires AllFromFiles(w, bins) && FromFile(w, b) && SelfContained(w, w.fs[b.path])
    requires r in Relas(b) && !EffectOf(w, bins, b, r).Stop?
    ensures InsideSegment(b.phdrs, r.offset, Extent(w, bins, b, r))
  {
    ExtentCanSpan(w, bins, b, r);
  }

  /** After a load, everything to be relocated is self-contained. */
  lemma LoadedContained(w: World, s: State, t: State)
    requires SizedFiles(w) && Tidy(w, s) && Placed(w, t) && Settled(s) && Grows(s, t)
    ensures AllContained(w, t)
    ensures forall k: nat :: Fresh(t, k) ==> |s.bins| <= k && SelfContained(w, w.fs[t.bins[k].path])
  {
    hide FromFile, InSegments, SelfContained, Contained, Firsts;
    forall k: nat | Fresh(t, k)
      ensures |s.bins| <= k && t.bins[k].path in w.fs && SelfContained(w, w.fs[t.bins[k].path])
      ensures Contained(w, t.bins, t.bins[k])
    {
      FreshIffFirst(s, t, k);
      var b := t.bins[k];
      HasPathPrefix(s.bins, t.bins, |s.bins|, b.path);
      assert FromFile(w, b);
      InFiles(w, b);
      SelfContainedIsContained(w, t.bins, b);
    }
  }

  lemma InFiles(w: World, b: Binary)
    requires FromFile(w, b)
    ensures b.path in w.fs
  {
  }

  /** A dlopen changes no byte that was mapped before it. */
  lemma OpenKeepsBytes(w: World, s: State, root: Path, a: nat)
    requires SizedFiles(w) && Tidy(w, s) && Sound(w, s) && LoadAndRelocate(w, s, root).Ok? && a in s.mem
    ensures var u := LoadAndRelocate(w, s, root).value; a in u.mem && u.mem[a] == s.mem[a]
  {
    hide LoadAll, RelocateFirst, Closure, Placed, Stepped, Settled, InSegments, HoldsBinary, AllContained, Tidy;
    var t := LoadAll(w, s, root).value;
    LoadAllCloses(w, s, root);
    LoadAllPlaces(w, s, root);
    LoadedContained(w, s, t);
    OthersKeepBytes(w, t, |t.bins|, a);
  }

  /** The program's last write to a, or the byte it started from. */
  function Written(steps: seq<Step>, a: nat, b: byte): (r: byte) {
    if steps == [] then b
    else Written(steps[1..], a, if steps[0].Write? && steps[0].addr == a then steps[0].val else b)
  }

  lemma TidyGrows(w: World, s: State, t: State)
    requires Tidy(w, s) && s.bins <= t.bins
    ensures Tidy(w, t)
  {
    forall p | p in w.fs && !HasPath(t.bins, |t.bins|, p)
      ensures SelfContained(w, w.fs[p])
    {
      HasPathPrefix(s.bins, t.bins, |s.bins|, p);
    }
  }

  /** Over any run, a byte that is mapped changes only by the program's own
      writes: no later load or relocation touches it. */
  lemma {:induction false} RunKeepsBytes(w: World, s: State, steps: seq<Step>, a: nat)
    requires SizedFiles(w) && Tidy(w, s) && Sound(w, s) && Run(w, s, steps).Ok? && a in s.mem
    ensures var u := Run(w, s, steps).value; a in u.mem && u.mem[a] == Written(steps, a, s.mem[a])
    decreases |steps|
  {
    hide LoadAndRelocate, Sound, Tidy;
    if steps != [] {
      var t := DoStep(w, s, steps[0]).value;
      StepSound(w, s, steps[0]);
      TidyGrows(w, s, t);
      if steps[0].Dlopen? && steps[0].filename.Some? && !Skipped(steps[0].filename.value) {
        OpenKeepsBytes(w, s, w.findLibrary(steps[0].filename.value, None, None).value, a);
      }
      RunKeepsBytes(w, t, steps[1..], a);
    }
  }

  /** From the start of the program on: once main and its libraries are loaded
      and relocated, dlopen and dlsym never change a mapped byte. */
  lemma ProgramKeepsBytes(w: World, m: Mem, main: Path, steps: seq<Step>, s: State, u: State, a: nat)
    requires SizedFiles(w) && LoadAndRelocate(w, Initial(m), main) == Ok(s) && Tidy(w, s)
    requires Run(w, s, steps) == Ok(u) && a in s.mem
    ensures a in u.mem && u.mem[a] == Written(steps, a, s.mem[a])
  {
    hide Run, Sound, Tidy, SizedFiles;
    StartSound(w, m);
    LoadAndRelocateSound(w, Initial(m), main);
    RunKeepsBytes(w, s, steps, a);
  }

  /** Main is the first binary. */
  lemma MainIsFirst(w: World, m: Mem, main: Path)
    requires LoadAll(w, Initial(m), main).Ok?
    ensures var t := LoadAll(w, Initial(m), main).value; |t.bins| > 0 && t.bins[0].path == main && t.relocated == map[]
  {
    hide Drain, LoadImage, Accounted, Explained, Covered, Genuine;
    StartSound(w, m);
    StartCloses(w, Initial(m), main);
    var start := Start(w, Initial(m), main).value;
    PathOfLoaded(w, m, main, FIRST_BASE);
    assert start.s.bins[0].path == main;
    DrainCloses(w, start.s, start.q);
  }

  lemma PathOfLoaded(w: World, m: Mem, path: Path, base: nat)
    requires LoadBinary(w, m, path, base).Ok?
    ensures LoadBinary(w, m, path, base).value.bin.path == path
  {
  }

  // ---------- Bindings ----------

  /** Once a name has a definition, every later dlsym returns the same address. */
  lemma DlsymStable(w: World, s: State, steps: seq<Step>, name: string)
    requires SizedFiles(w) && Sound(w, s) && Run(w, s, steps).Ok? && Defined(s.bins, name)
    ensures DlsymAddr(Run(w, s, steps).value.bins, name) == DlsymAddr(s.bins, name) != None
  {
    hide Run, Sound, DlsymAddr, Defined;
    RunSound(w, s, steps);
    var bins := Run(w, s, steps).value.bins;
    assert bins == s.bins + bins[|s.bins|..];
    DefinitionStable(s.bins, bins[|s.bins|..], name);
  }

  /** Some symbol of bins is a weak reference to the name. */
  ghost predicate Referenced(bins: seq<Binary>, name: string) {
    exists p :: MatchesAt(bins, p, name, WeakReference)
  }

  lemma SearchFindsIff(bins: seq<Binary>, name: string)
    ensures Search(bins, name, false).Some? <==> Defined(bins, name) || Referenced(bins, name)
  {
  }

  /** Over a run, the symbol a name stands for stays the same exactly when the
      name had a definition at first, or has none at the end and did not get its
      first weak reference on the way: a weak reference holds until a definition
      is loaded. */
  lemma SymbolKeptIff(w: World, s: State, steps: seq<Step>, u: State, name: string)
    requires SizedFiles(w) && Sound(w, s) && Run(w, s, steps) == Ok(u)
    ensures Search(u.bins, name, false) == Search(s.bins, name, false)
            <==> || Defined(s.bins, name)
                 || (!Defined(u.bins, name) && (Referenced(s.bins, name) || !Referenced(u.bins, name)))
  {
    hide Run, Sound;
    RunSound(w, s, steps);
    var more := u.bins[|s.bins|..];
    assert u.bins == s.bins + more;
    SearchFindsIff(s.bins, name);
    SearchFindsIff(u.bins, name);
    hide Search, Defined, Referenced;
    if Defined(s.bins, name) {
      DefinitionStable(s.bins, more, name);
    } else if Defined(u.bins, name) {
      NewDefinitionWins(s.bins, more, name);
    } else if Search(s.bins, name, false).Some? {
      WeakStable(s.bins, more, name);
    }
  }
}

/** What a name is bound to over a whole run: dlsym and every slot agree. */
module Bindings {
  import opened Words
  import opened Memory
  import opened Outcomes
  import opened Elf
  import opened Loading
  import opened Symbols
  import opened LoadOrder
  import opened BreadthFirst
  import opened AddressSpace
  import opened Relocation
  import opened Session
  import Tls

  /** The bytes b's records can write do not overlap. */
  ghost predicate RecordsApart(w: World, b: Binary) {
    forall i, j, n, n' ::
      && 0 <= i < |Relas(b)| && 0 <= j < |Relas(b)| && i != j
      && CanSpan(w, b.syms, Relas(b)[i], n) && CanSpan(w, b.syms, Relas(b)[j], n') ==>
      Relas(b)[i].offset + n <= Relas(b)[j].offset || Relas(b)[j].offset + n' <= Relas(b)[i].offset
  }

  lemma TargetIsPlain(w: World, bins: seq<Binary>, b: Binary, r: Rela)
    requires AllFromFiles(w, bins) && FromFile(w, b) && SizedFiles(w) && SelfContained(w, w.fs[b.path])
    requires r in Relas(b) && Extent(w, bins, b, r) > 0
    ensures Target(b, r) == b.base + r.offset && CanSpan(w, b.syms, r, Extent(w, bins, b, r))
  {
    hide FromFile, InsideSegment, SelfContained, Target, CanSpan;
    ExtentCanSpan(w, bins, b, r);
    RecordInside(w, bins, b, r);
    InsideIsOwned(w, b, r, Extent(w, bins, b, r));
  }

  lemma ApartAreDisjoint(w: World, bins: seq<Binary>, b: Binary)
    requires AllFromFiles(w, bins) && FromFile(w, b) && SizedFiles(w) && SelfContained(w, w.fs[b.path])
    requires RecordsApart(w, b)
    ensures TargetsDisjoint(w, bins, b)
  {
    hide FromFile, SelfContained, Target, Extent, CanSpan, SizedFiles;
    forall i, j, a: nat |
      0 <= i < |Relas(b)| && 0 <= j < |Relas(b)| && i != j && InTarget(w, bins, b, Relas(b)[i], a)
      ensures !InTarget(w, bins, b, Relas(b)[j], a)
    {
      if InTarget(w, bins, b, Relas(b)[j], a) {
        TargetIsPlain(w, bins, b, Relas(b)[i]);
        TargetIsPlain(w, bins, b, Relas(b)[j]);
      }
    }
  }

  /** After a load, the program's first or a later one, a new first-of-path
      binary can be relocated word by word: a matter of its file alone. */
  lemma LoadedRelocatable(w: World, s: State, t: State, k: nat)
    requires SizedFiles(w) && Tidy(w, s) && Placed(w, t) && Settled(s) && Grows(s, t)
    requires |s.bins| <= k < |t.bins| && !HasPath(t.bins, k, t.bins[k].path) && RecordsApart(w, t.bins[k])
    ensures Relocatable(w, t, k)
  {
    hide FromFile, InSegments, SelfContained, Contained, RecordsApart, TargetsDisjoint, Firsts, Tidy;
    FreshIffFirst(s, t, k);
    LoadedContained(w, s, t);
    assert FromFile(w, t.bins[k]);
    InFiles(w, t.bins[k]);
    ApartAreDisjoint(w, t.bins, t.bins[k]);
  }

  /** A slot for a name: record r of binary k of bins, in the PLT's table or the other one. */
  ghost predicate Slot(bins: seq<Binary>, k: nat, r: Rela, name: string) {
    && k < |bins| && (r in bins[k].pltrelas || r in bins[k].relas)
    && (r.kind.GlobDat? || r.kind.JumpSlot? || r.kind.Abs64?)
    && r.sym < |bins[k].syms| && bins[k].syms[r.sym].name == name
  }

  /** What a slot for a symbol at address addr holds: S, or S + A for R_X86_64_64. */
  function SlotValue(r: Rela, addr: u64): (v: u64) {
    if r.kind.Abs64? then U64(addr + r.addend) else addr
  }

  /** The slot is bound to libc's override of the name if there is one, and else
      to the address dlsym returns for the name. */
  ghost predicate Bound(w: World, m: Mem, bins: seq<Binary>, k: nat, r: Rela, name: string) {
    && k < |bins|
    && (name !in w.libcMap ==> DlsymAddr(bins, name).Some?) && Mapped(m, SlotAddr(bins, k, r), 8)
    && var addr := if name in w.libcMap then w.libcMap[name] else DlsymAddr(bins, name).value;
    && WordAt(m, SlotAddr(bins, k, r)) == SlotValue(r, addr)
  }

  function SlotAddr(bins: seq<Binary>, k: nat, r: Rela): (a: nat)
    requires k < |bins|
  {
    U64(bins[k].base + r.offset)
  }

  /** A slot that is relocated: its binary is the first of its path, and the
      binary's records do not overlap. */
  ghost predicate LiveSlot(w: World, bins: seq<Binary>, k: nat, r: Rela, name: string) {
    Slot(bins, k, r, name) && !HasPath(bins, k, bins[k].path) && RecordsApart(w, bins[k])
  }

  /** A load and its relocation, at the start or by dlopen, bind the slots of
      the binaries added to what dlsym then returns. */
  lemma LoadBinds(w: World, s: State, root: Path, u: State, name: string, k: nat, r: Rela)
    requires SizedFiles(w) && Tidy(w, s) && Sound(w, s) && LoadAndRelocate(w, s, root) == Ok(u)
    requires |s.bins| <= k && LiveSlot(w, u.bins, k, r, name)
    requires name in w.libcMap || DlsymAddr(u.bins, name).Some?
    ensures Bound(w, u.mem, u.bins, k, r, name)
  {
    hide LoadAll, RelocateAll, Closure, Placed, Stepped, Settled, RecordsApart;
    hide HasPath, Relocatable, DlsymAddr, Tidy;
    var t := LoadAll(w, s, root).value;
    LoadAllCloses(w, s, root);
    LoadAllPlaces(w, s, root);
    RelocatesFreshPaths(w, t);
    LoadedRelocatable(w, s, t, k);
    RelocatedWord(w, t, k, r);
  }

  /** The program writes nothing in a..a+8. */
  ghost predicate LeavesAlone(steps: seq<Step>, a: nat) {
    forall j :: 0 <= j < |steps| && steps[j].Write? ==> !(a <= steps[j].addr < a + 8)
  }

  lemma {:induction false} NotWritten(steps: seq<Step>, a: nat, x: nat, b: byte)
    requires LeavesAlone(steps, a) && a <= x < a + 8
    ensures Written(steps, x, b) == b
  {
    if steps != [] {
      assert forall j :: 0 <= j < |steps| - 1 ==> steps[1..][j] == steps[j + 1];
      NotWritten(steps[1..], a, x, b);
    }
  }

  /** A relocated word stays as it is for the rest of the run, unless the program writes it. */
  lemma RunKeepsWord(w: World, s: State, steps: seq<Step>, u: State, a: nat)
    requires SizedFiles(w) && Tidy(w, s) && Sound(w, s)
    requires Run(w, s, steps) == Ok(u) && Mapped(s.mem, a, 8) && LeavesAlone(steps, a)
    ensures Mapped(u.mem, a, 8) && WordAt(u.mem, a) == WordAt(s.mem, a)
  {
    hide Sound, Run, Tidy, SizedFiles;
    forall x: nat | a <= x < a + 8
      ensures x in s.mem && x in u.mem && u.mem[x] == s.mem[x]
    {
      RunKeepsBytes(w, s, steps, x);
      NotWritten(steps, a, x, s.mem[x]);
    }
    assert Fetch(u.mem, a, 8) == Fetch(s.mem, a, 8);
  }

  // ---------- Which call loaded a binary ----------

  /** The end of the call that loaded binary k: the binaries below it are the
      ones there were when that call relocated. */
  ghost function CallEnd(log: seq<Origin>, k: nat): (n: nat)
    requires k < |log|
    ensures k < n <= |log|
    decreases |log| - k
  {
    if k + 1 == |log| || log[k + 1].Root? then k + 1 else CallEnd(log, k + 1)
  }

  lemma {:induction false} CallEndIs(log: seq<Origin>, r: nat, n: nat, k: nat)
    requires r <= k < n <= |log| && (n == |log| || log[n].Root?)
    requires forall j :: r < j < n ==> log[j].Needed?
    ensures CallEnd(log, k) == n
    decreases n - k
  {
    if k + 1 < n {
      CallEndIs(log, r, n, k + 1);
    }
  }

  /** One load starts with its root and goes on with needed names. */
  ghost predicate OneCall(s: State, t: State) {
    && s.log < t.log
    && t.log[|s.log|].Root?
    && forall j :: |s.log| < j < |t.log| ==> t.log[j].Needed?
  }

  lemma LoadIsOneCall(w: World, s: State, root: Path)
    requires Closure(s, []) && LoadAndRelocate(w, s, root).Ok?
    ensures OneCall(s, LoadAndRelocate(w, s, root).value)
  {
    hide LoadAll, RelocateAll, Closure;
    LoadAllCloses(w, s, root);
    SizesAgree(s);
    LoadAllSweeps(w, s, root);
    RelocatesFreshPaths(w, LoadAll(w, s, root).value);
    SizesAgree(LoadAll(w, s, root).value);
  }

  lemma SizesAgree(s: State)
    requires Closure(s, [])
    ensures |s.log| == |s.bins|
  {
  }

  lemma StepIsOneCall(w: World, s: State, step: Step)
    requires Closure(s, []) && DoStep(w, s, step).Ok?
    ensures var t := DoStep(w, s, step).value; t.log == s.log || OneCall(s, t)
  {
    hide LoadAndRelocate, Closure;
    if step.Dlopen? && step.filename.Some? && !Skipped(step.filename.value) {
      LoadIsOneCall(w, s, w.findLibrary(step.filename.value, None, None).value);
    }
  }

  /** The log only grows, and what a run adds first is a root. */
  lemma {:induction false} RunLog(w: World, s: State, steps: seq<Step>, u: State)
    requires SizedFiles(w) && Sound(w, s) && Run(w, s, steps) == Ok(u)
    ensures s.log <= u.log && (|s.log| < |u.log| ==> u.log[|s.log|].Root?)
    decreases |steps|
  {
    hide DoStep, Closure, Placed, Stepped, Settled;
    if steps != [] {
      var t := DoStep(w, s, steps[0]).value;
      StepSound(w, s, steps[0]);
      StepIsOneCall(w, s, steps[0]);
      RunLog(w, t, steps[1..], u);
    }
  }

  /** A binary's call ends where the state after that call ended. */
  lemma CallEndAfter(w: World, s: State, t: State, steps: seq<Step>, u: State, k: nat)
    requires SizedFiles(w) && OneCall(s, t) && |s.log| <= k < |t.log| && Sound(w, t) && Run(w, t, steps) == Ok(u)
    ensures k < |u.log| && CallEnd(u.log, k) == |t.log|
  {
    hide Run, Sound;
    RunLog(w, t, steps, u);
    CallEndIs(u.log, |s.log|, |t.log|, k);
  }

  // ---------- Binding stability ----------

  /** The name has a definition among the binaries there were when binary k was relocated. */
  ghost predicate DefinedInTime(u: State, k: nat, name: string) {
    k < |u.log| <= |u.bins| && Defined(u.bins[..CallEnd(u.log, k)], name)
  }

  lemma MoreDefined(a: seq<Binary>, b: seq<Binary>, name: string)
    requires a <= b && Defined(a, name)
    ensures Defined(b, name) && DlsymAddr(b, name) == DlsymAddr(a, name) != None
  {
    assert b == a + b[|a|..];
    DefinitionStable(a, b[|a|..], name);
  }

  /** A slot bound by the load from s to t still holds, at the end of the run
      from t to u, the address dlsym returns there. */
  lemma BoundForGood(w: World, s: State, root: Path, t: State, steps: seq<Step>, u: State,
                     name: string, k: nat, r: Rela)
    requires SizedFiles(w) && Tidy(w, s) && Sound(w, s)
    requires LoadAndRelocate(w, s, root) == Ok(t) && Run(w, t, steps) == Ok(u)
    requires |s.bins| <= k < |t.bins| && LiveSlot(w, u.bins, k, r, name)
    requires (name in w.libcMap || DefinedInTime(u, k, name)) && LeavesAlone(steps, SlotAddr(u.bins, k, r))
    ensures Bound(w, u.mem, u.bins, k, r, name)
  {
    hide LoadAndRelocate, Run, Closure, Placed, Stepped, Settled, Tidy, SizedFiles;
    hide Defined, DlsymAddr, RecordsApart, WordAt, CallEnd;
    LoadAndRelocateSound(w, s, root);
    LoadIsOneCall(w, s, root);
    RunSound(w, t, steps);
    SizesAgree(s);
    SizesAgree(t);
    CallEndAfter(w, s, t, steps, u, k);
    assert u.bins[..|t.bins|] == t.bins && t.bins[k] == u.bins[k];
    if name !in w.libcMap {
      MoreDefined(t.bins, u.bins, name);
      MoreDefined(t.bins, t.bins, name);
    }
    HasPathPrefix(t.bins, u.bins, k, t.bins[k].path);
    TidyGrows(w, s, t);
    LoadBinds(w, s, root, t, name, k, r);
    RunKeepsWord(w, t, steps, u, SlotAddr(t.bins, k, r));
  }

  // ---------- The call a binary comes from ----------

  /** rest is what is left of steps at some point. */
  ghost predicate Suffix(rest: seq<Step>, steps: seq<Step>) {
    |rest| <= |steps| && rest == steps[|steps| - |rest|..]
  }

  lemma LeavesAloneLater(rest: seq<Step>, steps: seq<Step>, a: nat)
    requires Suffix(rest, steps) && LeavesAlone(steps, a)
    ensures LeavesAlone(rest, a)
  {
    assert forall j :: 0 <= j < |rest| ==> rest[j] == steps[|steps| - |rest| + j];
  }

  /** The load from s to t, with root, that added binary k; the run goes on from t to u. */
  ghost predicate AddedBy(w: World, s: State, root: Path, t: State, rest: seq<Step>, u: State, k: nat) {
    && Tidy(w, s) && Sound(w, s)
    && LoadAndRelocate(w, s, root) == Ok(t) && Run(w, t, rest) == Ok(u)
    && |s.bins| <= k < |t.bins|
  }

  lemma {:induction false} CallInRun(w: World, s: State, steps: seq<Step>, u: State, k: nat)
      returns (s': State, root: Path, t: State, rest: seq<Step>)
    requires SizedFiles(w) && Tidy(w, s) && Sound(w, s) && Run(w, s, steps) == Ok(u) && |s.bins| <= k < |u.bins|
    ensures AddedBy(w, s', root, t, rest, u, k) && Suffix(rest, steps)
    decreases |steps|
  {
    hide LoadAndRelocate, Sound, Tidy, SizedFiles;
    t, rest := DoStep(w, s, steps[0]).value, steps[1..];
    StepSound(w, s, steps[0]);
    TidyGrows(w, s, t);
    if k < |t.bins| {
      s', root := s, w.findLibrary(steps[0].filename.value, None, None).value;
    } else {
      s', root, t, rest := CallInRun(w, t, rest, u, k);
    }
  }

  lemma CallInProgram(w: World, m: Mem, main: Path, steps: seq<Step>, u: State, k: nat)
      returns (s: State, root: Path, t: State, rest: seq<Step>)
    requires SizedFiles(w) && Tidy(w, Initial(m)) && Program(w, m, main, steps) == Ok(u) && k < |u.bins|
    ensures AddedBy(w, s, root, t, rest, u, k) && Suffix(rest, steps)
  {
    hide LoadAndRelocate, Run, Sound, Tidy, SizedFiles;
    s, root, t, rest := Initial(m), main, LoadAndRelocate(w, Initial(m), main).value, steps;
    StartSound(w, m);
    LoadAndRelocateSound(w, s, main);
    TidyGrows(w, s, t);
    if k >= |t.bins| {
      s, root, t, rest := CallInRun(w, t, steps, u, k);
    }
  }

  // ---------- Over whole runs ----------

  /** Every GLOB_DAT, JUMP_SLOT and R_X86_64_64 word of a library added during a
      run holds, at its end, the one address dlsym returns for the name, plus the
      addend of the last kind, provided the name had a definition when the
      library was relocated. */
  lemma RunBinds(w: World, s: State, steps: seq<Step>, u: State, name: string, k: nat, r: Rela)
    requires SizedFiles(w) && Tidy(w, s) && Sound(w, s) && Run(w, s, steps) == Ok(u)
    requires |s.bins| <= k && LiveSlot(w, u.bins, k, r, name)
    requires (name in w.libcMap || DefinedInTime(u, k, name)) && LeavesAlone(steps, SlotAddr(u.bins, k, r))
    ensures Bound(w, u.mem, u.bins, k, r, name)
  {
    hide LoadAndRelocate, Run, Sound, Tidy, SizedFiles, DefinedInTime, DlsymAddr, RecordsApart;
    hide HasPath, WordAt, Suffix, LeavesAlone;
    var s', root, t, rest := CallInRun(w, s, steps, u, k);
    LeavesAloneLater(rest, steps, SlotAddr(u.bins, k, r));
    BoundForGood(w, s', root, t, rest, u, name, k, r);
  }

  /** Binding stability over whole programs: the slots of main, of its initial
      libraries and of every library opened later. */
  lemma ProgramBinds(w: World, m: Mem, main: Path, steps: seq<Step>, u: State, name: string, k: nat, r: Rela)
    requires SizedFiles(w) && Tidy(w, Initial(m)) && Program(w, m, main, steps) == Ok(u)
    requires LiveSlot(w, u.bins, k, r, name)
    requires (name in w.libcMap || DefinedInTime(u, k, name)) && LeavesAlone(steps, SlotAddr(u.bins, k, r))
    ensures Bound(w, u.mem, u.bins, k, r, name)
  {
    hide LoadAndRelocate, Run, Sound, Tidy, SizedFiles, DefinedInTime, DlsymAddr, RecordsApart;
    hide HasPath, WordAt, Suffix, LeavesAlone, Program;
    var s, root, t, rest := CallInProgram(w, m, main, steps, u, k);
    LeavesAloneLater(rest, steps, SlotAddr(u.bins, k, r));
    BoundForGood(w, s, root, t, rest, u, name, k, r);
  }

  // ---------- Thread-local variables over whole runs ----------

  /** A TPOFF64 word for a name, in a binary that is the first of its path and
      whose records do not overlap. */
  ghost predicate LiveOffset(w: World, bins: seq<Binary>, k: nat, r: Rela, name: string) {
    && k < |bins| && (r in bins[k].pltrelas || r in bins[k].relas)
    && r.kind.Tpoff64? && r.sym < |bins[k].syms| && bins[k].syms[r.sym].name == name
    && !HasPath(bins, k, bins[k].path) && RecordsApart(w, bins[k])
  }

  /** The word at a, as an offset from the thread pointer, leads to the name's
      place in the block the TLS formula gives the binary that defines it. */
  ghost predicate LeadsToBlock(w: World, m: Mem, a: nat, bins: seq<Binary>, name: string) {
    && Mapped(m, a, 8) && Scan(bins, name, TlsDefinition, 0).Some?
    && var p := Scan(bins, name, TlsDefinition, 0).value;
    && U64(w.tlsBlock + 4096 + WordAt(m, a))
       == U64(w.tlsBlock + Tls.BlockStart(bins, p.bin) + bins[p.bin].syms[p.sym].value)
  }

  lemma LoadOffsets(w: World, s: State, root: Path, u: State, name: string, k: nat, r: Rela)
    requires SizedFiles(w) && Tidy(w, s) && Sound(w, s) && LoadAndRelocate(w, s, root) == Ok(u)
    requires |s.bins| <= k && LiveOffset(w, u.bins, k, r, name) && Scan(u.bins, name, TlsDefinition, 0).Some?
    ensures LeadsToBlock(w, u.mem, SlotAddr(u.bins, k, r), u.bins, name)
  {
    hide LoadAll, RelocateAll, Closure, Placed, Stepped, Settled, RecordsApart;
    hide HasPath, Relocatable, Tidy, U64, WordAt, Scan;
    var t := LoadAll(w, s, root).value;
    LoadAllCloses(w, s, root);
    LoadAllPlaces(w, s, root);
    RelocatesFreshPaths(w, t);
    LoadedRelocatable(w, s, t, k);
    TpoffWordAgrees(w, t, k, r, name);
  }

  /** More binaries move neither the definition nor its block. */
  lemma BlockStays(w: World, m: Mem, a: nat, b: seq<Binary>, c: seq<Binary>, name: string)
    requires b <= c && LeadsToBlock(w, m, a, b, name)
    ensures LeadsToBlock(w, m, a, c, name)
  {
    hide U64, WordAt;
    var more := c[|b|..];
    assert c == b + more;
    ScanStable(b, more, name, TlsDefinition, 0);
    Tls.SumOfPrefix(b, more, Scan(b, name, TlsDefinition, 0).value.bin + 1);
  }

  lemma SameWordLeads(w: World, m: Mem, m': Mem, a: nat, bins: seq<Binary>, name: string)
    requires LeadsToBlock(w, m, a, bins, name) && Mapped(m', a, 8) && WordAt(m', a) == WordAt(m, a)
    ensures LeadsToBlock(w, m', a, bins, name)
  {
    hide U64, WordAt, Scan;
  }

  /** Over whole programs, every TPOFF64 word of main, its initial libraries and
      later ones leads, at the end, to the block of the binary that defines the
      name, provided it was defined when the word was relocated. Whether anything
      was laid out there is said by OffsetsInLayout. */
  lemma ProgramOffsets(w: World, m: Mem, main: Path, steps: seq<Step>, u: State, name: string, k: nat, r: Rela)
    requires SizedFiles(w) && Tidy(w, Initial(m)) && Program(w, m, main, steps) == Ok(u)
    requires LiveOffset(w, u.bins, k, r, name) && LeavesAlone(steps, SlotAddr(u.bins, k, r))
    requires k < |u.log| <= |u.bins| && Scan(u.bins[..CallEnd(u.log, k)], name, TlsDefinition, 0).Some?
    ensures LeadsToBlock(w, u.mem, SlotAddr(u.bins, k, r), u.bins, name)
  {
    hide LoadAndRelocate, Run, Closure, Placed, Stepped, Settled, Tidy, SizedFiles, RecordsApart;
    hide HasPath, WordAt, Suffix, LeavesAlone, Program, CallEnd, Scan, LeadsToBlock;
    var s, root, t, rest := CallInProgram(w, m, main, steps, u, k);
    var a := SlotAddr(u.bins, k, r);
    LeavesAloneLater(rest, steps, a);
    LoadAndRelocateSound(w, s, root);
    LoadIsOneCall(w, s, root);
    RunSound(w, t, rest);
    SizesAgree(s);
    SizesAgree(t);
    CallEndAfter(w, s, t, rest, u, k);
    assert u.bins[..|t.bins|] == t.bins && t.bins[k] == u.bins[k];
    HasPathPrefix(t.bins, u.bins, k, t.bins[k].path);
    TidyGrows(w, s, t);
    LoadOffsets(w, s, root, t, name, k, r);
    IsMapped(w, t.mem, a, t.bins, name);
    RunKeepsWord(w, t, rest, u, a);
    SameWordLeads(w, t.mem, u.mem, a, t.bins, name);
    BlockStays(w, u.mem, a, t.bins, u.bins, name);
  }

  lemma IsMapped(w: World, m: Mem, a: nat, bins: seq<Binary>, name: string)
    requires LeadsToBlock(w, m, a, bins, name)
    ensures Mapped(m, a, 8)
  {
  }

  /** The word at a, as an offset from the thread pointer, leads to the block laid
      out for the binary that defines the name, if that is one of the binaries
      early, and else to a block that ends below every byte laid out. */
  ghost predicate LeadsInLayout(w: World, m: Mem, a: nat, bins: seq<Binary>, name: string, early: seq<Binary>,
                                atExecute: Mem, bytes: seq<byte>)
    requires |bytes| == Tls.AREA_SIZE
  {
    && LeadsToBlock(w, m, a, bins, name)
    && Tls.InitTls(w, atExecute, early, bytes).Ok?
    && var p := Scan(bins, name, TlsDefinition, 0).value;
    && (p.bin < |early| ==>
          && Tls.TlsSum(early, p.bin + 1) <= 4096
          && Tls.LayOut(w, atExecute, early, p.bin + 1, bytes).Ok?
          && U64(w.tlsBlock + 4096 + WordAt(m, a))
             == U64(w.tlsBlock + Tls.LayOut(w, atExecute, early, p.bin + 1, bytes).value.offset
                    + bins[p.bin].syms[p.sym].value))
    && (|early| <= p.bin ==>
          Tls.BlockStart(bins, p.bin) + Tls.TlsSize(bins[p.bin])
          <= Tls.InitTls(w, atExecute, early, bytes).value.offset)
  }

  lemma LeadsSomewhere(w: World, m: Mem, a: nat, bins: seq<Binary>, name: string, early: seq<Binary>,
                       atExecute: Mem, bytes: seq<byte>)
    requires LeadsToBlock(w, m, a, bins, name) && early <= bins
    requires |bytes| == Tls.AREA_SIZE && Tls.InitTls(w, atExecute, early, bytes).Ok?
    ensures LeadsInLayout(w, m, a, bins, name, early, atExecute, bytes)
  {
    hide Tls.InitTls, Tls.LayOut, Tls.TlsSum, Tls.TlsSize, U64, WordAt, Scan;
    var i := Scan(bins, name, TlsDefinition, 0).value.bin;
    if i < |early| {
      Tls.EarlyBlock(w, atExecute, early, bins, bytes, i);
    } else {
      Tls.LaterBlock(w, atExecute, early, bins, bytes, i);
    }
  }

  /** Where these words lead, given what Execute laid out for the binaries of the
      start: to the block it laid out if one of them defines the name, and below
      every byte it wrote if a library opened later does. */
  lemma OffsetsInLayout(w: World, m: Mem, main: Path, s: State, steps: seq<Step>, u: State,
                        name: string, k: nat, r: Rela, atExecute: Mem, bytes: seq<byte>)
    requires SizedFiles(w) && Tidy(w, Initial(m))
    requires LoadAndRelocate(w, Initial(m), main) == Ok(s) && Run(w, s, steps) == Ok(u)
    requires LiveOffset(w, u.bins, k, r, name) && LeavesAlone(steps, SlotAddr(u.bins, k, r))
    requires k < |u.log| <= |u.bins| && Scan(u.bins[..CallEnd(u.log, k)], name, TlsDefinition, 0).Some?
    requires |bytes| == Tls.AREA_SIZE && Tls.InitTls(w, atExecute, s.bins, bytes).Ok?
    ensures LeadsInLayout(w, u.mem, SlotAddr(u.bins, k, r), u.bins, name, s.bins, atExecute, bytes)
  {
    hide LoadAndRelocate, Run, Sound, Tidy, SizedFiles, LeavesAlone, CallEnd, Scan, RecordsApart;
    hide HasPath, Tls.InitTls, LeadsInLayout, LeadsToBlock;
    StartSound(w, m);
    LoadAndRelocateSound(w, Initial(m), main);
    RunSound(w, s, steps);
    ProgramOffsets(w, m, main, steps, u, name, k, r);
    LeadsSomewhere(w, u.mem, SlotAddr(u.bins, k, r), u.bins, name, s.bins, atExecute, bytes);
  }
}

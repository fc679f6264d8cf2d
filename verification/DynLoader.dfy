/** The DynLoader class, with sloader_dlopen, sloader_dlsym and
    sloader_tls_get_addr. Every method is tied to the function of the loader's
    state that the theorems are about. */
module DynLoaders {
  import opened Words
  import opened Memory
  import opened Outcomes
  import opened Elf
  import opened Loading
  import opened ElfBinaries
  import opened Symbols
  import opened Effects
  import opened LoadOrder
  import opened Relocation
  import Constructors
  import InitialStack
  import Session
  import Tls

  class DynLoader {
    const w: World
    const mainPath: Path
    const process: Process
    /** The TLS area and the word above it. */
    const tls: array<byte>
    var tlsOffset: nat
    var binaries: seq<Binary>
    var nextBase: nat
    var loaded: set<string>
    var relocated: map<Path, bool>
    ghost var log: seq<Origin>
    ghost var relog: seq<nat>

    ghost function View(): (s: State)
      reads this, process
    {
      State(binaries, nextBase, loaded, relocated, process.mem, log, relog)
    }

    constructor (w: World, mainPath: Path, process: Process, tls: array<byte>)
      requires tls.Length == Tls.AREA_SIZE
      ensures this.w == w && this.mainPath == mainPath && this.process == process && this.tls == tls
      ensures tlsOffset == 4096 && View() == Session.Initial(process.mem)
    {
      this.w, this.mainPath, this.process, this.tls := w, mainPath, process, tls;
      tlsOffset := 4096;
      binaries, nextBase, loaded, relocated := [], 0x140_0000, {}, map[];
      log, relog := [], [];
    }

    // ---------- Loading ----------

    /** Construct, load and append the binary at path. */
    method LoadOne(path: Path, ghost origin: Origin) returns (ok: bool)
      modifies this`binaries, this`nextBase, this`log, process
      ensures ok <==> LoadBinary(w, old(process.mem), path, old(nextBase)).Ok?
      ensures ok ==>
                var l := LoadBinary(w, old(process.mem), path, old(nextBase)).value;
                && binaries == old(binaries) + [l.bin] && nextBase == l.next && process.mem == l.mem
                && log == old(log) + [origin]
    {
      hide LoadImage;
      if path !in w.fs || w.fs[path].size <= 24 {
        return false;
      }
      var b := new ElfBinary(path, w.fs[path]);
      var okLoad, next := b.Load(nextBase, process);
      if !okLoad {
        return false;
      }
      binaries, nextBase := binaries + [b.View()], next;
      log := log + [origin];
      ok := true;
    }

    /** LoadDependingLibs. */
    method LoadDependingLibs(root: Path) returns (ok: bool)
      modifies this`binaries, this`nextBase, this`loaded, this`log, process
      ensures LoadAll(w, old(View()), root) == if ok then Ok(View()) else Halt
    {
      hide LoadBinary, Requests, Asks, AllNames, Skipped, Filename;
      ghost var n := |binaries|;
      ok := LoadOne(root, Root(Filename(root)));
      if !ok {
        return;
      }
      loaded := loaded + {Filename(root)};
      var queue := Requests(binaries[|binaries| - 1]);
      ghost var pending := Asks(binaries[|binaries| - 1], n);
      assert Start(w, old(View()), root) == Ok(Work(View(), pending));
      while queue != []
        invariant Known(w, pending) && Mirrors(queue, pending)
        invariant LoadAll(w, old(View()), root) == Drain(w, View(), pending)
        decreases AllNames(w) - loaded, |queue|
      {
        ghost var s, q := View(), pending;
        assert Drain(w, s, q) == match Turn(w, s, q) case Ok(t) => Drain(w, t.s, t.q) case Halt => Halt;
        var request := queue[0];
        queue, pending := queue[1..], pending[1..];
        if request.name in loaded {
          assert Turn(w, s, q) == Ok(Work(View(), pending));
          continue;
        }
        loaded := loaded + {request.name};
        if Skipped(request.name) {
          assert Turn(w, s, q) == Ok(Work(View(), pending));
          continue;
        }
        var path := w.findLibrary(request.name, request.runpath, request.rpath);
        if path.None? {
          return false;
        }
        n := |binaries|;
        ok := LoadOne(path.value, Needed(request.name, q[0].asker));
        if !ok {
          return;
        }
        queue := queue + Requests(binaries[|binaries| - 1]);
        pending := pending + Asks(binaries[|binaries| - 1], n);
        assert Turn(w, s, q) == Ok(Work(View(), pending));
      }
      ok := true;
    }

    // ---------- Looking up symbols ----------

    /** One pass of SearchSym, from binary i0 on. */
    method FirstMatch(name: string, want: Want, i0: nat) returns (r: Option<Place>)
      requires i0 <= |binaries|
      ensures r == Scan(binaries, name, want, i0)
    {
      var i := i0;
      while i < |binaries|
        invariant i0 <= i <= |binaries|
        invariant Scan(binaries, name, want, i0) == Scan(binaries, name, want, i)
      {
        var syms := binaries[i].syms;
        for j := 0 to |syms|
          invariant ScanSyms(syms, name, want, 0) == ScanSyms(syms, name, want, j)
        {
          if Matches(syms[j], name, want) {
            return Some(Place(i, j));
          }
        }
        i := i + 1;
      }
      r := None;
    }

    /** SearchSym. */
    method SearchSym(name: string, skipMain: bool) returns (r: Option<Place>)
      ensures r == Search(binaries, name, skipMain)
    {
      var i := if skipMain && |binaries| > 0 then 1 else 0;
      r := FirstMatch(name, Definition, i);
      if r.None? {
        r := FirstMatch(name, WeakReference, i);
      }
    }

    /** The libc override, or the address of the symbol SearchSym finds. */
    method ResolveName(name: string) returns (a: Option<u64>)
      ensures a == Resolve(w, binaries, name)
    {
      var found := SearchSym(name, false);
      if name in w.libcMap {
        a := Some(w.libcMap[name]);
      } else if found.Some? {
        a := Some(SymbolAddr(binaries, found.value));
      } else {
        a := None;
      }
    }

    /** TLSSymOffset: the running offset wraps below zero. */
    method TlsSymOffset(name: string) returns (r: Option<u64>)
      ensures r == Tls.SymOffset(w, binaries, name)
    {
      hide U64;
      var offset: u64 := 0;
      var i := 0;
      assert offset == U64(0 - Tls.TlsSum(binaries, 0)) by { SmallIsItself(0); }
      while i < |binaries|
        invariant 0 <= i <= |binaries|
        invariant offset == U64(0 - Tls.TlsSum(binaries, i))
        invariant Scan(binaries, name, TlsDefinition, 0) == Scan(binaries, name, TlsDefinition, i)
      {
        var syms := binaries[i].syms;
        var size: int := Tls.TlsSize(binaries[i]);
        for j := 0 to |syms|
          invariant ScanSyms(syms, name, TlsDefinition, 0) == ScanSyms(syms, name, TlsDefinition, j)
        {
          if Matches(syms[j], name, TlsDefinition) {
            AddModulo(syms[j].value - size, 0 - Tls.TlsSum(binaries, i));
            assert syms[j].value - size - Tls.TlsSum(binaries, i) == syms[j].value - Tls.TlsSum(binaries, i + 1);
            return Some(U64(offset - size + syms[j].value));
          }
        }
        AddModulo(0 - size, 0 - Tls.TlsSum(binaries, i));
        if binaries[i].tls.Some? {
          offset := U64(offset - size);
        }
        i := i + 1;
      }
      if name in w.libcTls {
        r := Some(U64(w.tlsBlock + 4096 - w.libcTls[name]));
      } else {
        r := None;
      }
    }

    // ---------- Relocating ----------

    method StoreWord(dst: u64, word: u64) returns (ok: bool)
      modifies process
      ensures Apply(old(process.mem), Put(dst, word)) == if ok then Ok(process.mem) else Halt
    {
      hide Bytes, Store;
      ok := process.Write(dst, Bytes(word, 8));
    }

    method CopyBytes(dst: u64, src: u64, n: nat) returns (ok: bool)
      modifies process
      ensures Apply(old(process.mem), CopyFrom(dst, src, n)) == if ok then Ok(process.mem) else Halt
    {
      hide Store, Fetch;
      if !Mapped(process.mem, src, 8) || !Mapped(process.mem, src, n) {
        return false;
      }
      ok := process.Write(dst, Fetch(process.mem, src, n));
    }

    /** The body of Relocate's inner loop: one relocation of binary b. */
    method RelocateOne(b: Binary, r: Rela) returns (ok: bool)
      modifies process
      ensures Apply(old(process.mem), EffectOf(w, binaries, b, r)) == if ok then Ok(process.mem) else Halt
    {
      hide Apply, Search, Tls.SymOffset, Resolve;
      HaltingEffects(process.mem);
      if r.sym >= |b.syms| {
        return false;
      }
      var name := b.syms[r.sym].name;
      var dst := Target(b, r);
      match r.kind
      case GlobDat =>
        ok := StoreResolved(name, dst, 0);
      case JumpSlot =>
        ok := StoreResolved(name, dst, 0);
      case Irelative =>
        ok := StoreWord(dst, U64(b.base + r.addend));
      case Relative =>
        ok := StoreWord(dst, U64(b.base + r.addend));
      case Abs64 =>
        ok := StoreResolved(name, dst, r.addend);
      case Tpoff64 =>
        var offset := TlsSymOffset(name);
        if offset.None? {
          return false;
        }
        ok := StoreWord(dst, offset.value);
      case Dtpmod64 =>
        ok := StoreWord(dst, 1);
      case Dtpoff64 =>
        ok := true;
      case Copy =>
        var found := SearchSym(name, true);
        if name in w.libcMap {
          ok := CopyBytes(dst, w.libcMap[name], 8);
        } else if found.Some? {
          ok := CopyBytes(dst, SymbolAddr(binaries, found.value), binaries[found.value.bin].syms[found.value.sym].size);
        } else {
          ok := false;
        }
      case Unsupported =>
        ok := false;
    }

    /** Stores the address of name plus an addend, or nothing if it is not found. */
    method StoreResolved(name: string, dst: u64, addend: int) returns (ok: bool)
      modifies process
      ensures Apply(old(process.mem), PutIf(Resolve(w, binaries, name), dst, addend))
              == if ok then Ok(process.mem) else Halt
    {
      hide Resolve;
      HaltingEffects(process.mem);
      var a := ResolveName(name);
      if a.None? {
        return true;
      }
      ok := StoreWord(dst, U64(a.value + addend));
    }

    /** The inner loop: all relocations of b. */
    method RelocateBinary(b: Binary) returns (ok: bool)
      modifies process
      ensures ApplyAll(old(process.mem), EffectsOf(w, binaries, b)) == if ok then Ok(process.mem) else Halt
    {
      hide Apply, EffectOf;
      var relas := Relas(b);
      ghost var es := EffectsOf(w, binaries, b);
      for i := 0 to |relas|
        invariant ApplyFirst(old(process.mem), es, i) == Ok(process.mem)
      {
        ok := RelocateOne(b, relas[i]);
        if !ok {
          HaltsLater(old(process.mem), es, i + 1, |es|);
          return;
        }
      }
      ok := true;
    }

    /** Relocate. */
    method Relocate() returns (ok: bool)
      modifies this`relocated, this`relog, process
      ensures RelocateAll(w, old(View())) == if ok then Ok(View()) else Halt
    {
      hide ApplyAll, EffectsOf;
      for i := 0 to |binaries|
        invariant RelocateFirst(w, old(View()), i) == Ok(View())
      {
        var b := binaries[i];
        if b.path in relocated && relocated[b.path] {
          continue;
        }
        relocated := relocated[b.path := true];
        ok := RelocateBinary(b);
        if !ok {
          if RelocateFirst(w, old(View()), |binaries|).Ok? {
            FirstOkBefore(w, old(View()), i + 1, |binaries|);
          }
          return;
        }
        relog := relog + [i];
      }
      ok := true;
    }

    // ---------- Executing ----------

    /** The constructor loop. The trace is the calls made. */
    method RunConstructors() returns (ok: bool, trace: seq<Constructors.Entry>)
      ensures Constructors.Trace(process.mem, binaries, |binaries|) == if ok then Ok(trace) else Halt
    {
      hide Constructors.FunctionsOf;
      trace := [];
      var i := |binaries|;
      BehindNothing(Constructors.Trace(process.mem, binaries, i));
      while i > 0
        invariant 0 <= i <= |binaries|
        invariant Constructors.Trace(process.mem, binaries, |binaries|)
                  == Behind(trace, Constructors.Trace(process.mem, binaries, i))
      {
        i := i - 1;
        var okCalls, fs := CallsOf(binaries[i]);
        if !okCalls {
          return false, trace;
        }
        BehindMore(trace, Constructors.Stamped(i, fs), Constructors.Trace(process.mem, binaries, i));
        trace := trace + Constructors.Stamped(i, fs);
      }
      assert trace + [] == trace;
      ok := true;
    }

    /** DT_INIT, then the entries of DT_INIT_ARRAY up to a null one. */
    method CallsOf(b: Binary) returns (ok: bool, fs: seq<nat>)
      ensures Constructors.FunctionsOf(process.mem, b) == if ok then Ok(fs) else Halt
    {
      hide WordAt, Mapped, U64;
      fs := [];
      if b.dyn.Scalar(DtInit) != 0 {
        fs := fs + [U64(b.dyn.Scalar(DtInit) + b.base)];
      }
      var sz := b.dyn.Scalar(DtInitArraysz);
      if sz % 8 != 0 {
        return false, fs;
      }
      var a, n := U64(b.dyn.Scalar(DtInitArray) + b.base), sz / 8;
      ghost var m := process.mem;
      assert fs == Constructors.InitCall(b);
      for j := 0 to n
        invariant Constructors.FunctionsOf(m, b) == Behind<nat>(fs, Constructors.ArrayFrom(m, a, j, n))
      {
        if !Mapped(process.mem, a + 8 * j, 8) {
          return false, fs;
        }
        var word := WordAt(process.mem, a + 8 * j);
        if word == 0 {
          assert fs + [] == fs;
          return true, fs;
        }
        BehindMore<nat>(fs, [word], Constructors.ArrayFrom(m, a, j + 1, n));
        fs := fs + [word];
      }
      assert fs + [] == fs;
      ok := true;
    }

    /** The TLS part of Execute. */
    method LayOutTls() returns (ok: bool)
      requires tls.Length == Tls.AREA_SIZE && tlsOffset == 4096
      modifies this`tlsOffset, tls
      ensures Tls.InitTls(w, process.mem, binaries, old(tls[..]))
              == if ok then Ok(Tls.Area(tls[..], tlsOffset)) else Halt
    {
      hide Tls.Block, Tls.LayBlock;
      var total := 0;
      for i := 0 to |binaries|
        invariant total == Tls.TlsSum(binaries, i)
      {
        if binaries[i].tls.Some? {
          total := total + binaries[i].tls.value.memsz;
        }
      }
      if total > 4096 {
        return false;
      }
      for i := 0 to |binaries|
        invariant Tls.TlsSum(binaries, i) <= 4096
        invariant Tls.LayOut(w, process.mem, binaries, i, old(tls[..])) == Ok(Tls.Area(tls[..], tlsOffset))
      {
        Tls.SumGrows(binaries, i + 1, |binaries|);
        if binaries[i].tls.Some? {
          var block := Tls.Block(process.mem, binaries[i]);
          if block.Halt? {
            if Tls.LayOut(w, process.mem, binaries, |binaries|, old(tls[..])).Ok? {
              Tls.OkBefore(w, process.mem, binaries, i + 1, |binaries|, old(tls[..]));
            }
            return false;
          }
          StoreBlock(block.value);
        }
      }
      ok := true;
    }

    /** Stores one block below the offset and the pointer at it. */
    method StoreBlock(block: seq<byte>)
      requires tls.Length == Tls.AREA_SIZE && |block| <= tlsOffset <= 4096
      modifies this`tlsOffset, tls
      ensures Tls.Area(tls[..], tlsOffset) == Tls.LayBlock(w, old(Tls.Area(tls[..], tlsOffset)), block)
    {
      hide Bytes, U64;
      var self := Bytes(U64(w.tlsBlock + tlsOffset), 8);
      Overwrite(tls, tlsOffset - |block|, block);
      Overwrite(tls, tlsOffset, self);
      tlsOffset := tlsOffset - |block|;
    }

    /** sloader_tls_get_addr. */
    method TlsGetAddr(tiOffset: u64) returns (a: u64)
      ensures a == Tls.TlsGetAddr(w, Tls.Area(tls[..], tlsOffset), tiOffset)
    {
      a := U64(w.tlsBlock + tlsOffset + tiOffset);
    }

    /** Nothing in Execute halts: the constructors, AT_RANDOM and the TLS blocks are fine. */
    ghost predicate CanExecute(bytes: seq<byte>)
      requires |bytes| == Tls.AREA_SIZE
      reads this, process
    {
      && Constructors.Trace(process.mem, binaries, |binaries|).Ok?
      && w.auxval(25) != 0
      && Tls.InitTls(w, process.mem, binaries, bytes).Ok?
    }

    /** What the program starts with: the words from the stack pointer up, and
        the TLS area. */
    ghost predicate Started(args: seq<int>, envs: seq<int>, sp0: int, bytes: seq<byte>,
                            trace: seq<Constructors.Entry>, sp: int, words: map<int, int>)
      requires |bytes| == Tls.AREA_SIZE
      reads this, process, tls
    {
      && Constructors.Trace(process.mem, binaries, |binaries|) == Ok(trace)
      && Tls.InitTls(w, process.mem, binaries, bytes) == Ok(Tls.Area(tls[..], tlsOffset))
      && var image := InitialStack.StackArray(args, envs, InitialStack.Collected(w.auxval, InitialStack.AUX_TYPES));
      && sp == sp0 - 8 * |image| && InitialStack.Upward(words, sp, |image|) == InitialStack.Reverse(image)
    }

    /** Execute, up to the jump to the entry point: constructors, the initial
        stack, the TLS blocks. */
    method Execute(args: seq<int>, envs: seq<int>, sp0: int)
        returns (ok: bool, trace: seq<Constructors.Entry>, sp: int, words: map<int, int>)
      requires tls.Length == Tls.AREA_SIZE && tlsOffset == 4096
      modifies this`tlsOffset, tls
      ensures ok <==> CanExecute(old(tls[..]))
      ensures ok ==> Started(args, envs, sp0, old(tls[..]), trace, sp, words)
    {
      hide Constructors.Trace, Tls.InitTls, InitialStack.StackArray, InitialStack.Collected, InitialStack.Reverse;
      sp, words := sp0, map[];
      ok, trace := RunConstructors();
      if !ok {
        return;
      }
      if w.auxval(25) == 0 {
        ok := false;
        return;
      }
      var aux := InitialStack.CollectAux(w.auxval);
      var stack := InitialStack.BuildStack(args, envs, aux);
      ok := LayOutTls();
      if !ok {
        return;
      }
      sp, words := InitialStack.ExecuteCore(stack, sp0);
    }

    // ---------- After the start ----------

    /** sloader_dlopen. */
    method Dlopen(filename: Option<string>) returns (ok: bool)
      modifies this`binaries, this`nextBase, this`loaded, this`log, this`relocated, this`relog, process
      ensures Session.DoStep(w, old(View()), Session.Dlopen(filename)) == if ok then Ok(View()) else Halt
    {
      hide LoadAll, RelocateAll, Skipped;
      if filename.None? {
        return true;
      }
      if Skipped(filename.value) {
        return true;
      }
      var path := w.findLibrary(filename.value, None, None);
      if path.None? {
        return false;
      }
      ok := LoadDependingLibs(path.value);
      if !ok {
        return;
      }
      ok := Relocate();
    }

    /** sloader_dlsym; None is its failed CHECK. */
    method Dlsym(name: string) returns (a: Option<u64>)
      ensures a == DlsymAddr(binaries, name)
    {
      var found := SearchSym(name, false);
      if found.None? {
        return None;
      }
      a := Some(SymbolAddr(binaries, found.value));
    }

    /** Run, up to the jump to the entry point. It halts exactly when loading,
        relocating or executing does. */
    method Run(args: seq<int>, envs: seq<int>, sp0: int)
        returns (ok: bool, trace: seq<Constructors.Entry>, sp: int, words: map<int, int>)
      requires tls.Length == Tls.AREA_SIZE && tlsOffset == 4096
      modifies this, process, tls
      ensures ok ==> Session.LoadAndRelocate(w, old(View()), mainPath) == Ok(View())
      ensures ok ==> CanExecute(old(tls[..])) && Started(args, envs, sp0, old(tls[..]), trace, sp, words)
      ensures !ok ==>
                || Session.LoadAndRelocate(w, old(View()), mainPath).Halt?
                || (Session.LoadAndRelocate(w, old(View()), mainPath) == Ok(View()) && !CanExecute(old(tls[..])))
    {
      hide LoadAll, RelocateAll, CanExecute, Started;
      trace, sp, words := [], sp0, map[];
      ok := LoadDependingLibs(mainPath);
      if !ok {
        return;
      }
      ok := Relocate();
      if !ok {
        return;
      }
      ok, trace, sp, words := Execute(args, envs, sp0);
    }
  }

  /** Execute succeeds exactly when the init arrays have whole entries and can be
      read up to their first null ones, the host has AT_RANDOM (25), and the
      blocks of TLS are mapped and take at most 4096 bytes. */
  lemma CanExecuteIff(d: DynLoader, bytes: seq<byte>)
    requires |bytes| == Tls.AREA_SIZE
    ensures d.CanExecute(bytes)
            <==> && (forall i :: 0 <= i < |d.binaries| ==>
                       var b := d.binaries[i];
                       var sz := b.dyn.Scalar(DtInitArraysz);
                       sz % 8 == 0
                       && Constructors.Readable(d.process.mem, U64(b.dyn.Scalar(DtInitArray) + b.base), 0, sz / 8))
                 && d.w.auxval(25) != 0
                 && Tls.TlsSum(d.binaries, |d.binaries|) <= 4096
                 && forall i :: 0 <= i < |d.binaries| && d.binaries[i].tls.Some? ==>
                      var ph := d.binaries[i].tls.value;
                      ph.filesz <= ph.memsz && Mapped(d.process.mem, U64(d.binaries[i].base + ph.vaddr), ph.memsz)
  {
    hide Constructors.Trace, Constructors.Readable, Tls.InitTls, Tls.TlsSum, Mapped, U64;
    Constructors.TraceOkIff(d.process.mem, d.binaries, |d.binaries|);
    Tls.InitTlsOkIff(d.w, d.process.mem, d.binaries, bytes);
  }

  /** What the started program reads, as the psABI says, from the words Execute
      left at the stack pointer: its arguments, its environment, and for every
      type the loader lists the host's auxiliary value; and when the stack
      pointer is aligned. */
  lemma StartedProgram(d: DynLoader, args: seq<int>, envs: seq<int>, sp0: int, bytes: seq<byte>,
                       trace: seq<Constructors.Entry>, sp: int, words: map<int, int>, t: int)
    requires |bytes| == Tls.AREA_SIZE && d.Started(args, envs, sp0, bytes, trace, sp, words)
    requires forall i :: 0 <= i < |envs| ==> envs[i] != 0
    ensures sp <= sp0
    ensures var i := InitialStack.Parse(InitialStack.Upward(words, sp, (sp0 - sp) / 8));
      && i.Some? && i.value.argv == args && i.value.envp == envs
      && InitialStack.Lookup(i.value.auxv, t) == if InitialStack.Listed(t) then d.w.auxval(t) else 0
    ensures sp0 % 8 == 0 ==> (sp % 16 == 0 <==> (sp0 / 8 + |args| + |envs| + 1) % 2 == 0)
  {
    hide InitialStack.Parse, InitialStack.Upward, InitialStack.Lookup, InitialStack.StackArray, InitialStack.Reverse;
    hide InitialStack.Collected, Tls.InitTls, Constructors.Trace, InitialStack.AUX_TYPES;
    var aux := InitialStack.Collected(d.w.auxval, InitialStack.AUX_TYPES);
    InitialStack.StartWithListedTypes(args, envs, d.w.auxval, t);
    if sp0 % 8 == 0 {
      InitialStack.AlignedIff(args, envs, aux, sp0);
    }
  }

  /** The queue of the loop is the pending requests without their askers. */
  ghost predicate Mirrors(queue: seq<Request>, pending: seq<Pending>) {
    |queue| == |pending| && forall i :: 0 <= i < |queue| ==> queue[i] == pending[i].req
  }

  lemma HaltingEffects(m: Mem)
    ensures Apply(m, Stop) == Halt && Apply(m, Nothing) == Ok(m)
  {
  }

  lemma {:induction false} HaltsLater(m: Mem, es: seq<Effect>, k: nat, n: nat)
    requires k <= n <= |es| && ApplyFirst(m, es, k).Halt?
    ensures ApplyFirst(m, es, n).Halt?
  {
    if k < n {
      HaltsLater(m, es, k, n - 1);
    }
  }

  /** memcpy into the area. */
  method Overwrite(a: array<byte>, at: nat, s: seq<byte>)
    requires at + |s| <= a.Length
    modifies a
    ensures a[..] == Tls.Splice(old(a[..]), at, s)
  {
    forall i | 0 <= i < |s| {
      a[at + i] := s[i];
    }
    ghost var was := old(a[..]);
    forall i | 0 <= i < a.Length
      ensures a[i] == Tls.Splice(was, at, s)[i]
    {
      if at <= i < at + |s| {
        assert a[at + (i - at)] == s[i - at];
      }
    }
  }
}

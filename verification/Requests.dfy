/** Which file is loaded for which request, over whole runs: every needed name
    goes to FindLibrary with the search paths of the binary that needs it, and
    libc and the dynamic loader are never loaded for one. */
module Requests {
  import opened Memory
  import opened Outcomes
  import opened Strings
  import opened Elf
  import opened Loading
  import opened LoadOrder
  import opened AddressSpace
  import opened Relocation
  import opened Session

  /** The file FindLibrary gives for name n as binary b needs it. */
  function FileFor(w: World, b: Binary, n: string): (p: Option<Path>) {
    w.findLibrary(n, b.dyn.runpath, b.dyn.rpath)
  }

  /** A name of libc or of the dynamic loader: "ld-linux" or "libc.so" occurs in it. */
  ghost predicate OfLibc(n: string) {
    exists i :: OccursAt(n, "ld-linux", i) || OccursAt(n, "libc.so", i)
  }

  lemma OfLibcIsSkipped(n: string)
    ensures OfLibc(n) <==> Skipped(n)
  {
    SkippedIff(n);
    hide OccursAt, Skipped;
  }

  /** Every binary loaded for a needed name is the file its asker's search paths lead to. */
  ghost predicate Resolved(w: World, s: State) {
    && |s.log| == |s.bins|
    && forall k :: 0 <= k < |s.log| && s.log[k].Needed? ==>
         s.log[k].asker < k && FileFor(w, s.bins[s.log[k].asker], s.log[k].name) == Some(s.bins[k].path)
  }

  /** The queue holds the requests as their askers make them. */
  ghost predicate Pure(s: State, q: seq<Pending>) {
    forall i :: 0 <= i < |q| ==>
      && q[i].asker < |s.bins|
      && q[i].req == Request(q[i].req.name, s.bins[q[i].asker].dyn.runpath, s.bins[q[i].asker].dyn.rpath)
  }

  lemma AsksArePure(s: State, b: Binary, k: nat)
    requires k < |s.bins| && s.bins[k] == b
    ensures Pure(s, Asks(b, k))
  {
  }

  lemma PureAppend(s: State, q: seq<Pending>, l: Loaded, o: Origin)
    requires Pure(s, q)
    ensures Pure(Append(s, l, o), q + Asks(l.bin, |s.bins|))
  {
    var t := Append(s, l, o);
    AsksArePure(t, l.bin, |s.bins|);
    hide Asks;
    forall i | 0 <= i < |q|
      ensures t.bins[q[i].asker] == s.bins[q[i].asker]
    {
    }
  }

  lemma ResolvedAppend(w: World, s: State, l: Loaded, o: Origin)
    requires Resolved(w, s)
    requires o.Needed? ==> o.asker < |s.bins| && FileFor(w, s.bins[o.asker], o.name) == Some(l.bin.path)
    ensures Resolved(w, Append(s, l, o))
  {
  }

  lemma TurnResolves(w: World, s: State, q: seq<Pending>)
    requires q != [] && Known(w, q) && Resolved(w, s) && Pure(s, q) && Turn(w, s, q).Ok?
    ensures Resolved(w, Turn(w, s, q).value.s) && Pure(Turn(w, s, q).value.s, Turn(w, s, q).value.q)
  {
    hide LoadBinary, Skipped, Asks;
    var req := q[0].req;
    if req.name !in s.loaded && !Skipped(req.name) {
      var path := w.findLibrary(req.name, req.runpath, req.rpath).value;
      var l := LoadBinary(w, s.mem, path, s.next).value;
      PathOfLoaded(w, s.mem, path, s.next);
      ResolvedAppend(w, s, l, Needed(req.name, q[0].asker));
      PureAppend(s, q[1..], l, Needed(req.name, q[0].asker));
    }
  }

  lemma {:induction false} DrainResolves(w: World, s: State, q: seq<Pending>)
    requires Known(w, q) && Resolved(w, s) && Pure(s, q) && Drain(w, s, q).Ok?
    ensures Resolved(w, Drain(w, s, q).value)
    decreases AllNames(w) - s.loaded, |q|
  {
    hide Turn, Resolved, Pure;
    if q != [] {
      TurnResolves(w, s, q);
      DrainResolves(w, Turn(w, s, q).value.s, Turn(w, s, q).value.q);
    }
  }

  /** One load: the root is the file at its path, under its filename. */
  lemma LoadResolves(w: World, s: State, root: Path)
    requires Resolved(w, s) && Closure(s, []) && LoadAll(w, s, root).Ok?
    ensures var t := LoadAll(w, s, root).value;
      && Resolved(w, t) && |s.bins| < |t.bins|
      && t.bins[|s.bins|].path == root && t.log[|s.bins|] == Root(Filename(root)) && Filename(root) in t.loaded
  {
    hide LoadBinary, Asks, Drain, Closure, Filename;
    var l := LoadBinary(w, s.mem, root, s.next).value;
    PathOfLoaded(w, s.mem, root, s.next);
    ResolvedAppend(w, s, l, Root(Filename(root)));
    assert Pure(s, []);
    PureAppend(s, [], l, Root(Filename(root)));
    assert [] + Asks(l.bin, |s.bins|) == Asks(l.bin, |s.bins|);
    var start := Start(w, s, root).value;
    DrainResolves(w, start.s, start.q);
    StartCloses(w, s, root);
    DrainCloses(w, start.s, start.q);
  }

  lemma RelocateKeepsResolved(w: World, t: State)
    requires Resolved(w, t) && RelocateAll(w, t).Ok?
    ensures Resolved(w, RelocateAll(w, t).value)
  {
    hide RelocateFirst;
    RelocatesFreshPaths(w, t);
  }

  lemma StepResolves(w: World, s: State, step: Step)
    requires SizedFiles(w) && Sound(w, s) && Resolved(w, s) && DoStep(w, s, step).Ok?
    ensures Resolved(w, DoStep(w, s, step).value)
  {
    hide LoadAll, RelocateAll, Closure, Placed, Stepped, Settled, Resolved;
    match step
    case Dlopen(None) =>
    case Dlopen(Some(f)) =>
      if !Skipped(f) {
        var path := w.findLibrary(f, None, None).value;
        LoadResolves(w, s, path);
        RelocateKeepsResolved(w, LoadAll(w, s, path).value);
      }
    case Dlsym(name) =>
    case Write(a, v) =>
      SameResolved(w, s, s.(mem := s.mem[a := v]));
  }

  lemma SameResolved(w: World, s: State, t: State)
    requires Resolved(w, s) && t.bins == s.bins && t.log == s.log
    ensures Resolved(w, t)
  {
  }

  lemma {:induction false} RunResolves(w: World, s: State, steps: seq<Step>)
    requires SizedFiles(w) && Sound(w, s) && Resolved(w, s) && Run(w, s, steps).Ok?
    ensures Resolved(w, Run(w, s, steps).value)
    decreases |steps|
  {
    hide DoStep, Sound, Resolved;
    if steps != [] {
      StepResolves(w, s, steps[0]);
      StepSound(w, s, steps[0]);
      RunResolves(w, DoStep(w, s, steps[0]).value, steps[1..]);
    }
  }

  /** At every point of every run, each binary that is not the root of a call was
      needed by an earlier binary, under a name that is not one of libc or of the
      dynamic loader, and is the file FindLibrary gives for that name with the
      earlier binary's DT_RUNPATH and DT_RPATH. And every other needed name that
      is not one of these is loaded too. */
  lemma ProgramLoadsRequests(w: World, m: Mem, main: Path, steps: seq<Step>, u: State)
    requires SizedFiles(w) && Program(w, m, main, steps) == Ok(u)
    ensures |u.log| == |u.bins| > 0 && u.bins[0].path == main
    ensures forall k :: 0 <= k < |u.bins| && u.log[k].Needed? ==>
      var n, v := u.log[k].name, u.log[k].asker;
      && v < k && n in u.bins[v].dyn.neededs && !OfLibc(n)
      && w.findLibrary(n, u.bins[v].dyn.runpath, u.bins[v].dyn.rpath) == Some(u.bins[k].path)
    ensures forall v, n :: 0 <= v < |u.bins| && n in u.bins[v].dyn.neededs && !OfLibc(n) ==>
      exists k :: 0 <= k < |u.log| && u.log[k].name == n
  {
    ProgramSound(w, m, main, steps);
    ProgramResolved(w, m, main, steps, u);
    hide Program, Placed, Stepped, Settled, OfLibc, Skipped;
    forall k | 0 <= k < |u.bins| && u.log[k].Needed?
      ensures !OfLibc(u.log[k].name) && u.log[k].name in u.bins[u.log[k].asker].dyn.neededs
    {
      OfLibcIsSkipped(u.log[k].name);
      assert Needs(u, u.log[k].asker, u.log[k].name);
    }
    forall v, n | 0 <= v < |u.bins| && n in u.bins[v].dyn.neededs && !OfLibc(n)
      ensures exists k :: 0 <= k < |u.log| && u.log[k].name == n
    {
      OfLibcIsSkipped(n);
      assert Needs(u, v, n) && !Queued([], v, n);
    }
  }

  lemma ProgramResolved(w: World, m: Mem, main: Path, steps: seq<Step>, u: State)
    requires SizedFiles(w) && Program(w, m, main, steps) == Ok(u)
    ensures Resolved(w, u) && |u.bins| > 0 && u.bins[0].path == main
  {
    hide LoadAll, RelocateAll, Run, Sound, Resolved;
    var s0 := Initial(m);
    StartSound(w, m);
    NothingResolved(w, m);
    LoadResolves(w, s0, main);
    var t := LoadAll(w, s0, main).value;
    RelocateKeepsResolved(w, t);
    RelocatesFreshPaths(w, t);
    LoadAndRelocateSound(w, s0, main);
    var s := RelocateAll(w, t).value;
    RunResolves(w, s, steps);
    RunSound(w, s, steps);
    assert u.bins[0] == s.bins[0];
  }

  lemma NothingResolved(w: World, m: Mem)
    ensures Resolved(w, Initial(m)) && Closure(Initial(m), [])
  {
  }

  /** The binaries t has more than s start with the file FindLibrary gives for f
      without search paths, loaded as a root under its filename. */
  ghost predicate StartsWith(w: World, s: State, t: State, f: string) {
    && |s.bins| < |t.bins| == |t.log|
    && w.findLibrary(f, None, None) == Some(t.bins[|s.bins|].path)
    && t.log[|s.bins|] == Root(Filename(t.bins[|s.bins|].path))
  }

  /** What dlopen does with its argument: nothing for null and for names of libc
      and the dynamic loader, and else it loads the file FindLibrary gives for it,
      before anything that file needs. */
  lemma OpenLoadsArgument(w: World, s: State, filename: Option<string>, t: State)
    requires SizedFiles(w) && Sound(w, s) && Resolved(w, s) && DoStep(w, s, Dlopen(filename)) == Ok(t)
    ensures filename.None? || OfLibc(filename.value) ==> t == s
    ensures filename.Some? && !OfLibc(filename.value) ==> StartsWith(w, s, t, filename.value)
  {
    hide LoadAll, RelocateAll, Closure, Placed, Stepped, Settled, Resolved, OfLibc, Skipped, Filename;
    if filename.Some? {
      OfLibcIsSkipped(filename.value);
      if !Skipped(filename.value) {
        var path := w.findLibrary(filename.value, None, None).value;
        LoadResolves(w, s, path);
        RelocatesFreshPaths(w, LoadAll(w, s, path).value);
        SameLength(w, LoadAll(w, s, path).value);
      }
    }
  }

  lemma SameLength(w: World, s: State)
    requires Resolved(w, s)
    ensures |s.log| == |s.bins|
  {
  }
}

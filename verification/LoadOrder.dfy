/** DynLoader::LoadDependingLibs: the breadth-first work loop over needed names. */
module LoadOrder {
  import opened Memory
  import opened Outcomes
  import opened Elf
  import opened Loading
  import Dynamic

  /** Why a binary was loaded: as the root of a call, or for a needed name of
      the binary with index `asker`. */
  datatype Origin = Root(name: string) | Needed(name: string, asker: nat)

  /** The loader's fields. `log` records the origin of every binary and
      `relog` the index of every binary relocated, in order. */
  datatype State = State(
    bins: seq<Binary>, next: nat, loaded: set<string>, relocated: map<Path, bool>, mem: Mem,
    log: seq<Origin>, relog: seq<nat>)

  datatype Request = Request(name: string, runpath: Option<Path>, rpath: Option<Path>)

  /** A queued request and the binary that asked. */
  datatype Pending = Pending(req: Request, asker: nat)

  function Requests(b: Binary): (q: seq<Request>)
    ensures |q| == |b.dyn.neededs|
  {
    seq(|b.dyn.neededs|, i requires 0 <= i < |b.dyn.neededs| => Request(b.dyn.neededs[i], b.dyn.runpath, b.dyn.rpath))
  }

  function Asks(b: Binary, asker: nat): (q: seq<Pending>)
    ensures |q| == |b.dyn.neededs|
    ensures forall i :: 0 <= i < |q| ==>
      q[i].asker == asker && q[i].req == Requests(b)[i] && q[i].req.name == b.dyn.neededs[i]
  {
    seq(|b.dyn.neededs|, i requires 0 <= i < |b.dyn.neededs| => Pending(Requests(b)[i], asker))
  }

  /** A finite set that holds every name a file can need: all strings of all files. */
  ghost function AllNames(w: World): (r: set<string>) {
    set p, n | p in w.fs && n in w.fs[p].strings.Values :: n
  }

  lemma NamesOfLoaded(w: World, m: Mem, path: Path, base: nat)
    requires LoadBinary(w, m, path, base).Ok?
    ensures forall n :: n in LoadBinary(w, m, path, base).value.bin.dyn.neededs ==> n in AllNames(w)
  {
    var img := w.fs[path];
    Dynamic.ParseFromTables(img, if img.etype.EtDyn? then base else 0);
  }

  /** s with one more binary. */
  function Append(s: State, l: Loaded, origin: Origin): (s': State) {
    s.(bins := s.bins + [l.bin], next := l.next, mem := l.mem,
       loaded := s.loaded + {origin.name}, log := s.log + [origin])
  }

  /** The work loop's state. */
  datatype Work = Work(s: State, q: seq<Pending>)

  ghost predicate Known(w: World, q: seq<Pending>) {
    forall p :: p in q ==> p.req.name in AllNames(w)
  }

  /** One turn of the work loop: it marks a name that was not yet loaded, or
      leaves the marks alone and shortens the queue. */
  ghost function Turn(w: World, s: State, q: seq<Pending>): (r: Result<Work>)
    requires q != [] && Known(w, q)
    ensures r.Ok? ==> Known(w, r.value.q)
    ensures r.Ok? ==> AllNames(w) - r.value.s.loaded < AllNames(w) - s.loaded
                      || (r.value.s.loaded == s.loaded && |r.value.q| < |q|)
  {
    var req, rest := q[0].req, q[1..];
    if req.name in s.loaded then Ok(Work(s, rest))
    else if Skipped(req.name) then Ok(Work(s.(loaded := s.loaded + {req.name}), rest))
    else
      var path := w.findLibrary(req.name, req.runpath, req.rpath);
      if path.None? then Halt else
      var l :- LoadBinary(w, s.mem, path.value, s.next);
      NamesOfLoaded(w, s.mem, path.value, s.next);
      Ok(Work(Append(s, l, Needed(req.name, q[0].asker)), rest + Asks(l.bin, |s.bins|)))
  }

  /** The work loop. Duplicates in the queue and dependency cycles do not keep it from ending. */
  ghost function Drain(w: World, s: State, q: seq<Pending>): (r: Result<State>)
    requires Known(w, q)
    decreases AllNames(w) - s.loaded, |q|
  {
    if q == [] then Ok(s) else
    var t :- Turn(w, s, q);
    Drain(w, t.s, t.q)
  }

  /** The root of a call, loaded, and its requests queued. */
  ghost function Start(w: World, s: State, root: Path): (r: Result<Work>)
    ensures r.Ok? ==> Known(w, r.value.q)
  {
    var l :- LoadBinary(w, s.mem, root, s.next);
    NamesOfLoaded(w, s.mem, root, s.next);
    Ok(Work(Append(s, l, Root(Filename(root))), Asks(l.bin, |s.bins|)))
  }

  /** LoadDependingLibs(root). */
  ghost function LoadAll(w: World, s: State, root: Path): (r: Result<State>) {
    var t :- Start(w, s, root);
    Drain(w, t.s, t.q)
  }

  // ---------- Dependency closure ----------

  /** n is needed by binary u of s. */
  predicate Needs(s: State, u: nat, n: string) {
    u < |s.bins| && n in s.bins[u].dyn.neededs
  }

  ghost predicate Queued(q: seq<Pending>, u: nat, n: string) {
    exists i :: 0 <= i < |q| && q[i].asker == u && q[i].req.name == n
  }

  /** The log explains every binary: a binary that is not a root was asked for
      by an earlier one, under a name that is not skipped and that no earlier
      binary or root was loaded under. */
  ghost predicate Explained(s: State) {
    && |s.log| == |s.bins|
    && (forall k :: 0 <= k < |s.log| ==> s.log[k].name in s.loaded)
    && (forall k :: 0 <= k < |s.log| && s.log[k].Needed? ==>
          && s.log[k].asker < k
          && Needs(s, s.log[k].asker, s.log[k].name)
          && !Skipped(s.log[k].name)
          && forall j :: 0 <= j < k ==> s.log[j].name != s.log[k].name)
  }

  /** Nothing is marked as loaded except what was loaded or is skipped and needed. */
  ghost predicate Accounted(s: State) {
    forall n :: n in s.loaded ==>
      || (exists k :: 0 <= k < |s.log| && s.log[k].name == n)
      || (Skipped(n) && exists u :: Needs(s, u, n))
  }

  /** Every needed name is loaded or waits in the queue. */
  ghost predicate Covered(s: State, q: seq<Pending>) {
    forall u, n :: Needs(s, u, n) ==> n in s.loaded || Queued(q, u, n)
  }

  ghost predicate Genuine(s: State, q: seq<Pending>) {
    forall i :: 0 <= i < |q| ==> Needs(s, q[i].asker, q[i].req.name)
  }

  ghost predicate Closure(s: State, q: seq<Pending>) {
    Explained(s) && Accounted(s) && Covered(s, q) && Genuine(s, q)
  }

  lemma QueuedTail(q: seq<Pending>, u: nat, n: string)
    requires q != [] && Queued(q, u, n) && n != q[0].req.name
    ensures Queued(q[1..], u, n)
  {
  }

  lemma QueuedAppend(q: seq<Pending>, r: seq<Pending>, u: nat, n: string)
    requires Queued(q, u, n) || Queued(r, u, n)
    ensures Queued(q + r, u, n)
  {
    if Queued(q, u, n) {
      var i :| 0 <= i < |q| && q[i].asker == u && q[i].req.name == n;
      assert (q + r)[i] == q[i];
    } else {
      var i :| 0 <= i < |r| && r[i].asker == u && r[i].req.name == n;
      assert (q + r)[|q| + i] == r[i];
    }
  }

  lemma QueuedAsks(b: Binary, u: nat, n: string)
    requires n in b.dyn.neededs
    ensures Queued(Asks(b, u), u, n)
  {
  }

  /** Dropping the head of the queue once its name is marked. */
  lemma ClosureMark(s: State, q: seq<Pending>)
    requires q != [] && Closure(s, q)
    requires q[0].req.name in s.loaded || Skipped(q[0].req.name)
    ensures Closure(s.(loaded := s.loaded + {q[0].req.name}), q[1..])
  {
    var n := q[0].req.name;
    var t := s.(loaded := s.loaded + {n});
    assert Needs(t, q[0].asker, n) by { assert Needs(s, q[0].asker, n); }
    forall u, m | Needs(t, u, m)
      ensures m in t.loaded || Queued(q[1..], u, m)
    {
      assert Needs(s, u, m);
      if m !in t.loaded {
        QueuedTail(q, u, m);
      }
    }
    forall m | m in t.loaded
      ensures (exists k :: 0 <= k < |t.log| && t.log[k].name == m) || (Skipped(m) && exists u :: Needs(t, u, m))
    {
      if m in s.loaded && !exists k :: 0 <= k < |t.log| && t.log[k].name == m {
        var u :| Needs(s, u, m);
        assert Needs(t, u, m);
      }
    }
    forall k | 0 <= k < |t.log| && t.log[k].Needed?
      ensures Needs(t, t.log[k].asker, t.log[k].name)
    {
      assert Needs(s, s.log[k].asker, s.log[k].name);
    }
    forall i | 0 <= i < |q[1..]|
      ensures Needs(t, q[1..][i].asker, q[1..][i].req.name)
    {
      assert Needs(s, q[i + 1].asker, q[i + 1].req.name);
    }
  }

  lemma NeedsAppend(s: State, l: Loaded, o: Origin)
    ensures forall u, n :: Needs(Append(s, l, o), u, n) <==> Needs(s, u, n) || (u == |s.bins| && n in l.bin.dyn.neededs)
  {
  }

  lemma ExplainedAppend(s: State, l: Loaded, o: Origin)
    requires Explained(s)
    requires o.Needed? ==> Needs(s, o.asker, o.name) && !Skipped(o.name) && o.name !in s.loaded
    ensures Explained(Append(s, l, o))
  {
  }

  lemma CoveredAppend(s: State, rest: seq<Pending>, l: Loaded, o: Origin)
    requires forall u, n :: Needs(s, u, n) ==> n in s.loaded || n == o.name || Queued(rest, u, n)
    ensures Covered(Append(s, l, o), rest + Asks(l.bin, |s.bins|))
  {
    var t, asks := Append(s, l, o), Asks(l.bin, |s.bins|);
    NeedsAppend(s, l, o);
    forall u, n | Needs(t, u, n) && n !in t.loaded
      ensures Queued(rest + asks, u, n)
    {
      if !Needs(s, u, n) {
        QueuedAsks(l.bin, u, n);
      }
      QueuedAppend(rest, asks, u, n);
    }
  }

  lemma GenuineAppend(s: State, rest: seq<Pending>, l: Loaded, o: Origin)
    requires Genuine(s, rest)
    ensures Genuine(Append(s, l, o), rest + Asks(l.bin, |s.bins|))
  {
  }

  /** Loading a binary for origin o, whose name leaves the queue. */
  lemma ClosureLoad(s: State, rest: seq<Pending>, l: Loaded, o: Origin)
    requires Explained(s) && Accounted(s) && Genuine(s, rest)
    requires forall u, n :: Needs(s, u, n) ==> n in s.loaded || n == o.name || Queued(rest, u, n)
    requires o.Needed? ==> Needs(s, o.asker, o.name) && !Skipped(o.name) && o.name !in s.loaded
    ensures Closure(Append(s, l, o), rest + Asks(l.bin, |s.bins|))
  {
    ExplainedAppend(s, l, o);
    AccountedAppend(s, l, o);
    CoveredAppend(s, rest, l, o);
    GenuineAppend(s, rest, l, o);
  }

  lemma AccountedAppend(s: State, l: Loaded, o: Origin)
    requires Accounted(s) && |s.log| == |s.bins|
    ensures Accounted(Append(s, l, o))
  {
    var t := Append(s, l, o);
    assert t.log[|s.log|] == o;
    forall n | n in t.loaded
      ensures (exists k :: 0 <= k < |t.log| && t.log[k].name == n) || (Skipped(n) && exists u :: Needs(t, u, n))
    {
      if n != o.name {
        if k :| 0 <= k < |s.log| && s.log[k].name == n {
          assert t.log[k] == s.log[k];
        } else {
          var u :| Needs(s, u, n);
          assert Needs(t, u, n);
        }
      }
    }
  }

  /** s' continues s: binaries and log only grow at the end. */
  predicate Grows(s: State, s': State) {
    s.bins <= s'.bins && s.log <= s'.log && s.loaded <= s'.loaded
    && s'.relocated == s.relocated && s'.relog == s.relog
  }

  lemma ClosureTail(s: State, q: seq<Pending>)
    requires q != [] && Covered(s, q) && Genuine(s, q)
    ensures Genuine(s, q[1..]) && Needs(s, q[0].asker, q[0].req.name)
    ensures forall u, n :: Needs(s, u, n) ==> n in s.loaded || n == q[0].req.name || Queued(q[1..], u, n)
  {
  }

  lemma TurnCloses(w: World, s: State, q: seq<Pending>)
    requires q != [] && Known(w, q) && Closure(s, q) && Turn(w, s, q).Ok?
    ensures Closure(Turn(w, s, q).value.s, Turn(w, s, q).value.q)
    ensures Grows(s, Turn(w, s, q).value.s)
  {
    hide LoadBinary, Skipped, Explained, Accounted;
    var req := q[0].req;
    if req.name in s.loaded || Skipped(req.name) {
      ClosureMark(s, q);
      assert req.name in s.loaded ==> s.(loaded := s.loaded + {req.name}) == s;
    } else {
      var l := LoadBinary(w, s.mem, w.findLibrary(req.name, req.runpath, req.rpath).value, s.next).value;
      ClosureTail(s, q);
      ClosureLoad(s, q[1..], l, Needed(req.name, q[0].asker));
    }
  }

  lemma {:induction false} DrainCloses(w: World, s: State, q: seq<Pending>)
    requires Known(w, q) && Closure(s, q) && Drain(w, s, q).Ok?
    ensures Closure(Drain(w, s, q).value, [])
    ensures Grows(s, Drain(w, s, q).value)
    decreases AllNames(w) - s.loaded, |q|
  {
    hide Turn, Closure;
    if q != [] {
      TurnCloses(w, s, q);
      DrainCloses(w, Turn(w, s, q).value.s, Turn(w, s, q).value.q);
    }
  }

  lemma StartCloses(w: World, s: State, root: Path)
    requires Closure(s, []) && Start(w, s, root).Ok?
    ensures Closure(Start(w, s, root).value.s, Start(w, s, root).value.q)
    ensures Grows(s, Start(w, s, root).value.s)
  {
    hide LoadBinary;
    var l := LoadBinary(w, s.mem, root, s.next).value;
    ClosureLoad(s, [], l, Root(Filename(root)));
    assert [] + Asks(l.bin, |s.bins|) == Asks(l.bin, |s.bins|);
  }

  /** The dependency closure is exact after every call: from a closed state,
      LoadDependingLibs reaches a closed state. */
  lemma LoadAllCloses(w: World, s: State, root: Path)
    requires Closure(s, []) && LoadAll(w, s, root).Ok?
    ensures Closure(LoadAll(w, s, root).value, [])
    ensures Grows(s, LoadAll(w, s, root).value) && |s.bins| < |LoadAll(w, s, root).value.bins|
  {
    hide Closure;
    StartCloses(w, s, root);
    DrainCloses(w, Start(w, s, root).value.s, Start(w, s, root).value.q);
  }
}

/** The order of a load is breadth-first, so symbol lookup prefers the binaries
    nearest the root, as the gABI's "Shared Object Dependencies" demands. */
module BreadthFirst {
  import opened Elf
  import opened Loading
  import opened Symbols
  import opened LoadOrder

  /** The askers of the binaries loaded after root r. */
  ghost predicate Ordered(s: State, q: seq<Pending>, r: nat) {
    && r < |s.bins| == |s.log|
    && s.log[r].Root?
    && (forall k :: r < k < |s.log| ==> s.log[k].Needed? && r <= s.log[k].asker < k)
    && (forall j, k :: r < j < k < |s.log| ==> s.log[j].asker <= s.log[k].asker)
    && (forall k, i :: r < k < |s.log| && 0 <= i < |q| ==> s.log[k].asker <= q[i].asker)
    && (forall i, j :: 0 <= i < j < |q| ==> q[i].asker <= q[j].asker)
    && (forall i :: 0 <= i < |q| ==> r <= q[i].asker < |s.bins|)
  }

  /** Each binary after r was asked for by the first of the binaries from r on that need it. */
  ghost predicate FirstAsker(s: State, r: nat) {
    |s.log| == |s.bins| &&
    forall v, u :: r < v < |s.log| && s.log[v].Needed? && r <= u && Needs(s, u, s.log[v].name) ==> s.log[v].asker <= u
  }

  lemma OrderedAppend(s: State, q: seq<Pending>, r: nat, l: Loaded)
    requires q != [] && Ordered(s, q, r)
    ensures Ordered(Append(s, l, Needed(q[0].req.name, q[0].asker)), q[1..] + Asks(l.bin, |s.bins|), r)
  {
    var t := Append(s, l, Needed(q[0].req.name, q[0].asker));
    forall k | 0 <= k < |t.log|
      ensures t.log[k] == if k < |s.log| then s.log[k] else Needed(q[0].req.name, q[0].asker)
    {
    }
  }

  lemma FirstAskerAppend(s: State, q: seq<Pending>, r: nat, l: Loaded)
    requires q != [] && Ordered(s, q, r) && FirstAsker(s, r) && Covered(s, q) && q[0].req.name !in s.loaded
    ensures FirstAsker(Append(s, l, Needed(q[0].req.name, q[0].asker)), r)
  {
    var o := Needed(q[0].req.name, q[0].asker);
    var t := Append(s, l, o);
    NeedsAppend(s, l, o);
    forall v, u | r < v < |t.log| && t.log[v].Needed? && r <= u && Needs(t, u, t.log[v].name)
      ensures t.log[v].asker <= u
    {
      if u < |s.bins| && v == |s.log| {
        assert Needs(s, u, o.name) && Queued(q, u, o.name);
      } else if v < |s.log| {
        assert t.log[v] == s.log[v];
        assert u < |s.bins| ==> Needs(s, u, s.log[v].name);
      }
    }
  }

  /** A breadth-first load from root r in progress. */
  ghost predicate Sweep(s: State, q: seq<Pending>, r: nat) {
    Closure(s, q) && Ordered(s, q, r) && FirstAsker(s, r)
  }

  lemma SweepMark(s: State, q: seq<Pending>, r: nat)
    requires q != [] && Sweep(s, q, r)
    requires q[0].req.name in s.loaded || Skipped(q[0].req.name)
    ensures Sweep(s.(loaded := s.loaded + {q[0].req.name}), q[1..], r)
  {
    ClosureMark(s, q);
    var t := s.(loaded := s.loaded + {q[0].req.name});
    assert FirstAsker(t, r) by {
      assert forall u, n :: Needs(t, u, n) <==> Needs(s, u, n);
    }
  }

  lemma SweepLoad(s: State, q: seq<Pending>, r: nat, l: Loaded)
    requires q != [] && Sweep(s, q, r)
    requires q[0].req.name !in s.loaded && !Skipped(q[0].req.name)
    ensures Sweep(Append(s, l, Needed(q[0].req.name, q[0].asker)), q[1..] + Asks(l.bin, |s.bins|), r)
  {
    ClosureTail(s, q);
    ClosureLoad(s, q[1..], l, Needed(q[0].req.name, q[0].asker));
    OrderedAppend(s, q, r, l);
    FirstAskerAppend(s, q, r, l);
  }

  lemma TurnSweeps(w: World, s: State, q: seq<Pending>, r: nat)
    requires q != [] && Known(w, q) && Sweep(s, q, r) && Turn(w, s, q).Ok?
    ensures Sweep(Turn(w, s, q).value.s, Turn(w, s, q).value.q, r)
  {
    hide LoadBinary, Skipped, Sweep;
    var req := q[0].req;
    if req.name in s.loaded || Skipped(req.name) {
      SweepMark(s, q, r);
      assert req.name in s.loaded ==> s.(loaded := s.loaded + {req.name}) == s;
    } else {
      SweepLoad(s, q, r, LoadBinary(w, s.mem, w.findLibrary(req.name, req.runpath, req.rpath).value, s.next).value);
    }
  }

  lemma {:induction false} DrainSweeps(w: World, s: State, q: seq<Pending>, r: nat)
    requires Known(w, q) && Sweep(s, q, r) && Drain(w, s, q).Ok?
    ensures Sweep(Drain(w, s, q).value, [], r)
    decreases AllNames(w) - s.loaded, |q|
  {
    hide Turn, Sweep;
    if q != [] {
      TurnSweeps(w, s, q, r);
      DrainSweeps(w, Turn(w, s, q).value.s, Turn(w, s, q).value.q, r);
    }
  }

  lemma StartSweeps(w: World, s: State, root: Path)
    requires Closure(s, []) && Start(w, s, root).Ok?
    ensures Sweep(Start(w, s, root).value.s, Start(w, s, root).value.q, |s.bins|)
  {
    StartCloses(w, s, root);
    assert Start(w, s, root).value.s.log[|s.bins|] == Root(Filename(root));
  }

  lemma LoadAllSweeps(w: World, s: State, root: Path)
    requires Closure(s, []) && LoadAll(w, s, root).Ok?
    ensures Sweep(LoadAll(w, s, root).value, [], |s.bins|)
  {
    hide Start, Sweep;
    StartSweeps(w, s, root);
    DrainSweeps(w, Start(w, s, root).value.s, Start(w, s, root).value.q, |s.bins|);
  }

  // ---------- Levels are shortest distances ----------

  /** How many requests lead from the root to binary k. */
  ghost function Level(log: seq<Origin>, k: nat): (d: nat)
    requires k < |log|
    decreases k
  {
    if log[k].Needed? && log[k].asker < k then 1 + Level(log, log[k].asker) else 0
  }

  /** u needs the name v was loaded under: an edge of the realised graph. */
  ghost predicate Edge(s: State, u: nat, v: nat) {
    v < |s.log| && Needs(s, u, s.log[v].name)
  }

  /** p is a path of the realised graph from r to k, through binaries from r on. */
  ghost predicate IsPath(s: State, r: nat, k: nat, p: seq<nat>) {
    && |p| > 0 && p[0] == r && p[|p| - 1] == k
    && (forall i :: 0 <= i < |p| ==> p[i] >= r)
    && (forall i :: 0 < i < |p| ==> Edge(s, p[i - 1], p[i]))
  }

  /** Levels do not decrease along the binaries of one load. */
  lemma {:induction false} LevelsAscend(s: State, r: nat, j: nat, k: nat)
    requires Ordered(s, [], r) && r <= j <= k < |s.log|
    ensures Level(s.log, j) <= Level(s.log, k)
    decreases k
  {
    if r < j < k {
      LevelsAscend(s, r, s.log[j].asker, s.log[k].asker);
    }
  }

  lemma {:induction false} PathNotShorter(s: State, r: nat, k: nat, p: seq<nat>)
    requires Ordered(s, [], r) && FirstAsker(s, r) && k < |s.log| && IsPath(s, r, k, p)
    ensures Level(s.log, k) <= |p| - 1
    decreases |p|
  {
    var n := |p| - 1;
    if k > r {
      assert Edge(s, p[n - 1], p[n]);
      var u := p[n - 1];
      PathNotShorter(s, r, u, p[..n]);
      LevelsAscend(s, r, s.log[k].asker, u);
    }
  }

  lemma {:induction false} PathOfLevel(s: State, r: nat, k: nat) returns (p: seq<nat>)
    requires Explained(s) && Ordered(s, [], r) && r <= k < |s.log|
    ensures IsPath(s, r, k, p) && |p| - 1 == Level(s.log, k)
    decreases k
  {
    if k == r {
      p := [r];
    } else {
      var q := PathOfLevel(s, r, s.log[k].asker);
      p := q + [k];
    }
  }

  ghost predicate ShortestDistance(s: State, r: nat, k: nat, d: nat) {
    && (exists p :: IsPath(s, r, k, p) && |p| - 1 == d)
    && (forall p :: IsPath(s, r, k, p) ==> d <= |p| - 1)
  }

  /** After a load, the level of every binary it loaded is its shortest distance
      from the root in the realised graph, and levels follow load order. */
  lemma LoadIsBreadthFirst(w: World, s: State, root: Path)
    requires Closure(s, []) && LoadAll(w, s, root).Ok?
    ensures var t := LoadAll(w, s, root).value;
      && |t.log| == |t.bins|
      && (forall k :: |s.bins| <= k < |t.log| ==> ShortestDistance(t, |s.bins|, k, Level(t.log, k)))
      && (forall j, k :: |s.bins| <= j <= k < |t.log| ==> Level(t.log, j) <= Level(t.log, k))
  {
    var t, r := LoadAll(w, s, root).value, |s.bins|;
    LoadAllSweeps(w, s, root);
    forall k | r <= k < |t.log|
      ensures ShortestDistance(t, r, k, Level(t.log, k))
    {
      var p := PathOfLevel(t, r, k);
      forall p | IsPath(t, r, k, p)
        ensures Level(t.log, k) <= |p| - 1
      {
        PathNotShorter(t, r, k, p);
      }
    }
    forall j, k | r <= j <= k < |t.log|
      ensures Level(t.log, j) <= Level(t.log, k)
    {
      LevelsAscend(t, r, j, k);
    }
  }

  /** Symbol precedence after the first load: no definer of the name is nearer
      to main than the one SearchSym picks, and among definers as near it is
      the first one loaded. */
  lemma NearestDefinitionWins(w: World, s: State, main: Path, name: string)
    requires s.bins == [] && s.log == [] && s.loaded == {} && LoadAll(w, s, main).Ok?
    requires Defined(LoadAll(w, s, main).value.bins, name)
    ensures var t := LoadAll(w, s, main).value;
      && |t.log| == |t.bins|
      && Search(t.bins, name, false).Some?
      && var found := Search(t.bins, name, false).value;
      && MatchesAt(t.bins, found, name, Definition)
      && forall p, path :: MatchesAt(t.bins, p, name, Definition) && IsPath(t, 0, p.bin, path) ==>
           && Level(t.log, found.bin) <= |path| - 1
           && (Level(t.log, p.bin) == Level(t.log, found.bin) ==> !Precedes(p, found))
  {
    hide LoadAll, IsPath, Level;
    var t := LoadAll(w, s, main).value;
    LoadIsBreadthFirst(w, s, main);
    FirstDefinition(t.bins, name);
    hide Search, MatchesAt, Defined;
    var found := Search(t.bins, name, false).value;
    forall p, path | MatchesAt(t.bins, p, name, Definition) && IsPath(t, 0, p.bin, path)
      ensures Level(t.log, found.bin) <= |path| - 1 && !Precedes(p, found)
    {
      assert ShortestDistance(t, 0, p.bin, Level(t.log, p.bin));
    }
  }

  lemma FirstDefinition(bins: seq<Binary>, name: string)
    requires Defined(bins, name)
    ensures Search(bins, name, false).Some?
    ensures var found := Search(bins, name, false).value;
      && MatchesAt(bins, found, name, Definition)
      && forall p :: MatchesAt(bins, p, name, Definition) ==>
           p.bin < |bins| && found.bin <= p.bin && !Precedes(p, found)
  {
    var q :| MatchesAt(bins, q, name, Definition);
    assert !Precedes(q, Search(bins, name, false).value);
  }
}

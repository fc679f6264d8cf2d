/** Where the loader puts binaries: over every load, whatever the order, no two
    segments share a page and no earlier byte changes. */
module AddressSpace {
  import opened Words
  import opened Memory
  import opened Elf
  import opened Loading
  import opened LoadOrder

  /** Every binary comes from its file, has all its pages mapped, and shares none. */
  ghost predicate Placed(w: World, s: State) {
    && (forall k :: 0 <= k < |s.bins| ==> FromFile(w, s.bins[k]))
    && (forall k, a: nat :: 0 <= k < |s.bins| && Owns(s.bins[k], a) ==> a in s.mem)
    && (forall j, k, a: nat :: 0 <= j < k < |s.bins| && Owns(s.bins[j], a) ==> !Owns(s.bins[k], a))
    && s.next <= USER_TOP
  }

  /** The binaries from index r on hold the images of their files, on pages
      that were not in m, and m itself is as it was. */
  ghost predicate Added(w: World, s: State, r: nat, m: Mem) {
    && Extends(m, s.mem)
    && (forall k :: r <= k < |s.bins| ==> HoldsBinary(w, s.mem, s.bins[k]))
    && (forall k, a: nat :: r <= k < |s.bins| && Owns(s.bins[k], a) ==> a !in m)
  }

  lemma BinaryExtends(w: World, m: Mem, m': Mem, b: Binary)
    requires HoldsBinary(w, m, b) && Extends(m, m')
    ensures HoldsBinary(w, m', b)
  {
  }

  lemma PlacedAppend(w: World, s: State, path: Path, o: Origin)
    requires SizedFiles(w) && Placed(w, s) && LoadBinary(w, s.mem, path, s.next).Ok?
    ensures Placed(w, Append(s, LoadBinary(w, s.mem, path, s.next).value, o))
  {
    hide LoadBinary, InSegments, SegmentsApart, Inhabited;
    BinaryLoads(w, s.mem, path, s.next);
  }

  lemma AddedAppend(w: World, s: State, path: Path, o: Origin, r: nat, m: Mem)
    requires SizedFiles(w) && Added(w, s, r, m) && s.next <= USER_TOP && LoadBinary(w, s.mem, path, s.next).Ok?
    ensures Added(w, Append(s, LoadBinary(w, s.mem, path, s.next).value, o), r, m)
  {
    hide LoadBinary, InSegments, SegmentsApart, Inhabited, HoldsImage;
    var l := LoadBinary(w, s.mem, path, s.next).value;
    BinaryLoads(w, s.mem, path, s.next);
    forall k | r <= k < |s.bins|
      ensures HoldsBinary(w, l.mem, s.bins[k])
    {
      BinaryExtends(w, s.mem, l.mem, s.bins[k]);
    }
  }

  lemma TurnPlaces(w: World, s: State, q: seq<Pending>, r: nat, m: Mem)
    requires q != [] && Known(w, q) && Turn(w, s, q).Ok?
    requires SizedFiles(w) && Placed(w, s) && Added(w, s, r, m)
    ensures var t := Turn(w, s, q).value.s; Placed(w, t) && Added(w, t, r, m)
  {
    hide LoadBinary, FromFile, InSegments, HoldsImage, Skipped;
    var req := q[0].req;
    if req.name !in s.loaded && !Skipped(req.name) {
      var path := w.findLibrary(req.name, req.runpath, req.rpath).value;
      PlacedAppend(w, s, path, Needed(req.name, q[0].asker));
      AddedAppend(w, s, path, Needed(req.name, q[0].asker), r, m);
    }
  }

  lemma {:induction false} DrainPlaces(w: World, s: State, q: seq<Pending>, r: nat, m: Mem)
    requires Known(w, q) && Drain(w, s, q).Ok?
    requires SizedFiles(w) && Placed(w, s) && Added(w, s, r, m)
    ensures var t := Drain(w, s, q).value; Placed(w, t) && Added(w, t, r, m)
    decreases AllNames(w) - s.loaded, |q|
  {
    hide Turn, Placed, Added;
    if q != [] {
      TurnPlaces(w, s, q, r, m);
      DrainPlaces(w, Turn(w, s, q).value.s, Turn(w, s, q).value.q, r, m);
    }
  }

  /** A load keeps all segments of all binaries disjoint and every earlier byte
      as it was, and the binaries it adds hold their files' images. */
  lemma LoadAllPlaces(w: World, s: State, root: Path)
    requires SizedFiles(w) && Placed(w, s) && LoadAll(w, s, root).Ok?
    ensures var t := LoadAll(w, s, root).value; Placed(w, t) && Added(w, t, |s.bins|, s.mem)
  {
    hide LoadBinary, InSegments, FromFile, HoldsImage;
    PlacedAppend(w, s, root, Root(Filename(root)));
    AddedAppend(w, s, root, Root(Filename(root)), |s.bins|, s.mem);
    DrainPlaces(w, Start(w, s, root).value.s, Start(w, s, root).value.q, |s.bins|, s.mem);
  }

  // ---------- The allocator ----------

  const FIRST_BASE: nat := 0x140_0000

  /** The base address the loader holds after loading bins. */
  function NextBase(bins: seq<Binary>): (a: nat) {
    if bins == [] then FIRST_BASE else StepUp(bins[|bins| - 1].end)
  }

  ghost predicate IsDyn(w: World, b: Binary) {
    b.path in w.fs && w.fs[b.path].etype.EtDyn?
  }

  /** Shared objects sit at the bases the allocator hands out. */
  ghost predicate Stepped(w: World, s: State) {
    && s.next == NextBase(s.bins)
    && forall k :: 0 <= k < |s.bins| ==> s.bins[k].base == if IsDyn(w, s.bins[k]) then NextBase(s.bins[..k]) else 0
  }

  lemma SteppedAppend(w: World, s: State, path: Path, o: Origin)
    requires Stepped(w, s) && LoadBinary(w, s.mem, path, s.next).Ok?
    ensures Stepped(w, Append(s, LoadBinary(w, s.mem, path, s.next).value, o))
  {
    var b := LoadBinary(w, s.mem, path, s.next).value.bin;
    forall k | 0 <= k <= |s.bins|
      ensures (s.bins + [b])[..k] == s.bins[..k]
    {
    }
  }

  lemma {:induction false} DrainSteps(w: World, s: State, q: seq<Pending>)
    requires Known(w, q) && Stepped(w, s) && Drain(w, s, q).Ok?
    ensures Stepped(w, Drain(w, s, q).value)
    decreases AllNames(w) - s.loaded, |q|
  {
    if q != [] {
      var req := q[0].req;
      if req.name !in s.loaded && !Skipped(req.name) {
        SteppedAppend(w, s, w.findLibrary(req.name, req.runpath, req.rpath).value, Needed(req.name, q[0].asker));
      }
      DrainSteps(w, Turn(w, s, q).value.s, Turn(w, s, q).value.q);
    }
  }

  lemma LoadAllSteps(w: World, s: State, root: Path)
    requires Stepped(w, s) && LoadAll(w, s, root).Ok?
    ensures Stepped(w, LoadAll(w, s, root).value)
  {
    SteppedAppend(w, s, root, Root(Filename(root)));
    DrainSteps(w, Start(w, s, root).value.s, Start(w, s, root).value.q);
  }

  /** The sum of the binaries' spans, each rounded up to 4 MiB. */
  function Spans(bins: seq<Binary>): (n: nat) {
    if bins == [] then 0
    else Spans(bins[..|bins| - 1]) + StepUp(Span(bins[|bins| - 1]))
  }

  /** How far b reaches above its base address. */
  function Span(b: Binary): (n: nat) {
    if b.base <= b.end then b.end - b.base else 0
  }

  lemma EndAboveBase(w: World, b: Binary)
    requires FromFile(w, b)
    ensures b.base <= b.end
  {
    EndNotBelowBase(b.phdrs, b.base);
  }

  lemma {:induction false} BasesAddUp(w: World, s: State, k: nat)
    requires Placed(w, s) && Stepped(w, s) && k <= |s.bins| && forall j :: 0 <= j < k ==> IsDyn(w, s.bins[j])
    ensures NextBase(s.bins[..k]) == FIRST_BASE + Spans(s.bins[..k])
    ensures NextBase(s.bins[..k]) % 0x40_0000 == 0
  {
    hide StepUp, FromFile, InSegments, IsDyn;
    if k > 0 {
      var b := s.bins[k - 1];
      assert s.bins[..k][..k - 1] == s.bins[..k - 1];
      assert IsDyn(w, b);
      BasesAddUp(w, s, k - 1);
      EndAboveBase(w, b);
      StepUpFromBase(b.base, Span(b));
    }
  }

  /** In a run of shared objects only, the next base is 0x1400000 plus the sum
      of the spans rounded up to 4 MiB. */
  lemma NextIsSum(w: World, s: State)
    requires Placed(w, s) && Stepped(w, s) && forall k :: 0 <= k < |s.bins| ==> IsDyn(w, s.bins[k])
    ensures s.next == FIRST_BASE + Spans(s.bins) && s.next % 0x40_0000 == 0
  {
    assert s.bins[..|s.bins|] == s.bins;
    BasesAddUp(w, s, |s.bins|);
  }

  /** The gABI's order: PT_LOAD segments ascend by address. */
  predicate Ascending(phdrs: seq<Phdr>) {
    forall p, q :: 0 <= p < q < |phdrs| && phdrs[p].kind.PtLoad? && phdrs[q].kind.PtLoad? ==>
      phdrs[p].vaddr <= phdrs[q].vaddr
  }

  lemma {:induction false} EndIsTop(phdrs: seq<Phdr>, base: nat, a: nat)
    requires Ascending(phdrs) && SegmentsApart(phdrs, base) && Inhabited(phdrs, base) && InSegments(phdrs, base, a)
    ensures a < EndOf(phdrs, base, base)
  {
    hide PageDown, PageUp;
    var p :| 0 <= p < |phdrs| && InPages(phdrs[p], base, a);
    var n := |phdrs| - 1;
    if !phdrs[n].kind.PtLoad? {
      assert phdrs[..n][p] == phdrs[p];
      EndIsTop(phdrs[..n], base, a);
    } else if p < n {
      var x := PageDown(phdrs[n].vaddr + base);
      assert InPages(phdrs[n], base, x);
      assert !InPages(phdrs[p], base, x);
      PageDownMonotone(phdrs[p].vaddr + base, phdrs[n].vaddr + base);
    }
  }

  /** Only the first binary may be an ET_EXEC; files have ascending segments. */
  ghost predicate Orderly(w: World, s: State) {
    && (forall p :: p in w.fs ==> Ascending(w.fs[p].phdrs))
    && (forall k :: 0 < k < |s.bins| ==> IsDyn(w, s.bins[k]))
  }

  lemma {:induction false} BelowLaterBases(w: World, s: State, j: nat, k: nat, a: nat)
    requires Placed(w, s) && Stepped(w, s) && Orderly(w, s)
    requires j < k <= |s.bins| && Owns(s.bins[j], a)
    ensures a < NextBase(s.bins[..k])
  {
    hide InSegments, SegmentsApart, Inhabited, Ascending, StepUp, EndOf;
    var last := s.bins[..k][k - 1];
    assert last == s.bins[k - 1];
    StepUpBounds(last.end);
    if j == k - 1 {
      EndIsTop(last.phdrs, last.base, a);
    } else {
      BelowLaterBases(w, s, j, k - 1, a);
      EndAboveBase(w, last);
    }
  }

  lemma {:induction false} EndNotBelowBase(phdrs: seq<Phdr>, base: nat)
    ensures EndOf(phdrs, base, base) >= base
  {
    if phdrs != [] {
      EndNotBelowBase(phdrs[..|phdrs| - 1], base);
    }
  }

  /** The next base is a multiple of 4 MiB above every mapping the loader made,
      so no page it requests for the next shared object is one of its own. */
  lemma NeverRequestsOwnPage(w: World, s: State, k: nat, ph: Phdr, a: nat)
    requires Placed(w, s) && Stepped(w, s) && Orderly(w, s) && k < |s.bins|
    ensures s.next % 0x40_0000 == 0
    ensures Owns(s.bins[k], a) ==> a < s.next
    ensures InPages(ph, s.next, a) ==> !Owns(s.bins[k], a)
  {
    hide InSegments, FromFile, IsDyn, Orderly, PageDown, PageUp, StepUp;
    StepUpBounds(s.bins[|s.bins| - 1].end);
    assert s.bins[..|s.bins|] == s.bins;
    PageDownAbove(s.next, ph.vaddr);
    if Owns(s.bins[k], a) {
      BelowLaterBases(w, s, k, |s.bins|, a);
    }
  }
}

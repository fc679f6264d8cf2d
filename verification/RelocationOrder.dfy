/** Apart from copies, the result of Relocate does not depend on the order in
    which its two loops visit binaries and records. */
module RelocationOrder {
  import opened Memory
  import opened Outcomes
  import opened Elf
  import opened Loading
  import opened Effects
  import opened LoadOrder
  import opened AddressSpace
  import opened Relocation
  import opened CopyRelocation
  import opened Session
  import opened Bindings

  /** Everything the call does for the first k binaries, as one list. */
  ghost function Flat(w: World, s: State, k: nat): (es: seq<Effect>)
    requires k <= |s.bins|
  {
    if k == 0 then []
    else Flat(w, s, k - 1) + if Fresh(s, k - 1) then EffectsOf(w, s.bins, s.bins[k - 1]) else []
  }

  /** The memory of a state, or the halt. */
  function MemoryOf(r: Result<State>): (m: Result<Mem>) {
    var s :- r;
    Ok(s.mem)
  }

  /** The two loops are one walk over that list. */
  lemma {:induction false} LoopsAreFlat(w: World, s: State, k: nat)
    requires k <= |s.bins|
    ensures MemoryOf(RelocateFirst(w, s, k)) == ApplyAll(s.mem, Flat(w, s, k))
  {
    hide EffectsOf, ApplyFirst;
    if k == 0 {
      ApplyNone(s.mem);
    } else {
      LoopsAreFlat(w, s, k - 1);
      var before := Flat(w, s, k - 1);
      if Fresh(s, k - 1) {
        var es := EffectsOf(w, s.bins, s.bins[k - 1]);
        ApplyConcat(s.mem, before, es, |es|);
      } else {
        assert before + [] == before;
      }
      if RelocateFirst(w, s, k - 1).Ok? {
        MarksAfter(w, s, k - 1);
        assert Marked(RelocateFirst(w, s, k - 1).value, s.bins[k - 1].path) <==> !Fresh(s, k - 1);
      }
    }
  }

  lemma ApplyNone(m: Mem)
    ensures ApplyAll(m, []) == Ok(m)
  {
  }

  lemma {:induction false} FromFlat(w: World, s: State, k: nat, e: Effect) returns (j: nat)
    requires k <= |s.bins| && e in Flat(w, s, k)
    ensures j < k && Fresh(s, j) && e in EffectsOf(w, s.bins, s.bins[j])
  {
    hide EffectsOf;
    if e in Flat(w, s, k - 1) {
      j := FromFlat(w, s, k - 1, e);
    } else {
      j := k - 1;
    }
  }

  /** The binaries of the call write into their own pages, each address once. */
  ghost predicate WritesApart(w: World, s: State) {
    && Placed(w, s) && AllContained(w, s)
    && forall k: nat :: Fresh(s, k) ==> TargetsDisjoint(w, s.bins, s.bins[k])
  }

  lemma FlatDoesNotClash(w: World, s: State)
    requires WritesApart(w, s)
    ensures NoClash(Flat(w, s, |s.bins|))
  {
    hide EffectsOf, Flat, InSegments, TargetsDisjoint, FromFile, Touches;
    var es := Flat(w, s, |s.bins|);
    forall e, f, a: nat | e in es && f in es && Touches(e, a) && Touches(f, a)
      ensures e == f
    {
      var j := FromFlat(w, s, |s.bins|, e);
      var k := FromFlat(w, s, |s.bins|, f);
      DisjointDoNotClash(w, s.bins, s.bins[j]);
      assert Contained(w, s.bins, s.bins[j]) && Contained(w, s.bins, s.bins[k]);
      assert Owns(s.bins[j], a) && Owns(s.bins[k], a);
      assert j == k;
    }
  }

  /** a lies in the target of a copy record of the call. */
  ghost predicate InCopyTarget(w: World, s: State, a: nat) {
    exists k: nat, r ::
      && Fresh(s, k) && (r in s.bins[k].pltrelas || r in s.bins[k].relas)
      && r.kind.Copy? && InTarget(w, s.bins, s.bins[k], r, a)
  }

  lemma CleanOutsideCopies(w: World, s: State, a: nat)
    requires !InCopyTarget(w, s, a)
    ensures CleanAt(Flat(w, s, |s.bins|), a)
  {
    hide EffectOf, Flat, InTarget, Fresh, Touches;
    forall e | e in Flat(w, s, |s.bins|) && Touches(e, a)
      ensures !e.CopyFrom?
    {
      var j := FromFlat(w, s, |s.bins|, e);
      var b := s.bins[j];
      var i :| 0 <= i < |Relas(b)| && EffectsOf(w, s.bins, b)[i] == e;
      var r := Relas(b)[i];
      TouchedInTarget(w, s.bins, b, r, a);
      if e.CopyFrom? {
        CopiesAreCopies(w, s.bins, b, r);
      }
    }
  }

  lemma CopiesAreCopies(w: World, bins: seq<Binary>, b: Binary, r: Rela)
    requires EffectOf(w, bins, b, r).CopyFrom?
    ensures r.kind.Copy?
  {
  }

  /** The whole call, in any order, records of different binaries interleaved or
      not: it halts exactly when Relocate does, and every byte outside the
      targets of copy records is the one Relocate leaves. So is a byte copied
      from one that no relocation writes. */
  lemma AnyOrder(w: World, s: State, fs: seq<Effect>)
    requires WritesApart(w, s) && Reordered(Flat(w, s, |s.bins|), fs)
    ensures ApplyAll(s.mem, fs).Ok? <==> RelocateAll(w, s).Ok?
    ensures RelocateAll(w, s).Ok? ==>
      forall a: nat :: a in s.mem && (!InCopyTarget(w, s, a) || CleanAt(Flat(w, s, |s.bins|), a)) ==>
        && a in ApplyAll(s.mem, fs).value && a in RelocateAll(w, s).value.mem
        && ApplyAll(s.mem, fs).value[a] == RelocateAll(w, s).value.mem[a]
  {
    hide Flat, RelocateFirst, ApplyAll, WritesApart, NoClash, CleanAt, InCopyTarget;
    var es := Flat(w, s, |s.bins|);
    FlatDoesNotClash(w, s);
    LoopsAreFlat(w, s, |s.bins|);
    HaltsInAnyOrder(s.mem, es, fs);
    if RelocateAll(w, s).Ok? {
      forall a: nat | a in s.mem && (!InCopyTarget(w, s, a) || CleanAt(es, a))
        ensures a in ApplyAll(s.mem, fs).value && a in ApplyAll(s.mem, es).value
        ensures ApplyAll(s.mem, fs).value[a] == ApplyAll(s.mem, es).value[a]
      {
        if !InCopyTarget(w, s, a) {
          CleanOutsideCopies(w, s, a);
        }
        SameByte(s.mem, es, fs, a);
      }
    }
  }

  /** And the exact condition for a byte that a copy e puts at a, when the copied
      byte is not itself such a copy: the order of the records is free exactly
      when the relocations of the source leave that byte as it was loaded. */
  lemma CopiedByteOrderIff(w: World, s: State, e: Effect, a: nat)
    requires WritesApart(w, s) && RelocateAll(w, s).Ok? && a in s.mem
    requires e in Flat(w, s, |s.bins|) && e.CopyFrom? && Touches(e, a)
    requires CleanAt(Flat(w, s, |s.bins|), SourceOf(e, a))
    ensures a in RelocateAll(w, s).value.mem && SourceOf(e, a) in s.mem
    ensures (forall fs :: Permuted(Flat(w, s, |s.bins|), fs) ==>
              && ApplyAll(s.mem, fs).Ok? && a in ApplyAll(s.mem, fs).value
              && ApplyAll(s.mem, fs).value[a] == RelocateAll(w, s).value.mem[a])
            <==> forall f ::
                   f in Flat(w, s, |s.bins|) && f != e && Touches(f, SourceOf(e, a)) && Applicable(s.mem, f) ==>
                   ByteOf(f, s.mem, SourceOf(e, a)) == s.mem[SourceOf(e, a)]
  {
    hide Flat, RelocateFirst, ApplyAll, WritesApart, NoClash, CleanAt, Touches, Applicable, ByteOf, SourceOf, Permuted;
    FlatDoesNotClash(w, s);
    LoopsAreFlat(w, s, |s.bins|);
    CopyOrderIff(s.mem, Flat(w, s, |s.bins|), e, a);
  }

  // ---------- Calls whose whole result is free of order ----------

  /** What any binary of the call copies lies in none of them. This holds when
      there are no copy relocations. */
  ghost predicate ReadsOutside(w: World, s: State) {
    forall k: nat, j: nat, e, a: nat ::
      Fresh(s, k) && Fresh(s, j) && e in EffectsOf(w, s.bins, s.bins[k]) && Reads(e, a) ==> !Owns(s.bins[j], a)
  }

  lemma FlatIsSeparate(w: World, s: State)
    requires WritesApart(w, s) && ReadsOutside(w, s)
    ensures Separate(Flat(w, s, |s.bins|))
  {
    hide EffectsOf, Flat, InSegments, TargetsDisjoint, FromFile, Touches, Reads, NoClash;
    FlatDoesNotClash(w, s);
    var es := Flat(w, s, |s.bins|);
    forall e, f, a: nat | e in es && f in es && Reads(e, a)
      ensures !Touches(f, a)
    {
      var j := FromFlat(w, s, |s.bins|, e);
      var k := FromFlat(w, s, |s.bins|, f);
      assert Contained(w, s.bins, s.bins[k]);
    }
  }

  /** Then the memory, or the halt, is the same in every order. */
  lemma CallOrderIndependent(w: World, s: State, fs: seq<Effect>)
    requires WritesApart(w, s) && ReadsOutside(w, s) && Reordered(Flat(w, s, |s.bins|), fs)
    ensures ApplyAll(s.mem, fs) == MemoryOf(RelocateAll(w, s))
  {
    hide Flat, RelocateFirst, ApplyAll, WritesApart, ReadsOutside, Separate, Reordered;
    FlatIsSeparate(w, s);
    LoopsAreFlat(w, s, |s.bins|);
    OrderIndependent(s.mem, Flat(w, s, |s.bins|), fs);
  }

  lemma NoCopiesReadNothing(w: World, bins: seq<Binary>, b: Binary, e: Effect, a: nat)
    requires (forall r :: r in b.pltrelas || r in b.relas ==> !r.kind.Copy?) && e in EffectsOf(w, bins, b)
    ensures !Reads(e, a)
  {
    hide EffectOf;
    var es := EffectsOf(w, bins, b);
    var i :| 0 <= i < |es| && es[i] == e;
    if Reads(e, a) {
      OnlyCopiesRead(w, bins, b, Relas(b)[i], a);
    }
  }

  /** After a load, the program's first or a later one, the conditions are a
      matter of the files alone: no binary's records overlap and, for the whole
      memory, none is a copy. */
  lemma LoadedOrderless(w: World, s: State, t: State)
    requires SizedFiles(w) && Tidy(w, s) && Placed(w, t) && Settled(s) && Grows(s, t)
    requires forall k :: |s.bins| <= k < |t.bins| ==> RecordsApart(w, t.bins[k])
    ensures WritesApart(w, t)
    ensures (forall k, r :: |s.bins| <= k < |t.bins| && (r in t.bins[k].pltrelas || r in t.bins[k].relas) ==>
               !r.kind.Copy?) ==> ReadsOutside(w, t)
  {
    hide Tidy, SizedFiles, Placed, Settled, RecordsApart, AllContained;
    hide EffectsOf, Relas, InSegments, TargetsDisjoint, Reads;
    LoadedContained(w, s, t);
    forall k: nat | Fresh(t, k)
      ensures TargetsDisjoint(w, t.bins, t.bins[k])
    {
      LoadedRelocatable(w, s, t, k);
    }
    if forall k, r :: |s.bins| <= k < |t.bins| && (r in t.bins[k].pltrelas || r in t.bins[k].relas) ==>
         !r.kind.Copy? {
      forall k: nat, e, a: nat | Fresh(t, k) && e in EffectsOf(w, t.bins, t.bins[k])
        ensures !Reads(e, a)
      {
        NoCopiesReadNothing(w, t.bins, t.bins[k], e, a);
      }
    }
  }

  /** Reordering a binary's relocations, within and across its two tables, does
      not change what relocating it does, or whether it halts. */
  lemma OrderOfRecords(w: World, bins: seq<Binary>, b: Binary, c: Binary, m: Mem)
    requires c == b.(relas := c.relas, pltrelas := c.pltrelas) && forall r :: r in Relas(b) <==> r in Relas(c)
    requires Separate(EffectsOf(w, bins, b))
    ensures ApplyAll(m, EffectsOf(w, bins, b)) == ApplyAll(m, EffectsOf(w, bins, c))
  {
    hide ApplyAll, Separate, EffectsOf, Relas;
    SameEffects(w, bins, b, c);
    SameEffects(w, bins, c, b);
    OrderIndependent(m, EffectsOf(w, bins, b), EffectsOf(w, bins, c));
  }

  lemma SameEffects(w: World, bins: seq<Binary>, b: Binary, c: Binary)
    requires c == b.(relas := c.relas, pltrelas := c.pltrelas) && forall r :: r in Relas(b) ==> r in Relas(c)
    ensures forall e :: e in EffectsOf(w, bins, b) ==> e in EffectsOf(w, bins, c)
  {
    forall e | e in EffectsOf(w, bins, b)
      ensures e in EffectsOf(w, bins, c)
    {
      var i :| 0 <= i < |Relas(b)| && EffectsOf(w, bins, b)[i] == e;
      assert Relas(b)[i] in Relas(c);
      var j :| 0 <= j < |Relas(c)| && Relas(c)[j] == Relas(b)[i];
      SameEffect(w, bins, b, c, Relas(b)[i]);
      assert EffectsOf(w, bins, c)[j] == e;
    }
  }

  lemma SameEffect(w: World, bins: seq<Binary>, b: Binary, c: Binary, r: Rela)
    requires c == b.(relas := c.relas, pltrelas := c.pltrelas)
    ensures EffectOf(w, bins, b, r) == EffectOf(w, bins, c, r)
  {
  }
}

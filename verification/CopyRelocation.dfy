/** R_X86_64_COPY: main's copy of a library's variable. */
module CopyRelocation {
  import opened Words
  import opened Memory
  import opened Outcomes
  import opened Elf
  import opened Loading
  import opened Symbols
  import opened Effects
  import opened LoadOrder
  import opened AddressSpace
  import opened Relocation
  import opened Session

  /** Record r of main copies the variable `name`, which main itself defines
      at the copy's address; libc does not override the name. */
  ghost predicate MainCopies(w: World, s: State, r: Rela, name: string) {
    && |s.bins| > 0 && (r in s.bins[0].pltrelas || r in s.bins[0].relas)
    && r.kind.Copy? && r.sym < |s.bins[0].syms| && s.bins[0].syms[r.sym].name == name
    && name !in w.libcMap
    && exists j :: MatchesAt(s.bins, Place(0, j), name, Definition) && Search(s.bins, name, false) == Some(Place(0, j))
         && SymbolAddr(s.bins, Place(0, j)) == U64(s.bins[0].base + r.offset)
  }

  /** Every binary's reference to the variable, relocated in the same call or
      not, is bound to main's copy. */
  lemma AllReferToCopy(w: World, s: State, r: Rela, name: string, k: nat, q: Rela)
    requires MainCopies(w, s, r, name) && Relocatable(w, s, k) && RelocateAll(w, s).Ok?
    requires (q in s.bins[k].pltrelas || q in s.bins[k].relas) && (q.kind.GlobDat? || q.kind.JumpSlot? || q.kind.Abs64?)
    requires q.sym < |s.bins[k].syms| && s.bins[k].syms[q.sym].name == name
    ensures var m, a := RelocateAll(w, s).value.mem, U64(s.bins[k].base + q.offset);
      && Mapped(m, a, 8)
      && WordAt(m, a) == U64(U64(s.bins[0].base + r.offset) + if q.kind.Abs64? then q.addend else 0)
  {
    hide RelocateAll, Relocatable, WordAt;
    RelocatedWord(w, s, k, q);
  }

  /** The copy at dst is made from the first definition outside main: size
      bytes at src, in binary k. */
  ghost predicate Copies(w: World, s: State, r: Rela, name: string, dst: nat, src: nat, size: nat, k: nat) {
    && MainCopies(w, s, r, name)
    && dst == U64(s.bins[0].base + r.offset)
    && Search(s.bins, name, true).Some?
    && var p := Search(s.bins, name, true).value;
    && k == p.bin && src == SymbolAddr(s.bins, p) && size == s.bins[p.bin].syms[p.sym].size
  }

  /** What binary k's relocations read is, when they read it, as it was loaded. */
  ghost predicate ReadsLoaded(w: World, s: State, k: nat) {
    k < |s.bins| && forall e :: e in EffectsOf(w, s.bins, s.bins[k]) ==> ReadsUnrelocated(s, k, e)
  }

  /** The byte at a, if it is mapped. */
  function Peek(m: Mem, a: nat): (b: Option<byte>) {
    if a in m then Some(m[a]) else None
  }

  /** What the n bytes at src are is not changed before binary k is relocated. */
  ghost predicate SourceKept(s: State, k: nat, src: nat, n: nat) {
    forall j, a: nat :: 0 <= j <= k && Fresh(s, j) && src <= a < src + n ==> !Owns(s.bins[j], a)
  }

  /** m' holds at dst the byte m holds at src. */
  predicate CopiedFrom(m: Mem, src: nat, m': Mem, dst: nat) {
    src in m && dst in m' && m'[dst] == m[src]
  }

  lemma CopiedByte(w: World, s: State, k: nat, r: Rela, src: nat, n: nat, x: nat)
    requires k < |s.bins| && Relocatable(w, s, k) && RelocateAll(w, s).Ok?
    requires (r in s.bins[k].pltrelas || r in s.bins[k].relas)
    requires EffectOf(w, s.bins, s.bins[k], r) == CopyFrom(U64(s.bins[k].base + r.offset), src, n) && x < n
    requires SourceKept(s, k, src, n)
    ensures CopiedFrom(s.mem, src + x, RelocateAll(w, s).value.mem, U64(s.bins[k].base + r.offset) + x)
  {
    hide RelocateAll, Placed, AllContained, TargetsDisjoint, EffectOf, EffectsOf, SourceKept, U64, Fresh;
    EffectIn(w, s.bins, s.bins[k], r);
    CopyDone(w, s, k, EffectOf(w, s.bins, s.bins[k], r), x);
  }

  lemma EffectIn(w: World, bins: seq<Binary>, b: Binary, r: Rela)
    requires r in b.pltrelas || r in b.relas
    ensures EffectOf(w, bins, b, r) in EffectsOf(w, bins, b)
  {
    hide EffectOf;
    var i := RecordIndex(b, r);
    assert EffectsOf(w, bins, b)[i] == EffectOf(w, bins, b, r);
  }

  lemma CopyDone(w: World, s: State, k: nat, e: Effect, x: nat)
    requires Relocatable(w, s, k) && RelocateAll(w, s).Ok? && e in EffectsOf(w, s.bins, s.bins[k])
    requires e.CopyFrom? && x < e.n && SourceKept(s, k, e.src, e.n)
    ensures var m := RelocateAll(w, s).value.mem;
      e.src + x in s.mem && e.dst + x in m && m[e.dst + x] == s.mem[e.src + x]
  {
    hide RelocateAll, Placed, AllContained, TargetsDisjoint, EffectsOf, SourceKept, ReadsUnrelocated, NoClash;
    DisjointDoNotClash(w, s.bins, s.bins[k]);
    KeptIffUnrelocated(s, k, e);
    RelocatedByte(w, s, k, e, e.dst + x);
  }

  lemma KeptIffUnrelocated(s: State, k: nat, e: Effect)
    requires e.CopyFrom?
    ensures SourceKept(s, k, e.src, e.n) <==> ReadsUnrelocated(s, k, e)
  {
    hide InSegments, Fresh;
    if ReadsUnrelocated(s, k, e) {
      forall j, a: nat | 0 <= j <= k && Fresh(s, j) && e.src <= a < e.src + e.n
        ensures j < |s.bins| && !Owns(s.bins[j], a)
      {
        assert Reads(e, a);
        InRange(s, j);
      }
    }
  }

  lemma InRange(s: State, j: nat)
    requires Fresh(s, j)
    ensures j < |s.bins|
  {
  }

  /** A copy of a name libc overrides, in either table of any binary relocated:
      after the call its eight bytes are those at libc's address before it. */
  lemma LibcCopy(w: World, s: State, k: nat, r: Rela, x: nat)
    requires k < |s.bins| && Relocatable(w, s, k) && RelocateAll(w, s).Ok?
    requires r in s.bins[k].pltrelas || r in s.bins[k].relas
    requires r.kind.Copy? && r.sym < |s.bins[k].syms| && s.bins[k].syms[r.sym].name in w.libcMap && x < 8
    requires SourceKept(s, k, w.libcMap[s.bins[k].syms[r.sym].name], 8)
    ensures CopiedFrom(s.mem, w.libcMap[s.bins[k].syms[r.sym].name] + x,
                       RelocateAll(w, s).value.mem, U64(s.bins[k].base + r.offset) + x)
  {
    hide RelocateAll, Placed, AllContained, TargetsDisjoint, SourceKept;
    CopiedByte(w, s, k, r, w.libcMap[s.bins[k].syms[r.sym].name], 8, x);
  }

  /** Any other copy: its bytes are those of the first definition outside main,
      or failing that weak reference, as many as its size. */
  lemma SymbolCopy(w: World, s: State, k: nat, r: Rela, p: Place, x: nat)
    requires k < |s.bins| && Relocatable(w, s, k) && RelocateAll(w, s).Ok?
    requires r in s.bins[k].pltrelas || r in s.bins[k].relas
    requires r.kind.Copy? && r.sym < |s.bins[k].syms| && s.bins[k].syms[r.sym].name !in w.libcMap
    requires Search(s.bins, s.bins[k].syms[r.sym].name, true) == Some(p) && x < s.bins[p.bin].syms[p.sym].size
    requires SourceKept(s, k, U64(s.bins[p.bin].base + s.bins[p.bin].syms[p.sym].value), s.bins[p.bin].syms[p.sym].size)
    ensures CopiedFrom(s.mem, U64(s.bins[p.bin].base + s.bins[p.bin].syms[p.sym].value) + x,
                       RelocateAll(w, s).value.mem, U64(s.bins[k].base + r.offset) + x)
  {
    hide RelocateAll, Placed, AllContained, TargetsDisjoint, SourceKept, Search;
    CopiedByte(w, s, k, r, SymbolAddr(s.bins, p), s.bins[p.bin].syms[p.sym].size, x);
  }

  /** The copy holds the bytes the library's variable was loaded with, because
      main is relocated before any library. */
  lemma CopyHoldsLoadedBytes(w: World, s: State, s': State, r: Rela, name: string,
                             dst: nat, src: nat, size: nat, k: nat, x: nat)
    requires RelocateAll(w, s) == Ok(s') && Relocatable(w, s, 0) && ReadsLoaded(w, s, 0)
    requires Copies(w, s, r, name, dst, src, size, k) && x < size
    ensures Peek(s'.mem, dst + x) == Peek(s.mem, src + x) != None
  {
    hide RelocateAll, Relocatable, SymbolAddr, EffectOf;
    CopyEffectIs(w, s, r, name, dst, src, size, k);
    var i := RecordIndex(s.bins[0], r);
    var e := EffectsOf(w, s.bins, s.bins[0])[i];
    KeptIffUnrelocated(s, 0, e);
    CopiedByte(w, s, 0, r, src, size, x);
  }

  lemma CopyEffectIs(w: World, s: State, r: Rela, name: string, dst: nat, src: nat, size: nat, k: nat)
    requires Copies(w, s, r, name, dst, src, size, k)
    ensures |s.bins| > 0 && EffectOf(w, s.bins, s.bins[0], r) == CopyFrom(dst, src, size)
    ensures dst == Target(s.bins[0], r)
  {
    hide Search;
  }

  /** Relocating binary k leaves the byte at a as it was loaded. */
  ghost predicate RelocationKeeps(w: World, s: State, k: nat, a: nat) {
    k < |s.bins| && a in s.mem &&
    forall e :: e in EffectsOf(w, s.bins, s.bins[k]) && Touches(e, a) && Applicable(s.mem, e) ==>
      ByteOf(e, s.mem, a) == s.mem[a]
  }

  lemma ByteAfterOwnRelocation(w: World, s: State, k: nat, a: nat)
    requires Relocatable(w, s, k) && ReadsLoaded(w, s, k) && RelocateAll(w, s).Ok? && Owns(s.bins[k], a)
    ensures a in s.mem && a in RelocateAll(w, s).value.mem
    ensures RelocateAll(w, s).value.mem[a] == s.mem[a] <==> RelocationKeeps(w, s, k, a)
  {
    hide RelocateAll, InSegments, FromFile, TargetsDisjoint, EffectsOf, Bytes;
    var es := EffectsOf(w, s.bins, s.bins[k]);
    if e :| e in es && Touches(e, a) {
      DisjointDoNotClash(w, s.bins, s.bins[k]);
      RelocatedByte(w, s, k, e, a);
    } else {
      UnrelocatedByte(w, s, k, a);
    }
  }

  /** The psABI wants the copy to be the library's initialised variable. A byte
      of the copy equals the library's own byte after the call exactly when the
      library's relocations do not change that byte: a pointer initialised by a
      relocation is copied before it is relocated. */
  lemma CopyIsCurrentIff(w: World, s: State, s': State, r: Rela, name: string,
                         dst: nat, src: nat, size: nat, k: nat, x: nat)
    requires RelocateAll(w, s) == Ok(s') && Relocatable(w, s, 0) && ReadsLoaded(w, s, 0)
    requires Copies(w, s, r, name, dst, src, size, k) && x < size
    requires Relocatable(w, s, k) && ReadsLoaded(w, s, k) && Owns(s.bins[k], src + x)
    ensures Peek(s'.mem, dst + x) != None && Peek(s'.mem, src + x) != None
    ensures Peek(s'.mem, dst + x) == Peek(s'.mem, src + x) <==> RelocationKeeps(w, s, k, src + x)
  {
    hide RelocateAll, Relocatable, Copies, Owns, RelocationKeeps, EffectsOf;
    CopyHoldsLoadedBytes(w, s, s', r, name, dst, src, size, k, x);
    ByteAfterOwnRelocation(w, s, k, src + x);
  }

  // ---------- The start of a program ----------

  /** What a copy of main can read: the variable of the name in some file,
      inside a segment of that file, or a word of libc, mapped beforehand. */
  ghost predicate SourcesInside(w: World, m: Mem, main: Path) {
    main in w.fs &&
    forall r :: r in w.fs[main].relaTable.Values && r.kind.Copy? && r.sym < |w.fs[main].syms| ==>
      SourceInside(w, m, w.fs[main].syms[r.sym].name)
  }

  ghost predicate SourceInside(w: World, m: Mem, name: string) {
    && (name in w.libcMap ==> Mapped(m, w.libcMap[name], 8))
    && forall p, i :: p in w.fs && 0 <= i < |w.fs[p].syms| && Findable(w.fs[p].syms[i], name) ==>
         InsideSegment(w.fs[p].phdrs, w.fs[p].syms[i].value, w.fs[p].syms[i].size)
  }

  lemma VariableIsOwned(w: World, b: Binary, y: Sym, a: nat)
    requires FromFile(w, b) && SizedFiles(w) && InsideSegment(b.phdrs, y.value, y.size)
    requires U64(y.value + b.base) <= a < U64(y.value + b.base) + y.size
    ensures Owns(b, a)
  {
    InsideIsOwned(w, b, Rela(y.value, Relative, 0, 0), y.size);
  }

  /** What main's copies read is in no page of main. */
  lemma CopyReadsElsewhere(w: World, m: Mem, t: State, name: string, dst: u64, a: nat)
    requires SizedFiles(w) && Placed(w, t) && Added(w, t, 0, m) && |t.bins| > 0 && SourceInside(w, m, name)
    requires CopyEffect(w, t.bins, name, dst).CopyFrom? && Reads(CopyEffect(w, t.bins, name, dst), a)
    ensures !Owns(t.bins[0], a)
  {
    hide InSegments, HoldsBinary, SegmentsApart, Inhabited, InsideSegment;
    if name !in w.libcMap {
      var p := Search(t.bins, name, true).value;
      FoundHasName(t.bins, name);
      var b := t.bins[p.bin];
      assert FromFile(w, b);
      assert w.fs[b.path].syms[p.sym] == b.syms[p.sym];
      VariableIsOwned(w, b, b.syms[p.sym], a);
      assert Owns(t.bins[p.bin], a) && p.bin > 0;
    } else {
      assert a in m;
    }
  }

  /** At the start of a program, main's copies read what was loaded: a matter of the files alone. */
  lemma StartReadsLoaded(w: World, m: Mem, main: Path, t: State)
    requires SizedFiles(w) && SourcesInside(w, m, main) && LoadAll(w, Initial(m), main) == Ok(t)
    requires RelocateAll(w, t).Ok?
    ensures ReadsLoaded(w, t, 0)
  {
    hide LoadAll, RelocateAll, SourceInside, InSegments, CopyEffect, FromFile, HoldsBinary, Contained;
    StartSound(w, m);
    LoadAllPlaces(w, Initial(m), main);
    MainIsFirst(w, m, main);
    var b := t.bins[0];
    var es := EffectsOf(w, t.bins, b);
    FirstIsFresh(t);
    forall e, a: nat, j | e in es && Reads(e, a) && 0 <= j <= 0 && Fresh(t, j)
      ensures !Owns(t.bins[j], a)
    {
      var i :| 0 <= i < |es| && es[i] == e;
      var r := Relas(b)[i];
      OnlyCopiesRead(w, t.bins, b, r, a);
      assert FromFile(w, b);
      RecordOfFile(w, b, r);
      CopyReadsElsewhere(w, m, t, b.syms[r.sym].name, Target(b, r), a);
    }
  }

  lemma FirstIsFresh(t: State)
    ensures |t.bins| > 0 && t.relocated == map[] ==> Fresh(t, 0)
  {
  }

  lemma OnlyCopiesRead(w: World, bins: seq<Binary>, b: Binary, r: Rela, a: nat)
    requires Reads(EffectOf(w, bins, b, r), a)
    ensures r.kind.Copy? && r.sym < |b.syms|
    ensures EffectOf(w, bins, b, r) == CopyEffect(w, bins, b.syms[r.sym].name, Target(b, r))
  {
  }

  /** A binary without copy relocations reads nothing. */
  lemma NoCopiesReadLoaded(w: World, s: State, k: nat)
    requires k < |s.bins| && forall r :: r in s.bins[k].pltrelas || r in s.bins[k].relas ==> !r.kind.Copy?
    ensures ReadsLoaded(w, s, k)
  {
    hide EffectOf, InSegments;
    var b := s.bins[k];
    var es := EffectsOf(w, s.bins, b);
    forall e, a: nat | e in es
      ensures !Reads(e, a)
    {
      var i :| 0 <= i < |es| && es[i] == e;
      if Reads(e, a) {
        OnlyCopiesRead(w, s.bins, b, Relas(b)[i], a);
      }
    }
  }
}

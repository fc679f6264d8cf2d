/** DynLoader::Relocate: which binaries a call relocates, and what their words
    hold afterwards. The formulas are those of section 4.4.1 of the x86-64 psABI. */
module Relocation {
  import opened Words
  import opened Memory
  import opened Outcomes
  import opened Elf
  import opened Loading
  import opened Symbols
  import opened Effects
  import opened LoadOrder
  import opened AddressSpace
  import Tls

  /** The loader's order: the PLT's relocations, then the others. */
  function Relas(b: Binary): (r: seq<Rela>) {
    b.pltrelas + b.relas
  }

  function Target(b: Binary, r: Rela): (a: u64) {
    U64(b.base + r.offset)
  }

  function PutIf(a: Option<u64>, dst: u64, addend: int): (e: Effect) {
    if a.Some? then Put(dst, U64(a.value + addend)) else Nothing
  }

  function CopyEffect(w: World, bins: seq<Binary>, name: string, dst: u64): (e: Effect) {
    var p := Search(bins, name, true);
    if name in w.libcMap then CopyFrom(dst, w.libcMap[name], 8)
    else if p.Some? then CopyFrom(dst, SymbolAddr(bins, p.value), bins[p.value.bin].syms[p.value.sym].size)
    else Stop
  }

  /** What relocation r of binary b does. */
  function EffectOf(w: World, bins: seq<Binary>, b: Binary, r: Rela): (e: Effect) {
    if r.sym >= |b.syms| then Stop else
    var name := b.syms[r.sym].name;
    var dst := Target(b, r);
    match r.kind
    case GlobDat => PutIf(Resolve(w, bins, name), dst, 0)
    case JumpSlot => PutIf(Resolve(w, bins, name), dst, 0)
    case Relative => Put(dst, U64(b.base + r.addend))
    case Irelative => Put(dst, U64(b.base + r.addend))
    case Abs64 => PutIf(Resolve(w, bins, name), dst, r.addend)
    case Tpoff64 =>
      var o := Tls.SymOffset(w, bins, name);
      if o.Some? then Put(dst, o.value) else Stop
    case Dtpmod64 => Put(dst, 1)
    case Dtpoff64 => Nothing
    case Copy => CopyEffect(w, bins, name, dst)
    case Unsupported => Stop
  }

  function EffectsOf(w: World, bins: seq<Binary>, b: Binary): (es: seq<Effect>)
    ensures |es| == |Relas(b)|
    ensures forall i :: 0 <= i < |es| ==> es[i] == EffectOf(w, bins, b, Relas(b)[i])
  {
    seq(|Relas(b)|, i requires 0 <= i < |Relas(b)| => EffectOf(w, bins, b, Relas(b)[i]))
  }

  /** relocated_[path] is true. */
  predicate Marked(s: State, path: Path) {
    path in s.relocated && s.relocated[path]
  }

  /** The state after the outer loop has passed the first k binaries. */
  function RelocateFirst(w: World, s: State, k: nat): (r: Result<State>)
    requires k <= |s.bins|
  {
    if k == 0 then Ok(s) else
    var t :- RelocateFirst(w, s, k - 1);
    var b := s.bins[k - 1];
    if Marked(t, b.path) then Ok(t) else
    var m :- ApplyAll(t.mem, EffectsOf(w, s.bins, b));
    Ok(t.(relocated := t.relocated[b.path := true], mem := m, relog := t.relog + [k - 1]))
  }

  /** Relocate. */
  function RelocateAll(w: World, s: State): (r: Result<State>) {
    RelocateFirst(w, s, |s.bins|)
  }

  // ---------- Each path once ----------

  /** Binary k is the first one with its path, and that path is not yet marked. */
  ghost predicate Fresh(s: State, k: nat) {
    k < |s.bins| && !Marked(s, s.bins[k].path) && forall j :: 0 <= j < k ==> s.bins[j].path != s.bins[k].path
  }

  /** One of the first k binaries has path p. */
  ghost predicate HasPath(bins: seq<Binary>, k: nat, p: Path)
    requires k <= |bins|
  {
    exists j :: 0 <= j < k && bins[j].path == p
  }

  lemma {:induction false} MarksAfter(w: World, s: State, k: nat)
    requires k <= |s.bins| && RelocateFirst(w, s, k).Ok?
    ensures var t := RelocateFirst(w, s, k).value;
      && t == s.(relocated := t.relocated, mem := t.mem, relog := t.relog)
      && (forall p :: Marked(t, p) <==> Marked(s, p) || HasPath(s.bins, k, p))
  {
    hide ApplyAll;
    if k > 0 {
      MarksAfter(w, s, k - 1);
      forall p
        ensures HasPath(s.bins, k, p) <==> s.bins[k - 1].path == p || HasPath(s.bins, k - 1, p)
      {
        if s.bins[k - 1].path != p && HasPath(s.bins, k, p) {
          var j :| 0 <= j < k && s.bins[j].path == p;
          assert j < k - 1;
        }
      }
    }
  }

  /** The indices below k that the loop relocates. */
  ghost function FreshIndices(s: State, k: nat): (r: seq<nat>) {
    if k == 0 then [] else FreshIndices(s, k - 1) + if Fresh(s, k - 1) then [k - 1] else []
  }

  lemma {:induction false} RelogAfter(w: World, s: State, k: nat)
    requires k <= |s.bins| && RelocateFirst(w, s, k).Ok?
    ensures RelocateFirst(w, s, k).value.relog == s.relog + FreshIndices(s, k)
  {
    hide ApplyAll;
    if k == 0 {
      assert s.relog + [] == s.relog;
    } else {
      RelogAfter(w, s, k - 1);
      MarksAfter(w, s, k - 1);
    }
  }

  /** A call relocates exactly the binaries that are the first of an unmarked
      path, in load order, and leaves every loaded path marked. */
  lemma RelocatesFreshPaths(w: World, s: State)
    requires RelocateAll(w, s).Ok?
    ensures var t := RelocateAll(w, s).value;
      && t.relog == s.relog + FreshIndices(s, |s.bins|)
      && t.bins == s.bins && t.loaded == s.loaded && t.log == s.log && t.next == s.next
      && (forall p :: Marked(t, p) <==> Marked(s, p) || HasPath(s.bins, |s.bins|, p))
  {
    MarksAfter(w, s, |s.bins|);
    RelogAfter(w, s, |s.bins|);
  }

  lemma {:induction false} NothingFresh(w: World, s: State, k: nat)
    requires k <= |s.bins| && forall j :: 0 <= j < |s.bins| ==> Marked(s, s.bins[j].path)
    ensures RelocateFirst(w, s, k) == Ok(s)
  {
    if k > 0 {
      NothingFresh(w, s, k - 1);
    }
  }

  /** A repeated call changes nothing. */
  lemma RelocateIdempotent(w: World, s: State)
    requires RelocateAll(w, s).Ok?
    ensures RelocateAll(w, RelocateAll(w, s).value) == RelocateAll(w, s)
  {
    RelocatesFreshPaths(w, s);
    NothingFresh(w, RelocateAll(w, s).value, |s.bins|);
  }

  // ---------- What the words hold ----------

  /** Every address b's relocations write is its own. */
  ghost predicate Contained(w: World, bins: seq<Binary>, b: Binary) {
    forall e, a: nat :: e in EffectsOf(w, bins, b) && Touches(e, a) ==> Owns(b, a)
  }

  ghost predicate AllContained(w: World, s: State) {
    forall k: nat :: Fresh(s, k) ==> Contained(w, s.bins, s.bins[k])
  }

  lemma {:induction false} KeysAfter(w: World, s: State, k: nat)
    requires k <= |s.bins| && RelocateFirst(w, s, k).Ok?
    ensures RelocateFirst(w, s, k).value.mem.Keys == s.mem.Keys
  {
    if k > 0 {
      KeysAfter(w, s, k - 1);
      var t := RelocateFirst(w, s, k - 1).value;
      if !Marked(t, s.bins[k - 1].path) {
        AllApplicable(t.mem, EffectsOf(w, s.bins, s.bins[k - 1]));
      }
    }
  }

  /** Binary k's turn keeps a byte that none of its relocations writes. */
  lemma TurnKeepsByte(w: World, s: State, k: nat, a: nat)
    requires k < |s.bins| && RelocateFirst(w, s, k + 1).Ok? && a in s.mem
    requires Fresh(s, k) ==> forall e :: e in EffectsOf(w, s.bins, s.bins[k]) ==> !Touches(e, a)
    ensures RelocateFirst(w, s, k).Ok?
    ensures a in RelocateFirst(w, s, k).value.mem && a in RelocateFirst(w, s, k + 1).value.mem
    ensures RelocateFirst(w, s, k + 1).value.mem[a] == RelocateFirst(w, s, k).value.mem[a]
  {
    hide EffectsOf;
    MarksAfter(w, s, k);
    KeysAfter(w, s, k);
    var t, b := RelocateFirst(w, s, k).value, s.bins[k];
    assert a in t.mem.Keys;
    if !Marked(t, b.path) {
      assert Fresh(s, k);
      Untouched(t.mem, EffectsOf(w, s.bins, b), |EffectsOf(w, s.bins, b)|, a);
    }
  }

  /** Relocation changes only bytes that belong to a binary it relocates. */
  lemma {:induction false} OthersKeepBytes(w: World, s: State, k: nat, a: nat)
    requires k <= |s.bins| && RelocateFirst(w, s, k).Ok? && AllContained(w, s) && a in s.mem
    requires forall j :: 0 <= j < k && Fresh(s, j) ==> !Owns(s.bins[j], a)
    ensures a in RelocateFirst(w, s, k).value.mem && RelocateFirst(w, s, k).value.mem[a] == s.mem[a]
  {
    if k > 0 {
      hide EffectsOf, RelocateFirst, InSegments, Touches;
      assert Fresh(s, k - 1) ==> Contained(w, s.bins, s.bins[k - 1]);
      TurnKeepsByte(w, s, k - 1, a);
      OthersKeepBytes(w, s, k - 1, a);
    }
  }

  /** What e reads belongs to no binary relocated up to and including k. */
  ghost predicate ReadsUnrelocated(s: State, k: nat, e: Effect) {
    forall a: nat, j :: Reads(e, a) && 0 <= j <= k && Fresh(s, j) ==> !Owns(s.bins[j], a)
  }

  /** A fresh binary's turn applies its effects. */
  lemma FreshTurn(w: World, s: State, k: nat)
    requires Fresh(s, k) && RelocateFirst(w, s, k + 1).Ok?
    ensures RelocateFirst(w, s, k).Ok?
    ensures ApplyAll(RelocateFirst(w, s, k).value.mem, EffectsOf(w, s.bins, s.bins[k]))
            == Ok(RelocateFirst(w, s, k + 1).value.mem)
  {
    hide EffectsOf, ApplyAll;
    MarksAfter(w, s, k);
  }

  lemma ReadsCleanHere(w: World, s: State, k: nat, e: Effect)
    requires Fresh(s, k) && AllContained(w, s) && ReadsUnrelocated(s, k, e)
    ensures ReadsClean(EffectsOf(w, s.bins, s.bins[k]), e)
  {
    hide EffectsOf, InSegments, Touches, Reads;
    assert Contained(w, s.bins, s.bins[k]);
  }

  /** Until its own turn, binary k's effects compute what they would have at first. */
  lemma ByteUntilTurn(w: World, s: State, k: nat, e: Effect, a: nat)
    requires k < |s.bins| && RelocateFirst(w, s, k).Ok? && AllContained(w, s)
    requires ReadsUnrelocated(s, k, e) && Touches(e, a) && Applicable(s.mem, e)
    requires Applicable(RelocateFirst(w, s, k).value.mem, e)
    ensures ByteOf(e, RelocateFirst(w, s, k).value.mem, a) == ByteOf(e, s.mem, a)
  {
    hide RelocateFirst, AllContained, Fresh, InSegments, Bytes;
    if e.CopyFrom? {
      var from := e.src + (a - e.dst);
      assert Reads(e, from) && from in s.mem;
      OthersKeepBytes(w, s, k, from);
    }
  }

  /** Right after binary k is relocated, each byte its relocations write is the
      one the relocation computes from the memory before the call. */
  lemma ByteWhenRelocated(w: World, s: State, k: nat, e: Effect, a: nat)
    requires Fresh(s, k) && RelocateFirst(w, s, k + 1).Ok? && Placed(w, s) && AllContained(w, s)
    requires NoClash(EffectsOf(w, s.bins, s.bins[k])) && ReadsUnrelocated(s, k, e)
    requires e in EffectsOf(w, s.bins, s.bins[k]) && Touches(e, a)
    ensures a in s.mem && Applicable(s.mem, e)
    ensures a in RelocateFirst(w, s, k + 1).value.mem && RelocateFirst(w, s, k + 1).value.mem[a] == ByteOf(e, s.mem, a)
  {
    hide EffectsOf, InSegments, FromFile, RelocateFirst, Touches, Applicable;
    hide ByteOf, ReadsClean, NoClash, ReadsUnrelocated;
    var es := EffectsOf(w, s.bins, s.bins[k]);
    FreshTurn(w, s, k);
    var t := RelocateFirst(w, s, k).value;
    KeysAfter(w, s, k);
    AllApplicable(t.mem, es);
    SameApplicable(s.mem, t.mem, e);
    assert Owns(s.bins[k], a) by { assert Contained(w, s.bins, s.bins[k]); }
    assert a in t.mem.Keys;
    ReadsCleanHere(w, s, k, e);
    ReadsCleanAt(es, e, a);
    ByteUntilTurn(w, s, k, e, a);
    var i :| 0 <= i < |es| && es[i] == e;
    ActAtOnce(t.mem, es, |es|, i, a);
  }

  /** The bytes of binary k do not change after its own turn. */
  lemma {:induction false} KeptAfterTurn(w: World, s: State, k: nat, n: nat, a: nat)
    requires k < n <= |s.bins| && RelocateFirst(w, s, n).Ok? && Placed(w, s) && AllContained(w, s)
    requires Owns(s.bins[k], a)
    ensures RelocateFirst(w, s, k + 1).Ok?
    ensures a in RelocateFirst(w, s, n).value.mem && a in RelocateFirst(w, s, k + 1).value.mem
    ensures RelocateFirst(w, s, n).value.mem[a] == RelocateFirst(w, s, k + 1).value.mem[a]
    decreases n
  {
    hide EffectsOf, InSegments, FromFile, RelocateFirst;
    if n > k + 1 {
      TurnKeepsByte(w, s, n - 1, a);
      KeptAfterTurn(w, s, k, n - 1, a);
    } else {
      KeysAfter(w, s, n);
      assert a in s.mem && a in RelocateFirst(w, s, n).value.mem.Keys;
    }
  }

  /** After the whole call, each byte written for binary k is the one its
      relocation computes from the memory before the call. */
  lemma RelocatedByte(w: World, s: State, k: nat, e: Effect, a: nat)
    requires Fresh(s, k) && RelocateAll(w, s).Ok? && Placed(w, s) && AllContained(w, s)
    requires NoClash(EffectsOf(w, s.bins, s.bins[k])) && ReadsUnrelocated(s, k, e)
    requires e in EffectsOf(w, s.bins, s.bins[k]) && Touches(e, a)
    ensures a in s.mem && Applicable(s.mem, e)
    ensures a in RelocateAll(w, s).value.mem && RelocateAll(w, s).value.mem[a] == ByteOf(e, s.mem, a)
  {
    hide EffectsOf, InSegments, FromFile, Bytes, RelocateFirst;
    assert Owns(s.bins[k], a);
    KeptAfterTurn(w, s, k, |s.bins|, a);
    ByteWhenRelocated(w, s, k, e, a);
  }

  /** A byte of binary k that its relocations do not write is still the loaded one. */
  lemma UnrelocatedByte(w: World, s: State, k: nat, a: nat)
    requires k < |s.bins| && RelocateAll(w, s).Ok? && Placed(w, s) && AllContained(w, s) && Owns(s.bins[k], a)
    requires Fresh(s, k) ==> forall e :: e in EffectsOf(w, s.bins, s.bins[k]) ==> !Touches(e, a)
    ensures a in s.mem && a in RelocateAll(w, s).value.mem && RelocateAll(w, s).value.mem[a] == s.mem[a]
  {
    hide EffectsOf, InSegments, FromFile, RelocateFirst;
    KeptAfterTurn(w, s, k, |s.bins|, a);
    TurnKeepsByte(w, s, k, a);
    OthersKeepBytes(w, s, k, a);
  }

  /** The bytes r may write: a word, or as much as a copy takes. */
  ghost function Extent(w: World, bins: seq<Binary>, b: Binary, r: Rela): (n: nat) {
    match EffectOf(w, bins, b, r)
    case CopyFrom(_, _, n) => n
    case Stop => 0
    case _ => 8
  }

  ghost predicate InTarget(w: World, bins: seq<Binary>, b: Binary, r: Rela, a: nat) {
    Target(b, r) <= a < Target(b, r) + Extent(w, bins, b, r)
  }

  /** The targets of b's relocations, resolved or not, do not overlap. */
  ghost predicate TargetsDisjoint(w: World, bins: seq<Binary>, b: Binary) {
    forall i, j, a: nat ::
      0 <= i < |Relas(b)| && 0 <= j < |Relas(b)| && i != j && InTarget(w, bins, b, Relas(b)[i], a) ==>
      !InTarget(w, bins, b, Relas(b)[j], a)
  }

  lemma TouchedInTarget(w: World, bins: seq<Binary>, b: Binary, r: Rela, a: nat)
    requires Touches(EffectOf(w, bins, b, r), a)
    ensures InTarget(w, bins, b, r, a)
  {
  }

  lemma DisjointDoNotClash(w: World, bins: seq<Binary>, b: Binary)
    requires TargetsDisjoint(w, bins, b)
    ensures NoClash(EffectsOf(w, bins, b))
  {
    hide EffectOf, InTarget;
    var es := EffectsOf(w, bins, b);
    forall e, f, a: nat | e in es && f in es && Touches(e, a) && Touches(f, a)
      ensures e == f
    {
      var i :| 0 <= i < |es| && es[i] == e;
      var j :| 0 <= j < |es| && es[j] == f;
      TouchedInTarget(w, bins, b, Relas(b)[i], a);
      TouchedInTarget(w, bins, b, Relas(b)[j], a);
    }
  }

  /** What the words of binary k rely on: relocations stay inside the binary
      they belong to, and binary k's targets do not overlap. */
  ghost predicate Relocatable(w: World, s: State, k: nat) {
    && Placed(w, s)
    && AllContained(w, s)
    && Fresh(s, k)
    && TargetsDisjoint(w, s.bins, s.bins[k])
  }

  /** After the call, the target of relocation i of binary k holds the word it stores. */
  lemma WordAfterEffect(w: World, s: State, k: nat, i: nat, v: u64)
    requires Relocatable(w, s, k) && RelocateAll(w, s).Ok? && i < |Relas(s.bins[k])|
    requires EffectOf(w, s.bins, s.bins[k], Relas(s.bins[k])[i]) == Put(Target(s.bins[k], Relas(s.bins[k])[i]), v)
    ensures var m, a := RelocateAll(w, s).value.mem, Target(s.bins[k], Relas(s.bins[k])[i]);
      Mapped(m, a, 8) && WordAt(m, a) == v
  {
    hide EffectOf, InSegments, FromFile, Bytes, RelocateAll, TargetsDisjoint, Contained, Target;
    var b := s.bins[k];
    var dst := Target(b, Relas(b)[i]);
    var e := EffectsOf(w, s.bins, b)[i];
    DisjointDoNotClash(w, s.bins, b);
    forall x: nat | dst <= x < dst + 8
      ensures x in RelocateAll(w, s).value.mem && RelocateAll(w, s).value.mem[x] == Bytes(v, 8)[x - dst]
    {
      RelocatedByte(w, s, k, e, x);
    }
    WordFromBytes(RelocateAll(w, s).value.mem, dst, v);
  }

  /** The target of a relocation that stores nothing keeps its loaded bytes. */
  lemma UnresolvedWord(w: World, s: State, k: nat, i: nat, x: nat)
    requires Relocatable(w, s, k) && RelocateAll(w, s).Ok? && i < |Relas(s.bins[k])|
    requires EffectOf(w, s.bins, s.bins[k], Relas(s.bins[k])[i]) == Nothing
    requires Target(s.bins[k], Relas(s.bins[k])[i]) <= x < Target(s.bins[k], Relas(s.bins[k])[i]) + 8
    requires Owns(s.bins[k], x)
    ensures x in s.mem && x in RelocateAll(w, s).value.mem && RelocateAll(w, s).value.mem[x] == s.mem[x]
  {
    hide EffectOf, InSegments, FromFile, RelocateAll, Contained, Target;
    var b := s.bins[k];
    var es := EffectsOf(w, s.bins, b);
    assert InTarget(w, s.bins, b, Relas(b)[i], x);
    forall e | e in es
      ensures !Touches(e, x)
    {
      var j :| 0 <= j < |es| && es[j] == e;
      if Touches(e, x) {
        TouchedInTarget(w, s.bins, b, Relas(b)[j], x);
      }
    }
    UnrelocatedByte(w, s, k, x);
  }

  /** The word at a is v, or without a v its bytes, where they are b's, are as they were in m. */
  ghost predicate HoldsOrKeeps(m: Mem, m': Mem, b: Binary, a: nat, v: Option<u64>) {
    && (v.Some? ==> Mapped(m', a, 8) && WordAt(m', a) == v.value)
    && (v.None? ==> forall x: nat :: a <= x < a + 8 && Owns(b, x) ==> x in m && x in m' && m'[x] == m[x])
  }

  lemma RecordIndex(b: Binary, r: Rela) returns (i: nat)
    requires r in b.pltrelas || r in b.relas
    ensures i < |Relas(b)| && Relas(b)[i] == r
  {
    if r in b.pltrelas {
      i :| 0 <= i < |b.pltrelas| && b.pltrelas[i] == r;
    } else {
      var j :| 0 <= j < |b.relas| && b.relas[j] == r;
      i := |b.pltrelas| + j;
    }
  }

  /** After Relocate, for every record of the PLT's table and of the other one:
      GLOB_DAT and JUMP_SLOT words are S, R_X86_64_64 words S + A, RELATIVE words
      B + A; a word whose symbol is not found keeps its loaded value. The code
      stores B + A for IRELATIVE too, 1 for DTPMOD64, the offset of TLSSymOffset
      for TPOFF64 and nothing for DTPOFF64. */
  lemma RelocatedWord(w: World, s: State, k: nat, r: Rela)
    requires Relocatable(w, s, k) && RelocateAll(w, s).Ok?
    requires (r in s.bins[k].pltrelas || r in s.bins[k].relas) && !r.kind.Copy?
    ensures r.sym < |s.bins[k].syms| && !r.kind.Unsupported?
    ensures var b, name, a := s.bins[k], s.bins[k].syms[r.sym].name, U64(s.bins[k].base + r.offset);
      var S := if name in w.libcMap then Some(w.libcMap[name]) else DlsymAddr(s.bins, name);
      && (r.kind.Tpoff64? ==> Tls.SymOffset(w, s.bins, name).Some?)
      && HoldsOrKeeps(s.mem, RelocateAll(w, s).value.mem, b, a,
           match r.kind
           case GlobDat => S
           case JumpSlot => S
           case Abs64 => if S.Some? then Some(U64(S.value + r.addend)) else None
           case Relative => Some(U64(b.base + r.addend))
           case Irelative => Some(U64(b.base + r.addend))
           case Tpoff64 => Tls.SymOffset(w, s.bins, name)
           case Dtpmod64 => Some(1)
           case _ => None)
  {
    hide RelocateFirst, InSegments, FromFile, TargetsDisjoint, Contained, DlsymAddr, Tls.SymOffset;
    var b := s.bins[k];
    var i := RecordIndex(b, r);
    NotStopped(w, s, k, i);
    match EffectOf(w, s.bins, b, r)
    case Put(dst, v) =>
      WordAfterEffect(w, s, k, i, v);
    case Nothing =>
      forall x: nat | Target(b, r) <= x < Target(b, r) + 8 && Owns(b, x)
        ensures x in s.mem && x in RelocateAll(w, s).value.mem && RelocateAll(w, s).value.mem[x] == s.mem[x]
      {
        UnresolvedWord(w, s, k, i, x);
      }
  }

  /** After Relocate, the thread pointer plus a TPOFF64 word is the address of
      the symbol in the TLS block Execute lays out. */
  lemma TpoffWordAgrees(w: World, s: State, k: nat, r: Rela, name: string)
    requires Relocatable(w, s, k) && RelocateAll(w, s).Ok? && (r in s.bins[k].pltrelas || r in s.bins[k].relas)
    requires r.kind.Tpoff64? && r.sym < |s.bins[k].syms| && s.bins[k].syms[r.sym].name == name
    requires Scan(s.bins, name, TlsDefinition, 0).Some?
    ensures var m, a, p := RelocateAll(w, s).value.mem, U64(s.bins[k].base + r.offset),
          Scan(s.bins, name, TlsDefinition, 0).value;
      && Mapped(m, a, 8)
      && U64(w.tlsBlock + 4096 + WordAt(m, a))
         == U64(w.tlsBlock + Tls.BlockStart(s.bins, p.bin) + s.bins[p.bin].syms[p.sym].value)
  {
    hide RelocateAll, Relocatable, U64, WordAt, Tls.SymOffset;
    Tls.OffsetFromStart(w, s.bins, name);
    RelocatedWord(w, s, k, r);
  }

  /** A call that succeeds stopped at no relocation. */
  lemma NotStopped(w: World, s: State, k: nat, i: nat)
    requires RelocateAll(w, s).Ok? && Fresh(s, k) && i < |Relas(s.bins[k])|
    ensures !EffectOf(w, s.bins, s.bins[k], Relas(s.bins[k])[i]).Stop?
  {
    hide EffectOf;
    FirstOkBefore(w, s, k + 1, |s.bins|);
    MarksAfter(w, s, k);
    var t := RelocateFirst(w, s, k).value;
    AllApplicable(t.mem, EffectsOf(w, s.bins, s.bins[k]));
    assert EffectsOf(w, s.bins, s.bins[k])[i] in EffectsOf(w, s.bins, s.bins[k]);
  }

  lemma {:induction false} FirstOkBefore(w: World, s: State, k: nat, n: nat)
    requires k <= n <= |s.bins| && RelocateFirst(w, s, n).Ok?
    ensures RelocateFirst(w, s, k).Ok?
    decreases n
  {
    if k < n {
      FirstOkBefore(w, s, k, n - 1);
    }
  }

  /** Binary k is not relocated, or all its effects can be applied. */
  ghost predicate TurnFine(w: World, s: State, k: nat)
    requires k < |s.bins|
  {
    Fresh(s, k) ==> forall e :: e in EffectsOf(w, s.bins, s.bins[k]) ==> Applicable(s.mem, e)
  }

  lemma TurnOkIff(w: World, s: State, k: nat)
    requires k < |s.bins|
    ensures RelocateFirst(w, s, k + 1).Ok? <==> RelocateFirst(w, s, k).Ok? && TurnFine(w, s, k)
  {
    hide EffectsOf, Applicable, ApplyAll;
    if RelocateFirst(w, s, k).Ok? {
      MarksAfter(w, s, k);
      KeysAfter(w, s, k);
      AppliesIff(s.mem, RelocateFirst(w, s, k).value.mem, EffectsOf(w, s.bins, s.bins[k]));
    }
  }

  lemma {:induction false} TurnsFine(w: World, s: State, k: nat)
    requires k <= |s.bins|
    ensures RelocateFirst(w, s, k).Ok? <==> forall j: nat :: j < k ==> TurnFine(w, s, j)
  {
    hide RelocateFirst, TurnFine;
    if k == 0 {
      NoTurns(w, s);
    } else {
      TurnOkIff(w, s, k - 1);
      TurnsFine(w, s, k - 1);
    }
  }

  lemma NoTurns(w: World, s: State)
    ensures RelocateFirst(w, s, 0) == Ok(s)
  {
  }

  lemma AppliesIff(m: Mem, m': Mem, es: seq<Effect>)
    requires m'.Keys == m.Keys
    ensures ApplyAll(m', es).Ok? <==> forall e :: e in es ==> Applicable(m, e)
  {
    hide Applicable;
    HaltsIff(m', es, |es|);
    forall e | e in es
      ensures Applicable(m', e) <==> Applicable(m, e)
    {
      SameApplicable(m, m', e);
    }
  }

  /** In terms of effects: the call halts exactly when one it reaches cannot be applied. */
  lemma HaltsOnEffect(w: World, s: State)
    ensures RelocateAll(w, s).Halt?
            <==> exists k: nat, e :: Fresh(s, k) && e in EffectsOf(w, s.bins, s.bins[k]) && !Applicable(s.mem, e)
  {
    hide EffectsOf, Applicable, RelocateFirst;
    TurnsFine(w, s, |s.bins|);
    if k: nat :| k < |s.bins| && !TurnFine(w, s, k) {
      var e :| e in EffectsOf(w, s.bins, s.bins[k]) && !Applicable(s.mem, e);
      assert Fresh(s, k);
    } else {
      forall k: nat, e | Fresh(s, k) && e in EffectsOf(w, s.bins, s.bins[k])
        ensures Applicable(s.mem, e)
      {
        assert TurnFine(w, s, k);
      }
    }
  }

  /** What record r of b needs of the memory m: its symbol index is in range, its
      type supported, its name defined where that is required, and what it reads
      and writes mapped. The source of a copy is read as a word too. */
  ghost predicate Possible(w: World, m: Mem, bins: seq<Binary>, b: Binary, r: Rela) {
    r.sym < |b.syms| &&
    var name, a := b.syms[r.sym].name, U64(b.base + r.offset);
    match r.kind
    case GlobDat => name in w.libcMap || DlsymAddr(bins, name).Some? ==> Mapped(m, a, 8)
    case JumpSlot => name in w.libcMap || DlsymAddr(bins, name).Some? ==> Mapped(m, a, 8)
    case Abs64 => name in w.libcMap || DlsymAddr(bins, name).Some? ==> Mapped(m, a, 8)
    case Relative => Mapped(m, a, 8)
    case Irelative => Mapped(m, a, 8)
    case Dtpmod64 => Mapped(m, a, 8)
    case Dtpoff64 => true
    case Tpoff64 => (Scan(bins, name, TlsDefinition, 0).Some? || name in w.libcTls) && Mapped(m, a, 8)
    case Copy =>
      if name in w.libcMap then Mapped(m, w.libcMap[name], 8) && Mapped(m, a, 8) else
      Search(bins, name, true).Some? &&
      var p := Search(bins, name, true).value;
      var src, n := U64(bins[p.bin].base + bins[p.bin].syms[p.sym].value), bins[p.bin].syms[p.sym].size;
      Mapped(m, src, 8) && Mapped(m, src, n) && Mapped(m, a, n)
    case Unsupported => false
  }

  lemma PossibleIff(w: World, m: Mem, bins: seq<Binary>, b: Binary, r: Rela)
    ensures Applicable(m, EffectOf(w, bins, b, r)) <==> Possible(w, m, bins, b, r)
  {
    hide Mapped, U64, Search, Scan, DlsymAddr;
    assert r.sym < |b.syms| ==> U64(b.base + r.offset) == Target(b, r);
  }

  /** Relocate halts exactly when some record of either table of a binary it
      relocates is not possible in the memory before the call. */
  lemma RelocateHaltsIff(w: World, s: State)
    ensures RelocateAll(w, s).Halt?
            <==> exists k: nat, r ::
                   && Fresh(s, k) && (r in s.bins[k].pltrelas || r in s.bins[k].relas)
                   && !Possible(w, s.mem, s.bins, s.bins[k], r)
  {
    hide RelocateFirst, Applicable, Possible, EffectOf;
    HaltsOnEffect(w, s);
    if RelocateAll(w, s).Halt? {
      var k: nat, e :| Fresh(s, k) && e in EffectsOf(w, s.bins, s.bins[k]) && !Applicable(s.mem, e);
      var es := EffectsOf(w, s.bins, s.bins[k]);
      var i :| 0 <= i < |es| && es[i] == e;
      var r := Relas(s.bins[k])[i];
      PossibleIff(w, s.mem, s.bins, s.bins[k], r);
      assert r in s.bins[k].pltrelas || r in s.bins[k].relas;
    }
    if k: nat, r :| && Fresh(s, k) && (r in s.bins[k].pltrelas || r in s.bins[k].relas)
                    && !Possible(w, s.mem, s.bins, s.bins[k], r) {
      var i := RecordIndex(s.bins[k], r);
      PossibleIff(w, s.mem, s.bins, s.bins[k], r);
      assert EffectsOf(w, s.bins, s.bins[k])[i] in EffectsOf(w, s.bins, s.bins[k]);
    }
  }
}

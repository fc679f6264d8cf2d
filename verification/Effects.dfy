/** What single relocations do to memory, and what a list of them does. */
module Effects {
  import opened Words
  import opened Memory
  import opened Outcomes

  /** A relocation's effect, fixed before memory is touched. */
  datatype Effect =
    | Nothing
    | Put(dst: nat, word: u64)
    | CopyFrom(dst: nat, src: nat, n: nat)
    | Stop

  /** A copy also reads the first word of its source. */
  predicate Applicable(m: Mem, e: Effect) {
    match e
    case Nothing => true
    case Put(dst, _) => Mapped(m, dst, 8)
    case CopyFrom(dst, src, n) => Mapped(m, src, 8) && Mapped(m, src, n) && Mapped(m, dst, n)
    case Stop => false
  }

  function Apply(m: Mem, e: Effect): (r: Result<Mem>) {
    if !Applicable(m, e) then Halt else
    match e
    case Nothing => Ok(m)
    case Put(dst, word) => Ok(Store(m, dst, Bytes(word, 8)))
    case CopyFrom(dst, src, n) => Ok(Store(m, dst, Fetch(m, src, n)))
  }

  /** The memory after the first k effects. */
  function ApplyFirst(m: Mem, es: seq<Effect>, k: nat): (r: Result<Mem>)
    requires k <= |es|
  {
    if k == 0 then Ok(m) else
    var m' :- ApplyFirst(m, es, k - 1);
    Apply(m', es[k - 1])
  }

  function ApplyAll(m: Mem, es: seq<Effect>): (r: Result<Mem>) {
    ApplyFirst(m, es, |es|)
  }

  /** e writes address a. */
  predicate Touches(e: Effect, a: nat) {
    match e
    case Put(dst, _) => dst <= a < dst + 8
    case CopyFrom(dst, _, n) => dst <= a < dst + n
    case _ => false
  }

  /** e reads address a. */
  predicate Reads(e: Effect, a: nat) {
    e.CopyFrom? && e.src <= a < e.src + e.n
  }

  /** The byte e writes at a, when it reads from m. */
  function ByteOf(e: Effect, m: Mem, a: nat): (b: byte)
    requires Touches(e, a) && Applicable(m, e)
  {
    match e
    case Put(dst, word) => Bytes(word, 8)[a - dst]
    case CopyFrom(dst, src, _) => m[src + (a - dst)]
  }

  /** Different effects write different addresses. */
  ghost predicate NoClash(es: seq<Effect>) {
    forall e, f, a: nat :: e in es && f in es && Touches(e, a) && Touches(f, a) ==> e == f
  }

  /** Nothing e reads is written. */
  ghost predicate ReadsClean(es: seq<Effect>, e: Effect) {
    forall f, a: nat :: f in es && Reads(e, a) ==> !Touches(f, a)
  }

  /** The address whose byte a copy e puts at a. */
  function SourceOf(e: Effect, a: nat): (from: nat)
    requires e.CopyFrom? && Touches(e, a)
  {
    e.src + (a - e.dst)
  }

  /** The byte at a, if it is copied, is copied from a byte nothing writes. */
  ghost predicate CleanAt(es: seq<Effect>, a: nat) {
    forall e, f :: e in es && f in es && Touches(e, a) && e.CopyFrom? ==> !Touches(f, SourceOf(e, a))
  }

  ghost predicate Separate(es: seq<Effect>) {
    NoClash(es) && forall e :: e in es ==> ReadsClean(es, e)
  }

  lemma ApplyKeys(m: Mem, e: Effect)
    requires Apply(m, e).Ok?
    ensures Apply(m, e).value.Keys == m.Keys
  {
  }

  lemma ApplyByte(m: Mem, e: Effect, a: nat)
    requires Apply(m, e).Ok? && a in m
    ensures a in Apply(m, e).value
    ensures Apply(m, e).value[a] == if Touches(e, a) then ByteOf(e, m, a) else m[a]
  {
    hide Bytes, Store, Fetch;
    match e
    case Nothing =>
    case Put(dst, word) => StoreAt(m, dst, Bytes(word, 8), a);
    case CopyFrom(dst, src, n) => StoreAt(m, dst, Fetch(m, src, n), a);
  }

  lemma SameApplicable(m: Mem, m': Mem, e: Effect)
    requires m.Keys == m'.Keys
    ensures Applicable(m, e) <==> Applicable(m', e)
  {
  }

  /** A list of effects halts exactly when one of them cannot be applied, and
      never maps or unmaps anything. */
  lemma {:induction false} HaltsIff(m: Mem, es: seq<Effect>, k: nat)
    requires k <= |es|
    ensures ApplyFirst(m, es, k).Ok? <==> forall i :: 0 <= i < k ==> Applicable(m, es[i])
    ensures ApplyFirst(m, es, k).Ok? ==> ApplyFirst(m, es, k).value.Keys == m.Keys
  {
    if k > 0 {
      HaltsIff(m, es, k - 1);
      if ApplyFirst(m, es, k - 1).Ok? {
        var m' := ApplyFirst(m, es, k - 1).value;
        SameApplicable(m, m', es[k - 1]);
        if Applicable(m, es[k - 1]) {
          ApplyKeys(m', es[k - 1]);
        }
      }
    }
  }

  ghost predicate TouchedBy(es: seq<Effect>, k: nat, a: nat)
    requires k <= |es|
  {
    exists i :: 0 <= i < k && Touches(es[i], a)
  }

  /** Addresses no effect writes keep their bytes. */
  lemma {:induction false} Untouched(m: Mem, es: seq<Effect>, k: nat, a: nat)
    requires k <= |es| && ApplyFirst(m, es, k).Ok? && a in m && !TouchedBy(es, k, a)
    ensures a in ApplyFirst(m, es, k).value && ApplyFirst(m, es, k).value[a] == m[a]
  {
    if k > 0 {
      assert !Touches(es[k - 1], a);
      assert !TouchedBy(es, k - 1, a);
      Untouched(m, es, k - 1, a);
      ApplyByte(ApplyFirst(m, es, k - 1).value, es[k - 1], a);
    }
  }

  /** Effects that do not clash act at once: each byte written is the one its
      effect would write on its own, from the memory before any of them. */
  lemma {:induction false} ActAtOnce(m: Mem, es: seq<Effect>, k: nat, i: nat, a: nat)
    requires i < k <= |es| && NoClash(es) && CleanAt(es, a) && ApplyFirst(m, es, k).Ok?
    requires Touches(es[i], a) && a in m && Applicable(m, es[i])
    ensures a in ApplyFirst(m, es, k).value && ApplyFirst(m, es, k).value[a] == ByteOf(es[i], m, a)
    decreases k
  {
    hide Bytes, Apply;
    var e, m' := es[k - 1], ApplyFirst(m, es, k - 1).value;
    HaltsIff(m, es, k - 1);
    ApplyByte(m', e, a);
    if Touches(e, a) {
      assert e == es[i];
      if e.CopyFrom? {
        Untouched(m, es, k - 1, SourceOf(e, a));
      }
    } else {
      ActAtOnce(m, es, k - 1, i, a);
    }
  }

  /** Where the only writer reads nothing that is written. */
  lemma ReadsCleanAt(es: seq<Effect>, e: Effect, a: nat)
    requires NoClash(es) && e in es && Touches(e, a) && ReadsClean(es, e)
    ensures CleanAt(es, a)
  {
    assert e.CopyFrom? ==> Reads(e, SourceOf(e, a));
  }

  lemma AllApplicable(m: Mem, es: seq<Effect>)
    requires ApplyAll(m, es).Ok?
    ensures forall e :: e in es ==> Applicable(m, e)
    ensures ApplyAll(m, es).value.Keys == m.Keys
  {
    HaltsIff(m, es, |es|);
  }

  /** The same effects in another order, or repeated. */
  ghost predicate Reordered(es: seq<Effect>, fs: seq<Effect>) {
    forall e :: e in es <==> e in fs
  }

  /** The same effects in another order, each as often. */
  ghost predicate Permuted(es: seq<Effect>, fs: seq<Effect>) {
    multiset(es) == multiset(fs)
  }

  lemma PermutedIsReordered(es: seq<Effect>, fs: seq<Effect>)
    requires Permuted(es, fs)
    ensures Reordered(es, fs)
  {
    forall e
      ensures e in es <==> e in fs
    {
      assert e in es <==> e in multiset(es);
      assert e in fs <==> e in multiset(fs);
    }
  }

  /** Whether effects halt does not depend on their order, whatever they copy. */
  lemma HaltsInAnyOrder(m: Mem, es: seq<Effect>, fs: seq<Effect>)
    requires Reordered(es, fs)
    ensures ApplyAll(m, es).Ok? <==> ApplyAll(m, fs).Ok?
  {
    HaltsIff(m, es, |es|);
    HaltsIff(m, fs, |fs|);
    assert forall i :: 0 <= i < |es| ==> es[i] in fs;
    assert forall i :: 0 <= i < |fs| ==> fs[i] in es;
  }

  /** Nor does any byte but a copy of a byte that is itself written. */
  lemma SameByte(m: Mem, es: seq<Effect>, fs: seq<Effect>, a: nat)
    requires NoClash(es) && CleanAt(es, a) && Reordered(es, fs)
    requires ApplyAll(m, es).Ok? && ApplyAll(m, fs).Ok? && a in m
    ensures a in ApplyAll(m, es).value && a in ApplyAll(m, fs).value
    ensures ApplyAll(m, es).value[a] == ApplyAll(m, fs).value[a]
  {
    AllApplicable(m, es);
    AllApplicable(m, fs);
    if i :| 0 <= i < |es| && Touches(es[i], a) {
      assert es[i] in fs;
      var j :| 0 <= j < |fs| && fs[j] == es[i];
      ActAtOnce(m, es, |es|, i, a);
      ActAtOnce(m, fs, |fs|, j, a);
    } else {
      Untouched(m, es, |es|, a);
      Untouched(m, fs, |fs|, a);
    }
  }

  // ---------- When the order of a copy matters ----------

  function Without(es: seq<Effect>, e: Effect): (r: seq<Effect>) {
    if es == [] then []
    else (if es[0] == e then [] else [es[0]]) + Without(es[1..], e)
  }

  lemma {:induction false} WithoutHas(es: seq<Effect>, e: Effect, f: Effect)
    ensures f in Without(es, e) <==> f in es && f != e
  {
    if es != [] {
      WithoutHas(es[1..], e, f);
      assert es == [es[0]] + es[1..];
    }
  }

  /** The occurrences of e in es. */
  function Only(es: seq<Effect>, e: Effect): (r: seq<Effect>)
    ensures forall f :: f in r ==> f == e
  {
    seq(multiset(es)[e], _ => e)
  }

  lemma {:induction false} CopiesOf(e: Effect, n: nat)
    ensures multiset(seq(n, _ => e)) == multiset{}[e := n]
  {
    if n > 0 {
      CopiesOf(e, n - 1);
      assert seq(n, _ => e) == seq(n - 1, _ => e) + [e];
    }
  }

  lemma {:induction false} WithoutCounts(es: seq<Effect>, e: Effect)
    ensures multiset(Without(es, e)) == multiset(es)[e := 0]
  {
    if es != [] {
      var rest := es[1..];
      WithoutCounts(rest, e);
      assert es == [es[0]] + rest;
      if es[0] == e {
        assert [] + Without(rest, e) == Without(rest, e);
      } else {
        assert Without(es, e) == [es[0]] + Without(rest, e);
      }
    }
  }

  /** Moving all occurrences of e to the front or to the back is an order. */
  lemma SplitOff(es: seq<Effect>, e: Effect)
    ensures Permuted(es, Only(es, e) + Without(es, e)) && Permuted(es, Without(es, e) + Only(es, e))
    ensures e in es ==> e in Only(es, e)
  {
    hide Without;
    CopiesOf(e, multiset(es)[e]);
    WithoutCounts(es, e);
    assert multiset(es) == multiset(es)[e := 0] + multiset{}[e := multiset(es)[e]];
    if e in es {
      assert e in multiset(es);
      assert Only(es, e)[0] == e;
    }
  }

  lemma AppliesAfter(m: Mem, es: seq<Effect>, fs: seq<Effect>)
    requires ApplyAll(m, es + fs).Ok?
    ensures ApplyAll(m, es).Ok? && ApplyAll(m, es + fs) == ApplyAll(ApplyAll(m, es).value, fs)
  {
    ApplyConcat(m, es, fs, |fs|);
  }

  lemma OnlyIsClean(es: seq<Effect>, e: Effect, a: nat)
    requires forall f :: f in es ==> f == e
    ensures NoClash(es) && (!Touches(e, a) ==> CleanAt(es, a))
  {
  }

  /** e first: the byte it copies is the one before any effect. */
  lemma CopiedFirst(m: Mem, es: seq<Effect>, e: Effect, a: nat)
    requires NoClash(es) && e in es && e.CopyFrom? && Touches(e, a) && a in m && ApplyAll(m, es).Ok?
    requires SourceOf(e, a) in m && !Touches(e, SourceOf(e, a))
    ensures var r := ApplyAll(m, Only(es, e) + Without(es, e));
      r.Ok? && a in r.value && r.value[a] == m[SourceOf(e, a)]
  {
    hide ApplyFirst, Touches, Applicable, SourceOf, Without, Only, ByteOf;
    var first, rest := Only(es, e), Without(es, e);
    SplitOff(es, e);
    PermutedIsReordered(es, first + rest);
    HaltsInAnyOrder(m, es, first + rest);
    AppliesAfter(m, first, rest);
    OnlyIsClean(first, e, SourceOf(e, a));
    CopyInOrder(m, first, e, a);
    forall i | 0 <= i < |rest|
      ensures !Touches(rest[i], a)
    {
      WithoutHas(es, e, rest[i]);
    }
    Untouched(ApplyAll(m, first).value, rest, |rest|, a);
  }

  /** e last: the byte it copies is the one another effect f has written. */
  lemma CopiedLast(m: Mem, es: seq<Effect>, e: Effect, f: Effect, a: nat)
    requires NoClash(es) && e in es && e.CopyFrom? && Touches(e, a) && a in m && ApplyAll(m, es).Ok?
    requires SourceOf(e, a) in m && !Touches(e, SourceOf(e, a)) && CleanAt(es, SourceOf(e, a))
    requires f in es && f != e && Touches(f, SourceOf(e, a)) && Applicable(m, f)
    ensures var r := ApplyAll(m, Without(es, e) + Only(es, e));
      r.Ok? && a in r.value && r.value[a] == ByteOf(f, m, SourceOf(e, a))
  {
    hide ApplyAll, Touches, Applicable, SourceOf, Without, Only, ByteOf, CleanAt, NoClash;
    var first, last, from := Without(es, e), Only(es, e), SourceOf(e, a);
    SplitOff(es, e);
    PermutedIsReordered(es, first + last);
    HaltsInAnyOrder(m, es, first + last);
    AppliesAfter(m, first, last);
    forall g | g in first
      ensures g in es
    {
      WithoutHas(es, e, g);
    }
    SubsetIsClean(es, first, from);
    WithoutHas(es, e, f);
    WrittenBy(m, first, f, from);
    AllApplicable(m, first);
    var m' := ApplyAll(m, first).value;
    assert a in m'.Keys;
    OnlyIsClean(last, e, from);
    CopyInOrder(m', last, e, a);
  }

  lemma SubsetIsClean(es: seq<Effect>, fs: seq<Effect>, a: nat)
    requires forall e :: e in fs ==> e in es
    ensures NoClash(es) ==> NoClash(fs)
    ensures CleanAt(es, a) ==> CleanAt(fs, a)
  {
    hide Touches, SourceOf;
  }

  // A copy that also writes its own source: only how often it is done matters.

  lemma PrefixCount(es: seq<Effect>, e: Effect, k: nat)
    requires 0 < k <= |es|
    ensures multiset(es[..k])[e] == multiset(es[..k - 1])[e] + if es[k - 1] == e then 1 else 0
  {
    assert es[..k] == es[..k - 1] + [es[k - 1]];
  }

  lemma {:induction false} CopyOnItself(m: Mem, es: seq<Effect>, k: nat, e: Effect, a: nat)
    requires k <= |es| && NoClash(es) && e in es && e.CopyFrom? && Touches(e, a) && a in m && ApplyFirst(m, es, k).Ok?
    requires SourceOf(e, a) in m && Touches(e, SourceOf(e, a)) && CleanAt(es, SourceOf(e, a))
    requires SourceOf(e, SourceOf(e, a)) in m
    ensures a in ApplyFirst(m, es, k).value && SourceOf(e, a) in ApplyFirst(m, es, k).value
    ensures var n, m', from := multiset(es[..k])[e], ApplyFirst(m, es, k).value, SourceOf(e, a);
      && m'[from] == (if n == 0 then m[from] else m[SourceOf(e, from)])
      && m'[a] == if n == 0 then m[a] else if n == 1 then m[from] else m[SourceOf(e, from)]
    decreases k
  {
    hide Bytes, Apply, Applicable;
    var from := SourceOf(e, a);
    if k > 0 {
      var f, m' := es[k - 1], ApplyFirst(m, es, k - 1).value;
      CopyOnItself(m, es, k - 1, e, a);
      PrefixCount(es, e, k);
      ApplyByte(m', f, a);
      ApplyByte(m', f, from);
      if f == e {
        Untouched(m, es, k - 1, SourceOf(e, from));
      } else {
        assert !Touches(f, a) && !Touches(f, from);
      }
    }
  }

  /** An address that only ever receives the byte it has keeps it. */
  lemma {:induction false} Constant(m: Mem, es: seq<Effect>, k: nat, a: nat)
    requires k <= |es| && NoClash(es) && CleanAt(es, a) && ApplyFirst(m, es, k).Ok? && a in m
    requires forall f :: f in es && Touches(f, a) && Applicable(m, f) ==> ByteOf(f, m, a) == m[a]
    ensures a in ApplyFirst(m, es, k).value && ApplyFirst(m, es, k).value[a] == m[a]
  {
    HaltsIff(m, es, k);
    if i :| 0 <= i < k && Touches(es[i], a) {
      ActAtOnce(m, es, k, i, a);
    } else {
      Untouched(m, es, k, a);
    }
  }

  /** A copied byte is then the one before any effect. */
  lemma {:induction false} CopyOfConstant(m: Mem, es: seq<Effect>, k: nat, i: nat, a: nat)
    requires i < k <= |es| && NoClash(es) && ApplyFirst(m, es, k).Ok? && a in m
    requires es[i].CopyFrom? && Touches(es[i], a)
    requires SourceOf(es[i], a) in m && CleanAt(es, SourceOf(es[i], a))
    requires forall f :: f in es && Touches(f, SourceOf(es[i], a)) && Applicable(m, f) ==>
      ByteOf(f, m, SourceOf(es[i], a)) == m[SourceOf(es[i], a)]
    ensures a in ApplyFirst(m, es, k).value && ApplyFirst(m, es, k).value[a] == m[SourceOf(es[i], a)]
    decreases k
  {
    hide Bytes, Apply, Applicable, CleanAt;
    var e, m' := es[k - 1], ApplyFirst(m, es, k - 1).value;
    HaltsIff(m, es, k - 1);
    ApplyByte(m', e, a);
    if Touches(e, a) {
      assert e == es[i];
      Constant(m, es, k - 1, SourceOf(e, a));
    } else {
      CopyOfConstant(m, es, k - 1, i, a);
    }
  }

  /** A copied byte whose source is not itself such a copy is the same in every
      order exactly when its source only ever receives the byte it has. */
  lemma CopyOrderIff(m: Mem, es: seq<Effect>, e: Effect, a: nat)
    requires NoClash(es) && e in es && e.CopyFrom? && Touches(e, a) && a in m && ApplyAll(m, es).Ok?
    requires CleanAt(es, SourceOf(e, a))
    ensures a in ApplyAll(m, es).value && SourceOf(e, a) in m
    ensures (forall fs :: Permuted(es, fs) ==>
              ApplyAll(m, fs).Ok? && a in ApplyAll(m, fs).value && ApplyAll(m, fs).value[a] == ApplyAll(m, es).value[a])
            <==> forall f :: f in es && f != e && Touches(f, SourceOf(e, a)) && Applicable(m, f) ==>
                   ByteOf(f, m, SourceOf(e, a)) == m[SourceOf(e, a)]
  {
    hide ApplyAll, Without, Only, Touches, Applicable, SourceOf, ByteOf, CleanAt, NoClash, Permuted;
    var from := SourceOf(e, a);
    AllApplicable(m, es);
    SourceIsMapped(m, e, a);
    assert a in m.Keys;
    if Touches(e, from) {
      OnlyWriter(es, e, from);
      forall fs | Permuted(es, fs)
        ensures ApplyAll(m, fs).Ok? && a in ApplyAll(m, fs).value
        ensures ApplyAll(m, fs).value[a] == ApplyAll(m, es).value[a]
      {
        SameCount(m, es, fs, e, a);
      }
    } else if f :| f in es && f != e && Touches(f, from) && Applicable(m, f) && ByteOf(f, m, from) != m[from] {
      SplitOff(es, e);
      CopiedFirst(m, es, e, a);
      CopiedLast(m, es, e, f, a);
    } else {
      forall fs | Permuted(es, fs)
        ensures ApplyAll(m, fs).Ok? && a in ApplyAll(m, fs).value && ApplyAll(m, fs).value[a] == m[from]
      {
        PermutedIsReordered(es, fs);
        HaltsInAnyOrder(m, es, fs);
        SubsetIsClean(es, fs, from);
        CopyInOrder(m, fs, e, a);
      }
      assert Permuted(es, es) by { PermutedToItself(es); }
    }
  }

  lemma PermutedToItself(es: seq<Effect>)
    ensures Permuted(es, es)
  {
  }

  lemma SourceIsMapped(m: Mem, e: Effect, a: nat)
    requires e.CopyFrom? && Touches(e, a) && Applicable(m, e)
    ensures SourceOf(e, a) in m
  {
  }

  lemma OnlyWriter(es: seq<Effect>, e: Effect, a: nat)
    requires NoClash(es) && e in es && Touches(e, a)
    ensures forall f :: f in es && Touches(f, a) ==> f == e
  {
  }

  lemma SameCount(m: Mem, es: seq<Effect>, fs: seq<Effect>, e: Effect, a: nat)
    requires NoClash(es) && e in es && e.CopyFrom? && Touches(e, a) && a in m && ApplyAll(m, es).Ok? && Permuted(es, fs)
    requires Touches(e, SourceOf(e, a)) && CleanAt(es, SourceOf(e, a))
    ensures ApplyAll(m, fs).Ok? && a in ApplyAll(m, fs).value && a in ApplyAll(m, es).value
    ensures ApplyAll(m, fs).value[a] == ApplyAll(m, es).value[a]
  {
    hide Touches, Applicable, SourceOf, CleanAt, NoClash, ApplyFirst;
    PermutedIsReordered(es, fs);
    HaltsInAnyOrder(m, es, fs);
    AllApplicable(m, es);
    SourceIsMapped(m, e, a);
    SourceIsMapped(m, e, SourceOf(e, a));
    SubsetIsClean(es, fs, SourceOf(e, a));
    assert es[..|es|] == es && fs[..|fs|] == fs;
    CopyOnItself(m, es, |es|, e, a);
    CopyOnItself(m, fs, |fs|, e, a);
  }

  lemma WrittenBy(m: Mem, es: seq<Effect>, f: Effect, a: nat)
    requires NoClash(es) && CleanAt(es, a) && ApplyAll(m, es).Ok?
    requires f in es && Touches(f, a) && a in m && Applicable(m, f)
    ensures a in ApplyAll(m, es).value && ApplyAll(m, es).value[a] == ByteOf(f, m, a)
  {
    var i :| 0 <= i < |es| && es[i] == f;
    ActAtOnce(m, es, |es|, i, a);
  }

  lemma CopyInOrder(m: Mem, es: seq<Effect>, e: Effect, a: nat)
    requires NoClash(es) && e in es && e.CopyFrom? && Touches(e, a) && a in m && ApplyAll(m, es).Ok?
    requires SourceOf(e, a) in m && CleanAt(es, SourceOf(e, a))
    requires forall f :: f in es && Touches(f, SourceOf(e, a)) && Applicable(m, f) ==>
      ByteOf(f, m, SourceOf(e, a)) == m[SourceOf(e, a)]
    ensures a in ApplyAll(m, es).value && ApplyAll(m, es).value[a] == m[SourceOf(e, a)]
  {
    hide Touches, Applicable, SourceOf, ByteOf, CleanAt, NoClash;
    var i :| 0 <= i < |es| && es[i] == e;
    CopyOfConstant(m, es, |es|, i, a);
  }

  /** The effects of a, then those of b. */
  lemma {:induction false} ApplyConcat(m: Mem, es: seq<Effect>, fs: seq<Effect>, k: nat)
    requires k <= |fs|
    ensures ApplyFirst(m, es + fs, |es| + k)
            == match ApplyAll(m, es) case Ok(m') => ApplyFirst(m', fs, k) case Halt => Halt
  {
    if k == 0 {
      SamePrefix(m, es, es + fs, |es|);
    } else {
      ApplyConcat(m, es, fs, k - 1);
      assert (es + fs)[|es| + k - 1] == fs[k - 1];
    }
  }

  lemma {:induction false} SamePrefix(m: Mem, es: seq<Effect>, all: seq<Effect>, k: nat)
    requires es <= all && k <= |es|
    ensures ApplyFirst(m, all, k) == ApplyFirst(m, es, k)
  {
    if k > 0 {
      SamePrefix(m, es, all, k - 1);
    }
  }

  /** The result of separate effects, or that there is none, does not depend on
      their order or on repetition. */
  lemma OrderIndependent(m: Mem, es: seq<Effect>, fs: seq<Effect>)
    requires Separate(es) && Reordered(es, fs)
    ensures ApplyAll(m, es) == ApplyAll(m, fs)
  {
    hide ApplyFirst;
    HaltsInAnyOrder(m, es, fs);
    if ApplyAll(m, es).Ok? {
      AllApplicable(m, es);
      AllApplicable(m, fs);
      forall a | a in m
        ensures a in ApplyAll(m, es).value && a in ApplyAll(m, fs).value
        ensures ApplyAll(m, es).value[a] == ApplyAll(m, fs).value[a]
      {
        SeparateIsClean(es, a);
        SameByte(m, es, fs, a);
      }
      assert ApplyAll(m, es).value == ApplyAll(m, fs).value;
    }
  }

  lemma SeparateIsClean(es: seq<Effect>, a: nat)
    requires Separate(es)
    ensures CleanAt(es, a)
  {
    if e :| e in es && Touches(e, a) {
      ReadsCleanAt(es, e, a);
    }
  }
}

/** The constructor loop of DynLoader::Execute: DT_INIT and DT_INIT_ARRAY of
    every binary, the last loaded first. */
module Constructors {
  import opened Words
  import opened Memory
  import opened Outcomes
  import opened Elf
  import opened LoadOrder
  import opened BreadthFirst

  /** Entries j..n of the array at a, up to the first null one. */
  function ArrayFrom(m: Mem, a: nat, j: nat, n: nat): (r: Result<seq<nat>>)
    requires j <= n
    decreases n - j
  {
    if j == n then Ok([])
    else if !Mapped(m, a + 8 * j, 8) then Halt
    else if WordAt(m, a + 8 * j) == 0 then Ok([])
    else
      Behind<nat>([WordAt(m, a + 8 * j)], ArrayFrom(m, a, j + 1, n))
  }

  function InitCall(b: Binary): (r: seq<nat>) {
    if b.dyn.Scalar(DtInit) == 0 then [] else [U64(b.dyn.Scalar(DtInit) + b.base)]
  }

  /** The functions called for b, in order. */
  function FunctionsOf(m: Mem, b: Binary): (r: Result<seq<nat>>) {
    var sz := b.dyn.Scalar(DtInitArraysz);
    if sz % 8 != 0 then Halt else
    Behind<nat>(InitCall(b), ArrayFrom(m, U64(b.dyn.Scalar(DtInitArray) + b.base), 0, sz / 8))
  }

  /** A call of the function at fn for binary bin. */
  datatype Entry = Entry(bin: nat, fn: nat)

  /** The functions fs, called for binary i. */
  function Stamped(i: nat, fs: seq<nat>): (r: seq<Entry>)
    ensures |r| == |fs| && forall j :: 0 <= j < |r| ==> r[j] == Entry(i, fs[j])
  {
    seq(|fs|, j requires 0 <= j < |fs| => Entry(i, fs[j]))
  }

  /** The calls for binaries i-1 down to 0. */
  function Trace(m: Mem, bins: seq<Binary>, i: nat): (r: Result<seq<Entry>>)
    requires i <= |bins|
  {
    if i == 0 then Ok([]) else
    var fs :- FunctionsOf(m, bins[i - 1]);
    Behind(Stamped(i - 1, fs), Trace(m, bins, i - 1))
  }

  /** The calls for binary i in a trace. */
  function CallsFor(tr: seq<Entry>, i: nat): (r: seq<nat>) {
    if tr == [] then []
    else (if tr[0].bin == i then [tr[0].fn] else []) + CallsFor(tr[1..], i)
  }

  lemma {:induction false} CallsForConcat(s: seq<Entry>, t: seq<Entry>, i: nat)
    ensures CallsFor(s + t, i) == CallsFor(s, i) + CallsFor(t, i)
  {
    if s == [] {
      assert s + t == t;
    } else {
      assert (s + t)[1..] == s[1..] + t;
      CallsForConcat(s[1..], t, i);
      var first := if s[0].bin == i then [s[0].fn] else [];
      assert first + (CallsFor(s[1..], i) + CallsFor(t, i)) == first + CallsFor(s[1..], i) + CallsFor(t, i);
    }
  }

  lemma {:induction false} CallsForStamped(fs: seq<nat>, k: nat, i: nat)
    ensures CallsFor(Stamped(k, fs), i) == if k == i then fs else []
  {
    if fs != [] {
      assert Stamped(k, fs)[1..] == Stamped(k, fs[1..]);
      CallsForStamped(fs[1..], k, i);
    }
  }

  /** A trace never goes back to a binary loaded later. */
  ghost predicate Descends(tr: seq<Entry>, n: nat) {
    && (forall p :: 0 <= p < |tr| ==> tr[p].bin < n)
    && (forall p, q :: 0 <= p <= q < |tr| ==> tr[q].bin <= tr[p].bin)
  }

  lemma {:induction false} TraceDescends(m: Mem, bins: seq<Binary>, n: nat)
    requires n <= |bins| && Trace(m, bins, n).Ok?
    ensures Descends(Trace(m, bins, n).value, n)
  {
    hide FunctionsOf, Stamped;
    if n > 0 {
      TraceDescends(m, bins, n - 1);
    }
  }

  /** Every binary's functions are called exactly once and in order. */
  lemma {:induction false} TraceIsExact(m: Mem, bins: seq<Binary>, n: nat, i: nat)
    requires i < n <= |bins| && Trace(m, bins, n).Ok?
    ensures FunctionsOf(m, bins[i]) == Ok(CallsFor(Trace(m, bins, n).value, i))
    decreases n
  {
    hide FunctionsOf, CallsFor, Stamped;
    var rest, fs := Trace(m, bins, n - 1).value, FunctionsOf(m, bins[n - 1]).value;
    CallsForConcat(Stamped(n - 1, fs), rest, i);
    CallsForStamped(fs, n - 1, i);
    if i == n - 1 {
      TraceDescends(m, bins, n - 1);
      NoCalls(rest, i);
      assert fs + [] == fs;
    } else {
      TraceIsExact(m, bins, n - 1, i);
      assert [] + CallsFor(rest, i) == CallsFor(rest, i);
    }
  }

  lemma {:induction false} NoCalls(tr: seq<Entry>, i: nat)
    requires forall p :: 0 <= p < |tr| ==> tr[p].bin != i
    ensures CallsFor(tr, i) == []
  {
    if tr != [] {
      NoCalls(tr[1..], i);
    }
  }

  /** An array without null entries is called in full and in order. */
  lemma {:induction false} WholeArrayCalled(m: Mem, a: nat, j: nat, n: nat)
    requires j <= n && ArrayFrom(m, a, j, n).Ok?
    requires forall k :: j <= k < n ==> Mapped(m, a + 8 * k, 8) && WordAt(m, a + 8 * k) != 0
    ensures |ArrayFrom(m, a, j, n).value| == n - j
    ensures forall k :: 0 <= k < n - j ==>
      Mapped(m, a + 8 * (j + k), 8) && ArrayFrom(m, a, j, n).value[k] == WordAt(m, a + 8 * (j + k))
    decreases n - j
  {
    hide WordAt, Mapped;
    if j < n {
      WholeArrayCalled(m, a, j + 1, n);
      forall k | 0 <= k < n - j
        ensures Mapped(m, a + 8 * (j + k), 8) && ArrayFrom(m, a, j, n).value[k] == WordAt(m, a + 8 * (j + k))
      {
        if k > 0 {
          assert a + 8 * (j + 1 + (k - 1)) == a + 8 * (j + k);
        }
      }
    }
  }

  /** The entries called are the words of the array in order, and end before the first null one. */
  lemma {:induction false} ArrayCalls(m: Mem, a: nat, j: nat, n: nat)
    requires j <= n && ArrayFrom(m, a, j, n).Ok?
    ensures var r := ArrayFrom(m, a, j, n).value;
      && j + |r| <= n
      && (forall k: nat :: j <= k < j + |r| ==>
            Mapped(m, a + 8 * k, 8) && WordAt(m, a + 8 * k) != 0 && r[k - j] == WordAt(m, a + 8 * k))
      && (j + |r| < n ==> Mapped(m, a + 8 * (j + |r|), 8) && WordAt(m, a + 8 * (j + |r|)) == 0)
    decreases n - j
  {
    hide WordAt, Mapped;
    if j < n && WordAt(m, a + 8 * j) != 0 {
      ArrayCalls(m, a, j + 1, n);
    }
  }

  /** What a trace calls for binary i: first DT_INIT plus the base address, if
      DT_INIT is not zero, and then the words at DT_INIT_ARRAY plus the base
      address, DT_INIT_ARRAYSZ / 8 of them, up to the first null one. */
  lemma TraceCalls(m: Mem, bins: seq<Binary>, i: nat)
    requires i < |bins| && Trace(m, bins, |bins|).Ok?
    ensures var b, calls := bins[i], CallsFor(Trace(m, bins, |bins|).value, i);
      var init, sz := b.dyn.Scalar(DtInit), b.dyn.Scalar(DtInitArraysz);
      var a := U64(b.dyn.Scalar(DtInitArray) + b.base);
      var first := if init != 0 then 1 else 0;
      && sz % 8 == 0
      && first <= |calls| <= first + sz / 8
      && (init != 0 ==> calls[0] == U64(init + b.base))
      && (forall k: nat :: k < |calls| - first ==>
            Mapped(m, a + 8 * k, 8) && WordAt(m, a + 8 * k) != 0 && calls[first + k] == WordAt(m, a + 8 * k))
      && (var k := |calls| - first; k < sz / 8 ==> Mapped(m, a + 8 * k, 8) && WordAt(m, a + 8 * k) == 0)
  {
    hide Trace, CallsFor, WordAt, Mapped, U64, ArrayFrom;
    TraceIsExact(m, bins, |bins|, i);
    var b := bins[i];
    var a, n := U64(b.dyn.Scalar(DtInitArray) + b.base), b.dyn.Scalar(DtInitArraysz) / 8;
    ArrayCalls(m, a, 0, n);
  }

  /** Entries j..n of the array at a can be read up to the first null one. */
  ghost predicate Readable(m: Mem, a: nat, j: nat, n: nat) {
    forall k: nat :: j <= k < n && NonNull(m, a, j, k) ==> Mapped(m, a + 8 * k, 8)
  }

  ghost predicate NonNull(m: Mem, a: nat, j: nat, k: nat) {
    forall l: nat :: j <= l < k ==> Mapped(m, a + 8 * l, 8) && WordAt(m, a + 8 * l) != 0
  }

  lemma {:induction false} ArrayOkIff(m: Mem, a: nat, j: nat, n: nat)
    requires j <= n
    ensures ArrayFrom(m, a, j, n).Ok? <==> Readable(m, a, j, n)
    decreases n - j
  {
    hide WordAt, Mapped;
    if j < n {
      assert NonNull(m, a, j, j);
      if !Mapped(m, a + 8 * j, 8) {
        assert !Readable(m, a, j, n);
      } else if WordAt(m, a + 8 * j) == 0 {
        assert forall k: nat :: j < k ==> !NonNull(m, a, j, k);
        assert Readable(m, a, j, n);
      } else {
        ArrayOkIff(m, a, j + 1, n);
        forall k: nat | j < k < n
          ensures NonNull(m, a, j + 1, k) <==> NonNull(m, a, j, k)
        {
        }
        hide NonNull;
        forall k: nat | j <= k < n && NonNull(m, a, j, k) && Readable(m, a, j + 1, n)
          ensures Mapped(m, a + 8 * k, 8)
        {
        }
        forall k: nat | j + 1 <= k < n && NonNull(m, a, j + 1, k) && Readable(m, a, j, n)
          ensures Mapped(m, a + 8 * k, 8)
        {
          assert NonNull(m, a, j, k);
        }
      }
    }
  }

  /** The calls can be made exactly when every array has whole entries and can be
      read up to its first null one. */
  lemma {:induction false} TraceOkIff(m: Mem, bins: seq<Binary>, n: nat)
    requires n <= |bins|
    ensures Trace(m, bins, n).Ok?
            <==> forall i :: 0 <= i < n ==>
                   var sz := bins[i].dyn.Scalar(DtInitArraysz);
                   sz % 8 == 0 && Readable(m, U64(bins[i].dyn.Scalar(DtInitArray) + bins[i].base), 0, sz / 8)
  {
    hide ArrayFrom, Readable, U64;
    if n > 0 {
      TraceOkIff(m, bins, n - 1);
      var sz := bins[n - 1].dyn.Scalar(DtInitArraysz);
      ArrayOkIff(m, U64(bins[n - 1].dyn.Scalar(DtInitArray) + bins[n - 1].base), 0, sz / 8);
    }
  }

  /** All calls for u come after all calls for v. */
  ghost predicate After(tr: seq<Entry>, u: nat, v: nat) {
    forall p, q :: 0 <= p < |tr| && 0 <= q < |tr| && tr[p].bin == v && tr[q].bin == u ==> p < q
  }

  ghost predicate HasCalls(tr: seq<Entry>, i: nat) {
    exists p :: 0 <= p < |tr| && tr[p].bin == i
  }

  lemma AfterIff(m: Mem, bins: seq<Binary>, n: nat, u: nat, v: nat)
    requires n <= |bins| && Trace(m, bins, n).Ok? && u != v
    requires HasCalls(Trace(m, bins, n).value, u) && HasCalls(Trace(m, bins, n).value, v)
    ensures After(Trace(m, bins, n).value, u, v) <==> u < v
  {
    hide Trace;
    TraceDescends(m, bins, n);
    var tr := Trace(m, bins, n).value;
    var p :| 0 <= p < |tr| && tr[p].bin == v;
    var q :| 0 <= q < |tr| && tr[q].bin == u;
  }

  /** The constructors of a binary run before those of the binary that first
      asked for it, and main's run last. */
  lemma AskedRunsFirst(m: Mem, s: State, k: nat)
    requires Explained(s) && Trace(m, s.bins, |s.bins|).Ok? && k < |s.bins|
    ensures s.log[k].Needed? ==> After(Trace(m, s.bins, |s.bins|).value, s.log[k].asker, k)
    ensures k > 0 ==> After(Trace(m, s.bins, |s.bins|).value, 0, k)
  {
    hide Trace;
    TraceDescends(m, s.bins, |s.bins|);
  }

  /** The gABI's rule: a binary's constructors run after those of every binary it needs. */
  ghost predicate DependenciesFirst(tr: seq<Entry>, s: State) {
    forall u, v :: Edge(s, u, v) && u != v ==> After(tr, u, v)
  }

  /** b has something to call: a DT_INIT function, or a first array entry that is not null. */
  predicate HasConstructors(m: Mem, b: Binary) {
    || b.dyn.Scalar(DtInit) != 0
    || (b.dyn.Scalar(DtInitArraysz) >= 8
        && var a := U64(b.dyn.Scalar(DtInitArray) + b.base); Mapped(m, a, 8) && WordAt(m, a) != 0)
  }

  lemma HasConstructorsIff(m: Mem, b: Binary)
    requires FunctionsOf(m, b).Ok?
    ensures FunctionsOf(m, b).value != [] <==> HasConstructors(m, b)
  {
    hide WordAt, Mapped, U64;
    var a, n := U64(b.dyn.Scalar(DtInitArray) + b.base), b.dyn.Scalar(DtInitArraysz) / 8;
    assert a + 8 * 0 == a;
    assert FunctionsOf(m, b) == Behind<nat>(InitCall(b), ArrayFrom(m, a, 0, n));
  }

  lemma {:induction false} CalledIff(tr: seq<Entry>, i: nat)
    ensures CallsFor(tr, i) != [] <==> HasCalls(tr, i)
  {
    if tr != [] {
      CalledIff(tr[1..], i);
      if HasCalls(tr, i) && tr[0].bin != i {
        var p :| 0 <= p < |tr| && tr[p].bin == i;
        assert tr[1..][p - 1] == tr[p];
      }
      if HasCalls(tr[1..], i) {
        var p :| 0 <= p < |tr[1..]| && tr[1..][p].bin == i;
        assert tr[p + 1].bin == i;
      }
    }
  }

  lemma HasCallsIff(m: Mem, bins: seq<Binary>, i: nat)
    requires Trace(m, bins, |bins|).Ok? && i < |bins|
    ensures HasCalls(Trace(m, bins, |bins|).value, i) <==> HasConstructors(m, bins[i])
  {
    hide Trace, FunctionsOf, CallsFor, HasConstructors;
    TraceIsExact(m, bins, |bins|, i);
    CalledIff(Trace(m, bins, |bins|).value, i);
    HasConstructorsIff(m, bins[i]);
  }

  /** The loader keeps the rule exactly when no binary with constructors needs
      one with constructors that was loaded before it. */
  lemma DependenciesFirstIff(m: Mem, s: State)
    requires |s.log| == |s.bins| && Trace(m, s.bins, |s.bins|).Ok?
    ensures DependenciesFirst(Trace(m, s.bins, |s.bins|).value, s)
            <==> forall u: nat, v: nat ::
                   Edge(s, u, v) && HasConstructors(m, s.bins[u]) && HasConstructors(m, s.bins[v]) ==> u <= v
  {
    hide Trace, HasConstructors, HasCalls;
    var tr := Trace(m, s.bins, |s.bins|).value;
    forall u: nat, v: nat | Edge(s, u, v) && u != v
      ensures After(tr, u, v) <==> (HasConstructors(m, s.bins[u]) && HasConstructors(m, s.bins[v]) ==> u < v)
    {
      HasCallsIff(m, s.bins, u);
      HasCallsIff(m, s.bins, v);
      if HasCalls(tr, u) && HasCalls(tr, v) {
        AfterIff(m, s.bins, |s.bins|, u, v);
      } else {
        AfterNothing(tr, u, v);
      }
    }
  }

  lemma AfterNothing(tr: seq<Entry>, u: nat, v: nat)
    requires !HasCalls(tr, u) || !HasCalls(tr, v)
    ensures After(tr, u, v)
  {
  }
}

/** DynLoader::SearchSym and the addresses it leads to. */
module Symbols {
  import opened Words
  import opened Outcomes
  import opened Elf

  /** The three conditions the loader scans symbol tables for. */
  datatype Want = Definition | WeakReference | TlsDefinition

  predicate Matches(s: Sym, name: string, want: Want) {
    s.name == name &&
    match want
    case Definition => s.defined
    case WeakReference => !s.defined && s.weak
    case TlsDefinition => s.defined && s.tls
  }

  /** The place of a symbol: index of its binary, index in that symbol table. */
  datatype Place = Place(bin: nat, sym: nat)

  predicate Here(bins: seq<Binary>, p: Place) {
    p.bin < |bins| && p.sym < |bins[p.bin].syms|
  }

  predicate MatchesAt(bins: seq<Binary>, p: Place, name: string, want: Want) {
    Here(bins, p) && Matches(bins[p.bin].syms[p.sym], name, want)
  }

  /** Load order, then symbol table order. */
  predicate Precedes(p: Place, q: Place) {
    p.bin < q.bin || (p.bin == q.bin && p.sym < q.sym)
  }

  function ScanSyms(syms: seq<Sym>, name: string, want: Want, j: nat): (r: Option<nat>)
    requires j <= |syms|
    ensures r.Some? ==> j <= r.value < |syms| && Matches(syms[r.value], name, want)
    ensures forall k :: j <= k < (if r.Some? then r.value else |syms|) ==> !Matches(syms[k], name, want)
    decreases |syms| - j
  {
    if j == |syms| then None
    else if Matches(syms[j], name, want) then Some(j)
    else ScanSyms(syms, name, want, j + 1)
  }

  /** The first place from binary i on whose symbol matches. */
  function Scan(bins: seq<Binary>, name: string, want: Want, i: nat): (r: Option<Place>)
    requires i <= |bins|
    ensures r.Some? ==> i <= r.value.bin && MatchesAt(bins, r.value, name, want)
    ensures forall p :: MatchesAt(bins, p, name, want) && i <= p.bin ==> r.Some? && !Precedes(p, r.value)
    decreases |bins| - i
  {
    if i == |bins| then None
    else
      var j := ScanSyms(bins[i].syms, name, want, 0);
      if j.Some? then Some(Place(i, j.value)) else Scan(bins, name, want, i + 1)
  }

  /** SearchSym: the first definition, or failing that the first weak reference,
      leaving out the main binary on request. */
  function Search(bins: seq<Binary>, name: string, skipMain: bool): (r: Option<Place>)
    ensures r.Some? ==> Here(bins, r.value)
  {
    var i := if skipMain && |bins| > 0 then 1 else 0;
    var d := Scan(bins, name, Definition, i);
    if d.Some? then d else Scan(bins, name, WeakReference, i)
  }

  /** y defines the name, or refers to it weakly: what st_shndx and the binding say. */
  predicate Defines(y: Sym, name: string) {
    y.name == name && y.defined
  }

  predicate Weakly(y: Sym, name: string) {
    y.name == name && !y.defined && y.weak
  }

  /** p is the first place from binary i on whose symbol has the property. */
  ghost predicate FirstPlace(bins: seq<Binary>, i: nat, p: Place, has: Sym -> bool) {
    && i <= p.bin && Here(bins, p) && has(bins[p.bin].syms[p.sym])
    && forall q :: Here(bins, q) && i <= q.bin && has(bins[q.bin].syms[q.sym]) ==> !Precedes(q, p)
  }

  /** SearchSym finds the first definition in load order and table order, behind
      main if main is left out; only if there is none, the first weak reference;
      and it finds nothing only if there is neither. */
  lemma SearchIsFirst(bins: seq<Binary>, name: string, skipMain: bool)
    ensures var i, r := if skipMain && |bins| > 0 then 1 else 0, Search(bins, name, skipMain);
      var someDefinition := exists q :: Here(bins, q) && i <= q.bin && Defines(bins[q.bin].syms[q.sym], name);
      && (someDefinition ==> r.Some? && FirstPlace(bins, i, r.value, y => Defines(y, name)))
      && (!someDefinition && r.Some? ==> FirstPlace(bins, i, r.value, y => Weakly(y, name)))
      && (r.None? ==> forall q :: Here(bins, q) && i <= q.bin ==> !Weakly(bins[q.bin].syms[q.sym], name))
  {
    var i := if skipMain && |bins| > 0 then 1 else 0;
    forall q | Here(bins, q) && i <= q.bin
      ensures Defines(bins[q.bin].syms[q.sym], name) <==> MatchesAt(bins, q, name, Definition)
      ensures Weakly(bins[q.bin].syms[q.sym], name) <==> MatchesAt(bins, q, name, WeakReference)
    {
    }
  }

  /** TLSSymOffset looks for the first definition of type STT_TLS. */
  lemma TlsScanIsFirst(bins: seq<Binary>, name: string)
    ensures var r := Scan(bins, name, TlsDefinition, 0);
      && (r.Some? ==> FirstPlace(bins, 0, r.value, y => Defines(y, name) && y.tls))
      && (r.None? ==>
            forall q :: Here(bins, q) ==> !(Defines(bins[q.bin].syms[q.sym], name) && bins[q.bin].syms[q.sym].tls))
  {
    forall q | Here(bins, q)
      ensures Defines(bins[q.bin].syms[q.sym], name) && bins[q.bin].syms[q.sym].tls
              <==> MatchesAt(bins, q, name, TlsDefinition)
    {
    }
  }

  /** dlsym returns the symbol's value plus its binary's base address. */
  lemma DlsymAddrIs(bins: seq<Binary>, name: string)
    ensures DlsymAddr(bins, name).Some? <==> Search(bins, name, false).Some?
    ensures var p := Search(bins, name, false); p.Some? ==>
      DlsymAddr(bins, name) == Some(U64(bins[p.value.bin].base + bins[p.value.bin].syms[p.value.sym].value))
  {
  }

  function SymbolAddr(bins: seq<Binary>, p: Place): (a: u64)
    requires Here(bins, p)
  {
    U64(bins[p.bin].syms[p.sym].value + bins[p.bin].base)
  }

  /** The address sloader_dlsym returns; None is its failed CHECK. */
  function DlsymAddr(bins: seq<Binary>, name: string): (a: Option<u64>) {
    var p := Search(bins, name, false);
    if p.Some? then Some(SymbolAddr(bins, p.value)) else None
  }

  /** S in the psABI's relocation formulas: the libc override if there is one,
      otherwise the address of the symbol found. */
  function Resolve(w: World, bins: seq<Binary>, name: string): (a: Option<u64>) {
    if name in w.libcMap then Some(w.libcMap[name]) else DlsymAddr(bins, name)
  }

  ghost predicate Defined(bins: seq<Binary>, name: string) {
    exists p :: MatchesAt(bins, p, name, Definition)
  }

  /** A found definition is the first one, whatever is loaded behind it. */
  lemma {:induction false} ScanStable(bins: seq<Binary>, more: seq<Binary>, name: string, want: Want, i: nat)
    requires i <= |bins| && Scan(bins, name, want, i).Some?
    ensures Scan(bins + more, name, want, i) == Scan(bins, name, want, i)
    decreases |bins| - i
  {
  }

  /** Once a name has a definition, loading more binaries does not move it. */
  lemma DefinitionStable(bins: seq<Binary>, more: seq<Binary>, name: string)
    requires Defined(bins, name)
    ensures Defined(bins + more, name)
    ensures Search(bins + more, name, false) == Search(bins, name, false)
    ensures DlsymAddr(bins + more, name) == DlsymAddr(bins, name) != None
  {
    var p :| MatchesAt(bins, p, name, Definition);
    assert MatchesAt(bins + more, p, name, Definition);
    ScanStable(bins, more, name, Definition, 0);
    var q := Search(bins, name, false).value;
    assert (bins + more)[q.bin] == bins[q.bin];
  }

  /** The first definition to be loaded takes a name over, weakly bound or not. */
  lemma NewDefinitionWins(bins: seq<Binary>, more: seq<Binary>, name: string)
    requires !Defined(bins, name) && Defined(bins + more, name)
    ensures Search(bins + more, name, false).Some? && Search(bins + more, name, false).value.bin >= |bins|
    ensures Search(bins + more, name, false) != Search(bins, name, false)
  {
    var all := bins + more;
    var q :| MatchesAt(all, q, name, Definition);
    var p := Scan(all, name, Definition, 0).value;
    if p.bin < |bins| {
      assert MatchesAt(bins, p, name, Definition);
    }
  }

  /** Without a definition, a weak reference keeps its place. */
  lemma WeakStable(bins: seq<Binary>, more: seq<Binary>, name: string)
    requires !Defined(bins + more, name) && !Defined(bins, name) && Search(bins, name, false).Some?
    ensures Search(bins + more, name, false) == Search(bins, name, false)
  {
    ScanStable(bins, more, name, WeakReference, 0);
  }

  /** A binary at address 0 that only defines name, at v. */
  function Definer(name: string, v: u64): (b: Binary) {
    Binary([], 0, [], None, 0, 0, DynInfo([], None, None, map[]), [], [], [Sym(name, v, 0, true, false, false)])
  }

  lemma DefinerTakesOver(bins: seq<Binary>, name: string, v: u64)
    requires !Defined(bins, name)
    ensures DlsymAddr(bins + [Definer(name, v)], name) == Some(v)
  {
    var all := bins + [Definer(name, v)];
    var q := Place(|bins|, 0);
    assert MatchesAt(all, q, name, Definition);
    var p := Scan(all, name, Definition, 0).value;
    if p.bin < |bins| {
      assert MatchesAt(bins, p, name, Definition);
    }
  }

  /** Exactly the names with a definition keep their address whatever is loaded
      later: a weak reference is a binding a later definition takes over. */
  lemma StableIffDefined(bins: seq<Binary>, name: string)
    ensures (forall more :: DlsymAddr(bins + more, name) == DlsymAddr(bins, name)) <==> Defined(bins, name)
  {
    if Defined(bins, name) {
      forall more
        ensures DlsymAddr(bins + more, name) == DlsymAddr(bins, name)
      {
        DefinitionStable(bins, more, name);
      }
    } else {
      DefinerTakesOver(bins, name, 0);
      DefinerTakesOver(bins, name, 1);
    }
  }
}

/** The initial process stack: Execute fills an array, ExecuteCore pushes it.
    The reader's side is sections 3.4.1 and 3.4.3 of the x86-64 psABI. */
module InitialStack {
  import opened Outcomes

  datatype Aux = Aux(kind: int, val: int)

  /** AT_IGNORE, AT_PHENT, AT_PAGESZ, ... , AT_MINSIGSTKSZ, as Execute lists them. */
  const AUX_TYPES: seq<int> :=
    [1, 4, 6, 8, 10, 11, 12, 13, 14, 17, 15, 16, 18, 19, 20, 21, 22, 23, 24, 25, 26,
     32, 33, 34, 35, 36, 37, 40, 41, 42, 43, 44, 45, 46, 47, 51]

  /** The host's nonzero values for the listed types. */
  function Collected(host: int -> int, types: seq<int>): (r: seq<Aux>) {
    if types == [] then []
    else
      var n := |types| - 1;
      Collected(host, types[..n]) + if host(types[n]) == 0 then [] else [Aux(types[n], host(types[n]))]
  }

  function Zeros(n: nat): (r: seq<int>)
    ensures |r| == n
    ensures forall i :: 0 <= i < n ==> r[i] == 0
  {
    seq(n, _ => 0)
  }

  function Reverse<T>(s: seq<T>): (r: seq<T>)
    ensures |r| == |s|
  {
    if s == [] then [] else Reverse(s[1..]) + [s[0]]
  }

  /** The pairs as Execute stores them: value, then type. */
  function ValueFirst(aux: seq<Aux>): (r: seq<int>)
    ensures |r| == 2 * |aux|
  {
    if aux == [] then []
    else
      var n := |aux| - 1;
      ValueFirst(aux[..n]) + [aux[n].val, aux[n].kind]
  }

  /** The array of Execute: padding, AT_NULL, the auxiliary values, NULL, the
      environment backwards, NULL, the arguments backwards, argc. */
  function StackArray(args: seq<int>, envs: seq<int>, aux: seq<Aux>): (r: seq<int>) {
    Zeros(6) + (ValueFirst(aux) + ([0] + (Reverse(envs) + ([0] + (Reverse(args) + [|args|])))))
  }

  // ---------- The reader ----------

  datatype Init = Init(argv: seq<int>, envp: seq<int>, auxv: seq<Aux>)

  /** The index of the first zero word. */
  function FirstZero(ws: seq<int>): (r: Option<nat>) {
    if ws == [] then None
    else if ws[0] == 0 then Some(0)
    else
      var r := FirstZero(ws[1..]);
      if r.None? then None else Some(r.value + 1)
  }

  /** Pairs of type and value up to AT_NULL. */
  function ParseAux(ws: seq<int>): (r: Option<seq<Aux>>) {
    if |ws| < 2 then None
    else if ws[0] == 0 then Some([])
    else
      var r := ParseAux(ws[2..]);
      if r.None? then None else Some([Aux(ws[0], ws[1])] + r.value)
  }

  /** What a program finds going up from its stack pointer: argc, the argument
      pointers, NULL, the environment, NULL, the auxiliary vector. */
  function Parse(ws: seq<int>): (r: Option<Init>) {
    if ws == [] || ws[0] < 0 || ws[0] + 2 > |ws| || ws[ws[0] + 1] != 0 then None else
    var rest := ws[ws[0] + 2..];
    var z := FirstZero(rest);
    if z.None? || z.value >= |rest| then None else
    var auxv := ParseAux(rest[z.value + 1..]);
    if auxv.None? then None else Some(Init(ws[1..ws[0] + 1], rest[..z.value], auxv.value))
  }

  /** getauxval of a program with this vector. */
  function Lookup(auxv: seq<Aux>, t: int): (v: int) {
    if auxv == [] then 0 else if auxv[0].kind == t then auxv[0].val else Lookup(auxv[1..], t)
  }

  // ---------- Round trip ----------

  lemma {:induction false} ReverseConcat<T>(s: seq<T>, t: seq<T>)
    ensures Reverse(s + t) == Reverse(t) + Reverse(s)
  {
    if s == [] {
      assert s + t == t;
    } else {
      assert (s + t)[1..] == s[1..] + t;
      ReverseConcat(s[1..], t);
    }
  }

  lemma {:induction false} ReverseReverse<T>(s: seq<T>)
    ensures Reverse(Reverse(s)) == s
  {
    if s != [] {
      ReverseConcat(Reverse(s[1..]), [s[0]]);
      ReverseReverse(s[1..]);
    }
  }

  lemma {:induction false} ReverseHas<T>(s: seq<T>, x: T)
    ensures x in Reverse(s) <==> x in s
  {
    if s != [] {
      ReverseHas(s[1..], x);
    }
  }

  function TypeFirst(aux: seq<Aux>): (r: seq<int>)
    ensures |r| == 2 * |aux|
  {
    if aux == [] then [] else [aux[0].kind, aux[0].val] + TypeFirst(aux[1..])
  }

  lemma {:induction false} PairsReversed(aux: seq<Aux>)
    ensures Reverse(ValueFirst(aux)) == TypeFirst(Reverse(aux))
  {
    if aux != [] {
      var n := |aux| - 1;
      var last := [aux[n].val, aux[n].kind];
      PairsReversed(aux[..n]);
      ReverseConcat(ValueFirst(aux[..n]), last);
      assert Reverse<int>(last) == [aux[n].kind, aux[n].val] by { assert Reverse<int>(last[1..]) == [aux[n].kind]; }
      assert aux == aux[..n] + [aux[n]];
      ReverseConcat(aux[..n], [aux[n]]);
      assert Reverse(aux) == [aux[n]] + Reverse(aux[..n]);
    }
  }

  lemma {:induction false} ReverseZeros(n: nat)
    ensures Reverse(Zeros(n)) == Zeros(n)
  {
    if n > 0 {
      assert Zeros(n)[1..] == Zeros(n - 1);
      ReverseZeros(n - 1);
      assert Zeros(n - 1) + [0] == Zeros(n);
    }
  }

  /** Reading the array downwards, which is memory upwards. */
  lemma UpwardImage(args: seq<int>, envs: seq<int>, aux: seq<Aux>)
    ensures Reverse(StackArray(args, envs, aux))
            == [|args|] + args + [0] + envs + [0] + TypeFirst(Reverse(aux)) + Zeros(6)
  {
    hide Reverse, ValueFirst, TypeFirst, Zeros;
    var z, v, e, a, c: seq<int> := Zeros(6), ValueFirst(aux), Reverse(envs), Reverse(args), [|args|];
    var n: seq<int> := [0];
    ReverseOne(0);
    ReverseOne(|args|);
    ReverseZeros(6);
    PairsReversed(aux);
    ReverseReverse(envs);
    ReverseReverse(args);
    ReverseConcat(a, c);
    ReverseConcat(n, a + c);
    ReverseConcat(e, n + (a + c));
    ReverseConcat(n, e + (n + (a + c)));
    ReverseConcat(v, n + (e + (n + (a + c))));
    ReverseConcat(z, v + (n + (e + (n + (a + c)))));
  }

  lemma ReverseOne(x: int)
    ensures Reverse([x]) == [x]
  {
  }

  lemma {:induction false} FirstZeroAfter(s: seq<int>, t: seq<int>)
    requires forall i :: 0 <= i < |s| ==> s[i] != 0
    ensures FirstZero(s + [0] + t) == Some(|s|)
  {
    if s != [] {
      FirstZeroAfter(s[1..], t);
      assert (s + [0] + t)[1..] == s[1..] + [0] + t;
    }
  }

  lemma {:induction false} ParseAuxOf(aux: seq<Aux>, t: seq<int>)
    requires forall i :: 0 <= i < |aux| ==> aux[i].kind != 0
    requires |t| >= 2 && t[0] == 0 && t[1] == 0
    ensures ParseAux(TypeFirst(aux) + t) == Some(aux)
  {
    hide ParseAux;
    if aux == [] {
      assert TypeFirst(aux) + t == t;
      ParseAuxEnd(t);
    } else {
      ParseAuxOf(aux[1..], t);
      var first: seq<int> := [aux[0].kind, aux[0].val];
      assert first + TypeFirst(aux[1..]) + t == first + (TypeFirst(aux[1..]) + t);
      ParseAuxPair(aux[0], TypeFirst(aux[1..]) + t);
      assert aux == [aux[0]] + aux[1..];
    }
  }

  lemma ParseAuxEnd(t: seq<int>)
    requires |t| >= 2 && t[0] == 0
    ensures ParseAux(t) == Some([])
  {
  }

  lemma ParseAuxPair(a: Aux, rest: seq<int>)
    requires a.kind != 0 && ParseAux(rest).Some?
    ensures ParseAux([a.kind, a.val] + rest) == Some([a] + ParseAux(rest).value)
  {
  }

  /** For all arguments, non-null environment pointers and auxiliary values: the
      program finds the arguments and the environment in order, and the
      auxiliary pairs in reverse order, before AT_NULL. */
  lemma RoundTrip(args: seq<int>, envs: seq<int>, aux: seq<Aux>)
    requires forall i :: 0 <= i < |envs| ==> envs[i] != 0
    requires forall i :: 0 <= i < |aux| ==> aux[i].kind != 0
    ensures Parse(Reverse(StackArray(args, envs, aux))) == Some(Init(args, envs, Reverse(aux)))
  {
    hide TypeFirst, ValueFirst, StackArray, Reverse, Zeros;
    UpwardImage(args, envs, aux);
    KindsReversed(aux);
    ParseAuxOf(Reverse(aux), Zeros(6));
    ParseLayout(args, envs, TypeFirst(Reverse(aux)), Zeros(6), Reverse(aux));
  }

  lemma KindsReversed(aux: seq<Aux>)
    requires forall i :: 0 <= i < |aux| ==> aux[i].kind != 0
    ensures forall i :: 0 <= i < |Reverse(aux)| ==> Reverse(aux)[i].kind != 0
  {
  }

  lemma ParseLayout(args: seq<int>, envs: seq<int>, pairs: seq<int>, end: seq<int>, auxv: seq<Aux>)
    requires forall i :: 0 <= i < |envs| ==> envs[i] != 0
    requires ParseAux(pairs + end) == Some(auxv)
    ensures Parse([|args|] + args + [0] + envs + [0] + pairs + end) == Some(Init(args, envs, auxv))
  {
    hide ParseAux, FirstZero;
    var n := |args|;
    var ws := [n] + args + [0] + envs + [0] + pairs + end;
    var rest := envs + [0] + (pairs + end);
    Slices(args, envs, pairs, end);
    FirstZeroAfter(envs, pairs + end);
    assert rest[..|envs|] == envs && rest[|envs| + 1..] == pairs + end;
  }

  lemma Slices(args: seq<int>, envs: seq<int>, pairs: seq<int>, end: seq<int>)
    ensures var n, ws := |args|, [|args|] + args + [0] + envs + [0] + pairs + end;
      ws[0] == n && ws[1..n + 1] == args && ws[n + 1] == 0 && ws[n + 2..] == envs + [0] + (pairs + end)
  {
  }

  // ---------- Auxiliary values ----------

  ghost predicate Holds(auxv: seq<Aux>, host: int -> int) {
    forall i :: 0 <= i < |auxv| ==> auxv[i].val == host(auxv[i].kind)
  }

  lemma {:induction false} CollectedHolds(host: int -> int, types: seq<int>)
    ensures Holds(Collected(host, types), host)
    ensures forall a :: a in Collected(host, types) ==> a.kind in types
  {
    if types != [] {
      var n := |types| - 1;
      CollectedHolds(host, types[..n]);
      assert types[n] in types && forall t :: t in types[..n] ==> t in types;
    }
  }

  lemma {:induction false} CollectedHas(host: int -> int, types: seq<int>, t: int)
    ensures Aux(t, host(t)) in Collected(host, types) <==> t in types && host(t) != 0
  {
    if types != [] {
      var n := |types| - 1;
      CollectedHas(host, types[..n], t);
      assert types == types[..n] + [types[n]];
      assert t in types <==> t in types[..n] || t == types[n];
    }
  }

  lemma {:induction false} LookupHolds(auxv: seq<Aux>, host: int -> int, t: int)
    requires Holds(auxv, host)
    ensures Lookup(auxv, t) == if Aux(t, host(t)) in auxv then host(t) else 0
  {
    if auxv != [] {
      assert auxv[0].val == host(auxv[0].kind);
      assert Holds(auxv[1..], host) by {
        assert forall i :: 0 <= i < |auxv| - 1 ==> auxv[1..][i] == auxv[i + 1];
      }
      LookupHolds(auxv[1..], host, t);
      assert auxv == [auxv[0]] + auxv[1..];
    }
  }

  /** The program's getauxval agrees with the host's for every listed type and
      is 0 for every other. */
  lemma AuxAgrees(host: int -> int, types: seq<int>, t: int)
    ensures Lookup(Reverse(Collected(host, types)), t) == if t in types then host(t) else 0
  {
    hide Collected, Reverse, Lookup;
    var c := Collected(host, types);
    CollectedHolds(host, types);
    CollectedHas(host, types, t);
    forall i | 0 <= i < |Reverse(c)|
      ensures Reverse(c)[i].val == host(Reverse(c)[i].kind)
    {
      ReverseHas(c, Reverse(c)[i]);
    }
    ReverseHas(c, Aux(t, host(t)));
    LookupHolds(Reverse(c), host, t);
  }

  /** What Execute and ExecuteCore together give the program, for any list of
      types without AT_NULL. */
  lemma StartOfProgram(args: seq<int>, envs: seq<int>, host: int -> int, types: seq<int>, t: int)
    requires forall i :: 0 <= i < |envs| ==> envs[i] != 0
    requires 0 !in types
    ensures var i := Parse(Reverse(StackArray(args, envs, Collected(host, types))));
      && i.Some? && i.value.argv == args && i.value.envp == envs
      && Lookup(i.value.auxv, t) == if t in types then host(t) else 0
  {
    hide Parse, Reverse, StackArray, Collected, Lookup;
    CollectedHolds(host, types);
    RoundTrip(args, envs, Collected(host, types));
    AuxAgrees(host, types, t);
  }

  /** The same for the types the loader lists. */
  lemma StartWithListedTypes(args: seq<int>, envs: seq<int>, host: int -> int, t: int)
    requires forall i :: 0 <= i < |envs| ==> envs[i] != 0
    ensures var i := Parse(Reverse(StackArray(args, envs, Collected(host, AUX_TYPES))));
      && i.Some? && i.value.argv == args && i.value.envp == envs
      && Lookup(i.value.auxv, t) == if Listed(t) then host(t) else 0
  {
    hide Parse, Reverse, StackArray, Collected, Lookup;
    ListedIff(t);
    assert 0 !in AUX_TYPES;
    StartOfProgram(args, envs, host, AUX_TYPES, t);
  }

  /** The types by number: AT_IGNORE, AT_PHENT, AT_PAGESZ, AT_FLAGS, those from
      AT_NOTELF to AT_HWCAP2, from AT_SYSINFO to AT_L3_CACHESHAPE and from
      AT_L1I_CACHESIZE to AT_L3_CACHEGEOMETRY, and AT_MINSIGSTKSZ. */
  predicate Listed(t: int) {
    t == 1 || t == 4 || t == 6 || t == 8 || 10 <= t <= 26 || 32 <= t <= 37 || 40 <= t <= 47 || t == 51
  }

  lemma ListedIff(t: int)
    ensures t in AUX_TYPES <==> Listed(t)
  {
    assert t in AUX_TYPES <==>
      t in [1, 4, 6, 8, 10, 11, 12, 13, 14, 17, 15, 16, 18, 19, 20, 21, 22, 23, 24, 25, 26,
            32, 33, 34, 35, 36, 37, 40, 41, 42, 43, 44, 45, 46, 47, 51];
  }

  /** The psABI wants the stack pointer to be a multiple of 16 at entry. With
      eight-byte pushes from sp it is one exactly for one parity of the number
      of arguments and environment strings; nothing in the loader aligns it. */
  lemma AlignedIff(args: seq<int>, envs: seq<int>, aux: seq<Aux>, sp: int)
    requires sp % 8 == 0
    ensures (sp - 8 * |StackArray(args, envs, aux)|) % 16 == 0 <==> (sp / 8 + |args| + |envs| + 1) % 2 == 0
  {
  }

  /** So with one argument and one environment string, from an aligned stack pointer, it is not. */
  lemma TwoStringsMisalign(arg: int, env: int, aux: seq<Aux>, sp: int)
    requires sp % 16 == 0
    ensures (sp - 8 * |StackArray([arg], [env], aux)|) % 16 == 8
  {
    AlignedIff([arg], [env], aux, sp);
  }

  // ---------- The code ----------

  /** The loop over the listed types. */
  method CollectAux(host: int -> int) returns (aux: seq<Aux>)
    ensures aux == Collected(host, AUX_TYPES)
  {
    aux := [];
    for i := 0 to |AUX_TYPES|
      invariant aux == Collected(host, AUX_TYPES[..i])
    {
      assert AUX_TYPES[..i + 1][..i] == AUX_TYPES[..i];
      var v := host(AUX_TYPES[i]);
      if v != 0 {
        aux := aux + [Aux(AUX_TYPES[i], v)];
      }
    }
    assert AUX_TYPES[..|AUX_TYPES|] == AUX_TYPES;
  }

  /** The part of Execute that fills the array. The final check that the index
      equals the number of words never fails. */
  method BuildStack(args: seq<int>, envs: seq<int>, aux: seq<Aux>) returns (stack: array<int>)
    ensures fresh(stack)
    ensures stack[..] == StackArray(args, envs, aux)
  {
    hide Reverse, Zeros;
    var n := 4 + 2 + 2 * |aux| + 1 + |envs| + 2 + |args|;
    stack := new int[n](_ => 0);
    var at := PutAux(stack, 6, aux);
    at := at + 1;
    assert stack[..at] == Zeros(6) + ValueFirst(aux) + [0];
    at := PutBackwards(stack, at, envs);
    at := at + 1;
    assert stack[..at] == Zeros(6) + ValueFirst(aux) + [0] + Reverse(envs) + [0];
    at := PutBackwards(stack, at, args);
    stack[at] := |args|;
    at := at + 1;
    assert at == n;
    assert stack[..] == stack[..n - 1] + [|args|];
    Nested(Zeros(6), ValueFirst(aux), Reverse(envs), Reverse(args), |args|);
  }

  lemma Nested(z: seq<int>, v: seq<int>, e: seq<int>, a: seq<int>, c: int)
    ensures z + v + [0] + e + [0] + a + [c] == z + (v + ([0] + (e + ([0] + (a + [c])))))
  {
  }

  /** The words from index at on are still zero. */
  ghost predicate ZeroFrom(stack: array<int>, at: nat)
    reads stack
  {
    forall x :: at <= x < stack.Length ==> stack[x] == 0
  }

  /** Stores the auxiliary pairs from index at on. */
  method PutAux(stack: array<int>, at: nat, aux: seq<Aux>) returns (next: nat)
    requires at + 2 * |aux| < stack.Length && ZeroFrom(stack, at)
    modifies stack
    ensures next == at + 2 * |aux| && stack[..next] == old(stack[..at]) + ValueFirst(aux) && ZeroFrom(stack, next)
  {
    next := at;
    for i := 0 to |aux|
      invariant next == at + 2 * i
      invariant stack[..next] == old(stack[..at]) + ValueFirst(aux[..i])
      invariant ZeroFrom(stack, next)
    {
      ghost var before := stack[..next];
      stack[next] := aux[i].val;
      stack[next + 1] := aux[i].kind;
      next := next + 2;
      assert stack[..next] == before + [aux[i].val, aux[i].kind];
      assert aux[..i + 1][..i] == aux[..i];
    }
    assert aux[..|aux|] == aux;
  }

  /** Stores s backwards from index at on. */
  method PutBackwards(stack: array<int>, at: nat, s: seq<int>) returns (next: nat)
    requires at + |s| < stack.Length && ZeroFrom(stack, at)
    modifies stack
    ensures next == at + |s| && stack[..next] == old(stack[..at]) + Reverse(s) && ZeroFrom(stack, next)
  {
    next := at;
    for i := 0 to |s|
      invariant next == at + i
      invariant stack[..next] == old(stack[..at]) + Reverse(s[|s| - i..])
      invariant ZeroFrom(stack, next)
    {
      ghost var before := stack[..next];
      stack[next] := s[|s| - 1 - i];
      next := next + 1;
      assert stack[..next] == before + [s[|s| - 1 - i]];
      assert s[|s| - 1 - i..][1..] == s[|s| - i..];
    }
    assert s[|s| - |s|..] == s;
  }

  /** The n words from address a upwards. */
  function Upward(words: map<int, int>, a: int, n: nat): (r: seq<int>)
    decreases n
  {
    if n == 0 then [] else [if a in words then words[a] else 0] + Upward(words, a + 8, n - 1)
  }

  lemma {:induction false} PushBelow(words: map<int, int>, sp: int, v: int, a: int, n: nat)
    requires sp < a
    ensures Upward(words[sp := v], a, n) == Upward(words, a, n)
    decreases n
  {
    if n > 0 {
      PushBelow(words, sp, v, a + 8, n - 1);
    }
  }

  /** ExecuteCore: push the words one by one. Memory then reads as the array backwards. */
  method ExecuteCore(stack: array<int>, sp0: int) returns (sp: int, words: map<int, int>)
    ensures sp == sp0 - 8 * stack.Length
    ensures Upward(words, sp, stack.Length) == Reverse(stack[..])
  {
    sp, words := sp0, map[];
    for i := 0 to stack.Length
      invariant sp == sp0 - 8 * i
      invariant Upward(words, sp, i) == Reverse(stack[..i])
    {
      PushBelow(words, sp - 8, stack[i], sp, i);
      sp := sp - 8;
      words := words[sp := stack[i]];
      assert stack[..i + 1] == stack[..i] + [stack[i]];
      ReverseConcat(stack[..i], [stack[i]]);
    }
    assert stack[..stack.Length] == stack[..];
  }
}

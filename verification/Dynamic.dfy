/** ELFBinary::ParseDynamic: two passes over the dynamic section, then the
    relocation tables it points to. */
module Dynamic {
  import opened Words
  import opened Outcomes
  import opened Elf

  const EMPTY: DynInfo := DynInfo([], None, None, map[])

  /** First pass: where the string table is. */
  function FindStrtab(dyns: seq<Dyn>, base: nat, acc: Option<u64>): (r: Option<u64>) {
    if dyns == [] then acc
    else FindStrtab(dyns[1..], base, if dyns[0].tag.DtStrtab? then Ptr(base, dyns[0].val) else acc)
  }

  /** The string at strtab + v; reading anything else faults. */
  function StringAt(img: Image, strtab: Option<u64>, v: u64): (r: Result<string>)
    ensures r.Ok? ==> r.value in img.strings.Values
  {
    if strtab.None? || U64(strtab.value + v) !in img.strings then Halt
    else Ok(img.strings[U64(strtab.value + v)])
  }

  /** The tags whose value the second pass just stores. */
  predicate Stored(t: Tag) {
    !(t.DtNeeded? || t.DtRunpath? || t.DtRpath? || t.DtStrtab? || t.DtStrsz? || t.DtOther?)
  }

  /** Second pass, one entry. DT_PLTREL must be DT_RELA (7) or DT_REL (17) and
      DT_SYMENT must be the size of a symbol. */
  function ScanEntry(img: Image, strtab: Option<u64>, d: Dyn, acc: DynInfo): (r: Result<DynInfo>) {
    match d.tag
    case DtNeeded => var s :- StringAt(img, strtab, d.val); Ok(acc.(neededs := acc.neededs + [s]))
    case DtRunpath => var s :- StringAt(img, strtab, d.val); Ok(acc.(runpath := Some(s)))
    case DtRpath => var s :- StringAt(img, strtab, d.val); Ok(acc.(rpath := Some(s)))
    case DtStrtab => Ok(acc)
    case DtStrsz => Ok(acc)
    case DtOther => Ok(acc)
    case t =>
      if t.DtPltrel? && d.val != 7 && d.val != 17 then Halt
      else if t.DtSyment? && d.val != 24 then Halt
      else Ok(acc.(scalars := acc.scalars[t := d.val]))
  }

  function ScanAll(img: Image, strtab: Option<u64>, dyns: seq<Dyn>, acc: DynInfo): (r: Result<DynInfo>) {
    if dyns == [] then Ok(acc) else
    var next :- ScanEntry(img, strtab, dyns[0], acc);
    ScanAll(img, strtab, dyns[1..], next)
  }

  /** count records of 24 bytes starting at a. */
  function ReadRelas(img: Image, a: u64, count: nat): (r: Result<seq<Rela>>)
    ensures r.Ok? ==> |r.value| == count
    ensures r.Ok? ==> forall x :: x in r.value ==> x in img.relaTable.Values
    decreases count
  {
    if count == 0 then Ok([])
    else if a !in img.relaTable then Halt
    else
      Behind([img.relaTable[a]], ReadRelas(img, U64(a + 24), count - 1))
  }

  /** The relocations in a table of sz bytes; a zero entry size is a division fault. */
  function RelaTable(img: Image, table: Option<u64>, sz: u64, ent: u64): (r: Result<seq<Rela>>)
    ensures r.Ok? ==> forall x :: x in r.value ==> x in img.relaTable.Values
  {
    if table.None? then Ok([])
    else if ent == 0 || sz % ent != 0 then Halt
    else ReadRelas(img, table.value, sz / ent)
  }

  datatype Parsed = Parsed(dyn: DynInfo, relas: seq<Rela>, pltrelas: seq<Rela>, syms: seq<Sym>)

  function DynamicSize(phdrs: seq<Phdr>): (r: nat) {
    var d := LastOf(phdrs, PtDynamic);
    if d.Some? then d.value.filesz else 0
  }

  /** The relocation records and symbols the section points to. Records in the
      PLT table are 24 bytes when DT_PLTREL says DT_RELA, and nothing else is accepted. */
  function ReadTables(img: Image, base: nat, d: DynInfo): (r: Result<Parsed>) {
    var relas :- RelaTable(img, d.Pointer(DtRela, base), d.Scalar(DtRelasz), d.Scalar(DtRelaent));
    var jmprel := d.Pointer(DtJmprel, base);
    if jmprel.Some? && d.Scalar(DtPltrel) != 7 then Halt else
    var pltrelas :- RelaTable(img, jmprel, d.Scalar(DtPltrelsz), 24);
    Ok(Parsed(d, relas, pltrelas, if d.Pointer(DtSymtab, base).Some? then img.syms else []))
  }

  function ParseEntries(img: Image, base: nat, dyns: seq<Dyn>): (r: Result<Parsed>) {
    var strtab := FindStrtab(dyns, base, None);
    if strtab.None? && !img.etype.EtExec? then Halt else
    var d :- ScanAll(img, strtab, dyns, EMPTY);
    ReadTables(img, base, d)
  }

  function Parse(img: Image, base: nat): (r: Result<Parsed>) {
    var n := DynamicSize(img.phdrs);
    if base == 0 && !img.etype.EtExec? then Halt
    else if n % 16 != 0 || n / 16 > |img.dyns| then Halt
    else ParseEntries(img, base, img.dyns[..n / 16])
  }

  // ---------- What a parse contains ----------

  lemma {:induction false} ScanNeeded(img: Image, strtab: Option<u64>, dyns: seq<Dyn>, acc: DynInfo)
    requires ScanAll(img, strtab, dyns, acc).Ok?
    requires forall n :: n in acc.neededs ==> n in img.strings.Values
    ensures forall n :: n in ScanAll(img, strtab, dyns, acc).value.neededs ==> n in img.strings.Values
  {
    if dyns != [] {
      ScanNeeded(img, strtab, dyns[1..], ScanEntry(img, strtab, dyns[0], acc).value);
    }
  }

  /** Everything a parse yields comes from the file's own tables. */
  lemma ParseFromTables(img: Image, base: nat)
    requires Parse(img, base).Ok?
    ensures var p := Parse(img, base).value;
      && (forall n :: n in p.dyn.neededs ==> n in img.strings.Values)
      && (forall r :: r in p.pltrelas + p.relas ==> r in img.relaTable.Values)
      && (p.syms == [] || p.syms == img.syms)
  {
    var dyns := img.dyns[..DynamicSize(img.phdrs) / 16];
    ScanNeeded(img, FindStrtab(dyns, base, None), dyns, EMPTY);
  }

  lemma {:induction false} RecordsInOrder(img: Image, a: u64, count: nat, i: nat)
    requires ReadRelas(img, a, count).Ok? && i < count
    ensures U64(a + 24 * i) in img.relaTable && ReadRelas(img, a, count).value[i] == img.relaTable[U64(a + 24 * i)]
    decreases count
  {
    SmallIsItself(a);
    hide U64;
    if i > 0 {
      RecordsInOrder(img, U64(a + 24), count - 1, i - 1);
      AddModulo(24 * (i - 1), a + 24);
      assert 24 * (i - 1) + (a + 24) == a + 24 * i;
    } else {
      assert a + 24 * i == a;
    }
  }

  /** The relocations are the records of the two tables, in order: DT_RELASZ
      bytes from DT_RELA in steps of DT_RELAENT, and DT_PLTRELSZ bytes from
      DT_JMPREL in steps of 24. */
  lemma TablesAreRead(img: Image, base: nat, d: DynInfo, p: Parsed, i: nat)
    requires ReadTables(img, base, d) == Ok(p)
    ensures var rela, jmprel := d.Pointer(DtRela, base), d.Pointer(DtJmprel, base);
      && (rela.Some? ==> d.Scalar(DtRelaent) > 0 && |p.relas| * d.Scalar(DtRelaent) == d.Scalar(DtRelasz))
      && (jmprel.Some? ==> |p.pltrelas| * 24 == d.Scalar(DtPltrelsz) && d.Scalar(DtPltrel) == 7)
      && (i < |p.relas| ==> rela.Some? && U64(rela.value + 24 * i) in img.relaTable
                            && p.relas[i] == img.relaTable[U64(rela.value + 24 * i)])
      && (i < |p.pltrelas| ==> jmprel.Some? && U64(jmprel.value + 24 * i) in img.relaTable
                               && p.pltrelas[i] == img.relaTable[U64(jmprel.value + 24 * i)])
  {
    hide ReadRelas, U64;
    if i < |p.relas| {
      RecordsInOrder(img, d.Pointer(DtRela, base).value, |p.relas|, i);
    }
    if i < |p.pltrelas| {
      RecordsInOrder(img, d.Pointer(DtJmprel, base).value, |p.pltrelas|, i);
    }
  }

  // ---------- Order independence ----------

  /** The value of the last entry with tag t. */
  function Last(dyns: seq<Dyn>, t: Tag): (r: Option<u64>) {
    if dyns == [] then None
    else
      var rest := Last(dyns[1..], t);
      if rest.None? && dyns[0].tag == t then Some(dyns[0].val) else rest
  }

  /** The string of the last entry with tag t. */
  function LastPath(img: Image, strtab: Option<u64>, dyns: seq<Dyn>, t: Tag, default: Option<Path>): (v: Option<Path>) {
    var l := Last(dyns, t);
    if l.None? then default else Some(NameAt(img, strtab, l.value))
  }

  /** The strings of the DT_NEEDED entries, in order. */
  function NeededNames(img: Image, strtab: Option<u64>, dyns: seq<Dyn>): (r: seq<string>) {
    if dyns == [] then []
    else (if dyns[0].tag.DtNeeded? then [NameAt(img, strtab, dyns[0].val)] else [])
         + NeededNames(img, strtab, dyns[1..])
  }

  function NeededOnly(dyns: seq<Dyn>): (r: seq<Dyn>) {
    if dyns == [] then []
    else (if dyns[0].tag.DtNeeded? then [dyns[0]] else []) + NeededOnly(dyns[1..])
  }

  function NameAt(img: Image, strtab: Option<u64>, v: u64): (r: string) {
    var s := StringAt(img, strtab, v);
    if s.Ok? then s.value else []
  }

  /** An entry the second pass accepts. */
  predicate Fine(img: Image, strtab: Option<u64>, d: Dyn) {
    match d.tag
    case DtNeeded => StringAt(img, strtab, d.val).Ok?
    case DtRunpath => StringAt(img, strtab, d.val).Ok?
    case DtRpath => StringAt(img, strtab, d.val).Ok?
    case DtPltrel => d.val == 7 || d.val == 17
    case DtSyment => d.val == 24
    case _ => true
  }

  function Lookup(m: map<Tag, u64>, t: Tag): (r: Option<u64>) {
    if t in m then Some(m[t]) else None
  }

  /** r is acc with the entries dyns gathered tag by tag instead of entry by entry. */
  ghost predicate Gathers(img: Image, strtab: Option<u64>, dyns: seq<Dyn>, acc: DynInfo, r: DynInfo) {
    && r.neededs == acc.neededs + NeededNames(img, strtab, dyns)
    && r.runpath == LastPath(img, strtab, dyns, DtRunpath, acc.runpath)
    && r.rpath == LastPath(img, strtab, dyns, DtRpath, acc.rpath)
    && forall t: Tag ::
         Lookup(r.scalars, t) == if Stored(t) && Last(dyns, t).Some? then Last(dyns, t) else Lookup(acc.scalars, t)
  }

  /** The second pass succeeds exactly on fine entries, and then gathers them. */
  lemma {:induction false} ScanGathers(img: Image, strtab: Option<u64>, dyns: seq<Dyn>, acc: DynInfo)
    ensures ScanAll(img, strtab, dyns, acc).Ok? <==> forall d :: d in dyns ==> Fine(img, strtab, d)
    ensures ScanAll(img, strtab, dyns, acc).Ok? ==>
      Gathers(img, strtab, dyns, acc, ScanAll(img, strtab, dyns, acc).value)
  {
    if dyns == [] {
      assert acc.neededs + [] == acc.neededs;
    } else if Fine(img, strtab, dyns[0]) {
      ScanGathers(img, strtab, dyns[1..], ScanEntry(img, strtab, dyns[0], acc).value);
    }
  }

  lemma {:induction false} SameNeededNames(img: Image, strtab: Option<u64>, a: seq<Dyn>)
    ensures NeededNames(img, strtab, a) == NeededNames(img, strtab, NeededOnly(a))
  {
    if a != [] {
      SameNeededNames(img, strtab, a[1..]);
      if a[0].tag.DtNeeded? {
        assert NeededOnly(a)[1..] == NeededOnly(a[1..]);
      } else {
        assert NeededOnly(a) == NeededOnly(a[1..]);
        assert NeededNames(img, strtab, a) == NeededNames(img, strtab, a[1..]);
      }
    }
  }

  lemma {:induction false} StrtabIsLast(dyns: seq<Dyn>, base: nat, acc: Option<u64>)
    ensures FindStrtab(dyns, base, acc)
            == if Last(dyns, DtStrtab).None? then acc else Ptr(base, Last(dyns, DtStrtab).value)
  {
    if dyns != [] {
      StrtabIsLast(dyns[1..], base, if dyns[0].tag.DtStrtab? then Ptr(base, dyns[0].val) else acc);
    }
  }

  /** No tag other than DT_NEEDED, and other than tags the loader ignores, is repeated. */
  ghost predicate ScalarsOnce(dyns: seq<Dyn>) {
    forall i, j :: 0 <= i < j < |dyns| && dyns[i].tag == dyns[j].tag ==> dyns[i].tag.DtNeeded? || dyns[i].tag.DtOther?
  }

  lemma {:induction false} LastOfUnique(dyns: seq<Dyn>, t: Tag)
    requires ScalarsOnce(dyns) && !t.DtNeeded? && !t.DtOther?
    ensures forall v: u64 :: Last(dyns, t) == Some(v) <==> Dyn(t, v) in dyns
  {
    if dyns != [] {
      assert forall i :: 0 <= i < |dyns| - 1 ==> dyns[1..][i] == dyns[i + 1];
      LastOfUnique(dyns[1..], t);
    }
  }

  lemma SameLast(a: seq<Dyn>, b: seq<Dyn>, t: Tag)
    requires multiset(a) == multiset(b) && ScalarsOnce(a) && ScalarsOnce(b) && !t.DtNeeded? && !t.DtOther?
    ensures Last(a, t) == Last(b, t)
  {
    LastOfUnique(a, t);
    LastOfUnique(b, t);
    assert forall d :: d in a <==> d in multiset(a);
    assert forall d :: d in b <==> d in multiset(b);
    assert forall v: u64 :: Last(a, t) == Some(v) <==> Last(b, t) == Some(v);
  }

  lemma OnceUnderPermutation(a: seq<Dyn>, b: seq<Dyn>)
    requires multiset(a) == multiset(b) && ScalarsOnce(a)
    ensures ScalarsOnce(b)
  {
    forall i, j | 0 <= i < j < |b| && b[i].tag == b[j].tag
      ensures b[i].tag.DtNeeded? || b[i].tag.DtOther?
    {
      if b[i] == b[j] {
        TwiceInMultiset(b, i, j);
        var k, l := OccursTwice(a, b[i]);
      } else {
        assert b[i] in multiset(a) && b[j] in multiset(a);
        var k :| 0 <= k < |a| && a[k] == b[i];
        var l :| 0 <= l < |a| && a[l] == b[j];
        assert k < l || l < k;
      }
    }
  }

  lemma TwiceInMultiset(s: seq<Dyn>, i: nat, j: nat)
    requires i < j < |s| && s[i] == s[j]
    ensures multiset(s)[s[i]] >= 2
  {
    assert s == s[..j] + [s[j]] + s[j + 1..];
    assert s[i] in s[..j];
    assert multiset(s) == multiset(s[..j]) + multiset([s[j]]) + multiset(s[j + 1..]);
  }

  lemma {:induction false} OccursTwice(s: seq<Dyn>, d: Dyn) returns (k: nat, l: nat)
    requires multiset(s)[d] >= 2
    ensures k < l < |s| && s[k] == d == s[l]
  {
    var n := |s| - 1;
    assert s == s[..n] + [s[n]];
    if s[n] != d {
      k, l := OccursTwice(s[..n], d);
    } else {
      assert d in multiset(s[..n]);
      k :| 0 <= k < n && s[k] == d;
      l := n;
    }
  }

  lemma SameGathering(img: Image, strtab: Option<u64>, a: seq<Dyn>, b: seq<Dyn>, acc: DynInfo, r: DynInfo, r': DynInfo)
    requires forall t: Tag :: !t.DtNeeded? && !t.DtOther? ==> Last(a, t) == Last(b, t)
    requires NeededNames(img, strtab, a) == NeededNames(img, strtab, b)
    requires Gathers(img, strtab, a, acc, r) && Gathers(img, strtab, b, acc, r')
    ensures r == r'
  {
    forall t: Tag
      ensures (t in r.scalars <==> t in r'.scalars) && (t in r.scalars ==> r.scalars[t] == r'.scalars[t])
    {
      assert Lookup(r.scalars, t) == Lookup(r'.scalars, t);
    }
    assert r.scalars == r'.scalars;
  }

  lemma ScanOrderIndependent(img: Image, strtab: Option<u64>, a: seq<Dyn>, b: seq<Dyn>)
    requires multiset(a) == multiset(b) && ScalarsOnce(a) && ScalarsOnce(b) && NeededOnly(a) == NeededOnly(b)
    ensures ScanAll(img, strtab, a, EMPTY) == ScanAll(img, strtab, b, EMPTY)
  {
    ScanGathers(img, strtab, a, EMPTY);
    ScanGathers(img, strtab, b, EMPTY);
    assert forall d :: d in a <==> d in multiset(a);
    assert forall d :: d in b <==> d in multiset(b);
    if ScanAll(img, strtab, a, EMPTY).Ok? {
      forall t: Tag | !t.DtNeeded? && !t.DtOther?
        ensures Last(a, t) == Last(b, t)
      {
        SameLast(a, b, t);
      }
      SameNeededNames(img, strtab, a);
      SameNeededNames(img, strtab, b);
      SameGathering(img, strtab, a, b, EMPTY,
                    ScanAll(img, strtab, a, EMPTY).value, ScanAll(img, strtab, b, EMPTY).value);
    }
  }

  // ---------- When a parse succeeds, and with what ----------

  /** The entries of the dynamic section: as many as the last PT_DYNAMIC header has room for. */
  function Entries(img: Image): (r: seq<Dyn>)
    requires DynamicSize(img.phdrs) / 16 <= |img.dyns|
  {
    img.dyns[..DynamicSize(img.phdrs) / 16]
  }

  lemma DynamicSizeIs(phdrs: seq<Phdr>)
    ensures DynamicSize(phdrs) == match LastOf(phdrs, PtDynamic) case Some(ph) => ph.filesz case None => 0
  {
  }

  /** count records in steps of 24 bytes from a on are there. */
  predicate RecordsThere(img: Image, a: u64, count: nat) {
    forall i: nat :: i < count ==> U64(a + 24 * i) in img.relaTable
  }

  lemma {:induction false} ReadRelasOkIff(img: Image, a: u64, count: nat)
    ensures ReadRelas(img, a, count).Ok? <==> RecordsThere(img, a, count)
    decreases count
  {
    hide U64;
    SmallIsItself(a);
    if count > 0 {
      assert U64(a + 24 * 0) == a;
      ReadRelasOkIff(img, U64(a + 24), count - 1);
      forall i: nat | i < count - 1
        ensures U64(U64(a + 24) + 24 * i) == U64(a + 24 * (i + 1))
      {
        AddModulo(24 * i, a + 24);
        assert 24 * i + (a + 24) == a + 24 * (i + 1);
      }
      if RecordsThere(img, a, count) {
        forall i: nat | i < count - 1
          ensures U64(U64(a + 24) + 24 * i) in img.relaTable
        {
          assert U64(a + 24 * (i + 1)) in img.relaTable;
        }
      }
      if a in img.relaTable && RecordsThere(img, U64(a + 24), count - 1) {
        forall i: nat | i < count
          ensures U64(a + 24 * i) in img.relaTable
        {
          if i > 0 {
            assert U64(U64(a + 24) + 24 * (i - 1)) in img.relaTable;
          }
        }
      }
    }
  }

  /** The field with tag t, as a pointer into a binary at base: set, and not null once relocated. */
  predicate Points(d: DynInfo, t: Tag, base: nat) {
    t in d.scalars && U64(base + d.scalars[t]) != 0
  }

  /** The two relocation tables are whole. */
  predicate TablesWhole(img: Image, base: nat, d: DynInfo) {
    && (Points(d, DtRela, base) ==>
          && d.Scalar(DtRelaent) > 0 && d.Scalar(DtRelasz) % d.Scalar(DtRelaent) == 0
          && RecordsThere(img, d.scalars[DtRela], d.Scalar(DtRelasz) / d.Scalar(DtRelaent)))
    && (Points(d, DtJmprel, base) ==>
          && d.Scalar(DtPltrel) == 7 && d.Scalar(DtPltrelsz) % 24 == 0
          && RecordsThere(img, d.scalars[DtJmprel], d.Scalar(DtPltrelsz) / 24))
  }

  lemma ReadTablesOkIff(img: Image, base: nat, d: DynInfo)
    ensures ReadTables(img, base, d).Ok? <==> TablesWhole(img, base, d)
  {
    hide ReadRelas, U64, RecordsThere;
    if Points(d, DtRela, base) && d.Scalar(DtRelaent) > 0 {
      ReadRelasOkIff(img, d.scalars[DtRela], d.Scalar(DtRelasz) / d.Scalar(DtRelaent));
    }
    if Points(d, DtJmprel, base) {
      ReadRelasOkIff(img, d.scalars[DtJmprel], d.Scalar(DtPltrelsz) / 24);
    }
  }

  /** The string table a binary at base uses: the last DT_STRTAB's, if not null. */
  function StringTable(img: Image, base: nat): (r: Option<u64>)
    requires DynamicSize(img.phdrs) / 16 <= |img.dyns|
  {
    var v := Last(Entries(img), DtStrtab);
    if v.None? || U64(base + v.value) == 0 then None else v
  }

  /** A parse succeeds exactly when the section has whole entries, there is a
      string table or the file is ET_EXEC, the entries are fine and what they
      say of the two relocation tables is. */
  lemma ParseOkIff(img: Image, base: nat)
    ensures Parse(img, base).Ok?
            <==> && (base != 0 || img.etype.EtExec?)
                 && DynamicSize(img.phdrs) % 16 == 0 && DynamicSize(img.phdrs) / 16 <= |img.dyns|
                 && (StringTable(img, base).Some? || img.etype.EtExec?)
                 && (forall d :: d in Entries(img) ==> Fine(img, StringTable(img, base), d))
                 && forall d: DynInfo :: Gathers(img, StringTable(img, base), Entries(img), EMPTY, d) ==>
                      TablesWhole(img, base, d)
  {
    hide ScanAll, FindStrtab, ReadTables, TablesWhole, Gathers, Fine, U64, DynamicSize;
    if DynamicSize(img.phdrs) % 16 == 0 && DynamicSize(img.phdrs) / 16 <= |img.dyns| {
      var dyns, strtab := Entries(img), StringTable(img, base);
      StrtabIsLast(dyns, base, None);
      ScanGathers(img, strtab, dyns, EMPTY);
      if ScanAll(img, strtab, dyns, EMPTY).Ok? {
        var d := ScanAll(img, strtab, dyns, EMPTY).value;
        ReadTablesOkIff(img, base, d);
        forall d' | Gathers(img, strtab, dyns, EMPTY, d')
          ensures d' == d
        {
          OneGathering(img, strtab, dyns, d, d');
        }
      }
    }
  }

  lemma OneGathering(img: Image, strtab: Option<u64>, dyns: seq<Dyn>, d: DynInfo, d': DynInfo)
    requires Gathers(img, strtab, dyns, EMPTY, d) && Gathers(img, strtab, dyns, EMPTY, d')
    ensures d == d'
  {
    SameGathering(img, strtab, dyns, dyns, EMPTY, d, d');
  }

  /** What a parse yields: tag by tag the last value, DT_RUNPATH and DT_RPATH
      each under its own name, all needed names in order, the symbols if there
      is a symbol table, and the records of each relocation table in order. */
  lemma ParseContents(img: Image, base: nat, i: nat)
    requires Parse(img, base).Ok?
    ensures DynamicSize(img.phdrs) / 16 <= |img.dyns|
    ensures var p, strtab, dyns := Parse(img, base).value, StringTable(img, base), Entries(img);
      && p.dyn.neededs == NeededNames(img, strtab, dyns)
      && p.dyn.runpath == LastPath(img, strtab, dyns, DtRunpath, None)
      && p.dyn.rpath == LastPath(img, strtab, dyns, DtRpath, None)
      && (forall t: Tag :: Lookup(p.dyn.scalars, t) == if Stored(t) then Last(dyns, t) else None)
      && p.syms == (if Points(p.dyn, DtSymtab, base) then img.syms else [])
      && |p.relas| == (if Points(p.dyn, DtRela, base) then p.dyn.Scalar(DtRelasz) / p.dyn.Scalar(DtRelaent) else 0)
      && |p.pltrelas| == (if Points(p.dyn, DtJmprel, base) then p.dyn.Scalar(DtPltrelsz) / 24 else 0)
      && (i < |p.relas| ==> U64(p.dyn.Scalar(DtRela) + 24 * i) in img.relaTable
                            && p.relas[i] == img.relaTable[U64(p.dyn.Scalar(DtRela) + 24 * i)])
      && (i < |p.pltrelas| ==> U64(p.dyn.Scalar(DtJmprel) + 24 * i) in img.relaTable
                               && p.pltrelas[i] == img.relaTable[U64(p.dyn.Scalar(DtJmprel) + 24 * i)])
  {
    hide ScanAll, FindStrtab, ReadRelas, U64, Last, NeededNames;
    var dyns, strtab, p := Entries(img), StringTable(img, base), Parse(img, base).value;
    StrtabIsLast(dyns, base, None);
    ScanGathers(img, strtab, dyns, EMPTY);
    assert [] + NeededNames(img, strtab, dyns) == NeededNames(img, strtab, dyns);
    assert ReadTables(img, base, p.dyn) == Ok(p);
    TablesAreRead(img, base, p.dyn, p, i);
  }

  /** Permuting the dynamic entries, keeping the relative order of the
      DT_NEEDED ones, does not change the parse or whether it halts. */
  lemma ParseOrderIndependent(img: Image, base: nat, a: seq<Dyn>, b: seq<Dyn>)
    requires multiset(a) == multiset(b)
    requires ScalarsOnce(a)
    requires NeededOnly(a) == NeededOnly(b)
    ensures ParseEntries(img, base, a) == ParseEntries(img, base, b)
  {
    OnceUnderPermutation(a, b);
    SameLast(a, b, DtStrtab);
    StrtabIsLast(a, base, None);
    StrtabIsLast(b, base, None);
    ScanOrderIndependent(img, FindStrtab(a, base, None), a, b);
  }
}

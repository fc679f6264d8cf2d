/** Failure outcomes shared by every operation of the loader. */
module Outcomes {

  datatype Option<+T> = None | Some(value: T)

  /** Halt: a CHECK failed, std::abort was reached, or an access faulted. The process ends. */
  datatype Result<+T> = Ok(value: T) | Halt {
    predicate IsFailure() {
      Halt?
    }

    function PropagateFailure<U>(): Result<U>
      requires Halt?
    {
      Halt
    }

    function Extract(): T
      requires Ok?
    {
      value
    }
  }

  /** The elements before, then those of r. */
  function Behind<T>(before: seq<T>, r: Result<seq<T>>): (t: Result<seq<T>>) {
    var rest :- r;
    Ok(before + rest)
  }

  lemma BehindNothing<T>(r: Result<seq<T>>)
    ensures Behind([], r) == r
  {
    if r.Ok? {
      assert [] + r.value == r.value;
    }
  }

  lemma BehindMore<T>(before: seq<T>, mid: seq<T>, r: Result<seq<T>>)
    ensures Behind(before, Behind(mid, r)) == Behind(before + mid, r)
  {
    if r.Ok? {
      assert before + (mid + r.value) == before + mid + r.value;
    }
  }
}

/** ELF files as the loader reads them, and the process around the loader. */
module Elf {
  import opened Words
  import opened Outcomes
  import opened Strings

  type Path = string

  datatype FileType = EtExec | EtDyn | EtOther

  datatype SegmentType = PtLoad | PtDynamic | PtTls | PtOther

  datatype Phdr = Phdr(kind: SegmentType, offset: nat, vaddr: nat, filesz: nat, memsz: nat)

  datatype Tag =
    | DtNeeded | DtRunpath | DtRpath | DtStrtab | DtStrsz
    | DtRela | DtRelasz | DtRelaent | DtRelacount
    | DtJmprel | DtPltrelsz | DtPltrel | DtSymtab | DtSyment
    | DtInit | DtFini | DtInitArray | DtInitArraysz | DtFiniArray | DtFiniArraysz
    | DtOther

  datatype Dyn = Dyn(tag: Tag, val: u64)

  /** defined: st_shndx is not SHN_UNDEF; weak: binding STB_WEAK; tls: type STT_TLS. */
  datatype Sym = Sym(name: string, value: u64, size: nat, defined: bool, weak: bool, tls: bool)

  datatype RelocType =
    | GlobDat | JumpSlot | Relative | Irelative | Abs64
    | Tpoff64 | Dtpmod64 | Dtpoff64 | Copy | Unsupported

  datatype Rela = Rela(offset: u64, kind: RelocType, sym: nat, addend: int)

  /** One file. `file` is its private mapping, whole pages long; `strings` and
      `relaTable` are the NUL-terminated strings and the relocation records it
      holds, by link-time address; `syms` is its symbol table. */
  datatype Image = Image(
    etype: FileType,
    entry: u64,
    size: nat,
    file: seq<byte>,
    phdrs: seq<Phdr>,
    dyns: seq<Dyn>,
    strings: map<u64, string>,
    relaTable: map<u64, Rela>,
    syms: seq<Sym>)

  /** base + v as a pointer into a binary at base, by its link-time address v; None is null. */
  function Ptr(base: nat, v: u64): (p: Option<u64>) {
    if U64(base + v) == 0 then None else Some(v)
  }

  /** What the dynamic section says. `scalars` holds the one-word fields, each
      under the tag that sets it; a field that was never set reads as 0. */
  datatype DynInfo = DynInfo(
    neededs: seq<string>, runpath: Option<Path>, rpath: Option<Path>, scalars: map<Tag, u64>)
  {
    function Scalar(t: Tag): (v: u64) {
      if t in scalars then scalars[t] else 0
    }

    /** The field set by t, as a pointer. */
    function Pointer(t: Tag, base: nat): (p: Option<u64>) {
      if t in scalars then Ptr(base, scalars[t]) else None
    }
  }

  /** A loaded binary: the value the loader keeps for each file it maps. */
  datatype Binary = Binary(
    path: Path, entry: u64, phdrs: seq<Phdr>, tls: Option<Phdr>, base: nat, end: nat,
    dyn: DynInfo, relas: seq<Rela>, pltrelas: seq<Rela>, syms: seq<Sym>)

  /** Everything the loader consults but never changes: the files by path,
      FindLibrary as a resolver of (name, runpath, rpath), the libc override
      maps, the address of the TLS area and the host's auxiliary values. */
  datatype World = World(
    fs: map<Path, Image>,
    findLibrary: (string, Option<Path>, Option<Path>) -> Option<Path>,
    libcMap: map<string, u64>,
    libcTls: map<string, u64>,
    tlsBlock: u64,
    auxval: int -> int)

  /** The last program header of the given kind. */
  function LastOf(phdrs: seq<Phdr>, kind: SegmentType): (r: Option<Phdr>) {
    if phdrs == [] then None
    else if phdrs[|phdrs| - 1].kind == kind then Some(phdrs[|phdrs| - 1])
    else LastOf(phdrs[..|phdrs| - 1], kind)
  }

  /** std::filesystem::path::filename: what follows the last slash. */
  function Filename(path: Path): (r: string) {
    if path == [] || path[|path| - 1] == '/' then []
    else Filename(path[..|path| - 1]) + [path[|path| - 1]]
  }

  /** It holds no slash, and the path in front of it is empty or ends in one. */
  lemma {:induction false} FilenameIsLastPart(path: Path)
    ensures '/' !in Filename(path) && |Filename(path)| <= |path|
    ensures var n := |path| - |Filename(path)|;
      path[n..] == Filename(path) && (n == 0 || path[n - 1] == '/')
  {
    if path != [] && path[|path| - 1] != '/' {
      var front, c := path[..|path| - 1], path[|path| - 1];
      FilenameIsLastPart(front);
      assert Filename(path) == Filename(front) + [c] && path == front + [c];
      hide Filename;
      var n := |front| - |Filename(front)|;
      assert path[n..] == front[n..] + [c];
    }
  }

  /** The dynamic loader and libc itself are never loaded. */
  predicate Skipped(name: string) {
    Contains(name, "ld-linux") || Contains(name, "libc.so")
  }

  /** A name is skipped exactly when "ld-linux" or "libc.so" occurs in it. */
  lemma SkippedIff(name: string)
    ensures Skipped(name)
            <==> (exists i :: OccursAt(name, "ld-linux", i)) || (exists i :: OccursAt(name, "libc.so", i))
  {
    ContainsIff(name, "ld-linux");
    ContainsIff(name, "libc.so");
  }

  lemma ContainsIff(s: string, t: string)
    ensures Contains(s, t) <==> exists i :: OccursAt(s, t, i)
  {
    if Contains(s, t) {
      FindIsFirst(s, t, 0);
    }
    if i :| OccursAt(s, t, i) {
      FindIsFirst(s, t, i);
    }
  }

  lemma LibcIsSkipped()
    ensures Skipped("libc.so.6")
  {
    SkippedIff("libc.so.6");
    hide Skipped;
    assert "libc.so.6"[0..] == "libc.so.6" && "libc.so" <= "libc.so.6";
    assert OccursAt("libc.so.6", "libc.so", 0);
  }

  lemma LoaderIsSkipped()
    ensures Skipped("ld-linux-x86-64.so.2")
  {
    SkippedIff("ld-linux-x86-64.so.2");
    hide Skipped;
    assert "ld-linux-x86-64.so.2"[0..] == "ld-linux-x86-64.so.2" && "ld-linux" <= "ld-linux-x86-64.so.2";
    assert OccursAt("ld-linux-x86-64.so.2", "ld-linux", 0);
  }

  lemma LibmIsNotSkipped()
    ensures !Skipped("libm.so.6")
  {
    SkippedIff("libm.so.6");
    hide Skipped;
    forall i: nat
      ensures !OccursAt("libm.so.6", "ld-linux", i) && !OccursAt("libm.so.6", "libc.so", i)
    {
      NotInLibm(i);
    }
  }

  lemma NotInLibm(i: nat)
    ensures !OccursAt("libm.so.6", "ld-linux", i) && !OccursAt("libm.so.6", "libc.so", i)
  {
    var m := "libm.so.6";
    if i + 7 <= |m| {
      assert m[i..][3] == m[i + 3];
      assert "libc.so"[3] == 'c' && "ld-linux"[3] == 'l';
      assert m[3] == 'm' && m[4] == '.' && m[5] == 's';
    }
  }

  /** LastOf is the last header of the kind. */
  lemma {:induction false} LastOfIsLast(phdrs: seq<Phdr>, kind: SegmentType)
    ensures LastOf(phdrs, kind).None? ==> forall i :: 0 <= i < |phdrs| ==> phdrs[i].kind != kind
    ensures LastOf(phdrs, kind).Some? ==>
      exists i :: 0 <= i < |phdrs| && phdrs[i] == LastOf(phdrs, kind).value && phdrs[i].kind == kind
                  && forall j :: i < j < |phdrs| ==> phdrs[j].kind != kind
  {
    if phdrs != [] && phdrs[|phdrs| - 1].kind != kind {
      var front := phdrs[..|phdrs| - 1];
      LastOfIsLast(front, kind);
      if LastOf(front, kind).Some? {
        var i :| 0 <= i < |front| && front[i] == LastOf(front, kind).value && front[i].kind == kind
                 && forall j :: i < j < |front| ==> front[j].kind != kind;
        assert phdrs[i] == front[i];
        assert forall j :: i < j < |front| ==> phdrs[j] == front[j];
      } else {
        assert forall j :: 0 <= j < |front| ==> phdrs[j] == front[j];
      }
    }
  }
}

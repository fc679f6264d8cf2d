/** Static thread-local storage: the offsets relocations use (TLSSymOffset), the
    blocks Execute lays out, and the addresses sloader_tls_get_addr returns.
    The layout is variant II of "ELF Handling For Thread-Local Storage". */
module Tls {
  import opened Words
  import opened Memory
  import opened Outcomes
  import opened Elf
  import opened Symbols

  function TlsSize(b: Binary): (n: nat) {
    if b.tls.Some? then b.tls.value.memsz else 0
  }

  /** The bytes of TLS of the first k binaries. */
  function TlsSum(bins: seq<Binary>, k: nat): (n: nat)
    requires k <= |bins|
  {
    if k == 0 then 0 else TlsSum(bins, k - 1) + TlsSize(bins[k - 1])
  }

  /** TLSSymOffset: the thread-pointer offset of a name, modulo 2^64. A name of
      libc uses the host's address. None is the abort. */
  function SymOffset(w: World, bins: seq<Binary>, name: string): (r: Option<u64>) {
    var p := Scan(bins, name, TlsDefinition, 0);
    if p.Some? then
      Some(U64(bins[p.value.bin].syms[p.value.sym].value - TlsSum(bins, p.value.bin + 1)))
    else if name in w.libcTls then
      Some(U64(w.tlsBlock + 4096 - w.libcTls[name]))
    else None
  }

  // ---------- The layout loop of Execute ----------

  /** The 4096 bytes of sloader_dummy_to_secure_tls_space and the word above
      them, and sloader_tls_offset. */
  datatype Area = Area(bytes: seq<byte>, offset: nat)

  const AREA_SIZE: nat := 4104

  function Splice(s: seq<byte>, at: nat, t: seq<byte>): (r: seq<byte>)
    requires at + |t| <= |s|
    ensures |r| == |s|
    ensures forall i :: 0 <= i < |s| ==> r[i] == if at <= i < at + |t| then t[i - at] else s[i]
  {
    s[..at] + t + s[at + |t|..]
  }

  /** A binary's initial TLS block: its .tdata as it is in memory, then zeros. */
  function Block(m: Mem, b: Binary): (r: Result<seq<byte>>)
    ensures r.Ok? ==> |r.value| == TlsSize(b)
  {
    if b.tls.None? then Ok([]) else
    var ph := b.tls.value;
    var src := U64(b.base + ph.vaddr);
    if ph.filesz <= ph.memsz && Mapped(m, src, ph.memsz)
    then Ok(Fetch(m, src, ph.filesz) + seq(ph.memsz - ph.filesz, _ => 0))
    else Halt
  }

  /** The block below the running offset, and a pointer to the offset stored at it. */
  function LayBlock(w: World, area: Area, block: seq<byte>): (r: Area)
    requires |block| <= area.offset <= 4096 && |area.bytes| == AREA_SIZE
    ensures |r.bytes| == AREA_SIZE && r.offset == area.offset - |block|
  {
    var bytes := Splice(area.bytes, area.offset - |block|, block);
    Area(Splice(bytes, area.offset, Bytes(U64(w.tlsBlock + area.offset), 8)), area.offset - |block|)
  }

  /** The area after the first k binaries. */
  function LayOut(w: World, m: Mem, bins: seq<Binary>, k: nat, bytes: seq<byte>): (r: Result<Area>)
    requires k <= |bins| && TlsSum(bins, k) <= 4096 && |bytes| == AREA_SIZE
    ensures r.Ok? ==> |r.value.bytes| == AREA_SIZE && r.value.offset == 4096 - TlsSum(bins, k)
  {
    if k == 0 then Ok(Area(bytes, 4096)) else
    var area :- LayOut(w, m, bins, k - 1, bytes);
    if bins[k - 1].tls.None? then Ok(area) else
    var block :- Block(m, bins[k - 1]);
    Ok(LayBlock(w, area, block))
  }

  /** The whole loop, after the check that the blocks fit. */
  function InitTls(w: World, m: Mem, bins: seq<Binary>, bytes: seq<byte>): (r: Result<Area>)
    requires |bytes| == AREA_SIZE
  {
    if TlsSum(bins, |bins|) > 4096 then Halt else LayOut(w, m, bins, |bins|, bytes)
  }

  /** The layout succeeds exactly when the blocks take at most 4096 bytes and
      every PT_TLS segment is mapped and no longer in the file than in memory. */
  lemma InitTlsOkIff(w: World, m: Mem, bins: seq<Binary>, bytes: seq<byte>)
    requires |bytes| == AREA_SIZE
    ensures InitTls(w, m, bins, bytes).Ok?
            <==> && TlsSum(bins, |bins|) <= 4096
                 && forall i :: 0 <= i < |bins| && bins[i].tls.Some? ==>
                      var ph := bins[i].tls.value;
                      ph.filesz <= ph.memsz && Mapped(m, U64(bins[i].base + ph.vaddr), ph.memsz)
  {
    if TlsSum(bins, |bins|) <= 4096 {
      LayOutOkIff(w, m, bins, |bins|, bytes);
    }
  }

  lemma {:induction false} LayOutOkIff(w: World, m: Mem, bins: seq<Binary>, k: nat, bytes: seq<byte>)
    requires k <= |bins| && TlsSum(bins, k) <= 4096 && |bytes| == AREA_SIZE
    ensures LayOut(w, m, bins, k, bytes).Ok?
            <==> forall i :: 0 <= i < k && bins[i].tls.Some? ==>
                   var ph := bins[i].tls.value;
                   ph.filesz <= ph.memsz && Mapped(m, U64(bins[i].base + ph.vaddr), ph.memsz)
  {
    hide LayBlock, Mapped, U64;
    if k > 0 {
      LayOutOkIff(w, m, bins, k - 1, bytes);
    }
  }

  lemma {:induction false} OkBefore(w: World, m: Mem, bins: seq<Binary>, j: nat, k: nat, bytes: seq<byte>)
    requires j <= k <= |bins| && TlsSum(bins, k) <= 4096 && |bytes| == AREA_SIZE && LayOut(w, m, bins, k, bytes).Ok?
    ensures TlsSum(bins, j) <= 4096 && LayOut(w, m, bins, j, bytes).Ok?
    decreases k
  {
    if j < k {
      OkBefore(w, m, bins, j, k - 1, bytes);
    }
  }

  /** sloader_tls_get_addr. */
  function TlsGetAddr(w: World, area: Area, tiOffset: u64): (a: u64) {
    U64(w.tlsBlock + area.offset + tiOffset)
  }

  // ---------- Agreement of the three computations ----------

  /** Where the layout puts binary i's block. */
  function BlockStart(bins: seq<Binary>, i: nat): (a: int)
    requires i < |bins|
  {
    4096 - TlsSum(bins, i + 1)
  }

  /** The blocks lie end to end downwards from 4096, in load order: each is as
      long as its segment's memory size, and a binary without TLS takes nothing. */
  lemma BlockStartIs(bins: seq<Binary>, i: nat)
    requires i < |bins|
    ensures BlockStart(bins, i)
            == (if i == 0 then 4096 else BlockStart(bins, i - 1))
               - match bins[i].tls case Some(ph) => ph.memsz case None => 0
  {
    if i == 0 {
      assert TlsSum(bins, 0) == 0;
    }
  }

  lemma OffsetFromStart(w: World, bins: seq<Binary>, name: string)
    requires Scan(bins, name, TlsDefinition, 0).Some?
    ensures var p := Scan(bins, name, TlsDefinition, 0).value;
      && SymOffset(w, bins, name).Some?
      && U64(w.tlsBlock + 4096 + SymOffset(w, bins, name).value)
         == U64(w.tlsBlock + BlockStart(bins, p.bin) + bins[p.bin].syms[p.sym].value)
  {
  }

  /** The thread pointer plus the offset a relocation stores is the place where
      the layout loop put the defining binary's block, plus the symbol's value. */
  lemma TpoffAgrees(w: World, m: Mem, bins: seq<Binary>, bytes: seq<byte>, name: string)
    requires |bytes| == AREA_SIZE && InitTls(w, m, bins, bytes).Ok?
    requires Scan(bins, name, TlsDefinition, 0).Some?
    ensures var p := Scan(bins, name, TlsDefinition, 0).value;
      && TlsSum(bins, p.bin + 1) <= 4096
      && LayOut(w, m, bins, p.bin + 1, bytes).Ok?
      && SymOffset(w, bins, name).Some?
      && U64(w.tlsBlock + 4096 + SymOffset(w, bins, name).value)
         == U64(w.tlsBlock + LayOut(w, m, bins, p.bin + 1, bytes).value.offset + bins[p.bin].syms[p.sym].value)
  {
    hide LayOut, U64;
    var p := Scan(bins, name, TlsDefinition, 0).value;
    OkBefore(w, m, bins, p.bin + 1, |bins|, bytes);
    OffsetFromStart(w, bins, name);
  }

  /** A name no binary defines as TLS has an offset exactly if libc does, and the
      word stored then is what must be taken from, not added to, the thread
      pointer to get libc's address. */
  lemma LibcTlsOffset(w: World, bins: seq<Binary>, name: string)
    requires Scan(bins, name, TlsDefinition, 0).None?
    ensures SymOffset(w, bins, name).Some? <==> name in w.libcTls
    ensures name in w.libcTls ==>
      U64(w.tlsBlock + 4096 - SymOffset(w, bins, name).value) == w.libcTls[name]
  {
    if name in w.libcTls {
      Complement(w.tlsBlock + 4096, w.libcTls[name]);
    }
  }

  lemma Complement(tp: nat, v: u64)
    ensures U64(tp - U64(tp - v)) == v
  {
  }

  /** So with addresses in user space the psABI's sum, thread pointer plus word,
      is libc's address only when that is the thread pointer itself. */
  lemma LibcTlsAgreesIff(w: World, bins: seq<Binary>, name: string)
    requires Scan(bins, name, TlsDefinition, 0).None? && name in w.libcTls
    requires w.tlsBlock + 4096 < USER_TOP && w.libcTls[name] < USER_TOP
    ensures SymOffset(w, bins, name).Some?
    ensures U64(w.tlsBlock + 4096 + SymOffset(w, bins, name).value) == w.libcTls[name]
            <==> w.libcTls[name] == w.tlsBlock + 4096
  {
    AddModulo(w.tlsBlock + 4096, w.tlsBlock + 4096 - w.libcTls[name]);
    SmallSum(w.tlsBlock + 4096, w.libcTls[name]);
  }

  lemma SmallSum(tp: nat, v: nat)
    requires tp < USER_TOP && v < USER_TOP
    ensures U64(tp + (tp - v)) == v <==> v == tp
  {
  }

  lemma {:induction false} SumGrows(bins: seq<Binary>, j: nat, k: nat)
    requires j <= k <= |bins|
    ensures TlsSum(bins, j) <= TlsSum(bins, k)
    decreases k
  {
    if j < k {
      SumGrows(bins, j, k - 1);
    }
  }

  /** sloader_tls_get_addr always adds the offset of the lowest block, so it
      agrees with the relocations for exactly the symbols of a binary behind
      which no binary has TLS bytes. */
  lemma TlsGetAddrAgreesIff(w: World, m: Mem, bins: seq<Binary>, bytes: seq<byte>, name: string)
    requires |bytes| == AREA_SIZE && InitTls(w, m, bins, bytes).Ok?
    requires Scan(bins, name, TlsDefinition, 0).Some?
    ensures var p := Scan(bins, name, TlsDefinition, 0).value;
      && SymOffset(w, bins, name).Some?
      && (TlsGetAddr(w, InitTls(w, m, bins, bytes).value, bins[p.bin].syms[p.sym].value)
            == U64(w.tlsBlock + 4096 + SymOffset(w, bins, name).value)
          <==> forall j :: p.bin < j < |bins| ==> TlsSize(bins[j]) == 0)
  {
    var p := Scan(bins, name, TlsDefinition, 0).value;
    OffsetFromStart(w, bins, name);
    SumGrows(bins, p.bin + 1, |bins|);
    SameSumIff(bins, p.bin + 1, |bins|);
    var last := 4096 - TlsSum(bins, |bins|);
    CloseAddresses(w.tlsBlock + last + bins[p.bin].syms[p.sym].value, TlsSum(bins, |bins|) - TlsSum(bins, p.bin + 1));
  }

  lemma CloseAddresses(a: int, d: nat)
    requires d <= 4096
    ensures U64(a) == U64(a + d) <==> d == 0
  {
  }

  lemma {:induction false} SameSumIff(bins: seq<Binary>, i: nat, k: nat)
    requires i <= k <= |bins|
    ensures TlsSum(bins, i) == TlsSum(bins, k) <==> forall j :: i <= j < k ==> TlsSize(bins[j]) == 0
    decreases k
  {
    if i < k {
      SumGrows(bins, i, k - 1);
      SameSumIff(bins, i, k - 1);
    }
  }

  lemma {:induction false} SumOfPrefix(bins: seq<Binary>, more: seq<Binary>, k: nat)
    requires k <= |bins|
    ensures TlsSum(bins + more, k) == TlsSum(bins, k)
  {
    if k > 0 {
      SumOfPrefix(bins, more, k - 1);
    }
  }

  /** Loading more binaries does not move the offsets of names already defined,
      so relocations of later binaries still agree with the layout. */
  lemma OffsetStable(w: World, bins: seq<Binary>, more: seq<Binary>, name: string)
    requires Scan(bins, name, TlsDefinition, 0).Some?
    ensures SymOffset(w, bins + more, name) == SymOffset(w, bins, name)
  {
    ScanStable(bins, more, name, TlsDefinition, 0);
    var p := Scan(bins, name, TlsDefinition, 0).value;
    SumOfPrefix(bins, more, p.bin + 1);
  }

  lemma SumOfEarly(early: seq<Binary>, bins: seq<Binary>, k: nat)
    requires early <= bins && k <= |early|
    ensures TlsSum(bins, k) == TlsSum(early, k) <= TlsSum(early, |early|)
  {
    assert bins == early + bins[|early|..];
    SumOfPrefix(early, bins[|early|..], k);
    SumGrows(early, k, |early|);
  }

  /** At any later point, the block of a binary that was there when the area was
      laid out is where the layout loop put it. */
  lemma EarlyBlock(w: World, m: Mem, early: seq<Binary>, bins: seq<Binary>, bytes: seq<byte>, i: nat)
    requires early <= bins && i < |early| && |bytes| == AREA_SIZE && InitTls(w, m, early, bytes).Ok?
    ensures TlsSum(early, i + 1) <= 4096 && LayOut(w, m, early, i + 1, bytes).Ok?
    ensures InitTls(w, m, early, bytes).value.offset <= BlockStart(bins, i)
            == LayOut(w, m, early, i + 1, bytes).value.offset
  {
    hide LayOut, TlsSum;
    SumOfEarly(early, bins, i + 1);
    OkBefore(w, m, early, i + 1, |early|, bytes);
  }

  /** The block of a library opened later ends below all of them. */
  lemma LaterBlock(w: World, m: Mem, early: seq<Binary>, bins: seq<Binary>, bytes: seq<byte>, i: nat)
    requires early <= bins && |early| <= i < |bins| && |bytes| == AREA_SIZE && InitTls(w, m, early, bytes).Ok?
    ensures BlockStart(bins, i) + TlsSize(bins[i]) <= InitTls(w, m, early, bytes).value.offset
  {
    assert TlsSum(bins, i + 1) == TlsSum(bins, i) + TlsSize(bins[i]);
    hide LayOut, TlsSum, TlsSize;
    SumOfEarly(early, bins, |early|);
    SumGrows(bins, |early|, i);
  }

  /** So a block of TLS bytes lies in the part laid out exactly when its binary
      was there at the time: dlopen lays out nothing. */
  lemma LaidOutIff(w: World, m: Mem, early: seq<Binary>, bins: seq<Binary>, bytes: seq<byte>, i: nat)
    requires early <= bins && i < |bins| && |bytes| == AREA_SIZE && InitTls(w, m, early, bytes).Ok?
    requires TlsSize(bins[i]) > 0
    ensures InitTls(w, m, early, bytes).value.offset <= BlockStart(bins, i) <==> i < |early|
  {
    hide InitTls, BlockStart;
    if i < |early| {
      EarlyBlock(w, m, early, bins, bytes, i);
    } else {
      LaterBlock(w, m, early, bins, bytes, i);
    }
  }

  // ---------- Contents of the blocks ----------

  /** Binary j stores its pointer over address at of the area. */
  predicate Window(bins: seq<Binary>, j: nat, at: int)
    requires j < |bins|
  {
    bins[j].tls.Some? && 4096 - TlsSum(bins, j) <= at < 4096 - TlsSum(bins, j) + 8
  }

  /** One binary later, the bytes at and above the offset change only in its window. */
  lemma OneBlockLater(w: World, m: Mem, bins: seq<Binary>, k: nat, bytes: seq<byte>, at: nat)
    requires 0 < k <= |bins| && TlsSum(bins, k) <= 4096 && |bytes| == AREA_SIZE
    requires LayOut(w, m, bins, k, bytes).Ok? && 4096 - TlsSum(bins, k - 1) <= at < AREA_SIZE
    ensures LayOut(w, m, bins, k - 1, bytes).Ok?
    ensures LayOut(w, m, bins, k, bytes).value.bytes[at]
            == if Window(bins, k - 1, at)
               then Bytes(U64(w.tlsBlock + 4096 - TlsSum(bins, k - 1)), 8)[at - (4096 - TlsSum(bins, k - 1))]
               else LayOut(w, m, bins, k - 1, bytes).value.bytes[at]
  {
    hide Bytes;
  }

  /** at lies in the block of binary i: memsz bytes from its start on. */
  predicate InBlock(bins: seq<Binary>, i: nat, at: int)
    requires i < |bins|
  {
    bins[i].tls.Some? && BlockStart(bins, i) <= at < BlockStart(bins, i) + bins[i].tls.value.memsz
  }

  /** Byte x of b's TLS image as the TLS specification has it: the segment's
      bytes in memory up to filesz, then zeros up to memsz. */
  predicate InitialByte(m: Mem, b: Binary, x: int, v: byte) {
    b.tls.Some? && var ph := b.tls.value;
    && 0 <= x < ph.memsz
    && if x < ph.filesz then U64(b.base + ph.vaddr) + x in m && v == m[U64(b.base + ph.vaddr) + x] else v == 0
  }

  lemma BlockHolds(m: Mem, b: Binary, x: nat)
    requires Block(m, b).Ok? && x < TlsSize(b)
    ensures InitialByte(m, b, x, Block(m, b).value[x])
  {
  }

  lemma OwnBlock(w: World, m: Mem, bins: seq<Binary>, i: nat, bytes: seq<byte>, at: nat)
    requires i < |bins| && TlsSum(bins, i + 1) <= 4096 && |bytes| == AREA_SIZE
    requires LayOut(w, m, bins, i + 1, bytes).Ok? && InBlock(bins, i, at)
    ensures InitialByte(m, bins[i], at - BlockStart(bins, i), LayOut(w, m, bins, i + 1, bytes).value.bytes[at])
  {
    hide Bytes, InitialByte;
    BlockHolds(m, bins[i], at - BlockStart(bins, i));
  }

  lemma {:induction false} OwnBlockStays(w: World, m: Mem, bins: seq<Binary>, k: nat, bytes: seq<byte>, i: nat, at: nat)
    requires i < k <= |bins| && TlsSum(bins, k) <= 4096 && |bytes| == AREA_SIZE
    requires LayOut(w, m, bins, k, bytes).Ok? && InBlock(bins, i, at)
    requires forall j :: i < j < k ==> !Window(bins, j, at)
    ensures InitialByte(m, bins[i], at - BlockStart(bins, i), LayOut(w, m, bins, k, bytes).value.bytes[at])
    decreases k
  {
    hide LayOut, Bytes, InitialByte;
    if i == k - 1 {
      OwnBlock(w, m, bins, i, bytes, at);
    } else {
      SumGrows(bins, i + 1, k - 1);
      OneBlockLater(w, m, bins, k, bytes, at);
      OwnBlockStays(w, m, bins, k - 1, bytes, i, at);
    }
  }

  /** A byte of binary i's block is the one at the same place of its PT_TLS
      segment in memory up to filesz, and zero from there up to memsz, unless a
      later TLS binary stores its pointer over it. */
  lemma BlockByte(w: World, m: Mem, bins: seq<Binary>, k: nat, bytes: seq<byte>, i: nat, at: nat)
    requires i < k <= |bins| && TlsSum(bins, k) <= 4096 && |bytes| == AREA_SIZE && LayOut(w, m, bins, k, bytes).Ok?
    requires bins[i].tls.Some? && BlockStart(bins, i) <= at < BlockStart(bins, i) + bins[i].tls.value.memsz
    requires forall j :: i < j < k ==> !Window(bins, j, at)
    ensures at < AREA_SIZE
    ensures var ph, x, v := bins[i].tls.value, at - BlockStart(bins, i), LayOut(w, m, bins, k, bytes).value.bytes[at];
      && (x < ph.filesz ==> U64(bins[i].base + ph.vaddr) + x in m && v == m[U64(bins[i].base + ph.vaddr) + x])
      && (ph.filesz <= x ==> v == 0)
  {
    hide LayOut;
    OwnBlockStays(w, m, bins, k, bytes, i, at);
  }

  /** A byte in binary j's window and in no later one holds j's pointer. */
  lemma {:induction false} WindowByte(w: World, m: Mem, bins: seq<Binary>, k: nat, bytes: seq<byte>, j: nat, at: nat)
    requires j < k <= |bins| && TlsSum(bins, k) <= 4096 && |bytes| == AREA_SIZE
    requires LayOut(w, m, bins, k, bytes).Ok? && at < AREA_SIZE && Window(bins, j, at)
    requires forall l :: j < l < k ==> !Window(bins, l, at)
    ensures LayOut(w, m, bins, k, bytes).value.bytes[at]
            == Bytes(U64(w.tlsBlock + 4096 - TlsSum(bins, j)), 8)[at - (4096 - TlsSum(bins, j))]
    decreases k
  {
    hide LayOut, Bytes;
    SumGrows(bins, j, k - 1);
    OneBlockLater(w, m, bins, k, bytes, at);
    if j < k - 1 {
      WindowByte(w, m, bins, k - 1, bytes, j, at);
    }
  }

  /** Every block holds its binary's .tdata followed by zeros. */
  ghost predicate Exact(w: World, m: Mem, bins: seq<Binary>, bytes: seq<byte>)
    requires |bytes| == AREA_SIZE
  {
    InitTls(w, m, bins, bytes).Ok? &&
    forall i, at: nat :: 0 <= i < |bins| && InBlock(bins, i, at) ==>
      at < AREA_SIZE && InitialByte(m, bins[i], at - BlockStart(bins, i), InitTls(w, m, bins, bytes).value.bytes[at])
  }

  /** Only the last TLS binary, and those with an empty block, keep their block:
      the next one's pointer lands on its first bytes. */
  predicate OnlyLastHasBytes(bins: seq<Binary>) {
    forall i, j :: 0 <= i < j < |bins| && bins[j].tls.Some? ==> TlsSize(bins[i]) == 0
  }

  lemma {:induction false} SameHalts(w: World, w': World, m: Mem, bins: seq<Binary>, k: nat, bytes: seq<byte>)
    requires k <= |bins| && TlsSum(bins, k) <= 4096 && |bytes| == AREA_SIZE
    ensures LayOut(w, m, bins, k, bytes).Ok? <==> LayOut(w', m, bins, k, bytes).Ok?
  {
    if k > 0 {
      SameHalts(w, w', m, bins, k - 1, bytes);
    }
  }

  lemma ExactWhenAlone(w: World, m: Mem, bins: seq<Binary>, bytes: seq<byte>)
    requires |bytes| == AREA_SIZE && InitTls(w, m, bins, bytes).Ok? && OnlyLastHasBytes(bins)
    ensures Exact(w, m, bins, bytes)
  {
    hide LayOut, InitialByte;
    forall i, at: nat | 0 <= i < |bins| && InBlock(bins, i, at)
      ensures at < AREA_SIZE
      ensures InitialByte(m, bins[i], at - BlockStart(bins, i), InitTls(w, m, bins, bytes).value.bytes[at])
    {
      OwnBlockStays(w, m, bins, |bins|, bytes, i, at);
    }
  }

  /** The last TLS binary. */
  lemma {:induction false} LastTls(bins: seq<Binary>, k: nat, i: nat) returns (j: nat)
    requires i < k <= |bins| && bins[i].tls.Some?
    ensures i <= j < k && bins[j].tls.Some? && forall l :: j < l < k ==> bins[l].tls.None?
  {
    if bins[k - 1].tls.Some? {
      j := k - 1;
    } else {
      j := LastTls(bins, k - 1, i);
    }
  }

  lemma {:induction false} LastNonEmpty(bins: seq<Binary>, k: nat, i: nat) returns (j: nat)
    requires i < k <= |bins| && TlsSize(bins[i]) > 0
    ensures i <= j < k && TlsSize(bins[j]) > 0 && forall l :: j < l < k ==> TlsSize(bins[l]) == 0
  {
    if TlsSize(bins[k - 1]) > 0 {
      j := k - 1;
    } else {
      j := LastNonEmpty(bins, k - 1, i);
    }
  }

  /** A clobbered block: its first byte is the low byte of a pointer into the area. */
  lemma FirstByteIsPointer(m: Mem, bins: seq<Binary>, bytes: seq<byte>, i: nat, j: nat) returns (c: nat, start: nat)
    requires |bytes| == AREA_SIZE && i < j < |bins| && bins[j].tls.Some? && TlsSize(bins[i]) > 0
    requires TlsSum(bins, |bins|) <= 4096
    ensures c < |bins| && TlsSize(bins[c]) > 0 && start == BlockStart(bins, c) < 4096
    ensures forall w :: InitTls(w, m, bins, bytes).Ok? ==>
              InitTls(w, m, bins, bytes).value.bytes[start] == U64(w.tlsBlock + start) % 256
  {
    var last := LastTls(bins, |bins|, j);
    c := LastNonEmpty(bins, last, i);
    SumGrows(bins, c + 1, |bins|);
    SumGrows(bins, c + 1, last);
    SameSumIff(bins, c + 1, last);
    start := BlockStart(bins, c);
    assert Window(bins, last, start);
    forall w | InitTls(w, m, bins, bytes).Ok?
      ensures InitTls(w, m, bins, bytes).value.bytes[start] == U64(w.tlsBlock + start) % 256
    {
      WindowByte(w, m, bins, |bins|, bytes, last, start);
    }
  }

  /** Where the area can lie: in user space above the lowest pages, on a 64-byte boundary. */
  predicate UserArea(a: u64) {
    0x1_0000 <= a && a + AREA_SIZE <= USER_TOP && a % 64 == 0
  }

  /** The layout is exact wherever the area lies exactly when no TLS bytes lie
      in front of another TLS binary. */
  lemma ExactIff(w: World, m: Mem, bins: seq<Binary>, bytes: seq<byte>)
    requires |bytes| == AREA_SIZE && InitTls(w, m, bins, bytes).Ok?
    ensures (forall a: u64 :: UserArea(a) ==> Exact(w.(tlsBlock := a), m, bins, bytes)) <==> OnlyLastHasBytes(bins)
  {
    hide LayOut, Block;
    forall a: u64
      ensures InitTls(w.(tlsBlock := a), m, bins, bytes).Ok?
    {
      SameHalts(w, w.(tlsBlock := a), m, bins, |bins|, bytes);
    }
    if OnlyLastHasBytes(bins) {
      forall a: u64
        ensures Exact(w.(tlsBlock := a), m, bins, bytes)
      {
        ExactWhenAlone(w.(tlsBlock := a), m, bins, bytes);
      }
    } else {
      var i, j :| 0 <= i < j < |bins| && bins[j].tls.Some? && TlsSize(bins[i]) > 0;
      var c, start := FirstByteIsPointer(m, bins, bytes, i, j);
      assert InBlock(bins, c, start);
      PointersDiffer(start);
      assert UserArea(0x1_0000) && UserArea(0x1_0040);
      assert !(Exact(w.(tlsBlock := 0x1_0000), m, bins, bytes) && Exact(w.(tlsBlock := 0x1_0040), m, bins, bytes));
    }
  }

  lemma PointersDiffer(start: nat)
    requires start < 4096
    ensures U64(0x1_0000 + start) % 256 != U64(0x1_0040 + start) % 256
  {
  }

  // ---------- The thread pointer's own word ----------

  /** The word at the thread pointer is the thread pointer, as the psABI wants. */
  ghost predicate SelfWord(w: World, m: Mem, bins: seq<Binary>, bytes: seq<byte>)
    requires |bytes| == AREA_SIZE
  {
    InitTls(w, m, bins, bytes).Ok? && InitTls(w, m, bins, bytes).value.bytes[4096..] == Bytes(U64(w.tlsBlock + 4096), 8)
  }

  /** A TLS binary behind fewer than 8 but more than 0 bytes of TLS. */
  predicate Straddles(bins: seq<Binary>, j: nat)
    requires j < |bins|
  {
    bins[j].tls.Some? && 0 < TlsSum(bins, j) < 8
  }

  /** The last TLS binary with no TLS bytes in front of it. */
  lemma {:induction false} LastAtTop(bins: seq<Binary>, k: nat, i: nat) returns (j: nat)
    requires i < k <= |bins| && bins[i].tls.Some? && TlsSum(bins, i) == 0
    ensures i <= j < k && bins[j].tls.Some? && TlsSum(bins, j) == 0
    ensures forall l :: j < l < k && bins[l].tls.Some? ==> TlsSum(bins, l) > 0
  {
    if bins[k - 1].tls.Some? && TlsSum(bins, k - 1) == 0 {
      j := k - 1;
    } else {
      j := LastAtTop(bins, k - 1, i);
    }
  }

  lemma {:induction false} LastStraddling(bins: seq<Binary>, k: nat, i: nat) returns (j: nat)
    requires i < k <= |bins| && Straddles(bins, i)
    ensures i <= j < k && Straddles(bins, j) && forall l :: j < l < k ==> !Straddles(bins, l)
  {
    if Straddles(bins, k - 1) {
      j := k - 1;
    } else {
      j := LastStraddling(bins, k - 1, i);
    }
  }

  lemma SelfWordKept(w: World, m: Mem, bins: seq<Binary>, bytes: seq<byte>, i: nat)
    requires |bytes| == AREA_SIZE && InitTls(w, m, bins, bytes).Ok?
    requires i < |bins| && bins[i].tls.Some? && TlsSum(bins, i) == 0
    requires forall j :: 0 <= j < |bins| ==> !Straddles(bins, j)
    ensures SelfWord(w, m, bins, bytes)
  {
    hide Bytes, LayOut;
    var j := LastAtTop(bins, |bins|, i);
    forall l | j < l < |bins|
      ensures !(bins[l].tls.Some? && TlsSum(bins, l) < 8)
    {
      assert !Straddles(bins, l);
    }
    forall at: nat | 4096 <= at < AREA_SIZE
      ensures InitTls(w, m, bins, bytes).value.bytes[at] == Bytes(U64(w.tlsBlock + 4096), 8)[at - 4096]
    {
      WindowByte(w, m, bins, |bins|, bytes, j, at);
    }
  }

  lemma LowBytes(s: nat)
    requires 0 < s < 8
    ensures Bytes(0x1_1040 - s, 8)[s] != 0x40 && Bytes(0x1_1040, 8)[0] == 0x40
  {
    HighBytes(0x1_1040 - s, 8, s);
  }

  lemma {:induction false} HighBytes(v: nat, n: nat, i: nat)
    requires i < n
    ensures i >= 3 && v < 0x100_0000 ==> Bytes(v, n)[i] == 0
    ensures i == 2 && v < 0x100_0000 ==> Bytes(v, n)[i] == v / 0x1_0000
    ensures i == 1 ==> Bytes(v, n)[1] == v / 0x100 % 0x100
    ensures v == 0 ==> Bytes(v, n)[i] == 0
  {
    if i > 0 {
      HighBytes(v / 0x100, n - 1, i - 1);
    }
  }

  /** With at least one TLS binary in front, the word is right wherever the area
      lies exactly when no TLS binary is behind 1 to 7 bytes of TLS: its own
      pointer would overlap the word. */
  lemma SelfWordIff(w: World, m: Mem, bins: seq<Binary>, bytes: seq<byte>, i: nat)
    requires |bytes| == AREA_SIZE && InitTls(w, m, bins, bytes).Ok?
    requires i < |bins| && bins[i].tls.Some? && TlsSum(bins, i) == 0
    ensures (forall a: u64 :: UserArea(a) ==> SelfWord(w.(tlsBlock := a), m, bins, bytes))
            <==> forall j :: 0 <= j < |bins| ==> !Straddles(bins, j)
  {
    hide LayOut, Bytes;
    forall a: u64
      ensures InitTls(w.(tlsBlock := a), m, bins, bytes).Ok?
    {
      SameHalts(w, w.(tlsBlock := a), m, bins, |bins|, bytes);
    }
    if forall j :: 0 <= j < |bins| ==> !Straddles(bins, j) {
      forall a: u64
        ensures SelfWord(w.(tlsBlock := a), m, bins, bytes)
      {
        SelfWordKept(w.(tlsBlock := a), m, bins, bytes, i);
      }
    } else {
      var j0 :| 0 <= j0 < |bins| && Straddles(bins, j0);
      assert UserArea(0x1_0040);
      SelfWordLost(w.(tlsBlock := 0x1_0040), m, bins, bytes, j0);
    }
  }

  lemma SelfWordLost(w: World, m: Mem, bins: seq<Binary>, bytes: seq<byte>, j0: nat)
    requires |bytes| == AREA_SIZE && InitTls(w, m, bins, bytes).Ok? && w.tlsBlock == 0x1_0040
    requires j0 < |bins| && Straddles(bins, j0)
    ensures !SelfWord(w, m, bins, bytes)
  {
    hide LayOut, Bytes;
    var j := LastStraddling(bins, |bins|, j0);
    forall l | j < l < |bins|
      ensures !Window(bins, l, 4096)
    {
      SumGrows(bins, j, l);
      assert !Straddles(bins, l);
    }
    WindowByte(w, m, bins, |bins|, bytes, j, 4096);
    LowBytes(TlsSum(bins, j));
    var all := InitTls(w, m, bins, bytes).value.bytes;
    assert all[4096..][0] == all[4096];
  }
}

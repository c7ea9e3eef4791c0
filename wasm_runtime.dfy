/**
 * The run-time side of the Wasm type info (`typeInfo.kt`): readers for the words that
 * `collectTypeInfo` lays out, the super-class walk, the interface search and the v-table lookup.
 */
module WasmRuntime {
  import opened Wrappers
  import Ints
  import opened WasmLayout
  import WasmModule

  /**
   * Linear memory as the words at the addresses the readers load from; an address never written
   * holds zero. `SegmentMemory` decodes a data segment's bytes into these words.
   */
  type Memory = map<int, int>

  /** `wasm_i32_load` at `a`. */
  function Load(mem: Memory, a: int): int
  {
    if a in mem then mem[a] else 0
  }

  /** The first `n` words of a data segment: word `k` is the little-endian value of bytes `4k .. 4k + 4`. */
  function SegmentMemory(offset: int, bytes: seq<int>, n: nat): Memory
    requires 4 * n <= |bytes|
  {
    if n == 0 then map[]
    else SegmentMemory(offset, bytes, n - 1)[offset + 4 * (n - 1) := FromLittleEndianBytes(bytes[4 * (n - 1) .. 4 * n])]
  }

  lemma {:induction false} SegmentMemoryAt(offset: int, bytes: seq<int>, n: nat, k: nat)
    requires 4 * n <= |bytes| && k < n
    ensures Load(SegmentMemory(offset, bytes, n), offset + 4 * k) == FromLittleEndianBytes(bytes[4 * k .. 4 * k + 4])
    decreases n
  {
    if k < n - 1 {
      SegmentMemoryAt(offset, bytes, n - 1, k);
    }
  }

  /** Memory from `base` on holds the words `ws`. */
  predicate HoldsWords(mem: Memory, base: int, ws: seq<int>)
  {
    forall k :: 0 <= k < |ws| ==> Load(mem, base + 4 * k) == ws[k]
  }

  predicate AllInts(ws: seq<int>) { forall i :: 0 <= i < |ws| ==> Ints.IsInt(ws[i]) }

  /** A segment holding the encoding of `ws` loads back `ws`, word by word. */
  lemma SegmentHoldsWords(offset: int, ws: seq<int>)
    requires AllInts(ws)
    ensures HoldsWords(SegmentMemory(offset, WordsToBytes(ws), |ws|), offset, ws)
  {
    forall k | 0 <= k < |ws| ensures Load(SegmentMemory(offset, WordsToBytes(ws), |ws|), offset + 4 * k) == ws[k] {
      SegmentWordAt(offset, ws, k, SegmentMemory(offset, WordsToBytes(ws), |ws|));
    }
  }

  /** Word `k` of a segment holding the encoding of `ws` loads back `ws[k]`. */
  lemma SegmentWordAt(offset: int, ws: seq<int>, k: nat, seg: Memory)
    requires k < |ws| && Ints.IsInt(ws[k]) && seg == SegmentMemory(offset, WordsToBytes(ws), |ws|)
    ensures Load(seg, offset + 4 * k) == ws[k]
  {
    WordsToBytesAt(ws, k);
    SegmentMemoryAt(offset, WordsToBytes(ws), |ws|, k);
    LittleEndianRoundTrip(ws[k]);
  }

  // ---------------------------------------------------------------------------
  // Offsets and readers.

  const TYPE_INFO_VTABLE_OFFSET: int := 8
  const TYPE_INFO_VTABLE_LENGTH_OFFSET: int := 4
  const SUPER_CLASS_ID_OFFSET: int := 0

  function GetVtablePtr(typeInfo: int): int { typeInfo + TYPE_INFO_VTABLE_OFFSET }

  function GetVtableLength(mem: Memory, typeInfo: int): int { Load(mem, typeInfo + TYPE_INFO_VTABLE_LENGTH_OFFSET) }

  function GetSuperClassId(mem: Memory, typeInfo: int): int { Load(mem, typeInfo + SUPER_CLASS_ID_OFFSET) }

  function GetVirtualMethodId(mem: Memory, typeInfo: int, slot: int): int { Load(mem, GetVtablePtr(typeInfo) + slot * 4) }

  /** `getInterfaceListLength` as written: it loads the v-table length word. */
  function GetInterfaceListLengthAsWritten(mem: Memory, typeInfo: int): int
  {
    Load(mem, typeInfo + TYPE_INFO_VTABLE_LENGTH_OFFSET)
  }

  /** The interface-list size word, after the v-table and its signatures (the word `isInterface` reads). */
  function InterfaceListSizePtr(mem: Memory, typeInfo: int): int
  {
    GetVtablePtr(typeInfo) + 2 * GetVtableLength(mem, typeInfo) * 4
  }

  /** `getInterfaceListLength` as evidently intended: the interface-list size word. */
  function GetInterfaceListLength(mem: Memory, typeInfo: int): int
  {
    Load(mem, InterfaceListSizePtr(mem, typeInfo))
  }

  // ---------------------------------------------------------------------------
  // The interface-method lookup.

  /** The first slot from `from` on, below `len`, whose signature word at `sigs + 4·slot` is `sig`. */
  function FirstSlot(mem: Memory, sigs: int, len: int, sig: int, from: int): (r: Option<int>)
    ensures r.Some? ==> (from <= r.value < len && Load(mem, sigs + r.value * 4) == sig
      && forall j :: from <= j < r.value ==> Load(mem, sigs + j * 4) != sig)
    ensures r.None? ==> forall j :: from <= j < len ==> Load(mem, sigs + j * 4) != sig
    decreases len - from
  {
    if from >= len then None
    else if Load(mem, sigs + from * 4) == sig then Some(from)
    else FirstSlot(mem, sigs, len, sig, from + 1)
  }

  /** What `getInterfaceMethodId` finds: the method id of the first matching slot, or `None` for the trap. */
  function InterfaceMethodId(mem: Memory, typeInfo: int, sig: int): Option<int>
  {
    var len := GetVtableLength(mem, typeInfo);
    match FirstSlot(mem, GetVtablePtr(typeInfo) + len * 4, len, sig, 0)
    case None => None
    case Some(slot) => Some(GetVirtualMethodId(mem, typeInfo, slot))
  }

  /** `getInterfaceMethodId`; `None` stands for `wasm_unreachable()`. */
  method GetInterfaceMethodId(mem: Memory, typeInfo: int, methodSignatureId: int) returns (r: Option<int>)
    ensures r == InterfaceMethodId(mem, typeInfo, methodSignatureId)
  {
    var vtableLength := GetVtableLength(mem, typeInfo);
    var vtableSignatures := GetVtablePtr(typeInfo) + vtableLength * 4;
    var virtualFunctionSlot := 0;
    while virtualFunctionSlot < vtableLength
      invariant 0 <= virtualFunctionSlot
      invariant vtableLength > 0 ==> virtualFunctionSlot <= vtableLength
      invariant FirstSlot(mem, vtableSignatures, vtableLength, methodSignatureId, 0)
        == FirstSlot(mem, vtableSignatures, vtableLength, methodSignatureId, virtualFunctionSlot)
      decreases vtableLength - virtualFunctionSlot
    {
      if Load(mem, vtableSignatures + virtualFunctionSlot * 4) == methodSignatureId {
        return Some(GetVirtualMethodId(mem, typeInfo, virtualFunctionSlot));
      }
      virtualFunctionSlot := virtualFunctionSlot + 1;
    }
    return None;
  }

  // ---------------------------------------------------------------------------
  // The interface check.

  /** One of the first `n` words of the list at `ptr` is `id`. */
  function ListContains(mem: Memory, ptr: int, n: int, id: int): (b: bool)
    ensures b <==> exists k :: 0 <= k < n && Load(mem, ptr + k * 4) == id
    decreases if n < 0 then 0 else n
  {
    if n <= 0 then false
    else ListContains(mem, ptr, n - 1, id) || Load(mem, ptr + (n - 1) * 4) == id
  }

  /** What `isInterface` answers: `id` is in the list whose size word is at `InterfaceListSizePtr`. */
  predicate ImplementsInterface(mem: Memory, typeInfo: int, interfaceId: int)
  {
    var sizePtr := InterfaceListSizePtr(mem, typeInfo);
    ListContains(mem, sizePtr + 4, Load(mem, sizePtr), interfaceId)
  }

  method IsInterface(mem: Memory, typeInfo: int, interfaceId: int) returns (b: bool)
    ensures b == ImplementsInterface(mem, typeInfo, interfaceId)
  {
    var vtableLength := GetVtableLength(mem, typeInfo);
    var interfaceListSizePtr := GetVtablePtr(typeInfo) + 2 * vtableLength * 4;
    var interfaceListPtr := interfaceListSizePtr + 4;
    var ifaceListSize := Load(mem, interfaceListSizePtr);
    var ifaceSlot := 0;
    while ifaceSlot < ifaceListSize
      invariant 0 <= ifaceSlot
      invariant ifaceListSize > 0 ==> ifaceSlot <= ifaceListSize
      invariant !ListContains(mem, interfaceListPtr, ifaceSlot, interfaceId)
      decreases ifaceListSize - ifaceSlot
    {
      var supportedIface := Load(mem, interfaceListPtr + ifaceSlot * 4);
      if supportedIface == interfaceId {
        return true;
      }
      ifaceSlot := ifaceSlot + 1;
    }
    return false;
  }

  // ---------------------------------------------------------------------------
  // The super-class walk.

  /** Every class in `ids` but `Any` (id 1) has a smaller super class id in `ids`. */
  predicate ChainClosed(mem: Memory, ids: set<int>)
  {
    1 in ids && forall c :: c in ids && c != 1 ==> GetSuperClassId(mem, c) in ids && 1 <= GetSuperClassId(mem, c) < c
  }

  /** The ids from `id` up to `Any`, each followed by its super class id. */
  function SuperChain(mem: Memory, ids: set<int>, id: int): (r: seq<int>)
    requires ChainClosed(mem, ids) && id in ids && 1 <= id
    ensures |r| >= 1 && r[0] == id && r[|r| - 1] == 1
    ensures forall i :: 0 <= i < |r| - 1 ==> 1 < r[i] && r[i + 1] == GetSuperClassId(mem, r[i])
    ensures forall i :: 0 <= i < |r| ==> 1 <= r[i] <= id && r[i] in ids
    decreases id
  {
    if id == 1 then [1]
    else
      var rest := SuperChain(mem, ids, GetSuperClassId(mem, id));
      assert forall i :: 1 <= i < |rest| + 1 ==> ([id] + rest)[i] == rest[i - 1];
      [id] + rest
  }

  /** `isSubClassOfImpl`: walks the super chain up to `Any`; `o` is a super class of `c` exactly when it is on that chain. */
  function IsSubClassOfImpl(mem: Memory, ids: set<int>, currentClassId: int, otherClassId: int): (r: bool)
    requires ChainClosed(mem, ids) && currentClassId in ids && 1 <= currentClassId
    ensures r <==> otherClassId in SuperChain(mem, ids, currentClassId)
    decreases currentClassId
  {
    if currentClassId == otherClassId then true
    else if currentClassId == 1 && otherClassId != 1 then false
    else IsSubClassOfImpl(mem, ids, GetSuperClassId(mem, currentClassId), otherClassId)
  }

  /** Every class is a subclass of itself and of `Any`, and `Any` of nothing else. */
  lemma {:induction false} SubClassOfAny(mem: Memory, ids: set<int>, c: int, o: int)
    requires ChainClosed(mem, ids) && c in ids && 1 <= c
    ensures IsSubClassOfImpl(mem, ids, c, c) && IsSubClassOfImpl(mem, ids, c, 1)
    ensures IsSubClassOfImpl(mem, ids, 1, o) <==> o == 1
    decreases c
  {
    if c != 1 {
      SubClassOfAny(mem, ids, GetSuperClassId(mem, c), o);
    }
  }

  // ---------------------------------------------------------------------------
  // The readers agree with the layout `collectTypeInfo` writes.

  lemma ClassWordsAt(superId: int, vtable: seq<int>, ifaces: seq<int>)
    ensures var ws := WasmModule.ClassWords(superId, vtable, ifaces); var n := |vtable|;
      |ws| == 3 + 2 * n + |ifaces| && ws[0] == superId && ws[1] == n && ws[2 + 2 * n] == |ifaces|
      && (forall k :: 0 <= k < n ==> ws[2 + k] == vtable[k] && ws[2 + n + k] == -1)
      && (forall k :: 0 <= k < |ifaces| ==> ws[3 + 2 * n + k] == ifaces[k])
  {
  }

  /** The super id, the v-table length and each v-table slot read back as written. */
  lemma ReadsHeader(mem: Memory, typeInfo: int, superId: int, vtable: seq<int>, ifaces: seq<int>)
    requires HoldsWords(mem, typeInfo, WasmModule.ClassWords(superId, vtable, ifaces))
    ensures GetSuperClassId(mem, typeInfo) == superId
    ensures GetVtableLength(mem, typeInfo) == |vtable|
    ensures forall k :: 0 <= k < |vtable| ==> GetVirtualMethodId(mem, typeInfo, k) == vtable[k]
  {
    var ws := WasmModule.ClassWords(superId, vtable, ifaces);
    ClassWordsAt(superId, vtable, ifaces);
    assert Load(mem, typeInfo + 4 * (0)) == ws[0];
    assert Load(mem, typeInfo + 4 * (1)) == ws[1];
    ReadsSlots(mem, typeInfo, ws, vtable);
  }

  /** Words `2 ..` of a type info are its v-table slots. */
  lemma ReadsSlots(mem: Memory, typeInfo: int, ws: seq<int>, vtable: seq<int>)
    requires HoldsWords(mem, typeInfo, ws) && 2 + |vtable| <= |ws|
    requires forall k :: 0 <= k < |vtable| ==> ws[2 + k] == vtable[k]
    ensures forall k :: 0 <= k < |vtable| ==> GetVirtualMethodId(mem, typeInfo, k) == vtable[k]
  {
    forall k | 0 <= k < |vtable| ensures GetVirtualMethodId(mem, typeInfo, k) == vtable[k] {
      assert Load(mem, typeInfo + 4 * (2 + k)) == ws[2 + k];
      assert typeInfo + 4 * (2 + k) == GetVtablePtr(typeInfo) + k * 4;
    }
  }

  /** Each signature word is `-1`, so the interface-method lookup traps for every other signature. */
  lemma ReadsSignatures(mem: Memory, typeInfo: int, superId: int, vtable: seq<int>, ifaces: seq<int>, sig: int)
    requires HoldsWords(mem, typeInfo, WasmModule.ClassWords(superId, vtable, ifaces))
    ensures sig != -1 ==> InterfaceMethodId(mem, typeInfo, sig) == None
    ensures sig == -1 && |vtable| > 0 ==> InterfaceMethodId(mem, typeInfo, sig) == Some(vtable[0])
  {
    var ws := WasmModule.ClassWords(superId, vtable, ifaces);
    var n := |vtable|;
    ReadsHeader(mem, typeInfo, superId, vtable, ifaces);
    ClassWordsAt(superId, vtable, ifaces);
    var sigs := GetVtablePtr(typeInfo) + n * 4;
    forall k | 0 <= k < n ensures Load(mem, sigs + k * 4) == -1 {
      assert Load(mem, typeInfo + 4 * (2 + n + k)) == ws[2 + n + k];
      assert typeInfo + 4 * (2 + n + k) == sigs + k * 4;
    }
    if sig == -1 && n > 0 {
      assert Load(mem, sigs + 0 * 4) == -1;
    }
  }

  /** The interface-list size and ids read back, so `isInterface` finds exactly the listed ids. */
  lemma ReadsInterfaces(mem: Memory, typeInfo: int, superId: int, vtable: seq<int>, ifaces: seq<int>, id: int)
    requires HoldsWords(mem, typeInfo, WasmModule.ClassWords(superId, vtable, ifaces))
    ensures GetInterfaceListLength(mem, typeInfo) == |ifaces|
    ensures ImplementsInterface(mem, typeInfo, id) <==> id in ifaces
  {
    InterfaceListWords(mem, typeInfo, superId, vtable, ifaces);
    var sizePtr := InterfaceListSizePtr(mem, typeInfo);
    assert ImplementsInterface(mem, typeInfo, id) == ListContains(mem, sizePtr + 4, |ifaces|, id);
    ListContainsWords(mem, sizePtr + 4, ifaces, id);
  }

  /** The interface list of a class struct: its size word, then one word per interface id. */
  lemma InterfaceListWords(mem: Memory, typeInfo: int, superId: int, vtable: seq<int>, ifaces: seq<int>)
    requires HoldsWords(mem, typeInfo, WasmModule.ClassWords(superId, vtable, ifaces))
    ensures GetInterfaceListLength(mem, typeInfo) == |ifaces|
    ensures var sizePtr := InterfaceListSizePtr(mem, typeInfo);
      Load(mem, sizePtr) == |ifaces| && forall k :: 0 <= k < |ifaces| ==> Load(mem, sizePtr + 4 + k * 4) == ifaces[k]
  {
    var ws := WasmModule.ClassWords(superId, vtable, ifaces);
    var n := |vtable|;
    ReadsHeader(mem, typeInfo, superId, vtable, ifaces);
    ClassWordsAt(superId, vtable, ifaces);
    var sizePtr := InterfaceListSizePtr(mem, typeInfo);
    assert sizePtr == typeInfo + 4 * (2 + 2 * n);
    assert Load(mem, typeInfo + 4 * (2 + 2 * n)) == ws[2 + 2 * n];
    ReadsInterfaceIds(mem, typeInfo, ws, n, ifaces);
  }

  /** Words `3 + 2n ..` of a type info with `n` slots are its interface ids. */
  lemma ReadsInterfaceIds(mem: Memory, typeInfo: int, ws: seq<int>, n: int, ifaces: seq<int>)
    requires HoldsWords(mem, typeInfo, ws) && 0 <= n && 3 + 2 * n + |ifaces| <= |ws|
    requires forall k :: 0 <= k < |ifaces| ==> ws[3 + 2 * n + k] == ifaces[k]
    ensures forall k :: 0 <= k < |ifaces| ==> Load(mem, typeInfo + 4 * (2 + 2 * n) + 4 + k * 4) == ifaces[k]
  {
    forall k | 0 <= k < |ifaces| ensures Load(mem, typeInfo + 4 * (2 + 2 * n) + 4 + k * 4) == ifaces[k] {
      assert Load(mem, typeInfo + 4 * (3 + 2 * n + k)) == ws[3 + 2 * n + k];
      assert typeInfo + 4 * (3 + 2 * n + k) == typeInfo + 4 * (2 + 2 * n) + 4 + k * 4;
    }
  }

  /** A list of words in memory contains an id exactly when the words do. */
  lemma ListContainsWords(mem: Memory, ptr: int, xs: seq<int>, id: int)
    requires forall k :: 0 <= k < |xs| ==> Load(mem, ptr + k * 4) == xs[k]
    ensures ListContains(mem, ptr, |xs|, id) <==> id in xs
  {
    if id in xs {
      var k :| 0 <= k < |xs| && xs[k] == id;
      assert Load(mem, ptr + k * 4) == id;
    }
    if ListContains(mem, ptr, |xs|, id) {
      var k :| 0 <= k < |xs| && Load(mem, ptr + k * 4) == id;
      assert xs[k] == id;
    }
  }


  /**
   * `getInterfaceListLength` as written answers the v-table length: a class with one virtual
   * method and no interfaces reports one interface.
   */
  lemma InterfaceListLengthReadsVtableLength(mem: Memory, typeInfo: int, superId: int, vtable: seq<int>, ifaces: seq<int>)
    requires HoldsWords(mem, typeInfo, WasmModule.ClassWords(superId, vtable, ifaces))
    ensures GetInterfaceListLengthAsWritten(mem, typeInfo) == |vtable|
    ensures |vtable| == 1 && ifaces == [] ==>
      GetInterfaceListLengthAsWritten(mem, typeInfo) == 1 && GetInterfaceListLength(mem, typeInfo) == 0
  {
    ReadsHeader(mem, typeInfo, superId, vtable, ifaces);
    ReadsInterfaces(mem, typeInfo, superId, vtable, ifaces, 0);
  }

  // ---------------------------------------------------------------------------
  // The memory image of the data segments `collectTypeInfo` emits.

  function Image(datas: seq<WasmModule.WasmData>): Memory
  {
    if datas == [] then map[]
    else
      var d := datas[|datas| - 1];
      var b := WasmModule.Bytes(d);
      Image(datas[..|datas| - 1]) + SegmentMemory(d.offset, b, |b| / 4)
  }

  lemma {:induction false} SegmentKeysInside(offset: int, bytes: seq<int>, n: nat, a: int)
    requires 4 * n <= |bytes| && a in SegmentMemory(offset, bytes, n)
    ensures offset <= a < offset + 4 * n
    decreases n
  {
    if a != offset + 4 * (n - 1) {
      SegmentKeysInside(offset, bytes, n - 1, a);
    }
  }

  lemma {:induction false} ImageKeysBelow(datas: seq<WasmModule.WasmData>, next: int, a: int)
    requires WasmModule.Contiguous(datas, next) && a in Image(datas)
    ensures 1 <= a < next
    decreases |datas|
  {
    var d := datas[|datas| - 1];
    var init := datas[..|datas| - 1];
    var b := WasmModule.Bytes(d);

    if a in SegmentMemory(d.offset, b, |b| / 4) {
      SegmentKeysInside(d.offset, b, |b| / 4, a);
      if init != [] {
        assert init[|init| - 1] == datas[|datas| - 2];
        ImageStartsAtOne(init, d.offset);
      }
    } else {
      ImageKeysBelow(init, d.offset, a);
    }
  }

  lemma ImageStartsAtOne(datas: seq<WasmModule.WasmData>, next: int)
    requires WasmModule.Contiguous(datas, next) && datas != []
    ensures datas[|datas| - 1].offset >= 1
  {
    OffsetsGrow(datas, next, 0, |datas| - 1);
  }

  lemma {:induction false} OffsetsGrow(datas: seq<WasmModule.WasmData>, next: int, j: nat, l: nat)
    requires WasmModule.Contiguous(datas, next) && j <= l < |datas|
    ensures datas[l].offset >= datas[j].offset + (if j < l then SizeInBytes(datas[j].struct) else 0)
    ensures datas[l].offset >= 1
    decreases l
  {
    WasmModule.ContiguousAt(datas, next, l);
    if j < l {
      OffsetsGrow(datas, next, j, l - 1);
    } else if l > 0 {
      OffsetsGrow(datas, next, l - 1, l - 1);
    }
  }

  /** The memory one data segment sets up on its own. */
  function SegmentOf(d: WasmModule.WasmData): Memory
  {
    var b := WasmModule.Bytes(d);
    SegmentMemory(d.offset, b, |b| / 4)
  }

  /** Words held above every key of `m` survive merging `top` over `m`. */
  lemma HoldsWordsAbove(m: Memory, top: Memory, lo: int, base: int, ws: seq<int>)
    requires forall a :: a in m ==> a < lo
    requires lo <= base && HoldsWords(top, base, ws)
    ensures HoldsWords(m + top, base, ws)
  {
    forall k | 0 <= k < |ws| ensures Load(m + top, base + 4 * k) == ws[k] {
      assert Load(top, base + 4 * k) == ws[k];
    }
  }

  /** Words held below every key of `top` survive merging `top` over `m`. */
  lemma HoldsWordsBelow(m: Memory, top: Memory, hi: int, base: int, ws: seq<int>)
    requires forall a :: a in top ==> hi <= a
    requires base + 4 * |ws| <= hi && HoldsWords(m, base, ws)
    ensures HoldsWords(m + top, base, ws)
  {
    forall k | 0 <= k < |ws| ensures Load(m + top, base + 4 * k) == ws[k] {
      assert Load(m, base + 4 * k) == ws[k];
    }
  }

  /** Words a segment holds within its extent are in the image, at the same addresses. */
  lemma {:induction false} ImageHoldsWords(datas: seq<WasmModule.WasmData>, next: int, j: nat, ws: seq<int>)
    requires WasmModule.Contiguous(datas, next) && j < |datas|
    requires HoldsWords(SegmentOf(datas[j]), datas[j].offset, ws) && 4 * |ws| <= SizeInBytes(datas[j].struct)
    ensures HoldsWords(Image(datas), datas[j].offset, ws)
    decreases |datas|
  {
    var d := datas[|datas| - 1];
    var init := datas[..|datas| - 1];
    var b := WasmModule.Bytes(d);
    var top := SegmentMemory(d.offset, b, |b| / 4);
    assert Image(datas) == Image(init) + top;
    if j == |datas| - 1 {
      forall a | a in Image(init) ensures a < d.offset {
        ImageKeysBelow(init, d.offset, a);
      }
      HoldsWordsAbove(Image(init), top, d.offset, d.offset, ws);
    } else {
      assert datas[j] == init[j];
      OffsetsGrow(datas, next, j, |datas| - 1);
      forall a | a in top ensures d.offset <= a {
        SegmentKeysInside(d.offset, b, |b| / 4, a);
      }
      ImageHoldsWords(init, d.offset, j, ws);
      HoldsWordsBelow(Image(init), top, d.offset, datas[j].offset, ws);
    }
  }

  /** A class struct among the segments is in the image word for word, at its id. */
  lemma ImageHoldsClass(datas: seq<WasmModule.WasmData>, next: int, j: nat,
                        isAny: bool, superId: int, vtable: seq<int>, ifaces: seq<int>)
    requires WasmModule.Contiguous(datas, next) && j < |datas|
    requires datas[j].struct == WasmModule.ClassStruct(datas[j].offset, isAny, superId, vtable, ifaces)
    requires isAny ==> superId == 0
    requires AllInts(WasmModule.ClassWords(superId, vtable, ifaces))
    ensures HoldsWords(Image(datas), datas[j].offset, WasmModule.ClassWords(superId, vtable, ifaces))
  {
    var ws := WasmModule.ClassWords(superId, vtable, ifaces);
    WasmModule.ClassDataBytes(datas[j], isAny, superId, vtable, ifaces);
    SegmentHoldsWords(datas[j].offset, ws);
    assert SegmentOf(datas[j]) == SegmentMemory(datas[j].offset, WordsToBytes(ws), |ws|);
    ImageHoldsWords(datas, next, j, ws);
  }
}

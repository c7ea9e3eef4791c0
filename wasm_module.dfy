/**
 * `collectTypeInfo` of the Wasm back end (`ModuleTransformer.kt`): interface ids, class type-info
 * structs laid out one after another from address 1, dense virtual-function ids, and v-tables whose
 * inherited slots come first.
 */
module WasmModule {
  import opened Wrappers
  import Text
  import opened WasmLayout

  /** A direct supertype of a class, and whether it is an interface. */
  datatype SuperRef = SuperRef(ref: nat, isInterface: bool)

  /** A virtual function of a class (after `realOverrideTarget`), with its signature. */
  datatype VirtualFunction = VirtualFunction(func: nat, signature: nat)

  /**
   * What `collectTypeInfo` reads of an `IrClass`; `implementedInterfaces` is
   * `allSuperClasses().filter { it.isInterface }`.
   */
  datatype IrClass = IrClass(
    ref: nat, isInterface: bool, isAny: bool,
    superClasses: seq<SuperRef>, implementedInterfaces: seq<nat>,
    virtualFunctions: seq<VirtualFunction>, fields: seq<nat>)

  datatype ClassMetadata = ClassMetadata(
    id: int, superId: int, fields: seq<nat>, interfaces: seq<int>, virtualMethods: seq<VirtualMethodMetadata>)

  /** The metadata `Any` uses as its super class: id 0 and nothing inherited. */
  const ANY_SUPER: ClassMetadata := ClassMetadata(0, 0, [], [], [])

  /** A data segment at `offset`: the struct whose `toBytes()` it holds. */
  datatype WasmData = WasmData(offset: int, struct: LMElement)

  function Bytes(d: WasmData): (r: seq<int>)
    ensures |r| == SizeInBytes(d.struct)
  {
    BytesMatchSize(d.struct);
    ToBytes(d.struct)
  }

  datatype TypeInfoState = TypeInfoState(
    classes: map<nat, ClassMetadata>,
    interfaces: map<nat, int>,
    /** `virtualFunctionIds` in insertion order: the id of `virtualFunctionIds[i]` is `i`. */
    virtualFunctionIds: seq<nat>,
    datas: seq<WasmData>,
    classId: int,
    ifaceId: int)

  const INITIAL: TypeInfoState := TypeInfoState(map[], map[], [], [], 1, 1)

  // ---------------------------------------------------------------------------
  // Virtual-function ids.

  predicate Distinct(xs: seq<nat>) { forall i, j :: 0 <= i < j < |xs| ==> xs[i] != xs[j] }

  function IndexOf(xs: seq<nat>, x: nat): (r: nat)
    requires x in xs
    ensures r < |xs| && xs[r] == x
    ensures forall i :: 0 <= i < r ==> xs[i] != x
  {
    if xs[0] == x then 0 else 1 + IndexOf(xs[1..], x)
  }

  /** `virtualFunctionIds.getOrPut(vf) { virtualFunctionIds.size }` for each function in turn. */
  function NumberFunctions(ids: seq<nat>, fs: seq<nat>): (r: seq<nat>)
    ensures ids <= r
    ensures forall f :: f in fs ==> f in r
    ensures forall x :: x in r ==> x in ids || x in fs
    ensures Distinct(ids) ==> Distinct(r)
    decreases |fs|
  {
    if fs == [] then ids
    else
      var last := fs[|fs| - 1];
      var before := NumberFunctions(ids, fs[..|fs| - 1]);
      if last in before then before else before + [last]
  }

  /** Ids are stable: a function numbered before keeps its id. */
  lemma IdsAreStable(ids: seq<nat>, fs: seq<nat>, f: nat)
    requires Distinct(ids) && f in ids
    ensures IndexOf(NumberFunctions(ids, fs), f) == IndexOf(ids, f)
  {
    var r := NumberFunctions(ids, fs);
    var i := IndexOf(ids, f);
    assert r[i] == f;
    var j := IndexOf(r, f);
    assert Distinct(r);
  }

  /** A function not numbered before gets the current number of ids. */
  lemma NewIdIsSize(ids: seq<nat>, f: nat)
    requires f !in ids
    ensures NumberFunctions(ids, [f]) == ids + [f]
    ensures IndexOf(ids + [f], f) == |ids|
  {
    assert [f][..0] == [];
  }

  // ---------------------------------------------------------------------------
  // V-table layout.

  /** Position of the entry for signature `sig`, if any. */
  function FindSignature(vms: seq<VirtualMethodMetadata>, sig: nat): (r: Option<nat>)
    ensures r.Some? ==> r.value < |vms| && vms[r.value].signature == sig
    ensures r.None? ==> forall i :: 0 <= i < |vms| ==> vms[i].signature != sig
  {
    if vms == [] then None
    else if vms[0].signature == sig then Some(0)
    else match FindSignature(vms[1..], sig)
      case None => None
      case Some(i) => Some(i + 1)
  }

  predicate DistinctSignatures(vms: seq<VirtualMethodMetadata>)
  {
    forall i, j :: 0 <= i < j < |vms| ==> vms[i].signature != vms[j].signature
  }

  /** The last function with signature `sig`. */
  function LastWithSignature(vfs: seq<VirtualFunction>, sig: nat): (r: Option<VirtualFunction>)
    ensures r.Some? ==> r.value in vfs && r.value.signature == sig
    ensures r.None? <==> forall vf :: vf in vfs ==> vf.signature != sig
    decreases |vfs|
  {
    if vfs == [] then None
    else if vfs[|vfs| - 1].signature == sig then Some(vfs[|vfs| - 1])
    else
      var r := LastWithSignature(vfs[..|vfs| - 1], sig);
      assert vfs == vfs[..|vfs| - 1] + [vfs[|vfs| - 1]];
      r
  }

  /** One `put` into the `LinkedHashMap`: replace the entry of the same signature, or append. */
  function Put(acc: seq<VirtualMethodMetadata>, vf: VirtualFunction): (r: seq<VirtualMethodMetadata>)
    requires DistinctSignatures(acc)
    ensures DistinctSignatures(r)
    ensures forall i :: 0 <= i < |r| ==>
      if r[i].signature == vf.signature then r[i] == VirtualMethodMetadata(vf.func, vf.signature) else r[i] in acc
    ensures forall sig :: FindSignature(acc, sig).Some? ==> FindSignature(r, sig).Some?
    ensures FindSignature(r, vf.signature).Some?
  {
    var entry := VirtualMethodMetadata(vf.func, vf.signature);
    match FindSignature(acc, vf.signature)
    case Some(i) =>
      var r := acc[i := entry];
      assert forall k :: 0 <= k < |r| ==> r[k].signature == acc[k].signature;
      assert forall sig :: FindSignature(acc, sig).Some? ==> FindSignature(r, sig).Some? by {
        forall sig | FindSignature(acc, sig).Some? ensures FindSignature(r, sig).Some? {
          assert r[FindSignature(acc, sig).value].signature == sig;
        }
      }
      assert r[i].signature == vf.signature;
      r
    case None =>
      var r := acc + [entry];
      assert forall sig :: FindSignature(acc, sig).Some? ==> FindSignature(r, sig).Some? by {
        forall sig | FindSignature(acc, sig).Some? ensures FindSignature(r, sig).Some? {
          assert r[FindSignature(acc, sig).value].signature == sig;
        }
      }
      assert r[|acc|].signature == vf.signature;
      r
  }

  /**
   * `associateBy { functionSignature(it) }`: one entry per signature, each made of one of the
   * functions, and an entry for every signature present.
   */
  function AssociateBy(vfs: seq<VirtualFunction>): (r: seq<VirtualMethodMetadata>)
    ensures DistinctSignatures(r)
    ensures forall i :: 0 <= i < |r| ==> VirtualFunction(r[i].func, r[i].signature) in vfs
    ensures forall vf :: vf in vfs ==> FindSignature(r, vf.signature).Some?
    decreases |vfs|
  {
    if vfs == [] then []
    else
      var init := vfs[..|vfs| - 1];
      var vf := vfs[|vfs| - 1];
      var r := Put(AssociateBy(init), vf);
      assert forall x :: x in vfs ==> x in init || x == vf by {
        assert vfs == init + [vf];
      }
      assert forall x :: x in init ==> x in vfs by {
        assert vfs == init + [vf];
      }
      r
  }

  /** The entry kept for a signature is the last function with that signature. */
  lemma {:induction false} AssociateByKeepsLast(vfs: seq<VirtualFunction>)
    ensures forall i :: 0 <= i < |AssociateBy(vfs)| ==>
      LastWithSignature(vfs, AssociateBy(vfs)[i].signature)
        == Some(VirtualFunction(AssociateBy(vfs)[i].func, AssociateBy(vfs)[i].signature))
    decreases |vfs|
  {
    if vfs != [] {
      var init := vfs[..|vfs| - 1];
      var vf := vfs[|vfs| - 1];
      AssociateByKeepsLast(init);
      var acc := AssociateBy(init);
      var r := AssociateBy(vfs);
      assert r == Put(acc, vf);
      forall i | 0 <= i < |r|
        ensures LastWithSignature(vfs, r[i].signature) == Some(VirtualFunction(r[i].func, r[i].signature))
      {
        if r[i].signature != vf.signature {
          var j :| 0 <= j < |acc| && acc[j] == r[i];
          assert LastWithSignature(init, acc[j].signature) == Some(VirtualFunction(acc[j].func, acc[j].signature));
        }
      }
    }
  }

  /** Each slot of the super class, in order, filled with the class's function of that signature. */
  function InheritedMethods(superMethods: seq<VirtualMethodMetadata>, own: seq<VirtualMethodMetadata>): (r: Result<seq<VirtualMethodMetadata>>)
    ensures r.Ok? <==> forall i :: 0 <= i < |superMethods| ==> FindSignature(own, superMethods[i].signature).Some?
    ensures r.Ok? ==> (|r.value| == |superMethods|
      && forall i :: 0 <= i < |superMethods| ==> r.value[i].signature == superMethods[i].signature && r.value[i] in own)
  {
    if superMethods == [] then Ok([])
    else match FindSignature(own, superMethods[0].signature)
      case None => Err("NullPointerException")
      case Some(k) =>
        match InheritedMethods(superMethods[1..], own)
        case Err(e) => Err(e)
        case Ok(rest) =>
          var r := [VirtualMethodMetadata(own[k].func, own[k].signature)] + rest;
          assert forall i :: 1 <= i < |superMethods| ==> superMethods[i] == superMethods[1..][i - 1];
          Ok(r)
  }

  /** The class's functions whose signatures the super class does not have, in their own order. */
  function NewMethods(own: seq<VirtualMethodMetadata>, superSignatures: set<nat>): (r: seq<VirtualMethodMetadata>)
    ensures forall m :: m in r <==> m in own && m.signature !in superSignatures
  {
    if own == [] then []
    else (if own[0].signature in superSignatures then [] else [own[0]]) + NewMethods(own[1..], superSignatures)
  }

  /** The v-table: each slot's function id. */
  function Vtable(vms: seq<VirtualMethodMetadata>, ids: seq<nat>): (r: seq<int>)
    requires forall i :: 0 <= i < |vms| ==> vms[i].func in ids
    ensures |r| == |vms|
    ensures forall i :: 0 <= i < |vms| ==> r[i] == IndexOf(ids, vms[i].func)
  {
    if vms == [] then [] else [IndexOf(ids, vms[0].func) as int] + Vtable(vms[1..], ids)
  }

  function Repeat(x: int, n: nat): (r: seq<int>)
    ensures |r| == n && forall i :: 0 <= i < n ==> r[i] == x
  {
    if n == 0 then [] else [x] + Repeat(x, n - 1)
  }

  // ---------------------------------------------------------------------------
  // The class type-info struct.

  function ClassStruct(classId: int, isAny: bool, superId: int, vtable: seq<int>, interfaceIds: seq<int>): LMElement
  {
    LMStruct("Class TypeInfo: " + Text.IntToString(classId) + " ", ClassElements(isAny, superId, vtable, interfaceIds))
  }

  function ClassElements(isAny: bool, superId: int, vtable: seq<int>, interfaceIds: seq<int>): seq<LMElement>
  {
    [ LMFieldI32(if isAny then "Any's empty super class" else "Super class", if isAny then 0 else superId),
      LMFieldI32("V-table length", |vtable|),
      LMArrayI32("V-table", vtable),
      LMArrayI32("Signatures Stub", Repeat(-1, |vtable|)),
      InterfaceList(interfaceIds)]
  }

  function InterfaceList(interfaceIds: seq<int>): LMElement
  {
    LMStruct("Implemented interfaces array", [LMFieldI32("size", |interfaceIds|), LMArrayI32("data", interfaceIds)])
  }

  /** The words of a class's type info, in memory order. */
  function ClassWords(superId: int, vtable: seq<int>, interfaceIds: seq<int>): seq<int>
  {
    [superId, |vtable|] + vtable + Repeat(-1, |vtable|) + [|interfaceIds|] + interfaceIds
  }

  lemma OneWordBytes(x: int)
    ensures WordsToBytes([x]) == ToLittleEndianBytes(x)
  {
    assert [x][..0] == [];
  }

  lemma InterfaceListBytes(interfaceIds: seq<int>)
    ensures ToBytes(InterfaceList(interfaceIds)) == WordsToBytes([|interfaceIds|] + interfaceIds)
  {
    var ifs := InterfaceList(interfaceIds);
    OneWordBytes(|interfaceIds|);
    assert ElementsBytes(ifs, 1) == ToLittleEndianBytes(|interfaceIds|);
    assert ElementsBytes(ifs, 2) == ElementsBytes(ifs, 1) + WordsToBytes(interfaceIds);
    WordsToBytesAppend([|interfaceIds|], interfaceIds);
  }

  lemma ClassElementsBytes(name: string, superId: int, vtable: seq<int>, interfaceIds: seq<int>, isAny: bool)
    requires isAny ==> superId == 0
    ensures var s := LMStruct(name, ClassElements(isAny, superId, vtable, interfaceIds));
      ElementsBytes(s, 5) == WordsToBytes([superId]) + WordsToBytes([|vtable|]) + WordsToBytes(vtable)
        + WordsToBytes(Repeat(-1, |vtable|)) + WordsToBytes([|interfaceIds|] + interfaceIds)
  {
    var s := LMStruct(name, ClassElements(isAny, superId, vtable, interfaceIds));
    OneWordBytes(superId);
    OneWordBytes(|vtable|);
    assert ElementsBytes(s, 1) == WordsToBytes([superId]);
    assert ElementsBytes(s, 2) == ElementsBytes(s, 1) + WordsToBytes([|vtable|]);
    assert ElementsBytes(s, 3) == ElementsBytes(s, 2) + WordsToBytes(vtable);
    assert ElementsBytes(s, 4) == ElementsBytes(s, 3) + WordsToBytes(Repeat(-1, |vtable|));
    InterfaceListBytes(interfaceIds);
    assert ElementsBytes(s, 5) == ElementsBytes(s, 4) + ToBytes(InterfaceList(interfaceIds));
  }

  lemma ClassWordsBytes(superId: int, vtable: seq<int>, interfaceIds: seq<int>)
    ensures WordsToBytes(ClassWords(superId, vtable, interfaceIds)) == WordsToBytes([superId]) + WordsToBytes([|vtable|])
      + WordsToBytes(vtable) + WordsToBytes(Repeat(-1, |vtable|)) + WordsToBytes([|interfaceIds|] + interfaceIds)
  {
    var a := [superId, |vtable|] + vtable + Repeat(-1, |vtable|);
    assert ClassWords(superId, vtable, interfaceIds) == a + ([|interfaceIds|] + interfaceIds);
    WordsToBytesAppend(a, [|interfaceIds|] + interfaceIds);
    WordsToBytesAppend([superId, |vtable|] + vtable, Repeat(-1, |vtable|));
    WordsToBytesAppend([superId, |vtable|], vtable);
    assert [superId, |vtable|] == [superId] + [|vtable|];
    WordsToBytesAppend([superId], [|vtable|]);
  }

  /**
   * The struct is the super id, the v-table length, the v-table, one `-1` signature per slot,
   * the interface-list size and the interface ids, four little-endian bytes each.
   */
  lemma ClassStructBytes(classId: int, isAny: bool, superId: int, vtable: seq<int>, interfaceIds: seq<int>)
    requires isAny ==> superId == 0
    ensures ToBytes(ClassStruct(classId, isAny, superId, vtable, interfaceIds)) == WordsToBytes(ClassWords(superId, vtable, interfaceIds))
    ensures SizeInBytes(ClassStruct(classId, isAny, superId, vtable, interfaceIds)) == 4 * |ClassWords(superId, vtable, interfaceIds)|
  {
    var s := ClassStruct(classId, isAny, superId, vtable, interfaceIds);
    ClassElementsBytes(s.structName, superId, vtable, interfaceIds, isAny);
    ClassWordsBytes(superId, vtable, interfaceIds);
    BytesMatchSize(s);
  }

  /** The non-interface direct super class: `singleOrNull { !it.isInterface }`, else `Any`. */
  function SuperClassOf(supers: seq<SuperRef>, anyRef: nat): nat
  {
    var count := |set i | 0 <= i < |supers| && !supers[i].isInterface|;
    if count == 1 then FirstClass(supers, anyRef) else anyRef
  }

  function FirstClass(supers: seq<SuperRef>, anyRef: nat): nat
  {
    if supers == [] then anyRef else if !supers[0].isInterface then supers[0].ref else FirstClass(supers[1..], anyRef)
  }

  /** The ids of the implemented interfaces: `typeInfo.interfaces[it]!!.id` for each. */
  function InterfaceIds(ifaces: seq<nat>, interfaces: map<nat, int>): (r: Result<seq<int>>)
    ensures r.Ok? <==> forall i :: 0 <= i < |ifaces| ==> ifaces[i] in interfaces
    ensures r.Ok? ==> |r.value| == |ifaces| && forall i :: 0 <= i < |ifaces| ==> r.value[i] == interfaces[ifaces[i]]
  {
    if ifaces == [] then Ok([])
    else if ifaces[0] !in interfaces then Err("NullPointerException")
    else match InterfaceIds(ifaces[1..], interfaces)
      case Err(e) => Err(e)
      case Ok(rest) =>
        assert forall i :: 1 <= i < |ifaces| ==> ifaces[i] == ifaces[1..][i - 1];
        Ok([interfaces[ifaces[0]]] + rest)
  }

  function FunctionsOf(vfs: seq<VirtualFunction>): (r: seq<nat>)
    ensures |r| == |vfs| && forall i :: 0 <= i < |vfs| ==> r[i] == vfs[i].func
  {
    if vfs == [] then [] else [vfs[0].func] + FunctionsOf(vfs[1..])
  }

  /**
   * The class's v-table entries: the super class's slots with the class's function of each
   * signature (`!!`), then the class's functions with new signatures.
   */
  function ClassMethods(superMethods: seq<VirtualMethodMetadata>, vfs: seq<VirtualFunction>): (r: Result<seq<VirtualMethodMetadata>>)
    ensures r.Ok? ==> forall i :: 0 <= i < |r.value| ==> r.value[i] in AssociateBy(vfs)
  {
    var own := AssociateBy(vfs);
    match InheritedMethods(superMethods, own)
    case Err(e) => Err(e)
    case Ok(inherited) => Ok(inherited + NewMethods(own, Signatures(superMethods)))
  }

  lemma MethodsAreNumbered(ms: seq<VirtualMethodMetadata>, vfs: seq<VirtualFunction>, ids: seq<nat>)
    requires forall i :: 0 <= i < |ms| ==> ms[i] in AssociateBy(vfs)
    requires forall f :: f in FunctionsOf(vfs) ==> f in ids
    ensures forall i :: 0 <= i < |ms| ==> ms[i].func in ids
  {
    forall i | 0 <= i < |ms| ensures ms[i].func in ids {
      var vf := VirtualFunction(ms[i].func, ms[i].signature);
      var j :| 0 <= j < |vfs| && vfs[j] == vf;
      assert FunctionsOf(vfs)[j] == ms[i].func;
    }
  }

  /** What processing one class produces. */
  datatype ClassLayout = ClassLayout(meta: ClassMetadata, struct: LMElement, ids: seq<nat>, vtable: seq<int>)

  /** The metadata `superInfo` of the class's super class, or the error of the `!!` lookup. */
  function SuperInfo(s: TypeInfoState, k: IrClass, anyRef: nat): (r: Result<ClassMetadata>)
    ensures r.Ok? <==> k.isAny || SuperClassOf(k.superClasses, anyRef) in s.classes
    ensures r.Ok? ==> r.value == if k.isAny then ANY_SUPER else s.classes[SuperClassOf(k.superClasses, anyRef)]
  {
    if k.isAny then Ok(ANY_SUPER)
    else if SuperClassOf(k.superClasses, anyRef) in s.classes then Ok(s.classes[SuperClassOf(k.superClasses, anyRef)])
    else Err("NullPointerException")
  }

  function LayOutClass(s: TypeInfoState, k: IrClass, anyRef: nat): (r: Result<ClassLayout>)
    requires Distinct(s.virtualFunctionIds)
    ensures r.Ok? ==> Distinct(r.value.ids) && s.virtualFunctionIds <= r.value.ids
    ensures r.Ok? ==> r.value.meta.id == s.classId
    ensures r.Ok? ==> forall i :: 0 <= i < |r.value.meta.virtualMethods| ==> r.value.meta.virtualMethods[i].func in r.value.ids
    ensures r.Ok? ==> r.value.vtable == Vtable(r.value.meta.virtualMethods, r.value.ids)
    ensures r.Ok? ==> r.value.struct == ClassStruct(s.classId, k.isAny, r.value.meta.superId, r.value.vtable, r.value.meta.interfaces)
  {
    match SuperInfo(s, k, anyRef)
    case Err(e) => Err(e)
    case Ok(superInfo) =>
      match InterfaceIds(k.implementedInterfaces, s.interfaces)
      case Err(e) => Err(e)
      case Ok(ifaceIds) =>
        var ids := NumberFunctions(s.virtualFunctionIds, FunctionsOf(k.virtualFunctions));
        match ClassMethods(superInfo.virtualMethods, k.virtualFunctions)
        case Err(e) => Err(e)
        case Ok(all) =>
          MethodsAreNumbered(all, k.virtualFunctions, ids);
          var vtable := Vtable(all, ids);
          var meta := ClassMetadata(s.classId, superInfo.id, superInfo.fields + k.fields, ifaceIds, all);
          Ok(ClassLayout(meta, ClassStruct(s.classId, k.isAny, superInfo.id, vtable, ifaceIds), ids, vtable))
  }

  /**
   * Record a laid-out class: its metadata under its reference, the new function ids, its struct
   * at the current id, and the next id just past the struct.
   */
  function AddClass(s: TypeInfoState, ref: nat, l: ClassLayout): (r: TypeInfoState)
    ensures r.classes == s.classes[ref := l.meta] && r.virtualFunctionIds == l.ids
    ensures r.datas == s.datas + [WasmData(s.classId, l.struct)]
    ensures r.classId == s.classId + SizeInBytes(l.struct)
    ensures r.interfaces == s.interfaces && r.ifaceId == s.ifaceId
  {
    s.(classes := s.classes[ref := l.meta], virtualFunctionIds := l.ids,
       datas := s.datas + [WasmData(s.classId, l.struct)], classId := s.classId + SizeInBytes(l.struct))
  }

  /** One iteration of the loop over `classesSorted`. */
  function Step(s: TypeInfoState, k: IrClass, anyRef: nat): (r: Result<TypeInfoState>)
    requires Distinct(s.virtualFunctionIds)
    ensures r.Ok? ==> Distinct(r.value.virtualFunctionIds) && s.virtualFunctionIds <= r.value.virtualFunctionIds
  {
    if k.isInterface then
      Ok(s.(interfaces := s.interfaces[k.ref := s.ifaceId], ifaceId := s.ifaceId + 1))
    else match LayOutClass(s, k, anyRef)
      case Err(e) => Err(e)
      case Ok(l) =>
        Ok(AddClass(s, k.ref, l))
  }

  function Collect(ks: seq<IrClass>, anyRef: nat): (r: Result<TypeInfoState>)
    ensures r.Ok? ==> Distinct(r.value.virtualFunctionIds)
  {
    if ks == [] then Ok(INITIAL)
    else match Collect(ks[..|ks| - 1], anyRef)
      case Err(e) => Err(e)
      case Ok(s) => Step(s, ks[|ks| - 1], anyRef)
  }

  // ---------------------------------------------------------------------------
  // Properties of the collected type info.

  /** Data segments lie back to back from address 1, and `classId` is where the next one goes. */
  predicate Contiguous(datas: seq<WasmData>, next: int)
    decreases |datas|
  {
    if datas == [] then next == 1
    else
      var last := datas[|datas| - 1];
      Contiguous(datas[..|datas| - 1], last.offset) && next == last.offset + SizeInBytes(last.struct)
  }

  /** Segment `j` starts at 1 if it is the first, else just past segment `j - 1`. */
  lemma {:induction false} ContiguousAt(datas: seq<WasmData>, next: int, j: nat)
    requires Contiguous(datas, next) && j < |datas|
    ensures datas[j].offset == if j == 0 then 1 else datas[j - 1].offset + SizeInBytes(datas[j - 1].struct)
    decreases |datas|
  {
    var init := datas[..|datas| - 1];
    if j < |init| {
      ContiguousAt(init, datas[|datas| - 1].offset, j);
      assert init[j] == datas[j];
      if j > 0 { assert init[j - 1] == datas[j - 1]; }
    } else if j > 0 {
      var before := init[..|init| - 1];
      assert init[|init| - 1] == datas[j - 1];
    }
  }

  /** The bytes of a class's data segment are its words, four little-endian bytes each. */
  lemma ClassDataBytes(d: WasmData, isAny: bool, superId: int, vtable: seq<int>, interfaceIds: seq<int>)
    requires d.struct == ClassStruct(d.offset, isAny, superId, vtable, interfaceIds) && (isAny ==> superId == 0)
    ensures Bytes(d) == WordsToBytes(ClassWords(superId, vtable, interfaceIds))
    ensures |Bytes(d)| / 4 == |ClassWords(superId, vtable, interfaceIds)|
  {
    ClassStructBytes(d.offset, isAny, superId, vtable, interfaceIds);
  }

  /** Interfaces are numbered 1, 2, 3, … in the order they are met. */
  function InterfacesIn(ks: seq<IrClass>): seq<nat>
  {
    if ks == [] then [] else InterfacesIn(ks[..|ks| - 1]) + (if ks[|ks| - 1].isInterface then [ks[|ks| - 1].ref] else [])
  }

  predicate DistinctRefs(ks: seq<IrClass>) { forall i, j :: 0 <= i < j < |ks| ==> ks[i].ref != ks[j].ref }

  lemma ContiguousSnoc(datas: seq<WasmData>, next: int, struct: LMElement)
    requires Contiguous(datas, next)
    ensures Contiguous(datas + [WasmData(next, struct)], next + SizeInBytes(struct))
  {
    assert (datas + [WasmData(next, struct)])[..|datas|] == datas;
  }

  lemma StepLaysOutContiguously(s: TypeInfoState, k: IrClass, anyRef: nat)
    requires Distinct(s.virtualFunctionIds) && Step(s, k, anyRef).Ok? && Contiguous(s.datas, s.classId)
    ensures var t := Step(s, k, anyRef).value;
      Contiguous(t.datas, t.classId) && t.ifaceId == s.ifaceId + (if k.isInterface then 1 else 0)
  {
    if !k.isInterface {
      ContiguousSnoc(s.datas, s.classId, LayOutClass(s, k, anyRef).value.struct);
    }
  }

  lemma StepOfInterface(s: TypeInfoState, k: IrClass, anyRef: nat)
    requires Distinct(s.virtualFunctionIds) && k.isInterface
    ensures Step(s, k, anyRef) == Ok(s.(interfaces := s.interfaces[k.ref := s.ifaceId], ifaceId := s.ifaceId + 1))
  {
  }

  lemma StepOfClass(s: TypeInfoState, k: IrClass, anyRef: nat, l: ClassLayout)
    requires Distinct(s.virtualFunctionIds) && !k.isInterface && LayOutClass(s, k, anyRef) == Ok(l)
    ensures Step(s, k, anyRef) == Ok(AddClass(s, k.ref, l))
  {
  }

  /** Collecting a list is collecting its prefix and then stepping over the last class. */
  lemma CollectSnoc(ks: seq<IrClass>, i: nat, anyRef: nat)
    requires i < |ks| && Collect(ks[..i], anyRef).Ok?
    ensures Collect(ks[..i + 1], anyRef) == Step(Collect(ks[..i], anyRef).value, ks[i], anyRef)
  {
    assert ks[..i + 1][..i] == ks[..i];
  }

  lemma {:induction false} CollectLaysOutContiguously(ks: seq<IrClass>, anyRef: nat)
    requires Collect(ks, anyRef).Ok?
    ensures var s := Collect(ks, anyRef).value;
      Contiguous(s.datas, s.classId) && s.ifaceId == |InterfacesIn(ks)| + 1
    decreases |ks|
  {
    if ks != [] {
      var init := ks[..|ks| - 1];
      CollectLaysOutContiguously(init, anyRef);
      StepLaysOutContiguously(Collect(init, anyRef).value, ks[|ks| - 1], anyRef);
    }
  }

  lemma StepNumbersInterfaces(s: TypeInfoState, k: IrClass, anyRef: nat, ifs: seq<nat>)
    requires Distinct(s.virtualFunctionIds) && Step(s, k, anyRef).Ok?
    requires s.ifaceId == |ifs| + 1 && forall i :: 0 <= i < |ifs| ==> ifs[i] in s.interfaces && s.interfaces[ifs[i]] == i + 1
    requires forall r :: r in s.interfaces ==> r in ifs
    requires k.isInterface ==> k.ref !in ifs
    ensures var t := Step(s, k, anyRef).value;
      var ifs' := ifs + (if k.isInterface then [k.ref] else []);
      (forall i :: 0 <= i < |ifs'| ==> ifs'[i] in t.interfaces && t.interfaces[ifs'[i]] == i + 1)
      && (forall r :: r in t.interfaces ==> r in ifs')
  {
  }

  lemma {:induction false} InterfacesNumberedInOrder(ks: seq<IrClass>, anyRef: nat)
    requires Collect(ks, anyRef).Ok? && DistinctRefs(ks)
    ensures var s := Collect(ks, anyRef).value;
      var ifs := InterfacesIn(ks);
      forall i :: 0 <= i < |ifs| ==> ifs[i] in s.interfaces && s.interfaces[ifs[i]] == i + 1
    ensures forall r :: r in Collect(ks, anyRef).value.interfaces ==> r in InterfacesIn(ks)
    decreases |ks|
  {
    if ks != [] {
      var init := ks[..|ks| - 1];
      var k := ks[|ks| - 1];
      assert DistinctRefs(init);
      InterfacesNumberedInOrder(init, anyRef);
      CollectLaysOutContiguously(init, anyRef);
      if k.isInterface && k.ref in InterfacesIn(init) {
        InterfacesComeFrom(init, k.ref);
      }
      StepNumbersInterfaces(Collect(init, anyRef).value, k, anyRef, InterfacesIn(init));
    }
  }

  lemma {:induction false} InterfacesComeFrom(ks: seq<IrClass>, r: nat)
    requires r in InterfacesIn(ks)
    ensures exists i :: 0 <= i < |ks| && ks[i].ref == r && ks[i].isInterface
    decreases |ks|
  {
    var init := ks[..|ks| - 1];
    if r in InterfacesIn(init) {
      InterfacesComeFrom(init, r);
      var i :| 0 <= i < |init| && init[i].ref == r && init[i].isInterface;
      assert ks[i] == init[i];
    }
  }

  /**
   * Each class's data is its struct at its id, and its v-table keeps the super class's slots in
   * order, each filled with the class's function of that signature, before the new ones.
   */
  lemma ClassLayoutShape(s: TypeInfoState, k: IrClass, anyRef: nat)
    requires Distinct(s.virtualFunctionIds) && !k.isInterface && LayOutClass(s, k, anyRef).Ok?
    ensures var l := LayOutClass(s, k, anyRef).value;
      var superInfo := if k.isAny then ANY_SUPER else s.classes[SuperClassOf(k.superClasses, anyRef)];
      var n := |superInfo.virtualMethods|;
      n <= |l.meta.virtualMethods|
      && (forall i :: 0 <= i < n ==> l.meta.virtualMethods[i].signature == superInfo.virtualMethods[i].signature)
      && (forall i :: n <= i < |l.meta.virtualMethods| ==> l.meta.virtualMethods[i].signature !in Signatures(superInfo.virtualMethods))
      && l.meta.fields == superInfo.fields + k.fields
      && l.meta.superId == superInfo.id
      && ToBytes(l.struct) == WordsToBytes(ClassWords(l.meta.superId, l.vtable, l.meta.interfaces))
  {
    var l := LayOutClass(s, k, anyRef).value;
    var superInfo := SuperInfo(s, k, anyRef).value;
    var own := AssociateBy(k.virtualFunctions);
    var inherited := InheritedMethods(superInfo.virtualMethods, own).value;
    var added := NewMethods(own, Signatures(superInfo.virtualMethods));
    assert l.meta.fields == superInfo.fields + k.fields && l.meta.superId == superInfo.id
      && l.meta.virtualMethods == inherited + added by {
      LayOutClassMetadata(s, k, anyRef);
    }
    forall i | |superInfo.virtualMethods| <= i < |l.meta.virtualMethods|
      ensures l.meta.virtualMethods[i].signature !in Signatures(superInfo.virtualMethods)
    {
      assert l.meta.virtualMethods[i] in added;
    }
    ClassStructBytes(s.classId, k.isAny, l.meta.superId, l.vtable, l.meta.interfaces);
  }

  /** What a successful layout's metadata is built from: the super class's, and the class's own methods. */
  lemma LayOutClassMetadata(s: TypeInfoState, k: IrClass, anyRef: nat)
    requires Distinct(s.virtualFunctionIds) && LayOutClass(s, k, anyRef).Ok?
    ensures SuperInfo(s, k, anyRef).Ok?
    ensures var superInfo := SuperInfo(s, k, anyRef).value;
      var meta := LayOutClass(s, k, anyRef).value.meta;
      var own := AssociateBy(k.virtualFunctions);
      InheritedMethods(superInfo.virtualMethods, own).Ok?
      && meta.fields == superInfo.fields + k.fields && meta.superId == superInfo.id
      && meta.virtualMethods == InheritedMethods(superInfo.virtualMethods, own).value
        + NewMethods(own, Signatures(superInfo.virtualMethods))
  {
  }

  /** Class ids lie in `[1, classId)` and every super class id is below its class's id (`Any`'s is 0). */
  predicate IdsOrdered(s: TypeInfoState)
  {
    1 <= s.classId
    && forall r :: r in s.classes ==> 1 <= s.classes[r].id < s.classId && 0 <= s.classes[r].superId < s.classes[r].id
  }

  /** A class struct holds at least three words: super class id, v-table length and interface count. */
  lemma LayoutIsNonEmpty(s: TypeInfoState, k: IrClass, anyRef: nat, l: ClassLayout)
    requires Distinct(s.virtualFunctionIds) && LayOutClass(s, k, anyRef) == Ok(l)
    ensures SizeInBytes(l.struct) >= 12
  {
    assert k.isAny ==> l.meta.superId == 0;
    ClassStructBytes(s.classId, k.isAny, l.meta.superId, l.vtable, l.meta.interfaces);
  }

  lemma StepOrdersIds(s: TypeInfoState, k: IrClass, anyRef: nat)
    requires Distinct(s.virtualFunctionIds) && Step(s, k, anyRef).Ok? && IdsOrdered(s)
    ensures IdsOrdered(Step(s, k, anyRef).value)
  {
    if !k.isInterface {
      var l := LayOutClass(s, k, anyRef).value;
      LayoutIsNonEmpty(s, k, anyRef, l);
      assert l.meta.superId == SuperInfo(s, k, anyRef).value.id;
      var t := Step(s, k, anyRef).value;
      assert t == AddClass(s, k.ref, l);
      forall r | r in t.classes
        ensures 1 <= t.classes[r].id < t.classId && 0 <= t.classes[r].superId < t.classes[r].id
      {
        if r != k.ref {
          assert t.classes[r] == s.classes[r];
        }
      }
    }
  }

  lemma {:induction false} CollectOrdersIds(ks: seq<IrClass>, anyRef: nat)
    requires Collect(ks, anyRef).Ok?
    ensures IdsOrdered(Collect(ks, anyRef).value)
    decreases |ks|
  {
    if ks != [] {
      CollectOrdersIds(ks[..|ks| - 1], anyRef);
      StepOrdersIds(Collect(ks[..|ks| - 1], anyRef).value, ks[|ks| - 1], anyRef);
    }
  }

  /**
   * A class's step records its metadata under the class and appends its struct at its id:
   * its super class id (0 for `Any`), its v-table of function ids, and its interface ids.
   */
  lemma StepPlacesClass(s: TypeInfoState, k: IrClass, anyRef: nat)
    requires Distinct(s.virtualFunctionIds) && !k.isInterface && Step(s, k, anyRef).Ok?
    ensures var t := Step(s, k, anyRef).value; var meta := t.classes[k.ref];
      k.ref in t.classes && meta.id == s.classId
      && (k.isAny ==> meta.superId == 0)
      && t.datas == s.datas + [WasmData(meta.id, ClassStruct(meta.id, k.isAny, meta.superId,
           Vtable(meta.virtualMethods, t.virtualFunctionIds), meta.interfaces))]
  {
  }

  /** The loop over `virtualFunctionIds` that builds `virtFuns` with `add(id, f)`. */
  method VirtFuns(entries: seq<(nat, nat)>) returns (r: Result<seq<nat>>)
    ensures (forall i :: 0 <= i < |entries| ==> entries[i].1 == i) ==>
      r.Ok? && |r.value| == |entries| && forall i :: 0 <= i < |entries| ==> r.value[i] == entries[i].0
  {
    var virtFuns: seq<nat> := [];
    var i := 0;
    while i < |entries|
      invariant 0 <= i <= |entries|
      invariant (forall j :: 0 <= j < |entries| ==> entries[j].1 == j) ==>
        |virtFuns| == i && forall j :: 0 <= j < i ==> virtFuns[j] == entries[j].0
    {
      var (f, id) := entries[i];
      if id > |virtFuns| { return Err("IndexOutOfBoundsException"); }
      virtFuns := virtFuns[..id] + [f] + virtFuns[id..];
      i := i + 1;
    }
    return Ok(virtFuns);
  }

  /** The map `virtualFunctionIds` iterated in insertion order: function `ids[i]` with id `i`. */
  function IdEntries(ids: seq<nat>): (r: seq<(nat, nat)>)
    ensures |r| == |ids| && forall i :: 0 <= i < |ids| ==> r[i] == (ids[i], i)
  {
    seq(|ids|, i requires 0 <= i < |ids| => (ids[i], i))
  }

  /** `collectTypeInfo`'s `WasmTypeInfo`: the maps and lists the loop over the classes fills. */
  class WasmTypeInfo {
    var classes: map<nat, ClassMetadata>
    var interfaces: map<nat, int>
    var virtualFunctionIds: seq<nat>
    var datas: seq<WasmData>

    constructor()
      ensures classes == map[] && interfaces == map[] && virtualFunctionIds == [] && datas == []
    {
      classes := map[];
      interfaces := map[];
      virtualFunctionIds := [];
      datas := [];
    }

    method CollectTypeInfo(classesSorted: seq<IrClass>, anyRef: nat) returns (r: Result<int>)
      requires classes == map[] && interfaces == map[] && virtualFunctionIds == [] && datas == []
      modifies this
      ensures r.Ok? <==> Collect(classesSorted, anyRef).Ok?
      ensures r.Ok? ==> var s := Collect(classesSorted, anyRef).value;
        classes == s.classes && interfaces == s.interfaces && virtualFunctionIds == s.virtualFunctionIds
        && datas == s.datas && r.value == s.classId
    {
      var s := INITIAL;
      var i := 0;
      while i < |classesSorted|
        invariant 0 <= i <= |classesSorted|
        invariant Collect(classesSorted[..i], anyRef) == Ok(s)
      {
        var k := classesSorted[i];
        CollectSnoc(classesSorted, i, anyRef);
        ghost var s0 := s;
        if k.isInterface {
          StepOfInterface(s, k, anyRef);
          s := s.(interfaces := s.interfaces[k.ref := s.ifaceId], ifaceId := s.ifaceId + 1);
          assert Step(s0, k, anyRef) == Ok(s);
        } else {
          var layout := LayOutClass(s, k, anyRef);
          if layout.Err? {
            CollectStaysFailed(classesSorted, i + 1, anyRef);
            return Err(layout.error);
          }
          var l := layout.value;
          StepOfClass(s, k, anyRef, l);
          s := AddClass(s, k.ref, l);
          assert Step(s0, k, anyRef) == Ok(s);
        }
        i := i + 1;
      }
      assert classesSorted[..|classesSorted|] == classesSorted;
      classes, interfaces, virtualFunctionIds, datas := s.classes, s.interfaces, s.virtualFunctionIds, s.datas;
      return Ok(s.classId);
    }
  }

  lemma {:induction false} CollectStaysFailed(ks: seq<IrClass>, n: nat, anyRef: nat)
    requires n <= |ks| && Collect(ks[..n], anyRef).Err?
    ensures Collect(ks, anyRef).Err?
    decreases |ks| - n
  {
    if n < |ks| {
      assert ks[..n + 1][..n] == ks[..n];
      CollectStaysFailed(ks, n + 1, anyRef);
    } else {
      assert ks[..n] == ks;
    }
  }
}

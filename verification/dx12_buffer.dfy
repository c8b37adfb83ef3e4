/** The DirectX 12 buffer's translation of backend-neutral usage flags into a
    native heap type, an initial resource-state bitset and a fixed map mode,
    the descriptor chosen at creation, and the map-mode check of `Map`.

    The translation tables are `std::unordered_map`s searched in iteration
    order, which the language leaves unspecified. Each table lookup therefore
    takes the iteration order as a parameter; the lemmas say what holds for
    every order and which answers some order can produce. */
module DX12Buffer {
  import opened Wrappers
  import Bits

  /** The usage vocabulary the DirectX 12 buffer code tests. */
  datatype BufferUsage = MapRead | MapWrite | CopySrc | CopyDst | Index | Vertex | Uniform | Storage | Indirect

  /** A usage bitset; distinct usages are distinct bits, so "shares a bit
      with" is a non-empty intersection. */
  type Usages = set<BufferUsage>

  predicate SharesBit(usages: Usages, key: Usages) {
    usages * key != {}
  }

  /** The first rule in `rules` whose key shares a bit with `usages`, or the
      fallback: the `for (rule : rules) if (usages & rule.first) return`
      loop. */
  function FirstMatch<V>(usages: Usages, rules: seq<(Usages, V)>, fallback: V): (v: V)
    ensures v == fallback || exists i :: 0 <= i < |rules| && rules[i].1 == v && SharesBit(usages, rules[i].0)
    ensures (forall i :: 0 <= i < |rules| ==> !SharesBit(usages, rules[i].0)) ==> v == fallback
    ensures forall i :: (0 <= i < |rules| && SharesBit(usages, rules[i].0)
                          && forall j :: 0 <= j < i ==> !SharesBit(usages, rules[j].0)) ==> v == rules[i].1
    decreases |rules|
  {
    if |rules| == 0 then fallback
    else if SharesBit(usages, rules[0].0) then rules[0].1
    else
      var v := FirstMatch(usages, rules[1..], fallback);
      assert forall i :: 1 <= i < |rules| ==> rules[i] == rules[1..][i - 1];
      v
  }

  // ---------------------------------------------------------------------
  // Heap type

  datatype HeapType = Default | Upload | Readback

  const UploadKey: Usages := {MapWrite, CopySrc}
  const ReadbackKey: Usages := {MapRead, CopyDst}

  /** `GetDX12HeapType`; `uploadRuleFirst` is the table's iteration order. */
  function GetDX12HeapType(usages: Usages, uploadRuleFirst: bool): (h: HeapType)
    ensures h == Default <==> !SharesBit(usages, UploadKey) && !SharesBit(usages, ReadbackKey)
    ensures SharesBit(usages, UploadKey) && !SharesBit(usages, ReadbackKey) ==> h == Upload
    ensures !SharesBit(usages, UploadKey) && SharesBit(usages, ReadbackKey) ==> h == Readback
    ensures SharesBit(usages, UploadKey) && SharesBit(usages, ReadbackKey) ==>
              h == (if uploadRuleFirst then Upload else Readback)
  {
    var rules := if uploadRuleFirst then [(UploadKey, Upload), (ReadbackKey, Readback)]
                 else [(ReadbackKey, Readback), (UploadKey, Upload)];
    var h := FirstMatch(usages, rules, Default);
    assert SharesBit(usages, rules[0].0) || SharesBit(usages, rules[1].0) ==> h != Default;
    h
  }

  /** Reference: the heap types some iteration order may yield. */
  function PossibleHeapTypes(usages: Usages): set<HeapType> {
    if !SharesBit(usages, UploadKey) && !SharesBit(usages, ReadbackKey) then {Default}
    else (if SharesBit(usages, UploadKey) then {Upload} else {})
         + (if SharesBit(usages, ReadbackKey) then {Readback} else {})
  }

  /** Every iteration order gives a possible heap type, and every possible
      heap type is given by some iteration order. */
  lemma HeapTypeIsAChoiceAmongMatchingRules(usages: Usages)
    ensures forall order: bool :: GetDX12HeapType(usages, order) in PossibleHeapTypes(usages)
    ensures forall h :: h in PossibleHeapTypes(usages) ==> exists order: bool :: GetDX12HeapType(usages, order) == h
  {
    forall h | h in PossibleHeapTypes(usages)
      ensures exists order: bool :: GetDX12HeapType(usages, order) == h
    {
      if h == Upload {
        assert GetDX12HeapType(usages, true) == h;
      } else {
        assert GetDX12HeapType(usages, false) == h;
      }
    }
  }

  /** The test is intersection, not inclusion: one bit of a key suffices. */
  lemma OneKeyBitSelectsTheHeap()
    ensures forall order: bool :: GetDX12HeapType({MapWrite}, order) == Upload
    ensures forall order: bool :: GetDX12HeapType({CopyDst, Uniform}, order) == Readback
    ensures forall order: bool :: GetDX12HeapType({Uniform, Storage, BufferUsage.Vertex}, order) == Default
  {
    assert MapWrite in {MapWrite} * UploadKey;
    assert CopyDst in {CopyDst, Uniform} * ReadbackKey;
    assert {CopyDst, Uniform} * UploadKey == {};
    assert {MapWrite} * ReadbackKey == {};
  }

  // ---------------------------------------------------------------------
  // Initial resource states

  /** `D3D12_RESOURCE_STATES` values (d3d12.h). */
  const StateCommon: Bits.Flags := 0x0
  const StateUnorderedAccess: Bits.Flags := 0x8
  const StateCopyDest: Bits.Flags := 0x400
  const StateCopySource: Bits.Flags := 0x800
  const StateGenericRead: Bits.Flags := 0xAC3

  /** The state table of `GetDX12ResourceStates`, in declaration order. */
  const StateRules: seq<(BufferUsage, Bits.Flags)> := [
    (CopySrc, StateCopySource),
    (CopyDst, StateCopyDest),
    (BufferUsage.Index, StateGenericRead),
    (BufferUsage.Vertex, StateGenericRead),
    (Uniform, StateGenericRead),
    (Storage, StateUnorderedAccess),
    (Indirect, StateGenericRead)
  ]

  /** The states of the rules, visited in `rules` order, whose usage is present. */
  function MatchedStates(usages: Usages, rules: seq<(BufferUsage, Bits.Flags)>): (states: seq<Bits.Flags>)
    ensures forall s :: s in states <==> exists i :: 0 <= i < |rules| && rules[i].0 in usages && rules[i].1 == s
    decreases |rules|
  {
    if |rules| == 0 then []
    else
      var rest := MatchedStates(usages, rules[1..]);
      assert forall i :: 1 <= i < |rules| ==> rules[i] == rules[1..][i - 1];
      (if rules[0].0 in usages then [rules[0].1] else []) + rest
  }

  /** The loop `result |= rule.second` over the table in iteration order. */
  function StatesFold(usages: Usages, rules: seq<(BufferUsage, Bits.Flags)>, acc: Bits.Flags): Bits.Flags
    decreases |rules|
  {
    if |rules| == 0 then acc
    else StatesFold(usages, rules[1..], if rules[0].0 in usages then acc | rules[0].1 else acc)
  }

  /** `GetDX12ResourceStates`, with the table visited in the order `order`,
      a rearrangement of `StateRules`. */
  function GetDX12ResourceStates(usages: Usages, order: seq<(BufferUsage, Bits.Flags)>): (r: Bits.Flags)
    requires multiset(order) == multiset(StateRules)
    ensures r == Bits.CombineBits(StateCommon, MatchedStates(usages, order))
    ensures forall i :: 0 <= i < |StateRules| && StateRules[i].0 in usages ==> Bits.Subsumes(StateRules[i].1, r)
  {
    PresentStatesAreFolded(usages, order);
    StatesFold(usages, order, StateCommon)
  }

  /** Every present usage's state is among the states the fold combines. */
  lemma PresentStatesAreFolded(usages: Usages, order: seq<(BufferUsage, Bits.Flags)>)
    requires multiset(order) == multiset(StateRules)
    ensures StatesFold(usages, order, StateCommon) == Bits.CombineBits(StateCommon, MatchedStates(usages, order))
    ensures forall i :: 0 <= i < |StateRules| && StateRules[i].0 in usages ==>
              Bits.Subsumes(StateRules[i].1, StatesFold(usages, order, StateCommon))
  {
    StatesFoldIsCombine(usages, order, StateCommon);
    SameRulesSameMatches(usages, order, StateRules);
    var matched := MatchedStates(usages, order);
    forall i | 0 <= i < |StateRules| && StateRules[i].0 in usages
      ensures Bits.Subsumes(StateRules[i].1, StatesFold(usages, order, StateCommon))
    {
      assert StateRules[i].1 in MatchedStates(usages, StateRules);
      var k :| 0 <= k < |matched| && matched[k] == StateRules[i].1;
    }
  }

  lemma {:induction false} StatesFoldIsCombine(usages: Usages, rules: seq<(BufferUsage, Bits.Flags)>, acc: Bits.Flags)
    ensures StatesFold(usages, rules, acc) == Bits.CombineBits(acc, MatchedStates(usages, rules))
    decreases |rules|
  {
    if |rules| > 0 {
      StatesFoldIsCombine(usages, rules[1..], if rules[0].0 in usages then acc | rules[0].1 else acc);
      if rules[0].0 in usages {
        var matched := MatchedStates(usages, rules);
        assert matched == [rules[0].1] + MatchedStates(usages, rules[1..]);
        assert matched[1..] == MatchedStates(usages, rules[1..]);
      } else {
        assert MatchedStates(usages, rules) == MatchedStates(usages, rules[1..]);
      }
    }
  }

  lemma SameRulesSameMatches(usages: Usages, a: seq<(BufferUsage, Bits.Flags)>, b: seq<(BufferUsage, Bits.Flags)>)
    requires multiset(a) == multiset(b)
    ensures forall s :: s in MatchedStates(usages, a) <==> s in MatchedStates(usages, b)
  {
    forall s | s in MatchedStates(usages, a) ensures s in MatchedStates(usages, b) {
      var i :| 0 <= i < |a| && a[i].0 in usages && a[i].1 == s;
      assert a[i] in multiset(b);
      var j :| 0 <= j < |b| && b[j] == a[i];
    }
    forall s | s in MatchedStates(usages, b) ensures s in MatchedStates(usages, a) {
      var j :| 0 <= j < |b| && b[j].0 in usages && b[j].1 == s;
      assert b[j] in multiset(a);
      var i :| 0 <= i < |a| && a[i] == b[j];
    }
  }

  /** The initial state does not depend on the table's iteration order. */
  lemma ResourceStatesIgnoreOrder(usages: Usages, a: seq<(BufferUsage, Bits.Flags)>, b: seq<(BufferUsage, Bits.Flags)>)
    requires multiset(a) == multiset(StateRules) && multiset(b) == multiset(StateRules)
    ensures GetDX12ResourceStates(usages, a) == GetDX12ResourceStates(usages, b)
  {
    StatesFoldIsCombine(usages, a, StateCommon);
    StatesFoldIsCombine(usages, b, StateCommon);
    SameRulesSameMatches(usages, a, b);
    Bits.CombineDependsOnlyOnElements(StateCommon, MatchedStates(usages, a), MatchedStates(usages, b));
  }

  /** The result holds the state of every usage present, and nothing beyond
      COMMON and those states. */
  lemma ResourceStatesAreExactlyThoseOfThePresentUsages(usages: Usages, order: seq<(BufferUsage, Bits.Flags)>, m: Bits.Flags)
    requires multiset(order) == multiset(StateRules)
    ensures forall i :: 0 <= i < |StateRules| && StateRules[i].0 in usages ==>
              Bits.Subsumes(StateRules[i].1, GetDX12ResourceStates(usages, order))
    ensures (forall i :: 0 <= i < |StateRules| && StateRules[i].0 in usages ==> Bits.Subsumes(StateRules[i].1, m))
              ==> Bits.Subsumes(GetDX12ResourceStates(usages, order), m)
  {
    SameRulesSameMatches(usages, order, StateRules);
    var matched := MatchedStates(usages, order);
    if forall i :: 0 <= i < |StateRules| && StateRules[i].0 in usages ==> Bits.Subsumes(StateRules[i].1, m) {
      forall x | x in matched ensures Bits.Subsumes(x, m) {
        assert x in MatchedStates(usages, StateRules);
      }
      Bits.CombineIsLeast(StateCommon, matched, m);
    }
  }

  /** Adding usages never removes a state bit. */
  lemma ResourceStatesAreMonotone(small: Usages, big: Usages, order: seq<(BufferUsage, Bits.Flags)>)
    requires small <= big
    requires multiset(order) == multiset(StateRules)
    ensures Bits.Subsumes(GetDX12ResourceStates(small, order), GetDX12ResourceStates(big, order))
  {
    var target := GetDX12ResourceStates(big, order);
    ResourceStatesAreExactlyThoseOfThePresentUsages(big, order, target);
    ResourceStatesAreExactlyThoseOfThePresentUsages(small, order, target);
  }

  // ---------------------------------------------------------------------
  // Map mode

  datatype MapMode = Read | Write

  /** `GetMapMode`; `readRuleFirst` is the table's iteration order and the
      fallback is READ. */
  function GetMapMode(usages: Usages, readRuleFirst: bool): (m: MapMode)
    ensures MapRead in usages && MapWrite !in usages ==> m == Read
    ensures MapWrite in usages && MapRead !in usages ==> m == Write
    ensures MapRead !in usages && MapWrite !in usages ==> m == Read
    ensures MapRead in usages && MapWrite in usages ==> m == (if readRuleFirst then Read else Write)
  {
    var rules := if readRuleFirst then [({MapRead}, Read), ({MapWrite}, Write)]
                 else [({MapWrite}, Write), ({MapRead}, Read)];
    assert SharesBit(usages, {MapRead}) <==> MapRead in usages by {
      if MapRead in usages { assert MapRead in usages * {MapRead}; }
    }
    assert SharesBit(usages, {MapWrite}) <==> MapWrite in usages by {
      if MapWrite in usages { assert MapWrite in usages * {MapWrite}; }
    }
    var m := FirstMatch(usages, rules, Read);
    assert SharesBit(usages, rules[0].0) ==> m == rules[0].1;
    assert !SharesBit(usages, rules[0].0) && SharesBit(usages, rules[1].0) ==> m == rules[1].1;
    m
  }

  // ---------------------------------------------------------------------
  // Descriptor created with the buffer

  const Uint32Limit: nat := 0x1_0000_0000
  const SizeTLimit: nat := 0x1_0000_0000_0000_0000

  predicate IsConstantBuffer(usages: Usages) {
    Uniform in usages
  }

  predicate IsUnorderedAccessBuffer(usages: Usages) {
    Storage in usages
  }

  /** The view written into the buffer's CPU descriptor: the `UINT` size
      fields receive the `size_t` size truncated to 32 bits. */
  datatype Descriptor =
    | NoDescriptor
    | ConstantBufferView(sizeInBytes: nat)
    | UnorderedAccessView(firstElement: nat, numElements: nat)

  /** `CreateDX12Descriptor`: a constant-buffer view when UNIFORM is set
      (whatever else is), otherwise an unordered-access view when STORAGE is
      set, otherwise nothing. */
  function CreateDX12Descriptor(size: nat, usages: Usages): (d: Descriptor)
    requires size < SizeTLimit
    ensures d.ConstantBufferView? <==> Uniform in usages
    ensures d.UnorderedAccessView? <==> Uniform !in usages && Storage in usages
    ensures d.NoDescriptor? <==> Uniform !in usages && Storage !in usages
    ensures d.ConstantBufferView? ==> d.sizeInBytes < Uint32Limit && (size < Uint32Limit ==> d.sizeInBytes == size)
    ensures d.UnorderedAccessView? ==> d.firstElement == 0 && d.numElements < Uint32Limit
    ensures d.UnorderedAccessView? && size < Uint32Limit ==> d.numElements == size
  {
    if IsConstantBuffer(usages) then ConstantBufferView(size % Uint32Limit)
    else if IsUnorderedAccessBuffer(usages) then UnorderedAccessView(0, size % Uint32Limit)
    else NoDescriptor
  }

  // ---------------------------------------------------------------------
  // The buffer object

  /** The unordered-map iteration orders of the three translation tables. */
  datatype TableOrders = TableOrders(uploadRuleFirst: bool, stateOrder: seq<(BufferUsage, Bits.Flags)>, readRuleFirst: bool) {
    predicate Valid() {
      multiset(stateOrder) == multiset(StateRules)
    }
  }

  datatype BufferCreateInfo = BufferCreateInfo(size: nat, usages: Usages)

  datatype DX12Buffer = DX12Buffer(
    size: nat,
    usages: Usages,
    heapType: HeapType,
    initialStates: Bits.Flags,
    mapMode: MapMode,
    descriptor: Descriptor)

  datatype BufferError = CreateFailed | UnsuitableMapMode | MapFailed

  /** The constructor: the map mode is fixed from the usages, then the
      committed resource is created (which may fail natively) and the
      descriptor is written. */
  function CreateDX12Buffer(info: BufferCreateInfo, orders: TableOrders, nativeCreateSucceeds: bool)
    : (r: Result<DX12Buffer, BufferError>)
    requires orders.Valid() && info.size < SizeTLimit
    ensures r.Failure? <==> !nativeCreateSucceeds
    ensures r.Success? ==> r.value.size == info.size && r.value.usages == info.usages
    ensures r.Success? ==> r.value.mapMode == GetMapMode(info.usages, orders.readRuleFirst)
    ensures r.Success? ==> r.value.heapType == GetDX12HeapType(info.usages, orders.uploadRuleFirst)
    ensures r.Success? ==> r.value.heapType in PossibleHeapTypes(info.usages)
    ensures r.Success? ==> r.value.initialStates == GetDX12ResourceStates(info.usages, StateRules)
    ensures r.Success? ==> r.value.descriptor == CreateDX12Descriptor(info.size, info.usages)
  {
    HeapTypeIsAChoiceAmongMatchingRules(info.usages);
    ResourceStatesIgnoreOrder(info.usages, orders.stateOrder, StateRules);
    if !nativeCreateSucceeds then Failure(CreateFailed)
    else Success(DX12Buffer(
      info.size,
      info.usages,
      GetDX12HeapType(info.usages, orders.uploadRuleFirst),
      GetDX12ResourceStates(info.usages, orders.stateOrder),
      GetMapMode(info.usages, orders.readRuleFirst),
      CreateDX12Descriptor(info.size, info.usages)))
  }

  /** The range handed to the native `Map`: `[offset, offset + length)` in
      `size_t` arithmetic. */
  datatype MappedRange = MappedRange(begin: nat, end: nat)

  /** `Map`: throws "unsuitable map mode" whenever the requested mode differs
      from the one fixed at construction, and "failed to map" when the native
      call fails. */
  function Map(buffer: DX12Buffer, mode: MapMode, offset: nat, length: nat, nativeMapSucceeds: bool)
    : (r: Result<MappedRange, BufferError>)
    requires offset < SizeTLimit && length < SizeTLimit
    ensures mode != buffer.mapMode <==> r == Failure(UnsuitableMapMode)
    ensures mode == buffer.mapMode && !nativeMapSucceeds ==> r == Failure(MapFailed)
    ensures r.Success? ==> r.value.begin == offset
    ensures r.Success? && offset + length < SizeTLimit ==> r.value.end == offset + length
  {
    if buffer.mapMode != mode then Failure(UnsuitableMapMode)
    else if !nativeMapSucceeds then Failure(MapFailed)
    else Success(MappedRange(offset, (offset + length) % SizeTLimit))
  }

  /** A buffer created for writing only (MAP_WRITE without MAP_READ) accepts
      write mappings and rejects read mappings, whatever the table orders;
      a buffer with both flags rejects exactly one of the two modes. */
  lemma MapModeCheckFollowsUsages(info: BufferCreateInfo, orders: TableOrders)
    requires orders.Valid() && info.size < SizeTLimit
    ensures MapWrite in info.usages && MapRead !in info.usages ==>
              Map(CreateDX12Buffer(info, orders, true).value, Read, 0, 0, true) == Failure(UnsuitableMapMode)
              && Map(CreateDX12Buffer(info, orders, true).value, Write, 0, 0, true).Success?
    ensures MapWrite !in info.usages ==>
              Map(CreateDX12Buffer(info, orders, true).value, Write, 0, 0, true) == Failure(UnsuitableMapMode)
    ensures MapWrite in info.usages && MapRead in info.usages ==>
              Map(CreateDX12Buffer(info, orders, true).value, Read, 0, 0, true).Success?
              != Map(CreateDX12Buffer(info, orders, true).value, Write, 0, 0, true).Success?
  {
  }

  /** What a created buffer is, in terms of its usages alone: its view is a
      constant-buffer view exactly for uniform usages (even when the buffer is
      also storage), an unordered-access view for storage-only usages, and
      covers the whole buffer when the size fits 32 bits; its heap is DEFAULT
      exactly when no usage calls for CPU access, and UPLOAD for a buffer only
      written from the CPU. */
  lemma CreatedBufferFollowsUsages(info: BufferCreateInfo, orders: TableOrders)
    requires orders.Valid() && info.size < SizeTLimit
    ensures var b := CreateDX12Buffer(info, orders, true).value;
            && (b.descriptor.ConstantBufferView? <==> Uniform in info.usages)
            && (b.descriptor.UnorderedAccessView? <==> Uniform !in info.usages && Storage in info.usages)
            && (info.size < Uint32Limit && b.descriptor.ConstantBufferView? ==> b.descriptor.sizeInBytes == info.size)
            && (info.size < Uint32Limit && b.descriptor.UnorderedAccessView? ==> b.descriptor.numElements == info.size)
            && (b.heapType == Default <==> !SharesBit(info.usages, UploadKey) && !SharesBit(info.usages, ReadbackKey))
            && (info.usages == {MapWrite} ==> b.heapType == Upload)
  {
    var b := CreateDX12Buffer(info, orders, true).value;
    if info.usages == {MapWrite} {
      OneKeyBitSelectsTheHeap();
      assert b.heapType == GetDX12HeapType({MapWrite}, orders.uploadRuleFirst);
    }
  }
}

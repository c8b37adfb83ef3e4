/** The DirectX 12 backend's per-command-buffer runtime descriptor arena:
    `RuntimeDescriptorHeap` (a bump allocator over one shader-visible native
    descriptor heap) and `RuntimeDescriptorCompact` (one CBV/SRV/UAV heap and
    one sampler heap, with requests routed by binding range type).

    Descriptor handles are modelled as integer addresses: a heap's CPU and
    GPU start addresses and its increment size are what the device reports
    for the native heap, so they are fields fixed at construction. */
module DescriptorHeap {
  import opened Wrappers

  /** Exclusive upper bound of a `uint32_t`. */
  const Uint32Limit: nat := 0x1_0000_0000

  /** `D3D12_DESCRIPTOR_HEAP_TYPE` values the arena uses. */
  datatype NativeHeapType = CbvSrvUav | SamplerHeap

  /** `HlslBindingRangeType`. */
  datatype RangeType = ConstantBuffer | Texture | Sampler | UnorderedAccess

  /** `Exhausted` is the failed `used + 1 < capacity` assertion;
      `NativeCreateFailed` the failed assertion on `CreateDescriptorHeap`. */
  datatype HeapError = Exhausted | NativeCreateFailed

  datatype RuntimeDescriptorHeap = RuntimeDescriptorHeap(
    heapType: NativeHeapType,
    capacity: nat,
    used: nat,
    increment: nat,
    cpuStart: int,
    gpuStart: int)
  {
    /** `capacity` is a `uint32_t`; `used` only ever grows past 0 through an
        allocation that keeps it below `capacity`. */
    predicate Valid() {
      capacity < Uint32Limit && (used == 0 || used < capacity)
    }
  }

  /** One allocation: the slot index, the caller's CPU descriptor that is
      copied, the address it is copied to, and the GPU handle returned. */
  datatype Allocation = Allocation(slot: nat, source: int, copyDest: int, gpuHandle: int)

  /** `static_cast<int32_t>` of a `uint32_t`: values from 2^31 wrap to negative. */
  function Int32Cast(x: nat): (r: int)
    requires x < Uint32Limit
    ensures -0x8000_0000 <= r < 0x8000_0000
    ensures (r - x) % Uint32Limit == 0
  {
    if x < 0x8000_0000 then x else x - Uint32Limit
  }

  /** `CD3DX12_*_DESCRIPTOR_HANDLE::Offset(index, increment)`. */
  function Offset(start: int, index: nat, increment: nat): int
    requires index < Uint32Limit
  {
    start + Int32Cast(index) * increment
  }

  /** The constructor: an empty arena of the given capacity over a freshly
      created native heap; the creation's outcome is a parameter. */
  function NewRuntimeDescriptorHeap(heapType: NativeHeapType, capacity: nat, increment: nat,
                                    cpuStart: int, gpuStart: int, nativeCreateSucceeds: bool)
    : (r: Result<RuntimeDescriptorHeap, HeapError>)
    requires capacity < Uint32Limit
    ensures r.Success? <==> nativeCreateSucceeds
    ensures r.Failure? ==> r.error == NativeCreateFailed
    ensures r.Success? ==> r.value.Valid()
    ensures r.Success? ==> r.value.used == 0 && r.value.capacity == capacity && r.value.heapType == heapType
    ensures r.Success? ==> r.value.increment == increment && r.value.cpuStart == cpuStart && r.value.gpuStart == gpuStart
  {
    if nativeCreateSucceeds then Success(RuntimeDescriptorHeap(heapType, capacity, 0, increment, cpuStart, gpuStart))
    else Failure(NativeCreateFailed)
  }

  /** `ResetUsed`: rewinds the cursor and keeps everything else. */
  function ResetUsed(h: RuntimeDescriptorHeap): (h': RuntimeDescriptorHeap)
    requires h.Valid()
    ensures h'.Valid() && h'.used == 0
    ensures h'.capacity == h.capacity && h'.heapType == h.heapType && h'.increment == h.increment
    ensures h'.cpuStart == h.cpuStart && h'.gpuStart == h.gpuStart
  {
    h.(used := 0)
  }

  /** `NewGpuDescriptorHandle`: asserts `used + 1 < capacity`, copies the
      caller's descriptor into slot `used`, returns the GPU handle of that
      slot and advances the cursor by one. */
  function NewGpuDescriptorHandle(h: RuntimeDescriptorHeap, source: int)
    : (r: Result<(RuntimeDescriptorHeap, Allocation), HeapError>)
    requires h.Valid()
    ensures r.Success? <==> h.used + 1 < h.capacity
    ensures r.Success? ==> r.value.0.Valid()
    ensures r.Success? ==> r.value.0.used == h.used + 1 && r.value.1.slot == h.used
    ensures r.Success? ==> r.value.0 == h.(used := h.used + 1)
    ensures r.Success? ==> r.value.1.source == source
    ensures r.Success? ==> r.value.1.copyDest - h.cpuStart == r.value.1.gpuHandle - h.gpuStart
    ensures r.Success? && h.capacity <= 0x8000_0000 ==>
              r.value.1.copyDest == h.cpuStart + h.used * h.increment
              && r.value.1.gpuHandle == h.gpuStart + h.used * h.increment
  {
    if h.used + 1 < h.capacity then
      var dest := Offset(h.cpuStart, h.used, h.increment);
      var gpu := Offset(h.gpuStart, h.used, h.increment);
      Success((h.(used := h.used + 1), Allocation(h.used, source, dest, gpu)))
    else
      Failure(Exhausted)
  }

  /** After a reset the next allocation returns slot 0 whenever the arena
      has room for one at all. */
  lemma ResetThenAllocateGivesSlotZero(h: RuntimeDescriptorHeap, source: int)
    requires h.Valid()
    requires h.capacity >= 2
    ensures NewGpuDescriptorHandle(ResetUsed(h), source).Success?
    ensures NewGpuDescriptorHandle(ResetUsed(h), source).value.1.slot == 0
  {
  }

  /** `n` successive allocations between resets (sources in `sources`):
      all succeed exactly when `used + n < capacity` (or `n` is zero), they
      return the consecutive slots `used`, `used + 1`, ..., and so every slot
      is distinct and strictly larger than the ones before. */
  method AllocateSeveral(h: RuntimeDescriptorHeap, sources: seq<int>)
    returns (r: Result<(RuntimeDescriptorHeap, seq<Allocation>), HeapError>)
    requires h.Valid()
    ensures r.Success? <==> |sources| == 0 || h.used + |sources| < h.capacity
    ensures r.Success? ==> r.value.0.Valid() && r.value.0.used == h.used + |sources|
    ensures r.Success? ==> r.value.0.capacity == h.capacity
    ensures r.Success? ==> |r.value.1| == |sources|
    ensures r.Success? ==> forall i :: 0 <= i < |sources| ==> r.value.1[i].slot == h.used + i
    ensures r.Success? ==> forall i :: 0 <= i < |sources| ==> r.value.1[i].source == sources[i]
    ensures r.Success? ==> forall i, j :: 0 <= i < j < |sources| ==> r.value.1[i].slot < r.value.1[j].slot
  {
    var cur := h;
    var allocations: seq<Allocation> := [];
    var k := 0;
    while k < |sources|
      invariant 0 <= k <= |sources|
      invariant cur.Valid() && cur == h.(used := h.used + k)
      invariant k > 0 ==> h.used + k < h.capacity
      invariant |allocations| == k
      invariant forall i :: 0 <= i < k ==> allocations[i].slot == h.used + i
      invariant forall i :: 0 <= i < k ==> allocations[i].source == sources[i]
    {
      var step := NewGpuDescriptorHandle(cur, sources[k]);
      if step.Failure? {
        return Failure(step.error);
      }
      cur := step.value.0;
      allocations := allocations + [step.value.1];
      k := k + 1;
    }
    r := Success((cur, allocations));
  }

  /** From a fresh or reset arena, at most `capacity - 1` allocations fit. */
  method FreshArenaHoldsCapacityMinusOne(h: RuntimeDescriptorHeap, sources: seq<int>)
    returns (fits: bool)
    requires h.Valid() && h.used == 0
    ensures fits <==> |sources| == 0 || |sources| <= h.capacity - 1
  {
    var r := AllocateSeveral(h, sources);
    fits := r.Success?;
  }

  // ---------------------------------------------------------------------
  // RuntimeDescriptorCompact

  datatype RuntimeDescriptorCompact = RuntimeDescriptorCompact(
    cbvSrvUavHeap: RuntimeDescriptorHeap,
    samplerHeap: RuntimeDescriptorHeap)
  {
    predicate Valid() {
      && cbvSrvUavHeap.Valid() && cbvSrvUavHeap.heapType == CbvSrvUav
      && samplerHeap.Valid() && samplerHeap.heapType == SamplerHeap
    }
  }

  /** The constructor: one empty heap of each native type, the CBV/SRV/UAV
      heap created first; either native creation failing is an error. */
  function NewRuntimeDescriptorCompact(cbvSrvUavCapacity: nat, samplerCapacity: nat,
                                       cbvSrvUavHeap: (nat, int, int), samplerHeap: (nat, int, int),
                                       cbvSrvUavCreated: bool, samplerCreated: bool)
    : (r: Result<RuntimeDescriptorCompact, HeapError>)
    requires cbvSrvUavCapacity < Uint32Limit && samplerCapacity < Uint32Limit
    ensures r.Success? <==> cbvSrvUavCreated && samplerCreated
    ensures r.Failure? ==> r.error == NativeCreateFailed
    ensures r.Success? ==> r.value.Valid()
    ensures r.Success? ==> r.value.cbvSrvUavHeap.used == 0 && r.value.cbvSrvUavHeap.capacity == cbvSrvUavCapacity
    ensures r.Success? ==> r.value.samplerHeap.used == 0 && r.value.samplerHeap.capacity == samplerCapacity
  {
    var cbv :- NewRuntimeDescriptorHeap(CbvSrvUav, cbvSrvUavCapacity, cbvSrvUavHeap.0, cbvSrvUavHeap.1,
                                        cbvSrvUavHeap.2, cbvSrvUavCreated);
    var sampler :- NewRuntimeDescriptorHeap(SamplerHeap, samplerCapacity, samplerHeap.0, samplerHeap.1,
                                            samplerHeap.2, samplerCreated);
    Success(RuntimeDescriptorCompact(cbv, sampler))
  }

  /** `RuntimeDescriptorCompact::ResetUsed` rewinds both heaps. */
  function ResetCompact(c: RuntimeDescriptorCompact): (c': RuntimeDescriptorCompact)
    requires c.Valid()
    ensures c'.Valid()
    ensures c'.cbvSrvUavHeap.used == 0 && c'.samplerHeap.used == 0
    ensures c'.cbvSrvUavHeap.capacity == c.cbvSrvUavHeap.capacity
    ensures c'.samplerHeap.capacity == c.samplerHeap.capacity
  {
    RuntimeDescriptorCompact(ResetUsed(c.cbvSrvUavHeap), ResetUsed(c.samplerHeap))
  }

  /** Routes a request: `sampler` ranges go to the sampler heap, every other
      range type to the CBV/SRV/UAV heap; the other heap is untouched. */
  function CompactNewGpuDescriptorHandle(c: RuntimeDescriptorCompact, rangeType: RangeType, source: int)
    : (r: Result<(RuntimeDescriptorCompact, Allocation), HeapError>)
    requires c.Valid()
    ensures r.Success? ==> r.value.0.Valid()
    ensures rangeType == Sampler ==>
              && (r.Success? <==> c.samplerHeap.used + 1 < c.samplerHeap.capacity)
              && (r.Success? ==> r.value.0.cbvSrvUavHeap == c.cbvSrvUavHeap
                                 && r.value.0.samplerHeap == c.samplerHeap.(used := c.samplerHeap.used + 1)
                                 && r.value.1 == NewGpuDescriptorHandle(c.samplerHeap, source).value.1)
    ensures rangeType != Sampler ==>
              && (r.Success? <==> c.cbvSrvUavHeap.used + 1 < c.cbvSrvUavHeap.capacity)
              && (r.Success? ==> r.value.0.samplerHeap == c.samplerHeap
                                 && r.value.0.cbvSrvUavHeap == c.cbvSrvUavHeap.(used := c.cbvSrvUavHeap.used + 1)
                                 && r.value.1 == NewGpuDescriptorHandle(c.cbvSrvUavHeap, source).value.1)
  {
    if rangeType == Sampler then
      var step :- NewGpuDescriptorHandle(c.samplerHeap, source);
      Success((c.(samplerHeap := step.0), step.1))
    else
      var step :- NewGpuDescriptorHandle(c.cbvSrvUavHeap, source);
      Success((c.(cbvSrvUavHeap := step.0), step.1))
  }

  /** The heap a range type is routed to. */
  function RoutedHeap(c: RuntimeDescriptorCompact, rangeType: RangeType): RuntimeDescriptorHeap {
    if rangeType == Sampler then c.samplerHeap else c.cbvSrvUavHeap
  }

  /** A routed allocation lies in the address space of the heap it was
      routed to: its slot is that heap's cursor, and the copy destination and
      GPU handle are that slot's addresses in that heap. */
  lemma CompactHandleLiesInRoutedHeap(c: RuntimeDescriptorCompact, rangeType: RangeType, source: int)
    requires c.Valid()
    requires RoutedHeap(c, rangeType).capacity <= 0x8000_0000
    requires CompactNewGpuDescriptorHandle(c, rangeType, source).Success?
    ensures var h := RoutedHeap(c, rangeType);
            var a := CompactNewGpuDescriptorHandle(c, rangeType, source).value.1;
            && a.slot == h.used && a.source == source
            && a.copyDest == h.cpuStart + h.used * h.increment
            && a.gpuHandle == h.gpuStart + h.used * h.increment
  {
    var h := RoutedHeap(c, rangeType);
    assert NewGpuDescriptorHandle(h, source).Success?;
  }
}

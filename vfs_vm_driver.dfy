/** The file-backed virtual-memory driver (kernel/memory/virtual/VfsVmDriver.cpp).

    It makes a file's cached contents addressable as memory: Query sizes a
    range, Attach builds the per-range token and either maps the whole range
    from the file cache at once or leaves it to page faults, HandleFault maps
    a bounded window ahead of a faulting address, and Detach unmaps the range
    and reverses the statistics.

    The collaborators are modelled as follows. The hardware translation
    layer is a map from virtual address to mapping, held by a context object
    together with the trace of every Map and Unmap request made through it
    (so the order of requests can be stated). The file cache is a partial
    function from file offset to the physical base of the cache unit it
    returns for that offset. File lookup, node lookup, the cache's HAT mode
    and unit size, and the HAT granularity of that mode are parameters. */
module VfsVm {
  import opened Common
  import opened VmDriverFlags

  /** Bytes HandleFault maps ahead of a faulting address at most. */
  const FaultMaxMapAhead: nat := 2 * 0x1000

  datatype NodeType = File | Directory | OtherNode

  type NodeId = nat

  /** A file's cache: for each file offset it can serve, the physical base of the unit returned. */
  datatype FileCache = FileCache(units: map<nat, nat>)

  /** GetFileCache: the physical base served for a file offset, or None when no valid unit is returned. */
  function UnitAt(cache: Option<FileCache>, offset: nat): Option<nat>
  {
    if cache.Some? && offset in cache.value.units then Some(cache.value.units[offset]) else None
  }

  /** A filesystem node as VfsGetNode returns it. */
  datatype Node = Node(nodeType: NodeType, cache: Option<FileCache>)

  /** The attach argument (VmoFileInitArg); its path is consumed by the lookup, whose result is a parameter. */
  datatype FileInitArg = FileInitArg(offset: nat, noDeferBacking: bool)

  /** The per-range token (VfsVmLink). */
  datatype VfsLink = VfsLink(node: NodeId, fileOffset: nat, isReadonly: bool, isPrivate: bool)

  datatype VmRange = VmRange(base: nat, length: nat, flags: set<VmFlag>, offset: nat, token: Option<VfsLink>)
  {
    function Top(): nat { base + length }
  }

  datatype QueryResult = QueryResult(success: bool, hatMode: nat, alignment: nat, length: nat)

  datatype AttachResult = AttachResult(token: Option<VfsLink>, offset: nat, success: bool)

  /** What GetFileCacheInfo reports: the HAT mode of cache units and their size. */
  datatype CacheInfo = CacheInfo(hatMode: nat, unitSize: nat)

  /** The file counters of the address space's statistics block. */
  datatype VmStats = VmStats(fileWorkingSize: int, fileResidentSize: int)

  datatype HatCall =
    | MapReq(vaddr: nat, paddr: nat, mode: nat, flags: set<HatFlag>)
    | UnmapReq(vaddr: nat)

  datatype Mapping = Mapping(paddr: nat, mode: nat, flags: set<HatFlag>)

  /** Effect of one request on the translation map: Map without overwrite leaves an existing mapping. */
  function ApplyCall(hat: map<nat, Mapping>, c: HatCall): map<nat, Mapping>
  {
    match c
    case MapReq(v, p, m, f) => if v in hat then hat else hat[v := Mapping(p, m, f)]
    case UnmapReq(v) => hat - {v}
  }

  /** Effect of a sequence of requests, made in order. */
  function ApplyCalls(hat: map<nat, Mapping>, calls: seq<HatCall>): map<nat, Mapping>
    decreases |calls|
  {
    if calls == [] then hat else ApplyCalls(ApplyCall(hat, calls[0]), calls[1..])
  }


  function Vaddrs(calls: seq<HatCall>): set<nat>
  {
    set c | c in calls :: c.vaddr
  }

  /** Map requests only add the addresses they name. */
  lemma {:induction false} ApplyMapsKeys(hat: map<nat, Mapping>, calls: seq<HatCall>)
    requires forall c | c in calls :: c.MapReq?
    ensures ApplyCalls(hat, calls).Keys == hat.Keys + Vaddrs(calls)
    decreases |calls|
  {
    if calls != [] {
      var rest := calls[1..];
      assert forall c | c in rest :: c in calls;
      ApplyMapsKeys(ApplyCall(hat, calls[0]), rest);
      assert calls == [calls[0]] + rest;
      assert Vaddrs(calls) == {calls[0].vaddr} + Vaddrs(rest);
    }
  }

  lemma {:induction false} ApplyCallsAppend(hat: map<nat, Mapping>, a: seq<HatCall>, b: seq<HatCall>)
    ensures ApplyCalls(hat, a + b) == ApplyCalls(ApplyCalls(hat, a), b)
    decreases |a|
  {
    if a == [] {
      assert a + b == b;
    } else {
      assert (a + b)[0] == a[0];
      assert (a + b)[1..] == a[1..] + b;
      ApplyCallsAppend(ApplyCall(hat, a[0]), a[1..], b);
    }
  }

  /** The translation map and statistics block a driver operation works on. The translation
      map is determined by the mappings present at the start and the trace of the Map and
      Unmap requests made since, in order. */
  class VmContext {
    var initial: map<nat, Mapping>
    var calls: seq<HatCall>
    var stats: VmStats

    constructor (hat: map<nat, Mapping>, stats: VmStats)
      ensures Hat() == hat && this.stats == stats && calls == []
    {
      initial := hat;
      this.stats := stats;
      calls := [];
    }

    /** The current translation map. */
    function Hat(): map<nat, Mapping>
      reads this
    {
      ApplyCalls(initial, calls)
    }

    /** HAT Map without overwrite: fails, changing nothing, when the address is mapped already. */
    method Map(vaddr: nat, paddr: nat, mode: nat, flags: set<HatFlag>) returns (ok: bool)
      modifies this
      ensures ok == (vaddr !in old(Hat()))
      ensures calls == old(calls) + [MapReq(vaddr, paddr, mode, flags)]
      ensures Hat() == ApplyCall(old(Hat()), MapReq(vaddr, paddr, mode, flags))
      ensures initial == old(initial) && stats == old(stats)
    {
      ok := vaddr !in Hat();
      ApplyCallsAppend(initial, calls, [MapReq(vaddr, paddr, mode, flags)]);
      calls := calls + [MapReq(vaddr, paddr, mode, flags)];
    }

    /** HAT Unmap: succeeds exactly when the address was mapped. */
    method Unmap(vaddr: nat) returns (ok: bool)
      modifies this
      ensures ok == (vaddr in old(Hat()))
      ensures calls == old(calls) + [UnmapReq(vaddr)]
      ensures Hat() == old(Hat()) - {vaddr}
      ensures initial == old(initial) && stats == old(stats)
    {
      ok := vaddr in Hat();
      ApplyCallsAppend(initial, calls, [UnmapReq(vaddr)]);
      calls := calls + [UnmapReq(vaddr)];
    }
  }

  // ---------------------------------------------------------------------------
  // Query

  /** Query: fails unless the path names a File; otherwise rounds the length up
      to the granularity of the file cache's mode and adds two guard granules
      when Guarded is requested. */
  function Query(length: nat, flags: set<VmFlag>, fileId: Option<NodeId>, attribs: Option<NodeType>,
                 info: CacheInfo, granule: nat): (r: QueryResult)
    requires granule > 0
    ensures r.success <==> fileId.Some? && attribs == Some(File)
    ensures r.success ==> r.hatMode == info.hatMode && r.alignment == granule
    ensures r.success ==>
      var guard := if VmFlag.Guarded in flags then 2 * granule else 0;
      r.length >= guard && (r.length - guard) % granule == 0 &&
      length <= r.length - guard < length + granule
    ensures r.success ==> r.length % granule == 0 && r.length >= length
  {
    if fileId.None? then QueryResult(false, 0, 0, 0)
    else if attribs.None? || attribs.value != File then QueryResult(false, 0, 0, 0)
    else
      AlignUpBounds(length, granule);
      var rounded := AlignUp(length, granule);
      var total := if VmFlag.Guarded in flags then rounded + 2 * granule else rounded;
      assert total % granule == 0 by {
        if VmFlag.Guarded in flags {
          MulMod(rounded / granule + 2, granule);
          assert total == (rounded / granule + 2) * granule;
        }
      }
      QueryResult(true, info.hatMode, granule, total)
  }

  /** The unguarded part of Query's length is the least granule multiple covering the request. */
  lemma QueryLengthIsLeast(length: nat, flags: set<VmFlag>, fileId: Option<NodeId>, attribs: Option<NodeType>,
                           info: CacheInfo, granule: nat, other: nat)
    requires granule > 0
    requires other % granule == 0 && other >= length
    ensures var r := Query(length, flags, fileId, attribs, info, granule);
      r.success ==> r.length - (if VmFlag.Guarded in flags then 2 * granule else 0) <= other
  {
    AlignUpLeast(length, granule, other);
  }

  // ---------------------------------------------------------------------------
  // Eager backing (Attach without deferral)

  /** The inputs of Attach's backing loop. */
  datatype EagerWalk = EagerWalk(cache: Option<FileCache>, fileOffset: nat, base: nat, length: nat,
                                 granule: nat, mode: nat, flags: set<HatFlag>)

  /** The Map requests Attach's loop makes from step offset `i` on: one per granule, in
      address order, stopping at the end of the range or at the first offset with no unit. */
  function EagerRun(w: EagerWalk, i: nat): seq<HatCall>
    requires w.granule > 0
    decreases if i < w.length then w.length - i else 0
  {
    if i >= w.length then []
    else match UnitAt(w.cache, w.fileOffset + i)
      case None => []
      case Some(p) => [MapReq(w.base + i, p, w.mode, w.flags)] + EagerRun(w, i + w.granule)
  }

  /** The k-th eager request maps the k-th granule of the range to the unit served for
      the matching file offset. */
  lemma {:induction false} EagerRunAt(w: EagerWalk, i: nat, k: nat)
    requires w.granule > 0 && k < |EagerRun(w, i)|
    ensures Stride(i, k, w.granule) < w.length
    ensures UnitAt(w.cache, w.fileOffset + Stride(i, k, w.granule)).Some?
    ensures EagerRun(w, i)[k] ==
      MapReq(w.base + Stride(i, k, w.granule), UnitAt(w.cache, w.fileOffset + Stride(i, k, w.granule)).value,
             w.mode, w.flags)
    decreases k
  {
    if k > 0 {
      EagerRunAt(w, i + w.granule, k - 1);
      StrideShift(i, k, w.granule);
    }
  }

  /** The eager run ends at the range end or at the first file offset the cache cannot serve. */
  lemma {:induction false} EagerRunEnd(w: EagerWalk, i: nat)
    requires w.granule > 0
    ensures var n := |EagerRun(w, i)|;
      Stride(i, n, w.granule) >= w.length || UnitAt(w.cache, w.fileOffset + Stride(i, n, w.granule)).None?
    decreases if i < w.length then w.length - i else 0
  {
    if i < w.length && UnitAt(w.cache, w.fileOffset + i).Some? {
      EagerRunEnd(w, i + w.granule);
      StrideShift(i, |EagerRun(w, i)|, w.granule);
    }
  }

  /** Shape of the eager requests: the k-th maps the k-th granule of the range to the unit
      served for the matching file offset, and the run ends at the range end or at the
      first offset the cache cannot serve. */
  lemma EagerRunShape(w: EagerWalk, i: nat)
    requires w.granule > 0
    ensures var calls := EagerRun(w, i);
      (forall k | 0 <= k < |calls| ::
         calls[k].MapReq? && calls[k].vaddr == w.base + Stride(i, k, w.granule) &&
         Stride(i, k, w.granule) < w.length &&
         UnitAt(w.cache, w.fileOffset + Stride(i, k, w.granule)) == Some(calls[k].paddr) &&
         calls[k].mode == w.mode && calls[k].flags == w.flags) &&
      (Stride(i, |calls|, w.granule) >= w.length ||
       UnitAt(w.cache, w.fileOffset + Stride(i, |calls|, w.granule)).None?)
  {
    forall k | 0 <= k < |EagerRun(w, i)| {
      EagerRunAt(w, i, k);
    }
    EagerRunEnd(w, i);
  }

  /** Eager backing never adds more than ceil(length/granule) granules to the resident size. */
  lemma EagerRunBound(w: EagerWalk)
    requires w.granule > 0
    ensures |EagerRun(w, 0)| * w.granule <= AlignUp(w.length, w.granule)
  {
    var n := |EagerRun(w, 0)|;
    EagerRunShape(w, 0);
    if n > 0 {
      StrideIsProduct(0, n - 1, w.granule);
      StepBound(n, w.granule, w.length);
    }
  }

  /** n granules whose last one starts inside a range of `len` bytes span at most AlignUp(len). */
  lemma StepBound(n: nat, g: nat, len: nat)
    requires g > 0 && n > 0 && (n - 1) * g < len
    ensures n * g <= AlignUp(len, g)
  {
    assert n * g == (n - 1) * g + g;
    CoverBound(n, g, len);
  }

  /** When every file offset of the range is served, the whole range is mapped. */
  lemma EagerRunComplete(w: EagerWalk)
    requires w.granule > 0
    requires forall off | w.fileOffset <= off < w.fileOffset + w.length :: UnitAt(w.cache, off).Some?
    ensures Stride(0, |EagerRun(w, 0)|, w.granule) >= w.length
  {
    EagerRunShape(w, 0);
  }

  // ---------------------------------------------------------------------------
  // Fault handling

  /** The inputs of HandleFault's mapping loop. */
  datatype FaultWalk = FaultWalk(cache: FileCache, fileOffset: nat, base: nat, mappingOffset: nat,
                                 mapLength: nat, granule: nat, unitSize: nat, mode: nat, flags: set<HatFlag>)

  datatype FaultPlan = FaultPlan(calls: seq<HatCall>, goodFault: bool)

  /** The Map requests HandleFault's loop makes from step offset `i` on, `cur` being the
      unit base fetched last: the unit is refetched whenever the step offset is a multiple
      of the unit size, a missing unit ends the fault as bad, and every granule is
      mapped at the unit base plus the step offset within the unit. */
  function FaultRun(w: FaultWalk, i: nat, cur: Option<nat>): FaultPlan
    requires w.granule > 0 && w.unitSize > 0
    decreases if i < w.mapLength then w.mapLength - i else 0
  {
    if i >= w.mapLength then FaultPlan([], true)
    else
      var unit := if i % w.unitSize == 0 then UnitAt(Some(w.cache), w.fileOffset + w.mappingOffset + i) else cur;
      if unit.None? then FaultPlan([], false)
      else
        var rest := FaultRun(w, i + w.granule, unit);
        FaultPlan([MapReq(w.base + w.mappingOffset + i, unit.value + i % w.unitSize, w.mode, w.flags)] + rest.calls,
                  rest.goodFault)
  }

  /** The walk HandleFault performs for a fault at `where` in `range`. */
  function FaultWalkFor(range: VmRange, where: nat, cache: FileCache, info: CacheInfo, granule: nat): (w: FaultWalk)
    requires granule > 0
    requires range.base % granule == 0 && range.base <= where < range.Top()
    requires range.token.Some?
    ensures w.base + w.mappingOffset == AlignDown(where, granule)
    ensures range.base <= w.base + w.mappingOffset <= where
    ensures 0 < w.mapLength <= FaultMaxMapAhead
    ensures w.base + w.mappingOffset + w.mapLength <= range.Top()
  {
    var aligned := AlignDown(where, granule);
    AlignDownBounds(where, granule);
    AlignUpLeast(range.base, granule, range.base);
    assert aligned >= range.base by {
      if aligned < range.base {
        DivMonotone(range.base, where, granule);
        MulMod(range.base / granule, granule);
        assert range.base == range.base / granule * granule + range.base % granule;
        MulMonotone(range.base / granule, where / granule, granule);
      }
    }
    FaultWalk(cache, range.token.value.fileOffset, range.base, aligned - range.base,
              Min(FaultMaxMapAhead, range.Top() - aligned), granule, info.unitSize,
              info.hatMode, ConvertFlags(range.flags))
  }

  /** The k-th request of a fault maps the granule k steps after the aligned fault address. */
  lemma {:induction false} FaultRunAt(w: FaultWalk, i: nat, cur: Option<nat>, k: nat)
    requires w.granule > 0 && w.unitSize > 0
    requires k < |FaultRun(w, i, cur).calls|
    ensures Stride(i, k, w.granule) < w.mapLength
    ensures FaultRun(w, i, cur).calls[k].MapReq?
    ensures FaultRun(w, i, cur).calls[k].vaddr == w.base + w.mappingOffset + Stride(i, k, w.granule)
    decreases k
  {
    if k > 0 {
      var unit := if i % w.unitSize == 0 then UnitAt(Some(w.cache), w.fileOffset + w.mappingOffset + i) else cur;
      FaultRunAt(w, i + w.granule, unit, k - 1);
      StrideShift(i, k, w.granule);
    }
  }

  /** A good fault covers the whole window; a bad one stopped at a unit boundary whose unit
      the cache could not serve. */
  lemma {:induction false} FaultRunEnd(w: FaultWalk, i: nat, cur: Option<nat>)
    requires w.granule > 0 && w.unitSize > 0
    requires i % w.unitSize != 0 ==> cur.Some?
    ensures var p := FaultRun(w, i, cur);
      var j := Stride(i, |p.calls|, w.granule);
      (p.goodFault ==> j >= w.mapLength) &&
      (!p.goodFault ==>
         j < w.mapLength && j % w.unitSize == 0 &&
         UnitAt(Some(w.cache), w.fileOffset + w.mappingOffset + j).None?)
    decreases if i < w.mapLength then w.mapLength - i else 0
  {
    if i < w.mapLength {
      var unit := if i % w.unitSize == 0 then UnitAt(Some(w.cache), w.fileOffset + w.mappingOffset + i) else cur;
      FaultRunStep(w, i, cur, unit);
      if unit.Some? {
        var p := FaultRun(w, i, cur);
        var rest := FaultRun(w, i + w.granule, unit);
        FaultRunEnd(w, i + w.granule, unit);
        assert |p.calls| == |rest.calls| + 1;
        StrideShift(i, |p.calls|, w.granule);
        assert Stride(i, |p.calls|, w.granule) == Stride(i + w.granule, |rest.calls|, w.granule);
      } else {
        assert Stride(i, 0, w.granule) == i;
      }
    } else {
      assert FaultRun(w, i, cur) == FaultPlan([], true);
    }
  }

  /** Shape of a fault's requests: the k-th maps the granule k steps after the aligned fault
      address, every request stays inside the window, a good fault covers the whole window,
      and a bad one stopped at a unit boundary whose unit the cache could not serve. */
  lemma FaultRunShape(w: FaultWalk, i: nat, cur: Option<nat>)
    requires w.granule > 0 && w.unitSize > 0
    requires i % w.unitSize != 0 ==> cur.Some?
    ensures var p := FaultRun(w, i, cur);
      (forall k | 0 <= k < |p.calls| ::
         p.calls[k].MapReq? && p.calls[k].vaddr == w.base + w.mappingOffset + Stride(i, k, w.granule) &&
         Stride(i, k, w.granule) < w.mapLength) &&
      (p.goodFault ==> Stride(i, |p.calls|, w.granule) >= w.mapLength) &&
      (!p.goodFault ==>
         var j := Stride(i, |p.calls|, w.granule);
         j < w.mapLength && j % w.unitSize == 0 &&
         UnitAt(Some(w.cache), w.fileOffset + w.mappingOffset + j).None?)
  {
    forall k | 0 <= k < |FaultRun(w, i, cur).calls| {
      FaultRunAt(w, i, cur, k);
    }
    FaultRunEnd(w, i, cur);
  }

  /** A fault maps at most ceil(window/granule) granules, the window being at most FaultMaxMapAhead
      bytes; a good fault maps exactly that many. */
  lemma FaultRunBound(w: FaultWalk)
    requires w.granule > 0 && w.unitSize > 0
    ensures var p := FaultRun(w, 0, None);
      |p.calls| * w.granule <= AlignUp(w.mapLength, w.granule) &&
      (p.goodFault ==> |p.calls| * w.granule == AlignUp(w.mapLength, w.granule))
  {
    var p := FaultRun(w, 0, None);
    FaultRunShape(w, 0, None);
    var n := |p.calls|;
    if n > 0 {
      StrideIsProduct(0, n - 1, w.granule);
      StepBound(n, w.granule, w.mapLength);
    }
    if p.goodFault {
      StrideIsProduct(0, n, w.granule);
      MulMod(n, w.granule);
      AlignUpLeast(w.mapLength, w.granule, n * w.granule);
    }
  }

  /** A granule multiple less than one granule past `len` is at most AlignUp(len). */
  lemma CoverBound(n: nat, g: nat, len: nat)
    requires g > 0 && n * g < len + g
    ensures n * g <= AlignUp(len, g)
  {
    AlignUpBounds(len, g);
    var a := AlignUp(len, g);
    var qa := a / g;
    DivModUnique(a, g, qa, 0) by {
      assert a == a / g * g + a % g;
    }
    if n > qa {
      MulMonotone(qa + 1, n, g);
    } else {
      MulMonotone(n, qa, g);
    }
  }

  /** Every address a fault maps lies in the window from the fault's granule, at most
      FaultMaxMapAhead bytes long and inside the range, and a fault maps at most
      ceil(window/granule) granules. */
  lemma HandleFaultWindow(range: VmRange, where: nat, cache: FileCache, info: CacheInfo, granule: nat)
    requires granule > 0 && info.unitSize > 0
    requires range.token.Some?
    requires range.base % granule == 0 && range.base <= where < range.Top()
    ensures var w := FaultWalkFor(range, where, cache, info, granule);
      var p := FaultRun(w, 0, None);
      (forall k | 0 <= k < |p.calls| ::
         AlignDown(where, granule) <= p.calls[k].vaddr < AlignDown(where, granule) + w.mapLength &&
         range.base <= p.calls[k].vaddr < range.Top()) &&
      w.mapLength <= FaultMaxMapAhead &&
      |p.calls| * granule <= AlignUp(w.mapLength, granule)
  {
    var w := FaultWalkFor(range, where, cache, info, granule);
    FaultRunShape(w, 0, None);
    FaultRunBound(w);
  }

  /** The offset within a unit of a granule multiple is a granule multiple, when the unit is. */
  lemma UnitOffsetAligned(i: nat, g: nat, u: nat)
    requires g > 0 && u > 0 && u % g == 0 && i % g == 0
    ensures (i % u) % g == 0
  {
    var a, m, q := i / g, u / g, i / u;
    assert i == a * g;
    assert u == m * g;
    assert i == q * u + i % u;
    var c: int := a - q * m;
    assert q * u == (q * m) * g;
    assert i % u == c * g by {
      assert a * g - (q * m) * g == (a - q * m) * g;
    }
    MulMod(c, g);
  }

  /** A granule multiple below a unit leaves room for one more granule in the unit. */
  lemma GranuleFitsUnit(r: nat, g: nat, u: nat)
    requires g > 0 && r % g == 0 && u % g == 0 && r < u
    ensures r + g <= u
  {
    var c, m := r / g, u / g;
    assert r == c * g;
    assert u == m * g;
    if c >= m {
      MulMonotone(m, c, g);
    }
    MulMonotone(c + 1, m, g);
    assert (c + 1) * g == c * g + g;
  }

  /** Within one cache unit a granule step keeps the unit boundary: when the unit size is a
      granule multiple and the next step offset is not on a boundary, it lies in the same unit. */
  lemma UnitBoundaryStep(i: nat, g: nat, u: nat)
    requires g > 0 && u > 0 && u % g == 0 && i % g == 0
    requires (i + g) % u != 0
    ensures (i + g) % u == i % u + g
    ensures AlignDown(i + g, u) == AlignDown(i, u)
  {
    var q, r := i / u, i % u;
    assert i == q * u + r;
    UnitOffsetAligned(i, g, u);
    GranuleFitsUnit(r, g, u);
    if r + g == u {
      assert i + g == q * u + u;
      assert q * u + u == (q + 1) * u;
      MulMod(q + 1, u);
    }
    DivModUnique(i + g, u, q, r + g);
  }

  /** The unit the fault loop holds at step offset `i` is the one served at the last unit
      boundary, and it is still the right one at the next step offset unless that offset
      starts a new unit. */
  lemma FaultUnitStep(w: FaultWalk, i: nat, cur: Option<nat>)
    requires w.granule > 0 && w.unitSize > 0 && w.unitSize % w.granule == 0 && i % w.granule == 0
    requires i % w.unitSize != 0 ==>
               cur == UnitAt(Some(w.cache), w.fileOffset + w.mappingOffset + AlignDown(i, w.unitSize))
    ensures var unit := if i % w.unitSize == 0 then UnitAt(Some(w.cache), w.fileOffset + w.mappingOffset + i) else cur;
      unit == UnitAt(Some(w.cache), w.fileOffset + w.mappingOffset + AlignDown(i, w.unitSize)) &&
      (i + w.granule) % w.granule == 0 &&
      ((i + w.granule) % w.unitSize != 0 ==>
         unit == UnitAt(Some(w.cache), w.fileOffset + w.mappingOffset + AlignDown(i + w.granule, w.unitSize)))
  {
    assert i == i / w.unitSize * w.unitSize + i % w.unitSize;
    NextGranuleAligned(i, w.granule);
    if (i + w.granule) % w.unitSize != 0 {
      UnitBoundaryStep(i, w.granule, w.unitSize);
    }
  }

  /** The step offset after a granule multiple is a granule multiple. */
  lemma NextGranuleAligned(i: nat, g: nat)
    requires g > 0 && i % g == 0
    ensures (i + g) % g == 0
  {
    var q := i / g;
    assert i == q * g + i % g;
    MulMod(q + 1, g);
    assert i + g == (q + 1) * g;
  }

  /** Every granule a fault maps is backed by the cache unit fetched at the last unit boundary
      of the walk, at the granule's offset within that unit, for cache units a whole number of
      granules long. `cur` holds the unit of the current boundary whenever the walk starts
      between boundaries. */
  lemma {:induction false} FaultUnitPerGranule(w: FaultWalk, i: nat, cur: Option<nat>, k: nat)
    requires w.granule > 0 && w.unitSize > 0 && w.unitSize % w.granule == 0 && i % w.granule == 0
    requires i % w.unitSize != 0 ==>
               cur == UnitAt(Some(w.cache), w.fileOffset + w.mappingOffset + AlignDown(i, w.unitSize))
    requires k < |FaultRun(w, i, cur).calls|
    ensures FaultRun(w, i, cur).calls[k].MapReq?
    ensures var s := Stride(i, k, w.granule);
      var unit := UnitAt(Some(w.cache), w.fileOffset + w.mappingOffset + AlignDown(s, w.unitSize));
      unit.Some? && FaultRun(w, i, cur).calls[k].paddr == unit.value + s % w.unitSize
    decreases k
  {
    var unit := if i % w.unitSize == 0 then UnitAt(Some(w.cache), w.fileOffset + w.mappingOffset + i) else cur;
    FaultUnitStep(w, i, cur);
    FaultRunStep(w, i, cur, unit);
    if k > 0 {
      FaultUnitPerGranule(w, i + w.granule, unit, k - 1);
      StrideShift(i, k, w.granule);
    }
  }

  // ---------------------------------------------------------------------------
  // Detach

  /** The granule addresses of a range from step offset `i` on, in the order Detach visits them. */
  function GranuleAddrs(base: nat, length: nat, granule: nat, i: nat): seq<nat>
    requires granule > 0
    decreases if i < length then length - i else 0
  {
    if i >= length then [] else [base + i] + GranuleAddrs(base, length, granule, i + granule)
  }

  function UnmapCalls(addrs: seq<nat>): (r: seq<HatCall>)
    ensures |r| == |addrs|
    ensures forall k | 0 <= k < |r| :: r[k] == UnmapReq(addrs[k])
  {
    if addrs == [] then [] else [UnmapReq(addrs[0])] + UnmapCalls(addrs[1..])
  }

  /** How many of the addresses are mapped. */
  function CountMapped(hat: map<nat, Mapping>, addrs: seq<nat>): nat
  {
    if addrs == [] then 0 else (if addrs[0] in hat then 1 else 0) + CountMapped(hat, addrs[1..])
  }

  lemma {:induction false} CountMappedAppend(hat: map<nat, Mapping>, a: seq<nat>, b: seq<nat>)
    ensures CountMapped(hat, a + b) == CountMapped(hat, a) + CountMapped(hat, b)
  {
    if a != [] {
      assert (a + b)[0] == a[0];
      assert (a + b)[1..] == a[1..] + b;
      CountMappedAppend(hat, a[1..], b);
    } else {
      assert a + b == b;
    }
  }

  lemma {:induction false} GranuleAddrsShape(base: nat, length: nat, granule: nat, i: nat)
    requires granule > 0
    ensures var s := GranuleAddrs(base, length, granule, i);
      (forall k | 0 <= k < |s| :: s[k] == base + Stride(i, k, granule) && Stride(i, k, granule) < length) &&
      Stride(i, |s|, granule) >= length
    decreases if i < length then length - i else 0
  {
    if i < length {
      var s := GranuleAddrs(base, length, granule, i);
      var rest := GranuleAddrs(base, length, granule, i + granule);
      GranuleAddrsShape(base, length, granule, i + granule);
      forall k | 1 <= k < |s|
        ensures s[k] == rest[k - 1]
        ensures Stride(i, k, granule) == Stride(i + granule, k - 1, granule)
      {
        StrideShift(i, k, granule);
      }
      StrideShift(i, |s|, granule);
    }
  }

  // ---------------------------------------------------------------------------
  // Attach followed by Detach

  /** Counting the mapped addresses of a sequence whose first n entries are exactly the mapped ones. */
  lemma {:induction false} CountMappedPrefix(hat: map<nat, Mapping>, addrs: seq<nat>, n: nat)
    requires n <= |addrs|
    requires forall j | 0 <= j < |addrs| :: (addrs[j] in hat <==> j < n)
    ensures CountMapped(hat, addrs) == n
  {
    if addrs != [] {
      assert forall j | 0 <= j < |addrs[1..]| :: addrs[1..][j] == addrs[j + 1];
      CountMappedPrefix(hat, addrs[1..], if n > 0 then n - 1 else 0);
    }
  }

  /** On a range none of whose granules was mapped, the granules Detach finds mapped after an
      eager Attach are exactly the ones Attach mapped, so Detach takes off the resident size
      exactly what Attach added. */
  lemma EagerAttachDetachResident(w: EagerWalk, hat: map<nat, Mapping>)
    requires w.granule > 0
    requires forall a | a in GranuleAddrs(w.base, w.length, w.granule, 0) :: a !in hat
    ensures CountMapped(ApplyCalls(hat, EagerRun(w, 0)), GranuleAddrs(w.base, w.length, w.granule, 0))
            == |EagerRun(w, 0)|
  {
    var calls := EagerRun(w, 0);
    var g := GranuleAddrs(w.base, w.length, w.granule, 0);
    var after := ApplyCalls(hat, calls);
    EagerCallsAreGranules(w);
    ApplyMapsKeys(hat, calls);
    forall j | 0 <= j < |g| ensures g[j] in after <==> j < |calls|
    {
      if j < |calls| {
        assert calls[j] in calls;
      }
    }
    CountMappedPrefix(after, g, |calls|);
  }

  /** The eager requests map the first granules of the range, in order, and no other. */
  lemma EagerCallsAreGranules(w: EagerWalk)
    requires w.granule > 0
    ensures var calls := EagerRun(w, 0);
      var g := GranuleAddrs(w.base, w.length, w.granule, 0);
      |calls| <= |g| &&
      (forall c | c in calls :: c.MapReq?) &&
      (forall k | 0 <= k < |calls| :: calls[k].vaddr == g[k]) &&
      (forall j | |calls| <= j < |g| :: g[j] !in Vaddrs(calls))
  {
    var calls := EagerRun(w, 0);
    var g := GranuleAddrs(w.base, w.length, w.granule, 0);
    EagerRunShape(w, 0);
    GranuleAddrsShape(w.base, w.length, w.granule, 0);
    if |calls| > 0 {
      assert Stride(0, |calls| - 1, w.granule) < w.length;
      StrideOrder(0, |calls| - 1, |g|, w.granule);
    }
    forall j | |calls| <= j < |g| ensures g[j] !in Vaddrs(calls) {
      if g[j] in Vaddrs(calls) {
        var k :| 0 <= k < |calls| && calls[k].vaddr == g[j];
        StrideMonotone(0, k, j, w.granule);
      }
    }
  }

  // ---------------------------------------------------------------------------
  // The driver

  datatype VfsFeature = FaultHandler

  class VfsVmDriver {
    /** Whether backing may be deferred to page faults (features.faultHandler). */
    var faultHandler: bool

    constructor ()
      ensures !faultHandler
    {
      faultHandler := false;
    }

    /** Init: records whether the fault handler feature is enabled. */
    method Init(enableFeatures: set<VfsFeature>)
      modifies this
      ensures faultHandler == (FaultHandler in enableFeatures)
    {
      faultHandler := FaultHandler in enableFeatures;
    }

    /** The walk Attach's backing loop performs when it backs the range eagerly. */
    static function EagerWalkFor(range: VmRange, arg: FileInitArg, cache: Option<FileCache>,
                                 mode: nat, granule: nat): EagerWalk
    {
      EagerWalk(cache, arg.offset, range.base, range.length, granule, mode, ConvertFlags(range.flags))
    }

    /** Attach: re-validates that the path names a File, builds the token, charges the
        working size, and then either defers backing to faults or maps the range eagerly. */
    method Attach(ctx: VmContext, range: VmRange, query: QueryResult, arg: FileInitArg,
                  fileId: Option<NodeId>, node: Option<Node>, granule: nat) returns (r: AttachResult)
      requires granule > 0
      modifies ctx
      ensures r.success <==> fileId.Some? && node.Some? && node.value.nodeType == File
      ensures !r.success ==>
        r.token.None? && ctx.Hat() == old(ctx.Hat()) && ctx.calls == old(ctx.calls) && ctx.stats == old(ctx.stats)
      ensures r.success ==>
        r.offset == arg.offset % granule &&
        r.token == Some(VfsLink(fileId.value, arg.offset, VmFlag.Write !in range.flags, false)) &&
        ctx.stats.fileWorkingSize == old(ctx.stats.fileWorkingSize) + range.length - r.offset
      ensures r.success ==>
        var made := if faultHandler && !arg.noDeferBacking then []
                    else EagerRun(EagerWalkFor(range, arg, node.value.cache, query.hatMode, granule), 0);
        ctx.calls == old(ctx.calls) + made &&
        ctx.Hat() == ApplyCalls(old(ctx.Hat()), made) &&
        ctx.stats.fileResidentSize == old(ctx.stats.fileResidentSize) + |made| * granule
    {
      if fileId.None? {
        return AttachResult(None, 0, false);
      }
      if node.None? || node.value.nodeType != File {
        return AttachResult(None, 0, false);
      }
      var cache := node.value.cache;
      var link := VfsLink(fileId.value, arg.offset, VmFlag.Write !in range.flags, false);
      r := AttachResult(Some(link), arg.offset % granule, true);
      ctx.stats := ctx.stats.(fileWorkingSize := ctx.stats.fileWorkingSize + range.length - r.offset);

      if faultHandler && !arg.noDeferBacking {
        return;
      }

      var w := EagerWalkFor(range, arg, cache, query.hatMode, granule);
      ghost var calls0 := ctx.calls;
      MapEagerly(ctx, w);
      StrideIsProduct(0, |EagerRun(w, 0)|, granule);
      ApplyCallsAppend(ctx.initial, calls0, EagerRun(w, 0));
    }

    /** Attach's backing loop: one Map per granule while the file cache serves a unit, and a
        granule of resident size per request. */
    static method MapEagerly(ctx: VmContext, w: EagerWalk)
      requires w.granule > 0
      modifies ctx
      ensures ctx.calls == old(ctx.calls) + EagerRun(w, 0) && ctx.initial == old(ctx.initial)
      ensures ctx.stats.fileWorkingSize == old(ctx.stats.fileWorkingSize)
      ensures ctx.stats.fileResidentSize == old(ctx.stats.fileResidentSize) + Stride(0, |EagerRun(w, 0)|, w.granule)
    {
      ghost var done: seq<HatCall> := [];
      ghost var calls0 := ctx.calls;
      ghost var stats0 := ctx.stats;
      var i := 0;
      while i < w.length
        invariant EagerRun(w, 0) == done + EagerRun(w, i)
        invariant ctx.calls == calls0 + done
        invariant ctx.initial == old(ctx.initial)
        invariant ctx.stats.fileWorkingSize == stats0.fileWorkingSize
        invariant ctx.stats.fileResidentSize == stats0.fileResidentSize + Stride(0, |done|, w.granule)
        decreases w.length - i
      {
        var handle := UnitAt(w.cache, w.fileOffset + i);
        if handle.None? {
          break;
        }
        var c := MapReq(w.base + i, handle.value, w.mode, w.flags);
        assert EagerRun(w, i) == [c] + EagerRun(w, i + w.granule);
        MapGranule(ctx, c, w.granule);
        done := done + [c];
        i := i + w.granule;
      }
      assert EagerRun(w, i) == [];
    }

    /** HandleFault: maps up to FaultMaxMapAhead bytes from the granule holding the fault,
        charging a granule of resident size per request whatever Map answers. */
    method HandleFault(ctx: VmContext, range: VmRange, where: nat, node: Option<Node>,
                       info: CacheInfo, granule: nat) returns (goodFault: bool)
      requires granule > 0 && info.unitSize > 0
      requires range.token.Some?
      requires range.base % granule == 0 && range.base <= where < range.Top()
      modifies ctx
      ensures node.None? || node.value.cache.None? ==>
        !goodFault && ctx.Hat() == old(ctx.Hat()) && ctx.calls == old(ctx.calls) && ctx.stats == old(ctx.stats)
      ensures node.Some? && node.value.cache.Some? ==>
        var p := FaultRun(FaultWalkFor(range, where, node.value.cache.value, info, granule), 0, None);
        goodFault == p.goodFault &&
        ctx.calls == old(ctx.calls) + p.calls &&
        ctx.Hat() == ApplyCalls(old(ctx.Hat()), p.calls) &&
        ctx.stats == old(ctx.stats).(fileResidentSize := old(ctx.stats.fileResidentSize) + |p.calls| * granule)
    {
      if node.None? {
        return false;
      }
      if node.value.cache.None? {
        return false;
      }
      var w := FaultWalkFor(range, where, node.value.cache.value, info, granule);
      goodFault := MapFaultWindow(ctx, w);
    }

    /** HandleFault's mapping loop over the window `w` describes. */
    static method MapFaultWindow(ctx: VmContext, w: FaultWalk) returns (goodFault: bool)
      requires w.granule > 0 && w.unitSize > 0
      modifies ctx
      ensures var p := FaultRun(w, 0, None);
        goodFault == p.goodFault &&
        ctx.calls == old(ctx.calls) + p.calls &&
        ctx.Hat() == ApplyCalls(old(ctx.Hat()), p.calls) &&
        ctx.stats == old(ctx.stats).(fileResidentSize := old(ctx.stats.fileResidentSize) + |p.calls| * w.granule)
    {
      ghost var calls0 := ctx.calls;
      goodFault := FaultLoop(ctx, w);
      StrideIsProduct(0, |FaultRun(w, 0, None).calls|, w.granule);
      ApplyCallsAppend(ctx.initial, calls0, FaultRun(w, 0, None).calls);
    }

    /** The loop itself: the requests it makes, and a granule of resident size per request. */
    static method FaultLoop(ctx: VmContext, w: FaultWalk) returns (goodFault: bool)
      requires w.granule > 0 && w.unitSize > 0
      modifies ctx
      ensures var p := FaultRun(w, 0, None);
        goodFault == p.goodFault &&
        ctx.calls == old(ctx.calls) + p.calls && ctx.initial == old(ctx.initial) &&
        ctx.stats.fileWorkingSize == old(ctx.stats.fileWorkingSize) &&
        ctx.stats.fileResidentSize == old(ctx.stats.fileResidentSize) + Stride(0, |p.calls|, w.granule)
    {
      var cachePart := UnitAt(Some(w.cache), w.fileOffset + w.mappingOffset);
      ghost var stats0 := ctx.stats;
      ghost var calls0 := ctx.calls;
      ghost var done: seq<HatCall> := [];
      ghost var total := FaultRun(w, 0, None);
      var i := 0;
      while i < w.mapLength
        invariant i != 0 ==> cachePart.Some?
        invariant total.calls == done + FaultRun(w, i, cachePart).calls
        invariant total.goodFault == FaultRun(w, i, cachePart).goodFault
        invariant ctx.calls == calls0 + done
        invariant ctx.initial == old(ctx.initial)
        invariant ctx.stats.fileWorkingSize == stats0.fileWorkingSize
        invariant ctx.stats.fileResidentSize == stats0.fileResidentSize + Stride(0, |done|, w.granule)
        decreases w.mapLength - i
      {
        ghost var prev := cachePart;
        if i % w.unitSize == 0 {
          cachePart := UnitAt(Some(w.cache), w.fileOffset + w.mappingOffset + i);
          if cachePart.None? {
            FaultRunStep(w, i, prev, cachePart);
            return false;
          }
        }
        var c := MapReq(w.base + w.mappingOffset + i, cachePart.value + i % w.unitSize, w.mode, w.flags);
        FaultLoopStep(w, i, prev, cachePart, done, total.calls);
        MapGranule(ctx, c, w.granule);
        done := done + [c];
        i := i + w.granule;
      }
      assert FaultRun(w, i, cachePart) == FaultPlan([], true);
      return true;
    }

    /** Detach: releases the working size the range was charged, unmaps every granule of
        the range in address order, and takes a granule of resident size off per granule
        that was mapped. */
    method Detach(ctx: VmContext, range: VmRange, granule: nat) returns (ok: bool)
      requires granule > 0
      modifies ctx
      ensures ok
      ensures var addrs := GranuleAddrs(range.base, range.length, granule, 0);
        ctx.calls == old(ctx.calls) + UnmapCalls(addrs) &&
        ctx.Hat() == old(ctx.Hat()) - (set a | a in addrs) &&
        ctx.stats.fileWorkingSize == old(ctx.stats.fileWorkingSize) - (range.length - range.offset) &&
        ctx.stats.fileResidentSize == old(ctx.stats.fileResidentSize) - CountMapped(old(ctx.Hat()), addrs) * granule
    {
      ctx.stats := ctx.stats.(fileWorkingSize := ctx.stats.fileWorkingSize - (range.length - range.offset));
      ghost var addrs := GranuleAddrs(range.base, range.length, granule, 0);
      ghost var calls0 := ctx.calls;
      ghost var hat0 := ctx.Hat();
      UnmapGranules(ctx, range.base, range.length, granule);
      StrideIsProduct(0, CountMapped(hat0, addrs), granule);
      ApplyCallsAppend(ctx.initial, calls0, UnmapCalls(addrs));
      UnmapCallsEffect(hat0, addrs);
      ok := true;
    }

    /** Detach's unmapping loop: one Unmap per granule of the range, in address order. */
    static method UnmapGranules(ctx: VmContext, base: nat, length: nat, granule: nat)
      requires granule > 0
      modifies ctx
      ensures var addrs := GranuleAddrs(base, length, granule, 0);
        ctx.calls == old(ctx.calls) + UnmapCalls(addrs) && ctx.initial == old(ctx.initial) &&
        ctx.stats == old(ctx.stats).(fileResidentSize :=
          old(ctx.stats.fileResidentSize) - Stride(0, CountMapped(old(ctx.Hat()), addrs), granule))
    {
      ghost var all := GranuleAddrs(base, length, granule, 0);
      ghost var hat0 := ctx.Hat();
      ghost var calls0 := ctx.calls;
      ghost var stats0 := ctx.stats;
      ghost var visited: seq<nat> := [];
      var i := 0;
      while i < length
        invariant all == visited + GranuleAddrs(base, length, granule, i)
        invariant forall a | a in visited :: a < base + i
        invariant ctx.calls == calls0 + UnmapCalls(visited)
        invariant ctx.initial == old(ctx.initial)
        invariant ctx.stats.fileWorkingSize == stats0.fileWorkingSize
        invariant ctx.stats.fileResidentSize == stats0.fileResidentSize - Stride(0, CountMapped(hat0, visited), granule)
        decreases length - i
      {
        GranuleAddrsStep(base, length, granule, i, visited, all);
        UnmapStep(ctx.initial, calls0, visited, base + i);
        UnmapGranule(ctx, base + i, granule);
        UnmapCountStep(hat0, visited, base + i, granule);
        UnmapCallsAppend(visited, base + i);
        visited := visited + [base + i];
        i := i + granule;
      }
      assert visited == all;
    }
  }

  /** The walk over the granules moves one address from the rest of the range to the part
      already visited, and that address is new. */
  lemma GranuleAddrsStep(base: nat, length: nat, granule: nat, i: nat, visited: seq<nat>, all: seq<nat>)
    requires granule > 0 && i < length
    requires all == visited + GranuleAddrs(base, length, granule, i)
    requires forall a | a in visited :: a < base + i
    ensures base + i !in visited
    ensures all == (visited + [base + i]) + GranuleAddrs(base, length, granule, i + granule)
  {
    assert GranuleAddrs(base, length, granule, i) == [base + i] + GranuleAddrs(base, length, granule, i + granule);
  }

  /** One more unmapped address adds a granule to the count exactly when it was mapped. */
  lemma UnmapCountStep(hat: map<nat, Mapping>, visited: seq<nat>, a: nat, granule: nat)
    ensures Stride(0, CountMapped(hat, visited + [a]), granule) ==
      Stride(0, CountMapped(hat, visited), granule) + (if a in hat then granule else 0)
  {
    CountMappedAppend(hat, visited, [a]);
    assert CountMapped(hat, [a]) == if a in hat then 1 else 0 by {
      assert [a][1..] == [];
    }
  }

  /** One step of HandleFault's loop: one Map request, and a granule of resident size. */
  method MapGranule(ctx: VmContext, c: HatCall, granule: nat)
    requires c.MapReq?
    modifies ctx
    ensures ctx.calls == old(ctx.calls) + [c] && ctx.initial == old(ctx.initial)
    ensures ctx.stats.fileWorkingSize == old(ctx.stats.fileWorkingSize)
    ensures ctx.stats.fileResidentSize == old(ctx.stats.fileResidentSize) + granule
  {
    var _ := ctx.Map(c.vaddr, c.paddr, c.mode, c.flags);
    ctx.stats := ctx.stats.(fileResidentSize := ctx.stats.fileResidentSize + granule);
  }

  /** One step of the fault walk at offset `i`, `unit` being the unit it uses: a missing unit
      ends the walk as a bad fault; otherwise the walk maps this granule and goes on. */
  lemma FaultRunStep(w: FaultWalk, i: nat, prev: Option<nat>, unit: Option<nat>)
    requires w.granule > 0 && w.unitSize > 0 && i < w.mapLength
    requires unit == if i % w.unitSize == 0 then UnitAt(Some(w.cache), w.fileOffset + w.mappingOffset + i) else prev
    ensures unit.None? ==> FaultRun(w, i, prev) == FaultPlan([], false)
    ensures unit.Some? ==>
      FaultRun(w, i, prev).calls ==
        [MapReq(w.base + w.mappingOffset + i, unit.value + i % w.unitSize, w.mode, w.flags)] +
        FaultRun(w, i + w.granule, unit).calls &&
      FaultRun(w, i, prev).goodFault == FaultRun(w, i + w.granule, unit).goodFault
  {
  }

  /** The fault walk's requests so far, `done`, stay a prefix of the whole walk `all` after
      one more mapped granule. */
  lemma FaultLoopStep(w: FaultWalk, i: nat, prev: Option<nat>, unit: Option<nat>,
                      done: seq<HatCall>, all: seq<HatCall>)
    requires w.granule > 0 && w.unitSize > 0 && i < w.mapLength
    requires unit == if i % w.unitSize == 0 then UnitAt(Some(w.cache), w.fileOffset + w.mappingOffset + i) else prev
    requires unit.Some?
    requires all == done + FaultRun(w, i, prev).calls
    ensures all == (done + [MapReq(w.base + w.mappingOffset + i, unit.value + i % w.unitSize, w.mode, w.flags)]) +
                   FaultRun(w, i + w.granule, unit).calls
    ensures FaultRun(w, i, prev).goodFault == FaultRun(w, i + w.granule, unit).goodFault
  {
    FaultRunStep(w, i, prev, unit);
  }

  /** One step of Detach's loop: unmaps one granule, taking a granule of resident size off
      when it was mapped. */
  method UnmapGranule(ctx: VmContext, vaddr: nat, granule: nat)
    modifies ctx
    ensures ctx.calls == old(ctx.calls) + [UnmapReq(vaddr)] && ctx.initial == old(ctx.initial)
    ensures ctx.stats == old(ctx.stats).(fileResidentSize :=
      old(ctx.stats.fileResidentSize) - (if vaddr in old(ctx.Hat()) then granule else 0))
  {
    var unmapped := ctx.Unmap(vaddr);
    if unmapped {
      ctx.stats := ctx.stats.(fileResidentSize := ctx.stats.fileResidentSize - granule);
    }
  }

  /** Unmapping a sequence of addresses removes exactly those addresses. */
  lemma {:induction false} UnmapCallsEffect(hat: map<nat, Mapping>, addrs: seq<nat>)
    ensures ApplyCalls(hat, UnmapCalls(addrs)) == hat - (set a | a in addrs)
    decreases |addrs|
  {
    if addrs != [] {
      UnmapCallsEffect(hat - {addrs[0]}, addrs[1..]);
      assert UnmapCalls(addrs)[1..] == UnmapCalls(addrs[1..]);
      assert (set a | a in addrs) == {addrs[0]} + (set a | a in addrs[1..]);
    }
  }

  /** An address not unmapped yet is mapped exactly when it was before the unmapping began. */
  lemma UnmapStep(initial: map<nat, Mapping>, calls0: seq<HatCall>, visited: seq<nat>, a: nat)
    requires a !in visited
    ensures (a in ApplyCalls(initial, calls0 + UnmapCalls(visited))) == (a in ApplyCalls(initial, calls0))
  {
    ApplyCallsAppend(initial, calls0, UnmapCalls(visited));
    UnmapCallsEffect(ApplyCalls(initial, calls0), visited);
  }

  lemma UnmapCallsAppend(addrs: seq<nat>, a: nat)
    ensures UnmapCalls(addrs + [a]) == UnmapCalls(addrs) + [UnmapReq(a)]
  {
    var l := UnmapCalls(addrs + [a]);
    var r := UnmapCalls(addrs) + [UnmapReq(a)];
    assert |l| == |r|;
    forall k | 0 <= k < |l| ensures l[k] == r[k] {
      if k < |addrs| { assert (addrs + [a])[k] == addrs[k]; }
    }
  }

  /** Attach followed by Detach of the same range, with the offset and token Attach returned,
      leaves both file counters where they were when none of the range's granules was mapped
      before, whichever backing strategy Attach chose. */
  method AttachThenDetach(driver: VfsVmDriver, ctx: VmContext, range: VmRange, query: QueryResult,
                          arg: FileInitArg, fileId: NodeId, cache: Option<FileCache>, granule: nat)
    returns (r: AttachResult)
    requires granule > 0
    requires forall a | a in GranuleAddrs(range.base, range.length, granule, 0) :: a !in ctx.Hat()
    modifies ctx
    ensures r.success
    ensures ctx.stats == old(ctx.stats)
    ensures ctx.Hat() == old(ctx.Hat())
  {
    ghost var g := GranuleAddrs(range.base, range.length, granule, 0);
    ghost var w := VfsVmDriver.EagerWalkFor(range, arg, cache, query.hatMode, granule);
    r := driver.Attach(ctx, range, query, arg, Some(fileId), Some(Node(File, cache)), granule);
    if driver.faultHandler && !arg.noDeferBacking {
      CountMappedPrefix(old(ctx.Hat()), g, 0);
    } else {
      EagerAttachDetachResident(w, old(ctx.Hat()));
      EagerAttachDetachHat(w, old(ctx.Hat()));
    }
    var _ := driver.Detach(ctx, range.(offset := r.offset, token := r.token), granule);
  }

  /** Map requests leave every mapping already present untouched. */
  lemma {:induction false} ApplyMapsExtends(hat: map<nat, Mapping>, calls: seq<HatCall>)
    requires forall c | c in calls :: c.MapReq?
    ensures forall a | a in hat :: a in ApplyCalls(hat, calls) && ApplyCalls(hat, calls)[a] == hat[a]
    decreases |calls|
  {
    if calls != [] {
      assert forall c | c in calls[1..] :: c in calls;
      ApplyMapsExtends(ApplyCall(hat, calls[0]), calls[1..]);
    }
  }

  /** On a range none of whose granules was mapped, Detach after an eager Attach leaves the
      translation map as it was before the Attach. */
  lemma EagerAttachDetachHat(w: EagerWalk, hat: map<nat, Mapping>)
    requires w.granule > 0
    requires forall a | a in GranuleAddrs(w.base, w.length, w.granule, 0) :: a !in hat
    ensures ApplyCalls(hat, EagerRun(w, 0)) - (set a | a in GranuleAddrs(w.base, w.length, w.granule, 0)) == hat
  {
    var calls := EagerRun(w, 0);
    var g := GranuleAddrs(w.base, w.length, w.granule, 0);
    EagerRunShape(w, 0);
    ApplyMapsKeys(hat, calls);
    ApplyMapsExtends(hat, calls);
    EagerCallsInRange(w, g);
    var after := ApplyCalls(hat, calls) - (set a | a in g);
    assert after.Keys == hat.Keys;
  }

  /** Every address an eager Attach maps is a granule address of the range. */
  lemma EagerCallsInRange(w: EagerWalk, g: seq<nat>)
    requires w.granule > 0
    requires g == GranuleAddrs(w.base, w.length, w.granule, 0)
    ensures Vaddrs(EagerRun(w, 0)) <= (set a | a in g)
  {
    var calls := EagerRun(w, 0);
    EagerRunShape(w, 0);
    GranuleAddrsShape(w.base, w.length, w.granule, 0);
    forall v | v in Vaddrs(calls) ensures v in g {
      var k :| 0 <= k < |calls| && calls[k].vaddr == v;
      if k >= |g| {
        assert false;
      }
      assert g[k] == v;
    }
  }
}

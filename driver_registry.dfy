/** The driver manager's bookkeeping (kernel/drivers/DriverManager.cpp): the list of
    registered driver manifests, the list of descriptors no driver has claimed, the tree
    of device nodes keyed by id, the id allocator, and the statistics counters.

    Device nodes (driver instances, device descriptors, device APIs) are values stored in
    the node tree under their id; a handle to a node is its id, with 0 standing for the
    null handle, so updating a node in place is a re-insertion under the same key.
    Manifests are objects, because loading a driver changes the manifest that every
    holder of the handle sees.

    What the collaborators decide (whether the driver image loads and carries a manifest,
    whether the driver accepts the Init and AddDevice events, whether a device API is well
    formed, which instance is the calling thread's shadow) is passed in as parameters. */
module DriverRegistry {
  import opened Common
  import opened OrderedTree

  /** NPK_INVALID_HANDLE: the reserved id 0. */
  const InvalidHandle: nat := 0
  /** The kernel's own driver instance takes the first id handed out. */
  const KernelInstanceId: nat := 1

  /** A load name: its type tag and its bytes (whose count is the name's length). */
  datatype LoadName = LoadName(kind: nat, str: seq<bv8>)

  /** The test both scans apply: same type, same length, same bytes. */
  predicate NameMatches(test: LoadName, candidate: LoadName)
  {
    test.kind == candidate.kind && |test.str| == |candidate.str| && test.str == candidate.str
  }

  /** Some name of `candidates` matches some name of `names`. */
  predicate SharesName(candidates: seq<LoadName>, names: seq<LoadName>)
  {
    exists i, j | 0 <= i < |candidates| && 0 <= j < |names| :: NameMatches(names[j], candidates[i])
  }

  /** The position of the first list, in order, that shares a name with `names`. */
  function FirstSharing(lists: seq<seq<LoadName>>, names: seq<LoadName>): (r: Option<nat>)
    ensures r.Some? ==>
      r.value < |lists| && SharesName(lists[r.value], names) &&
      forall k | 0 <= k < r.value :: !SharesName(lists[k], names)
    ensures r.None? <==> forall k | 0 <= k < |lists| :: !SharesName(lists[k], names)
  {
    if |lists| == 0 then None
    else if SharesName(lists[0], names) then Some(0)
    else
      match FirstSharing(lists[1..], names)
      case None =>
        assert forall k | 1 <= k < |lists| :: lists[k] == lists[1..][k - 1];
        None
      case Some(i) =>
        assert forall k | 1 <= k <= i + 1 :: lists[k] == lists[1..][k - 1];
        Some(i + 1)
  }

  /** The matching loops for one candidate list: each of its names against each query name. */
  method AnyNameMatches(candidates: seq<LoadName>, names: seq<LoadName>) returns (found: bool)
    ensures found == SharesName(candidates, names)
  {
    var i := 0;
    while i < |candidates|
      invariant 0 <= i <= |candidates|
      invariant forall a, b | 0 <= a < i && 0 <= b < |names| :: !NameMatches(names[b], candidates[a])
    {
      var j := 0;
      while j < |names|
        invariant 0 <= j <= |names|
        invariant forall b | 0 <= b < j :: !NameMatches(names[b], candidates[i])
      {
        var test := names[j];
        if test.kind == candidates[i].kind && |test.str| == |candidates[i].str| && test.str == candidates[i].str {
          return true;
        }
        j := j + 1;
      }
      i := i + 1;
    }
    return false;
  }

  datatype ApiType = Io | Framebuffer | Gpu | Filesystem | SysPower | Network

  /** npk_device_api_type numbering, fixed by the static_asserts of the source. */
  function ApiTypeValue(t: ApiType): (v: nat)
    ensures v < 6
    ensures t == Io <==> v == 0
    ensures t == Framebuffer <==> v == 1
    ensures t == Gpu <==> v == 2
    ensures t == Filesystem <==> v == 3
    ensures t == SysPower <==> v == 4
  {
    match t
    case Io => 0
    case Framebuffer => 1
    case Gpu => 2
    case Filesystem => 3
    case SysPower => 4
    case Network => 5
  }

  /** A registered driver: its unique friendly name, its load names, and whether its
      runtime image has been loaded. */
  class DriverManifest {
    const friendlyName: string
    const loadNames: seq<LoadName>
    var imageLoaded: bool

    constructor (friendlyName: string, loadNames: seq<LoadName>)
      ensures this.friendlyName == friendlyName && this.loadNames == loadNames
      ensures !imageLoaded
    {
      this.friendlyName := friendlyName;
      this.loadNames := loadNames;
      imageLoaded := false;
    }
  }

  /** A device node. Handles to other nodes are ids, 0 being the null handle. */
  datatype DeviceNode =
    | DriverInstance(id: nat, manifest: DriverManifest?, consumedDevice: nat)
    | Descriptor(id: nat, loadNames: seq<LoadName>, sourceDriver: nat, attachedDriver: nat)
    | Api(id: nat, apiType: ApiType, driver: nat)

  /** The kernel's instance: no manifest and no consumed device. */
  function KernelInstance(): DeviceNode
  {
    DriverInstance(KernelInstanceId, null, InvalidHandle)
  }

  /** What the collaborators of a driver load and attach decide. */
  datatype DriverResponses = DriverResponses(
    imageLoads: bool,      // LoadElf returns an image
    hasManifest: bool,     // the image carries a driver manifest
    acceptsInit: bool,     // the driver's ProcessEvent accepts Init
    acceptsDevice: bool)   // the driver's ProcessEvent accepts AddDevice

  /** DriverStats. The counters are unbounded integers here. */
  datatype DriverStats = DriverStats(
    manifestCount: int,
    loadedCount: int,
    totalDescriptors: int,
    unclaimedDescriptors: int,
    apiCount: int)

  function ManifestNames(ms: seq<DriverManifest>): (r: seq<seq<LoadName>>)
    ensures |r| == |ms| && forall i | 0 <= i < |ms| :: r[i] == ms[i].loadNames
  {
    seq(|ms|, i requires 0 <= i < |ms| => ms[i].loadNames)
  }

  /** The load names of the descriptors with the ids `devs`. */
  function DeviceNames(devs: seq<nat>, nodes: map<nat, DeviceNode>): (r: seq<seq<LoadName>>)
    requires forall i | 0 <= i < |devs| :: devs[i] in nodes && nodes[devs[i]].Descriptor?
    ensures |r| == |devs| && forall i | 0 <= i < |devs| :: r[i] == nodes[devs[i]].loadNames
  {
    seq(|devs|, i requires 0 <= i < |devs| => nodes[devs[i]].loadNames)
  }

  /** The first pending descriptor sharing a name stays first when the list only grows at
      its end and the pending descriptors keep their load names. */
  lemma PendingStaysFirst(devs: seq<nat>, nodes: map<nat, DeviceNode>, devs': seq<nat>, nodes': map<nat, DeviceNode>,
                          names: seq<LoadName>)
    requires forall i | 0 <= i < |devs| :: devs[i] in nodes && nodes[devs[i]].Descriptor?
    requires forall i | 0 <= i < |devs'| :: devs'[i] in nodes' && nodes'[devs'[i]].Descriptor?
    requires |devs| <= |devs'| && devs'[..|devs|] == devs
    requires forall i | 0 <= i < |devs| :: nodes'[devs[i]].loadNames == nodes[devs[i]].loadNames
    requires FirstSharing(DeviceNames(devs, nodes), names).Some?
    ensures FirstSharing(DeviceNames(devs', nodes'), names) == FirstSharing(DeviceNames(devs, nodes), names)
  {
    var before := DeviceNames(devs, nodes);
    var after := DeviceNames(devs', nodes');
    var k := FirstSharing(before, names).value;
    assert forall i | 0 <= i < |devs| :: after[i] == before[i] by {
      forall i | 0 <= i < |devs| ensures after[i] == before[i] {
        assert devs'[i] == devs'[..|devs|][i];
      }
    }
    assert SharesName(after[k], names);
    var r := FirstSharing(after, names);
    assert r.Some? && r.value <= k;
  }

  /** No two manifests share a friendly name, and no two share a load name. */
  predicate UniqueManifests(ms: seq<DriverManifest>)
  {
    forall i, j | 0 <= i < j < |ms| ::
      ms[i].friendlyName != ms[j].friendlyName && !SharesName(ms[i].loadNames, ms[j].loadNames)
  }

  /** The admission test of AddManifest: no registered manifest has the new one's name,
      and none has one of its load names. */
  predicate Admissible(ms: seq<DriverManifest>, m: DriverManifest)
  {
    (forall k | 0 <= k < |ms| :: ms[k].friendlyName != m.friendlyName) &&
    FirstSharing(ManifestNames(ms), m.loadNames).None?
  }

  /** Admitting a manifest keeps names and load names unique. */
  lemma AdmitKeepsUnique(ms: seq<DriverManifest>, m: DriverManifest)
    requires UniqueManifests(ms) && Admissible(ms, m)
    ensures UniqueManifests(ms + [m])
  {
    var ms' := ms + [m];
    forall i, j | 0 <= i < j < |ms'|
      ensures ms'[i].friendlyName != ms'[j].friendlyName && !SharesName(ms'[i].loadNames, ms'[j].loadNames)
    {
      if j == |ms| {
        assert !SharesName(ManifestNames(ms)[i], m.loadNames);
      }
    }
  }

  /** The node map's invariant: the kernel instance sits at its id, every node is stored
      under its own id, which is neither the null handle nor yet to be allocated, and every
      unclaimed id names a descriptor. */
  predicate NodesValid(nodes: map<nat, DeviceNode>, idAlloc: nat, unclaimed: seq<nat>)
  {
    KernelInstanceId in nodes && nodes[KernelInstanceId] == KernelInstance() &&
    (forall id | id in nodes :: InvalidHandle < id < idAlloc && nodes[id].id == id) &&
    (forall i | 0 <= i < |unclaimed| :: unclaimed[i] in nodes && nodes[unclaimed[i]].Descriptor?)
  }

  /** Storing a node under the next id (and moving the allocator past it) keeps the invariant. */
  lemma InsertFreshKeepsValid(nodes: map<nat, DeviceNode>, idAlloc: nat, unclaimed: seq<nat>, n: DeviceNode)
    requires NodesValid(nodes, idAlloc, unclaimed) && n.id == idAlloc
    ensures idAlloc !in nodes
    ensures NodesValid(nodes[idAlloc := n], idAlloc + 1, unclaimed)
  {
  }

  /** Changing the attached driver of a descriptor keeps the invariant. */
  lemma RetagKeepsValid(nodes: map<nat, DeviceNode>, idAlloc: nat, unclaimed: seq<nat>, device: nat, driver: nat)
    requires NodesValid(nodes, idAlloc, unclaimed) && device in nodes && nodes[device].Descriptor?
    ensures NodesValid(nodes[device := nodes[device].(attachedDriver := driver)], idAlloc, unclaimed)
  {
  }

  class DriverManager {
    var manifests: seq<DriverManifest>
    /** Ids of the descriptors waiting for a driver. */
    var unclaimedDevs: seq<nat>
    var nodeTree: Tree<DeviceNode>
    var idAlloc: nat
    var stats: DriverStats

    /** The nodes of the tree, by id. */
    function Nodes(): map<nat, DeviceNode>
      reads this
    {
      Contents(nodeTree)
    }

    predicate Valid()
      reads this
    {
      Ordered(nodeTree) && NodesValid(Nodes(), idAlloc, unclaimedDevs) && UniqueManifests(manifests)
    }

    /** The node with id `id`, if the tree holds one. */
    function NodeAt(id: nat): (r: Option<DeviceNode>)
      reads this
      ensures r.Some? <==> id in Nodes()
      ensures r.Some? ==> r.value == Nodes()[id]
    {
      if id in Nodes() then Some(Nodes()[id]) else None
    }

    /** Init: id 0 stays reserved, the kernel instance takes id 1, the counters are zero. */
    constructor Init()
      ensures Valid()
      ensures manifests == [] && unclaimedDevs == []
      ensures Nodes() == map[KernelInstanceId := KernelInstance()]
      ensures idAlloc == KernelInstanceId + 1
      ensures stats == DriverStats(0, 0, 0, 0, 0)
    {
      manifests := [];
      unclaimedDevs := [];
      stats := DriverStats(0, 0, 0, 0, 0);
      var id := 1;
      idAlloc := id + 1;
      nodeTree := Insert(Leaf, id, DriverInstance(id, null, InvalidHandle));
    }

    /** The null handle never names a node. */
    lemma InvalidHandleUnused()
      requires Valid()
      ensures NodeAt(InvalidHandle).None?
    {
    }

    /** LocateDriver: the first manifest, in list order, having a load name that matches
        one of `names`; null when there is none. */
    method LocateDriver(names: seq<LoadName>) returns (found: DriverManifest?)
      ensures FirstSharing(ManifestNames(manifests), names).None? ==> found == null
      ensures FirstSharing(ManifestNames(manifests), names).Some? ==>
        found == manifests[FirstSharing(ManifestNames(manifests), names).value]
    {
      var i := 0;
      while i < |manifests|
        invariant 0 <= i <= |manifests|
        invariant forall k | 0 <= k < i :: !SharesName(manifests[k].loadNames, names)
      {
        var hit := AnyNameMatches(manifests[i].loadNames, names);
        if hit {
          return manifests[i];
        }
        i := i + 1;
      }
      return null;
    }

    /** LocateDevice: the first unclaimed descriptor, in list order, having a load name
        that matches one of `names`, or the null handle. The list is left as it is. */
    method LocateDevice(names: seq<LoadName>) returns (device: nat)
      requires Valid()
      ensures FirstSharing(DeviceNames(unclaimedDevs, Nodes()), names).None? ==> device == InvalidHandle
      ensures FirstSharing(DeviceNames(unclaimedDevs, Nodes()), names).Some? ==>
        device == unclaimedDevs[FirstSharing(DeviceNames(unclaimedDevs, Nodes()), names).value]
    {
      var i := 0;
      while i < |unclaimedDevs|
        invariant 0 <= i <= |unclaimedDevs|
        invariant forall k | 0 <= k < i :: !SharesName(Nodes()[unclaimedDevs[k]].loadNames, names)
      {
        var dev := unclaimedDevs[i];
        var node := Find(nodeTree, dev);
        var hit := AnyNameMatches(node.value.loadNames, names);
        if hit {
          return dev;
        }
        i := i + 1;
      }
      return InvalidHandle;
    }

    /** EnsureRunning: a loaded driver is running; otherwise its image is loaded, the
        loaded count goes up, and the driver is sent Init, a refusal taking the count back
        down. A loaded image stays loaded even when the load then fails. */
    method EnsureRunning(manifest: DriverManifest?, resp: DriverResponses) returns (ok: bool)
      modifies this`stats, manifest
      ensures ok <==> (manifest != null &&
        (old(manifest.imageLoaded) || (resp.imageLoads && resp.hasManifest && resp.acceptsInit)))
      ensures manifest != null ==> manifest.imageLoaded == (old(manifest.imageLoaded) || resp.imageLoads)
      ensures stats == old(stats).(loadedCount := old(stats.loadedCount) +
        (if manifest != null && !old(manifest.imageLoaded) && ok then 1 else 0))
    {
      if manifest == null {
        return false;
      }
      if manifest.imageLoaded {
        return true;
      }
      manifest.imageLoaded := resp.imageLoads;
      if !resp.imageLoads || !resp.hasManifest {
        return false;
      }
      stats := stats.(loadedCount := stats.loadedCount + 1);
      if !resp.acceptsInit {
        stats := stats.(loadedCount := stats.loadedCount - 1);
        return false;
      }
      return true;
    }

    /** AttachDevice: once the driver runs, a new instance with the next id is inserted
        and recorded as the descriptor's attached driver, and the driver is sent AddDevice.
        Acceptance takes one off the unclaimed count; refusal removes the instance and
        clears the descriptor's attached driver (the id stays spent). */
    method AttachDevice(driver: DriverManifest?, device: nat, resp: DriverResponses) returns (ok: bool)
      requires Valid()
      requires device != InvalidHandle ==> device in Nodes() && Nodes()[device].Descriptor?
      modifies this, driver
      ensures Valid()
      ensures manifests == old(manifests) && unclaimedDevs == old(unclaimedDevs)
      ensures driver != null ==> driver.imageLoaded == (old(driver.imageLoaded) || (device != InvalidHandle && resp.imageLoads))
      ensures ok <==> (driver != null && device != InvalidHandle &&
        (old(driver.imageLoaded) || (resp.imageLoads && resp.hasManifest && resp.acceptsInit)) && resp.acceptsDevice)
      ensures var running := driver != null && device != InvalidHandle &&
                (old(driver.imageLoaded) || (resp.imageLoads && resp.hasManifest && resp.acceptsInit));
        var justLoaded := driver != null && device != InvalidHandle && !old(driver.imageLoaded) && running;
        && idAlloc == old(idAlloc) + (if running then 1 else 0)
        && (!running ==> Nodes() == old(Nodes()))
        && (running && ok ==> Nodes() == old(Nodes())[old(idAlloc) := DriverInstance(old(idAlloc), driver, device)]
                                                     [device := old(Nodes())[device].(attachedDriver := old(idAlloc))])
        && (running && !ok ==> Nodes() == old(Nodes())[device := old(Nodes())[device].(attachedDriver := InvalidHandle)])
        && stats == old(stats).(loadedCount := old(stats.loadedCount) + (if justLoaded then 1 else 0),
                                unclaimedDescriptors := old(stats.unclaimedDescriptors) - (if ok then 1 else 0))
    {
      if driver == null || device == InvalidHandle {
        return false;
      }
      var running := EnsureRunning(driver, resp);
      if !running {
        return false;
      }
      ok := BindInstance(driver, device, resp.acceptsDevice);
    }

    /** The part of AttachDevice after the driver runs: the instance with the next id is
        inserted and attached to the descriptor, and `accepted` (the driver's answer to
        AddDevice) decides between keeping it and undoing the attachment. */
    method BindInstance(driver: DriverManifest, device: nat, accepted: bool) returns (ok: bool)
      requires Valid()
      requires device in Nodes() && Nodes()[device].Descriptor?
      modifies this`nodeTree, this`idAlloc, this`stats
      ensures Valid()
      ensures ok == accepted && idAlloc == old(idAlloc) + 1
      ensures ok ==> Nodes() == old(Nodes())[device := old(Nodes())[device].(attachedDriver := old(idAlloc))]
                                           [old(idAlloc) := DriverInstance(old(idAlloc), driver, device)]
      ensures !ok ==> Nodes() == old(Nodes())[device := old(Nodes())[device].(attachedDriver := InvalidHandle)]
      ensures stats == old(stats).(unclaimedDescriptors := old(stats.unclaimedDescriptors) - (if ok then 1 else 0))
    {
      var id := idAlloc;
      LinkInstance(driver, device);
      if !accepted {
        UnlinkInstance(id, device);
        return false;
      }
      stats := stats.(unclaimedDescriptors := stats.unclaimedDescriptors - 1);
      return true;
    }

    /** Inserts an instance of `driver` with the next id and makes it the descriptor's
        attached driver. */
    method LinkInstance(driver: DriverManifest, device: nat)
      requires Valid()
      requires device in Nodes() && Nodes()[device].Descriptor?
      modifies this`nodeTree, this`idAlloc
      ensures Valid() && idAlloc == old(idAlloc) + 1 && old(idAlloc) !in old(Nodes())
      ensures Nodes() == old(Nodes())[device := old(Nodes())[device].(attachedDriver := old(idAlloc))]
                                     [old(idAlloc) := DriverInstance(old(idAlloc), driver, device)]
    {
      var id := idAlloc;
      var desc := Find(nodeTree, device);
      RetagKeepsValid(Nodes(), id, unclaimedDevs, device, id);
      nodeTree := Insert(nodeTree, device, desc.value.(attachedDriver := id));
      InsertFreshKeepsValid(Nodes(), id, unclaimedDevs, DriverInstance(id, driver, device));
      nodeTree := Insert(nodeTree, id, DriverInstance(id, driver, device));
      idAlloc := idAlloc + 1;
    }

    /** Removes the instance `id` again and clears the descriptor's attached driver. */
    method UnlinkInstance(id: nat, device: nat)
      requires Valid()
      requires device in Nodes() && Nodes()[device].Descriptor? && id != KernelInstanceId && id != device
      requires forall i | 0 <= i < |unclaimedDevs| :: unclaimedDevs[i] != id
      modifies this`nodeTree
      ensures Valid()
      ensures Nodes() == (old(Nodes()) - {id})[device := old(Nodes())[device].(attachedDriver := InvalidHandle)]
    {
      var desc := Find(nodeTree, device);
      nodeTree := Remove(nodeTree, id);
      RetagKeepsValid(Nodes(), idAlloc, unclaimedDevs, device, InvalidHandle);
      nodeTree := Insert(nodeTree, device, desc.value.(attachedDriver := InvalidHandle));
    }

    /** AddDescriptor: a null descriptor yields the null handle and changes nothing.
        Otherwise the descriptor takes the next id, records the calling thread's shadow
        instance (the kernel's when there is none) as its source, counts as a new and an
        unclaimed descriptor, and goes into the node tree; then the first driver with a
        matching load name is attached, and if there is none or it fails the descriptor
        joins the unclaimed list. */
    method AddDescriptor(descriptor: Option<seq<LoadName>>, shadow: Option<nat>, resp: DriverResponses)
      returns (id: nat)
      requires Valid()
      modifies this, manifests
      ensures Valid()
      ensures manifests == old(manifests)
      ensures descriptor.None? ==> (id == InvalidHandle && Nodes() == old(Nodes()) &&
        idAlloc == old(idAlloc) && stats == old(stats) && unclaimedDevs == old(unclaimedDevs))
      ensures descriptor.None? ==>
        forall j | 0 <= j < |manifests| :: manifests[j].imageLoaded == old(manifests[j].imageLoaded)
      ensures descriptor.Some? ==>
        var k := FirstSharing(ManifestNames(old(manifests)), descriptor.value);
        var running := k.Some? &&
          (old(manifests[k.value].imageLoaded) || (resp.imageLoads && resp.hasManifest && resp.acceptsInit));
        var attached := running && resp.acceptsDevice;
        var source := if shadow.Some? then shadow.value else KernelInstanceId;
        && id == old(idAlloc) && id != InvalidHandle
        && idAlloc == old(idAlloc) + 1 + (if running then 1 else 0)
        && Nodes() == (if attached && k.Some?
                       then old(Nodes())[id := Descriptor(id, descriptor.value, source, id + 1)]
                                        [id + 1 := DriverInstance(id + 1, manifests[k.value], id)]
                       else old(Nodes())[id := Descriptor(id, descriptor.value, source, InvalidHandle)])
        && unclaimedDevs == old(unclaimedDevs) + (if attached then [] else [id])
        && stats == old(stats).(totalDescriptors := old(stats.totalDescriptors) + 1,
                                loadedCount := old(stats.loadedCount) +
                                  (if running && !old(manifests[k.value].imageLoaded) then 1 else 0),
                                unclaimedDescriptors := old(stats.unclaimedDescriptors) + (if attached then 0 else 1))
        && (forall j | 0 <= j < |manifests| && (k.None? || j != k.value) ::
              manifests[j].imageLoaded == old(manifests[j].imageLoaded))
        && (k.Some? ==> manifests[k.value].imageLoaded == (old(manifests[k.value].imageLoaded) || resp.imageLoads))
    {
      if descriptor.None? {
        return InvalidHandle;
      }
      var source := if shadow.Some? then shadow.value else KernelInstanceId;
      id := InsertDescriptor(descriptor.value, source);
      var _ := ClaimDescriptor(id, resp);
    }

    /** AddDescriptor after the descriptor is stored: the first driver with a matching
        load name is attached to it, and when there is none or the attach fails the
        descriptor joins the unclaimed list. */
    method ClaimDescriptor(id: nat, resp: DriverResponses) returns (attached: bool)
      requires Valid()
      requires id != InvalidHandle && id in Nodes() && Nodes()[id].Descriptor?
      requires Nodes()[id].attachedDriver == InvalidHandle
      modifies this, manifests
      ensures Valid()
      ensures manifests == old(manifests)
      ensures id in Nodes() && Nodes()[id].Descriptor?
      ensures Nodes()[id].loadNames == old(Nodes()[id].loadNames)
      ensures Nodes()[id].sourceDriver == old(Nodes()[id].sourceDriver)
      ensures stats.totalDescriptors == old(stats.totalDescriptors)
      ensures attached ==> (unclaimedDevs == old(unclaimedDevs) &&
        stats.unclaimedDescriptors == old(stats.unclaimedDescriptors) - 1 &&
        Nodes()[id].attachedDriver != InvalidHandle)
      ensures !attached ==> (unclaimedDevs == old(unclaimedDevs) + [id] &&
        stats.unclaimedDescriptors == old(stats.unclaimedDescriptors) &&
        Nodes()[id].attachedDriver == InvalidHandle)
      ensures FirstSharing(ManifestNames(old(manifests)), old(Nodes()[id].loadNames)).None? ==> !attached
      ensures var k := FirstSharing(ManifestNames(old(manifests)), old(Nodes()[id].loadNames));
        k.Some? ==>
          && (attached <==> (old(manifests[k.value].imageLoaded) ||
                             (resp.imageLoads && resp.hasManifest && resp.acceptsInit)) && resp.acceptsDevice)
          && (attached ==>
                && Nodes()[id].attachedDriver == old(idAlloc) && old(idAlloc) in Nodes()
                && Nodes()[old(idAlloc)] == DriverInstance(old(idAlloc), manifests[k.value], id))
      ensures var k := FirstSharing(ManifestNames(old(manifests)), old(Nodes()[id].loadNames));
        var running := k.Some? &&
          (old(manifests[k.value].imageLoaded) || (resp.imageLoads && resp.hasManifest && resp.acceptsInit));
        && idAlloc == old(idAlloc) + (if running then 1 else 0)
        && Nodes() == (if attached && k.Some?
                       then old(Nodes())[id := old(Nodes())[id].(attachedDriver := old(idAlloc))]
                                        [old(idAlloc) := DriverInstance(old(idAlloc), manifests[k.value], id)]
                       else old(Nodes()))
        && stats == old(stats).(loadedCount := old(stats.loadedCount) +
                                  (if running && !old(manifests[k.value].imageLoaded) then 1 else 0),
                                unclaimedDescriptors := old(stats.unclaimedDescriptors) - (if attached then 1 else 0))
        && (forall j | 0 <= j < |manifests| && (k.None? || j != k.value) ::
              manifests[j].imageLoaded == old(manifests[j].imageLoaded))
        && (k.Some? ==> manifests[k.value].imageLoaded == (old(manifests[k.value].imageLoaded) || resp.imageLoads))
    {
      var found := LocateDriver(Nodes()[id].loadNames);
      if found != null {
        attached := AttachDevice(found, id, resp);
        if attached {
          return true;
        }
      }
      unclaimedDevs := unclaimedDevs + [id];
      return false;
    }

    /** Stores a new descriptor with the next id, not attached to any driver, and counts it
        as a new and an unclaimed descriptor. */
    method InsertDescriptor(names: seq<LoadName>, source: nat) returns (id: nat)
      requires Valid()
      modifies this`nodeTree, this`idAlloc, this`stats
      ensures Valid()
      ensures id == old(idAlloc) && idAlloc == old(idAlloc) + 1 && id !in old(Nodes())
      ensures Nodes() == old(Nodes())[id := Descriptor(id, names, source, InvalidHandle)]
      ensures stats == old(stats).(totalDescriptors := old(stats.totalDescriptors) + 1,
                                   unclaimedDescriptors := old(stats.unclaimedDescriptors) + 1)
    {
      id := idAlloc;
      InsertFreshKeepsValid(Nodes(), id, unclaimedDevs, Descriptor(id, names, source, InvalidHandle));
      nodeTree := Insert(nodeTree, id, Descriptor(id, names, source, InvalidHandle));
      idAlloc := idAlloc + 1;
      stats := stats.(totalDescriptors := stats.totalDescriptors + 1,
                      unclaimedDescriptors := stats.unclaimedDescriptors + 1);
    }

    /** AddApi: a null or malformed API is refused. Otherwise it takes the next id (also
        written back into the API), is owned by `owner` or else the kernel instance, goes
        into the node tree and is counted. */
    method AddApi(api: Option<ApiType>, wellFormed: bool, owner: Option<nat>) returns (ok: bool, apiId: nat)
      requires Valid()
      modifies this
      ensures Valid()
      ensures manifests == old(manifests) && unclaimedDevs == old(unclaimedDevs)
      ensures ok <==> api.Some? && wellFormed
      ensures !ok ==> Nodes() == old(Nodes()) && idAlloc == old(idAlloc) && stats == old(stats)
      ensures ok ==>
        && apiId == old(idAlloc) && idAlloc == old(idAlloc) + 1
        && Nodes() == old(Nodes())[apiId := Api(apiId, api.value, if owner.Some? then owner.value else KernelInstanceId)]
        && stats == old(stats).(apiCount := old(stats.apiCount) + 1)
    {
      if api.None? || !wellFormed {
        return false, InvalidHandle;
      }
      var driver := if owner.Some? then owner.value else KernelInstanceId;
      apiId := idAlloc;
      idAlloc := idAlloc + 1;
      nodeTree := Insert(nodeTree, apiId, Api(apiId, api.value, driver));
      stats := stats.(apiCount := stats.apiCount + 1);
      return true, apiId;
    }

    /** AddManifest's registration: refused, with nothing changed, when a registered
        manifest has the same friendly name or when a load name of the new one is taken;
        otherwise appended and counted, then loaded if `loadNow`. The scan for a conflicting
        load name runs once per registered manifest, as in the source. */
    method AddManifest(manifest: DriverManifest, loadNow: bool, resp: DriverResponses) returns (ok: bool)
      requires Valid()
      modifies this, manifest
      ensures Valid()
      ensures ok <==> Admissible(old(manifests), manifest)
      ensures !ok ==> (manifests == old(manifests) && stats == old(stats) &&
        manifest.imageLoaded == old(manifest.imageLoaded))
      ensures ok ==> (manifests == old(manifests) + [manifest] &&
        stats == old(stats).(manifestCount := old(stats.manifestCount) + 1,
                             loadedCount := old(stats.loadedCount) +
                               (if loadNow && !old(manifest.imageLoaded) &&
                                   resp.imageLoads && resp.hasManifest && resp.acceptsInit then 1 else 0)) &&
        manifest.imageLoaded == (old(manifest.imageLoaded) || (loadNow && resp.imageLoads)))
      ensures Nodes() == old(Nodes()) && unclaimedDevs == old(unclaimedDevs) && idAlloc == old(idAlloc)
    {
      var i := 0;
      while i < |manifests|
        invariant 0 <= i <= |manifests|
        invariant forall k | 0 <= k < i :: manifests[k].friendlyName != manifest.friendlyName
        invariant i > 0 ==> FirstSharing(ManifestNames(manifests), manifest.loadNames).None?
        invariant unchanged(this, manifest)
      {
        if manifests[i].friendlyName == manifest.friendlyName {
          return false;
        }
        var conflicting := LocateDriver(manifest.loadNames);
        if conflicting != null {
          return false;
        }
        i := i + 1;
      }
      assert |manifests| == 0 ==> ManifestNames(manifests) == [];
      AdmitKeepsUnique(manifests, manifest);
      stats := stats.(manifestCount := stats.manifestCount + 1);
      manifests := manifests + [manifest];
      if loadNow {
        var _ := EnsureRunning(manifest, resp);
      }
      return true;
    }

    /** One pass of AddManifest's device loop: the first unclaimed descriptor matching
        the manifest is attached (LocateDevice leaves it in the unclaimed list), and when
        the attach fails it is appended to the unclaimed list again. Returns whether a
        descriptor was found. Either way the same descriptor is found again afterwards. */
    method AttachPendingDevice(manifest: DriverManifest, resp: DriverResponses) returns (found: bool)
      requires Valid()
      modifies this, manifest
      ensures Valid()
      ensures manifests == old(manifests)
      ensures found <==> FirstSharing(DeviceNames(old(unclaimedDevs), old(Nodes())), manifest.loadNames).Some?
      ensures !found ==> (Nodes() == old(Nodes()) && unclaimedDevs == old(unclaimedDevs) &&
        stats == old(stats) && idAlloc == old(idAlloc) && manifest.imageLoaded == old(manifest.imageLoaded))
      ensures found ==>
        var device := old(unclaimedDevs)[FirstSharing(DeviceNames(old(unclaimedDevs), old(Nodes())), manifest.loadNames).value];
        var running := old(manifest.imageLoaded) || (resp.imageLoads && resp.hasManifest && resp.acceptsInit);
        var attached := running && resp.acceptsDevice;
        && idAlloc == old(idAlloc) + (if running then 1 else 0)
        && Nodes() == (if attached
                       then old(Nodes())[old(idAlloc) := DriverInstance(old(idAlloc), manifest, device)]
                                        [device := old(Nodes())[device].(attachedDriver := old(idAlloc))]
                       else if running
                       then old(Nodes())[device := old(Nodes())[device].(attachedDriver := InvalidHandle)]
                       else old(Nodes()))
        && unclaimedDevs == old(unclaimedDevs) + (if attached then [] else [device])
        && stats == old(stats).(loadedCount := old(stats.loadedCount) +
                                  (if running && !old(manifest.imageLoaded) then 1 else 0),
                                unclaimedDescriptors := old(stats.unclaimedDescriptors) - (if attached then 1 else 0))
        && manifest.imageLoaded == (old(manifest.imageLoaded) || resp.imageLoads)
      ensures found ==>
        FirstSharing(DeviceNames(unclaimedDevs, Nodes()), manifest.loadNames) ==
        FirstSharing(DeviceNames(old(unclaimedDevs), old(Nodes())), manifest.loadNames)
    {
      var device := LocateDevice(manifest.loadNames);
      if device == InvalidHandle {
        return false;
      }
      ghost var before := Nodes();
      ghost var pending := unclaimedDevs;
      var attached := AttachDevice(manifest, device, resp);
      if !attached {
        unclaimedDevs := unclaimedDevs + [device];
      }
      PendingStaysFirst(pending, before, unclaimedDevs, Nodes(), manifest.loadNames);
      return true;
    }

    /** GetById: the null handle and ids not in the tree give nothing; otherwise the node,
        found by ordered descent. */
    method GetById(id: nat) returns (node: Option<DeviceNode>)
      requires Valid()
      ensures node == NodeAt(id)
      ensures node.Some? ==> node.value.id == id
    {
      if id == InvalidHandle {
        return None;
      }
      node := Find(nodeTree, id);
    }

    /** GetInstance: the node with that id, when it is a driver instance. */
    method GetInstance(id: nat) returns (instance: Option<DeviceNode>)
      requires Valid()
      ensures instance.Some? <==> id in Nodes() && Nodes()[id].DriverInstance?
      ensures instance.Some? ==> instance.value == Nodes()[id]
    {
      var found := GetById(id);
      if found.None? || !found.value.DriverInstance? {
        return None;
      }
      return found;
    }

    /** GetDescriptor: the node with that id, when it is a device descriptor. */
    method GetDescriptor(id: nat) returns (desc: Option<DeviceNode>)
      requires Valid()
      ensures desc.Some? <==> id in Nodes() && Nodes()[id].Descriptor?
      ensures desc.Some? ==> desc.value == Nodes()[id]
    {
      var found := GetById(id);
      if found.None? || !found.value.Descriptor? {
        return None;
      }
      return found;
    }

    /** GetApi: the node with that id, when it is a device API. */
    method GetApi(id: nat) returns (api: Option<DeviceNode>)
      requires Valid()
      ensures api.Some? <==> id in Nodes() && Nodes()[id].Api?
      ensures api.Some? ==> api.value == Nodes()[id]
    {
      var found := GetById(id);
      if found.None? || !found.value.Api? {
        return None;
      }
      return found;
    }
  }

  /** Every registered manifest is found by each of its own load names, and by no other
      manifest's: LocateDriver on a registered manifest's names finds that manifest. */
  lemma {:induction false} LocateFindsOwner(ms: seq<DriverManifest>, i: nat)
    requires UniqueManifests(ms) && i < |ms| && |ms[i].loadNames| > 0
    ensures FirstSharing(ManifestNames(ms), ms[i].loadNames) == Some(i)
  {
    var names := ManifestNames(ms);
    assert NameMatches(ms[i].loadNames[0], names[i][0]);
    assert SharesName(names[i], ms[i].loadNames);
    forall k | 0 <= k < i
      ensures !SharesName(names[k], ms[i].loadNames)
    {
      assert !SharesName(ms[k].loadNames, ms[i].loadNames);
    }
  }
}

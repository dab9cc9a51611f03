/** The virtual filesystem's registry of mounted filesystems and its boot-time setup
    (kernel/filesystem/Filesystem.cpp).

    The kernel keeps a vector of filesystem drivers; the first is the root filesystem.
    At boot InitVfs registers a TempFs as the root and looks for a boot module named
    "northport-initdisk", which is a tar archive in the ustar interchange format of
    IEEE Std 1003.1 (pax utility, "ustar Interchange Format"): 512-byte header blocks,
    each followed by the entry's data rounded up to whole blocks, ended by two all-zero
    blocks. Every regular-file entry is loaded into a fresh TempFs that is then mounted
    under the root.

    The filesystem drivers themselves (Root, Create, Mount, Resolve) are collaborators:
    their answers are parameters, and the model records which call is made. A tar
    header is modelled by what the scan reads from it; the header decoding of Tar.h is
    not part of this model. */
module VirtualFilesystem {
  import opened Common

  const BlockSize: nat := 512

  datatype TarEntryType = File | Directory | OtherEntry

  /** A 512-byte archive block as the scan sees it: all zero, or a header with its entry
      type and data size. */
  datatype TarBlock = ZeroBlock | Header(entryType: TarEntryType, size: nat)

  /** The block `k` blocks into the archive. Memory past the archive is read as zero
      blocks. */
  function BlockAt(archive: seq<TarBlock>, k: nat): TarBlock
  {
    if k < |archive| then archive[k] else ZeroBlock
  }

  /** The block after the entry at `k`: its header block, then its data in whole blocks. */
  function NextEntry(archive: seq<TarBlock>, k: nat): (n: nat)
    ensures n > k
    ensures n * BlockSize == k * BlockSize + BlockSize +
      (match BlockAt(archive, k) case ZeroBlock => 0 case Header(_, s) => AlignUp(s, BlockSize))
  {
    match BlockAt(archive, k)
    case ZeroBlock => k + 1
    case Header(_, size) =>
      AlignUpBounds(size, BlockSize);
      MulMod(AlignUp(size, BlockSize) / BlockSize, BlockSize);
      k + 1 + AlignUp(size, BlockSize) / BlockSize
  }

  predicate IsFileEntry(archive: seq<TarBlock>, k: nat)
  {
    BlockAt(archive, k).Header? && BlockAt(archive, k).entryType == File
  }

  predicate EndOfArchive(archive: seq<TarBlock>, k: nat)
  {
    BlockAt(archive, k).ZeroBlock? && BlockAt(archive, k + 1).ZeroBlock?
  }

  /** The blocks of the regular-file entries LoadInitdisk loads from block `k` on, in
      order: the scan runs while it is inside the `length` bytes of the buffer, stops at
      two zero blocks, and steps over every other entry. */
  function InitdiskScan(archive: seq<TarBlock>, length: nat, k: nat): seq<nat>
    decreases if k * BlockSize < length then length - k * BlockSize else 0
  {
    if k * BlockSize >= length || EndOfArchive(archive, k) then []
    else if IsFileEntry(archive, k) then [k] + InitdiskScan(archive, length, NextEntry(archive, k))
    else InitdiskScan(archive, length, NextEntry(archive, k))
  }

  /** Every entry the scan loads is a regular-file header inside the buffer, not past the
      end of the archive, and the entries come in strictly increasing position, so none
      is loaded twice. */
  lemma {:induction false} InitdiskScanLoadsFiles(archive: seq<TarBlock>, length: nat, k: nat)
    ensures forall j | 0 <= j < |InitdiskScan(archive, length, k)| ::
      var e := InitdiskScan(archive, length, k)[j];
      k <= e && e * BlockSize < length && IsFileEntry(archive, e) && !EndOfArchive(archive, e)
    ensures forall i, j | 0 <= i < j < |InitdiskScan(archive, length, k)| ::
      InitdiskScan(archive, length, k)[i] < InitdiskScan(archive, length, k)[j]
    decreases if k * BlockSize < length then length - k * BlockSize else 0
  {
    if k * BlockSize < length && !EndOfArchive(archive, k) {
      var next := NextEntry(archive, k);
      var rest := InitdiskScan(archive, length, next);
      InitdiskScanLoadsFiles(archive, length, next);
      assert forall j | 0 <= j < |rest| :: next <= rest[j];
      assert next > k;
      if IsFileEntry(archive, k) {
        var s := [k] + rest;
        assert InitdiskScan(archive, length, k) == s;
        forall j | 1 <= j < |s|
          ensures s[j] == rest[j - 1] && k < s[j]
        {
        }
        forall i, j | 0 <= i < j < |s|
          ensures s[i] < s[j]
        {
          if i > 0 {
            assert s[i] == rest[i - 1] && s[j] == rest[j - 1];
          }
        }
      } else {
        assert InitdiskScan(archive, length, k) == rest;
      }
    }
  }

  /** Entry `e` is reached by the scan's walk from `k`: stepping from entry to entry, every
      entry before `e` lies inside the `length` bytes of the buffer and is not the end of
      the archive. */
  predicate Reaches(archive: seq<TarBlock>, length: nat, k: nat, e: nat)
    decreases if k < e then e - k else 0
  {
    k == e ||
    (k < e && k * BlockSize < length && !EndOfArchive(archive, k) &&
     Reaches(archive, length, NextEntry(archive, k), e))
  }

  /** The scan loads exactly the regular-file entries its walk reaches inside the buffer
      before the end of the archive: it misses none on its way, and loads nothing past the
      end marker or the buffer. */
  lemma {:induction false} InitdiskScanComplete(archive: seq<TarBlock>, length: nat, k: nat, e: nat)
    ensures e in InitdiskScan(archive, length, k) <==>
      Reaches(archive, length, k, e) && e * BlockSize < length && !EndOfArchive(archive, e) &&
      IsFileEntry(archive, e)
    decreases if k * BlockSize < length then length - k * BlockSize else 0
  {
    if k * BlockSize < length && !EndOfArchive(archive, k) {
      var next := NextEntry(archive, k);
      InitdiskScanComplete(archive, length, next, e);
      if Reaches(archive, length, next, e) {
        ReachesForward(archive, length, next, e);
      }
      assert InitdiskScan(archive, length, k) ==
        (if IsFileEntry(archive, k) then [k] else []) + InitdiskScan(archive, length, next);
    }
  }

  /** The walk only moves forward. */
  lemma {:induction false} ReachesForward(archive: seq<TarBlock>, length: nat, k: nat, e: nat)
    requires Reaches(archive, length, k, e)
    ensures k <= e
  {
  }

  /** An archive that begins with the two zero blocks loads nothing, whatever follows. */
  lemma EmptyArchiveLoadsNothing(archive: seq<TarBlock>, length: nat)
    requires |archive| >= 2 && archive[0] == ZeroBlock && archive[1] == ZeroBlock
    ensures InitdiskScan(archive, length, 0) == []
  {
  }

  /** Cutting the buffer at an entry the walk reaches keeps the loads before the cut: the
      scan of the whole buffer is the scan of the part before entry `m`, followed by the
      scan from `m` on. */
  lemma {:induction false} InitdiskScanSplit(archive: seq<TarBlock>, length: nat, k: nat, m: nat)
    requires Reaches(archive, length, k, m)
    ensures InitdiskScan(archive, length, k) ==
      InitdiskScan(archive, m * BlockSize, k) + InitdiskScan(archive, length, m)
    decreases if k < m then m - k else 0
  {
    if k != m {
      var next := NextEntry(archive, k);
      InitdiskScanSplit(archive, length, next, m);
      var head := if IsFileEntry(archive, k) then [k] else [];
      assert InitdiskScan(archive, length, k) == head + InitdiskScan(archive, length, next);
      assert InitdiskScan(archive, m * BlockSize, k) == head + InitdiskScan(archive, m * BlockSize, next);
    }
  }


  /** A filesystem driver, known by its identity and kind. */
  datatype FsKind = TempFs | OtherFs
  datatype FsDriver = FsDriver(id: nat, kind: FsKind)

  /** What VfsLookup does: nothing without a root filesystem, the root's root node for
      the root path, or the root filesystem's own resolution of the relative path. */
  datatype LookupAction = NoRoot | RootNode(fs: FsDriver) | Resolve(fs: FsDriver, path: seq<char>)

  /** A boot module: its command line (the characters up to its terminating NUL, if any
      lies inside it), load address (0 for none), size, and contents as archive blocks. */
  datatype BootModule = BootModule(cmdline: seq<char>, address: nat, size: nat, archive: seq<TarBlock>)

  /** The initdisk's name, terminator included, as the string literal lies in memory. */
  const InitdiskLiteral: seq<char> := "northport-initdisk\0"
  const InitdiskName: seq<char> := "northport-initdisk"

  /** `sl::memfirst(cmdline, 0, 0)`: the offset of the first NUL. */
  function NameLength(cmdline: seq<char>): (n: nat)
    ensures n <= |cmdline|
    ensures forall j | 0 <= j < n :: cmdline[j] != '\0'
    ensures n < |cmdline| ==> cmdline[n] == '\0'
  {
    if cmdline == [] || cmdline[0] == '\0' then 0 else 1 + NameLength(cmdline[1..])
  }

  /** The module-name test as written: `memcmp(cmdline, "northport-initdisk", nameLen)`
      compares only the first nameLen bytes, nameLen being the command line's own length.
      Past the literal's terminator the bytes cannot be equal, since the command line has
      no NUL before nameLen. */
  predicate MatchesAsWritten(cmdline: seq<char>)
  {
    var n := NameLength(cmdline);
    n <= |InitdiskLiteral| && cmdline[..n] == InitdiskLiteral[..n]
  }

  /** The intended test: the command line's name is exactly "northport-initdisk". */
  predicate IsInitdiskName(cmdline: seq<char>)
  {
    cmdline[..NameLength(cmdline)] == InitdiskName
  }

  /** As written, the test accepts any command line whose name is a prefix of the
      initdisk's, so the empty command line and "north" are taken for the initdisk. */
  lemma MatchesAsWrittenAcceptsPrefixes()
    ensures MatchesAsWritten("") && !IsInitdiskName("")
    ensures MatchesAsWritten("north") && !IsInitdiskName("north")
  {
    assert NameLength("") == 0;
    assert NameLength("north") == 5 by {
      assert "north"[1..] == "orth" && "orth"[1..] == "rth" && "rth"[1..] == "th" && "th"[1..] == "h";
      assert "h"[1..] == "";
    }
  }

  /** As written, a name matches exactly when it is a prefix of the initdisk's name. */
  lemma MatchesAsWrittenIsPrefix(cmdline: seq<char>)
    ensures MatchesAsWritten(cmdline) <==>
      (NameLength(cmdline) <= |InitdiskName| && cmdline[..NameLength(cmdline)] == InitdiskName[..NameLength(cmdline)])
  {
    var n := NameLength(cmdline);
    if n == |InitdiskLiteral| {
      assert cmdline[..n][n - 1] == cmdline[n - 1] != '\0';
    }
  }

  /** The intended test accepts only the initdisk's own name, which the test as written
      also accepts. */
  lemma InitdiskNameMatches(cmdline: seq<char>)
    ensures IsInitdiskName(cmdline) ==> MatchesAsWritten(cmdline)
    ensures IsInitdiskName(cmdline) <==> NameLength(cmdline) == |InitdiskName| && MatchesAsWritten(cmdline)
  {
    MatchesAsWrittenIsPrefix(cmdline);
  }

  /** The module TryFindInitdisk takes: the first whose name passes the test as written. */
  function FirstInitdisk(modules: seq<BootModule>): (r: Option<nat>)
    ensures r.Some? ==>
      (r.value < |modules| && MatchesAsWritten(modules[r.value].cmdline) &&
       forall j | 0 <= j < r.value :: !MatchesAsWritten(modules[j].cmdline))
    ensures r.None? ==> forall j | 0 <= j < |modules| :: !MatchesAsWritten(modules[j].cmdline)
  {
    if modules == [] then None
    else if MatchesAsWritten(modules[0].cmdline) then Some(0)
    else match FirstInitdisk(modules[1..])
      case None => None
      case Some(j) => Some(j + 1)
  }

  /** A module carrying the initdisk's own name is always found, at its position or
      before it. */
  lemma NamedInitdiskFound(modules: seq<BootModule>, k: nat)
    requires k < |modules| && IsInitdiskName(modules[k].cmdline)
    ensures FirstInitdisk(modules).Some? && FirstInitdisk(modules).value <= k
  {
    InitdiskNameMatches(modules[k].cmdline);
  }

  /** As written, a module with an empty command line placed before the initdisk is taken
      in its stead. */
  lemma EmptyNameShadowsInitdisk()
    ensures FirstInitdisk([BootModule("", 0, 0, []), BootModule(InitdiskName, 0, 0, [])]) == Some(0)
  {
    MatchesAsWrittenAcceptsPrefixes();
  }

  /** What TryFindInitdisk ended with. */
  datatype InitdiskOutcome =
    | NoModuleResponse                      // the bootloader answered no module request
    | NoInitdisk                             // no module has the initdisk's name
    | MountpointFailed                       // creating /initdisk failed: the kernel panics
    | Mounted(fs: FsDriver, loaded: seq<nat>)
    | MountFailed(loaded: seq<nat>)          // the initdisk filesystem is unregistered again

  /** The answers of the collaborators TryFindInitdisk calls. */
  datatype InitdiskResponses = InitdiskResponses(mountpointCreated: bool, mounted: bool)

  /** The global filesystem registry. */
  class Vfs {
    var filesystems: seq<FsDriver>

    constructor ()
      ensures filesystems == []
    {
      filesystems := [];
    }

    /** RootFs: the first registered filesystem, or none. */
    function RootFs(): (r: Option<FsDriver>)
      reads this
      ensures r.None? <==> filesystems == []
      ensures r.Some? ==> r.value == filesystems[0]
    {
      if |filesystems| > 0 then Some(filesystems[0]) else None
    }

    /** VfsLookup: strips one leading '/', gives the root node for what is then empty and
        otherwise hands the path to the root filesystem. The first character is read
        whenever there is a root filesystem, so the path must not be empty then. */
    function VfsLookup(path: seq<char>): (r: LookupAction)
      reads this
      requires RootFs().Some? ==> |path| > 0
      ensures r.NoRoot? <==> filesystems == []
      ensures r.RootNode? <==> filesystems != [] && path == "/"
      ensures r.RootNode? ==> r.fs == filesystems[0]
      ensures r.Resolve? ==>
        && r.fs == filesystems[0] && r.path != []
        && r.path == (if path[0] == '/' then path[1..] else path)
    {
      match RootFs()
      case None => NoRoot
      case Some(root) =>
        var rel := if path[0] == '/' then path[1..] else path;
        if rel == [] then RootNode(root) else Resolve(root, rel)
    }

    /** Only one leading '/' is stripped: a path and the path with a leading '/' name the
        same node, while "//" is resolved by the root filesystem as "/". */
    lemma LookupStripsOneSlash(path: seq<char>)
      requires filesystems != [] && |path| > 0 && path[0] != '/'
      ensures VfsLookup("/" + path) == VfsLookup(path)
      ensures VfsLookup("//") == Resolve(filesystems[0], "/")
    {
      assert ("/" + path)[1..] == path;
    }

    /** LoadInitdisk: with a mountpoint and a base address, walks the archive's entries
        while inside the buffer and before two zero blocks, and loads every regular-file
        entry into the mountpoint's root. Returns the blocks loaded and their count. */
    static method LoadInitdisk(hasMountpoint: bool, base: nat, archive: seq<TarBlock>, length: nat)
      returns (loaded: seq<nat>, filesLoaded: nat)
      ensures !hasMountpoint || base == 0 ==> loaded == [] && filesLoaded == 0
      ensures hasMountpoint && base != 0 ==> loaded == InitdiskScan(archive, length, 0)
      ensures filesLoaded == |loaded|
    {
      loaded := [];
      filesLoaded := 0;
      if !hasMountpoint || base == 0 {
        return;
      }
      var scan := 0;
      while scan * BlockSize < length
        invariant InitdiskScan(archive, length, 0) == loaded + InitdiskScan(archive, length, scan)
        invariant filesLoaded == |loaded|
        decreases length - scan * BlockSize
      {
        if BlockAt(archive, scan).ZeroBlock? && BlockAt(archive, scan + 1).ZeroBlock? {
          break;
        }
        var next := NextEntry(archive, scan);
        if !(BlockAt(archive, scan).Header? && BlockAt(archive, scan).entryType == File) {
          scan := next;
          continue;
        }
        assert InitdiskScan(archive, length, scan) == [scan] + InitdiskScan(archive, length, next);
        loaded := loaded + [scan];
        filesLoaded := filesLoaded + 1;
        scan := next;
      }
    }

    /** TryFindInitdisk: takes the first module whose name passes the test as written
        (MatchesAsWritten, so a prefix of "northport-initdisk" is enough), creates the
        /initdisk mountpoint in the root filesystem (panicking when that fails), loads the
        module into a fresh TempFs, registers it and mounts it; a failed mount unregisters
        it again. Modules after the first initdisk are not looked at. */
    method TryFindInitdisk(modules: Option<seq<BootModule>>, newFs: FsDriver, resp: InitdiskResponses)
      returns (outcome: InitdiskOutcome)
      requires newFs.kind == TempFs
      requires modules.Some? && FirstInitdisk(modules.value).Some? ==> filesystems != []
      modifies this
      ensures modules.None? ==> outcome == NoModuleResponse
      ensures modules.Some? && FirstInitdisk(modules.value).None? ==> outcome == NoInitdisk
      ensures modules.Some? && FirstInitdisk(modules.value).Some? ==>
        var m := modules.value[FirstInitdisk(modules.value).value];
        var loaded := if m.address == 0 then [] else InitdiskScan(m.archive, m.size, 0);
        outcome == (if !resp.mountpointCreated then MountpointFailed
                    else if resp.mounted then Mounted(newFs, loaded)
                    else MountFailed(loaded))
      ensures filesystems == (if outcome.Mounted? then old(filesystems) + [newFs] else old(filesystems))
    {
      if modules.None? {
        return NoModuleResponse;
      }
      var mods := modules.value;
      var i := 0;
      while i < |mods|
        invariant 0 <= i <= |mods|
        invariant forall j | 0 <= j < i :: !MatchesAsWritten(mods[j].cmdline)
      {
        var m := mods[i];
        if !MatchesAsWritten(m.cmdline) {
          i := i + 1;
          continue;
        }
        if !resp.mountpointCreated {
          return MountpointFailed;
        }
        var loaded, _ := LoadInitdisk(true, m.address, m.archive, m.size);
        filesystems := filesystems + [newFs];
        if !resp.mounted {
          filesystems := filesystems[..|filesystems| - 1];
          return MountFailed(loaded);
        }
        return Mounted(newFs, loaded);
      }
      return NoInitdisk;
    }

    /** InitVfs: with no root filesystem configured, registers a TempFs, which becomes the
        root when nothing was registered before, then looks for the initdisk. */
    method InitVfs(rootTemp: FsDriver, modules: Option<seq<BootModule>>, initdiskFs: FsDriver,
                   resp: InitdiskResponses)
      returns (outcome: InitdiskOutcome)
      requires rootTemp.kind == TempFs && initdiskFs.kind == TempFs
      modifies this
      ensures old(filesystems) == [] ==> RootFs() == Some(rootTemp)
      ensures filesystems == old(filesystems) + [rootTemp] + (if outcome.Mounted? then [initdiskFs] else [])
      ensures outcome.Mounted? ==> outcome.fs == initdiskFs
    {
      filesystems := filesystems + [rootTemp];
      outcome := TryFindInitdisk(modules, initdiskFs, resp);
    }
  }
}

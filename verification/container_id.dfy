/** Container-ID resolution for trace payloads and the time-stamped cache in
    front of it (pkg/trace/api/container_linux.go). Times are nanoseconds
    since Go's zero `time.Time`; the cgroup reader and the procfs lookup are
    parameters. */
module ContainerId {
  import opened Wrappers
  import opened GoStrings

  const Second: int := 1_000_000_000
  const CacheExpiration: int := 60 * Second

  const LegacyContainerIdPrefix: string := "cid-"
  const ContainerIdPrefix: string := "ci-"
  const InodePrefix: string := "in-"
  const ExternalDataInitPrefix: string := "it-"
  const ExternalDataContainerNamePrefix: string := "cn-"
  const ExternalDataPodUidPrefix: string := "pu-"

  /** `time.Time.Sub`: the difference, saturated to the int64 range. */
  function Sub(t: int, u: int): int {
    Saturate64(t - u)
  }

  // ---------------------------------------------------------------------
  // Cache
  // ---------------------------------------------------------------------

  /** A `cacheEntry`: the stored value or error and when it was stored. */
  datatype Entry = Entry(value: Result<string, string>, timestamp: int)

  datatype Cache = Cache(entries: map<string, Entry>, gcInterval: int, gcTimestamp: int)

  /** `NewCache`: empty, last collected at the zero time. */
  function NewCache(gcInterval: int): (c: Cache)
    ensures c.entries == map[] && c.gcInterval == gcInterval && c.gcTimestamp == 0
  {
    Cache(map[], gcInterval, 0)
  }

  /** `Cache.Get`: `None` is "not found"; a found entry gives back its value
      or its error. */
  function Get(c: Cache, now: int, key: string, validity: int): (r: Option<Result<string, string>>)
    ensures r.None? <==>
      validity <= 0 || key !in c.entries || Sub(now, c.entries[key].timestamp) > validity
    ensures r.Some? ==> key in c.entries && r.value == c.entries[key].value
  {
    if validity <= 0 then None
    else if key !in c.entries || Sub(now, c.entries[key].timestamp) > validity then None
    else Some(c.entries[key].value)
  }

  /** Whether a `Store` at `now` first empties the cache. */
  predicate GcDue(c: Cache, now: int) {
    Sub(now, c.gcTimestamp) > c.gcInterval
  }

  /** `Cache.Store`: once `gcInterval` has elapsed since the last collection
      the whole map is dropped; then the key is stored with time `now`. */
  function Store(c: Cache, now: int, key: string, value: Result<string, string>): (c': Cache)
    ensures key in c'.entries && c'.entries[key] == Entry(value, now)
    ensures c'.gcInterval == c.gcInterval
    ensures GcDue(c, now) ==> c'.entries.Keys == {key} && c'.gcTimestamp == now
    ensures !GcDue(c, now) ==>
      && c'.gcTimestamp == c.gcTimestamp
      && c'.entries.Keys == c.entries.Keys + {key}
      && forall k :: k in c.entries && k != key ==> c'.entries[k] == c.entries[k]
  {
    var base := if GcDue(c, now) then c.(entries := map[], gcTimestamp := now) else c;
    base.(entries := base.entries[key := Entry(value, now)])
  }

  /** A value stored now is found now under any positive validity. */
  lemma StoreThenGet(c: Cache, now: int, key: string, value: Result<string, string>, validity: int)
    requires validity > 0
    ensures Get(Store(c, now, key, value), now, key, validity) == Some(value)
  {
  }

  /** Storing one key leaves the lookups of the others as they were, unless
      the store collected the cache. */
  lemma StoreKeepsOthers(c: Cache, now: int, key: string, value: Result<string, string>, other: string, later: int, validity: int)
    requires other != key && !GcDue(c, now)
    ensures Get(Store(c, now, key, value), later, other, validity) == Get(c, later, other, validity)
  {
  }

  /** Every entry was stored between the last collection and `now`. */
  predicate StampedSinceGc(c: Cache, now: int) {
    c.gcTimestamp <= now && forall k :: k in c.entries ==> c.gcTimestamp <= c.entries[k].timestamp <= now
  }

  /** While the clock does not go backwards, stores keep every entry stamped
      after the last collection. */
  lemma StorePreservesStamps(c: Cache, now: int, later: int, key: string, value: Result<string, string>)
    requires StampedSinceGc(c, now) && now <= later
    ensures StampedSinceGc(Store(c, later, key, value), later)
  {
  }

  /** `getCachedContainerID`: a cached value or error is returned as is; on a
      miss the retrieval runs and its outcome, success or error, is stored. */
  function GetCached(c: Cache, now: int, key: string, retrieve: Cache -> (Cache, Result<string, string>)): (r: (Cache, Result<string, string>))
    ensures Get(c, now, key, CacheExpiration).Some? ==> r == (c, Get(c, now, key, CacheExpiration).value)
    ensures Get(c, now, key, CacheExpiration).None? ==>
      var (c1, v) := retrieve(c);
      r.1 == v && r.0 == Store(c1, now, key, v)
  {
    var hit := Get(c, now, key, CacheExpiration);
    if hit.Some? then (c, hit.value)
    else
      var (c1, v) := retrieve(c);
      (Store(c1, now, key, v), v)
  }

  /** A second lookup of the same key at the same time does not retrieve
      again: it returns the first outcome and leaves the cache alone. */
  lemma GetCachedMemoizes(c: Cache, now: int, key: string,
                          first: Cache -> (Cache, Result<string, string>),
                          second: Cache -> (Cache, Result<string, string>))
    ensures var (c1, v1) := GetCached(c, now, key, first);
      GetCached(c1, now, key, second) == (c1, v1)
  {
    var (c1, v1) := GetCached(c, now, key, first);
    if Get(c, now, key, CacheExpiration).None? {
      StoreThenGet(first(c).0, now, key, v1, CacheExpiration);
    }
  }

  // ---------------------------------------------------------------------
  // Lookups behind the cache
  // ---------------------------------------------------------------------

  /** The cgroup reader: the inode index before and after a refresh, and the
      refresh's error if it fails. */
  datatype CgroupReader = CgroupReader(
    byInode: nat -> Option<string>,
    refreshError: Option<string>,
    byInodeAfterRefresh: nat -> Option<string>)

  /** The world one resolution sees: the clock, the cgroup reader, and
      `cgroups.IdentiferFromCgroupReferences` for a pid string. */
  datatype Env = Env(now: int, reader: CgroupReader, containerOfPid: string -> Result<string, string>)

  /** How cache keys are formed: as written, pid strings and inode strings
      share one key space; `Separate` tags each with its source. */
  datatype KeySpace = Shared | Separate

  function PidKey(keys: KeySpace, pid: string): string {
    if keys.Shared? then pid else "pid-" + pid
  }

  function InodeKey(keys: KeySpace, inode: string): string {
    if keys.Shared? then inode else InodePrefix + inode
  }

  lemma SeparateKeysDisjoint(pid: string, inode: string)
    ensures PidKey(Separate, pid) != InodeKey(Separate, inode)
  {
    assert PidKey(Separate, pid)[0] == 'p';
    assert InodeKey(Separate, inode)[0] == 'i';
  }

  /** The retrieval of `resolveContainerIDFromInode`: parse the inode, look it
      up, and on a miss refresh the reader once and look again. */
  function InodeRetrieval(reader: CgroupReader, inodeString: string): (r: Result<string, string>)
    ensures r.Success? <==>
      ParseUint64(inodeString).Success? &&
      (reader.byInode(ParseUint64(inodeString).value).Some? ||
       (reader.refreshError.None? && reader.byInodeAfterRefresh(ParseUint64(inodeString).value).Some?))
    ensures r.Success? && reader.byInode(ParseUint64(inodeString).value).Some? ==>
      r.value == reader.byInode(ParseUint64(inodeString).value).value
    ensures r.Success? && reader.byInode(ParseUint64(inodeString).value).None? ==>
      r.value == reader.byInodeAfterRefresh(ParseUint64(inodeString).value).value
  {
    var inode :- ParseUint64(inodeString);
    match reader.byInode(inode)
    case Some(id) => Success(id)
    case None =>
      if reader.refreshError.Some? then Failure("unable to refresh cgroups")
      else if reader.byInodeAfterRefresh(inode).None? then Failure("containerID not found from inode")
      else Success(reader.byInodeAfterRefresh(inode).value)
  }

  /** An error outcome is reported to the caller as the empty ID. */
  function IdOrEmpty(r: Result<string, string>): string {
    if r.Success? then r.value else ""
  }

  /** `resolveContainerIDFromInode`: the cached outcome for the inode when
      there is one; otherwise the reader's answer, which is cached, success
      or error. An error, an unparsable inode included, gives "". */
  function ResolveFromInode(keys: KeySpace, c: Cache, env: Env, inodeString: string): (r: (Cache, string))
    ensures var hit := Get(c, env.now, InodeKey(keys, inodeString), CacheExpiration);
      hit.Some? ==> r == (c, IdOrEmpty(hit.value))
    ensures var v := InodeRetrieval(env.reader, inodeString);
      Get(c, env.now, InodeKey(keys, inodeString), CacheExpiration).None? ==>
        && r.0 == Store(c, env.now, InodeKey(keys, inodeString), v)
        && r.1 == IdOrEmpty(v)
        && (ParseUint64(inodeString).Failure? ==> r.1 == "")
  {
    var (c1, r) := GetCached(c, env.now, InodeKey(keys, inodeString), c0 => (c0, InodeRetrieval(env.reader, inodeString)));
    (c1, IdOrEmpty(r))
  }

  /** `resolveContainerIDFromContext`: no peer credentials give "";
      otherwise the pid, rendered in decimal, is looked up in the cache and,
      on a miss, in procfs, whose outcome is cached. An error gives "". */
  function ResolveFromPid(keys: KeySpace, c: Cache, env: Env, pid: Option<int>): (r: (Cache, string))
    ensures pid.None? ==> r == (c, "")
    ensures pid.Some? && Get(c, env.now, PidKey(keys, Itoa(pid.value)), CacheExpiration).Some? ==>
      r == (c, IdOrEmpty(Get(c, env.now, PidKey(keys, Itoa(pid.value)), CacheExpiration).value))
    ensures var v := if pid.Some? then env.containerOfPid(Itoa(pid.value)) else Failure("");
      pid.Some? && Get(c, env.now, PidKey(keys, Itoa(pid.value)), CacheExpiration).None? ==>
        r == (Store(c, env.now, PidKey(keys, Itoa(pid.value)), v), IdOrEmpty(v))
  {
    if pid.None? then (c, "")
    else
      var p := Itoa(pid.value);
      var (c1, r) := GetCached(c, env.now, PidKey(keys, p), c0 => (c0, env.containerOfPid(p)));
      (c1, IdOrEmpty(r))
  }

  // ---------------------------------------------------------------------
  // Local Data
  // ---------------------------------------------------------------------

  /** The index of the last item with the prefix, an independent reference
      for the "later items overwrite" scans. */
  function LastWithPrefix(items: seq<string>, prefix: string): (r: Option<nat>)
    ensures r.Some? ==>
      && r.value < |items|
      && HasPrefix(items[r.value], prefix)
      && forall j :: r.value < j < |items| ==> !HasPrefix(items[j], prefix)
    ensures r.None? ==> forall j :: 0 <= j < |items| ==> !HasPrefix(items[j], prefix)
    decreases |items|
  {
    if |items| == 0 then None
    else if HasPrefix(items[|items| - 1], prefix) then Some(|items| - 1)
    else LastWithPrefix(items[..|items| - 1], prefix)
  }

  /** What follows the prefix in the last item carrying it, or "". */
  function LastValue(items: seq<string>, prefix: string): string {
    match LastWithPrefix(items, prefix)
    case None => ""
    case Some(j) => items[j][|prefix|..]
  }

  /** One item of the loop of `resolveContainerIDFromLocalDataList`: a "ci-"
      item sets the container ID, an "in-" item resolves its inode, through
      the cache, into the inode result; other items are skipped. */
  function ScanItem(keys: KeySpace, c: Cache, env: Env, item: string, containerId: string, fromInode: string): (Cache, string, string) {
    if HasPrefix(item, ContainerIdPrefix) then (c, item[|ContainerIdPrefix|..], fromInode)
    else if HasPrefix(item, InodePrefix) then
      var (c1, id) := ResolveFromInode(keys, c, env, item[|InodePrefix|..]);
      (c1, containerId, id)
    else (c, containerId, fromInode)
  }

  /** The item loop of `resolveContainerIDFromLocalDataList`, from the front:
      the container ID is the last "ci-" item's value, whatever inode items
      come between, and without inode items neither the cache nor the inode
      result changes. ScanLastInode gives the inode result otherwise. */
  function ScanLocalData(keys: KeySpace, c: Cache, env: Env, items: seq<string>, containerId: string, fromInode: string): (r: (Cache, string, string))
    ensures r.1 == if LastWithPrefix(items, ContainerIdPrefix).Some? then LastValue(items, ContainerIdPrefix) else containerId
    ensures LastWithPrefix(items, InodePrefix).None? ==> r.0 == c && r.2 == fromInode
    decreases |items|
  {
    if |items| == 0 then (c, containerId, fromInode)
    else
      LastOfCons(items, ContainerIdPrefix);
      LastOfCons(items, InodePrefix);
      var s := ScanItem(keys, c, env, items[0], containerId, fromInode);
      ScanLocalData(keys, s.0, env, items[1..], s.1, s.2)
  }

  /** The inode result of the item loop is the resolution of the last "in-"
      item, against the cache as the items before it left it. */
  lemma {:induction false} ScanLastInode(keys: KeySpace, c: Cache, env: Env, items: seq<string>, containerId: string, fromInode: string)
    ensures LastWithPrefix(items, InodePrefix).Some? ==>
      var k := LastWithPrefix(items, InodePrefix).value;
      ScanLocalData(keys, c, env, items, containerId, fromInode).2
        == ResolveFromInode(keys, ScanLocalData(keys, c, env, items[..k], containerId, fromInode).0,
                            env, LastValue(items, InodePrefix)).1
    decreases |items|
  {
    if LastWithPrefix(items, InodePrefix).Some? {
      LastOfCons(items, InodePrefix);
      var s := ScanItem(keys, c, env, items[0], containerId, fromInode);
      ScanStep(keys, c, env, items, containerId, fromInode);
      if LastWithPrefix(items[1..], InodePrefix).Some? {
        var j := LastWithPrefix(items[1..], InodePrefix).value;
        ScanLastInode(keys, s.0, env, items[1..], s.1, s.2);
        var prefix := items[..j + 1];
        assert prefix[0] == items[0];
        assert prefix[1..] == items[1..][..j];
        ScanStep(keys, c, env, prefix, containerId, fromInode);
      } else {
        assert items[..0] == [];
      }
    }
  }

  /** One step of the item loop. */
  lemma ScanStep(keys: KeySpace, c: Cache, env: Env, items: seq<string>, containerId: string, fromInode: string)
    requires |items| > 0
    ensures var s := ScanItem(keys, c, env, items[0], containerId, fromInode);
      ScanLocalData(keys, c, env, items, containerId, fromInode) == ScanLocalData(keys, s.0, env, items[1..], s.1, s.2)
  {
  }

  /** The last index with the prefix is the one after which none carries it. */
  lemma LastWithPrefixUnique(items: seq<string>, prefix: string, k: nat)
    requires k < |items| && HasPrefix(items[k], prefix)
    requires forall j :: k < j < |items| ==> !HasPrefix(items[j], prefix)
    ensures LastWithPrefix(items, prefix) == Some(k)
  {
  }

  /** `resolveContainerIDFromLocalDataList`: the whole header is the cache
      key. On a miss a non-empty "ci-" value wins over any inode, the last
      such item being the one taken; otherwise the last "in-" item's
      resolution is the answer, and a list with neither gives "". The
      retrieval never fails, so an empty result is cached too. */
  function ResolveFromLocalDataList(keys: KeySpace, c: Cache, env: Env, localData: string): (r: (Cache, string))
    ensures var hit := Get(c, env.now, localData, CacheExpiration);
      hit.Some? ==> r == (c, IdOrEmpty(hit.value))
    ensures var items := Split(localData, ',');
      Get(c, env.now, localData, CacheExpiration).None? ==>
        && Get(r.0, env.now, localData, CacheExpiration) == Some(Success(r.1))
        && (LastValue(items, ContainerIdPrefix) != "" ==> r.1 == LastValue(items, ContainerIdPrefix))
        && (LastValue(items, ContainerIdPrefix) == "" && LastWithPrefix(items, InodePrefix).None? ==> r.1 == "")
        && (LastValue(items, ContainerIdPrefix) == "" && LastWithPrefix(items, InodePrefix).Some? ==>
              var k := LastWithPrefix(items, InodePrefix).value;
              r.1 == ResolveFromInode(keys, ScanLocalData(keys, c, env, items[..k], "", "").0,
                                      env, LastValue(items, InodePrefix)).1)
  {
    var items := Split(localData, ',');
    ScanLastInode(keys, c, env, items, "", "");
    var (c1, v) := GetCached(c, env.now, localData, c0 =>
      var (c2, ci, fi) := ScanLocalData(keys, c0, env, items, "", "");
      (c2, Success(if ci != "" then ci else fi)));
    (c1, IdOrEmpty(v))
  }

  /** `resolveContainerIDFromLocalData`. */
  function ResolveFromLocalData(keys: KeySpace, c: Cache, env: Env, localData: string): (r: (Cache, string))
    ensures ',' in localData ==> r == ResolveFromLocalDataList(keys, c, env, localData)
    ensures ',' !in localData && HasPrefix(localData, LegacyContainerIdPrefix) ==>
      r == (c, localData[|LegacyContainerIdPrefix|..])
    ensures ',' !in localData && HasPrefix(localData, ContainerIdPrefix) ==>
      r == (c, localData[|ContainerIdPrefix|..])
    ensures (&& ',' !in localData && !HasPrefix(localData, LegacyContainerIdPrefix)
             && !HasPrefix(localData, ContainerIdPrefix) && !HasPrefix(localData, InodePrefix)) ==>
      r == (c, "")
    ensures (&& ',' !in localData && HasPrefix(localData, InodePrefix)
             && Get(c, env.now, InodeKey(keys, localData[|InodePrefix|..]), CacheExpiration).None?) ==>
      r.1 == IdOrEmpty(InodeRetrieval(env.reader, localData[|InodePrefix|..]))
  {
    if ',' in localData then ResolveFromLocalDataList(keys, c, env, localData)
    else if HasPrefix(localData, LegacyContainerIdPrefix) then
      assert localData[2] == 'd';
      (c, localData[|LegacyContainerIdPrefix|..])
    else if HasPrefix(localData, ContainerIdPrefix) then (c, localData[|ContainerIdPrefix|..])
    else if HasPrefix(localData, InodePrefix) then ResolveFromInode(keys, c, env, localData[|InodePrefix|..])
    else (c, "")
  }

  // ---------------------------------------------------------------------
  // External Data
  // ---------------------------------------------------------------------

  datatype ExternalData = ExternalData(init: bool, containerName: string, podUid: string)

  /** The parsing loop of `resolveContainerIDFromExternalData`, from the
      front: each field comes from the last item carrying its prefix, and
      keeps its starting value when none does; a malformed boolean sets
      `init` to false, as `ParseBool` does. */
  function ScanExternalData(items: seq<string>, acc: ExternalData): (r: ExternalData)
    ensures r.containerName == if LastWithPrefix(items, ExternalDataContainerNamePrefix).Some?
                               then LastValue(items, ExternalDataContainerNamePrefix) else acc.containerName
    ensures r.podUid == if LastWithPrefix(items, ExternalDataPodUidPrefix).Some?
                        then LastValue(items, ExternalDataPodUidPrefix) else acc.podUid
    ensures r.init == if LastWithPrefix(items, ExternalDataInitPrefix).Some?
                      then ParseBool(LastValue(items, ExternalDataInitPrefix)) == Success(true) else acc.init
    decreases |items|
  {
    if |items| == 0 then acc
    else
      LastOfCons(items, ExternalDataInitPrefix);
      LastOfCons(items, ExternalDataContainerNamePrefix);
      LastOfCons(items, ExternalDataPodUidPrefix);
      var item := items[0];
      var acc' :=
        if HasPrefix(item, ExternalDataInitPrefix) then
          acc.(init := ParseBool(item[|ExternalDataInitPrefix|..]) == Success(true))
        else if HasPrefix(item, ExternalDataContainerNamePrefix) then
          acc.(containerName := item[|ExternalDataContainerNamePrefix|..])
        else if HasPrefix(item, ExternalDataPodUidPrefix) then
          acc.(podUid := item[|ExternalDataPodUidPrefix|..])
        else acc;
      ScanExternalData(items[1..], acc')
  }

  /** The External Data header's fields: the container name and pod UID of
      the last items carrying their prefixes, "" without one, and `init`
      true exactly when the last init item reads as true. */
  function ParseExternalData(externalData: string): (r: ExternalData)
    ensures var items := Split(externalData, ',');
      && r.containerName == LastValue(items, ExternalDataContainerNamePrefix)
      && r.podUid == LastValue(items, ExternalDataPodUidPrefix)
      && r.init == (LastWithPrefix(items, ExternalDataInitPrefix).Some?
                    && ParseBool(LastValue(items, ExternalDataInitPrefix)) == Success(true))
  {
    ScanExternalData(Split(externalData, ','), ExternalData(false, "", ""))
  }

  /** `LastWithPrefix` of a non-empty list in terms of its tail. */
  lemma LastOfCons(items: seq<string>, prefix: string)
    requires |items| > 0
    ensures var rest := items[1..];
      && (LastWithPrefix(rest, prefix).Some? ==>
            LastWithPrefix(items, prefix) == Some(LastWithPrefix(rest, prefix).value + 1)
            && LastValue(items, prefix) == LastValue(rest, prefix))
      && (LastWithPrefix(rest, prefix).None? && HasPrefix(items[0], prefix) ==>
            LastWithPrefix(items, prefix) == Some(0) && LastValue(items, prefix) == items[0][|prefix|..])
      && (LastWithPrefix(rest, prefix).None? && !HasPrefix(items[0], prefix) ==>
            LastWithPrefix(items, prefix).None?)
  {
    if LastWithPrefix(items[1..], prefix).Some? {
      LastInTail(items, prefix);
    } else if HasPrefix(items[0], prefix) {
      LastAtHead(items, prefix);
    } else {
      NoneInCons(items, prefix);
    }
  }

  lemma LastInTail(items: seq<string>, prefix: string)
    requires |items| > 0 && LastWithPrefix(items[1..], prefix).Some?
    ensures LastWithPrefix(items, prefix) == Some(LastWithPrefix(items[1..], prefix).value + 1)
    ensures LastValue(items, prefix) == LastValue(items[1..], prefix)
  {
    var rest := items[1..];
    var j := LastWithPrefix(rest, prefix).value;
    assert items[j + 1] == rest[j];
    forall k | j + 1 < k < |items| ensures !HasPrefix(items[k], prefix) {
      assert items[k] == rest[k - 1];
    }
    LastWithPrefixUnique(items, prefix, j + 1);
  }

  lemma LastAtHead(items: seq<string>, prefix: string)
    requires |items| > 0 && LastWithPrefix(items[1..], prefix).None? && HasPrefix(items[0], prefix)
    ensures LastWithPrefix(items, prefix) == Some(0)
  {
    var rest := items[1..];
    forall k | 0 < k < |items| ensures !HasPrefix(items[k], prefix) {
      assert items[k] == rest[k - 1];
    }
    LastWithPrefixUnique(items, prefix, 0);
  }

  lemma NoneInCons(items: seq<string>, prefix: string)
    requires |items| > 0 && LastWithPrefix(items[1..], prefix).None? && !HasPrefix(items[0], prefix)
    ensures LastWithPrefix(items, prefix).None?
  {
    var rest := items[1..];
    forall k | 0 < k < |items| ensures !HasPrefix(items[k], prefix) {
      assert items[k] == rest[k - 1];
    }
  }


  // ---------------------------------------------------------------------
  // GetContainerID
  // ---------------------------------------------------------------------

  /** The three headers consulted; an absent header reads as "". */
  datatype Headers = Headers(localData: string, containerId: string, externalData: string)

  /** `cgroupIDProvider.GetContainerID` over a choice of key space. The
      External Data branch parses its header but yields "". */
  function Resolve(keys: KeySpace, c: Cache, env: Env, h: Headers, pid: Option<int>): (r: (Cache, string))
    ensures h.localData != "" ==> r == ResolveFromLocalData(keys, c, env, h.localData)
    ensures h.localData == "" && h.containerId != "" ==> r == (c, h.containerId)
    ensures h.localData == "" && h.containerId == "" ==> r == ResolveFromPid(keys, c, env, pid)
  {
    if h.localData != "" then ResolveFromLocalData(keys, c, env, h.localData)
    else if h.containerId != "" then (c, h.containerId)
    else
      var (c1, fromPid) := ResolveFromPid(keys, c, env, pid);
      if fromPid != "" then (c1, fromPid)
      else if h.externalData != "" then
        var _ := ParseExternalData(h.externalData);
        (c1, "")
      else (c1, "")
  }

  /** `GetContainerID` as written: Local Data first, then the Container-ID
      header, then the connection's pid, and pid and inode strings share the
      cache, so a pid's outcome is stored under the key an inode lookup of the
      same number reads. */
  function GetContainerIDAsWritten(c: Cache, env: Env, h: Headers, pid: Option<int>): (r: (Cache, string))
    ensures h.localData != "" ==> r == ResolveFromLocalData(Shared, c, env, h.localData)
    ensures h.localData == "" && h.containerId != "" ==> r == (c, h.containerId)
    ensures h.localData == "" && h.containerId == "" ==> r == ResolveFromPid(Shared, c, env, pid)
    ensures h.localData == "" && h.containerId == "" && pid.Some? ==>
      InodeKey(Shared, Itoa(pid.value)) in r.0.entries
  {
    Resolve(Shared, c, env, h, pid)
  }

  /** `GetContainerID` with the pid and inode lookups cached under distinct
      keys: the same precedence, and a pid lookup leaves every inode entry
      as it was. */
  function GetContainerID(c: Cache, env: Env, h: Headers, pid: Option<int>): (r: (Cache, string))
    ensures h.localData != "" ==> r == ResolveFromLocalData(Separate, c, env, h.localData)
    ensures h.localData == "" && h.containerId != "" ==> r == (c, h.containerId)
    ensures h.localData == "" && h.containerId == "" ==> r == ResolveFromPid(Separate, c, env, pid)
    ensures h.localData == "" && h.containerId == "" ==>
      forall inode :: InodeKey(Separate, inode) in r.0.entries ==>
        InodeKey(Separate, inode) in c.entries && r.0.entries[InodeKey(Separate, inode)] == c.entries[InodeKey(Separate, inode)]
  {
    PidLookupLeavesInodeEntries(c, env, pid);
    Resolve(Separate, c, env, h, pid)
  }

  /** Precedence: a Local Data header decides alone; the Container-ID header
      decides when Local Data is absent; the External Data header never
      changes the outcome. */
  lemma Precedence(keys: KeySpace, c: Cache, env: Env, h1: Headers, h2: Headers, pid1: Option<int>, pid2: Option<int>)
    ensures h1.localData == h2.localData != "" ==>
      Resolve(keys, c, env, h1, pid1) == Resolve(keys, c, env, h2, pid2)
    ensures h1.localData == h2.localData == "" && h1.containerId == h2.containerId != "" ==>
      Resolve(keys, c, env, h1, pid1) == Resolve(keys, c, env, h2, pid2)
    ensures h1.localData == h2.localData && h1.containerId == h2.containerId ==>
      Resolve(keys, c, env, h1, pid1) == Resolve(keys, c, env, h2.(externalData := h1.externalData), pid1)
  {
  }

  /** With separate keys a pid lookup never answers for an inode: the inode
      entry is the one that was there, or gone after a collection. */
  lemma PidLookupLeavesInodeEntry(c: Cache, env: Env, pid: Option<int>, inode: string)
    ensures var c1 := ResolveFromPid(Separate, c, env, pid).0;
      InodeKey(Separate, inode) in c1.entries ==>
        InodeKey(Separate, inode) in c.entries && c1.entries[InodeKey(Separate, inode)] == c.entries[InodeKey(Separate, inode)]
  {
    if pid.Some? {
      SeparateKeysDisjoint(Itoa(pid.value), inode);
    }
  }

  lemma PidLookupLeavesInodeEntries(c: Cache, env: Env, pid: Option<int>)
    ensures var c1 := ResolveFromPid(Separate, c, env, pid).0;
      forall inode :: InodeKey(Separate, inode) in c1.entries ==>
        InodeKey(Separate, inode) in c.entries && c1.entries[InodeKey(Separate, inode)] == c.entries[InodeKey(Separate, inode)]
  {
    forall inode {
      PidLookupLeavesInodeEntry(c, env, pid, inode);
    }
  }

  // A pid and an inode that print alike: a request from pid 42 in container
  // "A", then Local Data "in-42" where inode 42 belongs to container "B".

  const Now: int := 1_000_000 * Second

  function ReaderB(): CgroupReader {
    CgroupReader(i => if i == 42 then Some("B") else None, None, i => None)
  }

  function EnvAB(): Env {
    Env(Now, ReaderB(), p => if p == "42" then Success("A") else Failure("no such pid"))
  }

  /** As written, the inode lookup answers with the pid's container. */
  lemma SharedKeyReturnsPidContainer()
    ensures var (c1, fromPid) := GetContainerIDAsWritten(NewCache(CacheExpiration), EnvAB(), Headers("", "", ""), Some(42));
      && fromPid == "A"
      && GetContainerIDAsWritten(c1, EnvAB(), Headers("in-42", "", ""), None).1 == "A"
  {
    assert Itoa(42) == "42";
    assert "in-42"[|InodePrefix|..] == "42";
    assert HasPrefix("in-42", InodePrefix);
  }

  /** With separate keys the same requests resolve the inode's container. */
  lemma SeparateKeysReturnInodeContainer()
    ensures var (c1, fromPid) := GetContainerID(NewCache(CacheExpiration), EnvAB(), Headers("", "", ""), Some(42));
      && fromPid == "A"
      && GetContainerID(c1, EnvAB(), Headers("in-42", "", ""), None).1 == "B"
  {
    Pid42Separate();
    Inode42Separate();
  }

  /** The cache after the pid lookup of 42 with separate keys. */
  function AfterPid42(): Cache {
    Store(NewCache(CacheExpiration), Now, "pid-42", Success("A"))
  }

  lemma Pid42Separate()
    ensures GetContainerID(NewCache(CacheExpiration), EnvAB(), Headers("", "", ""), Some(42)) == (AfterPid42(), "A")
  {
    assert Itoa(42) == "42";
    assert PidKey(Separate, "42") == "pid-42";
  }

  lemma Inode42Separate()
    ensures GetContainerID(AfterPid42(), EnvAB(), Headers("in-42", "", ""), None).1 == "B"
  {
    assert "in-42"[|InodePrefix|..] == "42";
    assert HasPrefix("in-42", InodePrefix);
    assert ParseUint64("42") == Success(42) by {
      assert DigitsValue("42") == 42 by {
        assert "42"[..1] == "4";
      }
    }
    assert InodeKey(Separate, "42") == "in-42";
    assert "in-42" !in AfterPid42().entries by {
      assert "in-42"[0] != "pid-42"[0];
    }
  }
}

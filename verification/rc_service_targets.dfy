/** What `ClientGetConfigs` sends back: the director roots the client is
    missing, and the target files of its products that it does not already
    cache and that the director's predicates assign to it
    (pkg/config/remote/service/service.go). */
module RcServiceTargets {
  import opened Wrappers
  import opened RcServiceTypes
  import opened RcServiceValidation

  // ---------------------------------------------------------------------
  // getNewDirectorRoots
  // ---------------------------------------------------------------------

  /** `currentVersion + 1` on a uint64. */
  function FirstMissingRoot(currentVersion: nat): (v: nat)
    requires IsUint64(currentVersion)
    ensures IsUint64(v)
    ensures currentVersion < MaxUint64 ==> v == currentVersion + 1
  {
    (currentVersion + 1) % (MaxUint64 + 1)
  }

  /** Reference: the canonical director roots of versions `from..newVersion`
      in ascending order; the first version whose fetch or canonicalisation
      fails makes the whole result that failure. */
  function RootsFrom(store: Store, collab: Collaborators, from: nat, newVersion: nat): Result<seq<Bytes>, string>
    decreases newVersion + 1 - from
  {
    if from > newVersion then Success([])
    else
      var root :- store.directorRoot(from);
      var canonical :- collab.canonicalJSON(root);
      var rest :- RootsFrom(store, collab, from + 1, newVersion);
      Success([canonical] + rest)
  }

  lemma {:induction false} RootsFromShape(store: Store, collab: Collaborators, from: nat, newVersion: nat)
    ensures RootsFrom(store, collab, from, newVersion).Success? ==>
      && |RootsFrom(store, collab, from, newVersion).value| == (if from > newVersion then 0 else newVersion - from + 1)
      && forall k :: 0 <= k < |RootsFrom(store, collab, from, newVersion).value| ==>
           store.directorRoot(from + k).Success?
           && collab.canonicalJSON(store.directorRoot(from + k).value)
              == Success(RootsFrom(store, collab, from, newVersion).value[k])
    ensures RootsFrom(store, collab, from, newVersion).Success? <==>
      forall v :: from <= v <= newVersion ==>
        store.directorRoot(v).Success? && collab.canonicalJSON(store.directorRoot(v).value).Success?
    decreases newVersion + 1 - from
  {
    if from <= newVersion {
      RootsFromShape(store, collab, from + 1, newVersion);
      var r := RootsFrom(store, collab, from, newVersion);
      if r.Success? {
        var rest := RootsFrom(store, collab, from + 1, newVersion);
        assert r.value[1..] == rest.value;
        forall k | 1 <= k < |r.value|
          ensures r.value[k] == rest.value[k - 1]
        {
        }
      }
    }
  }

  /** `getNewDirectorRoots`: fetch and canonicalise every root after the one
      the client holds, up to the store's. The loop counter is a uint64, so
      `newVersion` must stay below its maximum for the loop to end. */
  method GetNewDirectorRoots(store: Store, collab: Collaborators, currentVersion: nat, newVersion: nat)
    returns (r: Result<seq<Bytes>, string>)
    requires IsUint64(currentVersion) && newVersion < MaxUint64
    ensures r == RootsFrom(store, collab, FirstMissingRoot(currentVersion), newVersion)
    ensures r.Success? && currentVersion < MaxUint64 ==>
      |r.value| == (if newVersion <= currentVersion then 0 else newVersion - currentVersion)
  {
    var roots: seq<Bytes> := [];
    var i := FirstMissingRoot(currentVersion);
    RootsFromShape(store, collab, i, newVersion);
    while i <= newVersion
      invariant FirstMissingRoot(currentVersion) <= i <= newVersion + 1 || (i == FirstMissingRoot(currentVersion) && i > newVersion)
      invariant RootsFrom(store, collab, FirstMissingRoot(currentVersion), newVersion).Success? ==>
        RootsFrom(store, collab, i, newVersion).Success?
        && RootsFrom(store, collab, FirstMissingRoot(currentVersion), newVersion).value
           == roots + RootsFrom(store, collab, i, newVersion).value
      invariant RootsFrom(store, collab, FirstMissingRoot(currentVersion), newVersion).Failure? ==>
        RootsFrom(store, collab, i, newVersion) == RootsFrom(store, collab, FirstMissingRoot(currentVersion), newVersion)
      decreases newVersion + 1 - i
    {
      var root := store.directorRoot(i);
      if root.Failure? {
        return Failure(root.error);
      }
      var canonical := collab.canonicalJSON(root.value);
      if canonical.Failure? {
        return Failure(canonical.error);
      }
      roots := roots + [canonical.value];
      i := i + 1;
    }
    assert RootsFrom(store, collab, i, newVersion) == Success([]);
    assert roots + [] == roots;
    RootsFromShape(store, collab, FirstMissingRoot(currentVersion), newVersion);
    return Success(roots);
  }

  // ---------------------------------------------------------------------
  // getTargetFiles
  // ---------------------------------------------------------------------

  function ProductSet(products: seq<string>): set<string> {
    set p | p in products
  }

  /** The hash loop at lines 788-794: decode each hash, later algorithms
      overwriting earlier ones. */
  function DecodeHashes(collab: Collaborators, hashes: seq<TargetFileHash>, acc: map<string, Bytes>): (r: Result<map<string, Bytes>, string>)
    ensures r.Success? ==> acc.Keys <= r.value.Keys
    ensures r.Success? ==> forall h :: 0 <= h < |hashes| ==> hashes[h].algorithm in r.value
    decreases |hashes|
  {
    if |hashes| == 0 then Success(acc)
    else
      var h :- collab.decodeHex(hashes[0].hash);
      DecodeHashes(collab, hashes[1..], acc[hashes[0].algorithm := h])
  }

  /** The cache loop at lines 786-799: the client's cached metadata by path,
      later entries for a path overwriting earlier ones. */
  function CachedMetas(collab: Collaborators, cached: seq<TargetFileMeta>, acc: map<string, FileMeta>): (r: Result<map<string, FileMeta>, string>)
    ensures r.Success? ==> r.value.Keys == acc.Keys + set i | 0 <= i < |cached| :: cached[i].path
    decreases |cached|
  {
    if |cached| == 0 then Success(acc)
    else
      var hashes :- DecodeHashes(collab, cached[0].hashes, map[]);
      var rest :- CachedMetas(collab, cached[1..], acc[cached[0].path := FileMeta(hashes, cached[0].length)]);
      assert forall i :: 1 <= i < |cached| ==> cached[1..][i - 1] == cached[i];
      Success(rest)
  }

  /** The metadata the client caches for `path`, or the zero value. */
  function CachedMetaOf(cachedMetas: map<string, FileMeta>, path: string): FileMeta {
    if path in cachedMetas then cachedMetas[path] else ZeroMeta
  }

  /** A target the client should receive: one of its products, with
      metadata that differs from what it caches. */
  predicate Wanted(collab: Collaborators, productSet: set<string>, cachedMetas: map<string, FileMeta>, t: Target) {
    && collab.parseConfigPath(t.path).Success?
    && collab.parseConfigPath(t.path).value.product in productSet
    && !collab.fileMetaEqual(CachedMetaOf(cachedMetas, t.path), t.meta)
  }

  /** Reference: the wanted targets, in target order. */
  function WantedTargets(collab: Collaborators, productSet: set<string>,
                         cachedMetas: map<string, FileMeta>, targets: seq<Target>): (w: seq<Target>)
    ensures forall t :: t in w <==> t in targets && Wanted(collab, productSet, cachedMetas, t)
  {
    if |targets| == 0 then []
    else if Wanted(collab, productSet, cachedMetas, targets[0]) then
      [targets[0]] + WantedTargets(collab, productSet, cachedMetas, targets[1..])
    else WantedTargets(collab, productSet, cachedMetas, targets[1..])
  }

  /** The target loop at lines 801-819: exactly the wanted targets, in order,
      each with the store's contents; a path that does not parse, or a
      contents fetch that fails, aborts the whole diff. */
  function DiffTargets(store: Store, collab: Collaborators, productSet: set<string>,
                       cachedMetas: map<string, FileMeta>, targets: seq<Target>): (r: Result<seq<File>, string>)
    ensures r.Success? ==>
      var w := WantedTargets(collab, productSet, cachedMetas, targets);
      && |r.value| == |w|
      && forall k :: 0 <= k < |w| ==>
           r.value[k].path == w[k].path && store.targetFile(w[k].path) == Success(r.value[k].raw)
    ensures (exists t :: 0 <= t < |targets| && collab.parseConfigPath(targets[t].path).Failure?) ==> r.Failure?
    decreases |targets|
  {
    if |targets| == 0 then Success([])
    else
      var t := targets[0];
      assert forall i :: 1 <= i < |targets| ==> targets[1..][i - 1] == targets[i];
      var parsed :- collab.parseConfigPath(t.path);
      if parsed.product in productSet && !collab.fileMetaEqual(CachedMetaOf(cachedMetas, t.path), t.meta) then
        var contents :- store.targetFile(t.path);
        var rest :- DiffTargets(store, collab, productSet, cachedMetas, targets[1..]);
        Success([File(t.path, contents)] + rest)
      else
        DiffTargets(store, collab, productSet, cachedMetas, targets[1..])
  }

  /** Sound and complete by path: a returned file is a wanted target with the
      store's contents, and every wanted target is returned. */
  lemma DiffTargetsSoundComplete(store: Store, collab: Collaborators, productSet: set<string>,
                                 cachedMetas: map<string, FileMeta>, targets: seq<Target>)
    requires DiffTargets(store, collab, productSet, cachedMetas, targets).Success?
    ensures var files := DiffTargets(store, collab, productSet, cachedMetas, targets).value;
      && (forall f :: f in files ==>
            exists t :: t in targets && t.path == f.path && Wanted(collab, productSet, cachedMetas, t)
                        && store.targetFile(t.path) == Success(f.raw))
      && (forall t :: t in targets && Wanted(collab, productSet, cachedMetas, t) ==>
            exists f :: f in files && f.path == t.path)
  {
    var files := DiffTargets(store, collab, productSet, cachedMetas, targets).value;
    var w := WantedTargets(collab, productSet, cachedMetas, targets);
    forall f | f in files
      ensures exists t :: t in targets && t.path == f.path && Wanted(collab, productSet, cachedMetas, t)
                          && store.targetFile(t.path) == Success(f.raw)
    {
      var k :| 0 <= k < |files| && files[k] == f;
      assert w[k] in w;
    }
    forall t | t in targets && Wanted(collab, productSet, cachedMetas, t)
      ensures exists f :: f in files && f.path == t.path
    {
      var k :| 0 <= k < |w| && w[k] == t;
      assert files[k] in files;
    }
  }

  /** `getTargetFiles`: the store's targets filtered to the client's products
      and to those whose metadata differs from the client's cache. */
  function GetTargetFiles(store: Store, collab: Collaborators, products: seq<string>, cached: seq<TargetFileMeta>)
    : (r: Result<seq<File>, string>)
    ensures store.targets.Failure? ==> r == Failure(store.targets.error)
    ensures r.Success? ==> store.targets.Success? && CachedMetas(collab, cached, map[]).Success?
    ensures store.targets.Success? && CachedMetas(collab, cached, map[]).Failure? ==>
      r == Failure(CachedMetas(collab, cached, map[]).error)
    ensures r.Success? ==> r == DiffTargets(store, collab, ProductSet(products), CachedMetas(collab, cached, map[]).value, store.targets.value)
    ensures r.Success? ==>
      var metas := CachedMetas(collab, cached, map[]).value;
      && (forall f :: f in r.value ==>
            exists t :: t in store.targets.value && t.path == f.path
                        && Wanted(collab, ProductSet(products), metas, t) && store.targetFile(t.path) == Success(f.raw))
      && (forall t :: t in store.targets.value && Wanted(collab, ProductSet(products), metas, t) ==>
            exists f :: f in r.value && f.path == t.path)
  {
    var targets :- store.targets;
    var cachedMetas :- CachedMetas(collab, cached, map[]);
    var r := DiffTargets(store, collab, ProductSet(products), cachedMetas, targets);
    if r.Success? then
      DiffTargetsSoundComplete(store, collab, ProductSet(products), cachedMetas, targets);
      r
    else r
  }

  /** Once the client caches the metadata of every target of its products,
      and metadata equality is reflexive, the diff is empty: asking again
      with an unchanged cache yields nothing new. */
  lemma {:induction false} DiffIdempotent(store: Store, collab: Collaborators, productSet: set<string>,
                                          cachedMetas: map<string, FileMeta>, targets: seq<Target>)
    requires forall m :: collab.fileMetaEqual(m, m)
    requires forall t :: 0 <= t < |targets| ==> collab.parseConfigPath(targets[t].path).Success?
    requires forall t :: 0 <= t < |targets| && collab.parseConfigPath(targets[t].path).value.product in productSet ==>
      targets[t].path in cachedMetas && cachedMetas[targets[t].path] == targets[t].meta
    ensures DiffTargets(store, collab, productSet, cachedMetas, targets) == Success([])
    decreases |targets|
  {
    if |targets| > 0 {
      assert forall i :: 1 <= i < |targets| ==> targets[1..][i - 1] == targets[i];
      DiffIdempotent(store, collab, productSet, cachedMetas, targets[1..]);
    }
  }

  // ---------------------------------------------------------------------
  // ClientGetConfigs
  // ---------------------------------------------------------------------

  /** The client's targets narrowed to the paths the predicates matched,
      order preserved (lines 708-716). */
  function FilterMatched(files: seq<File>, matched: seq<string>): (r: seq<File>)
    ensures forall k :: 0 <= k < |r| ==> r[k].path in matched
    ensures forall f :: f in files && f.path in matched ==> f in r
    ensures forall f :: f in r ==> f in files
    ensures |r| <= |files|
  {
    if |files| == 0 then []
    else if files[0].path in matched then [files[0]] + FilterMatched(files[1..], matched)
    else FilterMatched(files[1..], matched)
  }

  datatype GetConfigsError = InvalidArgument(reason: ValidationError) | Internal(message: string)

  function Lift<T>(r: Result<T, string>): Result<T, GetConfigsError> {
    match r
    case Success(v) => Success(v)
    case Failure(e) => Failure(Internal(e))
  }

  /** `ClientGetConfigs` once the client is registered (the new-client
      cache bypass is not part of this model). */
  function ClientGetConfigs(store: Store, collab: Collaborators, req: GetConfigsRequest): (r: Result<GetConfigsResponse, GetConfigsError>)
    requires req.client.Some? && req.client.value.state.Some? ==>
      IsUint64(req.client.value.state.value.rootVersion)
    ensures ValidateRequest(req, collab.parseConfigPath).Some? ==>
      r == Failure(InvalidArgument(ValidateRequest(req, collab.parseConfigPath).value))
    ensures ValidateRequest(req, collab.parseConfigPath).None? && store.tufVersionState.Failure? ==> r.Failure?
    // Nothing new since the client's targets version: an empty response.
    ensures ValidateRequest(req, collab.parseConfigPath).None? && store.tufVersionState.Success?
            && store.tufVersionState.value.directorTargets == req.client.value.state.value.targetsVersion ==>
      r == Success(EmptyResponse)
    // Every file sent was matched by the predicates.
    ensures r.Success? ==> forall k :: 0 <= k < |r.value.targetFiles| ==> r.value.targetFiles[k].path in r.value.clientConfigs
  {
    var invalid := ValidateRequest(req, collab.parseConfigPath);
    if invalid.Some? then Failure(InvalidArgument(invalid.value))
    else
      var client := req.client.value;
      var tufVersions :- Lift(store.tufVersionState);
      if tufVersions.directorTargets == client.state.value.targetsVersion then Success(EmptyResponse)
      else
        var roots :- Lift(RootsFrom(store, collab, FirstMissingRoot(client.state.value.rootVersion), tufVersions.directorRoot));
        var targetsRaw :- Lift(store.targetsMeta);
        var targetFiles :- Lift(GetTargetFiles(store, collab, client.products, req.cachedTargetFiles));
        var directorTargets :- Lift(store.targets);
        var matched :- Lift(collab.executeTracerPredicates(client, directorTargets));
        var filtered := FilterMatched(targetFiles, matched);
        var canonicalTargets :- Lift(collab.canonicalJSON(targetsRaw));
        Success(GetConfigsResponse(roots, canonicalTargets, filtered, matched))
  }

  /** A non-empty response carries the missing roots, and among the client's
      new target files exactly those the predicates matched. */
  lemma ClientGetConfigsContents(store: Store, collab: Collaborators, req: GetConfigsRequest)
    requires req.client.Some? && req.client.value.state.Some? ==>
      IsUint64(req.client.value.state.value.rootVersion)
    requires ClientGetConfigs(store, collab, req).Success?
    requires ClientGetConfigs(store, collab, req).value != EmptyResponse
    ensures var resp := ClientGetConfigs(store, collab, req).value;
      var client := req.client.value;
      && store.tufVersionState.Success?
      && store.targets.Success?
      && collab.executeTracerPredicates(client, store.targets.value) == Success(resp.clientConfigs)
      && resp.roots == RootsFrom(store, collab, FirstMissingRoot(client.state.value.rootVersion),
                                 store.tufVersionState.value.directorRoot).value
      && GetTargetFiles(store, collab, client.products, req.cachedTargetFiles).Success?
      && var sent := GetTargetFiles(store, collab, client.products, req.cachedTargetFiles).value;
      && (forall f :: f in resp.targetFiles <==> f in sent && f.path in resp.clientConfigs)
  {
  }
}

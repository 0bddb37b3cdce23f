/** The remote-configuration provider that filters APM instrumentation
    requests and forwards them to the subscribed configuration cache
    (pkg/clusteragent/admission/mutate/autoinstrumentation/rc_provider.go). */
module RcProvider {
  import opened Wrappers
  import opened RcRequest

  const ClusterKind: string := "cluster"

  /** The provider's state. A subscriber channel is modelled by the sequence
      of requests sent on it so far. */
  datatype Provider = Provider(
    subscribers: map<string, seq<Request>>,
    clusterName: string,
    lastProcessedRCRevision: int,
    currentlyAppliedConfigIDs: set<string>)

  const ClientNotInitialized: string := "remote config client not initialized"

  /** `newRemoteConfigProvider`: a nil remote-configuration client is an
      error; otherwise the provider starts with no subscribers, no applied
      configuration and revision 0, for the given cluster. */
  function NewProvider(hasClient: bool, clusterName: string): (r: Result<Provider, string>)
    ensures r.Failure? <==> !hasClient
    ensures r.Failure? ==> r.error == ClientNotInitialized
    ensures r.Success? ==>
      && r.value.subscribers == map[] && r.value.lastProcessedRCRevision == 0
      && r.value.currentlyAppliedConfigIDs == {} && r.value.clusterName == clusterName
  {
    if !hasClient then Failure(ClientNotInitialized)
    else Success(Provider(map[], clusterName, 0, {}))
  }

  /** `subscribe`: registers a fresh, empty channel under `kind`, replacing
      any earlier one; other subscriptions are untouched. */
  function Subscribe(p: Provider, kind: string): (p': Provider)
    ensures kind in p'.subscribers && p'.subscribers[kind] == []
    ensures forall k :: k in p.subscribers && k != kind ==>
      k in p'.subscribers && p'.subscribers[k] == p.subscribers[k]
    ensures p'.subscribers.Keys == p.subscribers.Keys + {kind}
    ensures p'.lastProcessedRCRevision == p.lastProcessedRCRevision
  {
    p.(subscribers := p.subscribers[kind := []])
  }

  predicate TargetsCluster(targets: seq<K8sClusterTarget>, clusterName: string) {
    exists t :: 0 <= t < |targets| && targets[t].clusterName == clusterName
  }

  /** First index of a target naming `clusterName`, scanning as the source does. */
  function FindCluster(targets: seq<K8sClusterTarget>, clusterName: string, from: nat): (r: bool)
    requires from <= |targets|
    ensures r <==> exists t :: from <= t < |targets| && targets[t].clusterName == clusterName
    decreases |targets| - from
  {
    if from == |targets| then false
    else if targets[from].clusterName == clusterName then true
    else FindCluster(targets, clusterName, from + 1)
  }

  /** `shouldSkipConfig`: skip a request without cluster targets, one whose
      revision is not newer than the last applied, or one that does not name
      this cluster. Revisions are compared as millisecond timestamps, which
      orders them as integers. */
  function ShouldSkipConfig(req: Request, lastAppliedRevision: int, clusterName: string): (skip: bool)
    ensures req.k8sTargetV2.None? ==> skip
    ensures req.k8sTargetV2.Some? && |req.k8sTargetV2.value.clusterTargets| == 0 ==> skip
    ensures req.revision <= lastAppliedRevision ==> skip
    ensures !skip <==>
      && req.k8sTargetV2.Some?
      && req.revision > lastAppliedRevision
      && TargetsCluster(req.k8sTargetV2.value.clusterTargets, clusterName)
  {
    if req.k8sTargetV2.None? || |req.k8sTargetV2.value.clusterTargets| == 0 then true
    else if req.revision <= lastAppliedRevision then true
    else !FindCluster(req.k8sTargetV2.value.clusterTargets, clusterName, 0)
  }

  /** One raw configuration delivered by the client: the result of decoding
      its JSON (None when it does not parse) and its metadata version. */
  datatype RawConfig = RawConfig(path: string, parsed: Option<Request>, metadataVersion: nat)

  datatype Processed = Processed(provider: Provider, acknowledged: seq<string>, invalid: nat)

  predicate StrictlyIncreasing(reqs: seq<Request>) {
    forall a, b :: 0 <= a < b < |reqs| ==> reqs[a].revision < reqs[b].revision
  }

  /** What `process` forwards, in order, starting from `last`. */
  function Forwarded(updates: seq<RawConfig>, last: int, clusterName: string): seq<Request>
  {
    if |updates| == 0 then []
    else
      var u := updates[0];
      if u.parsed.None? || ShouldSkipConfig(u.parsed.value, last, clusterName) then
        Forwarded(updates[1..], last, clusterName)
      else
        [u.parsed.value.(rcVersion := u.metadataVersion)]
          + Forwarded(updates[1..], u.parsed.value.revision, clusterName)
  }

  /** IDs of a sequence of requests. */
  function Ids(reqs: seq<Request>): set<string>
  {
    if |reqs| == 0 then {} else {reqs[0].id} + Ids(reqs[1..])
  }

  /** Revision of the last request sent, or `last` when none was. */
  function LastRevision(sent: seq<Request>, last: int): int
  {
    if |sent| == 0 then last else sent[|sent| - 1].revision
  }

  /** `process`, with the client's map iteration fixed to the order of
      `updates`. Each forwarded request is stamped with its metadata version
      and sent on the "cluster" channel, its path acknowledged, its revision
      becomes the last processed one and its ID is recorded; without a
      "cluster" subscriber nothing changes. */
  function Process(p: Provider, updates: seq<RawConfig>): (r: Processed)
    ensures ClusterKind !in p.subscribers ==>
      r.provider == p && r.acknowledged == []
    ensures r.provider.subscribers.Keys == p.subscribers.Keys
    ensures r.provider.clusterName == p.clusterName
    ensures forall k :: k in p.subscribers && k != ClusterKind ==>
      r.provider.subscribers[k] == p.subscribers[k]
    ensures ClusterKind in p.subscribers ==>
      var sent := Forwarded(updates, p.lastProcessedRCRevision, p.clusterName);
      && r.provider.subscribers[ClusterKind] == p.subscribers[ClusterKind] + sent
      && r.provider.lastProcessedRCRevision == LastRevision(sent, p.lastProcessedRCRevision)
      && r.provider.currentlyAppliedConfigIDs == p.currentlyAppliedConfigIDs + Ids(sent)
      && |r.acknowledged| == |sent|
    decreases |updates|
  {
    if |updates| == 0 then Processed(p, [], 0)
    else
      var u := updates[0];
      if u.parsed.None? then
        var rest := Process(p, updates[1..]);
        rest.(invalid := rest.invalid + 1)
      else if ShouldSkipConfig(u.parsed.value, p.lastProcessedRCRevision, p.clusterName) then
        Process(p, updates[1..])
      else if ClusterKind in p.subscribers then
        var req := u.parsed.value.(rcVersion := u.metadataVersion);
        var p1 := p.(
          subscribers := p.subscribers[ClusterKind := p.subscribers[ClusterKind] + [req]],
          lastProcessedRCRevision := req.revision,
          currentlyAppliedConfigIDs := p.currentlyAppliedConfigIDs + {req.id});
        var rest := Process(p1, updates[1..]);
        var later := Forwarded(updates[1..], req.revision, p.clusterName);
        assert ([req] + later)[1..] == later;
        assert p.subscribers[ClusterKind] + [req] + later == p.subscribers[ClusterKind] + ([req] + later);
        Processed(rest.provider, [u.path] + rest.acknowledged, rest.invalid)
      else
        Process(p, updates[1..])
  }

  /** Everything forwarded after `last` has a newer revision, revisions
      strictly increase, and every forwarded request names the cluster. */
  lemma {:induction false} ForwardedAfter(updates: seq<RawConfig>, last: int, clusterName: string)
    ensures var sent := Forwarded(updates, last, clusterName);
      && StrictlyIncreasing(sent)
      && (forall q :: 0 <= q < |sent| ==> sent[q].revision > last)
      && (forall q :: 0 <= q < |sent| ==>
            sent[q].k8sTargetV2.Some?
            && TargetsCluster(sent[q].k8sTargetV2.value.clusterTargets, clusterName))
      && LastRevision(sent, last) >= last
    decreases |updates|
  {
    if |updates| > 0 {
      var u := updates[0];
      if u.parsed.None? || ShouldSkipConfig(u.parsed.value, last, clusterName) {
        ForwardedAfter(updates[1..], last, clusterName);
      } else {
        ForwardedAfter(updates[1..], u.parsed.value.revision, clusterName);
        var later := Forwarded(updates[1..], u.parsed.value.revision, clusterName);
        var sent := Forwarded(updates, last, clusterName);
        assert sent == [u.parsed.value.(rcVersion := u.metadataVersion)] + later;
        assert forall q :: 1 <= q < |sent| ==> sent[q] == later[q - 1];
      }
    }
  }

  /** A request the provider has already applied a newer revision of is
      never forwarded again, however often it is redelivered. */
  lemma ReplayIsDropped(p: Provider, updates: seq<RawConfig>)
    requires ClusterKind in p.subscribers
    requires forall k :: 0 <= k < |updates| && updates[k].parsed.Some? ==>
      updates[k].parsed.value.revision <= p.lastProcessedRCRevision
    ensures Process(p, updates).provider == p
    ensures Process(p, updates).acknowledged == []
  {
    NothingNewer(updates, p.lastProcessedRCRevision, p.clusterName);
  }

  lemma {:induction false} NothingNewer(updates: seq<RawConfig>, last: int, clusterName: string)
    requires forall k :: 0 <= k < |updates| && updates[k].parsed.Some? ==>
      updates[k].parsed.value.revision <= last
    ensures Forwarded(updates, last, clusterName) == []
    decreases |updates|
  {
    if |updates| > 0 {
      NothingNewer(updates[1..], last, clusterName);
    }
  }
}

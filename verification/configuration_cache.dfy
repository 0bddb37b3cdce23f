/** The cluster-wide APM instrumentation configuration cache: a local
    configuration, the current one derived from it by applying remote
    enablement revisions, and the bookkeeping that lets a disabled revision be
    undone by replaying the others
    (pkg/clusteragent/admission/mutate/autoinstrumentation/configuration_cache.go). */
module ConfigurationCache {
  import opened Wrappers
  import opened GoStrings

  /** `instrumentationConfiguration`. The disabled namespaces are a set: the
      source rebuilds that list from a map, so its order is unspecified. */
  datatype Configuration = Configuration(
    enabled: bool,
    enabledNamespaces: seq<string>,
    disabledNamespaces: set<string>)

  /** A dereference of a nil pointer, which panics in the source. */
  datatype Panic = NilDereference(site: string)

  datatype Status = Acknowledged | Errored(message: string)

  datatype Response = Response(id: string, revision: int, rcVersion: nat, status: Status)

  const NotSupportedMessage: string := "Disabling APM instrumentation in the cluster remotly is not supported"
  const ClusterWideMessage: string := "Failing policy because SSI is enabled in the whole cluster"
  const NoopMessage: string := "Noop: APM Instrumentation is off"
  const LocalRule: string := "local"
  const ClusterKey: string := "cluster"

  function SetOf(xs: seq<string>): set<string> {
    set x | x in xs
  }

  /** `newInstrumentationConfiguration`: a nil argument leaves its field at
      the zero configuration (disabled, no namespaces). */
  function NewConfiguration(
    enabled: Option<bool>,
    enabledNamespaces: Option<seq<string>>,
    disabledNamespaces: Option<seq<string>>): (c: Configuration)
    ensures enabled.None? ==> !c.enabled
    ensures enabled.Some? ==> c.enabled == enabled.value
    ensures enabledNamespaces.None? ==> c.enabledNamespaces == []
    ensures enabledNamespaces.Some? ==> c.enabledNamespaces == enabledNamespaces.value
    ensures disabledNamespaces.None? ==> c.disabledNamespaces == {}
    ensures disabledNamespaces.Some? ==>
      forall ns :: ns in c.disabledNamespaces <==> ns in disabledNamespaces.value
  {
    Configuration(
      enabled.GetOr(false),
      enabledNamespaces.GetOr([]),
      if disabledNamespaces.Some? then SetOf(disabledNamespaces.value) else {})
  }

  /** The rule a namespace is mapped to: `"<id>-<version>"`. */
  function RuleName(rcID: string, rcVersion: nat): string {
    rcID + "-" + DecimalString(rcVersion)
  }

  function JoinSpaces(xs: seq<string>): string {
    if |xs| == 0 then "" else if |xs| == 1 then xs[0] else xs[0] + " " + JoinSpaces(xs[1..])
  }

  /** `fmt.Sprintf("... %v ...", alreadyEnabledNamespaces)`. */
  function AlreadyEnabledMessage(already: seq<string>): string {
    "Failing policy because SSI in namespaces [" + JoinSpaces(already) + "] is already enabled"
  }

  /** The namespace map a cache starts from: every locally enabled namespace
      belongs to the "local" rule. */
  function LocalNamespaceMap(local: Configuration): (m: map<string, string>)
    ensures local.enabled ==> m.Keys == SetOf(local.enabledNamespaces)
    ensures !local.enabled ==> m == map[]
    ensures forall ns :: ns in m ==> m[ns] == LocalRule
  {
    if local.enabled then map ns | ns in local.enabledNamespaces :: LocalRule else map[]
  }

  /** What the loop at lines 254-261 produces: the namespaces it appends,
      the extended namespace map, and the namespaces reported as already
      enabled. */
  datatype Appended = Appended(added: seq<string>, nsMap: map<string, string>, already: seq<string>)

  /** The loop at lines 254-261: a requested namespace that already belongs to
      a rule is reported, any other is appended and mapped to `rule`. */
  function AppendNamespaces(nsMap: map<string, string>, requested: seq<string>, rule: string): (r: Appended)
    ensures |r.added| + |r.already| == |requested|
    ensures forall ns :: ns in r.added <==> ns in requested && ns !in nsMap
    ensures forall ns :: ns in requested && ns in nsMap ==> ns in r.already
    ensures forall ns :: ns in r.already ==> ns in requested
    ensures forall ns :: ns in r.nsMap <==> ns in nsMap || ns in requested
    ensures forall ns :: ns in nsMap ==> r.nsMap[ns] == nsMap[ns]
    ensures forall ns :: ns in r.nsMap && ns !in nsMap ==> r.nsMap[ns] == rule
    decreases |requested|
  {
    if |requested| == 0 then Appended([], nsMap, [])
    else
      var ns := requested[0];
      assert forall x :: x in requested <==> x == ns || x in requested[1..];
      if ns in nsMap then
        var rest := AppendNamespaces(nsMap, requested[1..], rule);
        rest.(already := [ns] + rest.already)
      else
        var rest := AppendNamespaces(nsMap[ns := rule], requested[1..], rule);
        rest.(added := [ns] + rest.added)
  }

  /** The loop at lines 275-280: requested namespaces leave the disabled set
      and those that were in it are mapped to `rule`. */
  function ReenableNamespaces(
    disabled: set<string>, nsMap: map<string, string>, requested: seq<string>, rule: string): (r: (set<string>, map<string, string>))
    ensures r.0 == disabled - SetOf(requested)
    ensures r.1.Keys == nsMap.Keys + (disabled * SetOf(requested))
    ensures forall ns :: ns in disabled && ns in requested ==> r.1[ns] == rule
    ensures forall ns :: ns in nsMap && !(ns in disabled && ns in requested) ==> r.1[ns] == nsMap[ns]
    decreases |requested|
  {
    if |requested| == 0 then (disabled, nsMap)
    else
      var ns := requested[0];
      assert requested == [ns] + requested[1..];
      if ns in disabled then ReenableNamespaces(disabled - {ns}, nsMap[ns := rule], requested[1..], rule)
      else ReenableNamespaces(disabled, nsMap, requested[1..], rule)
  }

  /** Lines 292-295: every requested namespace is appended and mapped. */
  function EnableNamespaces(
    enabledNamespaces: seq<string>, nsMap: map<string, string>, requested: seq<string>, rule: string): (r: (seq<string>, map<string, string>))
    ensures r.0 == enabledNamespaces + requested
    ensures r.1.Keys == nsMap.Keys + SetOf(requested)
    ensures forall ns :: ns in requested ==> r.1[ns] == rule
    ensures forall ns :: ns in nsMap && ns !in requested ==> r.1[ns] == nsMap[ns]
    decreases |requested|
  {
    if |requested| == 0 then (enabledNamespaces, nsMap)
    else
      assert requested == [requested[0]] + requested[1..];
      assert enabledNamespaces + requested == (enabledNamespaces + [requested[0]]) + requested[1..];
      EnableNamespaces(enabledNamespaces + [requested[0]], nsMap[requested[0] := rule], requested[1..], rule)
  }

  datatype Updated = Updated(conf: Configuration, nsMap: map<string, string>, response: Response)

  /** `updateConfiguration` applied to the configuration `conf` and the
      namespace map `nsMap`. The branch at line 267 repeats the condition of
      line 250 and can never be taken, so it has no counterpart here. */
  function UpdateConfiguration(
    conf: Configuration, nsMap: map<string, string>,
    enabled: bool, namespaces: Option<seq<string>>, rcID: string, rcVersion: nat): Result<Updated, Panic>
  {
    var ack := Response(rcID, 0, rcVersion, Acknowledged);
    var rule := RuleName(rcID, rcVersion);
    if conf.enabled && !enabled then
      Success(Updated(conf, nsMap, ack.(status := Errored(NotSupportedMessage))))
    else if conf.enabled then
      if |conf.enabledNamespaces| == 0 && |conf.disabledNamespaces| == 0
         && namespaces.Some? && |namespaces.value| > 0 then
        Success(Updated(conf, nsMap, ack.(status := Errored(ClusterWideMessage))))
      else if |conf.enabledNamespaces| > 0 then
        if namespaces.None? then Failure(NilDereference("enabledNamespaces"))
        else
          var a := AppendNamespaces(nsMap, namespaces.value, rule);
          var conf' := conf.(enabledNamespaces := conf.enabledNamespaces + a.added);
          if |a.already| > 0 then
            Success(Updated(conf', a.nsMap, ack.(status := Errored(AlreadyEnabledMessage(a.already)))))
          else
            Success(Updated(conf', a.nsMap, ack))
      else if |conf.disabledNamespaces| > 0 then
        if namespaces.None? then Failure(NilDereference("enabledNamespaces"))
        else
          var (disabled', nsMap') := ReenableNamespaces(conf.disabledNamespaces, nsMap, namespaces.value, rule);
          Success(Updated(conf.(disabledNamespaces := disabled'), nsMap', ack))
      else
        Success(Updated(conf, nsMap, ack))
    else if enabled then
      if namespaces.Some? && |namespaces.value| > 0 then
        var (list', nsMap') := EnableNamespaces(conf.enabledNamespaces, nsMap, namespaces.value, rule);
        Success(Updated(conf.(enabled := true, enabledNamespaces := list'), nsMap', ack))
      else
        Success(Updated(conf.(enabled := true), nsMap[ClusterKey := rule], ack))
    else
      Success(Updated(conf, nsMap, ack.(status := Errored(NoopMessage))))
  }

  /** What `updateConfiguration` does in each state for each request. Kept
      apart from the function so that proofs replaying revisions only see
      these facts on demand. */
  lemma UpdateConfigurationSpec(
    conf: Configuration, nsMap: map<string, string>,
    enabled: bool, namespaces: Option<seq<string>>, rcID: string, rcVersion: nat)
    // The response always names the request and is acknowledged unless an error is reported.
    ensures var r := UpdateConfiguration(conf, nsMap, enabled, namespaces, rcID, rcVersion);
      r.Success? ==> r.value.response.id == rcID && r.value.response.rcVersion == rcVersion
    // Remote configuration can only widen what is enabled.
    ensures var r := UpdateConfiguration(conf, nsMap, enabled, namespaces, rcID, rcVersion);
      r.Success? ==> (conf.enabled ==> r.value.conf.enabled)
    ensures var r := UpdateConfiguration(conf, nsMap, enabled, namespaces, rcID, rcVersion);
      r.Success? ==> nsMap.Keys <= r.value.nsMap.Keys
    // Disabling remotely is refused and changes nothing.
    ensures var r := UpdateConfiguration(conf, nsMap, enabled, namespaces, rcID, rcVersion);
      conf.enabled && !enabled ==>
        r == Success(Updated(conf, nsMap, Response(rcID, 0, rcVersion, Errored(NotSupportedMessage))))
    // Namespaces cannot be named while the whole cluster is enabled.
    ensures var r := UpdateConfiguration(conf, nsMap, enabled, namespaces, rcID, rcVersion);
      conf.enabled && enabled && |conf.enabledNamespaces| == 0 && |conf.disabledNamespaces| == 0
              && namespaces.Some? && |namespaces.value| > 0 ==>
        r == Success(Updated(conf, nsMap, Response(rcID, 0, rcVersion, Errored(ClusterWideMessage))))
    ensures var r := UpdateConfiguration(conf, nsMap, enabled, namespaces, rcID, rcVersion);
      conf.enabled && enabled && |conf.enabledNamespaces| == 0 && |conf.disabledNamespaces| == 0
              && (namespaces.None? || |namespaces.value| == 0) ==>
        r == Success(Updated(conf, nsMap, Response(rcID, 0, rcVersion, Acknowledged)))
    // Enabled for a list of namespaces: unmapped requested ones are appended and mapped.
    ensures var r := UpdateConfiguration(conf, nsMap, enabled, namespaces, rcID, rcVersion);
      conf.enabled && enabled && |conf.enabledNamespaces| > 0 ==>
        (namespaces.None? <==> r.Failure?)
    ensures var r := UpdateConfiguration(conf, nsMap, enabled, namespaces, rcID, rcVersion);
      conf.enabled && enabled && |conf.enabledNamespaces| > 0 && r.Success? ==>
        && r.value.conf.enabled
        && r.value.conf.disabledNamespaces == conf.disabledNamespaces
        && |r.value.conf.enabledNamespaces| >= |conf.enabledNamespaces|
        && r.value.conf.enabledNamespaces[..|conf.enabledNamespaces|] == conf.enabledNamespaces
        && (forall ns :: ns in r.value.conf.enabledNamespaces[|conf.enabledNamespaces|..] <==>
              ns in namespaces.value && ns !in nsMap)
        && (forall ns :: ns in namespaces.value && ns !in nsMap ==>
              ns in r.value.nsMap && r.value.nsMap[ns] == RuleName(rcID, rcVersion))
        && ((exists ns :: ns in namespaces.value && ns in nsMap) ==> r.value.response.status.Errored?)
    // Enabled except in some namespaces: requested ones leave the disabled set.
    ensures var r := UpdateConfiguration(conf, nsMap, enabled, namespaces, rcID, rcVersion);
      conf.enabled && enabled && |conf.enabledNamespaces| == 0 && |conf.disabledNamespaces| > 0 ==>
        (namespaces.None? <==> r.Failure?)
    ensures var r := UpdateConfiguration(conf, nsMap, enabled, namespaces, rcID, rcVersion);
      conf.enabled && enabled && |conf.enabledNamespaces| == 0 && |conf.disabledNamespaces| > 0
              && r.Success? ==>
        && r.value.conf == conf.(disabledNamespaces := conf.disabledNamespaces - SetOf(namespaces.value))
        && (forall ns :: ns in conf.disabledNamespaces && ns in namespaces.value ==>
              ns in r.value.nsMap && r.value.nsMap[ns] == RuleName(rcID, rcVersion))
        && r.value.response.status == Acknowledged
    // From disabled, an enable request enables, for the named namespaces or the whole cluster.
    ensures var r := UpdateConfiguration(conf, nsMap, enabled, namespaces, rcID, rcVersion);
      !conf.enabled && enabled ==>
        && r.Success?
        && r.value.conf.enabled
        && r.value.conf.disabledNamespaces == conf.disabledNamespaces
        && r.value.response.status == Acknowledged
        && (namespaces.Some? && |namespaces.value| > 0 ==>
              && r.value.conf.enabledNamespaces == conf.enabledNamespaces + namespaces.value
              && forall ns :: ns in namespaces.value ==>
                   ns in r.value.nsMap && r.value.nsMap[ns] == RuleName(rcID, rcVersion))
        && (namespaces.None? || |namespaces.value| == 0 ==>
              && r.value.conf.enabledNamespaces == conf.enabledNamespaces
              && r.value.nsMap == nsMap[ClusterKey := RuleName(rcID, rcVersion)])
    // From disabled, a disable request is a reported no-op.
    ensures var r := UpdateConfiguration(conf, nsMap, enabled, namespaces, rcID, rcVersion);
      !conf.enabled && !enabled ==>
        r == Success(Updated(conf, nsMap, Response(rcID, 0, rcVersion, Errored(NoopMessage))))
  {
  }

  /** `enablementConfig`: what a revision asked for, kept to replay it. */
  datatype EnablementConfig = EnablementConfig(
    configID: string,
    rcVersion: nat,
    rcAction: string,
    env: Option<string>,
    enabled: Option<bool>,
    enabledNamespaces: Option<seq<string>>)

  /** The zero value read from `enabledRevisions` for a missing revision. */
  const ZeroConfig: EnablementConfig := EnablementConfig("", 0, "", None, None, None)

  /** The mutable part of the cache. `aliased` records that
      `currentConfiguration` and `localConfiguration` point to one object, so
      every update of the current configuration also rewrites the local one. */
  datatype Live = Live(local: Configuration, current: Configuration, aliased: bool, nsMap: map<string, string>)

  /** The live state of a freshly built cache. */
  predicate Fresh(live: Live) {
    live.current == live.local && !live.aliased && live.nsMap == LocalNamespaceMap(live.local)
  }

  /** One replayed or newly applied revision: `updateConfiguration` with
      `*conf.enabled`, which panics on a nil pointer. */
  function UpdateLive(live: Live, cfg: EnablementConfig): (r: Result<(Live, Response), Panic>)
    ensures cfg.enabled.None? ==> r.Failure?
    ensures r.Success? ==> !live.aliased ==> r.value.0.local == live.local && !r.value.0.aliased
    ensures r.Success? && live.aliased ==> r.value.0.local == r.value.0.current && r.value.0.aliased
  {
    if cfg.enabled.None? then Failure(NilDereference("conf.enabled"))
    else
      var u :- UpdateConfiguration(live.current, live.nsMap, cfg.enabled.value, cfg.enabledNamespaces, cfg.configID, cfg.rcVersion);
      var local' := if live.aliased then u.conf else live.local;
      Success((Live(local', u.conf, live.aliased, u.nsMap), u.response))
  }

  /** The loop of `resetConfiguration`: apply `cfgs` in order, discarding the
      responses; the first panic aborts. */
  function Replay(live: Live, cfgs: seq<EnablementConfig>): (r: Result<Live, Panic>)
    ensures r.Success? && !live.aliased ==> r.value.local == live.local && !r.value.aliased
    decreases |cfgs|
  {
    if |cfgs| == 0 then Success(live)
    else
      var (live', _) :- UpdateLive(live, cfgs[0]);
      Replay(live', cfgs[1..])
  }

  datatype Cache = Cache(
    live: Live,
    clusterName: string,
    orderedRevisions: seq<int>,
    enabledConfigIDs: set<string>,
    enabledRevisions: map<int, EnablementConfig>)

  /** `newInstrumentationConfigurationCache`: both configurations start from
      the local settings and each locally enabled namespace belongs to the
      "local" rule. `*localEnabled`, and `*localEnabledNamespaces` when
      enabled, are dereferenced unconditionally. */
  function NewCache(
    localEnabled: Option<bool>,
    localEnabledNamespaces: Option<seq<string>>,
    localDisabledNamespaces: Option<seq<string>>,
    clusterName: string): (r: Result<Cache, Panic>)
    ensures r.Failure? <==> localEnabled.None? || (localEnabled == Some(true) && localEnabledNamespaces.None?)
    ensures r.Success? ==>
      && r.value.live.local == NewConfiguration(localEnabled, localEnabledNamespaces, localDisabledNamespaces)
      && Fresh(r.value.live)
      && (forall ns :: ns in r.value.live.nsMap <==> localEnabled.value && ns in localEnabledNamespaces.value)
      && r.value.orderedRevisions == []
      && r.value.enabledConfigIDs == {}
      && r.value.enabledRevisions == map[]
  {
    if localEnabled.None? then Failure(NilDereference("localEnabled"))
    else if localEnabled.value && localEnabledNamespaces.None? then Failure(NilDereference("localEnabledNamespaces"))
    else
      var local := NewConfiguration(localEnabled, localEnabledNamespaces, localDisabledNamespaces);
      Success(Cache(Live(local, local, false, LocalNamespaceMap(local)), clusterName, [], {}, map[]))
  }

  /** A revision as recorded by the enable branch of `update`. */
  datatype Revision = Revision(number: int, config: EnablementConfig)

  /** Lines 128-142, the body run for a cluster target naming this cluster
      under the enable action: apply it, then record it for replay. */
  function ApplyEnable(c: Cache, rev: Revision): (r: Result<(Cache, Response), Panic>)
    ensures rev.config.enabled.None? ==> r.Failure?
    ensures r.Success? ==>
      && r.value.0.orderedRevisions == c.orderedRevisions + [rev.number]
      && r.value.0.enabledConfigIDs == c.enabledConfigIDs + {rev.config.configID}
      && r.value.0.enabledRevisions == c.enabledRevisions[rev.number := rev.config]
      && r.value.0.clusterName == c.clusterName
  {
    var (live', resp) :- UpdateLive(c.live, rev.config);
    Success((c.(live := live',
                orderedRevisions := c.orderedRevisions + [rev.number],
                enabledConfigIDs := c.enabledConfigIDs + {rev.config.configID},
                enabledRevisions := c.enabledRevisions[rev.number := rev.config]), resp))
  }

  /** A run of enable revisions applied in order; the first panic aborts. */
  function ApplyEnables(c: Cache, revs: seq<Revision>): Result<Cache, Panic>
    decreases |revs|
  {
    if |revs| == 0 then Success(c)
    else
      var (c', _) :- ApplyEnable(c, revs[0]);
      ApplyEnables(c', revs[1..])
  }

  /** The configuration ID a recorded revision carries (`""` when absent). */
  function ConfigIdOf(enabledRevisions: map<int, EnablementConfig>, rev: int): string {
    if rev in enabledRevisions then enabledRevisions[rev].configID else ""
  }

  /** Index of the first revision from `from` on that carries `configID`,
      or `|ordered|` when there is none. */
  function FirstWithId(ordered: seq<int>, enabledRevisions: map<int, EnablementConfig>, configID: string, from: nat): (k: nat)
    requires from <= |ordered|
    ensures from <= k <= |ordered|
    ensures k < |ordered| ==> ConfigIdOf(enabledRevisions, ordered[k]) == configID
    ensures forall i :: from <= i < k ==> ConfigIdOf(enabledRevisions, ordered[i]) != configID
    decreases |ordered| - from
  {
    if from == |ordered| then from
    else if ConfigIdOf(enabledRevisions, ordered[from]) == configID then from
    else FirstWithId(ordered, enabledRevisions, configID, from + 1)
  }

  /** The loop at lines 194-204: drop the first revision carrying `configID`
      from both the ordered list and the map. */
  function RemoveFirstWithId(ordered: seq<int>, enabledRevisions: map<int, EnablementConfig>, configID: string): (r: (seq<int>, map<int, EnablementConfig>))
  {
    var k := FirstWithId(ordered, enabledRevisions, configID, 0);
    if k == |ordered| then (ordered, enabledRevisions)
    else (ordered[..k] + ordered[k + 1..], enabledRevisions - {ordered[k]})
  }

  /** The configurations `resetConfiguration` replays, in revision order. */
  function ConfigsOf(ordered: seq<int>, enabledRevisions: map<int, EnablementConfig>): (cfgs: seq<EnablementConfig>)
    ensures |cfgs| == |ordered|
    ensures forall i :: 0 <= i < |ordered| && ordered[i] in enabledRevisions ==> cfgs[i] == enabledRevisions[ordered[i]]
    ensures forall i :: 0 <= i < |ordered| && ordered[i] !in enabledRevisions ==> cfgs[i] == ZeroConfig
  {
    seq(|ordered|, i requires 0 <= i < |ordered| =>
      if ordered[i] in enabledRevisions then enabledRevisions[ordered[i]] else ZeroConfig)
  }

  /** `resetConfiguration` as written: `currentConfiguration` is pointed at
      the local configuration object itself (line 215), and the namespace map
      keeps every entry. */
  function ResetAsWritten(c: Cache): (r: Result<Live, Panic>)
    ensures r.Success? ==> r.value.aliased && r.value.local == r.value.current
    ensures r.Success? ==> c.live.nsMap.Keys <= r.value.nsMap.Keys
  {
    var start := Live(c.live.local, c.live.local, true, c.live.nsMap);
    ReplayAliased(start, ConfigsOf(c.orderedRevisions, c.enabledRevisions))
  }

  /** `Replay` from an aliased state keeps it aliased and only grows the map. */
  function ReplayAliased(live: Live, cfgs: seq<EnablementConfig>): (r: Result<Live, Panic>)
    requires live.aliased && live.local == live.current
    ensures r == Replay(live, cfgs)
    ensures r.Success? ==> r.value.aliased && r.value.local == r.value.current
    ensures r.Success? ==> live.nsMap.Keys <= r.value.nsMap.Keys
    decreases |cfgs|
  {
    if |cfgs| == 0 then Success(live)
    else
      var (live', _) :- UpdateLive(live, cfgs[0]);
      ReplayAliased(live', cfgs[1..])
  }

  /** `resetConfiguration` as evidently intended: restart from a copy of the
      local configuration and from the local namespace map, then replay. */
  function ResetCorrected(c: Cache): (r: Result<Live, Panic>)
    ensures r.Success? ==> r.value.local == c.live.local && !r.value.aliased
  {
    var start := Live(c.live.local, c.live.local, false, LocalNamespaceMap(c.live.local));
    Replay(start, ConfigsOf(c.orderedRevisions, c.enabledRevisions))
  }

  function Acknowledge(configID: string, rcRevision: int, rcVersion: nat): Response {
    Response(configID, rcRevision, rcVersion, Acknowledged)
  }

  /** `disableConfiguration` as written. */
  function DisableConfiguration(c: Cache, configID: string, rcRevision: int, rcVersion: nat): (r: Result<(Cache, Response), Panic>)
    ensures r.Success? ==> r.value.1 == Response(configID, rcRevision, rcVersion, Acknowledged)
    ensures r.Success? ==> r.value.0.enabledConfigIDs == c.enabledConfigIDs - {configID}
    ensures r.Success? ==> |c.orderedRevisions| - 1 <= |r.value.0.orderedRevisions| <= |c.orderedRevisions|
    ensures r.Success? ==> r.value.0.live.aliased && r.value.0.live.local == r.value.0.live.current
    ensures r.Success? ==> c.live.nsMap.Keys <= r.value.0.live.nsMap.Keys
  {
    var (ordered, revisions) := RemoveFirstWithId(c.orderedRevisions, c.enabledRevisions, configID);
    var c1 := c.(orderedRevisions := ordered, enabledRevisions := revisions,
                 enabledConfigIDs := c.enabledConfigIDs - {configID});
    var live' :- ResetAsWritten(c1);
    Success((c1.(live := live'), Acknowledge(configID, rcRevision, rcVersion)))
  }

  /** `disableConfiguration` with the corrected reset. */
  function DisableConfigurationCorrected(c: Cache, configID: string, rcRevision: int, rcVersion: nat): (r: Result<(Cache, Response), Panic>)
    ensures r.Success? ==> r.value.1 == Response(configID, rcRevision, rcVersion, Acknowledged)
    ensures r.Success? ==> r.value.0.enabledConfigIDs == c.enabledConfigIDs - {configID}
    ensures r.Success? ==> r.value.0.live.local == c.live.local && !r.value.0.live.aliased
  {
    var (ordered, revisions) := RemoveFirstWithId(c.orderedRevisions, c.enabledRevisions, configID);
    var c1 := c.(orderedRevisions := ordered, enabledRevisions := revisions,
                 enabledConfigIDs := c.enabledConfigIDs - {configID});
    var live' :- ResetCorrected(c1);
    Success((c1.(live := live'), Acknowledge(configID, rcRevision, rcVersion)))
  }
}

/** Replay-on-disable, stated against an independent reference: disabling a
    configuration leaves the cache as if its revision had never been applied. */
module ConfigurationCacheReplay {
  import opened Wrappers
  import opened GoStrings
  import opened ConfigurationCache

  function Numbers(revs: seq<Revision>): (r: seq<int>)
    ensures |r| == |revs| && forall i :: 0 <= i < |revs| ==> r[i] == revs[i].number
  {
    seq(|revs|, i requires 0 <= i < |revs| => revs[i].number)
  }

  function Configs(revs: seq<Revision>): (r: seq<EnablementConfig>)
    ensures |r| == |revs| && forall i :: 0 <= i < |revs| ==> r[i] == revs[i].config
  {
    seq(|revs|, i requires 0 <= i < |revs| => revs[i].config)
  }

  /** `enabledRevisions` after recording `revs` in order on top of `m`. */
  function RecordAll(m: map<int, EnablementConfig>, revs: seq<Revision>): map<int, EnablementConfig>
    decreases |revs|
  {
    if |revs| == 0 then m else RecordAll(m[revs[0].number := revs[0].config], revs[1..])
  }

  predicate DistinctNumbers(revs: seq<Revision>) {
    forall i, j :: 0 <= i < j < |revs| ==> revs[i].number != revs[j].number
  }

  /** Reference definition: `revs` without the first revision of `configID`. */
  function WithoutFirst(revs: seq<Revision>, configID: string): seq<Revision>
    decreases |revs|
  {
    if |revs| == 0 then []
    else if revs[0].config.configID == configID then revs[1..]
    else [revs[0]] + WithoutFirst(revs[1..], configID)
  }

  /** Applying enable revisions one by one is a replay of their
      configurations, and it records them in order. */
  lemma {:induction false} ApplyEnablesIsReplay(c: Cache, revs: seq<Revision>)
    ensures ApplyEnables(c, revs).Success? <==> Replay(c.live, Configs(revs)).Success?
    ensures ApplyEnables(c, revs).Success? ==>
      && ApplyEnables(c, revs).value.live == Replay(c.live, Configs(revs)).value
      && ApplyEnables(c, revs).value.orderedRevisions == c.orderedRevisions + Numbers(revs)
      && ApplyEnables(c, revs).value.enabledRevisions == RecordAll(c.enabledRevisions, revs)
    decreases |revs|
  {
    if |revs| > 0 {
      ApplyEnableIsUpdate(c, revs);
      var step := ApplyEnable(c, revs[0]);
      if step.Success? {
        ApplyEnablesIsReplay(step.value.0, revs[1..]);
      }
    }
  }

  /** The first step of `ApplyEnables` is the first step of `Replay`. */
  lemma ApplyEnableIsUpdate(c: Cache, revs: seq<Revision>)
    requires |revs| > 0
    ensures Configs(revs)[0] == revs[0].config && Configs(revs)[1..] == Configs(revs[1..])
    ensures c.orderedRevisions + [revs[0].number] + Numbers(revs[1..]) == c.orderedRevisions + Numbers(revs)
    ensures ApplyEnable(c, revs[0]).Success? <==> UpdateLive(c.live, revs[0].config).Success?
    ensures ApplyEnable(c, revs[0]).Success? ==>
      ApplyEnable(c, revs[0]).value.0.live == UpdateLive(c.live, revs[0].config).value.0
  {
    NumbersCons(revs);
    ConfigsCons(revs);
  }

  lemma NumbersCons(revs: seq<Revision>)
    requires |revs| > 0
    ensures Numbers(revs) == [revs[0].number] + Numbers(revs[1..])
  {
    var tail := revs[1..];
    assert forall i :: 0 <= i < |tail| ==> tail[i] == revs[i + 1];
  }

  lemma ConfigsCons(revs: seq<Revision>)
    requires |revs| > 0
    ensures Configs(revs) == [revs[0].config] + Configs(revs[1..])
  {
    var tail := revs[1..];
    assert forall i :: 0 <= i < |tail| ==> tail[i] == revs[i + 1];
  }

  lemma {:induction false} RecordAllKeeps(m: map<int, EnablementConfig>, revs: seq<Revision>, k: int)
    requires forall i :: 0 <= i < |revs| ==> revs[i].number != k
    ensures k in RecordAll(m, revs) <==> k in m
    ensures k in m ==> RecordAll(m, revs)[k] == m[k]
    decreases |revs|
  {
    if |revs| > 0 {
      RecordAllKeeps(m[revs[0].number := revs[0].config], revs[1..], k);
    }
  }

  lemma {:induction false} RecordAllLookup(m: map<int, EnablementConfig>, revs: seq<Revision>)
    requires DistinctNumbers(revs)
    ensures forall i :: 0 <= i < |revs| ==>
      revs[i].number in RecordAll(m, revs) && RecordAll(m, revs)[revs[i].number] == revs[i].config
    decreases |revs|
  {
    if |revs| > 0 {
      var m' := m[revs[0].number := revs[0].config];
      RecordAllLookup(m', revs[1..]);
      RecordAllKeeps(m', revs[1..], revs[0].number);
    }
  }

  lemma WithoutFirstAt(revs: seq<Revision>, configID: string, k: nat)
    requires k <= |revs|
    requires k < |revs| ==> revs[k].config.configID == configID
    requires forall i :: 0 <= i < k ==> revs[i].config.configID != configID
    ensures k == |revs| ==> WithoutFirst(revs, configID) == revs
    ensures k < |revs| ==> WithoutFirst(revs, configID) == revs[..k] + revs[k + 1..]
  {
    if k < |revs| {
      WithoutFirstFound(revs, configID, k);
    } else {
      WithoutFirstAbsent(revs, configID);
    }
  }

  lemma {:induction false} WithoutFirstFound(revs: seq<Revision>, configID: string, k: nat)
    requires k < |revs| && revs[k].config.configID == configID
    requires forall i :: 0 <= i < k ==> revs[i].config.configID != configID
    ensures WithoutFirst(revs, configID) == revs[..k] + revs[k + 1..]
    decreases k
  {
    if k > 0 {
      TailPrefixClear(revs, configID, k);
      WithoutFirstFound(revs[1..], configID, k - 1);
      ConsSplice(revs, k);
    } else {
      assert revs[..0] + revs[1..] == revs[1..];
    }
  }

  lemma {:induction false} WithoutFirstAbsent(revs: seq<Revision>, configID: string)
    requires forall i :: 0 <= i < |revs| ==> revs[i].config.configID != configID
    ensures WithoutFirst(revs, configID) == revs
    decreases |revs|
  {
    if |revs| > 0 {
      TailPrefixClear(revs, configID, |revs|);
      WithoutFirstAbsent(revs[1..], configID);
      assert revs == [revs[0]] + revs[1..];
    }
  }

  /** The tail keeps the head's clear prefix, one shorter. */
  lemma TailPrefixClear(revs: seq<Revision>, configID: string, k: nat)
    requires 0 < k <= |revs|
    requires k < |revs| ==> revs[k].config.configID == configID
    requires forall i :: 0 <= i < k ==> revs[i].config.configID != configID
    ensures WithoutFirst(revs, configID) == [revs[0]] + WithoutFirst(revs[1..], configID)
    ensures k - 1 < |revs[1..]| ==> revs[1..][k - 1].config.configID == configID
    ensures forall i :: 0 <= i < k - 1 ==> revs[1..][i].config.configID != configID
  {
    assert revs[0].config.configID != configID;
    forall i | 0 <= i < k - 1 ensures revs[1..][i].config.configID != configID {
      assert revs[1..][i] == revs[i + 1];
    }
  }

  /** Dropping position `k > 0` commutes with taking the head off. */
  lemma ConsSplice(revs: seq<Revision>, k: nat)
    requires 0 < k <= |revs|
    ensures revs == [revs[0]] + revs[1..]
    ensures k < |revs| ==> revs[..k] + revs[k + 1..] == [revs[0]] + (revs[1..][..k - 1] + revs[1..][k..])
  {
    if k < |revs| {
      assert revs[..k] == [revs[0]] + revs[1..][..k - 1];
      assert revs[k + 1..] == revs[1..][k..];
    }
  }

  /** Removing the first revision of `configID` from the recorded revisions
      leaves the revisions of the reference removal, in order. */
  lemma RemovalMatchesReference(revs: seq<Revision>, configID: string)
    requires DistinctNumbers(revs)
    ensures var removed := RemoveFirstWithId(Numbers(revs), RecordAll(map[], revs), configID);
      && removed.0 == Numbers(WithoutFirst(revs, configID))
      && ConfigsOf(removed.0, removed.1) == Configs(WithoutFirst(revs, configID))
  {
    var r := RecordAll(map[], revs);
    RecordAllLookup(map[], revs);
    var k := FirstWithId(Numbers(revs), r, configID, 0);
    WithoutFirstAt(revs, configID, k);
    var rest := WithoutFirst(revs, configID);
    var removed := RemoveFirstWithId(Numbers(revs), r, configID);
    if k < |revs| {
      assert removed.0 == Numbers(revs)[..k] + Numbers(revs)[k + 1..];
      assert removed.1 == r - {revs[k].number};
      assert Numbers(revs)[..k] + Numbers(revs)[k + 1..] == Numbers(rest);
      forall i | 0 <= i < |rest|
        ensures ConfigsOf(removed.0, removed.1)[i] == Configs(rest)[i]
      {
        var j := if i < k then i else i + 1;
        assert rest[i] == revs[j];
        assert revs[j].number != revs[k].number;
      }
    }
  }

  /** Disabling a configuration with the corrected reset yields exactly the
      cache obtained by never applying its first revision: same configurations,
      same namespace map, same revision order, and a panic in one exactly when
      there is a panic in the other. */
  lemma DisableForgetsRevision(c0: Cache, revs: seq<Revision>, configID: string, rcRevision: int, rcVersion: nat)
    requires Fresh(c0.live) && c0.orderedRevisions == [] && c0.enabledRevisions == map[]
    requires DistinctNumbers(revs)
    requires ApplyEnables(c0, revs).Success?
    ensures var d := DisableConfigurationCorrected(ApplyEnables(c0, revs).value, configID, rcRevision, rcVersion);
      var again := ApplyEnables(c0, WithoutFirst(revs, configID));
      && (d.Success? <==> again.Success?)
      && (d.Success? ==>
            && d.value.0.live == again.value.live
            && d.value.0.orderedRevisions == again.value.orderedRevisions)
  {
    var c := ApplyEnables(c0, revs).value;
    ApplyEnablesIsReplay(c0, revs);
    assert c.orderedRevisions == Numbers(revs);
    RemovalMatchesReference(revs, configID);
    var rest := WithoutFirst(revs, configID);
    ApplyEnablesIsReplay(c0, rest);
    assert c.live.local == c0.live.local;
  }

  /** Enable one revision, then disable its configuration, with the reset as
      written or as corrected. */
  function EnableThenDisable(c: Cache, rev: Revision, corrected: bool): Result<Cache, Panic>
  {
    var (c1, _) :- ApplyEnable(c, rev);
    var (c2, _) :-
      if corrected then DisableConfigurationCorrected(c1, rev.config.configID, rev.number, rev.config.rcVersion)
      else DisableConfiguration(c1, rev.config.configID, rev.number, rev.config.rcVersion);
    Success(c2)
  }

  const ClusterWideA: Revision := Revision(1, EnablementConfig("A", 1, "enable", None, Some(true), None))
  const NamespaceB: Revision := Revision(2, EnablementConfig("B", 1, "enable", None, Some(true), Some(["b"])))

  /** As written: once a reset has aliased the two configurations, enabling a
      namespace also enables the local configuration, so disabling every
      remote configuration leaves instrumentation on. */
  lemma AliasedResetKeepsRevokedEnablement()
    ensures var c0 := NewCache(Some(false), None, None, "k");
      && c0.Success?
      && var c1 := EnableThenDisable(c0.value, ClusterWideA, false);
      && c1.Success?
      && var c2 := EnableThenDisable(c1.value, NamespaceB, false);
      && c2.Success?
      && c2.value.live.current.enabled
      && c2.value.live.local.enabled
  {
    NewCacheOff();
    EnableAOff();
    DisableAAsWritten();
    EnableThenDisableIs(FreshOff, ClusterWideA, false, EnabledA, AliasedOff);
    EnableBAliased();
    DisableBAsWritten();
    EnableThenDisableIs(AliasedOff, NamespaceB, false, EnabledBAliased, AliasedOnB);
  }

  /** Corrected: the same sequence returns to the local, disabled configuration. */
  lemma CorrectedResetRestoresLocal()
    ensures var c0 := NewCache(Some(false), None, None, "k");
      && c0.Success?
      && var c1 := EnableThenDisable(c0.value, ClusterWideA, true);
      && c1.Success?
      && var c2 := EnableThenDisable(c1.value, NamespaceB, true);
      && c2.Success?
      && !c2.value.live.current.enabled
      && !c2.value.live.local.enabled
  {
    NewCacheOff();
    EnableAOff();
    DisableACorrected();
    EnableThenDisableIs(FreshOff, ClusterWideA, true, EnabledA, FreshOff);
    EnableBFresh();
    DisableBCorrected();
    EnableThenDisableIs(FreshOff, NamespaceB, true, EnabledBFromFresh, FreshOff);
  }

  /** `EnableThenDisable` is its two steps. */
  lemma EnableThenDisableIs(c: Cache, rev: Revision, corrected: bool, c1: Cache, c2: Cache)
    requires ApplyEnable(c, rev).Success? && ApplyEnable(c, rev).value.0 == c1
    requires var d := if corrected then DisableConfigurationCorrected(c1, rev.config.configID, rev.number, rev.config.rcVersion)
                      else DisableConfiguration(c1, rev.config.configID, rev.number, rev.config.rcVersion);
      d.Success? && d.value.0 == c2
    ensures EnableThenDisable(c, rev, corrected) == Success(c2)
  {
  }

  const Off: Configuration := Configuration(false, [], {})
  const OnB: Configuration := Configuration(true, ["b"], {})

  /** The cache built from local settings that disable instrumentation. */
  const FreshOff: Cache := Cache(Live(Off, Off, false, map[]), "k", [], {}, map[])

  /** `FreshOff` after enabling A for the whole cluster. */
  const EnabledA: Cache := Cache(
    Live(Off, Off.(enabled := true), false, map[ClusterKey := "A-1"]),
    "k", [1], {"A"}, map[1 := ClusterWideA.config])

  /** `EnabledA` after disabling A with the reset as written: the two
      configurations are now one object. */
  const AliasedOff: Cache := Cache(Live(Off, Off, true, map[ClusterKey := "A-1"]), "k", [], {}, map[])

  /** `AliasedOff` after enabling B for "b": the local configuration changes too. */
  const EnabledBAliased: Cache := Cache(
    Live(OnB, OnB, true, map[ClusterKey := "A-1", "b" := "B-1"]),
    "k", [2], {"B"}, map[2 := NamespaceB.config])

  /** `EnabledBAliased` after disabling B with the reset as written. */
  const AliasedOnB: Cache := Cache(Live(OnB, OnB, true, map[ClusterKey := "A-1", "b" := "B-1"]), "k", [], {}, map[])

  /** `FreshOff` after enabling B for "b". */
  const EnabledBFromFresh: Cache := Cache(
    Live(Off, OnB, false, map["b" := "B-1"]),
    "k", [2], {"B"}, map[2 := NamespaceB.config])

  lemma NewCacheOff()
    ensures NewCache(Some(false), None, None, "k") == Success(FreshOff)
  {
    assert NewConfiguration(Some(false), None, None) == Off;
  }

  lemma EnableAOff()
    ensures ApplyEnable(FreshOff, ClusterWideA).Success?
    ensures ApplyEnable(FreshOff, ClusterWideA).value.0 == EnabledA
  {
    RuleNames();
    var u := UpdateConfiguration(Off, map[], true, None, "A", 1);
    assert u.Success? && u.value.conf == Off.(enabled := true);
    assert u.value.nsMap == map[ClusterKey := "A-1"];
  }

  /** Disabling the only revision replays nothing. */
  lemma DisableOnly(c: Cache, configID: string, rev: int)
    requires c.orderedRevisions == [rev] && c.enabledRevisions.Keys == {rev}
    requires c.enabledRevisions[rev].configID == configID
    ensures RemoveFirstWithId(c.orderedRevisions, c.enabledRevisions, configID) == ([], map[])
    ensures ConfigsOf([], map[]) == []
  {
    assert FirstWithId([rev], c.enabledRevisions, configID, 0) == 0;
    assert c.enabledRevisions - {rev} == map[];
    assert [rev][..0] + [rev][1..] == [];
  }

  lemma DisableAAsWritten()
    ensures DisableConfiguration(EnabledA, "A", 1, 1).Success?
    ensures DisableConfiguration(EnabledA, "A", 1, 1).value.0 == AliasedOff
  {
    DisableOnly(EnabledA, "A", 1);
  }

  lemma DisableACorrected()
    ensures DisableConfigurationCorrected(EnabledA, "A", 1, 1).Success?
    ensures DisableConfigurationCorrected(EnabledA, "A", 1, 1).value.0 == FreshOff
  {
    DisableOnly(EnabledA, "A", 1);
  }

  lemma EnableBAliased()
    ensures ApplyEnable(AliasedOff, NamespaceB).Success?
    ensures ApplyEnable(AliasedOff, NamespaceB).value.0 == EnabledBAliased
  {
    RuleNames();
    var u := UpdateConfiguration(Off, AliasedOff.live.nsMap, true, Some(["b"]), "B", 1);
    assert u.Success? && u.value.conf == OnB;
    assert u.value.nsMap == EnabledBAliased.live.nsMap;
  }

  lemma EnableBFresh()
    ensures ApplyEnable(FreshOff, NamespaceB).Success?
    ensures ApplyEnable(FreshOff, NamespaceB).value.0 == EnabledBFromFresh
  {
    RuleNames();
    var u := UpdateConfiguration(Off, map[], true, Some(["b"]), "B", 1);
    assert u.Success? && u.value.conf == OnB;
    assert u.value.nsMap == EnabledBFromFresh.live.nsMap;
  }

  lemma DisableBAsWritten()
    ensures DisableConfiguration(EnabledBAliased, "B", 2, 1).Success?
    ensures DisableConfiguration(EnabledBAliased, "B", 2, 1).value.0 == AliasedOnB
  {
    DisableOnly(EnabledBAliased, "B", 2);
  }

  lemma DisableBCorrected()
    ensures DisableConfigurationCorrected(EnabledBFromFresh, "B", 2, 1).Success?
    ensures DisableConfigurationCorrected(EnabledBFromFresh, "B", 2, 1).value.0 == FreshOff
  {
    DisableOnly(EnabledBFromFresh, "B", 2);
    assert LocalNamespaceMap(Off) == map[];
  }

  const NamespaceA: Revision := Revision(2, EnablementConfig("A", 1, "enable", None, Some(true), Some(["a"])))
  const NamespaceB1: Revision := Revision(1, EnablementConfig("B", 1, "enable", None, Some(true), Some(["b"])))

  const LocalX: Configuration := Configuration(true, ["x"], {})

  /** The cache after enabling B for "b" and then A for "a" on top of a local
      configuration that enables "x". */
  const EnabledBA: Cache := Cache(
    Live(LocalX, Configuration(true, ["x", "b", "a"], {}), false,
         map["x" := LocalRule, "b" := "B-1", "a" := "A-1"]),
    "k", [1, 2], {"B", "A"}, map[1 := NamespaceB1.config, 2 := NamespaceA.config])

  lemma RuleNames()
    ensures RuleName("A", 1) == "A-1" && RuleName("B", 1) == "B-1"
  {
    assert DecimalString(1) == "1";
  }

  lemma LocalXMap()
    ensures LocalNamespaceMap(LocalX) == map["x" := LocalRule]
  {
    assert SetOf(["x"]) == {"x"};
  }

  /** The cache right after construction from a local configuration that
      enables "x". */
  const FreshX: Cache := Cache(Live(LocalX, LocalX, false, map["x" := LocalRule]), "k", [], {}, map[])

  /** The cache after enabling B for "b" on top of `FreshX`. */
  const EnabledB: Cache := Cache(
    Live(LocalX, Configuration(true, ["x", "b"], {}), false, map["x" := LocalRule, "b" := "B-1"]),
    "k", [1], {"B"}, map[1 := NamespaceB1.config])

  lemma NewCacheX()
    ensures NewCache(Some(true), Some(["x"]), None, "k") == Success(FreshX)
  {
    LocalXMap();
    assert NewConfiguration(Some(true), Some(["x"]), None) == LocalX;
  }

  lemma EnableBStep()
    ensures ApplyEnable(FreshX, NamespaceB1).Success?
    ensures ApplyEnable(FreshX, NamespaceB1).value.0 == EnabledB
  {
    RuleNames();
    AppendOneNew(FreshX.live.nsMap, "b", "B-1");
    assert FreshX.live.nsMap["b" := "B-1"] == EnabledB.live.nsMap;
  }

  lemma EnableAStep()
    ensures ApplyEnable(EnabledB, NamespaceA).Success?
    ensures ApplyEnable(EnabledB, NamespaceA).value.0 == EnabledBA
  {
    RuleNames();
    AppendOneNew(EnabledB.live.nsMap, "a", "A-1");
    assert EnabledB.live.nsMap["a" := "A-1"] == EnabledBA.live.nsMap;
  }

  /** One requested namespace that no rule owns yet is appended and mapped. */
  lemma AppendOneNew(nsMap: map<string, string>, ns: string, rule: string)
    requires ns !in nsMap
    ensures AppendNamespaces(nsMap, [ns], rule) == Appended([ns], nsMap[ns := rule], [])
  {
    assert [ns][1..] == [];
  }

  /** One requested namespace that a rule already owns is reported. */
  lemma AppendOneOwned(nsMap: map<string, string>, ns: string, rule: string)
    requires ns in nsMap
    ensures AppendNamespaces(nsMap, [ns], rule) == Appended([], nsMap, [ns])
  {
    assert [ns][1..] == [];
  }

  /** The state `EnabledBA` is what the cache reaches from its local settings. */
  lemma EnabledBAIsReachable()
    ensures NewCache(Some(true), Some(["x"]), None, "k").Success?
    ensures ApplyEnables(NewCache(Some(true), Some(["x"]), None, "k").value, [NamespaceB1, NamespaceA])
         == Success(EnabledBA)
  {
    NewCacheX();
    EnableBStep();
    EnableAStep();
    ApplyEnablesTwo(FreshX, NamespaceB1, NamespaceA);
  }

  /** Applying two revisions is applying one, then the other. */
  lemma ApplyEnablesTwo(c: Cache, r1: Revision, r2: Revision)
    requires ApplyEnable(c, r1).Success? && ApplyEnable(ApplyEnable(c, r1).value.0, r2).Success?
    ensures ApplyEnables(c, [r1, r2]) == Success(ApplyEnable(ApplyEnable(c, r1).value.0, r2).value.0)
  {
    var c1 := ApplyEnable(c, r1).value.0;
    var c2 := ApplyEnable(c1, r2).value.0;
    assert [r1, r2][1..] == [r2];
    assert [r2][1..] == [];
    assert ApplyEnables(c2, []) == Success(c2);
    assert ApplyEnables(c1, [r2]) == Success(c2);
  }

  /** As written: the namespace map is not reset, so replaying B after A is
      disabled finds "b" already mapped, reports an error and drops it. */
  lemma StaleNamespaceMapDropsReplayedNamespace()
    ensures var d := DisableConfiguration(EnabledBA, "A", 2, 1);
      d.Success? && d.value.0.live.current.enabledNamespaces == ["x"]
  {
    RuleNames();
    DisableAFromBA();
    var start := Live(LocalX, LocalX, true, EnabledBA.live.nsMap);
    AppendOneOwned(start.nsMap, "b", "B-1");
    var u := UpdateLive(start, NamespaceB1.config);
    assert u.Success? && u.value.0.current.enabledNamespaces == ["x"];
    assert Replay(u.value.0, []) == Success(u.value.0);
  }

  /** Disabling A in `EnabledBA` leaves B's revision alone to replay. */
  lemma DisableAFromBA()
    ensures RemoveFirstWithId(EnabledBA.orderedRevisions, EnabledBA.enabledRevisions, "A") == ([1], map[1 := NamespaceB1.config])
    ensures ConfigsOf([1], map[1 := NamespaceB1.config]) == [NamespaceB1.config]
  {
    assert FirstWithId([1, 2], EnabledBA.enabledRevisions, "A", 0) == 1;
    assert [1, 2][..1] + [1, 2][2..] == [1];
    assert EnabledBA.enabledRevisions - {2} == map[1 := NamespaceB1.config];
  }

  /** Corrected: disabling A keeps B's namespace. */
  lemma CorrectedResetKeepsReplayedNamespace()
    ensures var d := DisableConfigurationCorrected(EnabledBA, "A", 2, 1);
      d.Success? && d.value.0.live.current.enabledNamespaces == ["x", "b"]
  {
    RuleNames();
    LocalXMap();
    DisableAFromBA();
    var cfgs := [NamespaceB1.config];
    var start := Live(LocalX, LocalX, false, map["x" := LocalRule]);
    AppendOneNew(start.nsMap, "b", "B-1");
    var u := UpdateLive(start, NamespaceB1.config);
    assert u.Success? && u.value.0.current.enabledNamespaces == ["x", "b"];
    assert Replay(u.value.0, []) == Success(u.value.0);
    assert Replay(start, cfgs) == Success(u.value.0);
  }
}

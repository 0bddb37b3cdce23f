/** The admission webhook that injects the agent's address, the entity ID
    and the External Data variable into pods
    (pkg/clusteragent/admission/mutate/config/config.go). The pod mutators
    of the common package are parameters; a pod is reduced to what this
    file reads of it. */
module ConfigWebhook {
  import opened Wrappers
  import opened GoStrings
  import ContainerId

  const AgentHostEnvVarName: string := "DD_AGENT_HOST"
  const DdEntityIdEnvVarName: string := "DD_ENTITY_ID"
  const DdExternalDataEnvVarName: string := "DD_EXTERNAL_ENV"
  const TraceUrlEnvVarName: string := "DD_TRACE_AGENT_URL"
  const DogstatsdUrlEnvVarName: string := "DD_DOGSTATSD_URL"
  const PodUidEnvVarName: string := "DD_INTERNAL_POD_UID"

  const HostIp: string := "hostip"
  const Socket: string := "socket"
  const Service: string := "service"

  const DatadogVolumeName: string := "datadog"

  /** `metrics.InvalidInput`, the error text of a rejected request. */
  const InvalidInput: string := "invalid_input"

  /** An environment variable with either a literal value or a field reference. */
  datatype EnvVar = EnvVar(name: string, value: string, fieldRef: Option<string>)

  datatype Container = Container(name: string)

  /** A pod: the value of its injection-mode label, if it carries one, and
      its containers. */
  datatype Pod = Pod(modeLabel: Option<string>, containers: seq<Container>)

  /** The host-path types a volume may ask for; the webhook only uses
      `HostPathDirectoryOrCreate`. */
  datatype HostPathType = HostPathDirectoryOrCreate | HostPathDirectory | HostPathSocket

  /** A host-path volume: its name, the host path and the type of that path. */
  datatype Volume = Volume(name: string, hostPath: string, pathType: HostPathType)
  datatype VolumeMount = VolumeMount(name: string, mountPath: string, readOnly: bool)

  /** The webhook's configuration: the global mode, the injection filter and
      the configured service name, namespace and socket paths. */
  datatype Webhook = Webhook(
    mode: string,
    shouldMutatePod: Pod -> bool,
    localServiceName: string,
    namespace: string,
    traceAgentSocket: string,
    dogstatsdSocket: string,
    socketPath: string)

  /** `InjectEnv`, `InjectVolume` and `InjectDynamicEnv`: each returns the
      mutated pod and whether it changed anything. */
  datatype Injectors = Injectors(
    injectEnv: (Pod, EnvVar) -> (Pod, bool),
    injectVolume: (Pod, Volume, VolumeMount) -> (Pod, bool),
    injectDynamicEnv: (Pod, (Container, bool) -> Result<EnvVar, string>) -> (Pod, bool))

  const AgentHostIpEnvVar: EnvVar := EnvVar(AgentHostEnvVarName, "", Some("status.hostIP"))
  const DefaultDdEntityIdEnvVar: EnvVar := EnvVar(DdEntityIdEnvVarName, "", Some("metadata.uid"))
  const PodUidEnvVar: EnvVar := EnvVar(PodUidEnvVarName, "", Some("metadata.uid"))

  function AgentHostServiceEnvVar(w: Webhook): EnvVar {
    EnvVar(AgentHostEnvVarName, w.localServiceName + "." + w.namespace + ".svc.cluster.local", None)
  }

  /** `buildVolume`: a host-path volume and a mount at the same path. */
  function BuildVolume(name: string, path: string, readOnly: bool): (r: (Volume, VolumeMount))
    ensures r.0.hostPath == r.1.mountPath == path && r.0.name == r.1.name == name && r.1.readOnly == readOnly
    // The host directory is created when it is missing.
    ensures r.0.pathType == HostPathDirectoryOrCreate
  {
    (Volume(name, path, HostPathDirectoryOrCreate), VolumeMount(name, path, readOnly))
  }

  predicate ValidMode(mode: string) {
    mode == HostIp || mode == Service || mode == Socket
  }

  /** `injectionMode`: a valid label, in any letter case, overrides the
      global mode. */
  function InjectionMode(pod: Pod, globalMode: string): (mode: string)
    ensures pod.modeLabel.Some? && ValidMode(ToLower(pod.modeLabel.value)) ==> mode == ToLower(pod.modeLabel.value)
    ensures pod.modeLabel.None? || !ValidMode(ToLower(pod.modeLabel.value)) ==> mode == globalMode
    ensures ValidMode(globalMode) ==> ValidMode(mode)
  {
    if pod.modeLabel.Some? then
      var mode := ToLower(pod.modeLabel.value);
      if ValidMode(mode) then mode else globalMode
    else globalMode
  }

  /** Labels that differ only in letter case select the same mode. */
  lemma InjectionModeIgnoresCase(pod: Pod, other: string, globalMode: string)
    requires pod.modeLabel.Some? && ToLower(pod.modeLabel.value) == ToLower(other)
    ensures InjectionMode(pod, globalMode) == InjectionMode(pod.(modeLabel := Some(other)), globalMode)
  {
  }

  /** The unexpanded reference to the pod UID variable. */
  const PodUidReference: string := "$(" + PodUidEnvVarName + ")"

  /** The External Data value for a container. */
  function ExternalEnvValue(containerName: string, init: bool): string {
    ContainerId.ExternalDataInitPrefix + FormatBool(init) + ","
      + ContainerId.ExternalDataContainerNamePrefix + containerName + ","
      + ContainerId.ExternalDataPodUidPrefix + PodUidReference
  }

  /** `buildExternalEnv`: never fails. */
  function BuildExternalEnv(container: Container, init: bool): (r: Result<EnvVar, string>)
    ensures r.Success? && r.value.name == DdExternalDataEnvVarName && r.value.fieldRef.None?
    ensures r.value.value == ExternalEnvValue(container.name, init)
  {
    Success(EnvVar(DdExternalDataEnvVarName, ExternalEnvValue(container.name, init), None))
  }

  /** The variable built here is read back by the trace agent's External Data
      parser: init and the container name come back whenever the name has no
      comma, and the pod UID is the unexpanded reference. */
  lemma ExternalEnvRoundTrip(container: Container, init: bool)
    requires ',' !in container.name
    ensures var d := ContainerId.ParseExternalData(BuildExternalEnv(container, init).value.value);
      && d.init == init
      && d.containerName == container.name
      && d.podUid == PodUidReference
  {
    ExternalEnvSplits(container.name, init);
    ScanItems(container.name, init);
  }

  /** The three items, scanned in order, give back the three fields. */
  lemma ScanItems(name: string, init: bool)
    ensures ContainerId.ScanExternalData(
              [ContainerId.ExternalDataInitPrefix + FormatBool(init),
               ContainerId.ExternalDataContainerNamePrefix + name,
               ContainerId.ExternalDataPodUidPrefix + PodUidReference],
              ContainerId.ExternalData(false, "", ""))
         == ContainerId.ExternalData(init, name, PodUidReference)
  {
    var a := ContainerId.ExternalDataInitPrefix + FormatBool(init);
    var b := ContainerId.ExternalDataContainerNamePrefix + name;
    var c := ContainerId.ExternalDataPodUidPrefix + PodUidReference;
    ScanInitItem(init, [b, c]);
    assert [a] + [b, c] == [a, b, c];
    ScanNameItem(name, [c], init);
    assert [b] + [c] == [b, c];
    ScanPodItem(init, name);
  }

  /** The init item sets `init` from its formatted boolean. */
  lemma ScanInitItem(init: bool, rest: seq<string>)
    ensures ContainerId.ScanExternalData([ContainerId.ExternalDataInitPrefix + FormatBool(init)] + rest,
                                         ContainerId.ExternalData(false, "", ""))
         == ContainerId.ScanExternalData(rest, ContainerId.ExternalData(init, "", ""))
  {
    var item := ContainerId.ExternalDataInitPrefix + FormatBool(init);
    ScanOne(item, rest, ContainerId.ExternalData(false, "", ""));
    assert HasPrefix(item, ContainerId.ExternalDataInitPrefix);
    assert item[|ContainerId.ExternalDataInitPrefix|..] == FormatBool(init);
  }

  /** The container-name item sets the name and nothing else. */
  lemma ScanNameItem(name: string, rest: seq<string>, init: bool)
    ensures ContainerId.ScanExternalData([ContainerId.ExternalDataContainerNamePrefix + name] + rest,
                                         ContainerId.ExternalData(init, "", ""))
         == ContainerId.ScanExternalData(rest, ContainerId.ExternalData(init, name, ""))
  {
    var item := ContainerId.ExternalDataContainerNamePrefix + name;
    ScanOne(item, rest, ContainerId.ExternalData(init, "", ""));
    assert item[..3] == "cn-";
    assert !HasPrefix(item, ContainerId.ExternalDataInitPrefix) by { assert item[0] != 'i'; }
    assert HasPrefix(item, ContainerId.ExternalDataContainerNamePrefix);
    assert item[|ContainerId.ExternalDataContainerNamePrefix|..] == name;
  }

  /** The pod-UID item, last in the value, sets the pod UID. */
  lemma ScanPodItem(init: bool, name: string)
    ensures ContainerId.ScanExternalData([ContainerId.ExternalDataPodUidPrefix + PodUidReference],
                                         ContainerId.ExternalData(init, name, ""))
         == ContainerId.ExternalData(init, name, PodUidReference)
  {
    var item := ContainerId.ExternalDataPodUidPrefix + PodUidReference;
    ScanOne(item, [], ContainerId.ExternalData(init, name, ""));
    assert [item] + [] == [item];
    assert item[..3] == "pu-";
    assert !HasPrefix(item, ContainerId.ExternalDataInitPrefix) by { assert item[0] != 'i'; }
    assert !HasPrefix(item, ContainerId.ExternalDataContainerNamePrefix) by { assert item[0] != 'c'; }
    assert HasPrefix(item, ContainerId.ExternalDataPodUidPrefix);
    assert item[|ContainerId.ExternalDataPodUidPrefix|..] == PodUidReference;
  }

  /** The value splits back into its three items. */
  lemma ExternalEnvSplits(name: string, init: bool)
    requires ',' !in name
    ensures Split(ExternalEnvValue(name, init), ',') ==
      [ContainerId.ExternalDataInitPrefix + FormatBool(init),
       ContainerId.ExternalDataContainerNamePrefix + name,
       ContainerId.ExternalDataPodUidPrefix + PodUidReference]
  {
    var a := ContainerId.ExternalDataInitPrefix + FormatBool(init);
    var b := ContainerId.ExternalDataContainerNamePrefix + name;
    var c := ContainerId.ExternalDataPodUidPrefix + PodUidReference;
    assert ',' !in a;
    assert ',' !in b;
    PodItemHasNoComma();
    assert ExternalEnvValue(name, init) == a + [','] + b + [','] + c;
    SplitThree(a, b, c, ',');
  }

  lemma PodItemHasNoComma()
    ensures ',' !in ContainerId.ExternalDataPodUidPrefix + PodUidReference
  {
    var name := PodUidEnvVarName;
    assert forall i :: 0 <= i < |name| ==> name[i] != ',';
    assert ',' !in name;
    assert ',' !in "$(" && ',' !in ")" && ',' !in ContainerId.ExternalDataPodUidPrefix;
  }

  /** Three separator-free items joined by the separator split back apart. */
  lemma SplitThree(a: string, b: string, c: string, sep: char)
    requires sep !in a && sep !in b && sep !in c
    ensures Split(a + [sep] + b + [sep] + c, sep) == [a, b, c]
  {
    SplitAppend(a, b + [sep] + c, sep);
    SplitAppend(b, c, sep);
    SplitNoSep(a, sep);
    SplitNoSep(b, sep);
    SplitNoSep(c, sep);
    assert a + [sep] + b + [sep] + c == a + [sep] + (b + [sep] + c);
  }

  /** One step of the External Data scan on an item of this file's format. */
  lemma ScanOne(item: string, rest: seq<string>, acc: ContainerId.ExternalData)
    ensures ContainerId.ScanExternalData([item] + rest, acc) == ContainerId.ScanExternalData(rest,
      if HasPrefix(item, ContainerId.ExternalDataInitPrefix) then
        acc.(init := ParseBool(item[|ContainerId.ExternalDataInitPrefix|..]) == Success(true))
      else if HasPrefix(item, ContainerId.ExternalDataContainerNamePrefix) then
        acc.(containerName := item[|ContainerId.ExternalDataContainerNamePrefix|..])
      else if HasPrefix(item, ContainerId.ExternalDataPodUidPrefix) then
        acc.(podUid := item[|ContainerId.ExternalDataPodUidPrefix|..])
      else acc)
  {
    assert ([item] + rest)[0] == item;
    assert ([item] + rest)[1..] == rest;
  }

  // ---------------------------------------------------------------------
  // inject
  // ---------------------------------------------------------------------

  /** One mutation `inject` attempts. */
  datatype Step = InjectEnvStep(env: EnvVar) | InjectVolumeStep(volume: Volume, mount: VolumeMount) | InjectExternalEnvStep

  /** The mutations each valid mode attempts for the agent's address. */
  function ModeSteps(w: Webhook, mode: string): (steps: seq<Step>)
    requires ValidMode(mode)
    ensures mode != Socket ==> |steps| == 1 && steps[0].InjectEnvStep? && steps[0].env.name == AgentHostEnvVarName
    ensures mode == Socket ==>
      && |steps| == 3
      && steps[0].InjectVolumeStep? && steps[0].volume.hostPath == w.socketPath
      && steps[1] == InjectEnvStep(EnvVar(TraceUrlEnvVarName, w.traceAgentSocket, None))
      && steps[2] == InjectEnvStep(EnvVar(DogstatsdUrlEnvVarName, w.dogstatsdSocket, None))
  {
    if mode == HostIp then [InjectEnvStep(AgentHostIpEnvVar)]
    else if mode == Service then [InjectEnvStep(AgentHostServiceEnvVar(w))]
    else
      var (v, m) := BuildVolume(DatadogVolumeName, w.socketPath, true);
      [InjectVolumeStep(v, m),
       InjectEnvStep(EnvVar(TraceUrlEnvVarName, w.traceAgentSocket, None)),
       InjectEnvStep(EnvVar(DogstatsdUrlEnvVarName, w.dogstatsdSocket, None))]
  }

  /** The mutations every valid mode attempts afterwards: the entity ID, the
      External Data variable and the pod UID. */
  const CommonSteps: seq<Step> := [InjectEnvStep(DefaultDdEntityIdEnvVar), InjectExternalEnvStep, InjectEnvStep(PodUidEnvVar)]

  function ApplyStep(inj: Injectors, pod: Pod, s: Step): (Pod, bool) {
    match s
    case InjectEnvStep(e) => inj.injectEnv(pod, e)
    case InjectVolumeStep(v, m) => inj.injectVolume(pod, v, m)
    case InjectExternalEnvStep => inj.injectDynamicEnv(pod, BuildExternalEnv)
  }

  /** Apply every step in order; the result says whether any changed the pod. */
  function ApplySteps(inj: Injectors, pod: Pod, steps: seq<Step>): (Pod, bool)
    decreases |steps|
  {
    if |steps| == 0 then (pod, false)
    else
      var (p1, b1) := ApplyStep(inj, pod, steps[0]);
      var (p2, b2) := ApplySteps(inj, p1, steps[1..]);
      (p2, b1 || b2)
  }

  /** Applying two lists in a row is applying their concatenation. */
  lemma {:induction false} ApplyStepsAppend(inj: Injectors, pod: Pod, xs: seq<Step>, ys: seq<Step>)
    ensures var (p1, b1) := ApplySteps(inj, pod, xs);
      var (p2, b2) := ApplySteps(inj, p1, ys);
      ApplySteps(inj, pod, xs + ys) == (p2, b1 || b2)
    decreases |xs|
  {
    if |xs| > 0 {
      assert (xs + ys)[1..] == xs[1..] + ys;
      ApplyStepsAppend(inj, ApplyStep(inj, pod, xs[0]).0, xs[1..], ys);
    } else {
      assert xs + ys == ys;
    }
  }

  datatype Outcome = Outcome(pod: Option<Pod>, injected: bool, err: Option<string>)

  /** `inject`. */
  function Inject(w: Webhook, inj: Injectors, pod: Option<Pod>): (r: Outcome)
    ensures pod.None? ==> r == Outcome(None, false, Some(InvalidInput))
    ensures pod.Some? && !w.shouldMutatePod(pod.value) ==> r == Outcome(pod, false, None)
    ensures pod.Some? && w.shouldMutatePod(pod.value) && !ValidMode(InjectionMode(pod.value, w.mode)) ==>
      r == Outcome(pod, false, Some(InvalidInput))
    ensures pod.Some? && w.shouldMutatePod(pod.value) && ValidMode(InjectionMode(pod.value, w.mode)) ==>
      r.err.None? && r.pod.Some?
  {
    if pod.None? then Outcome(None, false, Some(InvalidInput))
    else if !w.shouldMutatePod(pod.value) then Outcome(pod, false, None)
    else
      var p := pod.value;
      var mode := InjectionMode(p, w.mode);
      var (p1, injectedConfig) :=
        if mode == HostIp then inj.injectEnv(p, AgentHostIpEnvVar)
        else if mode == Service then inj.injectEnv(p, AgentHostServiceEnvVar(w))
        else if mode == Socket then
          var (v, m) := BuildVolume(DatadogVolumeName, w.socketPath, true);
          var (q1, injectedVol) := inj.injectVolume(p, v, m);
          var (q2, injectedEnv) := inj.injectEnv(q1, EnvVar(TraceUrlEnvVarName, w.traceAgentSocket, None));
          var (q3, injectedEnv') := inj.injectEnv(q2, EnvVar(DogstatsdUrlEnvVarName, w.dogstatsdSocket, None));
          (q3, (injectedEnv' || injectedEnv) || injectedVol)
        else (p, false);
      if !ValidMode(mode) then Outcome(pod, false, Some(InvalidInput))
      else
        var (p2, injectedEntity) := inj.injectEnv(p1, DefaultDdEntityIdEnvVar);
        var (p3, injectedDynamic) := inj.injectDynamicEnv(p2, BuildExternalEnv);
        var (p4, injectedUid) := inj.injectEnv(p3, PodUidEnvVar);
        var injectedExternalEnv := injectedUid || injectedDynamic;
        Outcome(Some(p4), injectedConfig || injectedEntity || injectedExternalEnv, None)
  }

  /** A mutable pod with a valid mode goes through the mode's mutations and
      then the common ones, each attempted once and in order, and is reported
      injected exactly when one of them changed it. */
  lemma InjectFollowsSteps(w: Webhook, inj: Injectors, pod: Pod)
    requires w.shouldMutatePod(pod) && ValidMode(InjectionMode(pod, w.mode))
    ensures var (p, b) := ApplySteps(inj, pod, ModeSteps(w, InjectionMode(pod, w.mode)) + CommonSteps);
      Inject(w, inj, Some(pod)) == Outcome(Some(p), b, None)
  {
    var mode := InjectionMode(pod, w.mode);
    var own := ModeSteps(w, mode);
    ApplyStepsAppend(inj, pod, own, CommonSteps);
    if mode == Socket {
      ApplyThree(inj, pod, own[0], own[1], own[2]);
      assert own == [own[0], own[1], own[2]];
    } else {
      ApplyOne(inj, pod, own[0]);
      assert own == [own[0]];
    }
    ApplyThree(inj, ApplySteps(inj, pod, own).0, CommonSteps[0], CommonSteps[1], CommonSteps[2]);
  }

  lemma ApplyOne(inj: Injectors, pod: Pod, s0: Step)
    ensures ApplySteps(inj, pod, [s0]) == ApplyStep(inj, pod, s0)
  {
    assert [s0][1..] == [];
  }

  lemma ApplyThree(inj: Injectors, pod: Pod, s0: Step, s1: Step, s2: Step)
    ensures var (q1, b1) := ApplyStep(inj, pod, s0);
      var (q2, b2) := ApplyStep(inj, q1, s1);
      var (q3, b3) := ApplyStep(inj, q2, s2);
      ApplySteps(inj, pod, [s0, s1, s2]) == (q3, b1 || b2 || b3)
  {
    var (q1, b1) := ApplyStep(inj, pod, s0);
    var (q2, b2) := ApplyStep(inj, q1, s1);
    ApplyOne(inj, q2, s2);
    ApplyCons(inj, q1, s1, [s2]);
    assert [s1] + [s2] == [s1, s2];
    ApplyCons(inj, pod, s0, [s1, s2]);
    assert [s0] + [s1, s2] == [s0, s1, s2];
  }

  lemma ApplyCons(inj: Injectors, pod: Pod, s0: Step, rest: seq<Step>)
    ensures var (q1, b1) := ApplyStep(inj, pod, s0);
      var (q2, b2) := ApplySteps(inj, q1, rest);
      ApplySteps(inj, pod, [s0] + rest) == (q2, b1 || b2)
  {
    assert ([s0] + rest)[0] == s0;
    assert ([s0] + rest)[1..] == rest;
  }

  /** In socket mode the volume and both socket variables are always
      attempted, and any of the three counts as injected. */
  lemma SocketModeAttemptsAll(w: Webhook, inj: Injectors, pod: Pod)
    requires w.shouldMutatePod(pod) && InjectionMode(pod, w.mode) == Socket
    ensures var (v, m) := BuildVolume(DatadogVolumeName, w.socketPath, true);
      var (q1, injectedVol) := inj.injectVolume(pod, v, m);
      var (q2, injectedTrace) := inj.injectEnv(q1, EnvVar(TraceUrlEnvVarName, w.traceAgentSocket, None));
      var (q3, injectedStatsd) := inj.injectEnv(q2, EnvVar(DogstatsdUrlEnvVarName, w.dogstatsdSocket, None));
      (injectedVol || injectedTrace || injectedStatsd) ==> Inject(w, inj, Some(pod)).injected
  {
  }

  /** A pod nothing can change is reported as not injected. */
  lemma NothingChangedNotInjected(w: Webhook, inj: Injectors, pod: Pod)
    requires forall p: Pod, e: EnvVar :: !inj.injectEnv(p, e).1
    requires forall p: Pod, v: Volume, m: VolumeMount :: !inj.injectVolume(p, v, m).1
    requires forall p: Pod :: !inj.injectDynamicEnv(p, BuildExternalEnv).1
    ensures !Inject(w, inj, Some(pod)).injected
  {
  }
}

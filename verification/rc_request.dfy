/** Remote-configuration requests for APM instrumentation of a Kubernetes
    cluster (pkg/clusteragent/admission/mutate/autoinstrumentation/rc_request.go). */
module RcRequest {
  import opened Wrappers

  datatype Action = StageConfig | EnableConfig | DisableConfig | UnknownAction(name: string)

  datatype LibConfig = LibConfig(language: string, version: string, env: Option<string>)

  /** One cluster named by a request; JSON-omitted fields are `None`. */
  datatype K8sClusterTarget = K8sClusterTarget(
    clusterName: string,
    enabled: Option<bool>,
    enabledNamespaces: Option<seq<string>>)

  datatype K8sTargetV2 = K8sTargetV2(clusterTargets: seq<K8sClusterTarget>)

  datatype Request = Request(
    id: string,
    revision: int,
    rcVersion: nat,
    schemaVersion: string,
    action: Action,
    libConfig: LibConfig,
    k8sTargetV2: Option<K8sTargetV2>)

  /** `Request.Validate`: the library language, then its version, must be
      given; the cluster name plays no part. */
  function Validate(req: Request, clusterName: string): (err: Option<string>)
    ensures req.libConfig.language == "" ==> err == Some("library language is empty")
    ensures req.libConfig.language != "" && req.libConfig.version == "" ==>
      err == Some("library version is empty")
    ensures err == None <==> req.libConfig.language != "" && req.libConfig.version != ""
  {
    if req.libConfig.language == "" then Some("library language is empty")
    else if req.libConfig.version == "" then Some("library version is empty")
    else None
  }

  /** Validation never depends on which cluster asks. */
  lemma ValidateIgnoresCluster(req: Request, a: string, b: string)
    ensures Validate(req, a) == Validate(req, b)
  {
  }
}

/** `validateRequest`: the checks a `ClientGetConfigs` request must pass
    before the service looks at its store (pkg/config/remote/service/service.go). */
module RcServiceValidation {
  import opened Wrappers
  import opened RcServiceTypes

  /** Each check of `validateRequest`, in the order it is made; all are
      reported to the caller as InvalidArgument. */
  datatype ValidationError =
    | ClientMissing
    | StateMissing
    | RootVersionZero
    | AgentPayloadMissing
    | TracerPayloadMissing
    | UpdaterPayloadMissing
    | RolesNotExclusive
    | NoRole
    | IdMissing
    | TracerCarriesAgent
    | TracerIdIsRuntimeId
    | TracerLanguageMissing
    | AgentCarriesTracer
    | CachedPathMissing(fileIndex: nat)
    | CachedPathInvalid(fileIndex: nat, reason: string)
    | CachedLengthInvalid(fileIndex: nat)
    | CachedHashesMissing(fileIndex: nat)
    | CachedAlgorithmMissing(fileIndex: nat, hashIndex: nat)
    | CachedHashMissing(fileIndex: nat, hashIndex: nat)

  /** The errors that concern one cached file rather than the client. */
  predicate CachedFileError(e: ValidationError) {
    e.CachedPathMissing? || e.CachedPathInvalid? || e.CachedLengthInvalid?
    || e.CachedHashesMissing? || e.CachedAlgorithmMissing? || e.CachedHashMissing?
  }

  // ---------------------------------------------------------------------
  // Reference definition of a well-formed request
  // ---------------------------------------------------------------------

  predicate ExactlyOneRole(c: Client) {
    (if c.isTracer then 1 else 0) + (if c.isAgent then 1 else 0) + (if c.isUpdater then 1 else 0) == 1
  }

  /** A cached length the check accepts: as written only 0 is refused,
      `strict` refuses every length below 1. */
  predicate LengthAccepted(length: int, strict: bool) {
    if strict then length >= 1 else length != 0
  }

  predicate CachedFileWellFormed(f: TargetFileMeta, parse: string -> Result<ConfigPath, string>, strict: bool) {
    && f.path != ""
    && parse(f.path).Success?
    && LengthAccepted(f.length, strict)
    && |f.hashes| > 0
    && forall h :: 0 <= h < |f.hashes| ==> f.hashes[h].algorithm != "" && f.hashes[h].hash != ""
  }

  predicate ClientWellFormed(c: Client) {
    && c.state.Some?
    && c.state.value.rootVersion >= 1
    && ExactlyOneRole(c)
    && c.id != ""
    && (c.isTracer ==>
          && c.clientTracer.Some?
          && c.clientAgent.None?
          && c.id != c.clientTracer.value.runtimeId
          && c.clientTracer.value.language != "")
    && (c.isAgent ==> c.clientAgent.Some? && c.clientTracer.None?)
    && (c.isUpdater ==> c.clientUpdater.Some?)
  }

  predicate WellFormed(req: GetConfigsRequest, parse: string -> Result<ConfigPath, string>, strict: bool) {
    && req.client.Some?
    && ClientWellFormed(req.client.value)
    && forall i :: 0 <= i < |req.cachedTargetFiles| ==>
         CachedFileWellFormed(req.cachedTargetFiles[i], parse, strict)
  }

  // ---------------------------------------------------------------------
  // The checks as the source makes them
  // ---------------------------------------------------------------------

  /** The hash loop at lines 906-913, from hash `from` on. */
  function CheckHashes(hashes: seq<TargetFileHash>, fileIndex: nat, from: nat): (err: Option<ValidationError>)
    requires from <= |hashes|
    ensures err.None? <==> forall h :: from <= h < |hashes| ==> hashes[h].algorithm != "" && hashes[h].hash != ""
    ensures err.Some? ==> err.value.CachedAlgorithmMissing? || err.value.CachedHashMissing?
    decreases |hashes| - from
  {
    if from == |hashes| then None
    else if hashes[from].algorithm == "" then Some(CachedAlgorithmMissing(fileIndex, from))
    else if |hashes[from].hash| == 0 then Some(CachedHashMissing(fileIndex, from))
    else CheckHashes(hashes, fileIndex, from + 1)
  }

  function CheckCachedFile(f: TargetFileMeta, i: nat, parse: string -> Result<ConfigPath, string>, strict: bool): (err: Option<ValidationError>)
    ensures err.None? <==> CachedFileWellFormed(f, parse, strict)
    ensures err.Some? ==> CachedFileError(err.value)
  {
    if f.path == "" then Some(CachedPathMissing(i))
    else if parse(f.path).Failure? then Some(CachedPathInvalid(i, parse(f.path).error))
    else if !LengthAccepted(f.length, strict) then Some(CachedLengthInvalid(i))
    else if |f.hashes| == 0 then Some(CachedHashesMissing(i))
    else CheckHashes(f.hashes, i, 0)
  }

  /** The loop at lines 892-914, from file `from` on. */
  function CheckCachedFiles(files: seq<TargetFileMeta>, parse: string -> Result<ConfigPath, string>, strict: bool, from: nat): (err: Option<ValidationError>)
    requires from <= |files|
    ensures err.None? <==> forall i :: from <= i < |files| ==> CachedFileWellFormed(files[i], parse, strict)
    ensures err.Some? ==> CachedFileError(err.value)
    decreases |files| - from
  {
    if from == |files| then None
    else
      var e := CheckCachedFile(files[from], from, parse, strict);
      if e.Some? then e else CheckCachedFiles(files, parse, strict, from + 1)
  }

  function CheckClient(c: Client): (err: Option<ValidationError>)
    ensures err.None? <==> ClientWellFormed(c)
  {
    if c.state.None? then Some(StateMissing)
    else if c.state.value.rootVersion == 0 then Some(RootVersionZero)
    else if c.isAgent && c.clientAgent.None? then Some(AgentPayloadMissing)
    else if c.isTracer && c.clientTracer.None? then Some(TracerPayloadMissing)
    else if c.isUpdater && c.clientUpdater.None? then Some(UpdaterPayloadMissing)
    else if (c.isTracer && c.isAgent) || (c.isTracer && c.isUpdater) || (c.isAgent && c.isUpdater) then Some(RolesNotExclusive)
    else if !c.isTracer && !c.isAgent && !c.isUpdater then Some(NoRole)
    else if c.id == "" then Some(IdMissing)
    // The payload checks at lines 861-863 and 882-884 repeat those at
    // 843-849 and cannot fail here.
    else if c.isTracer && c.clientAgent.Some? then Some(TracerCarriesAgent)
    else if c.isTracer && c.id == c.clientTracer.value.runtimeId then Some(TracerIdIsRuntimeId)
    else if c.isTracer && c.clientTracer.value.language == "" then Some(TracerLanguageMissing)
    else if c.isAgent && c.clientTracer.Some? then Some(AgentCarriesTracer)
    else None
  }

  function Check(req: GetConfigsRequest, parse: string -> Result<ConfigPath, string>, strict: bool): (err: Option<ValidationError>)
    ensures err.None? <==> WellFormed(req, parse, strict)
  {
    if req.client.None? then Some(ClientMissing)
    else
      var e := CheckClient(req.client.value);
      if e.Some? then e else CheckCachedFiles(req.cachedTargetFiles, parse, strict, 0)
  }

  /** `validateRequest` as written: a request passes exactly when it is well
      formed, and the first failed check names the error. */
  function ValidateRequest(req: GetConfigsRequest, parse: string -> Result<ConfigPath, string>): (err: Option<ValidationError>)
    ensures err.None? <==> WellFormed(req, parse, false)
    ensures req.client.None? ==> err == Some(ClientMissing)
    ensures req.client.Some? && req.client.value.state.None? ==> err == Some(StateMissing)
    ensures req.client.Some? && req.client.value.state.Some? && req.client.value.state.value.rootVersion == 0 ==>
      err == Some(RootVersionZero)
    ensures req.client.Some? && req.client.value.id == "" ==> err.Some?
    ensures req.client.Some? && !ExactlyOneRole(req.client.value) ==> err.Some?
    ensures err.Some? && req.client.Some? && ClientWellFormed(req.client.value) ==> CachedFileError(err.value)
  {
    Check(req, parse, false)
  }

  /** `validateRequest` with the length check the error message states:
      every cached length must be at least 1. */
  function ValidateRequestCorrected(req: GetConfigsRequest, parse: string -> Result<ConfigPath, string>): (err: Option<ValidationError>)
    ensures err.None? <==> WellFormed(req, parse, true)
    ensures err.None? ==> forall i :: 0 <= i < |req.cachedTargetFiles| ==> req.cachedTargetFiles[i].length >= 1
  {
    Check(req, parse, true)
  }

  /** A tracer request caching one file with length -1, which the check as
      written lets through. */
  function NegativeLengthRequest(): GetConfigsRequest {
    GetConfigsRequest(
      Some(Client("client-1", Some(ClientState(1, 0)), ["APM_TRACING"], true, false, false,
                  Some(ClientTracer("runtime-1", "go")), None, None)),
      [TargetFileMeta("datadog/2/APM_TRACING/id/config", -1, [TargetFileHash("sha256", "ab")])])
  }

  lemma NegativeLengthAccepted(parse: string -> Result<ConfigPath, string>)
    requires parse("datadog/2/APM_TRACING/id/config").Success?
    ensures ValidateRequest(NegativeLengthRequest(), parse).None?
    ensures ValidateRequestCorrected(NegativeLengthRequest(), parse) == Some(CachedLengthInvalid(0))
  {
    var req := NegativeLengthRequest();
    assert ClientWellFormed(req.client.value);
    assert CachedFileWellFormed(req.cachedTargetFiles[0], parse, false);
  }
}

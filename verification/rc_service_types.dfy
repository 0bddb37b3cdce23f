/** The data the remote-configuration distribution service exchanges with its
    clients and reads from its verified TUF store
    (pkg/config/remote/service/service.go). Protobuf messages become
    datatypes; optional sub-messages are `Option`s. */
module RcServiceTypes {
  import opened Wrappers

  const MaxUint64: int := 0xffff_ffff_ffff_ffff

  predicate IsUint64(x: int) { 0 <= x <= MaxUint64 }

  datatype ClientTracer = ClientTracer(runtimeId: string, language: string)
  datatype ClientAgent = ClientAgent(name: string, version: string)
  datatype ClientUpdater = ClientUpdater(tags: seq<string>)

  /** `client.state`: the TUF versions the client already holds. */
  datatype ClientState = ClientState(rootVersion: nat, targetsVersion: nat)

  datatype Client = Client(
    id: string,
    state: Option<ClientState>,
    products: seq<string>,
    isTracer: bool,
    isAgent: bool,
    isUpdater: bool,
    clientTracer: Option<ClientTracer>,
    clientAgent: Option<ClientAgent>,
    clientUpdater: Option<ClientUpdater>)

  datatype TargetFileHash = TargetFileHash(algorithm: string, hash: string)

  /** A file the client reports as cached; `length` is a signed 64-bit field. */
  datatype TargetFileMeta = TargetFileMeta(path: string, length: int, hashes: seq<TargetFileHash>)

  datatype GetConfigsRequest = GetConfigsRequest(client: Option<Client>, cachedTargetFiles: seq<TargetFileMeta>)

  /** `data.FileMeta`: decoded hashes by algorithm, and a length. */
  datatype FileMeta = FileMeta(hashes: map<string, Bytes>, length: int)

  /** The zero `FileMeta` a missing map entry reads as. */
  const ZeroMeta: FileMeta := FileMeta(map[], 0)

  /** One target of the director repository, in the store's iteration order. */
  datatype Target = Target(path: string, meta: FileMeta)

  datatype File = File(path: string, raw: Bytes)

  /** What `rdata.ParseConfigPath` extracts from a path. */
  datatype ConfigPath = ConfigPath(product: string, configID: string)

  datatype TufVersions = TufVersions(directorRoot: nat, directorTargets: nat, configRoot: nat, configSnapshot: nat)

  const EmptyTufVersions: TufVersions := TufVersions(0, 0, 0, 0)

  datatype GetConfigsResponse = GetConfigsResponse(
    roots: seq<Bytes>,
    targets: Bytes,
    targetFiles: seq<File>,
    clientConfigs: seq<string>)

  const EmptyResponse: GetConfigsResponse := GetConfigsResponse([], [], [], [])

  /** The verified store (`uptaneClient`) and the other collaborators whose
      code is not part of this model, as the values and functions they
      return. Errors are strings. */
  datatype Store = Store(
    tufVersionState: Result<TufVersions, string>,
    directorRoot: nat -> Result<Bytes, string>,
    targetsMeta: Result<Bytes, string>,
    targets: Result<seq<Target>, string>,
    targetFile: string -> Result<Bytes, string>)

  datatype Collaborators = Collaborators(
    parseConfigPath: string -> Result<ConfigPath, string>,
    fileMetaEqual: (FileMeta, FileMeta) -> bool,
    decodeHex: string -> Result<Bytes, string>,
    canonicalJSON: Bytes -> Result<Bytes, string>,
    executeTracerPredicates: (Client, seq<Target>) -> Result<seq<string>, string>)
}

/** The service's periodic refresh against the backend and its configuration
    options: which products are pending, when the previous TUF state is
    withheld, how errors move the backoff counters, and the ranges the
    options and the backend's refresh interval are clamped to
    (pkg/config/remote/service/service.go). Durations are nanoseconds, as
    Go's `time.Duration`. */
module RcServiceRefresh {
  import opened Wrappers
  import opened RcServiceTypes

  const Second: int := 1_000_000_000
  const Minute: int := 60 * Second

  const DefaultRefreshInterval: int := Minute
  const MinimalRefreshInterval: int := 5 * Second
  const DefaultClientsTTL: int := 30 * Second
  const MaxClientsTTL: int := Minute
  const DefaultCacheBypassLimit: int := 5
  const MinCacheBypassLimit: int := 1
  const MaxCacheBypassLimit: int := 10
  const MinimalMaxBackoffTime: int := 2 * Minute
  const MaximalMaxBackoffTime: int := 5 * Minute
  const InitialFetchErrorLog: nat := 5

  // ---------------------------------------------------------------------
  // Option validators
  // ---------------------------------------------------------------------

  datatype RefreshOption = RefreshOption(refresh: int, overrideAllowed: bool)

  /** `WithRefreshInterval`: an interval below 5s is replaced by the 1m
      default, and only then may the backend override it. */
  function WithRefreshInterval(interval: int): (o: RefreshOption)
    ensures o.refresh >= MinimalRefreshInterval
    ensures o.overrideAllowed <==> interval < MinimalRefreshInterval
    ensures interval >= MinimalRefreshInterval ==> o.refresh == interval
  {
    if interval < MinimalRefreshInterval then RefreshOption(DefaultRefreshInterval, true)
    else RefreshOption(interval, false)
  }

  /** `WithMaxBackoffInterval`: clamp to [2m, 5m]. */
  function WithMaxBackoffInterval(interval: int): (b: int)
    ensures MinimalMaxBackoffTime <= b <= MaximalMaxBackoffTime
    ensures MinimalMaxBackoffTime <= interval <= MaximalMaxBackoffTime ==> b == interval
    ensures interval < MinimalMaxBackoffTime ==> b == MinimalMaxBackoffTime
    ensures interval > MaximalMaxBackoffTime ==> b == MaximalMaxBackoffTime
  {
    if interval < MinimalMaxBackoffTime then MinimalMaxBackoffTime
    else if interval > MaximalMaxBackoffTime then MaximalMaxBackoffTime
    else interval
  }

  /** `WithClientCacheBypassLimit`: a limit outside [1, 10] becomes 5. */
  function WithClientCacheBypassLimit(limit: int): (l: int)
    ensures MinCacheBypassLimit <= l <= MaxCacheBypassLimit
    ensures MinCacheBypassLimit <= limit <= MaxCacheBypassLimit ==> l == limit
    ensures !(MinCacheBypassLimit <= limit <= MaxCacheBypassLimit) ==> l == DefaultCacheBypassLimit
  {
    if limit < MinCacheBypassLimit || limit > MaxCacheBypassLimit then DefaultCacheBypassLimit else limit
  }

  /** `WithClientTTL`: a TTL outside [5s, 60s] becomes 30s. */
  function WithClientTTL(interval: int): (t: int)
    ensures MinimalRefreshInterval <= t <= MaxClientsTTL
    ensures MinimalRefreshInterval <= interval <= MaxClientsTTL ==> t == interval
    ensures !(MinimalRefreshInterval <= interval <= MaxClientsTTL) ==> t == DefaultClientsTTL
  {
    if interval < MinimalRefreshInterval || interval > MaxClientsTTL then DefaultClientsTTL else interval
  }

  /** Every validator is a projection: validating an already validated value
      changes nothing. */
  lemma OptionsIdempotent(interval: int, limit: int)
    ensures WithRefreshInterval(WithRefreshInterval(interval).refresh).refresh == WithRefreshInterval(interval).refresh
    ensures WithMaxBackoffInterval(WithMaxBackoffInterval(interval)) == WithMaxBackoffInterval(interval)
    ensures WithClientCacheBypassLimit(WithClientCacheBypassLimit(limit)) == WithClientCacheBypassLimit(limit)
    ensures WithClientTTL(WithClientTTL(interval)) == WithClientTTL(interval)
  {
  }

  // ---------------------------------------------------------------------
  // The backend's refresh interval
  // ---------------------------------------------------------------------

  /** `getRefreshInterval` as written: `time.Second * time.Duration(x)` is an
      int64 product that wraps before the [1s, 1m] check. */
  function RefreshIntervalAsWritten(custom: Result<int, string>): (r: Result<int, string>)
    requires custom.Success? ==> IsInt64(custom.value)
    ensures custom.Failure? ==> r == Failure(custom.error)
    ensures r.Success? ==> r.value == 0 || Second <= r.value <= Minute
  {
    var x :- custom;
    var value := WrapInt64(Second * x);
    if value < Second || value > Minute then Success(0) else Success(value)
  }

  /** `getRefreshInterval` as evidently intended: the backend's interval is
      accepted only when it is between 1 and 60 seconds. */
  function RefreshIntervalCorrected(custom: Result<int, string>): (r: Result<int, string>)
    ensures custom.Failure? ==> r == Failure(custom.error)
    ensures custom.Success? ==> r.Success?
    ensures r.Success? && r.value != 0 ==> 1 <= custom.value <= 60 && r.value == custom.value * Second
    ensures custom.Success? && 1 <= custom.value <= 60 ==> r == Success(custom.value * Second)
  {
    var x :- custom;
    if x < 1 || x > 60 then Success(0) else Success(x * Second)
  }

  /** Both agree on every interval whose product does not overflow. */
  lemma RefreshIntervalAgreesWithoutOverflow(x: int)
    requires IsInt64(Second * x)
    ensures RefreshIntervalAsWritten(Success(x)) == RefreshIntervalCorrected(Success(x))
  {
  }

  /** An advertised interval of 2^55 + 30 seconds wraps to 30 seconds and is
      accepted as written. */
  lemma OverflowingIntervalAccepted()
    ensures RefreshIntervalAsWritten(Success(0x80_0000_0000_0000 + 30)) == Success(30 * Second)
    ensures RefreshIntervalCorrected(Success(0x80_0000_0000_0000 + 30)) == Success(0)
  {
    var x := 0x80_0000_0000_0000 + 30;
    assert Second * x == 1953125 * TwoTo64 + 30 * Second;
    assert WrapInt64(Second * x) == 30 * Second;
  }

  // ---------------------------------------------------------------------
  // refresh
  // ---------------------------------------------------------------------

  /** `backoff.Policy`: opaque counters and durations. */
  datatype BackoffPolicy = BackoffPolicy(
    getBackoffDuration: nat -> int,
    incError: nat -> nat,
    decError: nat -> nat)

  /** `calculateRefreshInterval`: the base interval plus the backoff for the
      current error count. */
  function CalculateRefreshInterval(policy: BackoffPolicy, defaultRefreshInterval: int, backoffErrorCount: nat): (d: int)
    ensures policy.getBackoffDuration(backoffErrorCount) >= 0 ==> d >= defaultRefreshInterval
    ensures d - defaultRefreshInterval == policy.getBackoffDuration(backoffErrorCount)
  {
    defaultRefreshInterval + policy.getBackoffDuration(backoffErrorCount)
  }

  /** An error from `api.Fetch`; the two kinds the source singles out are
      named. */
  datatype FetchError = Unauthorized | ProxyError | OtherFetchError(message: string)

  function FetchErrorText(e: FetchError): string {
    match e
    case Unauthorized => "unauthorized"
    case ProxyError => "proxy error"
    case OtherFetchError(m) => m
  }

  predicate Expected(e: FetchError) { e.Unauthorized? || e.ProxyError? }

  datatype Service = Service(
    products: set<string>,
    newProducts: set<string>,
    firstUpdate: bool,
    backoffErrorCount: nat,
    fetchErrorCount: nat,
    lastFetchErrorType: Option<FetchError>,
    lastUpdateErr: Option<string>,
    defaultRefreshInterval: int,
    bypassWindow: int,
    refreshIntervalOverrideAllowed: bool)

  /** The parts of the latest-configs request that the state decides. */
  datatype LatestConfigsRequest = LatestConfigsRequest(
    previousState: TufVersions,
    products: set<string>,
    newProducts: set<string>,
    lastUpdateErr: Option<string>,
    orgUUID: string)

  /** What the collaborators answer during one refresh: the active clients'
      products, the stored TUF state, the org UUID, the fetch outcome, the
      outcome of applying the response, and the backend refresh interval
      found in the updated targets. */
  datatype World = World(
    activeClientProducts: seq<seq<string>>,
    tufVersionState: Result<TufVersions, string>,
    storedOrgUUID: Result<string, string>,
    fetch: Result<(), FetchError>,
    update: Result<(), string>,
    agentRefreshInterval: Result<int, string>)

  datatype RefreshError = OrgUUIDError(message: string) | FetchFailed(fetchError: FetchError) | UpdateFailed(message: string)

  datatype Refreshed = Refreshed(service: Service, err: Option<RefreshError>, request: Option<LatestConfigsRequest>)

  /** `refreshProducts`: every product of an active client that is not yet
      confirmed becomes pending. */
  function RefreshProducts(products: set<string>, newProducts: set<string>, clients: seq<seq<string>>): (r: set<string>)
    ensures newProducts <= r
    ensures forall p :: p in r <==> p in newProducts || (p !in products && exists c :: 0 <= c < |clients| && p in clients[c])
    decreases |clients|
  {
    if |clients| == 0 then newProducts
    else
      var added := set p | p in clients[0] && p !in products;
      assert forall c :: 1 <= c < |clients| ==> clients[1..][c - 1] == clients[c];
      RefreshProducts(products, newProducts + added, clients[1..])
  }

  /** The fetch-error branch at lines 534-554. */
  function OnFetchError(s: Service, policy: BackoffPolicy, e: FetchError): (r: (Service, Option<RefreshError>))
  {
    var s1 := s.(backoffErrorCount := policy.incError(s.backoffErrorCount),
                 lastUpdateErr := Some("api: " + FetchErrorText(e)));
    var s2 := if s1.lastFetchErrorType != Some(e) then s1.(lastFetchErrorType := Some(e), fetchErrorCount := 0) else s1;
    if Expected(e) then
      if s2.fetchErrorCount < InitialFetchErrorLog then (s2.(fetchErrorCount := s2.fetchErrorCount + 1), Some(FetchFailed(e)))
      else (s2, None)
    else (s2, Some(FetchFailed(e)))
  }

  /** `refresh`, with the backend interval read through `getRefreshInterval`
      as written, on the int64 value the backend answered. */
  function Refresh(s: Service, policy: BackoffPolicy, w: World): (r: Refreshed)
    // Pending products only ever hold products not yet confirmed.
    ensures s.products !! s.newProducts ==> r.service.products !! r.service.newProducts
    // Confirmed products never shrink.
    ensures s.products <= r.service.products
    // The first update, or an unreadable TUF state, sends an empty previous state.
    ensures r.request.Some? && (s.firstUpdate || w.tufVersionState.Failure?) ==>
      r.request.value.previousState == EmptyTufVersions
    ensures r.request.Some? && !s.firstUpdate && w.tufVersionState.Success? ==>
      r.request.value.previousState == w.tufVersionState.value
    // Without an org UUID nothing is sent, but the products were refreshed.
    ensures w.storedOrgUUID.Failure? ==>
      && r.request.None? && r.err == Some(OrgUUIDError(w.storedOrgUUID.error))
      && r.service == s.(newProducts := RefreshProducts(s.products, s.newProducts, w.activeClientProducts))
    // The request carries the confirmed and pending products and the last update error.
    ensures w.storedOrgUUID.Success? ==>
      && r.request.Some?
      && r.request.value.products == s.products
      && r.request.value.newProducts == RefreshProducts(s.products, s.newProducts, w.activeClientProducts)
      && r.request.value.lastUpdateErr == s.lastUpdateErr
      && r.request.value.orgUUID == w.storedOrgUUID.value
    // The error of a failed fetch or update is reported on the next request.
    ensures w.storedOrgUUID.Success? && w.fetch.Failure? ==>
      r.service.lastUpdateErr == Some("api: " + FetchErrorText(w.fetch.error))
    ensures w.storedOrgUUID.Success? && w.fetch.Success? && w.update.Failure? ==>
      r.service.lastUpdateErr == Some("tuf: " + w.update.error) && r.err == Some(UpdateFailed(w.update.error))
    // A failed fetch or update raises the backoff counter and confirms nothing.
    ensures w.storedOrgUUID.Success? && (w.fetch.Failure? || w.update.Failure?) ==>
      && r.service.backoffErrorCount == policy.incError(s.backoffErrorCount)
      && r.service.products == s.products
      && r.service.firstUpdate == s.firstUpdate
      && r.service.newProducts == RefreshProducts(s.products, s.newProducts, w.activeClientProducts)
    // A successful update confirms every pending product and lowers the backoff counter.
    ensures w.storedOrgUUID.Success? && w.fetch.Success? && w.update.Success? ==>
      && r.err.None?
      && r.service.products == s.products + RefreshProducts(s.products, s.newProducts, w.activeClientProducts)
      && r.service.newProducts == {}
      && !r.service.firstUpdate
      && r.service.fetchErrorCount == 0
      && r.service.lastUpdateErr.None?
      && r.service.backoffErrorCount == policy.decError(s.backoffErrorCount)
  {
    var newProducts := RefreshProducts(s.products, s.newProducts, w.activeClientProducts);
    var s0 := s.(newProducts := newProducts);
    var previousState :=
      if s0.firstUpdate || w.tufVersionState.Failure? then EmptyTufVersions else w.tufVersionState.value;
    if w.storedOrgUUID.Failure? then Refreshed(s0, Some(OrgUUIDError(w.storedOrgUUID.error)), None)
    else
      var request := LatestConfigsRequest(previousState, s0.products, s0.newProducts, s0.lastUpdateErr, w.storedOrgUUID.value);
      var s1 := s0.(lastUpdateErr := None);
      if w.fetch.Failure? then
        var (s2, err) := OnFetchError(s1, policy, w.fetch.error);
        Refreshed(s2, err, Some(request))
      else
        var s2 := s1.(fetchErrorCount := 0);
        if w.update.Failure? then
          Refreshed(s2.(backoffErrorCount := policy.incError(s2.backoffErrorCount),
                        lastUpdateErr := Some("tuf: " + w.update.error)),
                    Some(UpdateFailed(w.update.error)), Some(request))
        else
          // The backend value is an int64 in the source.
          var backend := match w.agentRefreshInterval
            case Success(x) => Success(WrapInt64(x))
            case Failure(e) => Failure(e);
          var ri := RefreshIntervalAsWritten(backend);
          var s3 :=
            if s2.refreshIntervalOverrideAllowed && ri.Success? && ri.value > 0 && s2.defaultRefreshInterval != ri.value
            then s2.(defaultRefreshInterval := ri.value, bypassWindow := ri.value)
            else s2;
          Refreshed(s3.(firstUpdate := false, products := s3.products + s3.newProducts, newProducts := {},
                        backoffErrorCount := policy.decError(s3.backoffErrorCount)),
                    None, Some(request))
  }

  /** The base refresh interval only moves to a backend value within
      [1s, 1m], and only when the operator left the override allowed. */
  lemma RefreshIntervalOverride(s: Service, policy: BackoffPolicy, w: World)
    ensures var r := Refresh(s, policy, w);
      r.service.defaultRefreshInterval != s.defaultRefreshInterval ==>
        && s.refreshIntervalOverrideAllowed
        && Second <= r.service.defaultRefreshInterval <= Minute
        && r.service.bypassWindow == r.service.defaultRefreshInterval
  {
  }

  /** Repeated authorization failures: while the same expected error repeats,
      the first five are reported and the ones after that are not. */
  lemma ExpectedErrorsQuieten(s: Service, policy: BackoffPolicy, w: World)
    requires w.storedOrgUUID.Success? && w.fetch.Failure? && Expected(w.fetch.error)
    requires s.lastFetchErrorType == Some(w.fetch.error)
    ensures var r := Refresh(s, policy, w);
      && r.service.lastFetchErrorType == Some(w.fetch.error)
      && (s.fetchErrorCount < InitialFetchErrorLog ==>
            r.err == Some(FetchFailed(w.fetch.error)) && r.service.fetchErrorCount == s.fetchErrorCount + 1)
      && (s.fetchErrorCount >= InitialFetchErrorLog ==>
            r.err.None? && r.service.fetchErrorCount == s.fetchErrorCount)
  {
  }

  /** A new kind of fetch error restarts the count and is reported. */
  lemma NewFetchErrorIsReported(s: Service, policy: BackoffPolicy, w: World)
    requires w.storedOrgUUID.Success? && w.fetch.Failure?
    requires s.lastFetchErrorType != Some(w.fetch.error)
    ensures var r := Refresh(s, policy, w);
      && r.err == Some(FetchFailed(w.fetch.error))
      && r.service.lastFetchErrorType == Some(w.fetch.error)
      && r.service.fetchErrorCount == (if Expected(w.fetch.error) then 1 else 0)
  {
  }

  /** Run `Refresh` `n` times in the same world. */
  function RefreshTimes(s: Service, policy: BackoffPolicy, w: World, n: nat): Service
    decreases n
  {
    if n == 0 then s else RefreshTimes(Refresh(s, policy, w).service, policy, w, n - 1)
  }

  /** After six consecutive identical authorization failures the error is no
      longer reported. */
  lemma {:induction false} QuietAfterFiveReports(s: Service, policy: BackoffPolicy, w: World, n: nat)
    requires w.storedOrgUUID.Success? && w.fetch.Failure? && Expected(w.fetch.error)
    requires s.lastFetchErrorType == Some(w.fetch.error)
    ensures RefreshTimes(s, policy, w, n).lastFetchErrorType == Some(w.fetch.error)
    ensures RefreshTimes(s, policy, w, n).fetchErrorCount ==
      if s.fetchErrorCount >= InitialFetchErrorLog then s.fetchErrorCount
      else if s.fetchErrorCount + n <= InitialFetchErrorLog then s.fetchErrorCount + n
      else InitialFetchErrorLog
    decreases n
  {
    if n > 0 {
      ExpectedErrorsQuieten(s, policy, w);
      QuietAfterFiveReports(Refresh(s, policy, w).service, policy, w, n - 1);
    }
  }
}

/** The network tracer's process cache: per pid, up to three processes with
    distinct start times, expiring two minutes after they were last added,
    with a global count checked against a maximum
    (pkg/network/tracer/process_cache.go). Times are Unix seconds; the clock
    is a parameter. Go's map iteration in `Trim` is an explicit order. */
module ProcessCache {
  import opened Wrappers
  import opened Maps

  const MaxProcessListSize: nat := 3
  const DefaultExpirySeconds: int := 120

  /** An `events.Process`. `handle` stands for the pointer's identity, which
      `processList.remove` compares. */
  datatype Process = Process(
    handle: nat,
    pid: nat,
    startTime: int,
    expiry: int,
    exited: bool,
    envs: seq<string>,
    containerId: Option<string>)

  // ---------------------------------------------------------------------
  // processEvent
  // ---------------------------------------------------------------------

  /** The name of an `NAME=value` entry: what precedes the first '='. */
  function EnvKey(e: string): (k: string)
    ensures |k| <= |e| && k == e[..|k|]
    ensures '=' !in k
    decreases |e|
  {
    if |e| == 0 || e[0] == '=' then "" else [e[0]] + EnvKey(e[1..])
  }

  /** The entries whose name is in the filter, in order. */
  function Matching(envs: seq<string>, filter: set<string>): (r: seq<string>)
    ensures |r| <= |envs|
    ensures forall i :: 0 <= i < |r| ==> EnvKey(r[i]) in filter
    decreases |envs|
  {
    if |envs| == 0 then []
    else Matching(envs[..|envs| - 1], filter)
         + (if EnvKey(envs[|envs| - 1]) in filter then [envs[|envs| - 1]] else [])
  }

  /** The entries matching in a prefix are a prefix of those matching in the whole. */
  lemma {:induction false} MatchingPrefix(envs: seq<string>, filter: set<string>, i: nat)
    requires i <= |envs|
    ensures |Matching(envs[..i], filter)| <= |Matching(envs, filter)|
    ensures Matching(envs[..i], filter) == Matching(envs, filter)[..|Matching(envs[..i], filter)|]
    decreases |envs| - i
  {
    if i < |envs| {
      MatchingPrefix(envs, filter, i + 1);
      assert envs[..i + 1][..i] == envs[..i];
    } else {
      assert envs[..i] == envs;
    }
  }

  /** The env loop of `processEvent`: with a filter, keep the matching
      entries and stop once as many are kept as the filter has names. */
  method FilterEnvs(envs: seq<string>, filter: set<string>) returns (kept: seq<string>)
    ensures |filter| == 0 ==> kept == envs
    ensures |filter| > 0 ==>
      var m := Matching(envs, filter);
      kept == if |m| <= |filter| then m else m[..|filter|]
  {
    kept := [];
    var i := 0;
    while i < |envs|
      invariant 0 <= i <= |envs|
      invariant |filter| == 0 ==> kept == envs[..i]
      invariant |filter| > 0 ==> kept == Matching(envs[..i], filter) && |kept| < |filter|
    {
      var e := envs[i];
      assert envs[..i + 1][..i] == envs[..i];
      assert envs[..i + 1][i] == e;
      if |filter| > 0 && EnvKey(e) !in filter {
        i := i + 1;
        continue;
      }
      kept := kept + [e];
      i := i + 1;
      if |filter| > 0 && |filter| == |kept| {
        MatchingPrefix(envs, filter, i);
        return;
      }
    }
    assert envs[..i] == envs;
  }

  predicate HasContainerId(p: Process) {
    p.containerId.Some? && p.containerId.value != ""
  }

  /** `processEvent`: exit events pass unchanged; otherwise the envs are
      filtered and the event is kept when it has a container ID, the filter
      is empty or some env was kept. */
  method ProcessEvent(filter: set<string>, entry: Process) returns (r: Option<Process>)
    ensures entry.exited ==> r == Some(entry)
    ensures !entry.exited ==>
      (r.Some? <==> HasContainerId(entry) || |filter| == 0 || |Matching(entry.envs, filter)| > 0)
    ensures !entry.exited && r.Some? ==>
      && r.value == entry.(envs := r.value.envs)
      && (|filter| == 0 ==> r.value.envs == entry.envs)
      && (|filter| > 0 ==> r.value.envs == Matching(entry.envs, filter)[..Min(|filter|, |Matching(entry.envs, filter)|)])
  {
    if entry.exited {
      return Some(entry);
    }
    var envs := FilterEnvs(entry.envs, filter);
    if HasContainerId(entry) || |filter| == 0 || |envs| > 0 {
      return Some(entry.(envs := envs));
    }
    return None;
  }

  function Min(a: int, b: int): int { if a <= b then a else b }

  // ---------------------------------------------------------------------
  // processList
  // ---------------------------------------------------------------------

  /** The first index holding a process with this start time. */
  function FirstWithStart(pl: seq<Process>, startTime: int): (r: Option<nat>)
    ensures r.Some? ==>
      && r.value < |pl| && pl[r.value].startTime == startTime
      && forall j :: 0 <= j < r.value ==> pl[j].startTime != startTime
    ensures r.None? ==> forall j :: 0 <= j < |pl| ==> pl[j].startTime != startTime
    decreases |pl|
  {
    if |pl| == 0 then None
    else if pl[0].startTime == startTime then Some(0)
    else match FirstWithStart(pl[1..], startTime)
      case None => None
      case Some(i) => Some(i + 1)
  }

  /** `processList.update`: a process with a known start time replaces it in
      place; otherwise it is appended, dropping the oldest when the list is
      full, and reported added only when the list was not full. */
  function Update(pl: seq<Process>, p: Process): (r: (seq<Process>, bool))
    ensures FirstWithStart(pl, p.startTime).Some? ==>
      !r.1 && r.0 == pl[FirstWithStart(pl, p.startTime).value := p]
    ensures FirstWithStart(pl, p.startTime).None? ==>
      && r.1 == (|pl| < MaxProcessListSize)
      && |r.0| >= 1 && r.0[|r.0| - 1] == p
      && r.0[..|r.0| - 1] == (if |pl| == MaxProcessListSize then pl[1..] else pl)
    ensures |pl| <= MaxProcessListSize ==> |r.0| <= MaxProcessListSize
    ensures r.1 ==> |r.0| == |pl| + 1
    ensures !r.1 && |pl| <= MaxProcessListSize ==> |r.0| == |pl|
  {
    match FirstWithStart(pl, p.startTime)
    case Some(i) => (pl[i := p], false)
    case None =>
      var added := |pl| < MaxProcessListSize;
      var base := if |pl| == MaxProcessListSize then pl[1..] else pl;
      (base + [p], added)
  }

  predicate DistinctStarts(pl: seq<Process>) {
    forall i, j :: 0 <= i < j < |pl| ==> pl[i].startTime != pl[j].startTime
  }

  /** `update` keeps the start times in a list distinct, and the updated
      process is then the one found for its start time. */
  lemma UpdateKeepsStartsDistinct(pl: seq<Process>, p: Process)
    requires DistinctStarts(pl)
    ensures DistinctStarts(Update(pl, p).0)
    ensures FirstWithStart(Update(pl, p).0, p.startTime).Some?
    ensures Update(pl, p).0[FirstWithStart(Update(pl, p).0, p.startTime).value] == p
  {
    match FirstWithStart(pl, p.startTime)
    case Some(i) =>
      ReplaceKeepsStartsDistinct(pl, i, p);
    case None =>
      var base := if |pl| == MaxProcessListSize then pl[1..] else pl;
      assert Update(pl, p).0 == base + [p];
      AppendKeepsStartsDistinct(base, p);
  }

  /** Overwriting the process with the same start time. */
  lemma ReplaceKeepsStartsDistinct(pl: seq<Process>, i: nat, p: Process)
    requires DistinctStarts(pl)
    requires i < |pl| && pl[i].startTime == p.startTime
    ensures DistinctStarts(pl[i := p])
    ensures FirstWithStart(pl[i := p], p.startTime) == Some(i)
  {
    var r := pl[i := p];
    assert forall j :: 0 <= j < |r| ==> r[j].startTime == pl[j].startTime;
    FirstWithStartOf(r, i);
  }

  /** Appending a process whose start time is new. */
  lemma AppendKeepsStartsDistinct(base: seq<Process>, p: Process)
    requires DistinctStarts(base)
    requires forall j :: 0 <= j < |base| ==> base[j].startTime != p.startTime
    ensures DistinctStarts(base + [p])
    ensures FirstWithStart(base + [p], p.startTime) == Some(|base|)
  {
    FirstWithStartOf(base + [p], |base|);
  }

  /** In a list with distinct start times, the index of a start time is its
      only position. */
  lemma FirstWithStartOf(pl: seq<Process>, i: nat)
    requires i < |pl|
    requires forall j :: 0 <= j < |pl| && j != i ==> pl[j].startTime != pl[i].startTime
    ensures FirstWithStart(pl, pl[i].startTime) == Some(i)
  {
  }

  /** The first index holding this very process. */
  function FirstWithHandle(pl: seq<Process>, handle: nat): (r: Option<nat>)
    ensures r.Some? ==>
      && r.value < |pl| && pl[r.value].handle == handle
      && forall j :: 0 <= j < r.value ==> pl[j].handle != handle
    ensures r.None? ==> forall j :: 0 <= j < |pl| ==> pl[j].handle != handle
    decreases |pl|
  {
    if |pl| == 0 then None
    else if pl[0].handle == handle then Some(0)
    else match FirstWithHandle(pl[1..], handle)
      case None => None
      case Some(i) => Some(i + 1)
  }

  /** `processList.remove`: drop the first occurrence of the process itself. */
  function RemoveFromList(pl: seq<Process>, p: Process): (r: seq<Process>)
    ensures FirstWithHandle(pl, p.handle).None? ==> r == pl
    ensures FirstWithHandle(pl, p.handle).Some? ==>
      var i := FirstWithHandle(pl, p.handle).value;
      && |r| == |pl| - 1
      && (forall j :: 0 <= j < i ==> r[j] == pl[j])
      && (forall j :: i <= j < |r| ==> r[j] == pl[j + 1])
      && multiset(r) + multiset{pl[i]} == multiset(pl)
  {
    match FirstWithHandle(pl, p.handle)
    case None => pl
    case Some(i) =>
      assert pl == pl[..i] + [pl[i]] + pl[i + 1..];
      pl[..i] + pl[i + 1..]
  }

  function Abs(i: int): int { if i < 0 then -i else i }

  /** `processList.closest`: among the processes started at or before `ts`,
      the one nearest to `ts`, the first on ties. */
  method Closest(pl: seq<Process>, ts: int) returns (r: Option<nat>)
    ensures r.None? <==> forall j :: 0 <= j < |pl| ==> pl[j].startTime > ts
    ensures r.Some? ==>
      && r.value < |pl| && pl[r.value].startTime <= ts
      && (forall j :: 0 <= j < |pl| && pl[j].startTime <= ts ==>
            Abs(pl[r.value].startTime - ts) <= Abs(pl[j].startTime - ts))
      && (forall j :: 0 <= j < r.value && pl[j].startTime <= ts ==>
            Abs(pl[r.value].startTime - ts) < Abs(pl[j].startTime - ts))
  {
    r := None;
    var i := 0;
    while i < |pl|
      invariant 0 <= i <= |pl|
      invariant r.None? <==> forall j :: 0 <= j < i ==> pl[j].startTime > ts
      invariant r.Some? ==>
        && r.value < i && pl[r.value].startTime <= ts
        && (forall j :: 0 <= j < i && pl[j].startTime <= ts ==>
              Abs(pl[r.value].startTime - ts) <= Abs(pl[j].startTime - ts))
        && (forall j :: 0 <= j < r.value && pl[j].startTime <= ts ==>
              Abs(pl[r.value].startTime - ts) < Abs(pl[j].startTime - ts))
    {
      if ts >= pl[i].startTime && (r.None? || Abs(pl[r.value].startTime - ts) > Abs(pl[i].startTime - ts)) {
        r := Some(i);
      }
      i := i + 1;
    }
  }

  // ---------------------------------------------------------------------
  // The cache
  // ---------------------------------------------------------------------

  /** A `processCacheValue`. */
  datatype Entry = Entry(procs: seq<Process>, exited: bool)

  const EmptyEntry: Entry := Entry([], false)

  datatype Cache = Cache(cacheByPid: map<nat, Entry>, numProcs: int, maxProcs: int, filteredEnvs: set<string>)

  function EntryOf(c: Cache, pid: nat): Entry {
    if pid in c.cacheByPid then c.cacheByPid[pid] else EmptyEntry
  }

  /** `newProcessCache`. */
  function NewCache(maxProcs: int, filteredEnvs: seq<string>): (c: Cache)
    ensures c.cacheByPid == map[] && c.numProcs == 0 && c.maxProcs == maxProcs
    ensures forall e :: e in c.filteredEnvs <==> e in filteredEnvs
  {
    Cache(map[], 0, maxProcs, set e | e in filteredEnvs)
  }

  /** `processCache.add` at Unix time `now`: refused when the count has
      reached the maximum; otherwise the process, due to expire two minutes
      from now, is merged into its pid's list and the pid is live again. */
  function Add(c: Cache, p: Process, now: int): (c': Cache)
    ensures c.numProcs >= c.maxProcs ==> c' == c
    ensures c.numProcs < c.maxProcs ==>
      var (pl, added) := Update(EntryOf(c, p.pid).procs, p.(expiry := now + DefaultExpirySeconds));
      && c'.cacheByPid == c.cacheByPid[p.pid := Entry(pl, false)]
      && c'.numProcs == c.numProcs + (if added then 1 else 0)
    ensures c'.maxProcs == c.maxProcs && c'.filteredEnvs == c.filteredEnvs
  {
    if c.numProcs >= c.maxProcs then c
    else
      var q := p.(expiry := now + DefaultExpirySeconds);
      var (pl, added) := Update(EntryOf(c, p.pid).procs, q);
      c.(cacheByPid := c.cacheByPid[p.pid := Entry(pl, false)],
         numProcs := c.numProcs + if added then 1 else 0)
  }

  /** `processCache.remove`: only marks the pid exited, creating an empty
      entry for a pid it has never seen. */
  function Remove(c: Cache, p: Process): (c': Cache)
    ensures c'.cacheByPid == c.cacheByPid[p.pid := Entry(EntryOf(c, p.pid).procs, true)]
    ensures c'.numProcs == c.numProcs && c'.maxProcs == c.maxProcs && c'.filteredEnvs == c.filteredEnvs
  {
    c.(cacheByPid := c.cacheByPid[p.pid := EntryOf(c, p.pid).(exited := true)])
  }

  /** The inner loop of `Trim`: an expired process is swapped with the last
      one and the list shortened; the count of those dropped comes back. */
  function TrimList(pl: seq<Process>, now: int, p: nat): (r: (seq<Process>, nat))
    requires p <= |pl|
    requires forall j :: 0 <= j < p ==> now < pl[j].expiry
    ensures |r.0| + r.1 == |pl|
    ensures forall j :: 0 <= j < |r.0| ==> now < r.0[j].expiry
    ensures multiset(r.0) == multiset(Unexpired(pl, now))
    decreases |pl| - p
  {
    if p == |pl| then
      UnexpiredAll(pl, now);
      (pl, 0)
    else if now < pl[p].expiry then TrimList(pl, now, p + 1)
    else
      var shorter := SwapDrop(pl, p);
      SwapDropUnexpired(pl, now, p);
      var (kept, n) := TrimList(shorter, now, p);
      (kept, n + 1)
  }

  /** The unexpired processes of a list, in order. */
  function Unexpired(pl: seq<Process>, now: int): (r: seq<Process>)
    ensures |r| <= |pl|
    decreases |pl|
  {
    if |pl| == 0 then []
    else Unexpired(pl[..|pl| - 1], now) + (if now < pl[|pl| - 1].expiry then [pl[|pl| - 1]] else [])
  }

  lemma {:induction false} UnexpiredAll(pl: seq<Process>, now: int)
    requires forall j :: 0 <= j < |pl| ==> now < pl[j].expiry
    ensures Unexpired(pl, now) == pl
    decreases |pl|
  {
    if |pl| > 0 {
      UnexpiredAll(pl[..|pl| - 1], now);
      assert pl[..|pl| - 1] + [pl[|pl| - 1]] == pl;
    }
  }

  /** `Unexpired` only depends on the list as a multiset. */
  lemma {:induction false} UnexpiredMultiset(pl: seq<Process>, now: int)
    ensures multiset(Unexpired(pl, now)) == MultisetUnexpired(multiset(pl), now)
    decreases |pl|
  {
    if |pl| > 0 {
      var init, x := pl[..|pl| - 1], pl[|pl| - 1];
      UnexpiredMultiset(init, now);
      LastSplit(pl);
      MultisetUnexpiredAdd(multiset(init), x, now);
      assert multiset(Unexpired(pl, now)) == multiset(Unexpired(init, now)) + multiset(if now < x.expiry then [x] else []);
    }
  }

  /** A non-empty list is its prefix and its last element, also as multisets. */
  lemma LastSplit(pl: seq<Process>)
    requires |pl| > 0
    ensures multiset(pl) == multiset(pl[..|pl| - 1]) + multiset{pl[|pl| - 1]}
  {
    assert pl == pl[..|pl| - 1] + [pl[|pl| - 1]];
  }

  /** The unexpired part of a multiset of processes. */
  ghost function MultisetUnexpired(m: multiset<Process>, now: int): multiset<Process> {
    MultisetFilter(m, now)
  }

  ghost function MultisetFilter(m: multiset<Process>, now: int): (r: multiset<Process>)
    ensures forall x :: r[x] == if now < x.expiry then m[x] else 0
  {
    var s := set x | x in m && now < x.expiry;
    MultisetFromCounts(m, s)
  }

  ghost function MultisetFromCounts(m: multiset<Process>, s: set<Process>): (r: multiset<Process>)
    ensures forall x :: r[x] == if x in s then m[x] else 0
    decreases |s|
  {
    if s == {} then multiset{}
    else
      var x :| x in s;
      var rest := MultisetFromCounts(m, s - {x});
      rest[x := m[x]]
  }

  lemma MultisetUnexpiredAdd(m: multiset<Process>, x: Process, now: int)
    ensures MultisetUnexpired(m + multiset{x}, now) ==
      MultisetUnexpired(m, now) + (if now < x.expiry then multiset{x} else multiset{})
  {
  }

  /** Swapping two positions keeps the multiset of a list. */
  lemma SwapMultiset(pl: seq<Process>, p: nat, last: nat)
    requires p <= last < |pl|
    ensures multiset(pl[p := pl[last]][last := pl[p]]) == multiset(pl)
  {
    var s1 := pl[p := pl[last]];
    UpdateMultiset(pl, p, pl[last]);
    assert s1[last] == pl[last];
    UpdateMultiset(s1, last, pl[p]);
  }

  /** Overwriting one position trades its old element for the new one. */
  lemma UpdateMultiset(s: seq<Process>, i: nat, v: Process)
    requires i < |s|
    ensures multiset(s[i := v]) == multiset(s) - multiset{s[i]} + multiset{v}
  {
    assert s == s[..i] + [s[i]] + s[i + 1..];
    assert s[i := v] == s[..i] + [v] + s[i + 1..];
  }

  /** The list with the element at `p` swapped to the end and dropped: what
      precedes `p` stays in place. */
  function SwapDrop(pl: seq<Process>, p: nat): (r: seq<Process>)
    requires p < |pl|
    ensures |r| == |pl| - 1
    ensures forall j :: 0 <= j < p ==> r[j] == pl[j]
  {
    var last := |pl| - 1;
    pl[p := pl[last]][last := pl[p]][..last]
  }

  /** Swapping the element at `p` with the last one and dropping it leaves
      the same unexpired processes when the dropped one had expired. */
  lemma SwapDropUnexpired(pl: seq<Process>, now: int, p: nat)
    requires p < |pl| && !(now < pl[p].expiry)
    ensures multiset(Unexpired(SwapDrop(pl, p), now)) == multiset(Unexpired(pl, now))
  {
    var last := |pl| - 1;
    var swapped := pl[p := pl[last]][last := pl[p]];
    var shorter := swapped[..last];
    SwapMultiset(pl, p, last);
    assert swapped == shorter + [pl[p]];
    assert multiset(pl) == multiset(shorter) + multiset{pl[p]};
    DropExpiredUnexpired(pl, shorter, now, pl[p]);
  }

  lemma DropExpiredUnexpired(pl: seq<Process>, shorter: seq<Process>, now: int, x: Process)
    requires multiset(pl) == multiset(shorter) + multiset{x} && !(now < x.expiry)
    ensures multiset(Unexpired(shorter, now)) == multiset(Unexpired(pl, now))
  {
    UnexpiredMultiset(pl, now);
    UnexpiredMultiset(shorter, now);
    MultisetUnexpiredAdd(multiset(shorter), x, now);
  }

  /** What `Trim` subtracts for one pid, as written: one for an exited pid,
      whatever its list holds, and one per expired process otherwise. */
  function TrimCost(e: Entry, now: int, corrected: bool): nat {
    if e.exited then (if corrected then |e.procs| else 1)
    else TrimList(e.procs, now, 0).1
  }

  /** One pid of the `Trim` loop. */
  function TrimPid(c: Cache, pid: nat, now: int, corrected: bool): (c': Cache)
    requires pid in c.cacheByPid
    ensures c'.numProcs == c.numProcs - TrimCost(c.cacheByPid[pid], now, corrected)
    ensures c'.maxProcs == c.maxProcs && c'.filteredEnvs == c.filteredEnvs
    ensures c'.cacheByPid.Keys <= c.cacheByPid.Keys
    ensures forall q :: q in c.cacheByPid && q != pid ==> q in c'.cacheByPid && c'.cacheByPid[q] == c.cacheByPid[q]
    ensures pid in c'.cacheByPid <==>
      !c.cacheByPid[pid].exited && |TrimList(c.cacheByPid[pid].procs, now, 0).0| > 0
    ensures pid in c'.cacheByPid ==> c'.cacheByPid[pid] == Entry(TrimList(c.cacheByPid[pid].procs, now, 0).0, false)
  {
    var e := c.cacheByPid[pid];
    var cost := TrimCost(e, now, corrected);
    if e.exited then c.(cacheByPid := c.cacheByPid - {pid}, numProcs := c.numProcs - cost)
    else
      var (kept, _) := TrimList(e.procs, now, 0);
      if |kept| == 0 then c.(cacheByPid := c.cacheByPid - {pid}, numProcs := c.numProcs - cost)
      else c.(cacheByPid := c.cacheByPid[pid := Entry(kept, false)], numProcs := c.numProcs - cost)
  }

  /** The `Trim` loop over the pids in the order the map yields them. */
  function TrimPids(c: Cache, pids: seq<nat>, now: int, corrected: bool): (c': Cache)
    ensures c'.maxProcs == c.maxProcs && c'.filteredEnvs == c.filteredEnvs
    decreases |pids|
  {
    if |pids| == 0 then c
    else
      var c1 := if pids[0] in c.cacheByPid then TrimPid(c, pids[0], now, corrected) else c;
      TrimPids(c1, pids[1..], now, corrected)
  }

  /** `Trim` as written. */
  function Trim(c: Cache, now: int, pids: seq<nat>): Cache
    requires Enumerates(pids, c.cacheByPid)
  {
    TrimPids(c, pids, now, false)
  }

  /** `Trim` subtracting, for an exited pid, the processes its list held. */
  function TrimCorrected(c: Cache, now: int, pids: seq<nat>): Cache
    requires Enumerates(pids, c.cacheByPid)
  {
    TrimPids(c, pids, now, true)
  }

  /** The reference outcome of `Trim` for one pid. */
  function Trimmed(e: Entry, now: int): Option<Entry> {
    if e.exited || |TrimList(e.procs, now, 0).0| == 0 then None
    else Some(Entry(TrimList(e.procs, now, 0).0, false))
  }

  /** The total `Trim` subtracts over a set of pids. */
  function TotalCost(m: map<nat, Entry>, pids: seq<nat>, now: int, corrected: bool): int
    decreases |pids|
  {
    if |pids| == 0 then 0
    else (if pids[0] in m then TrimCost(m[pids[0]], now, corrected) else 0) + TotalCost(m, pids[1..], now, corrected)
  }

  /** `Trim` drops every exited pid and every expired process, drops the pids
      left empty, keeps the rest, and subtracts the per-pid costs. */
  lemma {:induction false} TrimPidsOutcome(c: Cache, pids: seq<nat>, now: int, corrected: bool)
    requires forall i, j :: 0 <= i < j < |pids| ==> pids[i] != pids[j]
    ensures var c' := TrimPids(c, pids, now, corrected);
      && c'.numProcs == c.numProcs - TotalCost(c.cacheByPid, pids, now, corrected)
      && (forall q :: q in c.cacheByPid && q !in pids ==> q in c'.cacheByPid && c'.cacheByPid[q] == c.cacheByPid[q])
      && (forall q :: q in pids && q in c.cacheByPid ==>
            (q in c'.cacheByPid <==> Trimmed(c.cacheByPid[q], now).Some?)
            && (q in c'.cacheByPid ==> c'.cacheByPid[q] == Trimmed(c.cacheByPid[q], now).value))
      && c'.cacheByPid.Keys <= c.cacheByPid.Keys
    decreases |pids|
  {
    if |pids| > 0 {
      var c1 := if pids[0] in c.cacheByPid then TrimPid(c, pids[0], now, corrected) else c;
      var rest := pids[1..];
      assert forall i, j :: 0 <= i < j < |rest| ==> rest[i] != rest[j] by {
        forall i, j | 0 <= i < j < |rest| ensures rest[i] != rest[j] {
          assert rest[i] == pids[i + 1] && rest[j] == pids[j + 1];
        }
      }
      assert pids[0] !in rest by {
        forall i | 0 <= i < |rest| ensures rest[i] != pids[0] {
          assert rest[i] == pids[i + 1];
        }
      }
      TrimPidsOutcome(c1, rest, now, corrected);
      TotalCostSame(c.cacheByPid, c1.cacheByPid, rest, now, corrected);
      forall q | q in pids && q in c.cacheByPid
        ensures var c' := TrimPids(c, pids, now, corrected);
          (q in c'.cacheByPid <==> Trimmed(c.cacheByPid[q], now).Some?)
          && (q in c'.cacheByPid ==> c'.cacheByPid[q] == Trimmed(c.cacheByPid[q], now).value)
      {
        if q != pids[0] {
          assert q in rest by {
            var k :| 0 <= k < |pids| && pids[k] == q;
            assert k > 0 && rest[k - 1] == q;
          }
        }
      }
    }
  }

  /** The costs of pids a step did not touch are the same before and after it. */
  lemma {:induction false} TotalCostSame(m: map<nat, Entry>, m': map<nat, Entry>, pids: seq<nat>, now: int, corrected: bool)
    requires forall q :: q in pids && q in m ==> q in m' && m'[q] == m[q]
    requires forall q :: q in pids && q in m' ==> q in m
    ensures TotalCost(m, pids, now, corrected) == TotalCost(m', pids, now, corrected)
    decreases |pids|
  {
    if |pids| > 0 {
      TotalCostSame(m, m', pids[1..], now, corrected);
    }
  }

  /** `Trim` as written on a full enumeration: the map keeps exactly the
      live pids with unexpired processes, and the count drops by one per
      exited pid plus one per expired process. */
  lemma TrimOutcome(c: Cache, now: int, pids: seq<nat>)
    requires Enumerates(pids, c.cacheByPid)
    ensures var c' := Trim(c, now, pids);
      && c'.numProcs == c.numProcs - TotalCost(c.cacheByPid, pids, now, false)
      && (forall q :: q in c'.cacheByPid <==> q in c.cacheByPid && Trimmed(c.cacheByPid[q], now).Some?)
      && (forall q :: q in c'.cacheByPid ==> c'.cacheByPid[q] == Trimmed(c.cacheByPid[q], now).value)
      && (forall q :: q in c'.cacheByPid ==>
            forall j :: 0 <= j < |c'.cacheByPid[q].procs| ==> now < c'.cacheByPid[q].procs[j].expiry)
  {
    TrimPidsOutcome(c, pids, now, false);
  }

  // ---------------------------------------------------------------------
  // The count against the contents
  // ---------------------------------------------------------------------

  function ListSize(e: Entry): int { |e.procs| }

  /** The number of processes the cache holds. */
  ghost function Total(m: map<nat, Entry>): int {
    Sum(m, ListSize)
  }

  /** The count the cache is meant to keep: the processes it holds. */
  ghost predicate CountsContents(c: Cache) {
    c.numProcs == Total(c.cacheByPid)
  }

  lemma AddKeepsCount(c: Cache, p: Process, now: int)
    requires CountsContents(c)
    requires forall q :: q in c.cacheByPid ==> |c.cacheByPid[q].procs| <= MaxProcessListSize
    ensures CountsContents(Add(c, p, now))
  {
    if c.numProcs < c.maxProcs {
      var (pl, added) := Update(EntryOf(c, p.pid).procs, p.(expiry := now + DefaultExpirySeconds));
      SumUpdate(c.cacheByPid, p.pid, Entry(pl, false), ListSize);
    }
  }

  lemma RemoveKeepsCount(c: Cache, p: Process)
    requires CountsContents(c)
    ensures CountsContents(Remove(c, p))
  {
    SumUpdate(c.cacheByPid, p.pid, EntryOf(c, p.pid).(exited := true), ListSize);
  }

  lemma TrimPidKeepsCount(c: Cache, pid: nat, now: int)
    requires pid in c.cacheByPid && CountsContents(c)
    ensures CountsContents(TrimPid(c, pid, now, true))
  {
    var c' := TrimPid(c, pid, now, true);
    SumRemove(c.cacheByPid, pid, ListSize);
    if pid in c'.cacheByPid {
      SumUpdate(c.cacheByPid, pid, c'.cacheByPid[pid], ListSize);
      assert c'.cacheByPid == c.cacheByPid[pid := c'.cacheByPid[pid]];
    } else {
      assert c'.cacheByPid == c.cacheByPid - {pid};
      assert !c.cacheByPid[pid].exited ==> TrimList(c.cacheByPid[pid].procs, now, 0).1 == |c.cacheByPid[pid].procs|;
    }
  }

  lemma {:induction false} TrimPidsKeepsCount(c: Cache, pids: seq<nat>, now: int)
    requires CountsContents(c)
    ensures CountsContents(TrimPids(c, pids, now, true))
    decreases |pids|
  {
    if |pids| > 0 {
      var c1 := if pids[0] in c.cacheByPid then TrimPid(c, pids[0], now, true) else c;
      if pids[0] in c.cacheByPid {
        TrimPidKeepsCount(c, pids[0], now);
      }
      TrimPidsKeepsCount(c1, pids[1..], now);
    }
  }

  /** The corrected `Trim` keeps the count equal to the contents. */
  lemma TrimCorrectedKeepsCount(c: Cache, now: int, pids: seq<nat>)
    requires Enumerates(pids, c.cacheByPid) && CountsContents(c)
    ensures CountsContents(TrimCorrected(c, now, pids))
  {
    TrimPidsKeepsCount(c, pids, now);
  }

  // Two processes of pid 1 are added, the pid exits, and `Trim` runs.

  function ProcessA(): Process { Process(1, 1, 10, 0, false, [], None) }
  function ProcessB(): Process { Process(2, 1, 20, 0, false, [], None) }

  function TwoThenExit(): Cache {
    Remove(Add(Add(NewCache(10, []), ProcessA(), 0), ProcessB(), 0), ProcessA().(exited := true))
  }

  /** As written, one of the two processes is still counted after the cache
      has emptied; the corrected `Trim` brings the count back to zero. */
  lemma ExitedPidCountedOnce()
    ensures TwoThenExit().numProcs == 2 && TwoThenExit().cacheByPid.Keys == {1}
    ensures Trim(TwoThenExit(), 0, [1]).numProcs == 1
    ensures Trim(TwoThenExit(), 0, [1]).cacheByPid == map[]
    ensures TrimCorrected(TwoThenExit(), 0, [1]).numProcs == 0
  {
    var c1 := Add(NewCache(10, []), ProcessA(), 0);
    assert c1.cacheByPid[1].procs == [ProcessA().(expiry := 120)];
    var c2 := Add(c1, ProcessB(), 0);
    assert c2.cacheByPid[1].procs == [ProcessA().(expiry := 120), ProcessB().(expiry := 120)];
    assert c2.numProcs == 2;
    var c3 := TwoThenExit();
    assert c3.cacheByPid[1].exited && |c3.cacheByPid[1].procs| == 2;
    assert [1][1..] == [];
  }

  /** As written, the exit of a pid never added makes the count negative. */
  lemma UnknownExitGoesNegative()
    ensures Trim(Remove(NewCache(10, []), ProcessA()), 0, [1]).numProcs == -1
    ensures TrimCorrected(Remove(NewCache(10, []), ProcessA()), 0, [1]).numProcs == 0
  {
    assert [1][1..] == [];
  }
}

/** The integrations log launcher (pkg/logs/launchers/integration/launcher.go):
    each integration writes its logs to a file of its own under the run
    path; the launcher keeps every file under a size cap and the files
    together under a disk budget by emptying the least recently modified
    file. File I/O is reduced to its outcome, each reading of the clock to
    the next, strictly later integer, and Go's map iteration to an explicit
    order. */
module IntegrationLauncher {
  import opened Wrappers
  import opened GoStrings
  import opened Maps

  // ---------------------------------------------------------------------
  // File names
  // ---------------------------------------------------------------------

  /** `filepath.Join(dir, name)` for a name without separators; the
      `filepath.Clean` step is not modelled. */
  function JoinPath(dir: string, name: string): string {
    if dir == "" then name else dir + "/" + name
  }

  function TrimTrailingSlashes(p: string): (r: string)
    ensures |r| <= |p| && r == p[..|r|]
    ensures |r| == 0 || r[|r| - 1] != '/'
    ensures forall i :: |r| <= i < |p| ==> p[i] == '/'
    decreases |p|
  {
    if |p| > 0 && p[|p| - 1] == '/' then TrimTrailingSlashes(p[..|p| - 1]) else p
  }

  /** The final element of a path: what follows its last '/'. */
  function LastElement(p: string): (r: string)
    ensures '/' !in r && HasSuffix(p, r)
    ensures |r| == |p| || p[|p| - |r| - 1] == '/'
  {
    p[LastIndex(p, '/') + 1..]
  }

  /** `filepath.Base` on Unix paths: "." for the empty path, "/" for a path
      of slashes only, and otherwise the last element once trailing slashes
      are dropped. */
  function Base(p: string): (r: string)
    ensures r != ""
    ensures p == "" ==> r == "."
    ensures r == "/" <==> p != "" && forall i :: 0 <= i < |p| ==> p[i] == '/'
    ensures p != "" && r != "/" ==>
      var q := TrimTrailingSlashes(p);
      && '/' !in r && HasSuffix(q, r)
      && (|r| == |q| || q[|q| - |r| - 1] == '/')
      && forall i :: |q| <= i < |p| ==> p[i] == '/'
  {
    if p == "" then "."
    else
      var e := LastElement(TrimTrailingSlashes(p));
      if e == "" then "/" else e
  }

  /** `filepath.Ext`: from the last '.' of the final element, or "". */
  function Ext(p: string): (r: string)
    ensures r == "" <==> '.' !in LastElement(p)
    ensures r != "" ==> r[0] == '.' && '.' !in r[1..] && '/' !in r && HasSuffix(p, r)
  {
    var e := LastElement(p);
    var d := LastIndex(e, '.');
    if d < 0 then ""
    else
      assert e == p[|p| - |e|..];
      assert e[d..] == p[|p| - |e[d..]|..];
      e[d..]
  }

  /** `integrationLogFilePath`: the run path joined with the ID, every ':'
      replaced by '_', and ".log". */
  function IntegrationLogFilePath(runPath: string, id: string): (p: string)
    ensures HasSuffix(p, ".log")
    ensures HasPrefix(p, runPath)
  {
    var name := ReplaceAll(id, ':', '_') + ".log";
    var p := JoinPath(runPath, name);
    assert p[|p| - |name|..] == name;
    assert p[|p| - 4..] == name[|name| - 4..];
    p
  }

  /** The last '_' of a base name turned back into ':'. */
  function RestoreColon(base: string): (id: string)
    ensures |id| == |base|
    ensures '_' !in base ==> id == base
    ensures '_' in base ==>
      && id[LastIndex(base, '_')] == ':'
      && forall i :: 0 <= i < |base| && i != LastIndex(base, '_') ==> id[i] == base[i]
  {
    var k := LastIndex(base, '_');
    if k == -1 then base else base[..k] + ":" + base[k + 1..]
  }

  /** `fileNameToID`: the base name without its extension, with its last
      '_' turned back into ':'. */
  function FileNameToId(fileName: string): string {
    RestoreColon(TrimSuffix(Base(fileName), Ext(fileName)))
  }

  /** The last occurrence of a character is where it occurs with none after. */
  lemma LastIndexIs(s: string, c: char, k: nat)
    requires k < |s| && s[k] == c && c !in s[k + 1..]
    ensures LastIndex(s, c) == k
  {
    forall r: nat | r <= k ensures c in s[r..] {
      assert s[r..][k - r] == s[k];
    }
    forall r | k < r < |s| ensures s[r] in s[k + 1..] {
      assert s[k + 1..][r - k - 1] == s[r];
    }
  }

  /** A name ending in ".log" has ".log" as its extension. */
  lemma ExtOfLogName(dir: string, x: string)
    requires '/' !in x
    ensures Ext(JoinPath(dir, x + ".log")) == ".log"
    ensures Base(JoinPath(dir, x + ".log")) == x + ".log"
  {
    var name := x + ".log";
    NoSlashInLogName(x);
    BaseOfJoin(dir, name);
    LastDotOfLogName(x);
    assert name[|x|..] == ".log";
  }

  lemma NoSlashInLogName(x: string)
    requires '/' !in x
    ensures '/' !in x + ".log"
  {
    var name := x + ".log";
    forall i | 0 <= i < |name| ensures name[i] != '/' {
      if i < |x| { assert name[i] == x[i]; } else { assert name[i] == ".log"[i - |x|]; }
    }
  }

  lemma LastDotOfLogName(x: string)
    ensures LastIndex(x + ".log", '.') == |x|
  {
    var name := x + ".log";
    var tail := name[|x| + 1..];
    assert |tail| == 3 && tail[0] == 'l' && tail[1] == 'o' && tail[2] == 'g';
    assert '.' !in tail;
    LastIndexIs(name, '.', |x|);
  }

  lemma BaseOfJoin(dir: string, name: string)
    requires name != "" && '/' !in name
    ensures Base(JoinPath(dir, name)) == name
    ensures LastElement(JoinPath(dir, name)) == name
  {
    var p := JoinPath(dir, name);
    assert p[|p| - 1] == name[|name| - 1];
    assert TrimTrailingSlashes(p) == p;
    if dir == "" {
      assert LastIndex(p, '/') == -1;
    } else {
      assert p[|dir|] == '/';
      assert p[|dir| + 1..] == name;
      LastIndexIs(p, '/', |dir|);
    }
  }

  /** Reading the ID back from a log file name strips the directory and
      ".log" before restoring the colon. */
  lemma FileNameToIdOfLogName(dir: string, x: string)
    requires '/' !in x
    ensures FileNameToId(JoinPath(dir, x + ".log")) == RestoreColon(x)
  {
    ExtOfLogName(dir, x);
    TrimLogSuffix(x);
  }

  lemma TrimLogSuffix(x: string)
    ensures TrimSuffix(x + ".log", ".log") == x
  {
    var name := x + ".log";
    assert name[|name| - 4..] == ".log";
    assert name[..|x|] == x;
  }

  /** Restoring the last '_' undoes replacing a single ':'. */
  lemma RestoreReplaced(id: string)
    requires '_' !in id
    requires forall i, j :: 0 <= i < j < |id| && id[i] == ':' ==> id[j] != ':'
    ensures RestoreColon(ReplaceAll(id, ':', '_')) == id
  {
    var replaced := ReplaceAll(id, ':', '_');
    if ':' in id {
      var k :| 0 <= k < |id| && id[k] == ':';
      assert '_' !in replaced[k + 1..] by {
        forall i | k + 1 <= i < |id| ensures replaced[i] != '_' {
          assert id[i] != ':';
        }
      }
      LastIndexIs(replaced, '_', k);
      var back := RestoreColon(replaced);
      forall i | 0 <= i < |id| ensures back[i] == id[i] {
        if i != k {
          assert id[i] != ':';
        }
      }
      assert back == id;
    } else {
      assert replaced == id;
    }
  }

  /** Naming a log file after an ID and reading the ID back from the name
      gives the ID, for IDs without '_' or '/' and with at most one ':'. */
  lemma FileNameRoundTrip(runPath: string, id: string)
    requires '_' !in id && '/' !in id
    requires forall i, j :: 0 <= i < j < |id| && id[i] == ':' ==> id[j] != ':'
    ensures FileNameToId(IntegrationLogFilePath(runPath, id)) == id
  {
    var replaced := ReplaceAll(id, ':', '_');
    assert '/' !in replaced;
    FileNameToIdOfLogName(runPath, replaced);
    RestoreReplaced(id);
  }

  /** With two ':', only the last is restored. */
  lemma EarlierColonsNotRestored()
    ensures FileNameToId(IntegrationLogFilePath("/run", "a:b:c")) == "a_b:c"
  {
    assert ReplaceAll("a:b:c", ':', '_') == "a_b_c";
    FileNameToIdOfLogName("/run", "a_b_c");
    RestoreLastOnly();
  }

  lemma RestoreLastOnly()
    ensures RestoreColon("a_b_c") == "a_b:c"
  {
    LastIndexIs("a_b_c", '_', 3);
  }

  // ---------------------------------------------------------------------
  // Disk usage bookkeeping
  // ---------------------------------------------------------------------

  /** A `FileInfo`; times are readings of the agent's clock. */
  datatype FileInfo = FileInfo(filename: string, lastModified: int, size: int)

  /** The launcher's usage state. `leastRecentlyModified` names the
      integration whose file the `leastRecentlyModifiedFile` pointer shares.
      `clock` is the latest reading of the agent's clock: each `time.Now()`
      call returns the next integer, so readings strictly increase. The
      launcher only ever compares times, so their order is all that counts. */
  datatype Launcher = Launcher(
    runPath: string,
    files: map<string, FileInfo>,
    fileSizeMax: int,
    combinedUsageMax: int,
    combinedUsageSize: int,
    leastRecentlyModified: Option<string>,
    clock: int)

  const NilDereference: string := "invalid memory address or nil pointer dereference"

  /** One `time.Now()` call; its reading is the new `clock`. */
  function Tick(l: Launcher): Launcher {
    l.(clock := l.clock + 1)
  }

  /** The pointer is nil or points at a tracked file. */
  predicate Tracked(l: Launcher) {
    l.leastRecentlyModified.Some? ==> l.leastRecentlyModified.value in l.files
  }

  function FileSize(f: FileInfo): int { f.size }

  /** The combined usage is the sum of the file sizes. */
  ghost predicate Accounted(l: Launcher) {
    l.combinedUsageSize == Sum(l.files, FileSize)
  }

  /** The states the launcher keeps to: the pointer is tracked, the
      combined usage is the sum of the sizes, no size is negative and every
      file was stamped by a reading already taken. */
  ghost predicate Valid(l: Launcher) {
    && Tracked(l) && Accounted(l)
    && (forall k :: k in l.files ==> l.files[k].size >= 0 && l.files[k].lastModified <= l.clock)
  }

  /** `NewLauncher`, with the two limits already computed from the settings
      and the disk: the run path's "integrations" directory, no files, no
      usage and a nil pointer. */
  function NewLauncher(runPathSetting: string, fileSizeMax: int, combinedUsageMax: int, clock: int): (l: Launcher)
    ensures Valid(l)
    ensures l.files == map[] && l.combinedUsageSize == 0 && l.leastRecentlyModified.None?
    ensures && l.runPath == JoinPath(runPathSetting, "integrations")
            && l.fileSizeMax == fileSizeMax && l.combinedUsageMax == combinedUsageMax && l.clock == clock
  {
    Launcher(JoinPath(runPathSetting, "integrations"), map[], fileSizeMax, combinedUsageMax, 0, None, clock)
  }

  /** A new integration's file, as the `run` loop records it: `createFile`
      makes an empty file stamped now and the map takes it; the pointer is
      left as it was. When `os.Create` fails, `createFile` returns a nil
      file with a nil error, and the loop dereferences the file. */
  function AddIntegrationFile(l: Launcher, id: string, createFails: bool): (r: Result<Launcher, string>)
    ensures r.Failure? <==> createFails
    ensures r.Success? ==>
      && r.value == l.(files := r.value.files, clock := r.value.clock)
      && r.value.leastRecentlyModified == l.leastRecentlyModified
      && r.value.combinedUsageSize == l.combinedUsageSize
      && r.value.files.Keys == l.files.Keys + {id}
      && r.value.files[id] == FileInfo(IntegrationLogFilePath(l.runPath, id), r.value.clock, 0)
      && l.clock < r.value.clock
      && (forall k :: k in l.files && k != id ==> r.value.files[k] == l.files[k])
    ensures r.Success? && Valid(l) && id !in l.files ==> Valid(r.value)
  {
    if createFails then Failure(NilDereference)
    else
      var now := Tick(l);
      var f := FileInfo(IntegrationLogFilePath(l.runPath, id), now.clock, 0);
      SumUpdate(l.files, id, f, FileSize);
      Success(now.(files := l.files[id := f]))
  }

  /** `createFile` returning its error: the integration is skipped and the
      launcher is unchanged. */
  function AddIntegrationFileCorrected(l: Launcher, id: string, createFails: bool): (r: Launcher)
    ensures createFails ==> r == l
    ensures !createFails ==> AddIntegrationFile(l, id, createFails) == Success(r)
    ensures Valid(l) && id !in l.files ==> Valid(r)
  {
    if createFails then l else AddIntegrationFile(l, id, false).value
  }

  /** The loop of `updateLeastRecentlyModifiedFile` over the files in `order`:
      the position of the first file modified strictly before the best time
      so far, starting from `now`, and that time. */
  function Earliest(files: map<string, FileInfo>, order: seq<string>, now: int): (r: (Option<nat>, int))
    requires forall i :: 0 <= i < |order| ==> order[i] in files
    ensures r.1 <= now
    ensures r.0.None? <==> forall i :: 0 <= i < |order| ==> files[order[i]].lastModified >= now
    ensures r.0.None? ==> r.1 == now
    ensures r.0.Some? ==>
      && r.0.value < |order| && files[order[r.0.value]].lastModified == r.1 < now
      && forall q :: 0 <= q < r.0.value ==> files[order[q]].lastModified > r.1
    ensures forall i :: 0 <= i < |order| ==> files[order[i]].lastModified >= r.1
    decreases |order|
  {
    if |order| == 0 then (None, now)
    else
      var prev := Earliest(files, order[..|order| - 1], now);
      var last := |order| - 1;
      if files[order[last]].lastModified < prev.1 then (Some(last), files[order[last]].lastModified)
      else prev
  }

  /** `updateLeastRecentlyModifiedFile`: with a new reading, the pointer
      moves to a file with the earliest modification time strictly before
      it, or to nil. */
  function UpdateLeastRecentlyModified(l: Launcher, order: seq<string>): (l': Launcher)
    requires Enumerates(order, l.files)
    ensures l' == Tick(l).(leastRecentlyModified := l'.leastRecentlyModified)
    ensures l'.leastRecentlyModified.None? <==> forall k :: k in l.files ==> l.files[k].lastModified >= l'.clock
    ensures l'.leastRecentlyModified.Some? ==>
      var id := l'.leastRecentlyModified.value;
      && id in l.files && l.files[id].lastModified < l'.clock
      && forall k :: k in l.files ==> l.files[id].lastModified <= l.files[k].lastModified
    ensures Tracked(l')
  {
    var now := Tick(l);
    var e := Earliest(l.files, order, now.clock);
    assert forall k :: k in l.files ==> exists i :: 0 <= i < |order| && order[i] == k;
    now.(leastRecentlyModified := if e.0.Some? then Some(order[e.0.value]) else None)
  }

  /** `deleteLeastRecentlyModified`: the file is emptied and stamped with a
      new reading, its size leaving the combined usage; a nil pointer is
      dereferenced. Errors remaking the file are only logged. */
  function DeleteLeastRecentlyModified(l: Launcher): (r: Result<Launcher, string>)
    requires Tracked(l)
    ensures r.Failure? <==> l.leastRecentlyModified.None?
    ensures r.Success? ==>
      var id := l.leastRecentlyModified.value;
      && r.value.files == l.files[id := l.files[id].(size := 0, lastModified := r.value.clock)]
      && r.value.combinedUsageSize == l.combinedUsageSize - l.files[id].size
      && r.value == Tick(l).(files := r.value.files, combinedUsageSize := r.value.combinedUsageSize)
  {
    match l.leastRecentlyModified
    case None => Failure(NilDereference)
    case Some(id) =>
      var f := l.files[id];
      var now := Tick(l);
      Success(now.(combinedUsageSize := l.combinedUsageSize - f.size,
                   files := l.files[id := f.(size := 0, lastModified := now.clock)]))
  }

  /** `l'` follows `l` by evictions only: the same files, each untouched or
      emptied and stamped by a reading taken since `l`. */
  predicate Evicted(l: Launcher, l': Launcher) {
    && Tracked(l') && l'.files.Keys == l.files.Keys && l.clock <= l'.clock
    && l' == l.(files := l'.files, combinedUsageSize := l'.combinedUsageSize,
                leastRecentlyModified := l'.leastRecentlyModified, clock := l'.clock)
    && forall k :: k in l.files ==>
         || l'.files[k] == l.files[k]
         || (&& l'.files[k] == l.files[k].(size := 0, lastModified := l'.files[k].lastModified)
             && l.clock < l'.files[k].lastModified <= l'.clock)
  }

  lemma EvictedTrans(a: Launcher, b: Launcher, c: Launcher)
    requires Evicted(a, b) && Evicted(b, c)
    ensures Evicted(a, c)
  {
  }

  /** One iteration of the eviction loop from a non-nil pointer: the file
      is emptied and stamped, then the pointer moves with a later reading.
      The file just emptied is older than that reading, so the pointer is
      not nil afterwards. */
  function EvictOnce(l: Launcher, order: seq<string>): (u: Launcher)
    requires Tracked(l) && Enumerates(order, l.files) && l.leastRecentlyModified.Some?
    ensures var p := l.leastRecentlyModified.value;
      && u.files == l.files[p := l.files[p].(size := 0, lastModified := l.clock + 1)]
      && u.combinedUsageSize == l.combinedUsageSize - l.files[p].size
      && u.clock == l.clock + 2
    ensures Evicted(l, u) && Enumerates(order, u.files) && u.leastRecentlyModified.Some?
    ensures forall k :: k in u.files ==> u.files[u.leastRecentlyModified.value].lastModified <= u.files[k].lastModified
    ensures Accounted(l) ==> Accounted(u)
  {
    var p := l.leastRecentlyModified.value;
    var d := DeleteLeastRecentlyModified(l).value;
    assert d.files.Keys == l.files.Keys;
    assert d.files[p].lastModified < d.clock + 1;
    SumUpdate(l.files, p, d.files[p], FileSize);
    UpdateLeastRecentlyModified(d, order)
  }

  /** How the eviction loop stands after at most some number of iterations:
      the line fits, a nil pointer was dereferenced, or it is still going. */
  datatype Run = Done(l: Launcher) | Panics(error: string) | Spinning(l: Launcher)

  /** The eviction loop of `receiveLogs` as written, run for at most `fuel`
      iterations: while the line does not fit in the budget, empty the file
      the pointer is at, then look for the least recently modified one. It
      dereferences a nil pointer only on its first iteration. */
  function EvictAsWritten(l: Launcher, logSize: int, order: seq<string>, fuel: nat): (r: Run)
    requires Tracked(l) && Enumerates(order, l.files)
    ensures r.Done? ==> Evicted(l, r.l) && r.l.combinedUsageSize + logSize <= r.l.combinedUsageMax
    ensures r.Spinning? ==> Evicted(l, r.l) && r.l.combinedUsageSize + logSize > r.l.combinedUsageMax
    ensures r.Panics? <==>
      && l.combinedUsageSize + logSize > l.combinedUsageMax && fuel > 0
      && l.leastRecentlyModified.None?
    ensures r.Panics? ==> r.error == NilDereference
    ensures (r.Done? || r.Spinning?) && Accounted(l) ==> Accounted(r.l)
    decreases fuel
  {
    if l.combinedUsageSize + logSize <= l.combinedUsageMax then Done(l)
    else if fuel == 0 then Spinning(l)
    else if l.leastRecentlyModified.None? then Panics(NilDereference)
    else
        var u := EvictOnce(l, order);
        var r := EvictAsWritten(u, logSize, order, fuel - 1);
        EvictedThrough(l, u, r);
        r
  }

  /** The loop as written, one iteration in. */
  lemma EvictUnfold(l: Launcher, logSize: int, order: seq<string>, fuel: nat)
    requires Tracked(l) && Enumerates(order, l.files) && l.leastRecentlyModified.Some?
    requires l.combinedUsageSize + logSize > l.combinedUsageMax && fuel > 0
    ensures EvictAsWritten(l, logSize, order, fuel) == EvictAsWritten(EvictOnce(l, order), logSize, order, fuel - 1)
  {
  }

  /** The loop as written does nothing once the line fits. */
  lemma EvictFits(l: Launcher, logSize: int, order: seq<string>, fuel: nat)
    requires Tracked(l) && Enumerates(order, l.files)
    requires l.combinedUsageSize + logSize <= l.combinedUsageMax
    ensures EvictAsWritten(l, logSize, order, fuel) == Done(l)
  {
  }

  lemma EvictedThrough(l: Launcher, u: Launcher, r: Run)
    requires Evicted(l, u)
    requires r.Done? || r.Spinning? ==> Evicted(u, r.l)
    ensures r.Done? || r.Spinning? ==> Evicted(l, r.l)
  {
    if r.Done? || r.Spinning? {
      EvictedTrans(l, u, r.l);
    }
  }

  /** The files stamped before `t`. */
  function StampedBefore(files: map<string, FileInfo>, t: int): set<string> {
    set k | k in files && files[k].lastModified < t
  }

  /** What the eviction loop keeps from its first reading `t` on: the files
      stamped since were emptied by the loop, and while a file stamped
      before `t` is left, the pointer is at one. */
  predicate LoopInv(l: Launcher, t: int) {
    && Tracked(l) && t <= l.clock + 1
    && (forall k :: k in l.files && l.files[k].lastModified >= t ==> l.files[k].size == 0)
    && (StampedBefore(l.files, t) != {} ==>
          l.leastRecentlyModified.Some? && l.files[l.leastRecentlyModified.value].lastModified < t)
  }

  /** Each iteration empties one more file stamped before the loop began,
      so one iteration per such file either fits the line or leaves every
      file empty. */
  lemma {:induction false} EvictEmpties(l: Launcher, logSize: int, order: seq<string>, t: int, fuel: nat)
    requires LoopInv(l, t) && Enumerates(order, l.files)
    requires |StampedBefore(l.files, t)| == fuel
    ensures var r := EvictAsWritten(l, logSize, order, fuel);
      r.Done? || (r.Spinning? && forall k :: k in r.l.files ==> FileSize(r.l.files[k]) == 0)
    decreases fuel
  {
    if l.combinedUsageSize + logSize > l.combinedUsageMax && fuel > 0 {
      LoopInvStep(l, order, t);
      EvictUnfold(l, logSize, order, fuel);
      EvictEmpties(EvictOnce(l, order), logSize, order, t, fuel - 1);
    } else if l.combinedUsageSize + logSize > l.combinedUsageMax {
      forall k | k in l.files ensures FileSize(l.files[k]) == 0 {
        assert k !in StampedBefore(l.files, t);
      }
    }
  }

  /** An iteration keeps the loop invariant and uses up one file stamped
      before the loop. */
  lemma LoopInvStep(l: Launcher, order: seq<string>, t: int)
    requires LoopInv(l, t) && Enumerates(order, l.files) && StampedBefore(l.files, t) != {}
    ensures var u := EvictOnce(l, order);
      LoopInv(u, t) && |StampedBefore(u.files, t)| == |StampedBefore(l.files, t)| - 1
  {
    var p := l.leastRecentlyModified.value;
    var u := EvictOnce(l, order);
    assert StampedBefore(l.files, t) == StampedBefore(u.files, t) + {p};
    if StampedBefore(u.files, t) != {} {
      var k :| k in StampedBefore(u.files, t);
      assert u.files[u.leastRecentlyModified.value].lastModified <= u.files[k].lastModified;
    }
  }

  /** As written, a line within the budget is fitted in at most one
      iteration per file, unless the pointer is nil. */
  lemma EvictAsWrittenEnds(l: Launcher, logSize: int, order: seq<string>)
    requires Valid(l) && Enumerates(order, l.files) && logSize <= l.combinedUsageMax
    ensures var r := EvictAsWritten(l, logSize, order, |l.files|);
      r.Done? || (r.Panics? && l.leastRecentlyModified.None?)
  {
    var t := l.clock + 1;
    assert StampedBefore(l.files, t) == l.files.Keys;
    if l.leastRecentlyModified.Some? {
      var r := EvictAsWritten(l, logSize, order, |l.files|);
      EvictEmpties(l, logSize, order, t, |l.files|);
      if r.Spinning? {
        SumZero(r.l.files, FileSize);
      }
    } else if l.files == map[] {
      SumZero(l.files, FileSize);
    }
  }

  /** As written, a line larger than the whole budget never fits: the
      usage never drops below zero, and after the first iteration the
      pointer is never nil, so the loop neither stops nor fails. */
  lemma EvictSpins(l: Launcher, logSize: int, order: seq<string>, fuel: nat)
    requires Valid(l) && Enumerates(order, l.files)
    requires l.leastRecentlyModified.Some? && logSize > l.combinedUsageMax
    ensures EvictAsWritten(l, logSize, order, fuel).Spinning?
  {
    var r := EvictAsWritten(l, logSize, order, fuel);
    if r.Done? {
      forall k | k in r.l.files ensures FileSize(r.l.files[k]) >= 0 {
        assert k in l.files;
      }
      SumNonNegative(r.l.files, FileSize);
    }
  }

  /** The corrected eviction loop: before each eviction it looks for the
      least recently modified file, and it stops when no file stamped before
      its first reading `start` is left. */
  function EvictCorrected(l: Launcher, logSize: int, start: int, order: seq<string>): (l': Launcher)
    requires Tracked(l) && Enumerates(order, l.files) && start <= l.clock
    ensures Evicted(l, l')
    ensures || l'.combinedUsageSize + logSize <= l'.combinedUsageMax
            || forall k :: k in l'.files ==> l'.files[k].lastModified >= start
    decreases |StampedBefore(l.files, start)|
  {
    if l.combinedUsageSize + logSize <= l.combinedUsageMax then l
    else
      var u := UpdateLeastRecentlyModified(l, order);
      if u.leastRecentlyModified.None? || u.files[u.leastRecentlyModified.value].lastModified >= start then u
      else
        var p := u.leastRecentlyModified.value;
        var d := DeleteLeastRecentlyModified(u).value;
        assert d.files.Keys == l.files.Keys;
        assert StampedBefore(l.files, start) == StampedBefore(d.files, start) + {p};
        var r := EvictCorrected(d, logSize, start, order);
        EvictedTrans(l, d, r);
        r
  }

  /** The corrected loop keeps the combined usage equal to the sum of the
      sizes. */
  lemma {:induction false} EvictCorrectedKeepsAccounting(l: Launcher, logSize: int, start: int, order: seq<string>)
    requires Tracked(l) && Enumerates(order, l.files) && start <= l.clock && Accounted(l)
    ensures Accounted(EvictCorrected(l, logSize, start, order))
    decreases |StampedBefore(l.files, start)|
  {
    if l.combinedUsageSize + logSize > l.combinedUsageMax {
      var u := UpdateLeastRecentlyModified(l, order);
      if u.leastRecentlyModified.Some? && u.files[u.leastRecentlyModified.value].lastModified < start {
        var p := u.leastRecentlyModified.value;
        var d := DeleteLeastRecentlyModified(u).value;
        assert d.files.Keys == l.files.Keys;
        assert StampedBefore(l.files, start) == StampedBefore(d.files, start) + {p};
        SumUpdate(u.files, p, d.files[p], FileSize);
        EvictCorrectedKeepsAccounting(d, logSize, start, order);
      }
    }
  }

  /** Corrected, the loop stops short of fitting the line only once every
      file is empty. */
  lemma EvictCorrectedFitsOrEmpty(l: Launcher, logSize: int, start: int, order: seq<string>)
    requires Tracked(l) && Enumerates(order, l.files) && start <= l.clock && Accounted(l)
    requires forall k :: k in l.files ==> l.files[k].lastModified < start
    ensures var l' := EvictCorrected(l, logSize, start, order);
      || l'.combinedUsageSize + logSize <= l'.combinedUsageMax
      || (l'.combinedUsageSize == 0 && forall k :: k in l'.files ==> l'.files[k].size == 0)
  {
    var l' := EvictCorrected(l, logSize, start, order);
    EvictCorrectedKeepsAccounting(l, logSize, start, order);
    if l'.combinedUsageSize + logSize > l'.combinedUsageMax {
      forall k | k in l'.files ensures FileSize(l'.files[k]) == 0 {
        assert k in l.files;
      }
      SumZero(l'.files, FileSize);
    }
  }

  /** The size cap: a file the line would push over it is emptied, its
      size leaving the combined usage. */
  function CapFile(l: Launcher, id: string, logSize: int): (l': Launcher)
    requires id in l.files
    ensures l'.files.Keys == l.files.Keys && l'.leastRecentlyModified == l.leastRecentlyModified
    ensures l.files[id].size + logSize > l.fileSizeMax ==>
      && l'.files == l.files[id := l.files[id].(size := 0)]
      && l'.combinedUsageSize == l.combinedUsageSize - l.files[id].size
    ensures l.files[id].size + logSize <= l.fileSizeMax ==> l' == l
    ensures l' == l.(files := l'.files, combinedUsageSize := l'.combinedUsageSize)
  {
    var f := l.files[id];
    if f.size + logSize > l.fileSizeMax then
      l.(combinedUsageSize := l.combinedUsageSize - f.size, files := l.files[id := f.(size := 0)])
    else l
  }

  /** The write: the line counts towards the combined usage and the file
      whether or not writing it succeeded, the file is stamped with a new
      reading, and the pointer is recomputed, with a later reading, when it
      was at this file and there are others. */
  function Record(l: Launcher, id: string, logSize: int, order: seq<string>): (l': Launcher)
    requires id in l.files && Tracked(l) && Enumerates(order, l.files)
    ensures Tracked(l') && l'.files.Keys == l.files.Keys
    ensures l'.combinedUsageSize == l.combinedUsageSize + logSize
    ensures l'.files == l.files[id := l.files[id].(lastModified := l.clock + 1, size := l.files[id].size + logSize)]
    ensures l.clock + 1 <= l'.clock <= l.clock + 2
    ensures l' == l.(files := l'.files, combinedUsageSize := l'.combinedUsageSize,
                     leastRecentlyModified := l'.leastRecentlyModified, clock := l'.clock)
    ensures l.leastRecentlyModified != Some(id) || |l.files| == 1 ==>
      l'.leastRecentlyModified == l.leastRecentlyModified
  {
    var g := l.files[id];
    var now := Tick(l);
    var l3 := now.(combinedUsageSize := l.combinedUsageSize + logSize,
                   files := l.files[id := g.(lastModified := now.clock, size := g.size + logSize)]);
    assert l3.files.Keys == l.files.Keys;
    if l3.leastRecentlyModified == Some(id) && |l3.files| > 1 then UpdateLeastRecentlyModified(l3, order)
    else l3
  }

  /** When the pointer was at the file just written and there are others,
      it moves to another file, never to nil. */
  lemma RecordMovesPointer(l: Launcher, id: string, logSize: int, order: seq<string>)
    requires id in l.files && Tracked(l) && Enumerates(order, l.files)
    requires l.leastRecentlyModified == Some(id) && |l.files| > 1
    requires forall k :: k in l.files ==> l.files[k].lastModified <= l.clock
    ensures var l' := Record(l, id, logSize, order);
      l'.leastRecentlyModified.Some? && l'.leastRecentlyModified != Some(id)
  {
    var other :| other in l.files && other != id by {
      assert l.files.Keys != {id};
    }
    var l' := Record(l, id, logSize, order);
    assert l'.files[other].lastModified < l'.files[id].lastModified;
  }

  /** `l'` is `l` once the line of `logSize` bytes from `id` was written:
      the file holds the line, on top of what it held unless it was emptied
      on the way, and was stamped last; the other files were at most
      emptied, before that. */
  predicate Received(l: Launcher, id: string, logSize: int, l': Launcher)
    requires id in l.files
  {
    && Tracked(l') && l'.files.Keys == l.files.Keys && l.clock < l'.clock
    && l' == l.(files := l'.files, combinedUsageSize := l'.combinedUsageSize,
                leastRecentlyModified := l'.leastRecentlyModified, clock := l'.clock)
    && l'.files[id].filename == l.files[id].filename
    && (l'.files[id].size == logSize || l'.files[id].size == l.files[id].size + logSize)
    && (l.files[id].size + logSize > l.fileSizeMax ==> l'.files[id].size == logSize)
    && l.clock < l'.files[id].lastModified <= l'.clock
    && forall k :: k in l.files && k != id ==>
         || l'.files[k] == l.files[k]
         || (&& l'.files[k] == l.files[k].(size := 0, lastModified := l'.files[k].lastModified)
             && l.clock < l'.files[k].lastModified < l'.files[id].lastModified)
  }

  /** Capping, evicting and recording together. */
  lemma ReceivedThrough(l: Launcher, id: string, logSize: int, l2: Launcher, order: seq<string>)
    requires id in l.files && Evicted(CapFile(l, id, logSize), l2) && Enumerates(order, l2.files)
    ensures Received(l, id, logSize, Record(l2, id, logSize, order))
  {
  }

  /** `receiveLogs` as written, for the line `log` from integration `id`,
      with the eviction loop run for at most `fuel` iterations. An
      integration with no file is a nil dereference; a file the line would
      push over its cap is emptied first, and when remaking it fails the
      call returns there; then files are evicted until the line fits, and
      the line is recorded. */
  function ReceiveLogs(l: Launcher, id: string, log: Bytes, order: seq<string>, remakeFails: bool, fuel: nat)
    : (r: Run)
    requires Tracked(l) && Enumerates(order, l.files)
    ensures id !in l.files ==> r == Panics(NilDereference)
    ensures id in l.files && l.files[id].size + |log| + 1 > l.fileSizeMax && remakeFails ==>
      r == Done(l.(combinedUsageSize := l.combinedUsageSize - l.files[id].size))
    ensures r.Done? && id in l.files && !(l.files[id].size + |log| + 1 > l.fileSizeMax && remakeFails) ==>
      Received(l, id, |log| + 1, r.l) && r.l.combinedUsageSize <= r.l.combinedUsageMax
    ensures r.Panics? ==> id !in l.files || l.leastRecentlyModified.None?
  {
    if id !in l.files then Panics(NilDereference)
    else
      var logSize := |log| + 1;
      if l.files[id].size + logSize > l.fileSizeMax && remakeFails then
        Done(l.(combinedUsageSize := l.combinedUsageSize - l.files[id].size))
      else
        var l1 := CapFile(l, id, logSize);
        match EvictAsWritten(l1, logSize, order, fuel)
        case Done(l2) =>
          ReceivedThrough(l, id, logSize, l2, order);
          Done(Record(l2, id, logSize, order))
        case other => other
  }

  /** `receiveLogs` with the corrected eviction loop, which takes a reading
      before it starts: it completes exactly for integrations that have a
      file. */
  function ReceiveLogsCorrected(l: Launcher, id: string, log: Bytes, order: seq<string>, remakeFails: bool)
    : (r: Result<Launcher, string>)
    requires Tracked(l) && Enumerates(order, l.files)
    ensures r.Success? <==> id in l.files
    ensures id in l.files && l.files[id].size + |log| + 1 > l.fileSizeMax && remakeFails ==>
      r == Success(l.(combinedUsageSize := l.combinedUsageSize - l.files[id].size))
    ensures r.Success? && !(l.files[id].size + |log| + 1 > l.fileSizeMax && remakeFails) ==>
      Received(l, id, |log| + 1, r.value)
  {
    if id !in l.files then Failure(NilDereference)
    else
      var logSize := |log| + 1;
      if l.files[id].size + logSize > l.fileSizeMax && remakeFails then
        Success(l.(combinedUsageSize := l.combinedUsageSize - l.files[id].size))
      else
        var l1 := Tick(CapFile(l, id, logSize));
        var l2 := EvictCorrected(l1, logSize, l1.clock, order);
        EvictedTrans(CapFile(l, id, logSize), l1, l2);
        ReceivedThrough(l, id, logSize, l2, order);
        Success(Record(l2, id, logSize, order))
  }

  lemma CapKeepsAccounting(l: Launcher, id: string, logSize: int)
    requires id in l.files && Accounted(l)
    ensures Accounted(CapFile(l, id, logSize))
  {
    if l.files[id].size + logSize > l.fileSizeMax {
      SumUpdate(l.files, id, l.files[id].(size := 0), FileSize);
    }
  }

  lemma RecordKeepsAccounting(l: Launcher, id: string, logSize: int, order: seq<string>)
    requires id in l.files && Tracked(l) && Enumerates(order, l.files) && Accounted(l)
    ensures Accounted(Record(l, id, logSize, order))
  {
    var g := l.files[id];
    SumUpdate(l.files, id, g.(lastModified := l.clock + 1, size := g.size + logSize), FileSize);
  }

  /** A written line keeps sizes non-negative and stamps in the past. */
  lemma ValidAfterReceive(l: Launcher, id: string, logSize: int, r: Launcher)
    requires Valid(l) && id in l.files && logSize >= 1
    requires Received(l, id, logSize, r) && Accounted(r)
    ensures Valid(r)
  {
    forall k | k in r.files ensures r.files[k].size >= 0 && r.files[k].lastModified <= r.clock {
      assert k in l.files;
    }
  }

  /** As written, a completed call keeps the launcher's state valid. */
  lemma ReceiveLogsKeepsValid(l: Launcher, id: string, log: Bytes, order: seq<string>, remakeFails: bool, fuel: nat)
    requires Valid(l) && Enumerates(order, l.files)
    requires id in l.files && !(l.files[id].size + |log| + 1 > l.fileSizeMax && remakeFails)
    ensures var r := ReceiveLogs(l, id, log, order, remakeFails, fuel);
      r.Done? ==> Valid(r.l)
  {
    var logSize := |log| + 1;
    var l1 := CapFile(l, id, logSize);
    CapKeepsAccounting(l, id, logSize);
    var e := EvictAsWritten(l1, logSize, order, fuel);
    if e.Done? {
      RecordKeepsAccounting(e.l, id, logSize, order);
      ValidAfterReceive(l, id, logSize, ReceiveLogs(l, id, log, order, remakeFails, fuel).l);
    }
  }

  /** As written, a line within the budget is written within one eviction
      per file, unless the pointer is nil. */
  lemma ReceiveLogsEnds(l: Launcher, id: string, log: Bytes, order: seq<string>, remakeFails: bool)
    requires Valid(l) && Enumerates(order, l.files) && id in l.files
    requires |log| + 1 <= l.combinedUsageMax
    ensures var r := ReceiveLogs(l, id, log, order, remakeFails, |l.files|);
      r.Done? || (r.Panics? && l.leastRecentlyModified.None?)
  {
    var logSize := |log| + 1;
    if !(l.files[id].size + logSize > l.fileSizeMax && remakeFails) {
      CapKeepsAccounting(l, id, logSize);
      EvictAsWrittenEnds(CapFile(l, id, logSize), logSize, order);
    }
  }

  /** As written, a line larger than the whole budget keeps the loop
      running for ever. */
  lemma ReceiveLogsSpins(l: Launcher, id: string, log: Bytes, order: seq<string>, remakeFails: bool, fuel: nat)
    requires Valid(l) && Enumerates(order, l.files) && id in l.files
    requires l.leastRecentlyModified.Some? && |log| + 1 > l.combinedUsageMax
    requires !(l.files[id].size + |log| + 1 > l.fileSizeMax && remakeFails)
    ensures ReceiveLogs(l, id, log, order, remakeFails, fuel).Spinning?
  {
    CapKeepsAccounting(l, id, |log| + 1);
    EvictSpins(CapFile(l, id, |log| + 1), |log| + 1, order, fuel);
  }

  /** Corrected, a call keeps the launcher's state valid, and the budget
      is exceeded only by a line larger than the whole budget, which is then
      all the launcher holds. */
  lemma ReceiveLogsCorrectedKeepsValid(l: Launcher, id: string, log: Bytes, order: seq<string>, remakeFails: bool)
    requires Valid(l) && Enumerates(order, l.files)
    requires id in l.files && !(l.files[id].size + |log| + 1 > l.fileSizeMax && remakeFails)
    ensures var r := ReceiveLogsCorrected(l, id, log, order, remakeFails).value;
      && Valid(r)
      && (|| r.combinedUsageSize <= r.combinedUsageMax
          || (|log| + 1 > l.combinedUsageMax && r.combinedUsageSize == |log| + 1))
  {
    var logSize := |log| + 1;
    var l0 := CapFile(l, id, logSize);
    CapKeepsAccounting(l, id, logSize);
    var l1 := Tick(l0);
    EvictCorrectedFitsOrEmpty(l1, logSize, l1.clock, order);
    EvictCorrectedKeepsAccounting(l1, logSize, l1.clock, order);
    var l2 := EvictCorrected(l1, logSize, l1.clock, order);
    RecordKeepsAccounting(l2, id, logSize, order);
    var r := Record(l2, id, logSize, order);
    assert r == ReceiveLogsCorrected(l, id, log, order, remakeFails).value;
    ValidAfterReceive(l, id, logSize, r);
  }

  // ---------------------------------------------------------------------
  // Scenarios
  // ---------------------------------------------------------------------

  /** Five and twenty bytes of log. */
  const FiveBytes: Bytes := [0x61, 0x62, 0x63, 0x64, 0x65]
  const TwentyBytes: Bytes := FiveBytes + FiveBytes + FiveBytes + FiveBytes

  /** One integration with an empty file, the pointer at it, and a budget
      of ten bytes. */
  const SmallBudget: Launcher :=
    Launcher("/run", map["a" := FileInfo("/run/a.log", 0, 0)], 100, 10, 0, Some("a"), 0)

  /** As written, a line longer than the whole budget is never written:
      the loop empties the only file over and over. Corrected, it is
      written. */
  lemma LineOverBudgetSpins()
    ensures forall fuel: nat :: ReceiveLogs(SmallBudget, "a", TwentyBytes, ["a"], false, fuel).Spinning?
    ensures ReceiveLogsCorrected(SmallBudget, "a", TwentyBytes, ["a"], false).value.files["a"].size == 21
  {
    assert Valid(SmallBudget) by {
      SumRemove(SmallBudget.files, "a", FileSize);
      assert SmallBudget.files - {"a"} == map[];
    }
    forall fuel: nat ensures ReceiveLogs(SmallBudget, "a", TwentyBytes, ["a"], false, fuel).Spinning? {
      ReceiveLogsSpins(SmallBudget, "a", TwentyBytes, ["a"], false, fuel);
    }
  }

  /** After a start on an empty run path, the launcher with one
      integration's file, and a budget of ten bytes. */
  function FreshStart(): Launcher {
    AddIntegrationFile(NewLauncher("/run", 100, 10, 0), "a", false).value
  }

  /** After a start on an empty run path, the first line is written without
      an eviction and leaves the pointer nil. */
  lemma FreshStartFirstLine()
    ensures var r := ReceiveLogs(FreshStart(), "a", FiveBytes, ["a"], false, 1);
      && r.Done? && r.l.files.Keys == {"a"} && r.l.files["a"].size == 6
      && r.l.combinedUsageSize == 6 && r.l.combinedUsageMax == 10 && r.l.fileSizeMax == 100
      && r.l.leastRecentlyModified.None?
  {
    var l := FreshStart();
    assert l.leastRecentlyModified.None? && l.combinedUsageSize == 0 && l.files["a"].size == 0;
  }

  /** As written, the second line needs an eviction and finds the pointer
      nil. */
  lemma FreshStartSecondLine()
    ensures var r := ReceiveLogs(FreshStart(), "a", FiveBytes, ["a"], false, 1);
      ReceiveLogs(r.l, "a", FiveBytes, ["a"], false, 1) == Panics(NilDereference)
  {
    FreshStartFirstLine();
  }

  /** Corrected, both lines are written to the same file. */
  lemma FreshStartCorrected()
    ensures var c := ReceiveLogsCorrected(FreshStart(), "a", FiveBytes, ["a"], false).value;
      ReceiveLogsCorrected(c, "a", FiveBytes, ["a"], false).value.files["a"].size == 6
  {
    var l := FreshStart();
    assert l.files.Keys == {"a"} && l.files["a"].size == 0;
    ReceiveLogsCorrectedKeepsValid(l, "a", FiveBytes, ["a"], false);
    var c := ReceiveLogsCorrected(l, "a", FiveBytes, ["a"], false).value;
    assert c.files.Keys == {"a"} && c.files["a"].size == 6;
    ReceiveLogsCorrectedKeepsValid(c, "a", FiveBytes, ["a"], false);
    var d := ReceiveLogsCorrected(c, "a", FiveBytes, ["a"], false).value;
    SumRemove(d.files, "a", FileSize);
    assert d.files - {"a"} == map[];
  }

  /** As written, the pointer stays nil after a start on an empty run path,
      since a new integration's file never becomes it, and the first line
      that needs an eviction dereferences it. Corrected, both lines are
      written. */
  lemma FreshStartEvictionPanics()
    ensures ReceiveLogs(FreshStart(), "a", FiveBytes, ["a"], false, 1).Done?
    ensures ReceiveLogs(ReceiveLogs(FreshStart(), "a", FiveBytes, ["a"], false, 1).l, "a", FiveBytes, ["a"], false, 1)
      == Panics(NilDereference)
    ensures var c := ReceiveLogsCorrected(FreshStart(), "a", FiveBytes, ["a"], false).value;
      ReceiveLogsCorrected(c, "a", FiveBytes, ["a"], false).value.files["a"].size == 6
  {
    FreshStartFirstLine();
    FreshStartSecondLine();
    FreshStartCorrected();
  }
}

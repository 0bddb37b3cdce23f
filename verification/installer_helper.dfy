/** The privileged installer helper (pkg/updater/service/helper/main.go): a
    whitelist that turns one JSON-decoded command into the argument vector of
    a process to run as root. Nothing is executed here; the model computes
    the argument vector or the reason for refusing. */
module InstallerHelper {
  import opened Wrappers
  import opened GoStrings

  datatype PrivilegeCommand = PrivilegeCommand(command: string, unit: string, path: string)

  /** What the helper learns from the operating system, left abstract:
      `unicode.IsLower`, `filepath.Abs` (None when it fails), `filepath.Join`,
      the `os.Stat`/owner/mode checks of the installer-helper binary, and the
      build-time install path. */
  datatype Host = Host(
    isLower: char -> bool,
    abs: string -> Option<string>,
    join: seq<string> -> string,
    helperFileOk: string -> bool,
    installPath: string)

  const SystemdPath: string := "/lib/systemd/system"
  const PkgDir: string := "/opt/datadog-packages/"
  const UnitPrefix: string := "datadog-"
  const HelperPackage: string := "datadog-installer"
  const HelperRelPath: string := "bin/installer/installer-helper"

  datatype BuildError =
    | InvalidUnit
    | InvalidCommand
    | InvalidPath
    | HelperOutsidePackages
    | HelperOutsideInstallerPackage
    | HelperNotConcreteVersion
    | HelperUnexpectedPath
    | HelperFileRejected

  predicate ValidUnitChar(h: Host, c: char) {
    h.isLower(c) || c == '.' || c == '-'
  }

  /** `isValidUnitString`: scans left to right and stops at the first bad character. */
  method IsValidUnitString(h: Host, s: string) returns (ok: bool)
    ensures ok <==> forall k :: 0 <= k < |s| ==> ValidUnitChar(h, s[k])
  {
    var i := 0;
    while i < |s|
      invariant 0 <= i <= |s|
      invariant forall k :: 0 <= k < i ==> ValidUnitChar(h, s[k])
    {
      if !ValidUnitChar(h, s[i]) {
        return false;
      }
      i := i + 1;
    }
    return true;
  }

  /** Index of the first '/' in `s` at or after `from`, or |s| when there is none. */
  function FirstSlash(s: string, from: nat): (i: nat)
    requires from <= |s|
    ensures from <= i <= |s|
    ensures i < |s| ==> s[i] == '/'
    ensures forall k :: from <= k < i ==> s[k] != '/'
    decreases |s| - from
  {
    if from == |s| || s[from] == '/' then from else FirstSlash(s, from + 1)
  }

  /** `splitPathPrefix`: splits at the first separator and drops it; with no
      separator both halves are empty. */
  function SplitPathPrefix(path: string): (string, string)
  {
    var i := FirstSlash(path, 0);
    if i < |path| then (path[..i], path[i + 1..]) else ("", "")
  }

  /** A path with a separator is its separator-free head, the separator, and
      the tail; a path without one splits into two empty halves. Kept apart
      from the function so that callers only see these equations on demand. */
  lemma SplitPathPrefixSpec(path: string)
    ensures var r := SplitPathPrefix(path);
      && ('/' in path ==> path == r.0 + "/" + r.1 && '/' !in r.0)
      && ('/' !in path ==> r == ("", ""))
  {
    var i := FirstSlash(path, 0);
    if i < |path| {
      assert path == path[..i] + "/" + path[i + 1..];
    }
  }

  /** The only way a string splits into a separator-free head, '/', and a tail. */
  lemma SplitPathPrefixOf(a: string, b: string)
    requires '/' !in a
    ensures SplitPathPrefix(a + "/" + b) == (a, b)
  {
    var s := a + "/" + b;
    assert s[|a|] == '/';
    assert forall k :: 0 <= k < |a| ==> s[k] == a[k];
    var i := FirstSlash(s, 0);
    assert i == |a|;
    assert s[..i] == a;
    assert s[i + 1..] == b;
  }

  /** The path part of `checkHelperPath`, then the abstract file checks. */
  function CheckHelperPath(h: Host, path: string): Option<BuildError>
  {
    if !HasPrefix(path, PkgDir) then Some(HelperOutsidePackages)
    else
      var target := path[|PkgDir|..];
      var (helperPackage, rest) := SplitPathPrefix(target);
      if helperPackage != HelperPackage then Some(HelperOutsideInstallerPackage)
      else
        var (version, helperPath) := SplitPathPrefix(rest);
        if version == "stable" || version == "experiment" then Some(HelperNotConcreteVersion)
        else if helperPath != HelperRelPath then Some(HelperUnexpectedPath)
        else if !h.helperFileOk(path) then Some(HelperFileRejected)
        else None
  }

  /** A path the check lets through has the whitelisted shape. */
  lemma CheckHelperPathSound(h: Host, path: string)
    requires CheckHelperPath(h, path) == None
    ensures HelperPathShape(h, path)
  {
    var target := path[|PkgDir|..];
    var version := SplitPathPrefix(SplitPathPrefix(target).1).0;
    assert path == PkgDir + target;
    TwoSplits(path, PkgDir, HelperPackage, HelperRelPath);
    assert path == HelperPath(version);
  }

  /** A path under `dir` whose first two separator splits give a non-empty
      `pkg` and then a non-empty `rel` is `dir`, `pkg`, a separator-free
      version, and `rel`, joined by separators. */
  lemma TwoSplits(path: string, dir: string, pkg: string, rel: string)
    requires |dir| <= |path| && path == dir + path[|dir|..]
    requires pkg != "" && rel != ""
    requires SplitPathPrefix(path[|dir|..]).0 == pkg
    requires SplitPathPrefix(SplitPathPrefix(path[|dir|..]).1).1 == rel
    ensures var version := SplitPathPrefix(SplitPathPrefix(path[|dir|..]).1).0;
      path == dir + pkg + "/" + version + "/" + rel && '/' !in version
  {
    var target := path[|dir|..];
    var mid := SplitPathPrefix(target).1;
    SplitPathPrefixSpec(target);
    SplitPathPrefixSpec(mid);
    var version := SplitPathPrefix(mid).0;
    Reassemble(path, dir, target, pkg, mid, version, rel);
  }

  /** Two splits at separators, put back together. */
  lemma Reassemble(path: string, dir: string, target: string, pkg: string, mid: string,
                   version: string, rel: string)
    requires path == dir + target
    requires target == pkg + "/" + mid
    requires mid == version + "/" + rel
    ensures path == dir + pkg + "/" + version + "/" + rel
  {
  }

  /** The one location a helper binary may have, for a given version directory. */
  function HelperPath(version: string): string {
    PkgDir + HelperPackage + "/" + version + "/" + HelperRelPath
  }

  /** The whitelisted setcap target: the installer-helper of a concrete
      (neither "stable" nor "experiment") installer version. */
  ghost predicate HelperPathShape(h: Host, path: string) {
    exists version: string {:trigger HelperPath(version)} ::
      && path == HelperPath(version)
      && '/' !in version
      && version != "stable" && version != "experiment"
      && h.helperFileOk(path)
  }

  /** Conversely, every path of that shape passes the check. */
  lemma CheckHelperPathComplete(h: Host, version: string)
    requires '/' !in version
    requires version != "stable" && version != "experiment"
    requires h.helperFileOk(HelperPath(version))
    ensures CheckHelperPath(h, HelperPath(version)) == None
  {
    var path := HelperPath(version);
    var target := HelperPackage + "/" + (version + "/" + HelperRelPath);
    assert path == PkgDir + target;
    assert path[|PkgDir|..] == target;
    assert '/' !in HelperPackage;
    SplitPathPrefixOf(HelperPackage, version + "/" + HelperRelPath);
    SplitPathPrefixOf(version, HelperRelPath);
  }

  predicate ValidUnitString(h: Host, s: string) {
    forall k :: 0 <= k < |s| ==> ValidUnitChar(h, s[k])
  }

  /** A unit the helper may act on. */
  predicate AcceptableUnit(h: Host, unit: string) {
    HasPrefix(unit, UnitPrefix) && ValidUnitString(h, unit)
  }

  /** `buildUnitCommand`: a systemd verb on a datadog unit, or copying/removing
      its unit file. */
  function BuildUnitCommand(h: Host, c: PrivilegeCommand): (r: Result<seq<string>, BuildError>)
    ensures !AcceptableUnit(h, c.unit) ==> r == Failure(InvalidUnit)
    ensures AcceptableUnit(h, c.unit) ==>
      (r.Success? <==> c.command in {"stop", "enable", "disable", "start", "load-unit", "remove-unit"})
    ensures r.Failure? ==> r.error in {InvalidUnit, InvalidCommand}
    ensures r.Success? ==> c.unit in r.value || h.join([SystemdPath, c.unit]) in r.value
    ensures r.Success? && c.command in {"stop", "enable", "disable"} ==>
      r.value == ["systemctl", c.command, c.unit]
    ensures r.Success? && c.command == "start" ==> r.value == ["systemctl", "start", c.unit, "--no-block"]
    ensures r.Success? && c.command == "load-unit" ==>
      r.value == ["cp", h.join([h.installPath, "systemd", c.unit]), h.join([SystemdPath, c.unit])]
    ensures r.Success? && c.command == "remove-unit" ==> r.value == ["rm", h.join([SystemdPath, c.unit])]
  {
    if !AcceptableUnit(h, c.unit) then Failure(InvalidUnit)
    else match c.command
      case "stop" => Success(["systemctl", c.command, c.unit])
      case "enable" => Success(["systemctl", c.command, c.unit])
      case "disable" => Success(["systemctl", c.command, c.unit])
      case "start" => Success(["systemctl", c.command, c.unit, "--no-block"])
      case "load-unit" =>
        Success(["cp", h.join([h.installPath, "systemd", c.unit]), h.join([SystemdPath, c.unit])])
      case "remove-unit" => Success(["rm", h.join([SystemdPath, c.unit])])
      case _ => Failure(InvalidCommand)
  }

  /** A path the helper may act on: already absolute and clean, inside the
      packages directory. */
  predicate AcceptablePath(h: Host, path: string) {
    h.abs(path) == Some(path) && HasPrefix(path, PkgDir)
  }

  /** `buildPathCommand`: recursive chown, recursive remove, or setcap on the
      installer helper. */
  function BuildPathCommand(h: Host, c: PrivilegeCommand): (r: Result<seq<string>, BuildError>)
    ensures !AcceptablePath(h, c.path) ==> r == Failure(InvalidPath)
    ensures AcceptablePath(h, c.path) && c.command !in {"chown dd-agent", "rm", "setcap cap_setuid+ep"} ==>
      r == Failure(InvalidCommand)
    ensures r.Success? ==> AcceptablePath(h, c.path) && |r.value| >= 2 && r.value[|r.value| - 1] == c.path
    ensures r.Success? ==> r.value[0] in {"chown", "rm", "setcap"}
    ensures r.Success? && r.value[0] == "setcap" ==> CheckHelperPath(h, c.path) == None
  {
    if !AcceptablePath(h, c.path) then Failure(InvalidPath)
    else if c.command == "chown dd-agent" then Success(["chown", "-R", "dd-agent:dd-agent", c.path])
    else if c.command == "rm" then Success(["rm", "-rf", c.path])
    else if c.command != "setcap cap_setuid+ep" then Failure(InvalidCommand)
    else if CheckHelperPath(h, c.path).Some? then Failure(CheckHelperPath(h, c.path).value)
    else Success(["setcap", "cap_setuid+ep", c.path])
  }

  const AgentStableBinary: string := "/opt/datadog-packages/datadog-agent/stable/bin/agent/agent"
  const AgentSymlink: string := "/usr/bin/datadog-agent"

  /** `buildCommand`: a non-empty unit selects a unit command, otherwise a
      non-empty path selects a path command, otherwise only three fixed
      commands are known. */
  function BuildCommand(h: Host, c: PrivilegeCommand): (r: Result<seq<string>, BuildError>)
    ensures c.unit != "" ==> r == BuildUnitCommand(h, c)
    ensures c.unit == "" && c.path != "" ==> r == BuildPathCommand(h, c)
    ensures c.unit == "" && c.path == "" ==>
      (r.Success? <==> c.command in {"systemd-reload", "agent-symlink", "rm-agent-symlink"})
  {
    if c.unit != "" then BuildUnitCommand(h, c)
    else if c.path != "" then BuildPathCommand(h, c)
    else match c.command
      case "systemd-reload" => Success(["systemctl", "daemon-reload"])
      case "agent-symlink" => Success(["ln", "-sf", AgentStableBinary, AgentSymlink])
      case "rm-agent-symlink" => Success(["rm", "-f", AgentSymlink])
      case _ => Failure(InvalidCommand)
  }

  /** The programs the helper can ever start. */
  const Programs: set<string> := {"systemctl", "cp", "rm", "ln", "chown", "setcap"}

  /** Whatever the input, an accepted command starts a whitelisted program,
      and a program touching a unit or a package path only does so after the
      unit or path has been validated. */
  lemma BuildCommandWhitelist(h: Host, c: PrivilegeCommand)
    requires BuildCommand(h, c).Success?
    ensures |BuildCommand(h, c).value| >= 2
    ensures BuildCommand(h, c).value[0] in Programs
    ensures c.unit != "" ==> AcceptableUnit(h, c.unit)
    ensures c.unit == "" && c.path != "" ==> AcceptablePath(h, c.path)
    ensures BuildCommand(h, c).value[0] == "setcap" ==> HelperPathShape(h, c.path)
  {
    if BuildCommand(h, c).value[0] == "setcap" {
      CheckHelperPathSound(h, c.path);
    }
  }

  /** Outcome of `executeCommand`, up to the point where the process runs. */
  datatype Execution =
    | WrongArgumentCount
    | DecodeFailed
    | Rejected(reason: BuildError)
    | NotPermitted
    | Runs(argv: seq<string>)

  /** `executeCommand`: exactly one argument, decodable into a command, which
      is built BEFORE any privilege check or change. `decode` stands for
      `json.Unmarshal`; `privilegeOk` for the uid lookup and setuid steps. */
  function ExecuteCommand(h: Host, args: seq<string>, decode: string -> Option<PrivilegeCommand>,
                          privilegeOk: bool): (r: Execution)
    ensures |args| != 2 ==> r == WrongArgumentCount
    ensures r.Runs? ==> privilegeOk && |args| == 2 && decode(args[1]).Some?
                        && BuildCommand(h, decode(args[1]).value) == Success(r.argv)
    ensures |args| == 2 && decode(args[1]).None? ==> r == DecodeFailed
    ensures |args| == 2 && decode(args[1]).Some? && BuildCommand(h, decode(args[1]).value).Failure? ==>
      r == Rejected(BuildCommand(h, decode(args[1]).value).error)
    ensures |args| == 2 && decode(args[1]).Some? && BuildCommand(h, decode(args[1]).value).Success? ==>
      r == (if privilegeOk then Runs(BuildCommand(h, decode(args[1]).value).value) else NotPermitted)
  {
    if |args| != 2 then WrongArgumentCount
    else match decode(args[1])
      case None => DecodeFailed
      case Some(pc) =>
        match BuildCommand(h, pc)
        case Failure(e) => Rejected(e)
        case Success(argv) => if privilegeOk then Runs(argv) else NotPermitted
  }
}

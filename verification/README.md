# Datadog Agent core decisions, modelled in Dafny

This project models, as pure Dafny functions and small methods, the decision
logic of eleven Go source files of the Datadog Agent:

- the remote-configuration service: option validation, the refresh cycle and
  its error reporting, client request validation, director roots and the
  target-file diff served to clients (`pkg/config/remote/service/service.go`);
- the trace agent's container-ID resolution from the Local Data, Container-ID
  and External Data headers, and its expiring cache
  (`pkg/trace/api/container_linux.go`);
- the cluster agent's auto-instrumentation: the remote-configuration provider,
  the request check and the instrumentation configuration cache
  (`pkg/clusteragent/admission/mutate/autoinstrumentation/`);
- the admission webhook that injects the agent's address into pods
  (`pkg/clusteragent/admission/mutate/config/config.go`);
- the network tracer's process cache (`pkg/network/tracer/process_cache.go`);
- the updater's privileged helper, which whitelists the commands it runs
  (`pkg/updater/service/helper/main.go`);
- the security module's approver bitmask combinations and path pattern
  matcher (`pkg/security/secl/rules/approvers.go`,
  `pkg/security/utils/path_linux.go`);
- the integrations log launcher's file naming and disk-usage accounting
  (`pkg/logs/launchers/integration/launcher.go`).

Go maps are modelled as Dafny `map`s. Wherever the source iterates a map, the
iteration order is an explicit `seq` parameter that enumerates the keys. Go
pointers that can be nil are `Option`s. A nil dereference or other panic is a
`Failure`. Clocks, file systems, the network and every collaborator the
source calls through an interface are parameters: function values or records
of function values. The Go standard-library functions the core relies on are
modelled once, in `GoStrings`, `Wrappers` and `IntegrationLauncher` (for
`path/filepath`).

## Model

| member | source | states |
|---|---|---|
| Wrappers.WrapInt64 | pkg/config/remote/service/service.go:624 | The int64 product wraps into the int64 range and is the identity on values already in range. |
| Wrappers.Saturate64 | pkg/trace/api/container_linux.go:389 | A time difference saturates to the int64 range, as `time.Time.Sub` does. |
| GoStrings.DecimalString | pkg/clusteragent/admission/mutate/autoinstrumentation/configuration_cache.go:259 | The `%d` rendering of a revision version is non-empty and all digits. |
| GoStrings.Itoa | pkg/trace/api/container_linux.go:277 | `strconv.Itoa`: a non-negative number is its decimal digits without a leading zero, reading back as the number; a negative one is '-' followed by the digits of its magnitude. |
| GoStrings.ParseUint64 | pkg/trace/api/container_linux.go:241 | An inode string parses exactly when it is a non-empty run of digits whose value fits in 64 bits, and then to that value. |
| GoStrings.DigitsValueOfDecimal | pkg/trace/api/container_linux.go:241 | Parsing the decimal rendering of a number gives the number back. |
| GoStrings.ParseBool | pkg/trace/api/container_linux.go:304 | The accepted spellings of true and of false, both directions. |
| GoStrings.ParseFormatBool | pkg/clusteragent/admission/mutate/config/config.go:230 | Parsing a formatted boolean gives the boolean back. |
| GoStrings.ToLower | pkg/clusteragent/admission/mutate/config/config.go:213 | Same length; ASCII capitals are lowered and every other character is kept. |
| GoStrings.Split | pkg/trace/api/container_linux.go:215 | At least one piece, and no piece holds the separator. |
| GoStrings.JoinSplit | pkg/trace/api/container_linux.go:301 | Joining the pieces of a split with the separator gives the string back. |
| GoStrings.SplitJoin | pkg/trace/api/container_linux.go:301 | Splitting a join of separator-free pieces gives the pieces back. |
| GoStrings.SplitLength | pkg/security/utils/path_linux.go:64-104 | A split has one piece more than there are separators. |
| GoStrings.TrimSuffix | pkg/logs/launchers/integration/launcher.go:361 | With the suffix present, the result followed by the suffix is the input; without it the input is unchanged. |
| GoStrings.ReplaceAll | pkg/logs/launchers/integration/launcher.go:277 | Same length, every occurrence of the character replaced, everything else kept. |
| GoStrings.LastIndex | pkg/logs/launchers/integration/launcher.go:362 | -1 exactly when the character is absent; otherwise a position holding it with none after. |
| Approvers.BitmaskCombinations | pkg/security/secl/rules/approvers.go:51-69 | 2^n combinations for n masks, entry i being the OR of the masks selected by the bits of i; no combination for no masks or for 64 or more. |
| Approvers.FirstCombinationIsEmpty | pkg/security/secl/rules/approvers.go:58-66 | The first combination selects no mask and is 0. |
| Approvers.LastCombinationIsOrAll | pkg/security/secl/rules/approvers.go:58-66 | The last combination is the OR of every mask. |
| Approvers.CombinationWithinOrAll | pkg/security/secl/rules/approvers.go:58-66 | Every combination carries only bits of the OR of all masks. |
| Approvers.CombinationsShape | pkg/security/secl/rules/approvers.go:51-69 | The returned list starts at 0, ends at the OR of all masks and stays within it. |
| PathMatch.PatternMatch | pkg/security/utils/path_linux.go:22-115 | The single-pass matcher accepts exactly the pairs the segment-wise reference `Matches` accepts. |
| PathMatch.PathPatternMatch | pkg/security/utils/path_linux.go:17-19 | The path matcher is the reference with '/' as separator. |
| PathMatch.Scan | pkg/security/utils/path_linux.go:64-86 | The main loop rejects only non-matching pairs and otherwise ends with the scan invariant at the end of one string. |
| PathMatch.NoSeparatorFrom | pkg/security/utils/path_linux.go:88-104 | The trailing loops succeed exactly when the rest of the string holds no separator. |
| PathMatch.SeparatorPair | pkg/security/utils/path_linux.go:66-74 | At a separator pair, a failed node check means no match; otherwise the invariant holds one segment further. |
| PathMatch.ScanAdvance | pkg/security/utils/path_linux.go:76-85 | Any other step keeps the invariant, marking a wildcard when the characters differ. |
| PathMatch.NodeStep | pkg/security/utils/path_linux.go:29-53 | One `computeNode` call succeeds exactly when the reference accepts the segments so far, and updates the counters to the reference's. |
| PathMatch.LastSegment | pkg/security/utils/path_linux.go:106-114 | The final node check and the suffix requirement decide the match exactly. |
| PathMatch.SeparatorCountsMustAgree | pkg/security/utils/path_linux.go:64-104 | A pattern and a path with different numbers of separators never match. |
| PathMatch.IdenticalMatches | pkg/security/utils/path_linux.go:22-115 | With no suffix requirement a string matches itself exactly when it is rooted. |
| PathMatch.TooManyWildcards | pkg/security/utils/path_linux.go:30-34 | More differing segments than the wildcard limit never match. |
| PathMatch.EarlyOrShortWildcard | pkg/security/utils/path_linux.go:35-40 | A differing segment before the required prefix, or shorter than the node size limit, never matches. |
| InstallerHelper.IsValidUnitString | pkg/updater/service/helper/main.go:42-53 | A unit name is valid exactly when every character is allowed. |
| InstallerHelper.SplitPathPrefixSpec | pkg/updater/service/helper/main.go:55-62 | A path with a '/' is its slash-free head, '/', and the tail; otherwise both halves are empty. |
| InstallerHelper.SplitPathPrefixOf | pkg/updater/service/helper/main.go:55-62 | Splitting a slash-free head joined to a tail gives both back. |
| InstallerHelper.CheckHelperPathSound | pkg/updater/service/helper/main.go:64-99 | A path the check accepts is a versioned installer helper path. |
| InstallerHelper.CheckHelperPathComplete | pkg/updater/service/helper/main.go:64-99 | Every versioned installer helper path is accepted, provided the file itself passes the ownership and mode checks (`h.helperFileOk(path)`, lines 80-97). |
| InstallerHelper.BuildUnitCommand | pkg/updater/service/helper/main.go:121-140 | An invalid unit is refused; a valid one accepts exactly the six unit verbs, each with its exact argument vector: `systemctl <verb> <unit>`, `--no-block` added for start, `cp` from the install path's systemd directory for load-unit, `rm` from the systemd directory for remove-unit. |
| InstallerHelper.BuildPathCommand | pkg/updater/service/helper/main.go:142-166 | An invalid path is refused, only three commands are known, the path is the last argument, and `setcap` only targets a path the helper-path check accepts. |
| InstallerHelper.BuildCommand | pkg/updater/service/helper/main.go:101-119 | A unit selects unit commands, else a path selects path commands, else exactly three fixed commands are accepted. |
| InstallerHelper.BuildCommandWhitelist | pkg/updater/service/helper/main.go:101-166 | Every accepted command starts a whitelisted program, and only after its unit or path was validated. |
| InstallerHelper.ExecuteCommand | pkg/updater/service/helper/main.go:168-208 | Exactly one argument is required; an undecodable one is a decoding error; a build error is reported as such; a built command runs exactly when privileges were obtained, and is refused otherwise. |
| RcRequest.Validate | pkg/clusteragent/admission/mutate/autoinstrumentation/rc_request.go:60-68 | A request is valid exactly when it names a library language and version; the language is checked first. |
| RcRequest.ValidateIgnoresCluster | pkg/clusteragent/admission/mutate/autoinstrumentation/rc_request.go:60-68 | Validation does not depend on the cluster name. |
| RcProvider.NewProvider | pkg/clusteragent/admission/mutate/autoinstrumentation/rc_provider.go:41-60 | A nil client is exactly the error case, with its message; otherwise the provider is for the given cluster, with no subscribers, no applied IDs and revision 0. |
| RcProvider.Subscribe | pkg/clusteragent/admission/mutate/autoinstrumentation/rc_provider.go:80-84 | A fresh channel replaces the kind's; other subscriptions and the revision are kept. |
| RcProvider.FindCluster | pkg/clusteragent/admission/mutate/autoinstrumentation/rc_provider.go:136-142 | The scan finds a target exactly when some target names the cluster. |
| RcProvider.ShouldSkipConfig | pkg/clusteragent/admission/mutate/autoinstrumentation/rc_provider.go:120-147 | A request is kept exactly when it has cluster targets, a newer revision, and a target naming this cluster. |
| RcProvider.Process | pkg/clusteragent/admission/mutate/autoinstrumentation/rc_provider.go:87-118 | Without a cluster subscriber nothing changes; otherwise the kept requests are sent in order, acknowledged, recorded and the last revision advanced. |
| RcProvider.ForwardedAfter | pkg/clusteragent/admission/mutate/autoinstrumentation/rc_provider.go:101-113 | Forwarded revisions are newer than the last one applied, strictly increase and name this cluster. |
| RcProvider.ReplayIsDropped | pkg/clusteragent/admission/mutate/autoinstrumentation/rc_provider.go:101-104 | Redelivering only already-applied revisions changes nothing and acknowledges nothing. |
| ConfigurationCache.NewConfiguration | pkg/clusteragent/admission/mutate/autoinstrumentation/configuration_cache.go:316-337 | Each nil argument leaves its field at the zero value; the others are taken as given. |
| ConfigurationCache.LocalNamespaceMap | pkg/clusteragent/admission/mutate/autoinstrumentation/configuration_cache.go:68-73 | When enabled locally, exactly the local namespaces map to the local rule; otherwise the map is empty. |
| ConfigurationCache.NewCache | pkg/clusteragent/admission/mutate/autoinstrumentation/configuration_cache.go:53-88 | A nil enabled flag, or enabled with nil namespaces, panics; otherwise both configurations start from the local one with nothing recorded. |
| ConfigurationCache.AppendNamespaces | pkg/clusteragent/admission/mutate/autoinstrumentation/configuration_cache.go:250-266 | Exactly the unmapped requested namespaces are appended and mapped to the rule; mapped ones are reported and existing entries kept. |
| ConfigurationCache.ReenableNamespaces | pkg/clusteragent/admission/mutate/autoinstrumentation/configuration_cache.go:269-285 | Requested namespaces leave the disabled set and those that were disabled map to the rule. |
| ConfigurationCache.EnableNamespaces | pkg/clusteragent/admission/mutate/autoinstrumentation/configuration_cache.go:287-305 | Every requested namespace is appended and mapped to the rule. |
| ConfigurationCache.UpdateConfigurationSpec | pkg/clusteragent/admission/mutate/autoinstrumentation/configuration_cache.go:222-314 | Each state and request combination: refused disabling, refused namespaces when enabled cluster-wide, namespace appends, re-enabling, enabling from disabled, the no-op; remote configuration only widens what is enabled. |
| ConfigurationCache.UpdateLive | pkg/clusteragent/admission/mutate/autoinstrumentation/configuration_cache.go:216-219 | A nil enabled flag panics; an unaliased local configuration is untouched, an aliased one follows the current one. |
| ConfigurationCache.Replay | pkg/clusteragent/admission/mutate/autoinstrumentation/configuration_cache.go:216-219 | Replaying from unaliased state never touches the local configuration. |
| ConfigurationCache.ApplyEnable | pkg/clusteragent/admission/mutate/autoinstrumentation/configuration_cache.go:128-142 | An applied revision is recorded in order, by number, with its configuration ID. |
| ConfigurationCacheReplay.ApplyEnablesIsReplay | pkg/clusteragent/admission/mutate/autoinstrumentation/configuration_cache.go:128-142 | Applying revisions one by one is a replay of their configurations and records them in order. |
| ConfigurationCache.FirstWithId | pkg/clusteragent/admission/mutate/autoinstrumentation/configuration_cache.go:194-204 | The index of the first revision carrying the configuration ID, or the end. |
| ConfigurationCache.ConfigsOf | pkg/clusteragent/admission/mutate/autoinstrumentation/configuration_cache.go:216-218 | The configurations replayed, one per recorded revision, zero for a missing one. |
| ConfigurationCacheReplay.RemovalMatchesReference | pkg/clusteragent/admission/mutate/autoinstrumentation/configuration_cache.go:194-204 | Removing a configuration's first revision leaves the revisions of never having applied it, in order. |
| ConfigurationCache.ResetAsWritten | pkg/clusteragent/admission/mutate/autoinstrumentation/configuration_cache.go:214-220 | As written, a reset leaves the two configurations aliased and keeps every namespace map entry. |
| ConfigurationCache.ReplayAliased | pkg/clusteragent/admission/mutate/autoinstrumentation/configuration_cache.go:216-219 | Replaying from aliased state stays aliased and only grows the namespace map. |
| ConfigurationCache.ResetCorrected | pkg/clusteragent/admission/mutate/autoinstrumentation/configuration_cache.go:214-220 | The corrected reset never changes the local configuration. |
| ConfigurationCache.DisableConfiguration | pkg/clusteragent/admission/mutate/autoinstrumentation/configuration_cache.go:181-212 | As written: acknowledged, the ID forgotten, at most one revision dropped, and the configurations left aliased. |
| ConfigurationCache.DisableConfigurationCorrected | pkg/clusteragent/admission/mutate/autoinstrumentation/configuration_cache.go:181-212 | Corrected: acknowledged, the ID forgotten, the local configuration unchanged. |
| ConfigurationCacheReplay.DisableForgetsRevision | pkg/clusteragent/admission/mutate/autoinstrumentation/configuration_cache.go:181-220 | With the corrected reset, disabling a configuration gives exactly the state of never having applied its first revision. |
| ConfigurationCacheReplay.AliasedResetKeepsRevokedEnablement | pkg/clusteragent/admission/mutate/autoinstrumentation/configuration_cache.go:215 | As written, enabling and disabling twice leaves instrumentation enabled, locally too. |
| ConfigurationCacheReplay.CorrectedResetRestoresLocal | pkg/clusteragent/admission/mutate/autoinstrumentation/configuration_cache.go:214-220 | Corrected, the same sequence returns to the disabled local configuration. |
| ConfigurationCacheReplay.StaleNamespaceMapDropsReplayedNamespace | pkg/clusteragent/admission/mutate/autoinstrumentation/configuration_cache.go:214-220 | As written, disabling A loses the namespace that B enabled. |
| ConfigurationCacheReplay.CorrectedResetKeepsReplayedNamespace | pkg/clusteragent/admission/mutate/autoinstrumentation/configuration_cache.go:214-220 | Corrected, disabling A keeps B's namespace. |
| ConfigWebhook.InjectionMode | pkg/clusteragent/admission/mutate/config/config.go:211-224 | A valid label, lowered, overrides the global mode; otherwise the global mode stands. |
| ConfigWebhook.InjectionModeIgnoresCase | pkg/clusteragent/admission/mutate/config/config.go:212-213 | Labels equal up to letter case select the same mode. |
| ConfigWebhook.BuildExternalEnv | pkg/clusteragent/admission/mutate/config/config.go:227-232 | The External Data variable is always built, with a literal value. |
| ConfigWebhook.ExternalEnvRoundTrip | pkg/clusteragent/admission/mutate/config/config.go:227-232 | The trace agent's External Data parser reads back init, the container name and the pod UID reference. |
| ConfigWebhook.ExternalEnvSplits | pkg/clusteragent/admission/mutate/config/config.go:230 | The value splits into its three prefixed items. |
| ConfigWebhook.BuildVolume | pkg/clusteragent/admission/mutate/config/config.go:253-273 | The volume and its mount share the name and the path, the mount has the requested read-only flag, and the host path is of type HostPathDirectoryOrCreate. |
| ConfigWebhook.ModeSteps | pkg/clusteragent/admission/mutate/config/config.go:186-200 | Host and service modes inject one address variable; socket mode a volume and the two socket variables. |
| ConfigWebhook.Inject | pkg/clusteragent/admission/mutate/config/config.go:174-208 | A nil pod and an invalid mode are errors; a filtered pod is untouched; otherwise it is mutated without error. |
| ConfigWebhook.InjectFollowsSteps | pkg/clusteragent/admission/mutate/config/config.go:186-207 | The mode's mutations, then the common ones, each once and in order; injected exactly when one changed the pod. |
| ConfigWebhook.SocketModeAttemptsAll | pkg/clusteragent/admission/mutate/config/config.go:191-196 | In socket mode all three mutations are attempted and any of them counts. |
| ConfigWebhook.NothingChangedNotInjected | pkg/clusteragent/admission/mutate/config/config.go:174-208 | A pod no mutation changes is reported as not injected. |
| ContainerId.NewCache | pkg/trace/api/container_linux.go:372-377 | A new cache is empty. |
| ContainerId.Get | pkg/trace/api/container_linux.go:380-398 | Not found exactly for a non-positive validity, a missing key or an expired entry; otherwise the stored value or error. |
| ContainerId.Store | pkg/trace/api/container_linux.go:401-411 | The entry is stored at the current time; the map is dropped first when collection is due and kept otherwise. |
| ContainerId.StoreThenGet | pkg/trace/api/container_linux.go:380-411 | A value stored now is found now. |
| ContainerId.StoreKeepsOthers | pkg/trace/api/container_linux.go:401-411 | Storing a key leaves other lookups unchanged unless the store collected. |
| ContainerId.StorePreservesStamps | pkg/trace/api/container_linux.go:401-411 | With a monotone clock, every entry stays stamped after the last collection. |
| ContainerId.GetCached | pkg/trace/api/container_linux.go:331-351 | A hit is returned as is; on a miss the retrieval's outcome, success or error, is returned and stored. |
| ContainerId.GetCachedMemoizes | pkg/trace/api/container_linux.go:331-351 | A second lookup at the same time returns the first outcome without retrieving. |
| ContainerId.InodeRetrieval | pkg/trace/api/container_linux.go:240-260 | Succeeds exactly when the inode parses and is found, directly or after one successful refresh, and then gives the container found, from the first lookup or else from the one after the refresh. |
| ContainerId.ResolveFromInode | pkg/trace/api/container_linux.go:238-268 | A cached outcome is returned as is; on a miss the reader's outcome is cached and its container returned, and every error (unparsable inode, refresh failure, not found) gives "". |
| ContainerId.ResolveFromPid | pkg/trace/api/container_linux.go:272-289 | No credentials give ""; otherwise the decimal pid is the key, a hit is returned as is, and on a miss the procfs outcome is cached and its container, or "", returned. |
| ContainerId.ResolveFromLocalData | pkg/trace/api/container_linux.go:185-206 | A header with ',' is resolved as a list; otherwise a legacy or `ci-` value gives its ID, an `in-` value its inode's container, anything else "". |
| ContainerId.ScanLocalData | pkg/trace/api/container_linux.go:214-222 | The list scan keeps the value of the last `ci-` item, against the `LastWithPrefix` reference; without `in-` items the cache and the inode result are untouched. |
| ContainerId.ScanLastInode | pkg/trace/api/container_linux.go:214-222 | The inode result of the list scan is the resolution of the last `in-` item, against the cache as the items before it left it. |
| ContainerId.ResolveFromLocalDataList | pkg/trace/api/container_linux.go:209-235 | The whole header is the cache key; on a miss the outcome is cached, a non-empty last `ci-` value wins, otherwise the last `in-` item's resolution is returned, and a list with neither gives "". |
| ContainerId.ScanExternalData | pkg/trace/api/container_linux.go:301-313 | Each External Data field comes from the last item with its prefix, and keeps its starting value without one. |
| ContainerId.ParseExternalData | pkg/trace/api/container_linux.go:292-313 | The container name and pod UID are the last values with their prefixes, or ""; init is true exactly when the last init item parses as true. |
| ContainerId.Resolve | pkg/trace/api/container_linux.go:154-176 | Local Data decides first, then the Container-ID header, then the connection's pid. |
| ContainerId.GetContainerIDAsWritten | pkg/trace/api/container_linux.go:154-176 | As written: Local Data, then the Container-ID header, then the pid; a pid lookup writes the key an inode lookup of the same number reads. |
| ContainerId.GetContainerID | pkg/trace/api/container_linux.go:154-176 | The same precedence with pid and inode cached under distinct keys; a pid lookup leaves every inode entry as it was. |
| ContainerId.Precedence | pkg/trace/api/container_linux.go:154-176 | Lower-precedence inputs, and the External Data header, never change the outcome. |
| ContainerId.PidLookupLeavesInodeEntry | pkg/trace/api/container_linux.go:272-289 | With separate keys a pid lookup never writes an inode entry. |
| ContainerId.PidLookupLeavesInodeEntries | pkg/trace/api/container_linux.go:272-289 | The same for every inode at once. |
| ContainerId.SharedKeyReturnsPidContainer | pkg/trace/api/container_linux.go:238-289 | As written, an inode lookup after a pid lookup of the same number answers with the pid's container. |
| ContainerId.SeparateKeysReturnInodeContainer | pkg/trace/api/container_linux.go:238-289 | With separate keys the inode's own container is returned. |
| ProcessCache.EnvKey | pkg/network/tracer/process_cache.go:143 | The name of an environment entry is the prefix before its first '='. |
| ProcessCache.FilterEnvs | pkg/network/tracer/process_cache.go:141-155 | No filter keeps every entry; otherwise the matching entries in order, at most as many as the filter has names. |
| ProcessCache.ProcessEvent | pkg/network/tracer/process_cache.go:136-168 | Exit events pass; others are kept exactly when they have a container ID, no filter is set or an entry matched, with only their envs filtered. |
| ProcessCache.FirstWithStart | pkg/network/tracer/process_cache.go:318-323 | The first position with the start time, or none when absent. |
| ProcessCache.Update | pkg/network/tracer/process_cache.go:317-336 | A known start time is replaced in place; otherwise the process is appended, the oldest dropped when full, and reported added only when not full. |
| ProcessCache.UpdateKeepsStartsDistinct | pkg/network/tracer/process_cache.go:317-336 | Start times stay distinct and the updated process is the one found for its start time. |
| ProcessCache.RemoveFromList | pkg/network/tracer/process_cache.go:338-346 | The first occurrence of the process is removed, order kept; absent, nothing changes. |
| ProcessCache.Closest | pkg/network/tracer/process_cache.go:348-367 | None exactly when all start later; otherwise the nearest start at or before the time, the first on ties. |
| ProcessCache.NewCache | pkg/network/tracer/process_cache.go:82-112 | Empty, count 0, with the given maximum and filter. |
| ProcessCache.Add | pkg/network/tracer/process_cache.go:239-267 | Refused at the maximum; otherwise merged into its pid's list with a two-minute expiry, the pid live again, the count raised only when added. |
| ProcessCache.Remove | pkg/network/tracer/process_cache.go:226-237 | Only marks the pid exited, creating an entry for an unknown pid; the count is untouched. |
| ProcessCache.TrimList | pkg/network/tracer/process_cache.go:187-200 | The kept processes are exactly the unexpired ones, as a multiset, and the dropped count makes up the difference. |
| ProcessCache.TrimPid | pkg/network/tracer/process_cache.go:180-208 | One pid's step: dropped when exited or emptied, otherwise its unexpired list kept; the count falls by the pid's cost. |
| ProcessCache.TrimPidsOutcome | pkg/network/tracer/process_cache.go:170-216 | Over distinct pids: the trimmed entries, the untouched ones, and the total cost subtracted. |
| ProcessCache.TrimOutcome | pkg/network/tracer/process_cache.go:170-216 | As written: the map keeps exactly the live pids with unexpired processes; the count drops by one per exited pid plus one per expired process. |
| ProcessCache.AddKeepsCount | pkg/network/tracer/process_cache.go:239-267 | Adding keeps the count equal to the number of cached processes. |
| ProcessCache.RemoveKeepsCount | pkg/network/tracer/process_cache.go:226-237 | Marking exited keeps the count equal to the contents. |
| ProcessCache.TrimCorrectedKeepsCount | pkg/network/tracer/process_cache.go:170-216 | The corrected `Trim` keeps the count equal to the contents. |
| ProcessCache.ExitedPidCountedOnce | pkg/network/tracer/process_cache.go:180-184 | As written, two processes of an exited pid leave a count of 1 in an empty cache; corrected, 0. |
| ProcessCache.UnknownExitGoesNegative | pkg/network/tracer/process_cache.go:226-237 | As written, the exit of an unseen pid drives the count to -1; corrected, 0. |
| IntegrationLauncher.Base | pkg/logs/launchers/integration/launcher.go:361 | `filepath.Base`: "." for the empty path, "/" exactly for a path of slashes only, otherwise the slash-free last element once trailing slashes are dropped. |
| IntegrationLauncher.Ext | pkg/logs/launchers/integration/launcher.go:361 | `filepath.Ext`: empty exactly when the last element has no '.'; otherwise a '.' followed by no other '.' nor '/', ending the path. |
| IntegrationLauncher.IntegrationLogFilePath | pkg/logs/launchers/integration/launcher.go:276-281 | The log file path lies under the run path and ends in ".log". |
| IntegrationLauncher.RestoreColon | pkg/logs/launchers/integration/launcher.go:362-368 | Only the last '_' becomes ':'; a name without '_' is its own ID. |
| IntegrationLauncher.FileNameToIdOfLogName | pkg/logs/launchers/integration/launcher.go:360-369 | Reading an ID from a log file name strips the directory and ".log", then restores the colon. |
| IntegrationLauncher.RestoreReplaced | pkg/logs/launchers/integration/launcher.go:362-368 | Restoring undoes replacing a single ':' in an ID without '_'. |
| IntegrationLauncher.FileNameRoundTrip | pkg/logs/launchers/integration/launcher.go:276-281 | Naming a file after an ID and reading it back gives the ID, for IDs without '_' or '/' and at most one ':'. |
| IntegrationLauncher.EarlierColonsNotRestored | pkg/logs/launchers/integration/launcher.go:360-369 | With two ':' only the last comes back: "a:b:c" reads back as "a_b:c". |
| IntegrationLauncher.NewLauncher | pkg/logs/launchers/integration/launcher.go:61-92 | A new launcher has the run path's integrations directory, the limits and clock reading it is given, no files, no usage and a nil pointer, and is in a valid state. |
| IntegrationLauncher.AddIntegrationFile | pkg/logs/launchers/integration/launcher.go:122-132 | As written, a failed `os.Create` ends in a nil dereference; otherwise the integration gets an empty file, stamped with a new reading, under its log file path, and everything but the files and the clock, the run path, limits, usage and pointer included, is left as it was. |
| IntegrationLauncher.AddIntegrationFileCorrected | pkg/logs/launchers/integration/launcher.go:123-127 | Corrected, a failed create skips the integration and leaves the launcher unchanged; a new file keeps the state valid. |
| IntegrationLauncher.Earliest | pkg/logs/launchers/integration/launcher.go:205-210 | The first file in iteration order with the earliest time strictly before the reading it starts from, or none when no file is older. |
| IntegrationLauncher.UpdateLeastRecentlyModified | pkg/logs/launchers/integration/launcher.go:201-214 | With a new reading, the pointer is nil exactly when no file is older than it; otherwise it names a file with the minimum modification time. |
| IntegrationLauncher.DeleteLeastRecentlyModified | pkg/logs/launchers/integration/launcher.go:187-196 | Fails exactly on a nil pointer; otherwise that file is emptied and stamped with a new reading and its size leaves the combined usage. |
| IntegrationLauncher.EvictOnce | pkg/logs/launchers/integration/launcher.go:165-166 | One iteration from a non-nil pointer empties that file with one reading, moves the pointer with the next, and leaves it non-nil at a file with the minimum time. |
| IntegrationLauncher.EvictAsWritten | pkg/logs/launchers/integration/launcher.go:164-167 | As written: files are only emptied and stamped; it panics exactly when the first iteration finds the pointer nil; when it stops the line fits; accounting is kept. |
| IntegrationLauncher.EvictEmpties | pkg/logs/launchers/integration/launcher.go:164-167 | One iteration per file stamped before the loop either fits the line or leaves every file empty. |
| IntegrationLauncher.EvictAsWrittenEnds | pkg/logs/launchers/integration/launcher.go:164-167 | As written, a line within the budget fits after at most one iteration per file, unless the pointer is nil. |
| IntegrationLauncher.EvictSpins | pkg/logs/launchers/integration/launcher.go:164-167 | As written, a line larger than the whole budget never fits and never fails once the pointer is set: the loop runs for ever. |
| IntegrationLauncher.EvictCorrected | pkg/logs/launchers/integration/launcher.go:164-167 | Corrected, the loop stops when the line fits or no file stamped before it began is left, and only empties files. |
| IntegrationLauncher.EvictCorrectedKeepsAccounting | pkg/logs/launchers/integration/launcher.go:164-167 | The corrected loop keeps the combined usage equal to the sum of the sizes. |
| IntegrationLauncher.EvictCorrectedFitsOrEmpty | pkg/logs/launchers/integration/launcher.go:164-167 | The corrected loop stops short of fitting the line only with every file empty. |
| IntegrationLauncher.CapFile | pkg/logs/launchers/integration/launcher.go:151-161 | A file the line would push over its cap is emptied and its size leaves the combined usage; otherwise nothing changes. |
| IntegrationLauncher.CapKeepsAccounting | pkg/logs/launchers/integration/launcher.go:151-161 | The size cap keeps the combined usage equal to the sum of the sizes. |
| IntegrationLauncher.Record | pkg/logs/launchers/integration/launcher.go:169-182 | The line counts towards the file and the combined usage, the file is stamped with a new reading, and the pointer stays tracked, moving only when it was at this file and there are others. |
| IntegrationLauncher.RecordMovesPointer | pkg/logs/launchers/integration/launcher.go:179-182 | When the pointer was at the file just written and there are others, it moves to another file, never to nil. |
| IntegrationLauncher.RecordKeepsAccounting | pkg/logs/launchers/integration/launcher.go:169-177 | Recording a line keeps the combined usage equal to the sum of the sizes. |
| IntegrationLauncher.ReceiveLogs | pkg/logs/launchers/integration/launcher.go:146-184 | As written: an unknown integration is a nil dereference; a failed remake returns after the subtraction; a completed call wrote the line, stamped last, other files only emptied, within the budget; a panic needs a nil pointer. |
| IntegrationLauncher.ReceiveLogsCorrected | pkg/logs/launchers/integration/launcher.go:146-184 | Corrected, it completes exactly for integrations that have a file, with the same outcome for a failed remake and the line written otherwise. |
| IntegrationLauncher.ReceiveLogsKeepsValid | pkg/logs/launchers/integration/launcher.go:146-184 | As written, a completed call keeps the pointer tracked, the usage the sum of the sizes, sizes non-negative and stamps in the past. |
| IntegrationLauncher.ReceiveLogsEnds | pkg/logs/launchers/integration/launcher.go:146-184 | As written, a line within the budget is written within one eviction per file unless the pointer is nil. |
| IntegrationLauncher.ReceiveLogsSpins | pkg/logs/launchers/integration/launcher.go:164-167 | As written, a line larger than the whole budget keeps the eviction loop running for ever. |
| IntegrationLauncher.ReceiveLogsCorrectedKeepsValid | pkg/logs/launchers/integration/launcher.go:146-184 | Corrected, a call keeps the state valid, and the budget is exceeded only by a line larger than it, which is then all the launcher holds. |
| IntegrationLauncher.LineOverBudgetSpins | pkg/logs/launchers/integration/launcher.go:164-167 | As written, a 20-byte line against a 10-byte budget empties the only file for ever; corrected, it is written. |
| IntegrationLauncher.FreshStartEvictionPanics | pkg/logs/launchers/integration/launcher.go:164-188 | As written, after a start with one new integration the first line is written and the second, which needs an eviction, dereferences the nil pointer; corrected, both lines are written. |
| RcServiceRefresh.WithRefreshInterval | pkg/config/remote/service/service.go:211-223 | An interval below 5s becomes the 1m default, and exactly then may the backend override it. |
| RcServiceRefresh.WithMaxBackoffInterval | pkg/config/remote/service/service.go:226-242 | The maximum backoff is clamped to [2m, 5m]. |
| RcServiceRefresh.WithClientCacheBypassLimit | pkg/config/remote/service/service.go:255-268 | A limit outside [1, 10] becomes 5. |
| RcServiceRefresh.WithClientTTL | pkg/config/remote/service/service.go:271-281 | A TTL outside [5s, 60s] becomes 30s. |
| RcServiceRefresh.OptionsIdempotent | pkg/config/remote/service/service.go:211-281 | Validating an already validated value changes nothing. |
| RcServiceRefresh.RefreshIntervalAsWritten | pkg/config/remote/service/service.go:613-630 | As written, an accepted interval is 0 or within [1s, 1m], and a read error is passed on. |
| RcServiceRefresh.RefreshIntervalCorrected | pkg/config/remote/service/service.go:623-629 | Corrected, a non-zero interval is exactly a backend value of 1 to 60 seconds. |
| RcServiceRefresh.RefreshIntervalAgreesWithoutOverflow | pkg/config/remote/service/service.go:623-629 | Both agree whenever the product does not overflow. |
| RcServiceRefresh.OverflowingIntervalAccepted | pkg/config/remote/service/service.go:624-627 | As written, 2^55 + 30 seconds wraps to 30s and is accepted; corrected, it is ignored. |
| RcServiceRefresh.RefreshProducts | pkg/config/remote/service/service.go:591-599 | Pending products are the earlier pending ones plus every unconfirmed product of an active client. |
| RcServiceRefresh.Refresh | pkg/config/remote/service/service.go:506-585 | The request contents, the error reported after a failed fetch or update, the backoff counter, and the confirmation of pending products on success. |
| RcServiceRefresh.RefreshIntervalOverride | pkg/config/remote/service/service.go:565-572 | The base interval moves only when overrides are allowed, only into [1s, 1m], and the bypass window follows it. |
| RcServiceRefresh.ExpectedErrorsQuieten | pkg/config/remote/service/service.go:537-552 | A repeated expected fetch error is reported until five were counted, and silently after. |
| RcServiceRefresh.NewFetchErrorIsReported | pkg/config/remote/service/service.go:537-545 | A new kind of fetch error is reported and restarts the count. |
| RcServiceRefresh.QuietAfterFiveReports | pkg/config/remote/service/service.go:537-552 | After n identical expected failures the count is capped at five. |
| RcServiceTargets.FirstMissingRoot | pkg/config/remote/service/service.go:762 | The first root to fetch is the one after the client's, on a uint64. |
| RcServiceTargets.RootsFromShape | pkg/config/remote/service/service.go:762-773 | One canonical root per version in range, in order, and success exactly when every root is found and canonicalised. |
| RcServiceTargets.GetNewDirectorRoots | pkg/config/remote/service/service.go:760-774 | The loop returns the roots of the missing versions, as many as there are. |
| RcServiceTargets.DecodeHashes | pkg/config/remote/service/service.go:788-794 | Every algorithm of the list ends up in the decoded map. |
| RcServiceTargets.CachedMetas | pkg/config/remote/service/service.go:786-799 | The map is keyed by exactly the cached paths. |
| RcServiceTargets.DiffTargets | pkg/config/remote/service/service.go:801-819 | The wanted targets in order, each with the store's contents; an unparsable path aborts. |
| RcServiceTargets.DiffTargetsSoundComplete | pkg/config/remote/service/service.go:801-819 | Every file returned is a wanted target with its contents, and every wanted target is returned. |
| RcServiceTargets.DiffIdempotent | pkg/config/remote/service/service.go:806-809 | A client caching every target of its products is sent nothing. |
| RcServiceTargets.GetTargetFiles | pkg/config/remote/service/service.go:776-821 | A store error or a bad cached hash is passed on; otherwise every file returned is a wanted target of the client's products with the store's contents, and every wanted target is returned. |
| RcServiceTargets.FilterMatched | pkg/config/remote/service/service.go:706-716 | Exactly the files whose paths the predicates matched, no others. |
| RcServiceTargets.ClientGetConfigs | pkg/config/remote/service/service.go:635-729 | An invalid request is rejected with its error; nothing new gives an empty response; every file sent was matched. |
| RcServiceTargets.ClientGetConfigsContents | pkg/config/remote/service/service.go:676-729 | A non-empty response carries the missing roots and exactly the client's new matched files. |
| RcServiceValidation.CheckHashes | pkg/config/remote/service/service.go:906-913 | The hashes pass exactly when each names an algorithm and a hash. |
| RcServiceValidation.CheckCachedFile | pkg/config/remote/service/service.go:893-913 | One cached file passes exactly when it is well formed. |
| RcServiceValidation.CheckCachedFiles | pkg/config/remote/service/service.go:892-914 | The cached files pass exactly when each is well formed. |
| RcServiceValidation.CheckClient | pkg/config/remote/service/service.go:824-889 | The client passes exactly when it is well formed. |
| RcServiceValidation.ValidateRequest | pkg/config/remote/service/service.go:823-917 | A request passes exactly when it is well formed; missing client, missing state and root version 0 get their errors. |
| RcServiceValidation.ValidateRequestCorrected | pkg/config/remote/service/service.go:900-902 | Corrected, every cached length of an accepted request is at least 1. |
| RcServiceValidation.NegativeLengthAccepted | pkg/config/remote/service/service.go:900-902 | As written, a cached file of length -1 is accepted; corrected, it is rejected. |

## Left out

- Goroutines, channels, timers, telemetry, logging and metrics of every file: only the state changes they trigger are modelled.
- Real I/O (files, sockets, HTTP, the TUF store, cgroup files, systemd): collaborators are function parameters.
- Clocks are integers. In the integrations launcher every `time.Now()` call is a new reading, strictly later than the last; only the order of readings matters to the launcher. Elsewhere an operation is given the time as a parameter.
- Go map iteration order is a parameter; the model proves its properties for every order.
- Sizes, times and counters are unbounded integers except where the source's int64 or uint64 width matters (`getRefreshInterval`, `getNewDirectorRoots`, `time.Time.Sub`).
- RcServiceTargets.ClientGetConfigs: the new-client cache bypass (service.go:643-674), the clients' last-seen bookkeeping and `getClientState` are not modelled.
- RcServiceTargets.GetNewDirectorRoots: requires the store's version to be below the uint64 maximum, because the Go loop counter would wrap and never stop.
- RcServiceRefresh.RefreshIntervalAsWritten: requires the backend value to be an int64, as the Go type guarantees.
- The branches at service.go:861-864 and 882-885 repeat earlier checks and cannot be taken; they have no counterpart.
- `NewService`, `Start`, `Stop`, `pollOrgStatus`, `ConfigGetState`, `enforceCanonicalJSON` and `generateCacheKey` are not part of this model.
- The branch at configuration_cache.go:267 repeats the condition at line 250 and cannot be taken.
- The request dispatch of `update` (configuration_cache.go:106-171) is modelled only for the enable body (lines 128-142) and `disableConfiguration`; the revision bookkeeping of the other actions is left out.
- `start` of the provider and of the cache, and the file provider, are not part of this model.
- GoStrings.ToLower: lowers ASCII letters only; Unicode case mapping is not modelled.
- The `InjectionModeLabelKey` lookup is a field of the pod record rather than a label map.
- Webhook registration (`NewWebhook`, `Name`, `Resources`, `LabelSelectors`, `WebhookFunc`) carries no logic and is left out; the injection helpers of the common package are parameters.
- ContainerId.Resolve: the External Data header is parsed but yields "", as in the source; `connContext` and `NewIDProvider` are left out.
- ProcessCache: `Get`, `Dump`, `HandleProcessEvent`, `Stop` and the Prometheus collectors are left out; `remove` compares pointers, modelled by a per-process handle.
- ProcessCache.Closest: uses unbounded integers, so the int64 overflow of `abs` at the extremes is not modelled.
- PathMatch.PatternMatch: indexes characters, where the source indexes bytes; both treat the string as a sequence of units.
- IntegrationLauncher: `scanInitialFiles`, `computeMaxDiskUsage`, `makeFileSource` and `writeLogToFile` are left out; `run` and `createFile` are modelled only by their effect on the launcher's state (AddIntegrationFile); `filepath.Join` is modelled without `Clean`.
- IntegrationLauncher.NewLauncher: takes the two limits as parameters, since they come from the configuration and the disk; a failure to create the run directory is not modelled.
- IntegrationLauncher.EvictAsWritten: the as-written loop is run for at most `fuel` iterations; a `Spinning` result means the loop is still running, and EvictSpins shows it never stops.
- IntegrationLauncher.AddIntegrationFile: a second file for an integration that already has one replaces the map entry, while the Go pointer may still name the replaced `FileInfo` and the combined usage keeps its size; the model's validity results assume a new integration.
- IntegrationLauncher.ReceiveLogs: when remaking an oversized file fails, the size is subtracted from the combined usage but the file keeps its size, as in the source; the accounting results are stated for the other paths.
- IntegrationLauncher.UpdateLeastRecentlyModified: `leastRecentlyModifiedTime` is written by the source but never read, and is not modelled.
- IntegrationLauncher.Record: a failure writing the line is only logged by the source, and is not modelled.
- Approvers.BitmaskCombinations: requires other than exactly 63 masks, where the count overflows to a negative capacity and `make` panics.
- `isAnApprover` and `getApprovers` (approvers.go:19-49 and 94-172) evaluate rule expressions and are not part of this model.
- InstallerHelper.ExecuteCommand: JSON decoding, the uid lookup and `setuid` are parameters; `enforceUID` and `main` are left out.
- InstallerHelper.CheckHelperPathComplete: the stat, owner and mode checks of main.go:80-97 are the parameter `h.helperFileOk`. As written, main.go:95 compares the whole `st_mode`, file-type bits included, with the decimal number 750 (octal 1356), so no regular file passes and `setcap` is always refused; the model does not fix what `helperFileOk` returns.
- RcServiceRefresh.CalculateRefreshInterval: the base interval plus the backoff policy's duration; the policy is a parameter, so nothing is stated beyond that sum.
- RcServiceValidation.ValidateRequest: `validateRequest` (service.go:836-889) requires exactly one role flag and the payload of the flag that is set, and refuses an agent payload on a tracer client and a tracer payload on an agent client; it never refuses a tracer or agent payload on an updater client, nor an updater payload on a tracer or agent client. The model follows the code and states no stricter role separation.

## Findings

| source | as written | input that shows it | evidently intended | confidence | as-written member | corrected member |
|---|---|---|---|---|---|---|
| pkg/clusteragent/admission/mutate/autoinstrumentation/configuration_cache.go:215 | `resetConfiguration` points the current configuration at the local configuration object, so later updates also change the local settings | local disabled; enable cluster-wide as A, disable A, enable namespace B, disable B | the reset starts from a copy of the local configuration, which stays disabled | not executed | ConfigurationCache.DisableConfiguration | ConfigurationCache.DisableConfigurationCorrected |
| pkg/clusteragent/admission/mutate/autoinstrumentation/configuration_cache.go:214-220 | the namespace-to-rule map is not reset before replay, so replayed namespaces are found already mapped and dropped | local settings enable "x"; enable "b" as B, then "a" as A; disable A | the map restarts from the local settings, and B keeps "b" | not executed | ConfigurationCacheReplay.StaleNamespaceMapDropsReplayedNamespace | ConfigurationCacheReplay.CorrectedResetKeepsReplayedNamespace |
| pkg/config/remote/service/service.go:900-902 | the cached length check is `== 0` while its message demands a length of at least 1 | a cached file of length -1 | lengths below 1 are rejected | not executed | RcServiceValidation.ValidateRequest | RcServiceValidation.ValidateRequestCorrected |
| pkg/config/remote/service/service.go:624 | `time.Second * time.Duration(x)` wraps in int64 before the range check | a backend interval of 2^55 + 30 seconds | only 1 to 60 seconds are accepted | not executed | RcServiceRefresh.RefreshIntervalAsWritten | RcServiceRefresh.RefreshIntervalCorrected |
| pkg/trace/api/container_linux.go:266-289 | pid and inode lookups use the same cache key, the bare number | pid 42 resolved, then Local Data "in-42" | an inode lookup returns the inode's container | not executed | ContainerId.GetContainerIDAsWritten | ContainerId.GetContainerID |
| pkg/network/tracer/process_cache.go:180-184 | `Trim` drops an exited pid's list but subtracts only 1 from `numProcs`, and an unseen pid's exit still subtracts 1 | two processes of pid 1, then its exit; or the exit of a pid never added | the count equals the number of cached processes | not executed | ProcessCache.Trim | ProcessCache.TrimCorrected |
| pkg/logs/launchers/integration/launcher.go:164-167 | the eviction loop runs until the line fits; a line larger than `combinedUsageMax` never fits, and since each emptied file is stamped before the pointer is recomputed with a later reading, the pointer never becomes nil, so the loop empties files for ever | a budget of 10 bytes, one file with the pointer at it, a 20-byte line | the loop stops when nothing is left to evict | not executed | IntegrationLauncher.LineOverBudgetSpins | IntegrationLauncher.ReceiveLogsCorrected |
| pkg/logs/launchers/integration/launcher.go:187-188 | a new integration's file never becomes the least recently modified file, so after a start the pointer is nil, and the first line that needs an eviction dereferences it | a budget of 10 bytes, one new integration, two 5-byte lines | the loop looks for the least recently modified file before evicting | not executed | IntegrationLauncher.FreshStartEvictionPanics | IntegrationLauncher.ReceiveLogsCorrected |
| pkg/logs/launchers/integration/launcher.go:259-261 | `createFile` returns a nil file and a nil error when `os.Create` fails, and line 128 dereferences the file | an `os.Create` failure for a new integration | the error is returned and the integration skipped | not executed | IntegrationLauncher.AddIntegrationFile | IntegrationLauncher.AddIntegrationFileCorrected |

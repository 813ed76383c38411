# ydbops rolling restart: option validation and the storage baremetal restarter

This project models two sequential parts of `ydbops`, the tool that restarts the
nodes of a YDB cluster one by one while the cluster's maintenance service (CMS)
decides whether each node may go down:

- **Restart options** (`pkg/options/restart.go`). `Validate` checks the
  availability mode, the restart duration, the retry count, the `--hosts` list
  and the CMS options, in that order, and reports the first failure.
  `GetNodeIds` reads `--hosts` as node ids. It uses Go's `strconv.Atoi`, refuses
  negatives and casts to `uint32`. `GetNodeFQDNs` reads `--hosts` as host names.
  `GetRestartDuration` gives the maintenance window asked of the CMS.
  `GetAvailabilityMode` maps the mode name to the protocol's enum value.
- **Storage baremetal restarter** (`pkg/rolling/restarters/storage_baremetal.go`).
  `stripCommandFromArgs` picks the remote-execution tool (`ssh`, `pssh` or
  `nssh`) out of the user's arguments. `restartNodeBySystemdUnit` builds the
  argument vector that restarts a systemd unit on the node's host. `RestartNode`
  chooses the unit name. `Filter` composes the storage-kind filter with the
  id/FQDN filter.

Files and modules:

- `go_types.dfy` (`GoTypes`): `Result`/`Option`, Go's fixed-width integer types,
  int64 wrap-around and the `uint32` cast.
- `strconv.dfy` (`Strconv`): Go's `strconv.Atoi` on a 64-bit platform and its
  inverse `Itoa`, with a reference definition of what `Atoi` accepts.
- `options_restart.dfy` (`Options`): the restart options.
- `restarters_storage_baremetal.dfy` (`Restarters`): the storage baremetal restarter.

Code that is not part of this model enters as parameters:

- `urlParses: string -> bool` says whether Go's `url.Parse` accepts a string.
- `cmsError` is what `CMS.Validate` returned.
- `modeValues` is the generated `Ydb_Maintenance.AvailabilityMode_value` table.
- `filterStorageNodes` and `filterByNodeIdOrFqdn` stand for `FilterStorageNodes`
  and `FilterByNodeIdOrFQDN`.

`util.Contains` is sequence membership. `durationpb.New` is modelled by its
documented split into whole seconds and a remainder, both truncated toward zero.

Behaviour worth knowing, all proved about the model:

- The `--hosts` check fails only when the list reads neither as node ids nor as
  FQDNs. The flag's help text (`restart.go:89-90`) says host FQDNs and node ids
  cannot be mixed. The code refuses a mix only if `url.Parse` also rejects an
  entry, so a mix normally passes. The model follows the code.
- Zero is accepted for the restart duration and the retry count, although the
  error messages say "Must be positive".
- Node ids wrap modulo 2^32: `--hosts 4294967297` selects node 1. `-0` and `+7`
  are accepted as ids 0 and 7.
- The maintenance window is `time.Second * d * n` in int64 nanoseconds, wrapped
  once into int64. Once `d * n` passes 9223372036 seconds the window is wrong:
  negative while the nanoseconds stay below 2^64, and possibly positive again
  beyond that (18446744074 seconds gives 0.29 seconds).
- `GetAvailabilityMode` upper-cases the mode, so it ignores case. `Validate`
  accepts only the lower-case names.
- The "Supported ssh commands" error in `restartNodeBySystemdUnit` cannot
  happen: `stripCommandFromArgs` always returns one of the three tools.

## Model

| member | source | states |
|---|---|---|
| Strconv.AtoiMeaning | pkg/options/restart.go:125-128 | `Atoi` succeeds exactly on an optional sign followed by one or more digits whose value lies in int64, and then returns that value. A well-formed string out of range is a range error. Every error carries the whole input. |
| Strconv.AtoiItoa | pkg/options/restart.go:125 | `Atoi(Itoa(i)) == Ok(i)` for every int64 `i`. |
| Strconv.ItoaDecimal | pkg/options/restart.go:125 | `Itoa(i)` is a decimal string denoting `i`, which is what `Atoi` accepts. |
| Strconv.Decimal | pkg/options/restart.go:125 | The decimal form of `n` is a non-empty digit string that denotes `n`. |
| Strconv.ScanDigitsValue | pkg/options/restart.go:125 | Go's digit loop accepts the rest of the input exactly when it is all digits and the whole value fits a uint64, and returns that value. An all-digit input can only fail with a range error. |
| Strconv.ValueMonotone | pkg/options/restart.go:125 | Appending digits never decreases the value, so an overflow seen early is still an overflow at the end. |
| Options.ParseNodeIdMeaning | pkg/options/restart.go:124-132 | One `--hosts` entry is a node id iff it is a decimal whose value lies in [0, 2^63). The id is that value modulo 2^32. The negative-id error happens iff the entry is a decimal in [-2^63, 0). |
| Options.ParseNodeIdOfDecimal | pkg/options/restart.go:124-132 | The decimal form of n parses to `n % 2^32`. This is `n` itself below 2^32, and a different node id above it. |
| Options.GetNodeIds | pkg/options/restart.go:121-136 | Succeeds iff every entry is a node id. It then returns one id per entry, in order. Otherwise it returns the error of the first bad entry. |
| Options.GetNodeFqdns | pkg/options/restart.go:106-119 | Succeeds iff `url.Parse` accepts every entry, and then returns `Hosts` unchanged. Otherwise it returns an error naming the first rejected entry. |
| Options.Validate | pkg/options/restart.go:40-68 | An unsupported mode is reported first, then a negative duration, then a negative retry count. With those fields valid, `--hosts` is refused iff it reads neither as node ids nor as FQDNs. That error carries both parsers' first errors. After that, the CMS error is reported. No error iff every check passes, so an empty `--hosts` and zero values are accepted. |
| Options.DurationOfNanos | pkg/options/restart.go:103 | `seconds * 10^9 + nanos` equals the input. The nanos are below one second in size and carry the input's sign. |
| Options.ProductDoesNotWrap | pkg/options/restart.go:103 | When `d * n` seconds fits a `time.Duration`, the two wrapped int64 products give exactly `10^9 * d * n`. With `n = 0` the first product may wrap, but the result is still 0. |
| Options.RestartDurationNanosIsWrappedProduct | pkg/options/restart.go:103 | For all inputs, the window's nanoseconds are the exact product `10^9 * d * n` wrapped once into int64. |
| Options.RestartDurationIsProduct | pkg/options/restart.go:102-104 | For non-negative factors whose product fits a `time.Duration`, the window is exactly `RestartDuration * RestartRetryNumber` seconds with no nanos. |
| Options.RestartDurationZero | pkg/options/restart.go:102-104 | The window is zero when either factor is zero, whatever the other factor is. |
| Options.RestartDurationWraps | pkg/options/restart.go:102-104 | When `10^9 * d * n` lies in [2^63, 2^64), the nanoseconds are that product minus 2^64, and the window is negative: its seconds or its nanos are below zero. |
| Options.RestartDurationWrapsToPositive | pkg/options/restart.go:102-104 | Past 2^64 nanoseconds the window can be positive again: 18446744074 seconds with one retry gives `Duration(0, 290448384)`. |
| Options.AvailabilityModeKey | pkg/options/restart.go:96 | The key looked up is `AVAILABILITY_MODE_` followed by the upper-cased mode. |
| Options.GetAvailabilityMode | pkg/options/restart.go:95-100 | When `AVAILABILITY_MODE_` followed by the upper-cased mode is in the enum table, the result is the table's value for it. When that key is missing, the result is 0. |
| Options.AvailabilityModeKeys | pkg/options/restart.go:21 | The three accepted modes look up `AVAILABILITY_MODE_STRONG`, `_WEAK` and `_FORCE`. |
| Options.GetAvailabilityModeIgnoresCase | pkg/options/restart.go:95-100 | Two modes that agree after upper-casing select the same enum value. |
| Restarters.StripCommandFromArgs | pkg/rolling/restarters/storage_baremetal.go:20-32 | The command is always `ssh`, `pssh` or `nssh`. It is the last tool name in the arguments, or `ssh` if there is none. The remaining arguments are the input with every tool name removed. With no tool name they are the input itself. |
| Restarters.WithoutToolsLength | pkg/rolling/restarters/storage_baremetal.go:21-28 | The remaining arguments number the input's length minus the number of tool-name occurrences. |
| Restarters.WithoutToolsKeepsOthers | pkg/rolling/restarters/storage_baremetal.go:21-28 | No tool name remains, and every other argument keeps its number of occurrences. |
| Restarters.WithoutToolsAppend | pkg/rolling/restarters/storage_baremetal.go:23-28 | Removal distributes over concatenation, so the kept arguments stay in their relative order. |
| Restarters.UnitOfRemoteRestartCommand | pkg/rolling/restarters/storage_baremetal.go:37-40 | The remote command is `(test -x /bin/systemctl && sudo systemctl restart <unit>)`, and the unit can be read back from it. |
| Restarters.RestartNodeBySystemdUnit | pkg/rolling/restarters/storage_baremetal.go:34-53 | The error branch is never taken. The argv is `run`, then the non-tool arguments in order, then host and remote command. `ssh` takes the host first; `pssh` and `nssh` take the remote command first. The argv has length `len(sshArgs) - toolCount + 3`. |
| Restarters.RestartNode | pkg/rolling/restarters/storage_baremetal.go:76-93 | The unit is `kikimr` when `kikimrStorageUnit` is set and `ydb-server-storage.service` otherwise. The resulting command is the one described for `RestartNodeBySystemdUnit`. |
| Restarters.FilterSelectsStorageNodes | pkg/rolling/restarters/storage_baremetal.go:103-115 | If the helpers only select from their input, and the storage filter only storage nodes, every node `Filter` selects is a storage node of the cluster. The order (storage filter on all cluster nodes first, then the id/FQDN filter) is fixed by the definition of `Filter` only; this lemma would also hold for the reverse order. |

## Left out

- Launching the process (`exec.Command`, `cmd.Start`, `cmd.Wait`), the pipes and
  the two goroutines that stream them into the logger
  (`storage_baremetal.go:55-73`): process I/O and concurrency. A restart is
  modelled as the command it would launch. The launch and exit-status errors are
  not modelled.
- All logging (`zap`, `fmt.Println`): side effects only.
- `DefineFlags` (`restart.go:70-93`): flag registration.
  `internal/cobra_util/usage-template.go` is a help-text constant and is not
  part of this model.
- `url.Parse`, `CMS.Validate`, `FilterStorageNodes`, `FilterByNodeIdOrFQDN` and
  the `AvailabilityMode_value` table: their code is not shown, so they are
  parameters.
- `NewStorageBaremetalRestarter`: it only allocates default options.
- Options.ToUpper: maps ASCII letters only. Go's `strings.ToUpper` also maps
  non-ASCII letters, some of them to ASCII (for example `ſ` to `S`).
- Restarters.Node: carries only id, host and whether the node is a storage
  node. Other `Ydb_Maintenance.Node` fields are never read by this code.
- Go's `int` is taken to be 64 bits wide: `Atoi` accepts the int64 range, and
  `RestartDuration` and `RestartRetryNumber` are int64. On a 32-bit platform
  `Atoi` rejects values outside the int32 range and the two fields hold only
  int32 values before the int64 window product; that platform is not modelled.
- The `RestartOptions` fields `Tenants`, `ExcludeHosts` and `Continue` are
  carried but not used by the code modelled here.

# seccomp policy engine, modelled in Dafny

This project models the seccomp package of minl (`seccomp/seccomp/`). It has
three parts:

- **Symbol translation** (`config.go`): three read-only tables turn libseccomp
  header names into the package's values. `"SCMP_CMP_*"` names become
  operators, `"SCMP_ACT_*"` names become actions and `"SCMP_ARCH_*"` names
  become libseccomp architecture names. An unknown name is an error that
  carries the name.
- **Policy model** (`data-types.go`): the `Seccomp`, `Syscall` and `Arg`
  records, and the `Action` (1..5) and `Operator` (1..7) enumerations.
- **Filter builder** (`seccomp_linux.go`):
  - `getAction`, `getOperator` and `getCondition` translate into libseccomp's
    types.
  - `matchCall` adds the rule for one syscall.
  - `InitSeccomp` creates a filter, adds architectures, clears
    no-new-privileges, adds every rule and loads the filter into the kernel.

Files and modules:

| file | module | what it holds |
|---|---|---|
| `wrappers.dfy` | `Wrappers` | `Option` (Go's nil pointers) and `Result` |
| `errors.dfy` | `Errors` | one `Error` constructor per error site; `Ret<T>`, Go's `(value, error)` pair |
| `data_types.dfy` | `DataTypes` | the records and the enumerations |
| `config.dfy` | `Config` | the three tables and their lookups |
| `libseccomp.dfy` | `Libseccomp` | the library, abstracted (see below) |
| `seccomp_linux.dfy` | `SeccompLinux` | the translations, `MatchCall`, `InitSeccomp` and their specification functions |
| `seccomp_properties.dfy` | `SeccompProperties` | lemmas about the builder |

How the model is built:

- **Enumerations.** `Action` and `Operator` are Go `int` types. They are
  modelled as 64-bit integer newtypes with named constants. So `getAction` and
  `getOperator` can receive any integer, including the zero value an unset
  field holds.
- **Unsigned fields.** `Arg.Value` and `Arg.ValueTwo` are `Uint64`. `Arg.Index`
  is Go's `uint`, which is 64 bits wide on the 64-bit targets.
- **Library lookups.** `GetSyscallFromName`, `GetArchFromString`,
  `MakeCondition` and the failure of each filter call are fields of a `Lib`
  value that every operation takes as a parameter. A `Lib` value is whatever
  the real library and kernel would answer.
- **The filter.** It is the class `Libseccomp.ScmpFilter`, with fields for:
  - the default action;
  - the extra architectures;
  - the no-new-privileges attribute;
  - the rule list;
  - the number of `Load` calls and whether a `Load` succeeded.

  Its methods change these fields only when the library reports success. The
  one exception is `Load`, which counts every call, whether or not the kernel
  accepts the filter.
- **Loops.** Each loop of the source has a specification function that folds
  over a prefix of its input, stopping at the first error:
  - `Conditions` for the argument loop of `matchCall`;
  - `ArchesOutcome` for the architecture loop of `InitSeccomp`;
  - `SyscallsOutcome` for the syscall loop of `InitSeccomp`.

  The methods keep "fold of the prefix done so far == current filter" as their
  loop invariant.
- **Lemmas.** They are stated about these functions. `SeccompProperties.ExpectedRules`
  is an independent reading of the policy: the rules a successful build must
  hold, entry by entry.
- **Determinism.** The conversions are Dafny functions, so the same input
  always gives the same result.

Where the code and its surrounding description disagree, the model follows
the code:

- The comment on `ConvertStringToAction` (`config.go:48-53`) says
  `SCMP_ACT_TRACE` is not available and returns an error. The table maps it to
  `Trace`, and so does the model.
- `InitSeccomp` does not call `ConvertStringToArch`. It passes each
  `Architectures` entry straight to libseccomp's `GetArchFromString`, so an
  unknown architecture is rejected by the library, inside the build, after the
  filter has been created. It is never loaded.
- The code has no separate validation pass and does not check argument
  indices. The index bound is left to `MakeCondition` (abstract here).
- `Architectures` is a list that may repeat a name. The filter records its
  architectures as a set.
- A failure to clear no-new-privileges is reported by `InitSeccomp`
  (`seccomp_linux.go:56-58`), not ignored.

## Model

| member | source | states |
|---|---|---|
| `Config.ConvertStringToOperator` | seccomp/seccomp/config.go:41-46 | succeeds exactly on the table's seven names, with a named operator whose header name is the input; otherwise value 0 (not an operator) and an error naming the input |
| `Config.ConvertStringToAction` | seccomp/seccomp/config.go:54-59 | succeeds exactly on the five names, with a named action whose header name is the input; otherwise value 0 (not an action) and an error naming the input |
| `Config.ConvertStringToArch` | seccomp/seccomp/config.go:62-67 | succeeds exactly on the eleven names, with one of the eleven architecture names whose header name is the input; otherwise `""` and an error naming the input |
| `Config.OperatorRoundTrip` | seccomp/seccomp/config.go:5-13 | each of the seven operators is what its own header name converts to |
| `Config.ActionRoundTrip` | seccomp/seccomp/config.go:15-21 | each of the five actions, `Trace` included, is what its own header name converts to |
| `Config.ArchRoundTrip` | seccomp/seccomp/config.go:23-35 | each of the eleven architecture names is what its header name converts to |
| `Config.TablesInjective` | seccomp/seccomp/config.go:5-35 | two names that convert successfully to the same value are the same name, in each of the three tables |
| `Config.TableSamples` | seccomp/seccomp/config.go:5-21 | `SCMP_CMP_MASKED_EQ` gives `MaskEqualTo`, `SCMP_CMP_NE` gives `NotEqualTo`, `SCMP_ACT_TRACE` gives `Trace` |
| `Config.ArchSamples` | seccomp/seccomp/config.go:23-67 | `SCMP_ARCH_X86_64` gives `amd64`, and `SCMP_ARCH_BOGUS` gives `""` with an error naming it |
| `DataTypes.ActionNumbering` | seccomp/seccomp/data-types.go:13-22 | the actions are the distinct consecutive values 1..5 and the zero value is none of them |
| `DataTypes.OperatorNumbering` | seccomp/seccomp/data-types.go:24-35 | the operators are the distinct consecutive values 1..7 and the zero value is none of them |
| `SeccompLinux.GetAction` | seccomp/seccomp/seccomp_linux.go:93-108 | succeeds exactly on the five actions; otherwise `ActInvalid` and an error; Kill, Errno, Trap, Allow and Trace, and only they, become `ActKill`, `ActErrno(EPERM)`, `ActTrap`, `ActAllow` and `ActTrace(EPERM)` respectively |
| `SeccompLinux.GetOperator` | seccomp/seccomp/seccomp_linux.go:111-130 | succeeds exactly on the seven operators; otherwise `CompareInvalid` and an error; EqualTo through MaskEqualTo, and only they, become `CompareEqual`, `CompareNotEqual`, `CompareGreater`, `CompareGreaterEqual`, `CompareLess`, `CompareLessOrEqual` and `CompareMaskedEqual` respectively |
| `SeccompLinux.GetCondition` | seccomp/seccomp/seccomp_linux.go:133-146 | a nil arg or an invalid operator is an error; otherwise the answer, condition or error, is MakeCondition's applied to exactly (Index, converted op, Value, ValueTwo) |
| `SeccompLinux.ConditionsAbort` | seccomp/seccomp/seccomp_linux.go:180-184 | once one argument fails to convert, later arguments are never looked at |
| `SeccompLinux.MatchCall` | seccomp/seccomp/seccomp_linux.go:149-195 | a nil filter or call is an error; otherwise the new filter state and the error are those `MatchCallOutcome` gives for the old state |
| `SeccompLinux.ArchesAbort` | seccomp/seccomp/seccomp_linux.go:44-53 | the first architecture error ends the architecture loop |
| `SeccompLinux.SyscallsAbort` | seccomp/seccomp/seccomp_linux.go:61-69 | the first syscall error ends the syscall loop; later entries are never processed |
| `SeccompLinux.InitSeccomp` | seccomp/seccomp/seccomp_linux.go:27-76 | the error, whether a filter was created and the created filter's final state are those `InitOutcome` gives |
| `SeccompProperties.GetActionInjective` | seccomp/seccomp/seccomp_linux.go:93-108 | distinct actions become distinct library actions |
| `SeccompProperties.GetOperatorInjective` | seccomp/seccomp/seccomp_linux.go:111-130 | the seven operators become seven distinct comparisons |
| `SeccompProperties.ConditionsPointwise` | seccomp/seccomp/seccomp_linux.go:177-187 | the condition list succeeds iff every arg converts; then it has the args' length and order; on failure its error is that of the first arg that fails |
| `SeccompProperties.MatchCallAllOrNothing` | seccomp/seccomp/seccomp_linux.go:149-195 | a failed matchCall leaves the filter unchanged; a successful one changes only the rules, by adding at most one at the end |
| `SeccompProperties.EmptyNameNeverSkipped` | seccomp/seccomp/seccomp_linux.go:154-163 | an empty name is an error whatever the kernel would resolve, so it is never silently skipped |
| `SeccompProperties.UnknownSyscallSkipped` | seccomp/seccomp/seccomp_linux.go:158-163 | a non-empty name the kernel does not resolve gives success and leaves the filter unchanged |
| `SeccompProperties.InvalidRuleAddsNothing` | seccomp/seccomp/seccomp_linux.go:165-184 | for a resolved name, an invalid action or any one arg that fails to convert is an error and adds no rule |
| `SeccompProperties.RejectedEntryFails` | seccomp/seccomp/seccomp_linux.go:61-69 | an entry that is nil, has an empty name, or has a resolved name with an invalid action or an arg that fails to convert makes the loop step fail, with the filter unchanged |
| `SeccompProperties.SyscallEntryAppends` | seccomp/seccomp/seccomp_linux.go:61-69 | a successful entry was accepted (non-nil, non-empty name, valid action and args when resolved) and appends exactly the rules `RulesOf` reads off it |
| `SeccompProperties.MatchCallAddsItsRule` | seccomp/seccomp/seccomp_linux.go:171-192 | a successful matchCall for a resolved name adds exactly one rule for that syscall and action; it is unconditional iff there are no args, otherwise one conditional rule whose conditions are the converted args in order |
| `SeccompProperties.SyscallsSuccess` | seccomp/seccomp/seccomp_linux.go:60-69 | a successful syscall loop met no nil entry and appended exactly `ExpectedRules` (the rules in `Syscalls` order), changing nothing else |
| `SeccompProperties.SyscallsAcceptEveryEntry` | seccomp/seccomp/seccomp_linux.go:60-69 | a successful syscall loop accepted every entry: none was nil, empty-named, or resolved with an invalid action or a failing arg |
| `SeccompProperties.SyscallsTouchRulesOnly` | seccomp/seccomp/seccomp_linux.go:60-69 | the syscall loop changes nothing but the rule list |
| `SeccompProperties.UnknownSyscallIsInvisible` | seccomp/seccomp/seccomp_linux.go:158-163 | the syscall loop over a list with an unresolvable entry anywhere has exactly the outcome of the loop over the list without it |
| `SeccompProperties.UnknownSyscallIsInvisibleInBuild` | seccomp/seccomp/seccomp_linux.go:27-76 | a policy with an unresolvable entry anywhere builds and loads exactly as the same policy without that entry |
| `SeccompProperties.NilEntryFails` | seccomp/seccomp/seccomp_linux.go:61-64 | a nil entry anywhere in `Syscalls` makes the syscall loop fail |
| `SeccompProperties.ArchesSuccess` | seccomp/seccomp/seccomp_linux.go:43-53 | a successful architecture loop resolved every name and added all of them, changing nothing else |
| `SeccompProperties.ArchesTouchArchesOnly` | seccomp/seccomp/seccomp_linux.go:43-53 | the architecture loop changes nothing but the architecture set |
| `SeccompProperties.ArchFailureFails` | seccomp/seccomp/seccomp_linux.go:44-48 | an architecture name the library cannot resolve makes the architecture loop fail |
| `SeccompProperties.InitRefusesBeforeCreating` | seccomp/seccomp/seccomp_linux.go:27-41 | a nil config or an invalid default action is reported before any filter is created |
| `SeccompProperties.LoadOnlyAfterEveryStep` | seccomp/seccomp/seccomp_linux.go:55-75 | Load is called at most once. It is called only when the default action is valid, NewFilter succeeded, every architecture was resolved and added, every syscall entry was accepted and every matchCall succeeded, no-new-privileges is cleared and the rules are exactly the expected ones. The build succeeds iff that Load succeeds |
| `SeccompProperties.InitSuccess` | seccomp/seccomp/seccomp_linux.go:27-76 | a successful build leaves exactly: the converted default action, the listed architectures (none when the list is empty, i.e. native only), no-new-privileges cleared, the expected rules (none for an empty `Syscalls`), loaded once |
| `SeccompProperties.BadArchNeverLoads` | seccomp/seccomp/seccomp_linux.go:44-53 | an unresolvable architecture fails the build and Load is never reached |
| `SeccompProperties.InvalidEntryNeverLoads` | seccomp/seccomp/seccomp_linux.go:61-69 | an entry with an empty name, or with a resolved name and an invalid action or an arg that fails to convert, fails the build and Load is never reached |
| `SeccompProperties.NilSyscallNeverLoads` | seccomp/seccomp/seccomp_linux.go:61-64 | a nil syscall entry fails the build and Load is never reached |
| `Libseccomp.NewFilter` | seccomp/seccomp/seccomp_linux.go:38-41 | a filter exists iff the library accepts the default action; a new filter has that action, no extra architecture, no-new-privileges on, no rules, and is not loaded |
| `Libseccomp.ScmpFilter.AddArch` | seccomp/seccomp/seccomp_linux.go:50-52 | on success the architecture is added; on failure the filter is unchanged |
| `Libseccomp.ScmpFilter.SetNoNewPrivsBit` | seccomp/seccomp/seccomp_linux.go:56-58 | on success the attribute takes the given value; on failure the filter is unchanged |
| `Libseccomp.ScmpFilter.AddRule` | seccomp/seccomp/seccomp_linux.go:173-175 | on success one unconditional rule is appended; on failure the filter is unchanged |
| `Libseccomp.ScmpFilter.AddRuleConditional` | seccomp/seccomp/seccomp_linux.go:189-191 | on success one conditional rule carrying the given conditions is appended; on failure the filter is unchanged |
| `Libseccomp.ScmpFilter.Load` | seccomp/seccomp/seccomp_linux.go:71-73 | every call is counted; the filter is marked loaded only when the kernel accepts it |

## Left out

- `IsEnabled` (`seccomp_linux.go:79-90`) is not part of this model. It is two
  raw `prctl` probes whose answer depends only on the kernel.
- libseccomp itself is not part of this model. Syscall and architecture
  lookup, `MakeCondition` (including its argument-index bound), the encoding of
  actions and syscall numbers, and the reasons a filter call fails are all
  abstract: they are the fields of `Lib`. Those failure answers may depend on
  the filter's state and the call's arguments, nothing else.
- What a loaded filter does in the kernel (which syscalls it stops) is not
  modelled. Only the filter's contents and the fact that it was loaded are.
- The text of error messages is not modelled; each error site has its own
  `Error` constructor, with the offending name where the source prints one.
- The console output at `seccomp_linux.go:34` is left out.
- `SeccompLinux.GetCondition`: when it returns an error, the condition value Go
  pairs with it is not modelled. No caller uses it.
- `SeccompLinux.InitSeccomp`: also returns the filter handle, which in Go is a
  local, so that its final state can be stated. The handle is never released,
  in the source as in the model.
- `Libseccomp.ScmpFilter.AddArch`: keeps architectures as a set, so adding one
  twice is the same as adding it once. Whether the library rejects a duplicate
  is left to `Lib`.
- Go's `int` and `uint` are taken to be 64 bits wide.
- `seccomp/sandbox/sandbox.c` is not part of this model. It is a hand-written
  BPF program built from macros in a header that is not available.
- `seccomp/main.go` is not part of this model. It does file I/O, JSON decoding
  and `prctl`, and it ignores `InitSeccomp`'s error.
- The command-line front end (`main.go`, `commands.go`, `version.go`,
  `globals.go`, `gen.go`) is not part of this model.

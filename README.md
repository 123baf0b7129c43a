# Addon validation CLI: validator registry, AM0004 and the `validate` command

This project models, in Dafny, the core of the `mtcli validate` command of the
addon metadata tooling:

- the **validator registry** (`pkg/validators/registry.go`): a table from
  validator code to validator, where registering a code twice is fatal;
- validator **AM0004** (`pkg/validators/am0004_icon_base64.go`): the addon's
  `icon` must be base64 text that decodes to a PNG image; its descriptor is
  registered when the package is initialised;
- the **`validate` command** (`internal/cmd/validate.go`): the checks on the
  directory argument and the `--env` / `--version` flags, and the fixed order
  of steps in `validateMain` with its exit decision.

Files:

- `types.dfy` (module `Types`): addon metadata, bundles, the subject handed to
  validators (`MetaBundle`), a runner's result, and the `Validator`
  descriptor. The descriptor's runner type is a type parameter, because the
  registry never looks at it. AM0004 uses `Runner = MetaBundle -> RunResult`.
- `registry.dfy` (module `Registry`): the class `DefaultRegistry` with its
  `data` map. `Add` updates the map in place, and `Len`, `All` and `Get` read
  it. `Insert` is the value-level meaning of one `Add`; `InsertAll` is a
  series of registrations, as the package `init` functions make them.
- `icon_base64.dfy` (module `IconBase64`): `ValidateIconBase64`, the `AM0004`
  descriptor and the package `Init` that registers it.
- `validate_cmd.dfy` (module `ValidateCmd`): `ParseAddonDir`,
  `VerifyAddonDir`, `VerifyEnv`, `VerifyVersion`, `VerifyArgsAndFlags`, the
  flag defaults, and `ValidateMain`. `ValidateMain` is specified by `Prepare`
  (how far the preparatory steps get), `StepsTaken` and `Conclude`.

Library and system calls enter the model as function-valued parameters that
it never looks inside:

- `semver.IsValid`, `filepath.Abs`, `os.Stat` (its error, or whether the path
  is a directory), the metadata loader, the bundle extractor,
  `validate.NewFilter` and `validate.ValidateCLI` are fields of
  `ValidateCmd.Collaborators`. The filter is a type parameter.
- `base64.StdEncoding.DecodeString` and `png.Decode` are fields of
  `IconBase64.Codecs`.

Process effects are modelled as values:

- `log.Panicf` in `Add` is the outcome `Panic(message)`, and the table is left
  as it was.
- `fail(1, …)` and `os.Exit(1)` are the `Fatal`, `ValidationErrors` and
  `ValidationFailed` endings of `ValidateMain`. `ExitStatus` gives each ending
  its exit status.
- The dereference `*meta.IndexImage` panics at run time if the loader returns
  a nil pointer. This is the `NilDereference` ending, with status 2, which is
  what a Go runtime panic exits with.

Two points where the model follows the Go code rather than its wording:

- The comment at `internal/cmd/validate.go:138` and the error text speak of
  `MAJOR.MINOR.PATCH`, but the code asks `semver.IsValid` about
  `"v" + version`. The model does the same (`VerifyVersion`); the library's
  grammar is not part of this model.
- A duplicate registration is reported through `log.Panicf`
  (`pkg/validators/registry.go:23`), not as a returned error. The model
  gives it the `Panic` outcome, which carries the panic text.

## Model

| member | source | states |
|---|---|---|
| `Registry.Insert` | pkg/validators/registry.go:21-25 | one registration panics exactly when the code is present, with the message naming that code; otherwise the code is added as a key holding `v`, the size grows by one, every earlier entry is kept, and "every key is its validator's code" is preserved |
| `Registry.InsertAllSteps` | pkg/validators/registry.go:21-25 | each step of a series is one registration: a panic ends the series with that panic, and a success continues from the table it produced |
| `Registry.InsertAllSingle` | pkg/validators/registry.go:21-25 | a series of one registration behaves as that single registration |
| `Registry.InsertAllSucceedsIff` | pkg/validators/registry.go:21-26 | a series of registrations succeeds if and only if the codes are pairwise distinct and none is already in the table |
| `Registry.InsertAllTable` | pkg/validators/registry.go:21-26 | after a successful series, the keys are the old keys plus the new codes, the old entries are unchanged, and each new validator is stored under its own code |
| `Registry.InsertAllPanicNamesFirstDuplicate` | pkg/validators/registry.go:22-24 | a failed series panics on the first validator whose code is already taken (by the table or an earlier one), and the panic message names that code |
| `Registry.InsertAllOrderIndependent` | pkg/validators/registry.go:21-26 | any reordering of the same validators succeeds or fails alike, and on success gives the same table |
| `Registry.DefaultRegistry.constructor` | pkg/validators/registry.go:12-14 | a new registry has an empty table and satisfies the key/code invariant |
| `Registry.DefaultRegistry.Add` | pkg/validators/registry.go:21-26 | the table changes exactly as `Insert` says: it is unchanged and the panic is reported for a present code; otherwise `v` is added and `Get(v.code)` finds it, `Len()` grows by one, and the invariant is kept |
| `Registry.DefaultRegistry.Len` | pkg/validators/registry.go:28-30 | the number of registered codes, 0 exactly when the table is empty |
| `Registry.DefaultRegistry.All` | pkg/validators/registry.go:32-34 | the whole table, with the same keys and entries; every key is its validator's code when the invariant holds |
| `Registry.DefaultRegistry.Get` | pkg/validators/registry.go:36-39 | found exactly when the code is a key, and then it is that key's entry, whose code is the code asked for |
| `IconBase64.ValidateIconBase64` | pkg/validators/am0004_icon_base64.go:24-36 | never a hard error; passes if and only if the icon is non-empty, base64-decodes, and the bytes decode as PNG; an empty icon gives the "not found" message, undecodable base64 gives the "improperly base64 populated" message, and otherwise the "non-png data" message is returned whether or not the check passed |
| `IconBase64.MessagesDistinguishBranches` | pkg/validators/am0004_icon_base64.go:27-36 | the three messages differ from one another for any addon IDs, so a report tells which check failed |
| `IconBase64.MessageNamesAddon` | pkg/validators/am0004_icon_base64.go:25-36 | every message ends with the addon's ID |
| `IconBase64.OnlyIconAndIdMatter` | pkg/validators/am0004_icon_base64.go:24-36 | the result depends only on the metadata's `icon` and `ID` |
| `IconBase64.AM0004` | pkg/validators/am0004_icon_base64.go:16-21 | the descriptor has code `AM0004`, name `icon_base64`, the description of the Go literal, and a runner that gives `ValidateIconBase64`'s result on every subject |
| `IconBase64.RegisterInEmptyTable` | pkg/validators/am0004_icon_base64.go:12-14 | registering AM0004 in an empty table succeeds and leaves exactly AM0004 under `"AM0004"` |
| `IconBase64.Init` | pkg/validators/am0004_icon_base64.go:12-14 | init registers AM0004: it panics if the code is present, otherwise it is added; in a registry that was empty, `Get("AM0004")` finds it and `Len()` is 1 |
| `ValidateCmd.ParseAddonDir` | internal/cmd/validate.go:91-96 | a path starting with `/` is returned unchanged, and any other path is what `filepath.Abs` makes of it (value or error) |
| `ValidateCmd.ParseAddonDirAbsolute` | internal/cmd/validate.go:91-96 | when `filepath.Abs` only ever succeeds with an absolute path, a successfully parsed directory is absolute, as the comment before `verifyAddonDir` says |
| `ValidateCmd.VerifyAddonDir` | internal/cmd/validate.go:115-124 | passes if and only if the stat succeeds and reports a directory; a stat error and "not a directory" give their own messages |
| `ValidateCmd.VerifyEnv` | internal/cmd/validate.go:126-131 | passes if and only if the environment is `integration`, `stage` or `production`; otherwise the error names the offending value |
| `ValidateCmd.VerifyVersion` | internal/cmd/validate.go:133-144 | `""` and `latest` pass; any other version passes if and only if semver accepts `"v" + version`; the error names the offending value |
| `ValidateCmd.VerifyVersionConsultsOnlyPrefixed` | internal/cmd/validate.go:138-142 | two semver predicates that agree on `"v" + version` give the same result, and any two give the same result for `""` and `latest`, so semver is not consulted for those |
| `ValidateCmd.VerifyArgsAndFlags` | internal/cmd/validate.go:104-112 | passes if and only if the directory, environment and version checks all pass; otherwise it reports the first failure in that order |
| `ValidateCmd.VerifyArgsAndFlagsStopsAtFirstFailure` | internal/cmd/validate.go:104-112 | once the directory check fails, the flags and semver make no difference; once the environment check fails, the version and semver make no difference |
| `ValidateCmd.DefaultFlagsAreValid` | internal/cmd/validate.go:26-30 | the default flags (`stage`, empty version, empty filter lists) pass the environment and version checks, whatever semver says |
| `ValidateCmd.ExitStatus` | internal/cmd/validate.go:54-89 | status 0 exactly for a normal return; every fatal, error-list or failed-success ending gives status 1 |
| `ValidateCmd.PrepareFrom` | internal/cmd/validate.go:64-78 | after the checks, each step is tied to its collaborator in both directions: the run stops at loading exactly when the loader fails, crashes exactly when the loaded metadata has no index image, stops at extraction exactly when the extractor fails, stops at filter construction exactly when extraction succeeded and `NewFilter` fails, and is ready exactly when both succeed; each stop carries the Go message text for that step; a ready run's subject is the loaded metadata and the extracted bundles, and its filter is the one `NewFilter` built from the two filter flags |
| `ValidateCmd.Prepare` | internal/cmd/validate.go:55-78 | the run stops at the first step exactly when the directory does not parse, and at verification exactly when it parses and the checks fail, each with the Go message text for that step; everything later is `PrepareFrom` on the parsed directory; preparation never stops at the validator step; it is ready exactly when every collaborator consulted succeeds and the index image is present |
| `ValidateCmd.FilterOnlyAfterLoadAndExtract` | internal/cmd/validate.go:64-78 | if filter construction is reached, the directory parsed, the checks passed, the metadata loaded with an index image, and the bundles were extracted |
| `ValidateCmd.Verdict` | internal/cmd/validate.go:80-88 | the run returns normally if and only if success is true and there are no errors; a non-empty error list takes precedence over a false success flag |
| `ValidateCmd.StepsTaken` | internal/cmd/validate.go:54-89 | the steps taken are a non-empty prefix of the fixed order and end at the step that stopped the run; the nil index-image crash happens after loading, so the first three steps ran; all six steps run exactly when preparation succeeded |
| `ValidateCmd.ExitDecision` | internal/cmd/validate.go:54-89 | the exit status is 0 if and only if every collaborator of the preparatory steps succeeded, the index image was present, and ValidateCLI reported success with no errors; apart from the nil-pointer crash, every other run exits with 1; a stopped run ends with `fail`'s line around that step's message, which `Prepare` and `PrepareFrom` fix for each step |
| `ValidateCmd.ValidateMain` | internal/cmd/validate.go:54-89 | runs the steps in order, exiting at the first failure; the steps it takes are `StepsTaken` of the preparation, and its ending is `Conclude` of it, that is the fatal message, the crash, or the `Verdict` on ValidateCLI's result |

## Left out

- Thread safety: the comment on `Add` calls it thread-safe, but there is no lock. Registration happens only at init, so concurrency is not modelled.
- `Registry.DefaultRegistry.All`: returns the table as a value. Go returns the map itself, so a caller could change the registry through it. That aliasing is not modelled.
- `Registry.DefaultRegistry.Get`: Go's `(Validator, bool)` pair is an `Option`. The zero-value validator returned for a missing code is `None`.
- The global `Registry` variable is not a global here. It is a `DefaultRegistry` object that `IconBase64.Init` receives. The order Go runs init functions across files is not modelled. `Registry.InsertAllOrderIndependent` shows that order does not change the table.
- `semver.IsValid`, `base64.StdEncoding.DecodeString`, `png.Decode`, `filepath.Abs` and `os.Stat` are library code. They are parameters; their internals are not modelled.
- The metadata loader, the bundle extractor, `validate.NewFilter` and `validate.ValidateCLI` live in files outside this model, and they do file system or network I/O. They are uninterpreted parameters. Filter modes, rule ordering and `latest` resolution are not modelled.
- Printing is not modelled: `fail`'s message is recorded in the `Fatal` ending, and `utils.PrintValidationErrors` is represented by the error list in the `ValidationErrors` ending.
- Go `error` values are kept as their text. Formatting with `%v` / `%w` is string concatenation.
- Cobra wiring (`init` flag registration, `cobra.ExactArgs(1)`, `cmd/mtcli/main.go`) is not modelled. `ValidateMain` takes the single argument and the four flag values directly.
- The AddonImageSet custom resource types (`api/v1alpha1/addonimageset_types.go`) are not modelled. No modelled operation reads them.
- Bundles are opaque: each is kept as raw manifest text, since no modelled rule reads them.

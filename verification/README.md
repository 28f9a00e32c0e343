# phenix app lifecycle dispatcher

A Dafny model of the app package of phenix, `src/go/app/app.go`. The package has three parts:

- **The registry.** This is the name→app table filled at start-up, plus the four default app names: ntp, serial, startup and vrouter.
- **Three lookups.**
  - `GetApp` is a total lookup that falls back to the `user-shell` adapter for external user apps.
  - `DefaultApps` returns the default apps.
  - `List` returns the discoverable app names.
- **`ApplyApps`.** This applies an experiment lifecycle stage (configure, pre-start, post-start or cleanup) to the apps:
  1. It runs the stage hook of every default app, in Go's map order, and stops at the first error.
  2. If the experiment has a scenario, it visits the scenario's apps in declared order:
     - it skips default names;
     - it resolves each remaining app with `GetApp` and calls `Init` with the app's name and the dry-run flag;
     - it runs the app's stage hook;
     - it passes over the "user app not found" error and returns any other error at once.
  3. For configure and pre-start, it finally lets the experiment fill in its defaults.

Modules:

- `Wrappers` (`wrappers.dfy`) holds the `Option` type.
- `AppRegistry` (`registry.dfy`) holds the registry and the lookups. `DefaultApps` and `List` are methods with loops, because the source builds their slices with `append` loops.
- `Lifecycle` (`lifecycle.dfy`) holds the stages, hooks, errors and the effect trace, plus two things for `ApplyApps`:
  - the specification function `Apply`, with one function per pass;
  - the imperative `ApplyApps` method, whose two loops mirror the source's loops, including the shared `err` variable, the early returns and the `continue`s. The method is proved to compute `Apply`.
- `LifecycleProperties` (`properties.dfy`) holds the trace predicates and the per-step and per-pass lemmas.
- `ApplyTheorems` (`theorems.dfy`) holds the theorems about a whole call.

Modelling choices:

- **The experiment.** The hooks mutate the experiment in place. The model records each effect in an event trace instead: `InitCalled`, `HookCalled`, `StatusReported` (the ✓/✗/? line) and `SetDefaultsCalled`.
- **App behaviour.** It is a function `Behaviour` from (the trace so far, the app, the hook) to the hook's result. The trace stands for the experiment's current state and for the options the app was last initialised with.
- **Map order.** Wherever the source ranges over a Go map, the iteration order is a parameter. The model requires only that it lists each key exactly once (`IsEnumeration`).

## Model

| member | source | states |
|---|---|---|
| AppRegistry.Builtin | src/go/app/app.go:13-19 | The start-up registry holds the five built-in apps and the four default names. Every default name and `user-shell` is registered, and `user-shell` is not a default. |
| AppRegistry.GetApp | src/go/app/app.go:67-77 | The lookup never fails. It returns the app registered under the name when there is one, and the `user-shell` app otherwise. The result is always a registered app. |
| AppRegistry.BuiltinResolvesToAdapter | src/go/app/app.go:13-19 | In the start-up registry, a name resolves to the adapter exactly when it is not one of the four default names. |
| AppRegistry.DefaultApps | src/go/app/app.go:79-88 | The result has one app per default name: as many apps as there are default names, the i-th being the app registered under the i-th name of the map order. |
| AppRegistry.BuiltinDefaultApps | src/go/app/app.go:34-39 | With the start-up registry, DefaultApps returns exactly four apps, with no repeats: ntp, serial, startup and vrouter, in whatever order the map yields. |
| AppRegistry.EnumerationsArePermutations | src/go/app/app.go:83 | Any two iteration orders of the default set are permutations of each other, so no order is privileged. |
| AppRegistry.ListedMembers | src/go/app/app.go:46-58 | A registered name is in the registry part of List exactly when it is neither `user-shell` nor a default name. |
| AppRegistry.ListedNoDuplicates | src/go/app/app.go:46-58 | The registry part of List repeats no name. |
| AppRegistry.List | src/go/app/app.go:42-65 | The result is two parts, in this order. First come the registered names other than `user-shell` and the defaults, each exactly once, in map order. Then come the discovered `phenix-app-` commands, appended unchanged. |
| AppRegistry.BuiltinListsOnlyExternal | src/go/app/app.go:43-58 | With the start-up registry, the registry part of List is empty, so List returns only external commands. |
| Lifecycle.HookFor | src/go/app/app.go:129-138 | The switch on the stage selects the hook whose stage constant (lines 24-29) equals the stage. For a stage that matches none of the four constants it selects nothing. The scenario pass uses the same switch at lines 167-176. |
| Lifecycle.CallHook | src/go/app/app.go:129-138 | For a known stage, exactly one hook is called (the stage's) and its result becomes `err`. For any other stage nothing is called and `err` keeps its earlier value. |
| Lifecycle.ApplyDefaultApp | src/go/app/app.go:128-150 | One default-app iteration is the stage hook followed by its status line: ✗ on any error, ✓ otherwise. |
| Lifecycle.ApplyDefaultApps | src/go/app/app.go:128-155 | The first loop computes the default pass `RunDefaultPass`: every default app in map order, returning the first error wrapped with the app's name and the stage. |
| Lifecycle.ApplyScenarioApp | src/go/app/app.go:164-193 | One scenario-app iteration is three effects in order: `Init` for the resolved app with its name and the dry-run flag, the stage hook, and a status line (? for "user app not found", ✗ for any other error, ✓ otherwise). |
| Lifecycle.ApplyScenarioApps | src/go/app/app.go:157-203 | The second loop computes the scenario pass `RunScenarioPass`. Default names are skipped, "user app not found" is passed over, and any other error is returned at once, wrapped with the app's name and the stage. |
| Lifecycle.ApplyApps | src/go/app/app.go:119-211 | ApplyApps returns the error and produces the effects of `Apply`: the default pass, then the scenario pass if there is a scenario, then `SetDefaults` for configure and pre-start. |
| LifecycleProperties.DefaultPassResult | src/go/app/app.go:145-154 | When the default pass returns nil, no ✗ was printed. When it returns an error, the error carries the default app's name and the stage, and the pass ends with that app's failing hook and its ✗ line. No ✗ comes before that line, so the pass stopped at the first failing default app. |
| LifecycleProperties.DefaultPassFirstFailure | src/go/app/app.go:152-154 | When the default pass returns an error, no status line before the last one says ✗. |
| LifecycleProperties.DefaultPassNoFailure | src/go/app/app.go:145-154 | A default pass that returns nil printed no ✗. |
| LifecycleProperties.DefaultPassHooksAll | src/go/app/app.go:128-155 | A default pass that returns nil on a known stage hooked every default name, in map order. |
| LifecycleProperties.ScenarioPassInits | src/go/app/app.go:158-165 | A scenario pass that returns nil called Init for exactly the scenario's non-default names, in declared order. |
| LifecycleProperties.ScenarioPassFails | src/go/app/app.go:183-201 | An error from the scenario pass carries the name of a non-default scenario app and the stage, and its cause is not "user app not found". The pass ends with that app's failing hook and its ✗ line. No ✗ comes before that line, so every earlier scenario hook returned nil or "user app not found". |
| LifecycleProperties.ScenarioPassFirstFailure | src/go/app/app.go:195-201 | When the scenario pass returns an error, no status line before the last one says ✗. |
| ApplyTheorems.ApplyCallsOnlyStageHook | src/go/app/app.go:129-138 | Every hook called during ApplyApps is the one the stage selects. |
| ApplyTheorems.ApplyRunsResolvedApps | src/go/app/app.go:164 | Every Init and every hook, in both passes, is called on the app `GetApp` resolves its name to: the registered app (for a default, the one DefaultApps returns at line 84), or the `user-shell` adapter for an unregistered scenario name. |
| ApplyTheorems.ApplyInitsBeforeHooks | src/go/app/app.go:164-176 | Every hook of a scenario app comes immediately after that app's `Init`, with its name and the dry-run flag. |
| ApplyTheorems.ApplyReportsEveryHook | src/go/app/app.go:140-150 | Every hook call is followed at once by its app's status line, and that line reflects what the hook returned: ✓, ✗ or ?. |
| ApplyTheorems.ApplySetDefaults | src/go/app/app.go:205-210 | `SetDefaults` runs if and only if the call returns nil and the stage is configure or pre-start. When it runs, it runs exactly once and last, after every hook. |
| ApplyTheorems.ApplySucceeds | src/go/app/app.go:122-211 | On a nil result, two lists match. The hooked names are the default names in map order followed by the non-default scenario names in declared order; no name is hooked on an unknown stage. The names Init was called for are exactly the non-default scenario names. No ✗ was printed. |
| ApplyTheorems.ApplyDefaultFailure | src/go/app/app.go:152-154 | A default-app error names a default app and the stage. The hooked names are a prefix of the map order that ends with that app. No Init ran and no scenario app ran. The failing hook and its ✗ line are the last effects, and no ✗ comes before them, so the error is the first default failure. |
| ApplyTheorems.ApplyScenarioFailure | src/go/app/app.go:195-201 | An experiment-app error needs a scenario, carries the stage and a non-default app's name, and is never "user app not found". The failing hook and its ✗ line are the last effects, so `SetDefaults` does not run. No ✗ comes before them: every default app and every earlier scenario app succeeded or, for scenario apps, returned "user app not found". |
| ApplyTheorems.ApplyScenarioFailureNames | src/go/app/app.go:157-201 | Before a scenario app fails, every default app was hooked. Then the scenario apps that ran were hooked: a prefix of the non-default scenario names in declared order, each after its Init, with the failing app last. |
| ApplyTheorems.ApplyStopsAtFirstFailure | src/go/app/app.go:145-201 | When ApplyApps returns an error, every hook called before the failing one returned nil, or "user app not found" if it belongs to a scenario app. So the error returned is the first fatal one: a default app's first error (lines 152-154) or a scenario app's first error other than "not found" (lines 195-201). |
| ApplyTheorems.ApplyUnknownStage | src/go/app/app.go:165-176 | For a stage that is none of the four constants, no hook runs and the call returns nil. Init still runs for every non-default scenario app, and `SetDefaults` does not run. |
| ApplyTheorems.ApplyHooksIndependentOfOrder | src/go/app/app.go:128 | The map order of the default pass does not change which apps a successful call hooks, nor how many times each. |
| ApplyTheorems.BuiltinHooksEveryDefault | src/go/app/app.go:34-39 | With the start-up registry and no scenario, a successful call on a known stage hooks ntp, serial, startup and vrouter exactly once each. |

## Left out

- Coloured console output via the colour library is modelled only as a `StatusReported` event carrying the ✓/✗/? tag, the app's kind, its name and the stage. Colours and the text format are not modelled.
- `shell.FindCommandsWithPrefix`, the search of the PATH for external commands, is a parameter of `List`. Its result is taken as given.
- The concrete apps (NTP, Serial, Startup, UserApp, Vrouter) are not part of this model. Their hooks are the abstract `Behaviour`.
- The `Option` functions and `NewOptions` are not part of this model. Options are the record `{stage, dryRun, name}`.
- The internals of the experiment type, `Spec.Scenario()` and `SetDefaults()` are not part of this model. The scenario is an optional sequence of app names, and `SetDefaults` is an event.
- `fmt.Errorf` message text and `errors.Is` unwrapping are not modelled. The returned error is the datatype `AppError(kind, app, stage, cause)`, and the cause's `UserAppNotFound` variant stands for every error that `errors.Is` matches against the sentinel.
- The registry is a process-wide map in the source. Here it is an explicit value passed to each operation.
- `a.Name()` is not modelled separately. The model assumes it returns the name the app was looked up under: a default app's registry key, or the scenario name that `Init` just set.
- The error that `Init` returns is ignored by the source, so it is not modelled.
- Apply: the scenario is read once, as it stands before the call. The source reads `exp.Spec.Scenario()` and its apps only after the default hooks have run, so a default hook that changed the scenario would change the second pass; the model assumes the default hooks leave the scenario as it was.
- The in-place mutation of the experiment by hooks is represented by the trace, which each app's `Behaviour` receives. The experiment's fields are not modelled.

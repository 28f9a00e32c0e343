/**
 * The lifecycle dispatcher of the phenix app package: ApplyApps runs the
 * default apps and then the experiment's scenario apps for one lifecycle
 * stage, classifies their errors, and finally lets the experiment fill in its
 * defaults.
 *
 * The experiment that the hooks mutate in place is represented by the trace
 * of effects the call produces: Init calls, hook calls, status lines and the
 * SetDefaults call, in order. An app is abstract: its behaviour is a function
 * from the trace so far (which determines the experiment's state and the
 * options the app was last initialised with), the app and the hook to the
 * hook's result.
 */
module Lifecycle {
  import opened Wrappers
  import opened AppRegistry

  /** An experiment lifecycle stage, as the string the caller passes. */
  type Action = string

  const ACTION_CONFIG: Action := "configure"
  const ACTION_PRE_START: Action := "pre-start"
  const ACTION_POST_START: Action := "post-start"
  const ACTION_CLEANUP: Action := "cleanup"

  /** The four lifecycle hooks of an app. */
  datatype Hook = Configure | PreStart | PostStart | Cleanup

  /** The stage constant whose hook `h` is. */
  function StageOf(h: Hook): Action
  {
    match h
    case Configure => ACTION_CONFIG
    case PreStart => ACTION_PRE_START
    case PostStart => ACTION_POST_START
    case Cleanup => ACTION_CLEANUP
  }

  /**
   * The hook the dispatcher's switch calls for `stage`: the one whose stage
   * constant is `stage`, and none for a stage that is no constant.
   */
  function HookFor(stage: Action): (h: Option<Hook>)
    ensures h.Some? ==> StageOf(h.value) == stage
    ensures h.None? ==> forall k: Hook :: StageOf(k) != stage
  {
    if stage == ACTION_CONFIG then Some(Configure)
    else if stage == ACTION_PRE_START then Some(PreStart)
    else if stage == ACTION_POST_START then Some(PostStart)
    else if stage == ACTION_CLEANUP then Some(Cleanup)
    else None
  }

  /** True for the stages after which the experiment fills in its defaults. */
  predicate SetsDefaults(stage: Action)
  {
    stage == ACTION_CONFIG || stage == ACTION_PRE_START
  }

  /** The underlying error of a failed hook: the user-app-not-found sentinel, or any other error. */
  datatype Cause = UserAppNotFound | Failure(reason: string)

  /** What a hook returns: nil, or an error. */
  datatype Outcome = Ok | Err(cause: Cause)

  /** The status tag printed for an app: ✓, ✗ or ?. */
  datatype Status = Passed | Failed | Unresolved

  /** Which pass an app ran in: the default pass or the scenario ("experiment app") pass. */
  datatype AppKind = DefaultApp | ExperimentApp

  /** The error ApplyApps returns: the app's name, the stage and the wrapped cause. */
  datatype AppError = AppError(kind: AppKind, app: string, stage: Action, cause: Cause)

  /** One effect of ApplyApps, in the order it happens. */
  datatype Event =
    | InitCalled(app: App, name: string, dryRun: bool)
    | HookCalled(app: App, name: string, hook: Hook)
    | StatusReported(status: Status, kind: AppKind, name: string, stage: Action)
    | SetDefaultsCalled

  /** The options ApplyApps is called with. */
  datatype Options = Options(stage: Action, dryRun: bool, name: string)

  /** The behaviour of the apps: a hook's result given the trace so far, the app and the hook. */
  type Behaviour = (seq<Event>, App, Hook) -> Outcome

  /** The effects of one app and the error its hook left in `err`. */
  datatype Step = Step(err: Outcome, events: seq<Event>)

  /** The result of a pass or of the whole call: the error returned (None for nil) and the effects. */
  datatype Run = Run(err: Option<AppError>, events: seq<Event>)

  /** `r` preceded by the effects `before`. */
  function Then(before: seq<Event>, r: Run): Run
  {
    Run(r.err, before + r.events)
  }

  /** The status line of a default app: ✗ for any error, ✓ otherwise. */
  function DefaultStatus(err: Outcome): Status
  {
    if err.Err? then Failed else Passed
  }

  /** The status line of a scenario app: ? for the not-found sentinel, ✗ for any other error, ✓ otherwise. */
  function ExperimentStatus(err: Outcome): Status
  {
    match err
    case Ok => Passed
    case Err(UserAppNotFound) => Unresolved
    case Err(_) => Failed
  }

  /** The hook call the stage selects, if any. */
  function HookEvents(app: App, name: string, hook: Option<Hook>): seq<Event>
  {
    if hook.Some? then [HookCalled(app, name, hook.value)] else []
  }

  /** A default app in the first pass: its stage hook (no Init) and its status line. */
  function DefaultStep(reg: Registry, opts: Options, run: Behaviour, name: string, h: seq<Event>): Step
    requires name in reg.apps
  {
    var app := reg.apps[name];
    var hook := HookFor(opts.stage);
    var err := if hook.Some? then run(h, app, hook.value) else Ok;
    Step(err, HookEvents(app, name, hook) + [StatusReported(DefaultStatus(err), DefaultApp, name, opts.stage)])
  }

  /** A scenario app in the second pass: resolve, Init, its stage hook and its status line. */
  function ScenarioStep(reg: Registry, opts: Options, run: Behaviour, name: string, h: seq<Event>): Step
    requires Valid(reg)
  {
    var app := GetApp(reg, name);
    var init := InitCalled(app, name, opts.dryRun);
    var hook := HookFor(opts.stage);
    var err := if hook.Some? then run(h + [init], app, hook.value) else Ok;
    Step(err, [init] + HookEvents(app, name, hook) + [StatusReported(ExperimentStatus(err), ExperimentApp, name, opts.stage)])
  }

  /**
   * The first pass over the default names `order` from position `i` on, after
   * the effects `h`; it stops at the first error.
   */
  function RunDefaultPass(reg: Registry, opts: Options, run: Behaviour, order: seq<string>, i: nat, h: seq<Event>): Run
    requires forall k :: 0 <= k < |order| ==> order[k] in reg.apps
    requires i <= |order|
    decreases |order| - i
  {
    if i == |order| then Run(None, [])
    else
      var step := DefaultStep(reg, opts, run, order[i], h);
      if step.err.Err? then
        Run(Some(AppError(DefaultApp, order[i], opts.stage, step.err.cause)), step.events)
      else
        Then(step.events, RunDefaultPass(reg, opts, run, order, i + 1, h + step.events))
  }

  /**
   * The second pass over the scenario's app names `apps` from position `j`
   * on, after the effects `h`: default names are skipped, the not-found
   * sentinel is passed over, any other error stops the pass.
   */
  function RunScenarioPass(reg: Registry, opts: Options, run: Behaviour, apps: seq<string>, j: nat, h: seq<Event>): Run
    requires Valid(reg)
    requires j <= |apps|
    decreases |apps| - j
  {
    if j == |apps| then Run(None, [])
    else if apps[j] in reg.defaults then RunScenarioPass(reg, opts, run, apps, j + 1, h)
    else
      var step := ScenarioStep(reg, opts, run, apps[j], h);
      if step.err.Err? && step.err.cause != UserAppNotFound then
        Run(Some(AppError(ExperimentApp, apps[j], opts.stage, step.err.cause)), step.events)
      else
        Then(step.events, RunScenarioPass(reg, opts, run, apps, j + 1, h + step.events))
  }

  /**
   * The whole call: the default pass in the order `order`, the scenario pass
   * when the experiment has a scenario, then SetDefaults for configure and
   * pre-start.
   */
  function Apply(reg: Registry, order: seq<string>, scenario: Option<seq<string>>, opts: Options, run: Behaviour): Run
    requires Valid(reg)
    requires IsEnumeration(order, reg.defaults)
  {
    assert forall k :: 0 <= k < |order| ==> order[k] in reg.apps by {
      forall k | 0 <= k < |order| ensures order[k] in reg.apps {
        assert order[k] in order;
      }
    }
    var defaults := RunDefaultPass(reg, opts, run, order, 0, []);
    if defaults.err.Some? then defaults
    else
      var apps := if scenario.Some? then Then(defaults.events, RunScenarioPass(reg, opts, run, scenario.value, 0, defaults.events))
                  else defaults;
      if apps.err.Some? then apps
      else Run(None, apps.events + if SetsDefaults(opts.stage) then [SetDefaultsCalled] else [])
  }

  lemma ThenThen(a: seq<Event>, b: seq<Event>, r: Run)
    ensures Then(a, Then(b, r)) == Then(a + b, r)
  {
    assert a + (b + r.events) == (a + b) + r.events;
  }

  /**
   * The switch on the stage: call the matching hook of `app` and record it;
   * for a stage that is no constant call nothing and leave `err` as it was.
   */
  method CallHook(run: Behaviour, stage: Action, app: App, name: string, err: Outcome, trace: seq<Event>)
    returns (err': Outcome, trace': seq<Event>)
    ensures HookFor(stage).Some? ==> err' == run(trace, app, HookFor(stage).value)
    ensures HookFor(stage).None? ==> err' == err
    ensures trace' == trace + HookEvents(app, name, HookFor(stage))
  {
    err', trace' := err, trace;
    match HookFor(stage) {
      case Some(hook) =>
        err' := run(trace, app, hook);
        trace' := trace + [HookCalled(app, name, hook)];
      case None =>
    }
  }

  /** One iteration of the first loop: the stage hook of the default app `app` and its status line. */
  method ApplyDefaultApp(reg: Registry, opts: Options, run: Behaviour, app: App, name: string,
                         err: Outcome, trace: seq<Event>)
    returns (err': Outcome, trace': seq<Event>)
    requires name in reg.apps && app == reg.apps[name]
    requires err == Ok
    ensures err' == DefaultStep(reg, opts, run, name, trace).err
    ensures trace' == trace + DefaultStep(reg, opts, run, name, trace).events
  {
    err', trace' := CallHook(run, opts.stage, app, name, err, trace);
    trace' := trace' + [StatusReported(DefaultStatus(err'), DefaultApp, name, opts.stage)];
  }

  /**
   * The first loop of ApplyApps: each default app, in the order DefaultApps
   * returns them, runs its stage hook; the first error is returned at once.
   */
  method ApplyDefaultApps(reg: Registry, order: seq<string>, opts: Options, run: Behaviour)
    returns (result: Option<AppError>, trace: seq<Event>)
    requires Valid(reg)
    requires IsEnumeration(order, reg.defaults)
    ensures Run(result, trace) == RunDefaultPass(reg, opts, run, order, 0, [])
  {
    var err: Outcome := Ok;
    trace := [];
    var defaults := DefaultApps(reg, order);
    assert forall k :: 0 <= k < |order| ==> order[k] in reg.apps by {
      forall k | 0 <= k < |order| ensures order[k] in reg.apps {
        assert order[k] in order;
      }
    }
    var i := 0;
    while i < |defaults|
      invariant 0 <= i <= |defaults|
      invariant forall k :: 0 <= k < |order| ==> order[k] in reg.apps
      invariant err == Ok
      invariant Then(trace, RunDefaultPass(reg, opts, run, order, i, trace)) == RunDefaultPass(reg, opts, run, order, 0, [])
    {
      // a.Name() of a default app is the name it is registered under
      var a, name := defaults[i], order[i];
      ghost var previous := trace;
      err, trace := ApplyDefaultApp(reg, opts, run, a, name, err, trace);
      ThenThen(previous, DefaultStep(reg, opts, run, name, previous).events,
               RunDefaultPass(reg, opts, run, order, i + 1, trace));
      if err.Err? {
        return Some(AppError(DefaultApp, name, opts.stage, err.cause)), trace;
      }
      i := i + 1;
    }
    result := None;
  }

  /**
   * One iteration of the second loop for the scenario app `name`: resolve it,
   * initialise it with its name and the dry-run flag, run its stage hook and
   * print its status line.
   */
  method ApplyScenarioApp(reg: Registry, opts: Options, run: Behaviour, name: string,
                          err: Outcome, trace: seq<Event>)
    returns (err': Outcome, trace': seq<Event>)
    requires Valid(reg)
    requires HookFor(opts.stage).None? ==> err == Ok
    ensures err' == ScenarioStep(reg, opts, run, name, trace).err
    ensures trace' == trace + ScenarioStep(reg, opts, run, name, trace).events
  {
    var a := GetApp(reg, name);
    // the result of Init is not looked at
    trace' := trace + [InitCalled(a, name, opts.dryRun)];
    err', trace' := CallHook(run, opts.stage, a, name, err, trace');
    trace' := trace' + [StatusReported(ExperimentStatus(err'), ExperimentApp, name, opts.stage)];
  }

  /**
   * The second loop of ApplyApps, after the effects `before`: the scenario's
   * apps in their declared order; default names are skipped, every other app
   * is resolved and initialised before its stage hook runs, the not-found
   * sentinel is passed over and any other error is returned at once.
   */
  method ApplyScenarioApps(reg: Registry, apps: seq<string>, opts: Options, run: Behaviour, before: seq<Event>)
    returns (result: Option<AppError>, trace: seq<Event>)
    requires Valid(reg)
    ensures Run(result, trace) == Then(before, RunScenarioPass(reg, opts, run, apps, 0, before))
  {
    // nil: the default pass returned on any error
    var err: Outcome := Ok;
    trace := before;
    var j := 0;
    while j < |apps|
      invariant 0 <= j <= |apps|
      invariant HookFor(opts.stage).None? ==> err == Ok
      invariant Then(trace, RunScenarioPass(reg, opts, run, apps, j, trace))
             == Then(before, RunScenarioPass(reg, opts, run, apps, 0, before))
    {
      var name := apps[j];
      // default apps already ran in the first pass
      if name in reg.defaults {
        j := j + 1;
        continue;
      }
      ghost var previous := trace;
      err, trace := ApplyScenarioApp(reg, opts, run, name, err, trace);
      ThenThen(previous, ScenarioStep(reg, opts, run, name, previous).events,
               RunScenarioPass(reg, opts, run, apps, j + 1, trace));
      if err.Err? {
        if err.cause == UserAppNotFound {
          j := j + 1;
          continue;
        }
        return Some(AppError(ExperimentApp, name, opts.stage, err.cause)), trace;
      }
      j := j + 1;
    }
    result := None;
  }

  /**
   * ApplyApps: apply the default apps (visited in `order`, Go's map order) and
   * then the apps of the experiment's scenario, if it has one, for the stage
   * in `opts`, returning the error (None for nil) and the effects.
   */
  method ApplyApps(reg: Registry, order: seq<string>, scenario: Option<seq<string>>, opts: Options, run: Behaviour)
    returns (result: Option<AppError>, trace: seq<Event>)
    requires Valid(reg)
    requires IsEnumeration(order, reg.defaults)
    ensures Run(result, trace) == Apply(reg, order, scenario, opts, run)
  {
    result, trace := ApplyDefaultApps(reg, order, opts, run);
    if result.Some? {
      return;
    }
    if scenario.Some? {
      result, trace := ApplyScenarioApps(reg, scenario.value, opts, run, trace);
      if result.Some? {
        return;
      }
    }
    // the hooks may have extended the topology; let the experiment complete its defaults
    if SetsDefaults(opts.stage) {
      trace := trace + [SetDefaultsCalled];
    }
  }
}

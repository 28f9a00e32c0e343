/**
 * What ApplyApps promises, stated over the trace of effects and the error it
 * returns: which hooks run and in what order, when Init is called, how errors
 * are classified, what is reported, and when SetDefaults runs.
 */
module LifecycleProperties {
  import opened Wrappers
  import opened AppRegistry
  import opened Lifecycle

  /** The names of the apps whose hook was called, in call order. */
  function HookedNames(t: seq<Event>): seq<string>
  {
    if t == [] then [] else (if t[0].HookCalled? then [t[0].name] else []) + HookedNames(t[1..])
  }

  /** The names of the apps Init was called for, in call order. */
  function InitNames(t: seq<Event>): seq<string>
  {
    if t == [] then [] else (if t[0].InitCalled? then [t[0].name] else []) + InitNames(t[1..])
  }

  /** The scenario's app names that are not default names, in declared order. */
  function NonDefault(defaults: set<string>, names: seq<string>): seq<string>
  {
    if names == [] then []
    else (if names[0] in defaults then [] else [names[0]]) + NonDefault(defaults, names[1..])
  }

  /** The scenario's app names, none when the experiment has no scenario. */
  function ScenarioApps(scenario: Option<seq<string>>): seq<string>
  {
    if scenario.Some? then scenario.value else []
  }

  /** The status line an app of kind `kind` gets for the hook result `err`. */
  function StatusFor(kind: AppKind, err: Outcome): Status
  {
    if kind == DefaultApp then DefaultStatus(err) else ExperimentStatus(err)
  }

  /** Every hook called is the one the stage selects. */
  ghost predicate HooksMatchStage(t: seq<Event>, stage: Action)
  {
    forall e :: e in t && e.HookCalled? ==> HookFor(stage) == Some(e.hook)
  }

  /** No status line says ✗. */
  ghost predicate NoFailedStatus(t: seq<Event>)
  {
    forall e :: e in t && e.StatusReported? ==> e.status != Failed
  }

  /** Every hook of an app outside the default set comes right after that app's Init with its name and the dry-run flag. */
  ghost predicate InitsBeforeHooks(t: seq<Event>, defaults: set<string>, dryRun: bool)
  {
    forall i :: 0 <= i < |t| && t[i].HookCalled? && t[i].name !in defaults ==>
      0 < i && t[i - 1] == InitCalled(t[i].app, t[i].name, dryRun)
  }

  /**
   * Every hook call, made after the effects `h`, is followed at once by the
   * status line of its app, and that line reflects what the hook returned.
   */
  ghost predicate HooksReported(t: seq<Event>, h: seq<Event>, defaults: set<string>, stage: Action, run: Behaviour)
  {
    forall i {:trigger t[i]} :: 0 <= i < |t| && t[i].HookCalled? ==>
      i + 1 < |t| && t[i + 1] == ReportFor(t[i], h + t[..i], defaults, stage, run)
  }

  /** The status line due for the hook call `e` made after the effects `h`. */
  function ReportFor(e: Event, h: seq<Event>, defaults: set<string>, stage: Action, run: Behaviour): Event
    requires e.HookCalled?
  {
    var kind := if e.name in defaults then DefaultApp else ExperimentApp;
    StatusReported(StatusFor(kind, run(h, e.app, e.hook)), kind, e.name, stage)
  }

  /**
   * The effects `t`, made after `h`, end with the hook call of `app` under
   * `name` for the stage, which returned the error `cause`, and its ✗ line.
   */
  ghost predicate EndsInFailure(t: seq<Event>, h: seq<Event>, app: App, name: string, kind: AppKind,
                                stage: Action, run: Behaviour, cause: Cause)
  {
    && |t| >= 2
    && HookFor(stage).Some?
    && t[|t| - 2] == HookCalled(app, name, HookFor(stage).value)
    && t[|t| - 1] == StatusReported(Failed, kind, name, stage)
    && run(h + t[..|t| - 2], app, HookFor(stage).value) == Err(cause)
  }

  /** Every Init and every hook was called on the app GetApp resolves the event's name to. */
  ghost predicate AppsResolved(t: seq<Event>, reg: Registry)
    requires Valid(reg)
  {
    forall e :: e in t && (e.InitCalled? || e.HookCalled?) ==> e.app == GetApp(reg, e.name)
  }

  // ---------------------------------------------------------------------------
  // Trace algebra

  lemma {:induction false} HookedNamesAppend(a: seq<Event>, b: seq<Event>)
    ensures HookedNames(a + b) == HookedNames(a) + HookedNames(b)
    decreases |a|
  {
    if a != [] {
      assert (a + b)[0] == a[0] && (a + b)[1..] == a[1..] + b;
      HookedNamesAppend(a[1..], b);
    } else {
      assert a + b == b;
    }
  }

  lemma {:induction false} InitNamesAppend(a: seq<Event>, b: seq<Event>)
    ensures InitNames(a + b) == InitNames(a) + InitNames(b)
    decreases |a|
  {
    if a != [] {
      assert (a + b)[0] == a[0] && (a + b)[1..] == a[1..] + b;
      InitNamesAppend(a[1..], b);
    } else {
      assert a + b == b;
    }
  }

  lemma InitsBeforeHooksAppend(a: seq<Event>, b: seq<Event>, defaults: set<string>, dryRun: bool)
    requires InitsBeforeHooks(a, defaults, dryRun) && InitsBeforeHooks(b, defaults, dryRun)
    requires b != [] ==> !(b[0].HookCalled? && b[0].name !in defaults)
    ensures InitsBeforeHooks(a + b, defaults, dryRun)
  {
    var t := a + b;
    forall i | 0 <= i < |t| && t[i].HookCalled? && t[i].name !in defaults
      ensures 0 < i && t[i - 1] == InitCalled(t[i].app, t[i].name, dryRun)
    {
      if i < |a| {
        assert t[i] == a[i] && t[i - 1] == a[i - 1];
      } else {
        assert t[i] == b[i - |a|];
        assert i - |a| > 0;
        assert t[i - 1] == b[i - |a| - 1];
      }
    }
  }

  lemma HooksReportedAppend(a: seq<Event>, b: seq<Event>, h: seq<Event>, defaults: set<string>, stage: Action, run: Behaviour)
    requires HooksReported(a, h, defaults, stage, run)
    requires HooksReported(b, h + a, defaults, stage, run)
    ensures HooksReported(a + b, h, defaults, stage, run)
  {
    var t := a + b;
    forall i | 0 <= i < |t| && t[i].HookCalled?
      ensures i + 1 < |t| && t[i + 1] == ReportFor(t[i], h + t[..i], defaults, stage, run)
    {
      if i < |a| {
        assert t[i] == a[i] && t[i + 1] == a[i + 1] && t[..i] == a[..i];
      } else {
        var k := i - |a|;
        assert t[i] == b[k] && b[k].HookCalled?;
        assert k + 1 < |b|;
        assert t[i + 1] == b[k + 1];
        assert t[..i] == a + b[..k];
        assert h + t[..i] == (h + a) + b[..k];
      }
    }
  }

  lemma ConsPrefix(x: string, a: seq<string>, b: seq<string>)
    requires a <= b
    ensures [x] + a <= [x] + b
  {
  }

  /** Effects that end in a failed hook have that app as the last one hooked. */
  lemma LastHookedFailed(t: seq<Event>, h: seq<Event>, app: App, name: string, kind: AppKind,
                         stage: Action, run: Behaviour, cause: Cause)
    requires EndsInFailure(t, h, app, name, kind, stage, run, cause)
    ensures |HookedNames(t)| > 0 && HookedNames(t)[|HookedNames(t)| - 1] == name
  {
    var n := |t|;
    assert t == t[..n - 2] + ([t[n - 2]] + [t[n - 1]]);
    NamesOfSingleton(t[n - 2]);
    NamesOfSingleton(t[n - 1]);
    HookedNamesAppend([t[n - 2]], [t[n - 1]]);
    HookedNamesAppend(t[..n - 2], [t[n - 2]] + [t[n - 1]]);
  }

  lemma EndsInFailureAfter(pre: seq<Event>, t: seq<Event>, h: seq<Event>, app: App, name: string, kind: AppKind,
                           stage: Action, run: Behaviour, cause: Cause)
    requires EndsInFailure(t, h + pre, app, name, kind, stage, run, cause)
    ensures EndsInFailure(pre + t, h, app, name, kind, stage, run, cause)
  {
    var u := pre + t;
    assert u[|u| - 2] == t[|t| - 2] && u[|u| - 1] == t[|t| - 1];
    assert u[..|u| - 2] == pre + t[..|t| - 2];
    assert h + u[..|u| - 2] == (h + pre) + t[..|t| - 2];
  }

  lemma NoFailedStatusAppend(a: seq<Event>, b: seq<Event>)
    requires NoFailedStatus(a) && NoFailedStatus(b)
    ensures NoFailedStatus(a + b)
  {
    forall e | e in a + b && e.StatusReported? ensures e.status != Failed {
      assert e in a || e in b;
    }
  }

  /** No ✗ before the last effect of `t`, and none in `pre`: none before the last effect of `pre + t`. */
  lemma NoEarlierFailureAfter(pre: seq<Event>, t: seq<Event>)
    requires NoFailedStatus(pre)
    requires |t| > 0 && NoFailedStatus(t[..|t| - 1])
    ensures NoFailedStatus((pre + t)[..|pre + t| - 1])
  {
    assert (pre + t)[..|pre + t| - 1] == pre + t[..|t| - 1];
    NoFailedStatusAppend(pre, t[..|t| - 1]);
  }

  /** The hook result `out` lets the dispatcher carry on: nil, or "user app not found" for a scenario app. */
  predicate NonFatal(out: Outcome, isDefault: bool)
  {
    out.Ok? || (!isDefault && out.cause == UserAppNotFound)
  }

  /**
   * Reported effects with no ✗ before the last one: every hook call except
   * possibly the last one returned a result the dispatcher carries on after.
   */
  lemma EarlierHooksNonFatal(t: seq<Event>, defaults: set<string>, stage: Action, run: Behaviour)
    requires HooksReported(t, [], defaults, stage, run)
    requires |t| > 0 && NoFailedStatus(t[..|t| - 1])
    ensures forall i :: 0 <= i < |t| - 2 && t[i].HookCalled? ==>
      NonFatal(run(t[..i], t[i].app, t[i].hook), t[i].name in defaults)
  {
    forall i | 0 <= i < |t| - 2 && t[i].HookCalled?
      ensures NonFatal(run(t[..i], t[i].app, t[i].hook), t[i].name in defaults)
    {
      assert [] + t[..i] == t[..i];
      assert t[i + 1] == ReportFor(t[i], t[..i], defaults, stage, run);
      assert t[i + 1] == t[..|t| - 1][i + 1];
      assert t[i + 1] in t[..|t| - 1];
    }
  }

  lemma AppsResolvedAppend(a: seq<Event>, b: seq<Event>, reg: Registry)
    requires Valid(reg)
    requires AppsResolved(a, reg) && AppsResolved(b, reg)
    ensures AppsResolved(a + b, reg)
  {
    forall e | e in a + b && (e.InitCalled? || e.HookCalled?) ensures e.app == GetApp(reg, e.name) {
      assert e in a || e in b;
    }
  }

  // ---------------------------------------------------------------------------
  // One app

  lemma NamesOfSingleton(e: Event)
    ensures HookedNames([e]) == (if e.HookCalled? then [e.name] else [])
    ensures InitNames([e]) == (if e.InitCalled? then [e.name] else [])
  {
    assert [e][1..] == [];
  }

  lemma NamesOfHookEvents(app: App, name: string, hook: Option<Hook>)
    ensures HookedNames(HookEvents(app, name, hook)) == (if hook.Some? then [name] else [])
    ensures InitNames(HookEvents(app, name, hook)) == []
  {
    if hook.Some? {
      NamesOfSingleton(HookCalled(app, name, hook.value));
    }
  }

  lemma DefaultStepNames(reg: Registry, opts: Options, run: Behaviour, name: string, h: seq<Event>)
    requires name in reg.apps
    ensures InitNames(DefaultStep(reg, opts, run, name, h).events) == []
  {
    var step := DefaultStep(reg, opts, run, name, h);
    var report := StatusReported(DefaultStatus(step.err), DefaultApp, name, opts.stage);
    var hooks := HookEvents(reg.apps[name], name, HookFor(opts.stage));
    assert step.events == hooks + [report];
    NamesOfSingleton(report);
    NamesOfHookEvents(reg.apps[name], name, HookFor(opts.stage));
    InitNamesAppend(hooks, [report]);
  }

  lemma DefaultStepHooked(reg: Registry, opts: Options, run: Behaviour, name: string, h: seq<Event>)
    requires name in reg.apps
    requires HookFor(opts.stage).Some?
    ensures HookedNames(DefaultStep(reg, opts, run, name, h).events) == [name]
  {
    var step := DefaultStep(reg, opts, run, name, h);
    var report := StatusReported(DefaultStatus(step.err), DefaultApp, name, opts.stage);
    var hooks := HookEvents(reg.apps[name], name, HookFor(opts.stage));
    assert step.events == hooks + [report];
    NamesOfSingleton(report);
    NamesOfHookEvents(reg.apps[name], name, HookFor(opts.stage));
    HookedNamesAppend(hooks, [report]);
  }

  lemma DefaultStepWithoutHook(reg: Registry, opts: Options, run: Behaviour, name: string, h: seq<Event>)
    requires name in reg.apps
    requires HookFor(opts.stage).None?
    ensures DefaultStep(reg, opts, run, name, h).err == Ok
    ensures HookedNames(DefaultStep(reg, opts, run, name, h).events) == []
  {
    var step := DefaultStep(reg, opts, run, name, h);
    NamesOfSingleton(StatusReported(DefaultStatus(step.err), DefaultApp, name, opts.stage));
  }

  lemma DefaultStepEffects(reg: Registry, opts: Options, run: Behaviour, name: string, h: seq<Event>)
    requires Valid(reg) && name in reg.defaults
    ensures var step := DefaultStep(reg, opts, run, name, h);
      && SetDefaultsCalled !in step.events
      && (forall e :: e in step.events ==> !e.InitCalled?)
      && HooksMatchStage(step.events, opts.stage)
      && (forall e :: e in step.events && e.HookCalled? ==> e.name in reg.defaults)
      && HooksReported(step.events, h, reg.defaults, opts.stage, run)
  {
    var step := DefaultStep(reg, opts, run, name, h);
    var report := StatusReported(DefaultStatus(step.err), DefaultApp, name, opts.stage);
    if HookFor(opts.stage).Some? {
      assert step.events == [HookCalled(reg.apps[name], name, HookFor(opts.stage).value), report];
      assert step.events[..0] == [] && h + [] == h;
    } else {
      assert step.events == [report];
    }
  }

  lemma DefaultStepResult(reg: Registry, opts: Options, run: Behaviour, name: string, h: seq<Event>)
    requires Valid(reg) && name in reg.defaults
    ensures var step := DefaultStep(reg, opts, run, name, h);
      && (step.err.Ok? ==> NoFailedStatus(step.events))
      && (step.err.Err? ==> EndsInFailure(step.events, h, reg.apps[name], name, DefaultApp, opts.stage, run, step.err.cause))
  {
    var step := DefaultStep(reg, opts, run, name, h);
    var report := StatusReported(DefaultStatus(step.err), DefaultApp, name, opts.stage);
    if HookFor(opts.stage).Some? {
      assert step.events == [HookCalled(reg.apps[name], name, HookFor(opts.stage).value), report];
      assert step.events[..0] == [] && h + [] == h;
    } else {
      assert step.events == [report];
    }
  }

  lemma ScenarioStepNames(reg: Registry, opts: Options, run: Behaviour, name: string, h: seq<Event>)
    requires Valid(reg)
    ensures InitNames(ScenarioStep(reg, opts, run, name, h).events) == [name]
  {
    var step := ScenarioStep(reg, opts, run, name, h);
    var init := InitCalled(GetApp(reg, name), name, opts.dryRun);
    var report := StatusReported(ExperimentStatus(step.err), ExperimentApp, name, opts.stage);
    var hooks := HookEvents(GetApp(reg, name), name, HookFor(opts.stage));
    assert step.events == [init] + (hooks + [report]);
    NamesOfSingleton(init);
    NamesOfSingleton(report);
    NamesOfHookEvents(GetApp(reg, name), name, HookFor(opts.stage));
    InitNamesAppend(hooks, [report]);
    InitNamesAppend([init], hooks + [report]);
  }

  lemma ScenarioStepHooked(reg: Registry, opts: Options, run: Behaviour, name: string, h: seq<Event>)
    requires Valid(reg)
    requires HookFor(opts.stage).Some?
    ensures HookedNames(ScenarioStep(reg, opts, run, name, h).events) == [name]
  {
    var step := ScenarioStep(reg, opts, run, name, h);
    var init := InitCalled(GetApp(reg, name), name, opts.dryRun);
    var report := StatusReported(ExperimentStatus(step.err), ExperimentApp, name, opts.stage);
    var hooks := HookEvents(GetApp(reg, name), name, HookFor(opts.stage));
    assert step.events == [init] + (hooks + [report]);
    NamesOfSingleton(init);
    NamesOfSingleton(report);
    NamesOfHookEvents(GetApp(reg, name), name, HookFor(opts.stage));
    HookedNamesAppend(hooks, [report]);
    HookedNamesAppend([init], hooks + [report]);
  }

  lemma ScenarioStepWithoutHook(reg: Registry, opts: Options, run: Behaviour, name: string, h: seq<Event>)
    requires Valid(reg)
    requires HookFor(opts.stage).None?
    ensures ScenarioStep(reg, opts, run, name, h).err == Ok
    ensures HookedNames(ScenarioStep(reg, opts, run, name, h).events) == []
  {
    var step := ScenarioStep(reg, opts, run, name, h);
    var init := InitCalled(GetApp(reg, name), name, opts.dryRun);
    var report := StatusReported(ExperimentStatus(step.err), ExperimentApp, name, opts.stage);
    assert step.events == [init] + [report];
    NamesOfSingleton(init);
    NamesOfSingleton(report);
    HookedNamesAppend([init], [report]);
  }

  lemma ScenarioStepEffects(reg: Registry, opts: Options, run: Behaviour, name: string, h: seq<Event>)
    requires Valid(reg) && name !in reg.defaults
    ensures var step := ScenarioStep(reg, opts, run, name, h);
      && SetDefaultsCalled !in step.events
      && HooksMatchStage(step.events, opts.stage)
      && step.events[0] == InitCalled(GetApp(reg, name), name, opts.dryRun)
      && InitsBeforeHooks(step.events, reg.defaults, opts.dryRun)
      && (forall e :: e in step.events && (e.InitCalled? || e.HookCalled?) ==> e.name == name)
  {
    var step := ScenarioStep(reg, opts, run, name, h);
    var init := InitCalled(GetApp(reg, name), name, opts.dryRun);
    var report := StatusReported(ExperimentStatus(step.err), ExperimentApp, name, opts.stage);
    if HookFor(opts.stage).Some? {
      assert step.events == [init, HookCalled(GetApp(reg, name), name, HookFor(opts.stage).value), report];
    } else {
      assert step.events == [init, report];
    }
  }

  lemma ScenarioStepResult(reg: Registry, opts: Options, run: Behaviour, name: string, h: seq<Event>)
    requires Valid(reg) && name !in reg.defaults
    ensures var step := ScenarioStep(reg, opts, run, name, h);
      && HooksReported(step.events, h, reg.defaults, opts.stage, run)
      && (step.err.Ok? || step.err.cause == UserAppNotFound ==> NoFailedStatus(step.events))
      && (step.err.Err? && step.err.cause != UserAppNotFound ==>
            EndsInFailure(step.events, h, GetApp(reg, name), name, ExperimentApp, opts.stage, run, step.err.cause))
  {
    var step := ScenarioStep(reg, opts, run, name, h);
    var init := InitCalled(GetApp(reg, name), name, opts.dryRun);
    var report := StatusReported(ExperimentStatus(step.err), ExperimentApp, name, opts.stage);
    if HookFor(opts.stage).Some? {
      var e := HookCalled(GetApp(reg, name), name, HookFor(opts.stage).value);
      assert step.events == [init, e, report];
      assert step.events[..1] == [init];
    } else {
      assert step.events == [init, report];
    }
  }

  /** A failing default hook is the only effect before its ✗ line. */
  lemma DefaultStepFirstFailure(reg: Registry, opts: Options, run: Behaviour, name: string, h: seq<Event>)
    requires name in reg.apps
    ensures var step := DefaultStep(reg, opts, run, name, h);
      step.err.Err? ==> |step.events| > 0 && NoFailedStatus(step.events[..|step.events| - 1])
  {
    var step := DefaultStep(reg, opts, run, name, h);
    if HookFor(opts.stage).Some? {
      var report := StatusReported(DefaultStatus(step.err), DefaultApp, name, opts.stage);
      var e := HookCalled(reg.apps[name], name, HookFor(opts.stage).value);
      assert step.events == [e, report];
      assert step.events[..1] == [e];
    }
  }

  lemma DefaultStepResolves(reg: Registry, opts: Options, run: Behaviour, name: string, h: seq<Event>)
    requires Valid(reg) && name in reg.apps
    ensures AppsResolved(DefaultStep(reg, opts, run, name, h).events, reg)
  {
    var step := DefaultStep(reg, opts, run, name, h);
    var report := StatusReported(DefaultStatus(step.err), DefaultApp, name, opts.stage);
    if HookFor(opts.stage).Some? {
      assert step.events == [HookCalled(reg.apps[name], name, HookFor(opts.stage).value), report];
    } else {
      assert step.events == [report];
    }
  }

  /** Before a fatal scenario error's ✗ line come only the app's Init and its hook. */
  lemma ScenarioStepFirstFailure(reg: Registry, opts: Options, run: Behaviour, name: string, h: seq<Event>)
    requires Valid(reg)
    ensures var step := ScenarioStep(reg, opts, run, name, h);
      step.err.Err? ==> |step.events| > 0 && NoFailedStatus(step.events[..|step.events| - 1])
  {
    var step := ScenarioStep(reg, opts, run, name, h);
    if HookFor(opts.stage).Some? {
      var init := InitCalled(GetApp(reg, name), name, opts.dryRun);
      var report := StatusReported(ExperimentStatus(step.err), ExperimentApp, name, opts.stage);
      var e := HookCalled(GetApp(reg, name), name, HookFor(opts.stage).value);
      assert step.events == [init, e, report];
      assert step.events[..2] == [init, e];
    }
  }

  lemma ScenarioStepResolves(reg: Registry, opts: Options, run: Behaviour, name: string, h: seq<Event>)
    requires Valid(reg)
    ensures AppsResolved(ScenarioStep(reg, opts, run, name, h).events, reg)
  {
    var step := ScenarioStep(reg, opts, run, name, h);
    var init := InitCalled(GetApp(reg, name), name, opts.dryRun);
    var report := StatusReported(ExperimentStatus(step.err), ExperimentApp, name, opts.stage);
    if HookFor(opts.stage).Some? {
      assert step.events == [init, HookCalled(GetApp(reg, name), name, HookFor(opts.stage).value), report];
    } else {
      assert step.events == [init, report];
    }
  }

  // ---------------------------------------------------------------------------
  // The default pass

  lemma {:induction false} DefaultPassEffects(reg: Registry, opts: Options, run: Behaviour,
                                              order: seq<string>, i: nat, h: seq<Event>)
    requires Valid(reg)
    requires forall k :: 0 <= k < |order| ==> order[k] in reg.defaults
    requires i <= |order|
    ensures var r := RunDefaultPass(reg, opts, run, order, i, h);
      && SetDefaultsCalled !in r.events
      && HooksMatchStage(r.events, opts.stage)
      && (forall e :: e in r.events && e.HookCalled? ==> e.name in reg.defaults)
    decreases |order| - i
  {
    if i < |order| {
      var step := DefaultStep(reg, opts, run, order[i], h);
      DefaultStepEffects(reg, opts, run, order[i], h);
      if step.err.Ok? {
        DefaultPassEffects(reg, opts, run, order, i + 1, h + step.events);
      }
    }
  }

  lemma {:induction false} DefaultPassReports(reg: Registry, opts: Options, run: Behaviour,
                                              order: seq<string>, i: nat, h: seq<Event>)
    requires Valid(reg)
    requires forall k :: 0 <= k < |order| ==> order[k] in reg.defaults
    requires i <= |order|
    ensures HooksReported(RunDefaultPass(reg, opts, run, order, i, h).events, h, reg.defaults, opts.stage, run)
    decreases |order| - i
  {
    if i < |order| {
      var step := DefaultStep(reg, opts, run, order[i], h);
      DefaultStepEffects(reg, opts, run, order[i], h);
      if step.err.Ok? {
        var rest := RunDefaultPass(reg, opts, run, order, i + 1, h + step.events);
        DefaultPassReports(reg, opts, run, order, i + 1, h + step.events);
        HooksReportedAppend(step.events, rest.events, h, reg.defaults, opts.stage, run);
      }
    }
  }

  lemma {:induction false} DefaultPassInitsNothing(reg: Registry, opts: Options, run: Behaviour,
                                                   order: seq<string>, i: nat, h: seq<Event>)
    requires forall k :: 0 <= k < |order| ==> order[k] in reg.apps
    requires i <= |order|
    ensures InitNames(RunDefaultPass(reg, opts, run, order, i, h).events) == []
    decreases |order| - i
  {
    if i < |order| {
      var step := DefaultStep(reg, opts, run, order[i], h);
      DefaultStepNames(reg, opts, run, order[i], h);
      if step.err.Ok? {
        var rest := RunDefaultPass(reg, opts, run, order, i + 1, h + step.events);
        DefaultPassInitsNothing(reg, opts, run, order, i + 1, h + step.events);
        InitNamesAppend(step.events, rest.events);
      }
    }
  }

  lemma {:induction false} DefaultPassHooksAll(reg: Registry, opts: Options, run: Behaviour,
                                               order: seq<string>, i: nat, h: seq<Event>)
    requires forall k :: 0 <= k < |order| ==> order[k] in reg.apps
    requires i <= |order|
    requires HookFor(opts.stage).Some?
    ensures var r := RunDefaultPass(reg, opts, run, order, i, h);
      r.err.None? ==> HookedNames(r.events) == order[i..]
    decreases |order| - i
  {
    if i < |order| {
      var step := DefaultStep(reg, opts, run, order[i], h);
      DefaultStepHooked(reg, opts, run, order[i], h);
      if step.err.Ok? {
        var rest := RunDefaultPass(reg, opts, run, order, i + 1, h + step.events);
        DefaultPassHooksAll(reg, opts, run, order, i + 1, h + step.events);
        HookedNamesAppend(step.events, rest.events);
        assert order[i..] == [order[i]] + order[i + 1..];
      }
    } else {
      assert order[i..] == [];
    }
  }

  lemma {:induction false} DefaultPassWithoutHook(reg: Registry, opts: Options, run: Behaviour,
                                                  order: seq<string>, i: nat, h: seq<Event>)
    requires forall k :: 0 <= k < |order| ==> order[k] in reg.apps
    requires i <= |order|
    requires HookFor(opts.stage).None?
    ensures var r := RunDefaultPass(reg, opts, run, order, i, h);
      r.err.None? && HookedNames(r.events) == []
    decreases |order| - i
  {
    if i < |order| {
      var step := DefaultStep(reg, opts, run, order[i], h);
      DefaultStepWithoutHook(reg, opts, run, order[i], h);
      var rest := RunDefaultPass(reg, opts, run, order, i + 1, h + step.events);
      DefaultPassWithoutHook(reg, opts, run, order, i + 1, h + step.events);
      HookedNamesAppend(step.events, rest.events);
    }
  }

  lemma {:induction false} DefaultPassFailureNames(reg: Registry, opts: Options, run: Behaviour,
                                                   order: seq<string>, i: nat, h: seq<Event>)
    requires forall k :: 0 <= k < |order| ==> order[k] in reg.apps
    requires i <= |order|
    requires HookFor(opts.stage).Some?
    ensures var r := RunDefaultPass(reg, opts, run, order, i, h);
      r.err.Some? ==> HookedNames(r.events) <= order[i..]
    decreases |order| - i
  {
    if i < |order| {
      var step := DefaultStep(reg, opts, run, order[i], h);
      DefaultStepHooked(reg, opts, run, order[i], h);
      assert order[i..] == [order[i]] + order[i + 1..];
      if step.err.Ok? {
        var rest := RunDefaultPass(reg, opts, run, order, i + 1, h + step.events);
        DefaultPassFailureNames(reg, opts, run, order, i + 1, h + step.events);
        if rest.err.Some? {
          HookedNamesAppend(step.events, rest.events);
          ConsPrefix(order[i], HookedNames(rest.events), order[i + 1..]);
        }
      } else {
        ConsPrefix(order[i], [], order[i + 1..]);
      }
    }
  }

  lemma {:induction false} DefaultPassNoFailure(reg: Registry, opts: Options, run: Behaviour,
                                                order: seq<string>, i: nat, h: seq<Event>)
    requires Valid(reg)
    requires forall k :: 0 <= k < |order| ==> order[k] in reg.defaults
    requires i <= |order|
    ensures var r := RunDefaultPass(reg, opts, run, order, i, h);
      r.err.None? ==> NoFailedStatus(r.events)
    decreases |order| - i
  {
    if i < |order| {
      var step := DefaultStep(reg, opts, run, order[i], h);
      DefaultStepResult(reg, opts, run, order[i], h);
      if step.err.Ok? {
        var rest := RunDefaultPass(reg, opts, run, order, i + 1, h + step.events);
        DefaultPassNoFailure(reg, opts, run, order, i + 1, h + step.events);
        if rest.err.None? {
          NoFailedStatusAppend(step.events, rest.events);
        }
      }
    }
  }

  lemma {:induction false} DefaultPassResult(reg: Registry, opts: Options, run: Behaviour,
                                             order: seq<string>, i: nat, h: seq<Event>)
    requires Valid(reg)
    requires forall k :: 0 <= k < |order| ==> order[k] in reg.defaults
    requires i <= |order|
    ensures var r := RunDefaultPass(reg, opts, run, order, i, h);
      && (r.err.None? ==> NoFailedStatus(r.events))
      && (r.err.Some? ==>
            var e := r.err.value;
            && e.kind == DefaultApp && e.stage == opts.stage
            && e.app in reg.defaults
            && EndsInFailure(r.events, h, reg.apps[e.app], e.app, DefaultApp, opts.stage, run, e.cause)
            && NoFailedStatus(r.events[..|r.events| - 1]))
    decreases |order| - i
  {
    DefaultPassFirstFailure(reg, opts, run, order, i, h);
    if i < |order| {
      var step := DefaultStep(reg, opts, run, order[i], h);
      DefaultStepResult(reg, opts, run, order[i], h);
      if step.err.Ok? {
        var rest := RunDefaultPass(reg, opts, run, order, i + 1, h + step.events);
        DefaultPassResult(reg, opts, run, order, i + 1, h + step.events);
        if rest.err.Some? {
          var e := rest.err.value;
          EndsInFailureAfter(step.events, rest.events, h, reg.apps[e.app], e.app, DefaultApp, opts.stage, run, e.cause);
        }
      }
    }
  }

  // ---------------------------------------------------------------------------
  // The scenario pass

  lemma {:induction false} ScenarioPassEffects(reg: Registry, opts: Options, run: Behaviour,
                                               apps: seq<string>, j: nat, h: seq<Event>)
    requires Valid(reg)
    requires j <= |apps|
    ensures var r := RunScenarioPass(reg, opts, run, apps, j, h);
      && SetDefaultsCalled !in r.events
      && HooksMatchStage(r.events, opts.stage)
      && (forall e :: e in r.events && (e.InitCalled? || e.HookCalled?) ==> e.name !in reg.defaults)
      && InitsBeforeHooks(r.events, reg.defaults, opts.dryRun)
      && (r.events != [] ==> r.events[0].InitCalled?)
    decreases |apps| - j
  {
    if j < |apps| {
      if apps[j] in reg.defaults {
        ScenarioPassEffects(reg, opts, run, apps, j + 1, h);
      } else {
        var step := ScenarioStep(reg, opts, run, apps[j], h);
        ScenarioStepEffects(reg, opts, run, apps[j], h);
        if !(step.err.Err? && step.err.cause != UserAppNotFound) {
          var rest := RunScenarioPass(reg, opts, run, apps, j + 1, h + step.events);
          ScenarioPassEffects(reg, opts, run, apps, j + 1, h + step.events);
          InitsBeforeHooksAppend(step.events, rest.events, reg.defaults, opts.dryRun);
          assert (step.events + rest.events)[0] == step.events[0];
        }
      }
    }
  }

  lemma {:induction false} ScenarioPassReports(reg: Registry, opts: Options, run: Behaviour,
                                               apps: seq<string>, j: nat, h: seq<Event>)
    requires Valid(reg)
    requires j <= |apps|
    ensures HooksReported(RunScenarioPass(reg, opts, run, apps, j, h).events, h, reg.defaults, opts.stage, run)
    decreases |apps| - j
  {
    if j < |apps| {
      if apps[j] in reg.defaults {
        ScenarioPassReports(reg, opts, run, apps, j + 1, h);
      } else {
        var step := ScenarioStep(reg, opts, run, apps[j], h);
        ScenarioStepResult(reg, opts, run, apps[j], h);
        if !(step.err.Err? && step.err.cause != UserAppNotFound) {
          var rest := RunScenarioPass(reg, opts, run, apps, j + 1, h + step.events);
          ScenarioPassReports(reg, opts, run, apps, j + 1, h + step.events);
          HooksReportedAppend(step.events, rest.events, h, reg.defaults, opts.stage, run);
        }
      }
    }
  }

  lemma {:induction false} ScenarioPassInits(reg: Registry, opts: Options, run: Behaviour,
                                             apps: seq<string>, j: nat, h: seq<Event>)
    requires Valid(reg)
    requires j <= |apps|
    ensures var r := RunScenarioPass(reg, opts, run, apps, j, h);
      r.err.None? ==> InitNames(r.events) == NonDefault(reg.defaults, apps[j..])
    decreases |apps| - j
  {
    if j < |apps| {
      assert apps[j..][0] == apps[j] && apps[j..][1..] == apps[j + 1..];
      if apps[j] in reg.defaults {
        ScenarioPassInits(reg, opts, run, apps, j + 1, h);
      } else {
        var step := ScenarioStep(reg, opts, run, apps[j], h);
        ScenarioStepNames(reg, opts, run, apps[j], h);
        if !(step.err.Err? && step.err.cause != UserAppNotFound) {
          var rest := RunScenarioPass(reg, opts, run, apps, j + 1, h + step.events);
          ScenarioPassInits(reg, opts, run, apps, j + 1, h + step.events);
          InitNamesAppend(step.events, rest.events);
        }
      }
    } else {
      assert apps[j..] == [];
    }
  }

  lemma {:induction false} ScenarioPassNoFailure(reg: Registry, opts: Options, run: Behaviour,
                                                 apps: seq<string>, j: nat, h: seq<Event>)
    requires Valid(reg)
    requires j <= |apps|
    ensures var r := RunScenarioPass(reg, opts, run, apps, j, h);
      r.err.None? ==> NoFailedStatus(r.events)
    decreases |apps| - j
  {
    if j < |apps| {
      if apps[j] in reg.defaults {
        ScenarioPassNoFailure(reg, opts, run, apps, j + 1, h);
      } else {
        var step := ScenarioStep(reg, opts, run, apps[j], h);
        ScenarioStepResult(reg, opts, run, apps[j], h);
        if !(step.err.Err? && step.err.cause != UserAppNotFound) {
          ScenarioPassNoFailure(reg, opts, run, apps, j + 1, h + step.events);
        }
      }
    }
  }

  lemma {:induction false} ScenarioPassWithoutHook(reg: Registry, opts: Options, run: Behaviour,
                                                   apps: seq<string>, j: nat, h: seq<Event>)
    requires Valid(reg)
    requires j <= |apps|
    requires HookFor(opts.stage).None?
    ensures var r := RunScenarioPass(reg, opts, run, apps, j, h);
      r.err.None? && HookedNames(r.events) == []
    decreases |apps| - j
  {
    if j < |apps| {
      if apps[j] in reg.defaults {
        ScenarioPassWithoutHook(reg, opts, run, apps, j + 1, h);
      } else {
        var step := ScenarioStep(reg, opts, run, apps[j], h);
        ScenarioStepWithoutHook(reg, opts, run, apps[j], h);
        var rest := RunScenarioPass(reg, opts, run, apps, j + 1, h + step.events);
        ScenarioPassWithoutHook(reg, opts, run, apps, j + 1, h + step.events);
        HookedNamesAppend(step.events, rest.events);
      }
    }
  }

  lemma {:induction false} ScenarioPassFails(reg: Registry, opts: Options, run: Behaviour,
                                             apps: seq<string>, j: nat, h: seq<Event>)
    requires Valid(reg)
    requires j <= |apps|
    ensures var r := RunScenarioPass(reg, opts, run, apps, j, h);
      r.err.Some? ==>
        var e := r.err.value;
        && e.kind == ExperimentApp && e.stage == opts.stage
        && e.cause != UserAppNotFound
        && e.app !in reg.defaults
        && EndsInFailure(r.events, h, GetApp(reg, e.app), e.app, ExperimentApp, opts.stage, run, e.cause)
        && NoFailedStatus(r.events[..|r.events| - 1])
    decreases |apps| - j
  {
    ScenarioPassFirstFailure(reg, opts, run, apps, j, h);
    if j < |apps| {
      if apps[j] in reg.defaults {
        ScenarioPassFails(reg, opts, run, apps, j + 1, h);
      } else {
        var step := ScenarioStep(reg, opts, run, apps[j], h);
        ScenarioStepResult(reg, opts, run, apps[j], h);
        if !(step.err.Err? && step.err.cause != UserAppNotFound) {
          var rest := RunScenarioPass(reg, opts, run, apps, j + 1, h + step.events);
          ScenarioPassFails(reg, opts, run, apps, j + 1, h + step.events);
          if rest.err.Some? {
            var e := rest.err.value;
            EndsInFailureAfter(step.events, rest.events, h, GetApp(reg, e.app), e.app, ExperimentApp, opts.stage, run, e.cause);
          }
        }
      }
    }
  }

  lemma {:induction false} ScenarioPassInitsMatchHooks(reg: Registry, opts: Options, run: Behaviour,
                                                       apps: seq<string>, j: nat, h: seq<Event>)
    requires Valid(reg)
    requires j <= |apps|
    requires HookFor(opts.stage).Some?
    ensures var r := RunScenarioPass(reg, opts, run, apps, j, h);
      InitNames(r.events) == HookedNames(r.events)
    decreases |apps| - j
  {
    if j < |apps| {
      if apps[j] in reg.defaults {
        ScenarioPassInitsMatchHooks(reg, opts, run, apps, j + 1, h);
      } else {
        var step := ScenarioStep(reg, opts, run, apps[j], h);
        ScenarioStepNames(reg, opts, run, apps[j], h);
        ScenarioStepHooked(reg, opts, run, apps[j], h);
        if !(step.err.Err? && step.err.cause != UserAppNotFound) {
          var rest := RunScenarioPass(reg, opts, run, apps, j + 1, h + step.events);
          ScenarioPassInitsMatchHooks(reg, opts, run, apps, j + 1, h + step.events);
          HookedNamesAppend(step.events, rest.events);
          InitNamesAppend(step.events, rest.events);
        }
      }
    }
  }

  lemma {:induction false} ScenarioPassFailureNames(reg: Registry, opts: Options, run: Behaviour,
                                                    apps: seq<string>, j: nat, h: seq<Event>)
    requires Valid(reg)
    requires j <= |apps|
    requires HookFor(opts.stage).Some?
    ensures var r := RunScenarioPass(reg, opts, run, apps, j, h);
      r.err.Some? ==> HookedNames(r.events) <= NonDefault(reg.defaults, apps[j..])
    decreases |apps| - j
  {
    if j < |apps| {
      assert apps[j..][0] == apps[j] && apps[j..][1..] == apps[j + 1..];
      if apps[j] in reg.defaults {
        ScenarioPassFailureNames(reg, opts, run, apps, j + 1, h);
      } else {
        var step := ScenarioStep(reg, opts, run, apps[j], h);
        ScenarioStepHooked(reg, opts, run, apps[j], h);
        if !(step.err.Err? && step.err.cause != UserAppNotFound) {
          var rest := RunScenarioPass(reg, opts, run, apps, j + 1, h + step.events);
          ScenarioPassFailureNames(reg, opts, run, apps, j + 1, h + step.events);
          if rest.err.Some? {
            HookedNamesAppend(step.events, rest.events);
            ConsPrefix(apps[j], HookedNames(rest.events), NonDefault(reg.defaults, apps[j + 1..]));
          }
        } else {
          ConsPrefix(apps[j], [], NonDefault(reg.defaults, apps[j + 1..]));
        }
      }
    }
  }

  /** The default pass stops at the first failing hook: nothing before its ✗ line failed. */
  lemma {:induction false} DefaultPassFirstFailure(reg: Registry, opts: Options, run: Behaviour,
                                                   order: seq<string>, i: nat, h: seq<Event>)
    requires Valid(reg)
    requires forall k :: 0 <= k < |order| ==> order[k] in reg.defaults
    requires i <= |order|
    ensures var r := RunDefaultPass(reg, opts, run, order, i, h);
      r.err.Some? ==> |r.events| > 0 && NoFailedStatus(r.events[..|r.events| - 1])
    decreases |order| - i
  {
    if i < |order| {
      var step := DefaultStep(reg, opts, run, order[i], h);
      DefaultStepFirstFailure(reg, opts, run, order[i], h);
      if step.err.Ok? {
        DefaultStepResult(reg, opts, run, order[i], h);
        var rest := RunDefaultPass(reg, opts, run, order, i + 1, h + step.events);
        DefaultPassFirstFailure(reg, opts, run, order, i + 1, h + step.events);
        if rest.err.Some? {
          NoEarlierFailureAfter(step.events, rest.events);
        }
      }
    }
  }

  lemma {:induction false} DefaultPassResolves(reg: Registry, opts: Options, run: Behaviour,
                                               order: seq<string>, i: nat, h: seq<Event>)
    requires Valid(reg)
    requires forall k :: 0 <= k < |order| ==> order[k] in reg.apps
    requires i <= |order|
    ensures AppsResolved(RunDefaultPass(reg, opts, run, order, i, h).events, reg)
    decreases |order| - i
  {
    if i < |order| {
      var step := DefaultStep(reg, opts, run, order[i], h);
      DefaultStepResolves(reg, opts, run, order[i], h);
      if step.err.Ok? {
        var rest := RunDefaultPass(reg, opts, run, order, i + 1, h + step.events);
        DefaultPassResolves(reg, opts, run, order, i + 1, h + step.events);
        AppsResolvedAppend(step.events, rest.events, reg);
      }
    }
  }

  /** The scenario pass stops at the first fatal error: nothing before its ✗ line failed. */
  lemma {:induction false} ScenarioPassFirstFailure(reg: Registry, opts: Options, run: Behaviour,
                                                    apps: seq<string>, j: nat, h: seq<Event>)
    requires Valid(reg)
    requires j <= |apps|
    ensures var r := RunScenarioPass(reg, opts, run, apps, j, h);
      r.err.Some? ==> |r.events| > 0 && NoFailedStatus(r.events[..|r.events| - 1])
    decreases |apps| - j
  {
    if j < |apps| {
      if apps[j] in reg.defaults {
        ScenarioPassFirstFailure(reg, opts, run, apps, j + 1, h);
      } else {
        var step := ScenarioStep(reg, opts, run, apps[j], h);
        ScenarioStepFirstFailure(reg, opts, run, apps[j], h);
        if !(step.err.Err? && step.err.cause != UserAppNotFound) {
          ScenarioStepResult(reg, opts, run, apps[j], h);
          var rest := RunScenarioPass(reg, opts, run, apps, j + 1, h + step.events);
          ScenarioPassFirstFailure(reg, opts, run, apps, j + 1, h + step.events);
          if rest.err.Some? {
            NoEarlierFailureAfter(step.events, rest.events);
          }
        }
      }
    }
  }

  lemma {:induction false} ScenarioPassResolves(reg: Registry, opts: Options, run: Behaviour,
                                                apps: seq<string>, j: nat, h: seq<Event>)
    requires Valid(reg)
    requires j <= |apps|
    ensures AppsResolved(RunScenarioPass(reg, opts, run, apps, j, h).events, reg)
    decreases |apps| - j
  {
    if j < |apps| {
      if apps[j] in reg.defaults {
        ScenarioPassResolves(reg, opts, run, apps, j + 1, h);
      } else {
        var step := ScenarioStep(reg, opts, run, apps[j], h);
        ScenarioStepResolves(reg, opts, run, apps[j], h);
        if !(step.err.Err? && step.err.cause != UserAppNotFound) {
          var rest := RunScenarioPass(reg, opts, run, apps, j + 1, h + step.events);
          ScenarioPassResolves(reg, opts, run, apps, j + 1, h + step.events);
          AppsResolvedAppend(step.events, rest.events, reg);
        }
      }
    }
  }
}

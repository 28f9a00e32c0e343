/**
 * Theorems about one whole ApplyApps call: the default pass, the scenario
 * pass and SetDefaults taken together. `Apply` is the function the method
 * ApplyApps is proved equal to, so each theorem holds of what ApplyApps does.
 */
module ApplyTheorems {
  import opened Wrappers
  import opened AppRegistry
  import opened Lifecycle
  import opened LifecycleProperties

  lemma OrderInDefaults(reg: Registry, order: seq<string>)
    requires Valid(reg) && IsEnumeration(order, reg.defaults)
    ensures forall k :: 0 <= k < |order| ==> order[k] in reg.defaults
    ensures forall k :: 0 <= k < |order| ==> order[k] in reg.apps
  {
    forall k | 0 <= k < |order| ensures order[k] in reg.defaults {
      assert order[k] in order;
    }
  }

  /** Only the stage's hook is ever called. */
  lemma ApplyCallsOnlyStageHook(reg: Registry, order: seq<string>, scenario: Option<seq<string>>, opts: Options, run: Behaviour)
    requires Valid(reg) && IsEnumeration(order, reg.defaults)
    ensures HooksMatchStage(Apply(reg, order, scenario, opts, run).events, opts.stage)
  {
    OrderInDefaults(reg, order);
    var d := RunDefaultPass(reg, opts, run, order, 0, []);
    DefaultPassEffects(reg, opts, run, order, 0, []);
    if d.err.None? && scenario.Some? {
      ScenarioPassEffects(reg, opts, run, scenario.value, 0, d.events);
    }
  }

  /**
   * Init and every hook are called on the app GetApp resolves the name to:
   * the registered app, or the `user-shell` adapter for an unregistered
   * scenario name.
   */
  lemma ApplyRunsResolvedApps(reg: Registry, order: seq<string>, scenario: Option<seq<string>>, opts: Options, run: Behaviour)
    requires Valid(reg) && IsEnumeration(order, reg.defaults)
    ensures AppsResolved(Apply(reg, order, scenario, opts, run).events, reg)
  {
    OrderInDefaults(reg, order);
    var d := RunDefaultPass(reg, opts, run, order, 0, []);
    DefaultPassResolves(reg, opts, run, order, 0, []);
    if d.err.None? {
      var s := if scenario.Some? then RunScenarioPass(reg, opts, run, scenario.value, 0, d.events) else Run(None, []);
      if scenario.Some? {
        ScenarioPassResolves(reg, opts, run, scenario.value, 0, d.events);
      }
      var tail := if s.err.None? && SetsDefaults(opts.stage) then [SetDefaultsCalled] else [];
      assert Apply(reg, order, scenario, opts, run).events == d.events + s.events + tail;
      AppsResolvedAppend(d.events, s.events, reg);
      AppsResolvedAppend(d.events + s.events, tail, reg);
    }
  }

  /** Every hook of an app outside the defaults comes right after that app's Init. */
  lemma ApplyInitsBeforeHooks(reg: Registry, order: seq<string>, scenario: Option<seq<string>>, opts: Options, run: Behaviour)
    requires Valid(reg) && IsEnumeration(order, reg.defaults)
    ensures InitsBeforeHooks(Apply(reg, order, scenario, opts, run).events, reg.defaults, opts.dryRun)
  {
    OrderInDefaults(reg, order);
    var d := RunDefaultPass(reg, opts, run, order, 0, []);
    DefaultPassEffects(reg, opts, run, order, 0, []);
    assert InitsBeforeHooks(d.events, reg.defaults, opts.dryRun);
    if d.err.None? {
      var apps := if scenario.Some? then Then(d.events, RunScenarioPass(reg, opts, run, scenario.value, 0, d.events)) else d;
      if scenario.Some? {
        var s := RunScenarioPass(reg, opts, run, scenario.value, 0, d.events);
        ScenarioPassEffects(reg, opts, run, scenario.value, 0, d.events);
        InitsBeforeHooksAppend(d.events, s.events, reg.defaults, opts.dryRun);
      }
      if apps.err.None? && SetsDefaults(opts.stage) {
        InitsBeforeHooksAppend(apps.events, [SetDefaultsCalled], reg.defaults, opts.dryRun);
      }
    }
  }

  lemma ReportedAcrossPasses(a: seq<Event>, b: seq<Event>, c: seq<Event>, defaults: set<string>, stage: Action, run: Behaviour)
    requires HooksReported(a, [], defaults, stage, run)
    requires HooksReported(b, a, defaults, stage, run)
    requires forall e :: e in c ==> !e.HookCalled?
    ensures HooksReported(a + b + c, [], defaults, stage, run)
  {
    assert [] + a == a;
    HooksReportedAppend(a, b, [], defaults, stage, run);
    assert HooksReported(c, a + b, defaults, stage, run) by {
      forall i | 0 <= i < |c| ensures !c[i].HookCalled? {
        assert c[i] in c;
      }
    }
    HooksReportedAppend(a + b, c, [], defaults, stage, run);
  }

  /** Every hook call is followed at once by its app's status line, which reflects what the hook returned. */
  lemma ApplyReportsEveryHook(reg: Registry, order: seq<string>, scenario: Option<seq<string>>, opts: Options, run: Behaviour)
    requires Valid(reg) && IsEnumeration(order, reg.defaults)
    ensures HooksReported(Apply(reg, order, scenario, opts, run).events, [], reg.defaults, opts.stage, run)
  {
    OrderInDefaults(reg, order);
    var d := RunDefaultPass(reg, opts, run, order, 0, []);
    DefaultPassReports(reg, opts, run, order, 0, []);
    if d.err.None? {
      var s := if scenario.Some? then RunScenarioPass(reg, opts, run, scenario.value, 0, d.events) else Run(None, []);
      if scenario.Some? {
        ScenarioPassReports(reg, opts, run, scenario.value, 0, d.events);
      }
      var tail := if s.err.None? && SetsDefaults(opts.stage) then [SetDefaultsCalled] else [];
      assert Apply(reg, order, scenario, opts, run).events == d.events + s.events + tail;
      ReportedAcrossPasses(d.events, s.events, tail, reg.defaults, opts.stage, run);
    }
  }

  /** SetDefaults runs exactly once, last, when both passes succeed on configure or pre-start, and never otherwise. */
  lemma ApplySetDefaults(reg: Registry, order: seq<string>, scenario: Option<seq<string>>, opts: Options, run: Behaviour)
    requires Valid(reg) && IsEnumeration(order, reg.defaults)
    ensures var r := Apply(reg, order, scenario, opts, run);
      && (SetDefaultsCalled in r.events <==> r.err.None? && SetsDefaults(opts.stage))
      && (SetDefaultsCalled in r.events ==>
            r.events[|r.events| - 1] == SetDefaultsCalled && SetDefaultsCalled !in r.events[..|r.events| - 1])
  {
    OrderInDefaults(reg, order);
    var d := RunDefaultPass(reg, opts, run, order, 0, []);
    DefaultPassEffects(reg, opts, run, order, 0, []);
    if d.err.None? {
      var apps := if scenario.Some? then Then(d.events, RunScenarioPass(reg, opts, run, scenario.value, 0, d.events)) else d;
      if scenario.Some? {
        ScenarioPassEffects(reg, opts, run, scenario.value, 0, d.events);
      }
      assert SetDefaultsCalled !in apps.events;
      if apps.err.None? && SetsDefaults(opts.stage) {
        var t := apps.events + [SetDefaultsCalled];
        assert t[..|t| - 1] == apps.events;
      }
    }
  }

  lemma NamesAcrossPasses(a: seq<Event>, b: seq<Event>, c: seq<Event>)
    requires c == [] || c == [SetDefaultsCalled]
    ensures HookedNames(a + b + c) == HookedNames(a) + HookedNames(b)
    ensures InitNames(a + b + c) == InitNames(a) + InitNames(b)
    ensures NoFailedStatus(a) && NoFailedStatus(b) ==> NoFailedStatus(a + b + c)
  {
    assert [SetDefaultsCalled][1..] == [];
    assert HookedNames(c) == [] && InitNames(c) == [];
    HookedNamesAppend(a, b);
    HookedNamesAppend(a + b, c);
    InitNamesAppend(a, b);
    InitNamesAppend(a + b, c);
  }

  /**
   * A successful call hooked every default app in map order, then every
   * scenario app that is not a default in declared order (nothing at all
   * on a stage without a hook), called Init for exactly those scenario
   * apps, and printed no ✗.
   */
  lemma ApplySucceeds(reg: Registry, order: seq<string>, scenario: Option<seq<string>>, opts: Options, run: Behaviour)
    requires Valid(reg) && IsEnumeration(order, reg.defaults)
    ensures var r := Apply(reg, order, scenario, opts, run);
      r.err.None? ==>
        && HookedNames(r.events) ==
             (if HookFor(opts.stage).Some? then order + NonDefault(reg.defaults, ScenarioApps(scenario)) else [])
        && InitNames(r.events) == NonDefault(reg.defaults, ScenarioApps(scenario))
        && NoFailedStatus(r.events)
  {
    OrderInDefaults(reg, order);
    var d := RunDefaultPass(reg, opts, run, order, 0, []);
    DefaultPassInitsNothing(reg, opts, run, order, 0, []);
    DefaultPassNoFailure(reg, opts, run, order, 0, []);
    if HookFor(opts.stage).Some? {
      DefaultPassHooksAll(reg, opts, run, order, 0, []);
      assert order[0..] == order;
    } else {
      DefaultPassWithoutHook(reg, opts, run, order, 0, []);
    }
    if d.err.None? {
      var s := if scenario.Some? then RunScenarioPass(reg, opts, run, scenario.value, 0, d.events) else Run(None, []);
      if scenario.Some? {
        ScenarioPassInits(reg, opts, run, scenario.value, 0, d.events);
        ScenarioPassNoFailure(reg, opts, run, scenario.value, 0, d.events);
        if HookFor(opts.stage).Some? {
          ScenarioPassInitsMatchHooks(reg, opts, run, scenario.value, 0, d.events);
        } else {
          ScenarioPassWithoutHook(reg, opts, run, scenario.value, 0, d.events);
        }
        assert scenario.value[0..] == scenario.value;
      } else {
        assert NonDefault(reg.defaults, ScenarioApps(scenario)) == [];
      }
      var tail := if s.err.None? && SetsDefaults(opts.stage) then [SetDefaultsCalled] else [];
      assert Apply(reg, order, scenario, opts, run).events == d.events + s.events + tail;
      NamesAcrossPasses(d.events, s.events, tail);
    }
  }


  /**
   * A DefaultApp error names a default app: the default pass hooked a prefix
   * of the map order ending with that app, whose hook failed and was
   * reported ✗ last; no Init ran and the scenario pass never started.
   */
  lemma ApplyDefaultFailure(reg: Registry, order: seq<string>, scenario: Option<seq<string>>, opts: Options, run: Behaviour)
    requires Valid(reg) && IsEnumeration(order, reg.defaults)
    ensures var r := Apply(reg, order, scenario, opts, run);
      r.err.Some? && r.err.value.kind == DefaultApp ==>
        var e := r.err.value;
        && e.stage == opts.stage
        && e.app in reg.defaults
        && HookedNames(r.events) <= order
        && |HookedNames(r.events)| > 0
        && HookedNames(r.events)[|HookedNames(r.events)| - 1] == e.app
        && InitNames(r.events) == []
        && EndsInFailure(r.events, [], reg.apps[e.app], e.app, DefaultApp, opts.stage, run, e.cause)
        && NoFailedStatus(r.events[..|r.events| - 1])
  {
    OrderInDefaults(reg, order);
    var d := RunDefaultPass(reg, opts, run, order, 0, []);
    DefaultPassResult(reg, opts, run, order, 0, []);
    if d.err.Some? {
      var e := d.err.value;
      DefaultPassInitsNothing(reg, opts, run, order, 0, []);
      DefaultPassFailureNames(reg, opts, run, order, 0, []);
      LastHookedFailed(d.events, [], reg.apps[e.app], e.app, DefaultApp, opts.stage, run, e.cause);
      assert order[0..] == order;
    } else if scenario.Some? {
      ScenarioPassFails(reg, opts, run, scenario.value, 0, d.events);
    }
  }


  /**
   * An ExperimentApp error comes from a scenario app outside the defaults
   * whose hook failed with an error other than "user app not found"; that
   * hook call and its ✗ line are the last effects, so SetDefaults never runs.
   */
  lemma ApplyScenarioFailure(reg: Registry, order: seq<string>, scenario: Option<seq<string>>, opts: Options, run: Behaviour)
    requires Valid(reg) && IsEnumeration(order, reg.defaults)
    ensures var r := Apply(reg, order, scenario, opts, run);
      r.err.Some? && r.err.value.kind == ExperimentApp ==>
        var e := r.err.value;
        && scenario.Some?
        && e.stage == opts.stage
        && e.cause != UserAppNotFound
        && e.app !in reg.defaults
        && EndsInFailure(r.events, [], GetApp(reg, e.app), e.app, ExperimentApp, opts.stage, run, e.cause)
        && NoFailedStatus(r.events[..|r.events| - 1])
  {
    OrderInDefaults(reg, order);
    var d := RunDefaultPass(reg, opts, run, order, 0, []);
    DefaultPassResult(reg, opts, run, order, 0, []);
    if d.err.None? && scenario.Some? {
      var s := RunScenarioPass(reg, opts, run, scenario.value, 0, d.events);
      ScenarioPassFails(reg, opts, run, scenario.value, 0, d.events);
      if s.err.Some? {
        var e := s.err.value;
        assert [] + d.events == d.events;
        EndsInFailureAfter(d.events, s.events, [], GetApp(reg, e.app), e.app, ExperimentApp, opts.stage, run, e.cause);
        NoEarlierFailureAfter(d.events, s.events);
      }
    }
  }

  /**
   * Before a scenario app fails, every default app was hooked in map order,
   * then the scenario apps outside the defaults in declared order up to the
   * failing one, each after its Init.
   */
  lemma ApplyScenarioFailureNames(reg: Registry, order: seq<string>, scenario: Option<seq<string>>, opts: Options, run: Behaviour)
    requires Valid(reg) && IsEnumeration(order, reg.defaults)
    ensures var r := Apply(reg, order, scenario, opts, run);
      r.err.Some? && r.err.value.kind == ExperimentApp ==>
        && HookedNames(r.events) == order + InitNames(r.events)
        && InitNames(r.events) <= NonDefault(reg.defaults, ScenarioApps(scenario))
        && |InitNames(r.events)| > 0
        && InitNames(r.events)[|InitNames(r.events)| - 1] == r.err.value.app
  {
    OrderInDefaults(reg, order);
    var d := RunDefaultPass(reg, opts, run, order, 0, []);
    DefaultPassResult(reg, opts, run, order, 0, []);
    if d.err.None? && scenario.Some? {
      var s := RunScenarioPass(reg, opts, run, scenario.value, 0, d.events);
      ScenarioPassFails(reg, opts, run, scenario.value, 0, d.events);
      if s.err.Some? {
        var e := s.err.value;
        DefaultPassInitsNothing(reg, opts, run, order, 0, []);
        DefaultPassHooksAll(reg, opts, run, order, 0, []);
        assert order[0..] == order;
        ScenarioPassInitsMatchHooks(reg, opts, run, scenario.value, 0, d.events);
        ScenarioPassFailureNames(reg, opts, run, scenario.value, 0, d.events);
        assert scenario.value[0..] == scenario.value;
        LastHookedFailed(s.events, d.events, GetApp(reg, e.app), e.app, ExperimentApp, opts.stage, run, e.cause);
        FailureNamesAcross(d.events, s.events, order);
      }
    }
  }


  lemma FailureNamesAcross(a: seq<Event>, b: seq<Event>, order: seq<string>)
    requires HookedNames(a) == order && InitNames(a) == []
    requires InitNames(b) == HookedNames(b)
    ensures HookedNames(a + b) == order + InitNames(a + b)
    ensures InitNames(a + b) == InitNames(b)
  {
    HookedNamesAppend(a, b);
    InitNamesAppend(a, b);
  }

  /**
   * For a stage that is none of the four constants no hook runs, so nothing
   * fails: Init still runs for every scenario app outside the defaults,
   * SetDefaults does not run, and the call returns nil.
   */
  lemma ApplyUnknownStage(reg: Registry, order: seq<string>, scenario: Option<seq<string>>, opts: Options, run: Behaviour)
    requires Valid(reg) && IsEnumeration(order, reg.defaults)
    requires HookFor(opts.stage).None?
    ensures var r := Apply(reg, order, scenario, opts, run);
      && r.err.None?
      && HookedNames(r.events) == []
      && InitNames(r.events) == NonDefault(reg.defaults, ScenarioApps(scenario))
      && SetDefaultsCalled !in r.events
  {
    OrderInDefaults(reg, order);
    var d := RunDefaultPass(reg, opts, run, order, 0, []);
    DefaultPassWithoutHook(reg, opts, run, order, 0, []);
    if scenario.Some? {
      ScenarioPassWithoutHook(reg, opts, run, scenario.value, 0, d.events);
    }
    ApplySucceeds(reg, order, scenario, opts, run);
    ApplySetDefaults(reg, order, scenario, opts, run);
    assert StageOf(Configure) != opts.stage && StageOf(PreStart) != opts.stage;
  }


  /**
   * ApplyApps returns the first fatal error: every hook before the failing
   * one returned nil, or "user app not found" for a scenario app.
   */
  lemma ApplyStopsAtFirstFailure(reg: Registry, order: seq<string>, scenario: Option<seq<string>>, opts: Options, run: Behaviour)
    requires Valid(reg) && IsEnumeration(order, reg.defaults)
    ensures var r := Apply(reg, order, scenario, opts, run);
      r.err.Some? ==>
        forall i :: 0 <= i < |r.events| - 2 && r.events[i].HookCalled? ==>
          NonFatal(run(r.events[..i], r.events[i].app, r.events[i].hook), r.events[i].name in reg.defaults)
  {
    var r := Apply(reg, order, scenario, opts, run);
    if r.err.Some? {
      ApplyReportsEveryHook(reg, order, scenario, opts, run);
      if r.err.value.kind == DefaultApp {
        ApplyDefaultFailure(reg, order, scenario, opts, run);
      } else {
        ApplyScenarioFailure(reg, order, scenario, opts, run);
      }
      EarlierHooksNonFatal(r.events, reg.defaults, opts.stage, run);
    }
  }

  /**
   * Go's map order does not matter to which apps are hooked: two successful
   * calls with any two iteration orders, and any app behaviours, hook the
   * same names the same number of times.
   */
  lemma ApplyHooksIndependentOfOrder(reg: Registry, order1: seq<string>, order2: seq<string>,
                                     scenario: Option<seq<string>>, opts: Options, run1: Behaviour, run2: Behaviour)
    requires Valid(reg) && IsEnumeration(order1, reg.defaults) && IsEnumeration(order2, reg.defaults)
    ensures var r1 := Apply(reg, order1, scenario, opts, run1);
      var r2 := Apply(reg, order2, scenario, opts, run2);
      r1.err.None? && r2.err.None? ==> multiset(HookedNames(r1.events)) == multiset(HookedNames(r2.events))
  {
    ApplySucceeds(reg, order1, scenario, opts, run1);
    ApplySucceeds(reg, order2, scenario, opts, run2);
    EnumerationsArePermutations(order1, order2, reg.defaults);
  }

  /**
   * With the built-in registry and no scenario, a successful call on a stage
   * with a hook hooked each of ntp, serial, startup and vrouter exactly once.
   */
  lemma BuiltinHooksEveryDefault(order: seq<string>, opts: Options, run: Behaviour)
    requires IsEnumeration(order, DEFAULT_NAMES)
    requires HookFor(opts.stage).Some?
    ensures var r := Apply(Builtin(), order, None, opts, run);
      r.err.None? ==>
        && |HookedNames(r.events)| == 4
        && NoDuplicates(HookedNames(r.events))
        && forall x :: x in HookedNames(r.events) <==> x in DEFAULT_NAMES
  {
    ApplySucceeds(Builtin(), order, None, opts, run);
    assert NonDefault(DEFAULT_NAMES, []) == [];
    assert order + [] == order;
    EnumerationSize(order, DEFAULT_NAMES);
  }
}

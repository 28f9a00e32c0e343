/**
 * The app registry of the phenix app package: the name→app table filled at
 * start-up, the set of default app names, and the three lookups over them
 * (GetApp, DefaultApps, List).
 *
 * Go iterates maps in an unspecified order; wherever the source ranges over a
 * map, the order of that iteration is an explicit parameter here, constrained
 * only to enumerate the map's keys.
 */
module AppRegistry {

  /** The app instances registered at start-up, one per built-in variant. */
  datatype App = Ntp | Serial | Startup | UserShell | Vrouter

  /** Registry key of the adapter that shells out to external user apps. */
  const USER_SHELL: string := "user-shell"

  /** Prefix of the external commands that are phenix apps. */
  const APP_COMMAND_PREFIX: string := "phenix-app-"

  /** The names whose apps are applied whatever the experiment's scenario says. */
  const DEFAULT_NAMES: set<string> := {"ntp", "serial", "startup", "vrouter"}

  /** The name→app table together with the default-name marker set. */
  datatype Registry = Registry(apps: map<string, App>, defaults: set<string>)

  /** A registry can answer every lookup: the fallback and every default name are registered. */
  ghost predicate Valid(reg: Registry)
  {
    USER_SHELL in reg.apps && reg.defaults <= reg.apps.Keys
  }

  /** The registry as the package's start-up code fills it. */
  function Builtin(): (reg: Registry)
    ensures Valid(reg)
    ensures USER_SHELL !in reg.defaults
  {
    Registry(
      map["ntp" := Ntp, "serial" := Serial, "startup" := Startup,
          USER_SHELL := UserShell, "vrouter" := Vrouter],
      DEFAULT_NAMES)
  }

  ghost predicate NoDuplicates<T>(s: seq<T>)
  {
    forall i, j :: 0 <= i < j < |s| ==> s[i] != s[j]
  }

  /** `order` visits every element of `s` exactly once: one possible map iteration order. */
  ghost predicate IsEnumeration(order: seq<string>, s: set<string>)
  {
    NoDuplicates(order) && forall x :: x in order <==> x in s
  }

  /** A sequence without duplicates holds each of its elements exactly once. */
  lemma {:induction false} NoDuplicatesCounts(s: seq<string>)
    requires NoDuplicates(s)
    ensures forall x :: multiset(s)[x] == if x in s then 1 else 0
    decreases |s|
  {
    if s != [] {
      var rest := s[1..];
      assert s == [s[0]] + rest;
      assert NoDuplicates(rest) by {
        forall i, j | 0 <= i < j < |rest| ensures rest[i] != rest[j] {
          assert rest[i] == s[i + 1] && rest[j] == s[j + 1];
        }
      }
      assert s[0] !in rest by {
        forall k | 0 <= k < |rest| ensures rest[k] != s[0] {
          assert rest[k] == s[k + 1];
        }
      }
      NoDuplicatesCounts(rest);
      assert multiset(s) == multiset([s[0]]) + multiset(rest);
    }
  }

  /** Two iteration orders of the same set are permutations of each other. */
  lemma EnumerationsArePermutations(order1: seq<string>, order2: seq<string>, s: set<string>)
    requires IsEnumeration(order1, s) && IsEnumeration(order2, s)
    ensures multiset(order1) == multiset(order2)
  {
    NoDuplicatesCounts(order1);
    NoDuplicatesCounts(order2);
    assert forall x :: multiset(order1)[x] == multiset(order2)[x];
  }

  lemma {:induction false} EnumerationSize(order: seq<string>, s: set<string>)
    requires IsEnumeration(order, s)
    ensures |order| == |s|
  {
    if order == [] {
      forall x ensures x !in s {
        assert x !in order;
      }
      assert s == {};
    } else {
      var x, rest := order[0], order[1..];
      forall y ensures y in rest <==> y in s - {x} {
        if y in rest {
          var k :| 0 <= k < |rest| && rest[k] == y;
          assert order[k + 1] == y && order[0] == x;
        }
        if y in s - {x} {
          assert y in order;
          var k :| 0 <= k < |order| && order[k] == y;
          assert k != 0 && rest[k - 1] == y;
        }
      }
      assert NoDuplicates(rest) by {
        forall i, j | 0 <= i < j < |rest| ensures rest[i] != rest[j] {
          assert rest[i] == order[i + 1] && rest[j] == order[j + 1];
        }
      }
      EnumerationSize(rest, s - {x});
      assert x in s;
    }
  }

  /**
   * The app registered under `name`, or the external-command adapter when
   * `name` is not registered: the lookup never fails.
   */
  function GetApp(reg: Registry, name: string): (app: App)
    requires Valid(reg)
    ensures app in reg.apps.Values
    ensures name in reg.apps ==> app == reg.apps[name]
    ensures name !in reg.apps ==> app == reg.apps[USER_SHELL]
  {
    if name in reg.apps then reg.apps[name] else reg.apps[USER_SHELL]
  }

  /** In the built-in registry every name outside the default set resolves to the adapter. */
  lemma BuiltinResolvesToAdapter(name: string)
    ensures GetApp(Builtin(), name) == UserShell <==> name !in DEFAULT_NAMES
  {
  }

  /**
   * The default apps, one per default name, in the order `order` visits the
   * default names.
   */
  method DefaultApps(reg: Registry, order: seq<string>) returns (a: seq<App>)
    requires Valid(reg)
    requires IsEnumeration(order, reg.defaults)
    ensures |a| == |order| == |reg.defaults|
    ensures forall i :: 0 <= i < |a| ==> a[i] == reg.apps[order[i]]
  {
    a := [];
    var i := 0;
    while i < |order|
      invariant 0 <= i <= |order|
      invariant |a| == i
      invariant forall j :: 0 <= j < i ==> a[j] == reg.apps[order[j]]
    {
      a := a + [reg.apps[order[i]]];
      i := i + 1;
    }
    EnumerationSize(order, reg.defaults);
  }

  /** In the built-in registry the default apps are the four built-ins other than the adapter, each once. */
  lemma {:induction false} BuiltinDefaultApps(order: seq<string>, a: seq<App>)
    requires IsEnumeration(order, DEFAULT_NAMES)
    requires |a| == |order|
    requires forall i :: 0 <= i < |a| ==> a[i] == Builtin().apps[order[i]]
    ensures |a| == 4
    ensures NoDuplicates(a)
    ensures forall x :: x in a <==> x in {Ntp, Serial, Startup, Vrouter}
  {
    EnumerationSize(order, DEFAULT_NAMES);
    var reg := Builtin();
    forall i, j | 0 <= i < j < |a| ensures a[i] != a[j] {
      assert order[i] in DEFAULT_NAMES && order[j] in DEFAULT_NAMES;
      assert order[i] != order[j];
    }
    forall x ensures x in a <==> x in {Ntp, Serial, Startup, Vrouter} {
      if x in a {
        var k :| 0 <= k < |a| && a[k] == x;
        assert order[k] in DEFAULT_NAMES;
      }
      if x in {Ntp, Serial, Startup, Vrouter} {
        var n := match x
          case Ntp => "ntp" case Serial => "serial" case Startup => "startup" case _ => "vrouter";
        assert n in order;
        var k :| 0 <= k < |order| && order[k] == n;
        assert a[k] == x;
      }
    }
  }

  /** True when List shows the registered name `name`: neither the adapter nor a default app. */
  predicate Listable(reg: Registry, name: string)
  {
    name != USER_SHELL && name !in reg.defaults
  }

  /** The registry part of List's answer for the key order `keys`. */
  function Listed(reg: Registry, keys: seq<string>): seq<string>
    decreases |keys|
  {
    if keys == [] then []
    else
      var last := keys[|keys| - 1];
      Listed(reg, keys[..|keys| - 1]) + (if Listable(reg, last) then [last] else [])
  }

  /** Listed keeps exactly the listable keys. */
  lemma {:induction false} ListedMembers(reg: Registry, keys: seq<string>)
    ensures forall x :: x in Listed(reg, keys) <==> x in keys && Listable(reg, x)
    decreases |keys|
  {
    if keys != [] {
      var init, last := keys[..|keys| - 1], keys[|keys| - 1];
      ListedMembers(reg, init);
      assert keys == init + [last];
      forall x ensures x in keys <==> x in init || x == last {
        assert x in keys <==> x in init + [last];
      }
    }
  }

  /** Listed keeps the keys in their order and so repeats none of them. */
  lemma {:induction false} ListedNoDuplicates(reg: Registry, keys: seq<string>)
    requires NoDuplicates(keys)
    ensures NoDuplicates(Listed(reg, keys))
    decreases |keys|
  {
    if keys != [] {
      var init, last := keys[..|keys| - 1], keys[|keys| - 1];
      assert NoDuplicates(init) by {
        forall i, j | 0 <= i < j < |init| ensures init[i] != init[j] {
          assert init[i] == keys[i] && init[j] == keys[j];
        }
      }
      ListedNoDuplicates(reg, init);
      ListedMembers(reg, init);
      if Listable(reg, last) {
        forall k | 0 <= k < |init| ensures init[k] != last {
          assert init[k] == keys[k];
        }
        assert last !in init;
        var l := Listed(reg, init);
        assert last !in l;
        forall i, j | 0 <= i < j < |l + [last]| ensures (l + [last])[i] != (l + [last])[j] {
          if j == |l| {
            assert (l + [last])[i] == l[i];
          } else {
            assert (l + [last])[i] == l[i] && (l + [last])[j] == l[j];
          }
        }
      }
    }
  }

  /**
   * The discoverable app names: every registered name except the adapter and
   * the defaults, each once, in the order `keys` visits the registry, followed
   * by the external commands `findCommands` finds for the app prefix, unchanged.
   */
  method List(reg: Registry, keys: seq<string>, findCommands: string -> seq<string>)
    returns (names: seq<string>)
    requires IsEnumeration(keys, reg.apps.Keys)
    ensures names == Listed(reg, keys) + findCommands(APP_COMMAND_PREFIX)
    ensures forall x :: x in names[..|names| - |findCommands(APP_COMMAND_PREFIX)|] <==>
      x in reg.apps && Listable(reg, x)
    ensures NoDuplicates(names[..|names| - |findCommands(APP_COMMAND_PREFIX)|])
  {
    names := [];
    var i := 0;
    while i < |keys|
      invariant 0 <= i <= |keys|
      invariant names == Listed(reg, keys[..i])
    {
      var name := keys[i];
      assert keys[..i + 1][..i] == keys[..i];
      if name == USER_SHELL {
        i := i + 1;
        continue;
      }
      if name in reg.defaults {
        i := i + 1;
        continue;
      }
      names := names + [name];
      i := i + 1;
    }
    assert keys[..i] == keys;
    var registered := names;
    var external := findCommands(APP_COMMAND_PREFIX);
    var k := 0;
    while k < |external|
      invariant 0 <= k <= |external|
      invariant names == registered + external[..k]
    {
      names := names + [external[k]];
      k := k + 1;
    }
    assert external[..k] == external;
    assert names[..|names| - |external|] == registered;
    ListedMembers(reg, keys);
    ListedNoDuplicates(reg, keys);
  }

  /** In the built-in registry every name is the adapter or a default, so List shows only external apps. */
  lemma BuiltinListsOnlyExternal(keys: seq<string>)
    requires IsEnumeration(keys, Builtin().apps.Keys)
    ensures Listed(Builtin(), keys) == []
  {
    forall i | 0 <= i < |keys| ensures !Listable(Builtin(), keys[i]) {
      assert keys[i] in keys;
    }
    ListedNothingListable(Builtin(), keys);
  }

  /** Without a listable key the registry part of List is empty. */
  lemma {:induction false} ListedNothingListable(reg: Registry, keys: seq<string>)
    requires forall i :: 0 <= i < |keys| ==> !Listable(reg, keys[i])
    ensures Listed(reg, keys) == []
    decreases |keys|
  {
    if keys != [] {
      ListedNothingListable(reg, keys[..|keys| - 1]);
    }
  }
}

/**
 From a validated configuration to the tables that serve it: the duplicate check, the registry keyed by
 hostname, and the router keyed by lower-case hostname. Lower-casing is a parameter, `lower`; so are the
 other checks of one application (`others`) and the making of its route target (`target`).
 */
module Routing {
  import opened Wrappers
  import opened MapOrders
  import opened Hostnames

  /** `settings` stands for every other field. */
  datatype App = App(hostname: string, settings: string)

  datatype Target = Target(hostname: string, handler: string)

  datatype Config = Config(apps: seq<App>, port: u16, host: string)

  datatype AppError = EmptyHostname | BadHostname(hostname: string) | Other(message: string)

  datatype Error =
    | NoApps
    | TooManyApps(count: nat)
    | Duplicate(hostname: string)
    | OfApp(i: nat, hostname: string, error: AppError)
    | NoPort
    | NoHost

  type Lower = string -> string

  // Inserting keys and values into a hash map one after the other.

  function Collect<V>(keys: seq<string>, values: seq<V>): map<string, V>
    requires |keys| == |values|
  {
    if keys == [] then map[] else
      var n := |keys| - 1;
      Collect(keys[..n], values[..n])[keys[n] := values[n]]
  }

  /** The places whose key came before. */
  function Repeats(keys: seq<string>): seq<nat> {
    if keys == [] then [] else
      var n := |keys| - 1;
      Repeats(keys[..n]) + if keys[n] in keys[..n] then [n] else []
  }

  /** The map holds, for every key, the last value inserted under it, and nothing else. */
  lemma {:induction false} CollectKeepsTheLast<V>(keys: seq<string>, values: seq<V>)
    requires |keys| == |values|
    ensures forall k :: k in Collect(keys, values) <==> k in keys
    ensures forall i :: 0 <= i < |keys| && keys[i] !in keys[i + 1..] ==> Collect(keys, values)[keys[i]] == values[i]
  {
    if keys != [] {
      var n := |keys| - 1;
      CollectKeepsTheLast(keys[..n], values[..n]);
      assert keys == keys[..n] + [keys[n]];
      forall i | 0 <= i < |keys| && keys[i] !in keys[i + 1..]
        ensures Collect(keys, values)[keys[i]] == values[i]
      {
        if i < n {
          assert keys[i + 1..][n - i - 1] == keys[n];
          assert keys[i + 1..] == keys[..n][i + 1..] + [keys[n]];
          assert keys[..n][i] == keys[i];
        }
      }
    }
  }

  /** Every key either has its own entry or repeats one, so nothing is lost exactly when keys differ. */
  lemma {:induction false} EntriesAndRepeats<V>(keys: seq<string>, values: seq<V>)
    requires |keys| == |values|
    ensures |Collect(keys, values)| + |Repeats(keys)| == |keys|
    ensures Repeats(keys) == [] <==> NoDuplicates(keys)
  {
    if keys != [] {
      var n := |keys| - 1;
      EntriesAndRepeats(keys[..n], values[..n]);
      CollectKeepsTheLast(keys[..n], values[..n]);
      InsertSize(Collect(keys[..n], values[..n]), keys[n], values[n]);
    }
    RepeatsExactly(keys);
  }

  lemma {:induction false} RepeatsExactly(keys: seq<string>)
    ensures Repeats(keys) == [] <==> NoDuplicates(keys)
  {
    if keys != [] {
      var n := |keys| - 1;
      RepeatsExactly(keys[..n]);
      DistinctMore(keys[..n], keys[n]);
      assert keys == keys[..n] + [keys[n]];
    }
  }

  lemma DistinctKeepsAll<V>(keys: seq<string>, values: seq<V>)
    requires |keys| == |values| && NoDuplicates(keys)
    ensures |Collect(keys, values)| == |keys|
    ensures forall i :: 0 <= i < |keys| ==>
      keys[i] in Collect(keys, values) && Collect(keys, values)[keys[i]] == values[i]
    ensures forall k :: k in Collect(keys, values) <==> k in keys
  {
    EntriesAndRepeats(keys, values);
    CollectKeepsTheLast(keys, values);
    assert forall i :: 0 <= i < |keys| ==> keys[i] !in keys[i + 1..];
  }

  lemma InsertSize<V>(m: map<string, V>, k: string, v: V)
    ensures |m[k := v]| == |m| + if k in m then 0 else 1
  {
    assert m[k := v].Keys == m.Keys + {k};
    assert |m.Keys| == |m| && |m[k := v].Keys| == |m[k := v]|;
  }

  lemma DistinctMore(keys: seq<string>, k: string)
    ensures NoDuplicates(keys + [k]) <==> NoDuplicates(keys) && k !in keys
  {
    var more := keys + [k];
    if NoDuplicates(more) {
      assert more[|keys|] == k;
      forall i, j | 0 <= i < j < |keys| ensures keys[i] != keys[j] { assert more[i] != more[j]; }
      forall i | 0 <= i < |keys| ensures keys[i] != k { assert more[i] != more[|keys|]; }
    }
  }

  // The two tables.

  function RawNames(apps: seq<App>): (names: seq<string>)
    ensures |names| == |apps|
  {
    seq(|apps|, i requires 0 <= i < |apps| => apps[i].hostname)
  }

  function LowerNames(apps: seq<App>, lower: Lower): (names: seq<string>)
    ensures |names| == |apps|
  {
    seq(|apps|, i requires 0 <= i < |apps| => lower(apps[i].hostname))
  }

  function Targets(apps: seq<App>, target: App -> Target): (targets: seq<Target>)
    ensures |targets| == |apps|
  {
    seq(|apps|, i requires 0 <= i < |apps| => target(apps[i]))
  }

  function FromConfig(config: Config): map<string, App> {
    Collect(RawNames(config.apps), config.apps)
  }

  function Get(registry: map<string, App>, hostname: string): Option<App> {
    if hostname in registry then Some(registry[hostname]) else None
  }

  function Routes(config: Config, lower: Lower, target: App -> Target): map<string, Target> {
    Collect(LowerNames(config.apps, lower), Targets(config.apps, target))
  }

  function Find(routes: map<string, Target>, fallback: Target, host: string, lower: Lower): Target {
    if lower(host) in routes then routes[lower(host)] else fallback
  }

  class VirtualHostRouter {
    var routes: map<string, Target>
    const fallback: Target

    constructor (fallback: Target)
      ensures routes == map[] && this.fallback == fallback
    {
      routes := map[];
      this.fallback := fallback;
    }

    method Register(hostname: string, target: Target, lower: Lower)
      modifies this
      ensures routes == old(routes)[lower(hostname) := target]
    {
      routes := routes[lower(hostname) := target];
    }

    function Resolve(host: string, lower: Lower): Target
      reads this
    {
      Find(routes, fallback, host, lower)
    }
  }

  /** The router the server starts with. */
  method BuildRouter(config: Config, lower: Lower, target: App -> Target, fallback: Target)
    returns (router: VirtualHostRouter)
    ensures fresh(router) && router.fallback == fallback && router.routes == Routes(config, lower, target)
    ensures forall host :: router.Resolve(host, lower) == Find(Routes(config, lower, target), fallback, host, lower)
  {
    router := new VirtualHostRouter(fallback);
    var names, targets := LowerNames(config.apps, lower), Targets(config.apps, target);
    for i := 0 to |config.apps|
      invariant router.routes == Collect(names[..i], targets[..i])
    {
      router.Register(config.apps[i].hostname, target(config.apps[i]), lower);
      assert names[..i + 1][..i] == names[..i] && targets[..i + 1][..i] == targets[..i];
    }
    assert names == names[..|config.apps|] && targets == targets[..|config.apps|];
  }

  // Validation.

  function SizeErrors(n: nat): seq<Error> {
    if n == 0 then [NoApps] else if n > 1000 then [TooManyApps(n)] else []
  }

  /** One error per place that repeats a lower-case name, showing the name as it was written. */
  function DuplicateErrors(apps: seq<App>, lower: Lower): seq<Error> {
    if apps == [] then [] else
      var n := |apps| - 1;
      DuplicateErrors(apps[..n], lower) +
      if lower(apps[n].hostname) in LowerNames(apps[..n], lower) then [Duplicate(apps[n].hostname)] else []
  }

  ghost function ErrorsOf(app: App, others: App -> seq<AppError>): seq<AppError> {
    (if app.hostname == "" then [EmptyHostname]
     else if !ValidHostname(app.hostname) then [BadHostname(app.hostname)]
     else []) + others(app)
  }

  function Located(i: nat, hostname: string, errors: seq<AppError>): seq<Error> {
    seq(|errors|, k requires 0 <= k < |errors| => OfApp(i, hostname, errors[k]))
  }

  ghost function AppErrors(apps: seq<App>, others: App -> seq<AppError>): seq<Error> {
    if apps == [] then [] else
      var n := |apps| - 1;
      AppErrors(apps[..n], others) + Located(n, apps[n].hostname, ErrorsOf(apps[n], others))
  }

  function ServerErrors(config: Config): seq<Error> {
    (if config.port == 0 then [NoPort] else []) + if config.host == "" then [NoHost] else []
  }

  ghost function Errors(config: Config, lower: Lower, others: App -> seq<AppError>): seq<Error> {
    SizeErrors(|config.apps|) + DuplicateErrors(config.apps, lower) + AppErrors(config.apps, others) +
    ServerErrors(config)
  }

  method ValidateConfig(app: App, others: App -> seq<AppError>) returns (errors: seq<AppError>)
    ensures errors == ErrorsOf(app, others)
  {
    errors := [];
    if app.hostname == "" {
      errors := errors + [EmptyHostname];
    } else {
      var valid := IsValidHostname(app.hostname);
      if !valid { errors := errors + [BadHostname(app.hostname)]; }
    }
    errors := errors + others(app);
  }

  /** The loop over the set of names seen so far. */
  method CheckDuplicates(apps: seq<App>, lower: Lower) returns (errors: seq<Error>)
    ensures errors == DuplicateErrors(apps, lower)
  {
    errors := [];
    var seen: set<string> := {};
    for i := 0 to |apps|
      invariant forall name :: name in seen <==> name in LowerNames(apps[..i], lower)
      invariant errors == DuplicateErrors(apps[..i], lower)
    {
      var name := lower(apps[i].hostname);
      assert apps[..i + 1][..i] == apps[..i];
      assert LowerNames(apps[..i + 1], lower) == LowerNames(apps[..i], lower) + [name];
      if name in seen {
        errors := errors + [Duplicate(apps[i].hostname)];
      } else {
        seen := seen + {name};
      }
    }
    assert apps == apps[..|apps|];
  }

  lemma NoAppYet(others: App -> seq<AppError>)
    ensures AppErrors([], others) == []
  {
  }

  lemma AppErrorsMore(apps: seq<App>, i: nat, others: App -> seq<AppError>)
    requires i < |apps|
    ensures AppErrors(apps[..i + 1], others) ==
            AppErrors(apps[..i], others) + Located(i, apps[i].hostname, ErrorsOf(apps[i], others))
  {
    assert apps[..i + 1][..i] == apps[..i];
  }

  /** The whole check: how many applications, duplicates, each application, the server. */
  method ValidateNanoConfig(config: Config, lower: Lower, others: App -> seq<AppError>) returns (errors: seq<Error>)
    ensures errors == Errors(config, lower, others)
  {
    hide DuplicateErrors, AppErrors, ErrorsOf, ValidHostname;
    var apps := config.apps;
    errors := [];
    NoAppYet(others);
    if apps == [] {
      errors := [NoApps];
    } else if |apps| > 1000 {
      errors := [TooManyApps(|apps|)];
    }
    var duplicates := CheckDuplicates(apps, lower);
    errors := errors + duplicates;
    for i := 0 to |apps|
      invariant errors == SizeErrors(|apps|) + DuplicateErrors(apps, lower) + AppErrors(apps[..i], others)
    {
      var found := ValidateConfig(apps[i], others);
      AppErrorsMore(apps, i, others);
      errors := errors + Located(i, apps[i].hostname, found);
    }
    assert apps == apps[..|apps|];
    if config.port == 0 { errors := errors + [NoPort]; }
    if config.host == "" { errors := errors + [NoHost]; }
  }

  // Which errors are reported.

  /** The applications whose lower-case name came before, in order. */
  lemma {:induction false} DuplicateNames(apps: seq<App>, lower: Lower)
    ensures var repeats := Repeats(LowerNames(apps, lower));
      && |DuplicateErrors(apps, lower)| == |repeats|
      && forall k :: 0 <= k < |repeats| ==>
        repeats[k] < |apps| && DuplicateErrors(apps, lower)[k] == Duplicate(apps[repeats[k]].hostname)
  {
    if apps != [] {
      var n := |apps| - 1;
      DuplicateNames(apps[..n], lower);
      assert LowerNames(apps, lower)[..n] == LowerNames(apps[..n], lower);
    }
  }

  /** The key of place `i` came before. */
  ghost predicate CameBefore(keys: seq<string>, i: nat) {
    i < |keys| && exists j :: 0 <= j < i && keys[j] == keys[i]
  }

  lemma CameBeforeMore(keys: seq<string>, k: string, i: nat)
    ensures CameBefore(keys + [k], i) <==> CameBefore(keys, i) || (i == |keys| && k in keys)
  {
    var more := keys + [k];
    if i < |keys| {
      assert forall j :: 0 <= j <= i ==> more[j] == keys[j];
    } else if i == |keys| {
      assert forall j :: 0 <= j < i ==> more[j] == keys[j];
    }
  }

  /** A place repeats exactly when an earlier one has the same key. */
  lemma {:induction false} RepeatsAreLater(keys: seq<string>, i: nat)
    ensures i in Repeats(keys) <==> CameBefore(keys, i)
  {
    if keys != [] {
      var n := |keys| - 1;
      RepeatsAreLater(keys[..n], i);
      CameBeforeMore(keys[..n], keys[n], i);
      hide CameBefore;
      assert keys[..n] + [keys[n]] == keys;
    }
  }

  /** The repeating places come in order. */
  lemma {:induction false} RepeatsAscend(keys: seq<string>)
    ensures forall i :: i in Repeats(keys) ==> i < |keys|
    ensures forall a, b :: 0 <= a < b < |Repeats(keys)| ==> Repeats(keys)[a] < Repeats(keys)[b]
  {
    if keys != [] {
      var before := Repeats(keys[..|keys| - 1]);
      RepeatsAscend(keys[..|keys| - 1]);
      assert forall a :: 0 <= a < |before| ==> before[a] in before;
    }
  }

  lemma {:induction false} AppErrorMembers(apps: seq<App>, others: App -> seq<AppError>)
    ensures forall e :: e in AppErrors(apps, others) <==>
      e.OfApp? && e.i < |apps| && e.hostname == apps[e.i].hostname && e.error in ErrorsOf(apps[e.i], others)
  {
    if apps != [] {
      var n := |apps| - 1;
      AppErrorMembers(apps[..n], others);
      LocatedMembers(n, apps[n].hostname, ErrorsOf(apps[n], others));
      hide ErrorsOf, Located;
    }
  }

  lemma LocatedMembers(i: nat, hostname: string, errors: seq<AppError>)
    ensures forall e :: e in Located(i, hostname, errors) <==>
      e.OfApp? && e.i == i && e.hostname == hostname && e.error in errors
  {
    forall e: Error | e.OfApp? && e.i == i && e.hostname == hostname && e.error in errors
      ensures e in Located(i, hostname, errors)
    {
      var k :| 0 <= k < |errors| && errors[k] == e.error;
      assert Located(i, hostname, errors)[k] == e;
    }
  }

  lemma ErrorParts(config: Config, lower: Lower, others: App -> seq<AppError>, e: Error)
    ensures e in Errors(config, lower, others) <==>
      || e in SizeErrors(|config.apps|) || e in DuplicateErrors(config.apps, lower)
      || e in AppErrors(config.apps, others) || e in ServerErrors(config)
  {
    hide SizeErrors, DuplicateErrors, AppErrors, ServerErrors;
  }

  /** Every kind of error about the configuration is reported exactly when its cause is there. */
  lemma ReportedExactly(config: Config, lower: Lower, others: App -> seq<AppError>, n: nat)
    ensures var errors, apps := Errors(config, lower, others), config.apps;
      && (NoApps in errors <==> apps == [])
      && (TooManyApps(n) in errors <==> n == |apps| > 1000)
      && (NoPort in errors <==> config.port == 0)
      && (NoHost in errors <==> config.host == "")
  {
    AppErrorMembers(config.apps, others);
    DuplicatesOnly(config.apps, lower);
    ErrorParts(config, lower, others, NoApps);
    ErrorParts(config, lower, others, TooManyApps(n));
    ErrorParts(config, lower, others, NoPort);
    ErrorParts(config, lower, others, NoHost);
    hide AppErrors, DuplicateErrors, ErrorsOf, Errors;
  }

  /** So is every error about an application: it names the application by its place and hostname, and tells an
      empty hostname from one that is not valid. */
  lemma AppReportedExactly(
    config: Config, lower: Lower, others: App -> seq<AppError>, i: nat, hostname: string, error: AppError)
    requires !error.Other?
    requires forall app, e :: e in others(app) ==> e.Other?
    ensures OfApp(i, hostname, error) in Errors(config, lower, others) <==>
      && i < |config.apps| && hostname == config.apps[i].hostname
      && error == (if hostname == "" then EmptyHostname else BadHostname(hostname)) && !ValidHostname(hostname)
  {
    AppErrorMembers(config.apps, others);
    DuplicatesOnly(config.apps, lower);
    ErrorParts(config, lower, others, OfApp(i, hostname, error));
    EmptyIsInvalid();
    hide AppErrors, DuplicateErrors, Errors, ValidHostname;
    if i < |config.apps| { OwnErrors(config.apps[i], others, error); }
  }

  lemma OwnErrors(app: App, others: App -> seq<AppError>, error: AppError)
    requires !error.Other? && forall e :: e in others(app) ==> e.Other?
    ensures error in ErrorsOf(app, others) <==>
      error == (if app.hostname == "" then EmptyHostname else BadHostname(app.hostname)) && !ValidHostname(app.hostname)
  {
    EmptyIsInvalid();
    hide ValidHostname;
  }

  lemma {:induction false} DuplicatesOnly(apps: seq<App>, lower: Lower)
    ensures forall e :: e in DuplicateErrors(apps, lower) ==> e.Duplicate?
  {
    if apps != [] { DuplicatesOnly(apps[..|apps| - 1], lower); }
  }

  // The results.

  /** The duplicate check reports exactly one error for each application that the router would lose. */
  lemma {:induction false} OneErrorPerLostRoute(config: Config, lower: Lower, target: App -> Target)
    ensures |DuplicateErrors(config.apps, lower)| + |Routes(config, lower, target)| == |config.apps|
    ensures DuplicateErrors(config.apps, lower) == [] <==> NoDuplicates(LowerNames(config.apps, lower))
  {
    EntriesAndRepeats(LowerNames(config.apps, lower), Targets(config.apps, target));
    ErrorsAreRepeats(config.apps, lower);
  }

  lemma {:induction false} ErrorsAreRepeats(apps: seq<App>, lower: Lower)
    ensures |DuplicateErrors(apps, lower)| == |Repeats(LowerNames(apps, lower))|
  {
    if apps != [] {
      var n := |apps| - 1;
      ErrorsAreRepeats(apps[..n], lower);
      assert LowerNames(apps, lower)[..n] == LowerNames(apps[..n], lower);
    }
  }

  /** What validation accepts. */
  lemma {:induction false} ValidExactly(config: Config, lower: Lower, others: App -> seq<AppError>)
    ensures Errors(config, lower, others) == [] <==>
      && 1 <= |config.apps| <= 1000
      && NoDuplicates(LowerNames(config.apps, lower))
      && (forall i :: 0 <= i < |config.apps| ==> ValidHostname(config.apps[i].hostname) && others(config.apps[i]) == [])
      && config.port != 0 && config.host != ""
  {
    OneErrorPerLostRoute(config, lower, app => Target("", ""));
    NoAppErrors(config.apps, others);
  }

  lemma {:induction false} NoAppErrors(apps: seq<App>, others: App -> seq<AppError>)
    ensures AppErrors(apps, others) == [] <==>
      forall i :: 0 <= i < |apps| ==> ValidHostname(apps[i].hostname) && others(apps[i]) == []
  {
    if apps != [] {
      var n := |apps| - 1;
      NoAppErrors(apps[..n], others);
      EmptyIsInvalid();
      assert |AppErrors(apps, others)| == |AppErrors(apps[..n], others)| + |ErrorsOf(apps[n], others)|;
      assert forall i :: 0 <= i < n ==> apps[..n][i] == apps[i];
    }
  }

  /** A configuration that passes validation loses nothing: the registry has exactly one entry per
      application and returns it; the router sends every casing of a hostname to that application's target
      and every other host to the default. */
  lemma ValidConfigLosesNothing(
    config: Config, lower: Lower, others: App -> seq<AppError>, target: App -> Target, fallback: Target)
    requires Errors(config, lower, others) == []
    ensures var registry := FromConfig(config);
      && |registry| == |config.apps|
      && (forall i :: 0 <= i < |config.apps| ==> Get(registry, config.apps[i].hostname) == Some(config.apps[i]))
    ensures var routes := Routes(config, lower, target);
      && |routes| == |config.apps|
      && (forall i, host :: 0 <= i < |config.apps| && lower(host) == lower(config.apps[i].hostname) ==>
            Find(routes, fallback, host, lower) == target(config.apps[i]))
      && (forall host :: lower(host) !in LowerNames(config.apps, lower) ==>
            Find(routes, fallback, host, lower) == fallback)
  {
    ValidExactly(config, lower, others);
    DistinctRaw(config.apps, lower);
    RegistryKeepsAll(config);
    RouterServesAll(config, lower, target, fallback);
  }

  lemma DistinctRaw(apps: seq<App>, lower: Lower)
    requires NoDuplicates(LowerNames(apps, lower))
    ensures NoDuplicates(RawNames(apps))
  {
    var names, lowered := RawNames(apps), LowerNames(apps, lower);
    forall i, j | 0 <= i < j < |apps| ensures names[i] != names[j] {
      assert lowered[i] != lowered[j];
    }
  }

  lemma RegistryKeepsAll(config: Config)
    requires NoDuplicates(RawNames(config.apps))
    ensures var registry := FromConfig(config);
      && |registry| == |config.apps|
      && (forall i :: 0 <= i < |config.apps| ==> Get(registry, config.apps[i].hostname) == Some(config.apps[i]))
  {
    var apps, names := config.apps, RawNames(config.apps);
    DistinctKeepsAll(names, apps);
    hide Collect, NoDuplicates;
    forall i | 0 <= i < |apps| ensures Get(FromConfig(config), apps[i].hostname) == Some(apps[i]) {
      assert names[i] == apps[i].hostname;
    }
  }

  lemma RouterServesAll(config: Config, lower: Lower, target: App -> Target, fallback: Target)
    requires NoDuplicates(LowerNames(config.apps, lower))
    ensures var routes := Routes(config, lower, target);
      && |routes| == |config.apps|
      && (forall i, host :: 0 <= i < |config.apps| && lower(host) == lower(config.apps[i].hostname) ==>
            Find(routes, fallback, host, lower) == target(config.apps[i]))
      && (forall host :: lower(host) !in LowerNames(config.apps, lower) ==>
            Find(routes, fallback, host, lower) == fallback)
  {
    var apps := config.apps;
    var lowered, targets := LowerNames(apps, lower), Targets(apps, target);
    DistinctKeepsAll(lowered, targets);
    hide Collect, NoDuplicates;
    forall i, host | 0 <= i < |apps| && lower(host) == lower(apps[i].hostname)
      ensures Find(Routes(config, lower, target), fallback, host, lower) == target(apps[i])
    {
      assert lowered[i] == lower(host) && targets[i] == target(apps[i]);
    }
  }
}

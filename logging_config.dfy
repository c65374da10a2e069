/**
 * Which control-plane log types a cluster sends to CloudWatch
 * (`check_cluster_logging`), and the log types a retrieval reads when the
 * caller names none (the start of `retrieve_logs`).
 */
module LoggingConfig {
  import opened Wrappers

  /** One entry of `logging.clusterLogging`: its `enabled` flag and `types` list may each be absent. */
  datatype LogSetup = LogSetup(enabled: Option<bool>, types: Option<seq<string>>)

  /**
   * The `logging` part of a `describe_cluster` answer. A failed call, like an
   * answer without a `logging` or `clusterLogging` key, has no setups.
   */
  datatype ClusterLogging = ClusterLogging(clusterLogging: Option<seq<LogSetup>>)

  /** The log types used when none are requested and none are enabled. */
  const DefaultLogTypes: seq<string> := ["api", "audit"]

  function Setups(config: ClusterLogging): seq<LogSetup> {
    config.clusterLogging.GetOr([])
  }

  /** `log_config.get('enabled', False)`. */
  predicate IsEnabled(setup: LogSetup) {
    setup.enabled.GetOr(false)
  }

  /** `log_config.get('types', [])`. */
  function TypesOf(setup: LogSetup): seq<string> {
    setup.types.GetOr([])
  }

  /** The types of the enabled setups, concatenated in order (duplicates kept). */
  function EnabledTypes(setups: seq<LogSetup>): seq<string> {
    if setups == [] then []
    else
      var last := setups[|setups| - 1];
      EnabledTypes(setups[..|setups| - 1]) + (if IsEnabled(last) then TypesOf(last) else [])
  }

  /** A type is reported exactly when some enabled setup lists it. */
  lemma {:induction false} EnabledTypesMembers(setups: seq<LogSetup>, t: string)
    ensures t in EnabledTypes(setups) <==> exists i :: 0 <= i < |setups| && IsEnabled(setups[i]) && t in TypesOf(setups[i])
  {
    if setups != [] {
      var init := setups[..|setups| - 1];
      EnabledTypesMembers(init, t);
      if exists i :: 0 <= i < |init| && IsEnabled(init[i]) && t in TypesOf(init[i]) {
        var i :| 0 <= i < |init| && IsEnabled(init[i]) && t in TypesOf(init[i]);
        assert setups[i] == init[i];
      }
      if exists i :: 0 <= i < |setups| && IsEnabled(setups[i]) && t in TypesOf(setups[i]) {
        var i :| 0 <= i < |setups| && IsEnabled(setups[i]) && t in TypesOf(setups[i]);
        if i < |init| {
          assert init[i] == setups[i];
        }
      }
    }
  }

  /**
   * `check_cluster_logging`: collects the types of the enabled setups in a loop
   * and reports logging as enabled exactly when that list is non-empty.
   */
  method CheckClusterLogging(config: ClusterLogging) returns (enabled: bool, types: seq<string>)
    ensures types == EnabledTypes(Setups(config))
    ensures enabled <==> types != []
  {
    var setups := Setups(config);
    var collected: seq<string> := [];
    for i := 0 to |setups|
      invariant collected == EnabledTypes(setups[..i])
    {
      assert setups[..i + 1][..i] == setups[..i];
      if IsEnabled(setups[i]) {
        collected := collected + TypesOf(setups[i]);
      }
    }
    assert setups[..|setups|] == setups;
    if collected != [] {
      enabled, types := true, collected;
    } else {
      enabled, types := false, [];
    }
  }

  /**
   * The log types a retrieval reads: the requested ones, else the enabled
   * ones, else `DefaultLogTypes`. The result is never empty, so the per-call
   * limit `max_log_entries // len(log_types)` never divides by zero.
   */
  function ResolveLogTypes(requested: seq<string>, config: ClusterLogging): (types: seq<string>)
    ensures |types| > 0
    ensures requested != [] ==> types == requested
    ensures requested == [] ==> forall t :: t in types ==> t in EnabledTypes(Setups(config)) || t in DefaultLogTypes
    ensures requested == [] && EnabledTypes(Setups(config)) != [] ==> types == EnabledTypes(Setups(config))
    ensures requested == [] && EnabledTypes(Setups(config)) == [] ==> types == DefaultLogTypes
  {
    if requested != [] then requested
    else
      var enabled := EnabledTypes(Setups(config));
      if enabled != [] then enabled else DefaultLogTypes
  }

  /**
   * Nothing requested and no setup that is both enabled and lists a type
   * (setups may be disabled, or enabled with `types` empty or absent): the
   * retrieval reads `api` and `audit`.
   */
  lemma ResolveDefaults(config: ClusterLogging)
    requires forall i :: 0 <= i < |Setups(config)| ==> !IsEnabled(Setups(config)[i]) || TypesOf(Setups(config)[i]) == []
    ensures ResolveLogTypes([], config) == ["api", "audit"]
  {
    EnabledTypesNone(Setups(config));
  }

  /** Without an enabled setup that lists a type, no type is reported. */
  lemma {:induction false} EnabledTypesNone(setups: seq<LogSetup>)
    requires forall i :: 0 <= i < |setups| ==> !IsEnabled(setups[i]) || TypesOf(setups[i]) == []
    ensures EnabledTypes(setups) == []
  {
    if setups != [] {
      EnabledTypesNone(setups[..|setups| - 1]);
    }
  }
}

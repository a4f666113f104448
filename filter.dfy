/**
 * The per-measure decision of the live-measure persistence step (which raw
 * measures of a component become stored records) and the record set it
 * specifies for one component.
 */
module LiveMeasureFilter {
  import opened Measures

  const FileComplexityDistributionKey: string := "file_complexity_distribution"
  const FunctionComplexityDistributionKey: string := "function_complexity_distribution"

  /** Metric keys never persisted on a FILE component. */
  const NotToPersistOnFileMetricKeys: set<string> := {FileComplexityDistributionKey, FunctionComplexityDistributionKey}

  /**
   * The collaborators of the step whose code is not part of this model, as
   * uninterpreted values:
   * - metricsByKey: the metric repository's lookup by key;
   * - rawMeasures: the measure repository's raw measures of a component, by metric key;
   * - bestValueOptimized: the best-value optimisation predicate for (metric, component);
   * - payloadOf: the value part of the measure-to-record conversion.
   */
  datatype Collaborators = Collaborators(
    metricsByKey: map<string, Metric>,
    rawMeasures: Component -> map<string, Measure>,
    bestValueOptimized: (Metric, Component, Measure) -> bool,
    payloadOf: (Measure, Metric, Component) -> Payload)

  /** Distinct metric keys name distinct metric uuids. */
  ghost predicate UuidsInjective(metricsByKey: map<string, Metric>) {
    forall k1, k2 :: k1 in metricsByKey && k2 in metricsByKey && metricsByKey[k1].uuid == metricsByKey[k2].uuid ==> k1 == k2
  }

  /**
   * What the step relies on from its collaborators: metric uuids are unique,
   * and every raw measure that reaches the metric lookup has a known metric.
   */
  ghost predicate WellFormed(ctx: Collaborators) {
    && UuidsInjective(ctx.metricsByKey)
    && forall component, metricKey ::
         metricKey in ctx.rawMeasures(component) && !IsExcludedOnFile(component, metricKey) ==> metricKey in ctx.metricsByKey
  }

  /** The file-only exclusion rule: it drops exactly the two distribution metrics, and only on a FILE. */
  predicate IsExcludedOnFile(component: Component, metricKey: string): (r: bool)
    ensures r <==> (component.kind == File
      && (metricKey == FileComplexityDistributionKey || metricKey == FunctionComplexityDistributionKey))
  {
    metricKey in NotToPersistOnFileMetricKeys && component.kind == File
  }

  /** A measure is worth storing when it has a value, a variation or data. */
  predicate IsNonEmpty(m: Measure): (r: bool)
    ensures !r <==> m.value == NoValue && m.variation == None && m.data == None
  {
    m.ValueType() != NoValueType || m.HasVariation() || m.data.Some?
  }

  /**
   * The step keeps the raw measure of `metricKey` on `component`. A kept
   * measure exists, has a known metric, carries something, and is never a
   * distribution metric on a FILE.
   */
  predicate IsPersisted(ctx: Collaborators, component: Component, metricKey: string): (r: bool)
    ensures r ==> metricKey in ctx.rawMeasures(component) && metricKey in ctx.metricsByKey
    ensures r ==> (ctx.rawMeasures(component)[metricKey].value != NoValue
      || ctx.rawMeasures(component)[metricKey].variation.Some? || ctx.rawMeasures(component)[metricKey].data.Some?)
    ensures component.kind == File && metricKey in NotToPersistOnFileMetricKeys ==> !r
  {
    var measures := ctx.rawMeasures(component);
    && metricKey in measures
    && !IsExcludedOnFile(component, metricKey)
    && metricKey in ctx.metricsByKey
    && IsNonEmpty(measures[metricKey])
    && !ctx.bestValueOptimized(ctx.metricsByKey[metricKey], component, measures[metricKey])
  }

  /** The record built for a kept measure. */
  function ToLiveMeasureDto(ctx: Collaborators, m: Measure, metric: Metric, component: Component): (dto: LiveMeasureDto)
    ensures dto.componentUuid == component.uuid && dto.metricUuid == metric.uuid
  {
    LiveMeasureDto(component.uuid, metric.uuid, ctx.payloadOf(m, metric, component))
  }

  /** The record for the raw measure of `metricKey`. */
  function RecordFor(ctx: Collaborators, component: Component, metricKey: string): LiveMeasureDto
    requires metricKey in ctx.rawMeasures(component) && metricKey in ctx.metricsByKey
  {
    ToLiveMeasureDto(ctx, ctx.rawMeasures(component)[metricKey], ctx.metricsByKey[metricKey], component)
  }

  /** The records, by metric uuid, of the kept measures whose keys are in `keys`. */
  ghost function LiveRecordsAmong(ctx: Collaborators, component: Component, keys: set<string>): (r: map<string, LiveMeasureDto>)
    requires WellFormed(ctx)
    ensures forall u :: u in r ==> r[u].componentUuid == component.uuid && r[u].metricUuid == u
  {
    map k | k in keys && IsPersisted(ctx, component, k) :: ctx.metricsByKey[k].uuid := RecordFor(ctx, component, k)
  }

  /** The records that must be stored for `component` after it is visited. */
  ghost function LiveRecords(ctx: Collaborators, component: Component): (r: map<string, LiveMeasureDto>)
    requires WellFormed(ctx)
    ensures forall u :: u in r ==> r[u].componentUuid == component.uuid && r[u].metricUuid == u
  {
    LiveRecordsAmong(ctx, component, ctx.rawMeasures(component).Keys)
  }

  /** The metric keys of the kept raw measures of `component` among `keys`. */
  ghost function PersistedKeysAmong(ctx: Collaborators, component: Component, keys: set<string>): set<string> {
    set k | k in keys && IsPersisted(ctx, component, k)
  }

  /** Every kept measure among `keys` has its record in `LiveRecordsAmong`, under its metric uuid. */
  lemma AmongHas(ctx: Collaborators, component: Component, keys: set<string>, metricKey: string)
    requires WellFormed(ctx) && metricKey in keys && IsPersisted(ctx, component, metricKey)
    ensures ctx.metricsByKey[metricKey].uuid in LiveRecordsAmong(ctx, component, keys)
    ensures LiveRecordsAmong(ctx, component, keys)[ctx.metricsByKey[metricKey].uuid] == RecordFor(ctx, component, metricKey)
  {
  }

  /** Every record of `LiveRecordsAmong` comes from a kept measure among `keys`. */
  lemma AmongFrom(ctx: Collaborators, component: Component, keys: set<string>, u: string) returns (metricKey: string)
    requires WellFormed(ctx) && u in LiveRecordsAmong(ctx, component, keys)
    ensures metricKey in keys && IsPersisted(ctx, component, metricKey) && ctx.metricsByKey[metricKey].uuid == u
    ensures LiveRecordsAmong(ctx, component, keys)[u] == RecordFor(ctx, component, metricKey)
  {
    metricKey :| metricKey in keys && IsPersisted(ctx, component, metricKey) && ctx.metricsByKey[metricKey].uuid == u;
    AmongHas(ctx, component, keys, metricKey);
  }

  /** Adding one key to the examined set adds its record exactly when the measure is kept. */
  lemma AmongAdd(ctx: Collaborators, component: Component, keys: set<string>, metricKey: string)
    requires WellFormed(ctx) && metricKey !in keys
    ensures IsPersisted(ctx, component, metricKey) ==>
      && ctx.metricsByKey[metricKey].uuid !in LiveRecordsAmong(ctx, component, keys)
      && LiveRecordsAmong(ctx, component, keys + {metricKey})
         == LiveRecordsAmong(ctx, component, keys)[ctx.metricsByKey[metricKey].uuid := RecordFor(ctx, component, metricKey)]
    ensures !IsPersisted(ctx, component, metricKey) ==>
      LiveRecordsAmong(ctx, component, keys + {metricKey}) == LiveRecordsAmong(ctx, component, keys)
  {
    var before := LiveRecordsAmong(ctx, component, keys);
    var after := LiveRecordsAmong(ctx, component, keys + {metricKey});
    var expected := if IsPersisted(ctx, component, metricKey)
      then before[ctx.metricsByKey[metricKey].uuid := RecordFor(ctx, component, metricKey)]
      else before;
    forall u | u in after
      ensures u in expected && after[u] == expected[u]
    {
      var k := AmongFrom(ctx, component, keys + {metricKey}, u);
      if k != metricKey {
        AmongHas(ctx, component, keys, k);
      }
    }
    forall u | u in expected
      ensures u in after
    {
      if u in before {
        var k := AmongFrom(ctx, component, keys, u);
        AmongHas(ctx, component, keys + {metricKey}, k);
      } else {
        AmongHas(ctx, component, keys + {metricKey}, metricKey);
      }
    }
    assert after == expected;
    if IsPersisted(ctx, component, metricKey) && ctx.metricsByKey[metricKey].uuid in before {
      var k := AmongFrom(ctx, component, keys, ctx.metricsByKey[metricKey].uuid);
      assert false;
    }
  }

  /** As many records are stored for a component as raw measures are kept: no two kept measures share a record. */
  lemma {:induction false} LiveRecordsCount(ctx: Collaborators, component: Component, keys: set<string>)
    requires WellFormed(ctx)
    ensures |LiveRecordsAmong(ctx, component, keys)| == |PersistedKeysAmong(ctx, component, keys)|
    decreases keys
  {
    if keys == {} {
      assert LiveRecordsAmong(ctx, component, keys) == map[];
      assert PersistedKeysAmong(ctx, component, keys) == {};
    } else {
      var k :| k in keys;
      var rest := keys - {k};
      LiveRecordsCount(ctx, component, rest);
      AmongAdd(ctx, component, rest, k);
      assert rest + {k} == keys;
      if IsPersisted(ctx, component, k) {
        assert PersistedKeysAmong(ctx, component, keys) == PersistedKeysAmong(ctx, component, rest) + {k};
      } else {
        assert PersistedKeysAmong(ctx, component, keys) == PersistedKeysAmong(ctx, component, rest);
      }
    }
  }

  /**
   * The whole filter for one raw measure, both directions: its metric has a
   * stored record exactly when the measure is not file-excluded, is non-empty
   * and is not best-value optimised, and that record is the one built from it.
   */
  lemma StoredIffKept(ctx: Collaborators, component: Component, metricKey: string)
    requires WellFormed(ctx)
    requires metricKey in ctx.rawMeasures(component) && metricKey in ctx.metricsByKey
    ensures var m := ctx.rawMeasures(component)[metricKey];
            var metric := ctx.metricsByKey[metricKey];
            (metric.uuid in LiveRecords(ctx, component) <==>
               !IsExcludedOnFile(component, metricKey) && IsNonEmpty(m) && !ctx.bestValueOptimized(metric, component, m))
    ensures var metric := ctx.metricsByKey[metricKey];
            metric.uuid in LiveRecords(ctx, component) ==>
              LiveRecords(ctx, component)[metric.uuid] == ToLiveMeasureDto(ctx, ctx.rawMeasures(component)[metricKey], metric, component)
  {
    var keys := ctx.rawMeasures(component).Keys;
    AmongAdd(ctx, component, keys - {metricKey}, metricKey);
    assert keys - {metricKey} + {metricKey} == keys;
  }

  /** On a FILE, the two complexity-distribution metrics are never stored, whatever their measures. */
  lemma DistributionsNeverStoredOnFile(ctx: Collaborators, component: Component, metricKey: string)
    requires WellFormed(ctx)
    requires component.kind == File && metricKey in NotToPersistOnFileMetricKeys && metricKey in ctx.metricsByKey
    ensures ctx.metricsByKey[metricKey].uuid !in LiveRecords(ctx, component)
  {
    var keys := ctx.rawMeasures(component).Keys;
    AmongAdd(ctx, component, keys - {metricKey}, metricKey);
    assert keys - {metricKey} + {metricKey} == keys + {metricKey};
    if metricKey !in keys {
      assert keys - {metricKey} == keys;
    }
  }

  /** Off a FILE, the same metrics are stored like any other: non-empty and not best-value optimised is enough. */
  lemma DistributionsStoredOffFile(ctx: Collaborators, component: Component, metricKey: string)
    requires WellFormed(ctx)
    requires component.kind != File && metricKey in NotToPersistOnFileMetricKeys
    requires metricKey in ctx.rawMeasures(component) && metricKey in ctx.metricsByKey
    requires IsNonEmpty(ctx.rawMeasures(component)[metricKey])
    requires !ctx.bestValueOptimized(ctx.metricsByKey[metricKey], component, ctx.rawMeasures(component)[metricKey])
    ensures ctx.metricsByKey[metricKey].uuid in LiveRecords(ctx, component)
  {
    StoredIffKept(ctx, component, metricKey);
  }

  /** A measure the best-value optimisation matches is never stored. */
  lemma BestValueNeverStored(ctx: Collaborators, component: Component, metricKey: string)
    requires WellFormed(ctx)
    requires metricKey in ctx.rawMeasures(component) && metricKey in ctx.metricsByKey
    requires ctx.bestValueOptimized(ctx.metricsByKey[metricKey], component, ctx.rawMeasures(component)[metricKey])
    ensures ctx.metricsByKey[metricKey].uuid !in LiveRecords(ctx, component)
  {
    StoredIffKept(ctx, component, metricKey);
  }

  /** A measure with no value, no variation and no data is never stored. */
  lemma EmptyMeasureNeverStored(ctx: Collaborators, component: Component, metricKey: string)
    requires WellFormed(ctx)
    requires metricKey in ctx.rawMeasures(component) && metricKey in ctx.metricsByKey
    requires var m := ctx.rawMeasures(component)[metricKey];
             m.value == NoValue && m.variation == None && m.data == None
    ensures ctx.metricsByKey[metricKey].uuid !in LiveRecords(ctx, component)
  {
    StoredIffKept(ctx, component, metricKey);
  }
}

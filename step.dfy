/**
 * The live-measure persistence step: a pre-order walk of the component tree
 * that, for every component, replaces its stored live measures by the records
 * of its kept raw measures, and counts the records written.
 */
module PersistLiveMeasures {
  import opened Measures
  import opened LiveMeasureFilter
  import opened LiveMeasureDao

  /** The components of `sequences`, one sequence after the other. */
  function Concat(sequences: seq<seq<Component>>): (r: seq<Component>)
    ensures forall i, x :: 0 <= i < |sequences| && x in sequences[i] ==> x in r
  {
    if sequences == [] then []
    else Concat(sequences[..|sequences| - 1]) + sequences[|sequences| - 1]
  }

  /** The pre-order walk of the subtrees below `component`, one sequence per child. */
  function Subtrees(component: Component): (r: seq<seq<Component>>)
    ensures |r| == |component.children|
    decreases component, 0
  {
    seq(|component.children|, i requires 0 <= i < |component.children| => PreOrder(component.children[i]))
  }

  /** Every component of the tree, parents before children, down to the leaves. */
  function PreOrder(component: Component): (r: seq<Component>)
    ensures |r| > 0 && r[0] == component
    decreases component, 1
  {
    [component] + Concat(Subtrees(component))
  }

  /** No two components of `components` share a uuid. */
  ghost predicate DistinctUuids(components: seq<Component>) {
    forall i, j :: 0 <= i < j < |components| ==> components[i].uuid != components[j].uuid
  }

  /** The table after visiting `components` in order, starting from `rows`. */
  ghost function Reconciled(ctx: Collaborators, rows: Rows, components: seq<Component>): (r: Rows)
    requires WellFormed(ctx)
    ensures WellKeyed(rows) ==> WellKeyed(r)
    decreases |components|
  {
    if components == [] then rows
    else Reconciled(ctx, Put(rows, components[0].uuid, LiveRecords(ctx, components[0])), components[1..])
  }

  /**
   * The number of records written while visiting `components`: every visit
   * adds its component's kept records, so no visit writes more than the
   * total, and a run over components without kept measures writes nothing.
   */
  ghost function TotalLive(ctx: Collaborators, components: seq<Component>): (r: nat)
    requires WellFormed(ctx)
    ensures forall i :: 0 <= i < |components| ==> |LiveRecords(ctx, components[i])| <= r
    ensures (forall i :: 0 <= i < |components| ==> LiveRecords(ctx, components[i]) == map[]) ==> r == 0
    decreases |components|
  {
    if components == [] then 0
    else |LiveRecords(ctx, components[0])| + TotalLive(ctx, components[1..])
  }

  /** Visiting one run of components and then another is visiting the two runs joined. */
  lemma {:induction false} ReconciledAppend(ctx: Collaborators, rows: Rows, first: seq<Component>, second: seq<Component>)
    requires WellFormed(ctx)
    ensures Reconciled(ctx, rows, first + second) == Reconciled(ctx, Reconciled(ctx, rows, first), second)
    ensures TotalLive(ctx, first + second) == TotalLive(ctx, first) + TotalLive(ctx, second)
    decreases |first|
  {
    if first == [] {
      assert first + second == second;
    } else {
      assert (first + second)[1..] == first[1..] + second;
      ReconciledAppend(ctx, Put(rows, first[0].uuid, LiveRecords(ctx, first[0])), first[1..], second);
    }
  }

  /**
   * After visiting components with distinct uuids, each visited component
   * holds exactly the records of its kept measures, and every other
   * component holds what it held before.
   */
  lemma {:induction false} ReconciledExact(ctx: Collaborators, rows: Rows, components: seq<Component>)
    requires WellFormed(ctx) && DistinctUuids(components)
    ensures forall i :: 0 <= i < |components| ==>
      Of(Reconciled(ctx, rows, components), components[i].uuid) == LiveRecords(ctx, components[i])
    ensures forall cu :: (forall i :: 0 <= i < |components| ==> components[i].uuid != cu) ==>
      Of(Reconciled(ctx, rows, components), cu) == Of(rows, cu)
    decreases |components|
  {
    if components != [] {
      var head := components[0];
      var tail := components[1..];
      var next := Put(rows, head.uuid, LiveRecords(ctx, head));
      assert DistinctUuids(tail) by {
        forall i, j | 0 <= i < j < |tail| ensures tail[i].uuid != tail[j].uuid {
          assert tail[i] == components[i + 1] && tail[j] == components[j + 1];
        }
      }
      ReconciledExact(ctx, next, tail);
      forall i | 0 <= i < |tail| ensures tail[i].uuid != head.uuid {
        assert tail[i] == components[i + 1];
      }
      forall i | 0 <= i < |components|
        ensures Of(Reconciled(ctx, rows, components), components[i].uuid) == LiveRecords(ctx, components[i])
      {
        if i > 0 {
          assert components[i] == tail[i - 1];
        }
      }
      forall cu | forall i :: 0 <= i < |components| ==> components[i].uuid != cu
        ensures Of(Reconciled(ctx, rows, components), cu) == Of(rows, cu)
      {
        assert head.uuid != cu;
        forall i | 0 <= i < |tail| ensures tail[i].uuid != cu {
          assert tail[i] == components[i + 1];
        }
      }
    }
  }

  /** Running the whole step a second time on unchanged measures leaves the table as the first run left it. */
  lemma ReconciledIdempotent(ctx: Collaborators, rows: Rows, components: seq<Component>)
    requires WellFormed(ctx) && WellKeyed(rows) && DistinctUuids(components)
    ensures Reconciled(ctx, Reconciled(ctx, rows, components), components) == Reconciled(ctx, rows, components)
  {
    var once := Reconciled(ctx, rows, components);
    var twice := Reconciled(ctx, once, components);
    ReconciledExact(ctx, rows, components);
    ReconciledExact(ctx, once, components);
    forall cu ensures Of(twice, cu) == Of(once, cu) {
      if exists i :: 0 <= i < |components| && components[i].uuid == cu {
        var i :| 0 <= i < |components| && components[i].uuid == cu;
      }
    }
    Extensionality(twice, once);
  }

  /** Visiting the same component twice with the same raw measures writes the same records again and nothing else. */
  lemma RevisitChangesNothing(ctx: Collaborators, rows: Rows, component: Component)
    requires WellFormed(ctx)
    ensures var once := Put(rows, component.uuid, LiveRecords(ctx, component));
            Put(once, component.uuid, LiveRecords(ctx, component)) == once
  {
    PutPut(rows, component.uuid, LiveRecords(ctx, component), LiveRecords(ctx, component));
  }

  /** The components a walk from `component` has visited once the subtrees of its first `n` children are done. */
  function Visited(component: Component, n: nat): seq<Component>
    requires n <= |component.children|
  {
    [component] + Concat(Subtrees(component)[..n])
  }

  /** Walking one more child's subtree extends the visited components by that subtree's pre-order walk. */
  lemma VisitedStep(ctx: Collaborators, rows: Rows, component: Component, n: nat)
    requires WellFormed(ctx) && n < |component.children|
    ensures Reconciled(ctx, rows, Visited(component, n + 1))
         == Reconciled(ctx, Reconciled(ctx, rows, Visited(component, n)), PreOrder(component.children[n]))
    ensures TotalLive(ctx, Visited(component, n + 1)) == TotalLive(ctx, Visited(component, n)) + TotalLive(ctx, PreOrder(component.children[n]))
  {
    var subtrees := Subtrees(component);
    assert subtrees[..n + 1][..n] == subtrees[..n];
    assert Visited(component, n + 1) == Visited(component, n) + PreOrder(component.children[n]);
    ReconciledAppend(ctx, rows, Visited(component, n), PreOrder(component.children[n]));
  }

  /**
   * The state of the filtering loop once the raw measures of the keys in
   * `done` are examined: `dtos` holds exactly their kept records, each under
   * its own metric and for `component`, and `metricUuids` their metrics.
   */
  ghost predicate Collected(ctx: Collaborators, component: Component, done: set<string>,
                            dtos: seq<LiveMeasureDto>, metricUuids: seq<string>)
    requires WellFormed(ctx)
  {
    && ByMetric(dtos) == LiveRecordsAmong(ctx, component, done)
    && DistinctMetrics(dtos)
    && metricUuids == MetricUuids(dtos)
    && forall i :: 0 <= i < |dtos| ==> dtos[i].componentUuid == component.uuid
  }

  /** A measure the filter drops leaves the collected records as they are. */
  lemma DroppedMeasure(ctx: Collaborators, component: Component, done: set<string>,
                       dtos: seq<LiveMeasureDto>, metricUuids: seq<string>, metricKey: string)
    requires WellFormed(ctx) && metricKey !in done && !IsPersisted(ctx, component, metricKey)
    requires Collected(ctx, component, done, dtos, metricUuids)
    ensures Collected(ctx, component, done + {metricKey}, dtos, metricUuids)
  {
    AmongAdd(ctx, component, done, metricKey);
  }

  /** A measure the filter keeps adds its record and its metric at the end of the two lists. */
  lemma KeptMeasure(ctx: Collaborators, component: Component, done: set<string>,
                    dtos: seq<LiveMeasureDto>, metricUuids: seq<string>, metricKey: string)
    requires WellFormed(ctx) && metricKey !in done && IsPersisted(ctx, component, metricKey)
    requires Collected(ctx, component, done, dtos, metricUuids)
    ensures Collected(ctx, component, done + {metricKey},
                      dtos + [RecordFor(ctx, component, metricKey)], metricUuids + [ctx.metricsByKey[metricKey].uuid])
  {
    var extended := dtos + [RecordFor(ctx, component, metricKey)];
    AmongAdd(ctx, component, done, metricKey);
    ByMetricKeys(dtos);
    assert extended[..|extended| - 1] == dtos;
    forall i | 0 <= i < |dtos| ensures dtos[i].metricUuid != ctx.metricsByKey[metricKey].uuid {
      assert MetricUuids(dtos)[i] == dtos[i].metricUuid;
    }
  }

  /**
   * The filtering loop of a visit: the records of the raw measures of
   * `component` that pass the file exclusion, the non-empty check and the
   * best-value optimisation, with their metric uuids in the same order.
   */
  method CollectLiveMeasureDtos(ctx: Collaborators, component: Component)
    returns (dtos: seq<LiveMeasureDto>, metricUuids: seq<string>)
    requires WellFormed(ctx)
    ensures ByMetric(dtos) == LiveRecords(ctx, component)
    ensures DistinctMetrics(dtos)
    ensures metricUuids == MetricUuids(dtos)
    ensures forall i :: 0 <= i < |dtos| ==> dtos[i].componentUuid == component.uuid
  {
    var measures := ctx.rawMeasures(component);
    metricUuids, dtos := [], [];
    var todo := measures.Keys;
    ghost var done: set<string> := {};
    while todo != {}
      invariant todo + done == measures.Keys && todo !! done
      invariant Collected(ctx, component, done, dtos, metricUuids)
      decreases todo
    {
      var metricKey :| metricKey in todo;
      ghost var seen := done;
      todo := todo - {metricKey};
      done := done + {metricKey};
      if IsExcludedOnFile(component, metricKey) {
        DroppedMeasure(ctx, component, seen, dtos, metricUuids, metricKey);
        continue;
      }
      var metric := ctx.metricsByKey[metricKey];
      var m := measures[metricKey];
      if !IsNonEmpty(m) || ctx.bestValueOptimized(metric, component, m) {
        DroppedMeasure(ctx, component, seen, dtos, metricUuids, metricKey);
        continue;
      }
      var lm := ToLiveMeasureDto(ctx, m, metric, component);
      KeptMeasure(ctx, component, seen, dtos, metricUuids, metricKey);
      dtos := dtos + [lm];
      metricUuids := metricUuids + [metric.uuid];
    }
    assert done == measures.Keys;
  }

  /** The visitor of the step: it writes each visited component's records and counts them. */
  class MeasureVisitor {
    const ctx: Collaborators
    const dao: LiveMeasureDao
    const supportUpsert: bool
    var insertsOrUpdates: nat

    ghost predicate Valid()
      reads this, dao
    {
      WellFormed(ctx) && dao.Valid()
    }

    constructor (ctx: Collaborators, dao: LiveMeasureDao, supportUpsert: bool)
      requires WellFormed(ctx) && dao.Valid()
      ensures Valid()
      ensures this.ctx == ctx && this.dao == dao && this.supportUpsert == supportUpsert
      ensures insertsOrUpdates == 0
    {
      this.ctx := ctx;
      this.dao := dao;
      this.supportUpsert := supportUpsert;
      insertsOrUpdates := 0;
    }

    /**
     * Filters the raw measures of `component`, then makes its stored records
     * exactly the kept ones, by upsert-then-delete or by delete-then-insert;
     * both leave the same table. The counter grows by the records written.
     */
    method VisitAny(component: Component)
      requires Valid()
      modifies this, dao
      ensures Valid()
      ensures dao.rows == Put(old(dao.rows), component.uuid, LiveRecords(ctx, component))
      ensures insertsOrUpdates == old(insertsOrUpdates) + |LiveRecords(ctx, component)|
    {
      var dtos, metricUuids := CollectLiveMeasureDtos(ctx, component);
      ByMetricSize(dtos);

      if supportUpsert {
        WriteByUpsert(component.uuid, dtos, metricUuids);
      } else {
        WriteByDeleteThenInsert(component.uuid, dtos);
      }
      insertsOrUpdates := insertsOrUpdates + |dtos|;
    }

    /**
     * The write path for databases with upsert: upsert every record, then
     * delete the component's records of any other metric, for instance one
     * that fell back to its best value. The component ends up holding exactly
     * `dtos`, whatever it held before.
     */
    method WriteByUpsert(componentUuid: string, dtos: seq<LiveMeasureDto>, metricUuids: seq<string>)
      requires dao.Valid()
      requires forall i :: 0 <= i < |dtos| ==> dtos[i].componentUuid == componentUuid
      requires metricUuids == MetricUuids(dtos)
      modifies dao
      ensures dao.Valid()
      ensures dao.rows == Put(old(dao.rows), componentUuid, ByMetric(dtos))
    {
      ghost var before := dao.rows;
      assert Put(before, componentUuid, Of(before, componentUuid) + ByMetric(dtos[..0])) == before by {
        assert ByMetric(dtos[..0]) == map[];
        assert Of(before, componentUuid) + map[] == Of(before, componentUuid);
        PutOf(before, componentUuid);
      }
      for i := 0 to |dtos|
        invariant dao.Valid()
        invariant dao.rows == Put(before, componentUuid, Of(before, componentUuid) + ByMetric(dtos[..i]))
      {
        dao.Upsert(dtos[i]);
        UpsertStep(before, componentUuid, dtos, i);
      }
      assert dtos[..|dtos|] == dtos;
      dao.DeleteByComponentUuidExcludingMetricUuids(componentUuid, metricUuids);
      DeleteExcludingStep(before, componentUuid, dtos);
    }

    /**
     * The write path for databases without upsert: delete all the component's
     * records, then insert every record. The table's unique key is respected
     * because no two records share a metric. The component ends up holding
     * exactly `dtos`, as on the upsert path.
     */
    method WriteByDeleteThenInsert(componentUuid: string, dtos: seq<LiveMeasureDto>)
      requires dao.Valid()
      requires forall i :: 0 <= i < |dtos| ==> dtos[i].componentUuid == componentUuid
      requires DistinctMetrics(dtos)
      modifies dao
      ensures dao.Valid()
      ensures dao.rows == Put(old(dao.rows), componentUuid, ByMetric(dtos))
    {
      ghost var before := dao.rows;
      dao.DeleteByComponent(componentUuid);
      for i := 0 to |dtos|
        invariant dao.Valid()
        invariant dao.rows == Put(before, componentUuid, ByMetric(dtos[..i]))
      {
        DistinctFront(dtos[..i + 1]);
        assert dtos[..i + 1][..i] == dtos[..i];
        dao.Insert(dtos[i]);
        InsertStep(before, componentUuid, dtos, i);
      }
      assert dtos[..|dtos|] == dtos;
    }

    /** Visits `component` and then, child by child, its subtrees: a pre-order walk down to the leaves. */
    method Crawl(component: Component)
      requires Valid()
      modifies this, dao
      ensures Valid()
      ensures dao.rows == Reconciled(ctx, old(dao.rows), PreOrder(component))
      ensures insertsOrUpdates == old(insertsOrUpdates) + TotalLive(ctx, PreOrder(component))
      decreases component
    {
      VisitAny(component);
      var children := component.children;
      ghost var start := old(dao.rows);
      ghost var count := old(insertsOrUpdates);
      assert Reconciled(ctx, start, [component]) == dao.rows;
      assert TotalLive(ctx, [component]) == |LiveRecords(ctx, component)|;
      for i := 0 to |children|
        invariant Valid()
        invariant dao.rows == Reconciled(ctx, start, Visited(component, i))
        invariant insertsOrUpdates == count + TotalLive(ctx, Visited(component, i))
      {
        Crawl(children[i]);
        VisitedStep(ctx, start, component, i);
      }
      assert Subtrees(component)[..|children|] == Subtrees(component);
    }
  }

  /**
   * The step: walks the whole tree from `root` and reports how many records
   * it wrote. The table ends as visiting every component in pre-order leaves
   * it, whichever write path the database supports.
   */
  method Execute(ctx: Collaborators, root: Component, supportUpsert: bool, dao: LiveMeasureDao) returns (insertsOrUpdates: nat)
    requires WellFormed(ctx) && dao.Valid()
    modifies dao
    ensures dao.Valid()
    ensures dao.rows == Reconciled(ctx, old(dao.rows), PreOrder(root))
    ensures insertsOrUpdates == TotalLive(ctx, PreOrder(root))
    ensures DistinctUuids(PreOrder(root)) ==> forall i :: 0 <= i < |PreOrder(root)| ==>
      Of(dao.rows, PreOrder(root)[i].uuid) == LiveRecords(ctx, PreOrder(root)[i])
    ensures DistinctUuids(PreOrder(root)) ==> forall cu :: (forall i :: 0 <= i < |PreOrder(root)| ==> PreOrder(root)[i].uuid != cu) ==>
      Of(dao.rows, cu) == Of(old(dao.rows), cu)
  {
    var visitor := new MeasureVisitor(ctx, dao, supportUpsert);
    visitor.Crawl(root);
    insertsOrUpdates := visitor.insertsOrUpdates;
    if DistinctUuids(PreOrder(root)) {
      ReconciledExact(ctx, old(dao.rows), PreOrder(root));
    }
  }
}

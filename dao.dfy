/**
 * The live-measure table: one record per (component uuid, metric uuid), and
 * the four writes the step issues against it.
 */
module LiveMeasureDao {
  import opened Measures

  /** The table, grouped by component uuid and then by metric uuid. */
  type Rows = map<string, map<string, LiveMeasureDto>>

  /** The records stored for one component (none when it has no entry). */
  function Of(rows: Rows, componentUuid: string): map<string, LiveMeasureDto> {
    if componentUuid in rows then rows[componentUuid] else map[]
  }

  /** Records of one component: each filed under its own metric uuid and belonging to that component. */
  ghost predicate KeyedFor(componentUuid: string, records: map<string, LiveMeasureDto>) {
    forall mu :: mu in records ==> records[mu].componentUuid == componentUuid && records[mu].metricUuid == mu
  }

  /**
   * The table invariant: every record is filed under its own identifiers, and
   * a component without records has no entry (so every table content has
   * exactly one representation).
   */
  ghost predicate WellKeyed(rows: Rows) {
    forall cu :: cu in rows ==> rows[cu] != map[] && KeyedFor(cu, rows[cu])
  }

  /** The table in which the records of `componentUuid` are exactly `records`. */
  function Put(rows: Rows, componentUuid: string, records: map<string, LiveMeasureDto>): (r: Rows)
    ensures Of(r, componentUuid) == records
    ensures forall cu :: cu != componentUuid ==> Of(r, cu) == Of(rows, cu)
    ensures WellKeyed(rows) && KeyedFor(componentUuid, records) ==> WellKeyed(r)
  {
    if records == map[] then rows - {componentUuid} else rows[componentUuid := records]
  }

  /** Writing a component twice keeps only the second write. */
  lemma PutPut(rows: Rows, componentUuid: string, first: map<string, LiveMeasureDto>, second: map<string, LiveMeasureDto>)
    ensures Put(Put(rows, componentUuid, first), componentUuid, second) == Put(rows, componentUuid, second)
  {
  }

  /** Writing back a component's own records changes nothing. */
  lemma PutOf(rows: Rows, componentUuid: string)
    requires WellKeyed(rows)
    ensures Put(rows, componentUuid, Of(rows, componentUuid)) == rows
  {
  }

  /** Two well-keyed tables that agree on every component are the same table. */
  lemma Extensionality(a: Rows, b: Rows)
    requires WellKeyed(a) && WellKeyed(b)
    requires forall cu :: Of(a, cu) == Of(b, cu)
    ensures a == b
  {
    forall cu | cu in a ensures cu in b && a[cu] == b[cu] {
      assert Of(a, cu) == Of(b, cu);
    }
    forall cu | cu in b ensures cu in a {
      assert Of(a, cu) == Of(b, cu);
    }
  }

  /** The records of `dtos` by metric uuid; a later record replaces an earlier one with the same metric. */
  function ByMetric(dtos: seq<LiveMeasureDto>): map<string, LiveMeasureDto> {
    if dtos == [] then map[]
    else ByMetric(dtos[..|dtos| - 1])[dtos[|dtos| - 1].metricUuid := dtos[|dtos| - 1]]
  }

  /** The metric uuids of `dtos`, in order. */
  function MetricUuids(dtos: seq<LiveMeasureDto>): (r: seq<string>)
    ensures |r| == |dtos|
    ensures forall i :: 0 <= i < |dtos| ==> r[i] == dtos[i].metricUuid
  {
    if dtos == [] then []
    else MetricUuids(dtos[..|dtos| - 1]) + [dtos[|dtos| - 1].metricUuid]
  }

  /** No two records of `dtos` share a metric uuid. */
  ghost predicate DistinctMetrics(dtos: seq<LiveMeasureDto>) {
    forall i, j :: 0 <= i < j < |dtos| ==> dtos[i].metricUuid != dtos[j].metricUuid
  }

  /** `ByMetric` files a record under each metric uuid of the list and under no other. */
  lemma {:induction false} ByMetricKeys(dtos: seq<LiveMeasureDto>)
    ensures forall u :: u in ByMetric(dtos) <==> u in MetricUuids(dtos)
  {
    if dtos != [] {
      var front := dtos[..|dtos| - 1];
      ByMetricKeys(front);
      assert MetricUuids(dtos) == MetricUuids(front) + [dtos[|dtos| - 1].metricUuid];
    }
  }

  /** A list without repeated metrics stays so when its last record is dropped. */
  lemma DistinctFront(dtos: seq<LiveMeasureDto>)
    requires DistinctMetrics(dtos) && dtos != []
    ensures DistinctMetrics(dtos[..|dtos| - 1])
    ensures dtos[|dtos| - 1].metricUuid !in ByMetric(dtos[..|dtos| - 1])
  {
    var front := dtos[..|dtos| - 1];
    forall i, j | 0 <= i < j < |front| ensures front[i].metricUuid != front[j].metricUuid {
      assert front[i] == dtos[i] && front[j] == dtos[j];
    }
    ByMetricKeys(front);
    forall i | 0 <= i < |front| ensures MetricUuids(front)[i] != dtos[|dtos| - 1].metricUuid {
      assert front[i] == dtos[i];
    }
  }

  /** Without repeated metrics, `ByMetric` keeps every record, so its size is the list's length. */
  lemma {:induction false} ByMetricSize(dtos: seq<LiveMeasureDto>)
    requires DistinctMetrics(dtos)
    ensures |ByMetric(dtos)| == |dtos|
  {
    if dtos != [] {
      DistinctFront(dtos);
      ByMetricSize(dtos[..|dtos| - 1]);
    }
  }

  /** One more upsert of the component's records: the table holds its old records overlaid by one more record of the list. */
  lemma UpsertStep(before: Rows, componentUuid: string, dtos: seq<LiveMeasureDto>, i: nat)
    requires i < |dtos|
    ensures var now := Put(before, componentUuid, Of(before, componentUuid) + ByMetric(dtos[..i]));
            Put(now, componentUuid, Of(now, componentUuid)[dtos[i].metricUuid := dtos[i]])
            == Put(before, componentUuid, Of(before, componentUuid) + ByMetric(dtos[..i + 1]))
  {
    var old_ := Of(before, componentUuid);
    var done := ByMetric(dtos[..i]);
    assert dtos[..i + 1][..i] == dtos[..i];
    assert ByMetric(dtos[..i + 1]) == done[dtos[i].metricUuid := dtos[i]];
    assert (old_ + done)[dtos[i].metricUuid := dtos[i]] == old_ + done[dtos[i].metricUuid := dtos[i]];
    PutPut(before, componentUuid, old_ + done, old_ + ByMetric(dtos[..i + 1]));
  }

  /** One more insert after the component's records were deleted: the table holds one more record of the list. */
  lemma InsertStep(before: Rows, componentUuid: string, dtos: seq<LiveMeasureDto>, i: nat)
    requires i < |dtos|
    ensures var now := Put(before, componentUuid, ByMetric(dtos[..i]));
            Put(now, componentUuid, Of(now, componentUuid)[dtos[i].metricUuid := dtos[i]])
            == Put(before, componentUuid, ByMetric(dtos[..i + 1]))
  {
    assert dtos[..i + 1][..i] == dtos[..i];
    PutPut(before, componentUuid, ByMetric(dtos[..i]), ByMetric(dtos[..i + 1]));
  }

  /**
   * After the upserts, deleting the component's records whose metric is not
   * among the upserted ones leaves exactly the upserted records, whatever was
   * stored before.
   */
  lemma DeleteExcludingStep(before: Rows, componentUuid: string, dtos: seq<LiveMeasureDto>)
    ensures var now := Put(before, componentUuid, Of(before, componentUuid) + ByMetric(dtos));
            var current := Of(now, componentUuid);
            Put(now, componentUuid, map mu | mu in current && mu in MetricUuids(dtos) :: current[mu])
            == Put(before, componentUuid, ByMetric(dtos))
  {
    var live := ByMetric(dtos);
    var current := Of(before, componentUuid) + live;
    ByMetricKeys(dtos);
    var kept := map mu | mu in current && mu in MetricUuids(dtos) :: current[mu];
    assert kept == live;
    PutPut(before, componentUuid, current, live);
  }

  /** The live-measure table, updated in place by the step's writes. */
  class LiveMeasureDao {
    var rows: Rows

    ghost predicate Valid()
      reads this
    {
      WellKeyed(rows)
    }

    constructor (initial: Rows)
      requires WellKeyed(initial)
      ensures Valid() && rows == initial
    {
      rows := initial;
    }

    /** Inserts the record, or replaces the one with the same component and metric. */
    method Upsert(dto: LiveMeasureDto)
      requires Valid()
      modifies this
      ensures Valid()
      ensures rows == Put(old(rows), dto.componentUuid, Of(old(rows), dto.componentUuid)[dto.metricUuid := dto])
    {
      rows := Put(rows, dto.componentUuid, Of(rows, dto.componentUuid)[dto.metricUuid := dto]);
    }

    /** Inserts a record; the table's unique key forbids a second record for the same component and metric. */
    method Insert(dto: LiveMeasureDto)
      requires Valid()
      requires dto.metricUuid !in Of(rows, dto.componentUuid)
      modifies this
      ensures Valid()
      ensures rows == Put(old(rows), dto.componentUuid, Of(old(rows), dto.componentUuid)[dto.metricUuid := dto])
    {
      rows := Put(rows, dto.componentUuid, Of(rows, dto.componentUuid)[dto.metricUuid := dto]);
    }

    /** Deletes every record of the component. */
    method DeleteByComponent(componentUuid: string)
      requires Valid()
      modifies this
      ensures Valid()
      ensures rows == Put(old(rows), componentUuid, map[])
    {
      rows := Put(rows, componentUuid, map[]);
    }

    /** Deletes the records of the component whose metric uuid is not in `metricUuids`. */
    method DeleteByComponentUuidExcludingMetricUuids(componentUuid: string, metricUuids: seq<string>)
      requires Valid()
      modifies this
      ensures Valid()
      ensures Of(rows, componentUuid).Keys == Of(old(rows), componentUuid).Keys * set u | u in metricUuids
      ensures rows == Put(old(rows), componentUuid,
        map mu | mu in Of(old(rows), componentUuid) && mu in metricUuids :: Of(old(rows), componentUuid)[mu])
    {
      var current := Of(rows, componentUuid);
      rows := Put(rows, componentUuid, map mu | mu in current && mu in metricUuids :: current[mu]);
    }
  }
}

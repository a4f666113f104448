# Live-measure persistence, modelled in Dafny

This project models the compute-engine step that persists live measures after
a project analysis (`PersistLiveMeasuresStep`). The step walks the component
tree in pre-order, from the project down to the files. For every component it
takes the raw measures computed for it, keyed by metric key, and drops three
kinds of measure:

- the two complexity-distribution metrics on a FILE;
- empty measures, meaning no value, no variation and no data;
- measures that the best-value optimisation says need not be stored.

It turns each kept measure into a live-measure record. Then it makes the
component's stored records exactly the kept ones. There are two ways to do
this:

- when the database supports upsert, it upserts every record and then deletes
  the component's records of any other metric;
- otherwise it deletes all the component's records and inserts the kept ones.

It counts the records written and reports the total.

Files:

- `measures.dfy` (module `Measures`): components, metrics, measures and
  live-measure records as datatypes.
- `filter.dfy` (module `LiveMeasureFilter`): the file exclusion, the non-empty
  check and the projection to a record. It also holds `LiveRecords`, the
  record set a component must hold after its visit, and the lemmas that
  characterise it.
- `dao.dfy` (module `LiveMeasureDao`): the live-measure table as a class over
  a map from component uuid to (metric uuid → record). It holds the four
  writes the step issues and the table-level lemmas.
- `step.dfy` (module `PersistLiveMeasures`): the visitor class with its
  counter, the filtering loop, the two write paths, the pre-order crawl and
  `Execute`. It also holds the lemmas about a whole run: exact record sets,
  no effect on other components, idempotence and the count.

The collaborators whose code is not part of this model are fields of the
`Collaborators` datatype and are otherwise uninterpreted:

- the metric lookup by key;
- the raw measures of a component;
- the best-value optimisation predicate;
- the value part of the measure-to-record conversion.

`WellFormed` states the two things the step relies on from them:

- metric uuids are unique per key;
- every raw measure that reaches the metric lookup has a known metric. The
  lookup throws otherwise, which aborts the step.

The table is kept canonical: a component without records has no entry. So
"the component holds exactly these records" is a plain map equality, and the
two write paths are proved to leave the identical table.

## Model

| member | source | states |
|---|---|---|
| `LiveMeasureFilter.IsExcludedOnFile` | server/sonar-ce-task-projectanalysis/src/main/java/org/sonar/ce/task/projectanalysis/step/PersistLiveMeasuresStep.java:56-111 | The file exclusion holds exactly on a FILE, and exactly for the keys `file_complexity_distribution` and `function_complexity_distribution` |
| `LiveMeasureFilter.IsNonEmpty` | server/sonar-ce-task-projectanalysis/src/main/java/org/sonar/ce/task/projectanalysis/step/PersistLiveMeasuresStep.java:142-148 | A measure counts as empty exactly when it has no value, no variation and no data |
| `LiveMeasureFilter.IsPersisted` | server/sonar-ce-task-projectanalysis/src/main/java/org/sonar/ce/task/projectanalysis/step/PersistLiveMeasuresStep.java:109-117 | A measure that is kept exists, has a metric the lookup finds, carries a value, a variation or data, and is never a distribution metric on a FILE |
| `LiveMeasureFilter.LiveRecords` | server/sonar-ce-task-projectanalysis/src/main/java/org/sonar/ce/task/projectanalysis/step/PersistLiveMeasuresStep.java:104-122 | The records a component must hold after its visit, one per kept measure: each belongs to the component and is filed under its own metric uuid. What it contains exactly is proved in `StoredIffKept` and `LiveRecordsCount` |
| `PersistLiveMeasures.TotalLive` | server/sonar-ce-task-projectanalysis/src/main/java/org/sonar/ce/task/projectanalysis/step/PersistLiveMeasuresStep.java:94-138 | The count reported for a run of visits: no single visit writes more records than the total, and a run in which no component keeps a measure writes none |
| `LiveMeasureFilter.StoredIffKept` | server/sonar-ce-task-projectanalysis/src/main/java/org/sonar/ce/task/projectanalysis/step/PersistLiveMeasuresStep.java:107-121 | A raw measure's metric has a stored record if and only if the measure is not file-excluded, is non-empty and is not best-value optimised; that record is the one the conversion builds from the measure |
| `LiveMeasureFilter.DistributionsNeverStoredOnFile` | server/sonar-ce-task-projectanalysis/src/main/java/org/sonar/ce/task/projectanalysis/step/PersistLiveMeasuresStep.java:109-111 | On a FILE, `file_complexity_distribution` and `function_complexity_distribution` never get a record, whatever their measures |
| `LiveMeasureFilter.DistributionsStoredOffFile` | server/sonar-ce-task-projectanalysis/src/main/java/org/sonar/ce/task/projectanalysis/step/PersistLiveMeasuresStep.java:109-111 | On any other component type those two metrics are stored like any other: non-empty and not best-value optimised is enough |
| `LiveMeasureFilter.BestValueNeverStored` | server/sonar-ce-task-projectanalysis/src/main/java/org/sonar/ce/task/projectanalysis/step/PersistLiveMeasuresStep.java:113-116 | A measure the best-value optimisation matches for its (metric, component) never gets a record |
| `LiveMeasureFilter.EmptyMeasureNeverStored` | server/sonar-ce-task-projectanalysis/src/main/java/org/sonar/ce/task/projectanalysis/step/PersistLiveMeasuresStep.java:142-148 | A measure with value type NO_VALUE, no variation and no data never gets a record |
| `LiveMeasureFilter.ToLiveMeasureDto` | server/sonar-ce-task-projectanalysis/src/main/java/org/sonar/ce/task/projectanalysis/step/PersistLiveMeasuresStep.java:119 | The record built for a measure belongs to the visited component and to the measure's metric |
| `LiveMeasureFilter.LiveRecordsAmong` | server/sonar-ce-task-projectanalysis/src/main/java/org/sonar/ce/task/projectanalysis/step/PersistLiveMeasuresStep.java:104-122 | Every kept record is filed under its own metric uuid and belongs to the visited component |
| `LiveMeasureFilter.AmongAdd` | server/sonar-ce-task-projectanalysis/src/main/java/org/sonar/ce/task/projectanalysis/step/PersistLiveMeasuresStep.java:107-122 | Examining one more raw measure adds its record, under a metric uuid not yet used, exactly when it is kept, and otherwise changes nothing |
| `LiveMeasureFilter.LiveRecordsCount` | server/sonar-ce-task-projectanalysis/src/main/java/org/sonar/ce/task/projectanalysis/step/PersistLiveMeasuresStep.java:119-121 | The number of records a component must hold equals the number of its raw measures that are kept; no two kept measures share a record |
| `LiveMeasureDao.Put` | server/sonar-ce-task-projectanalysis/src/main/java/org/sonar/ce/task/projectanalysis/step/PersistLiveMeasuresStep.java:124-135 | Replacing one component's records gives it exactly the new records, leaves every other component's records unchanged and keeps the table well keyed |
| `LiveMeasureDao.ByMetricKeys` | server/sonar-ce-task-projectanalysis/src/main/java/org/sonar/ce/task/projectanalysis/step/PersistLiveMeasuresStep.java:120-121 | The records collected in `dtos` are filed under exactly the metric uuids collected in `metricUuids` |
| `LiveMeasureDao.MetricUuids` | server/sonar-ce-task-projectanalysis/src/main/java/org/sonar/ce/task/projectanalysis/step/PersistLiveMeasuresStep.java:121 | The metric-uuid list is parallel to the record list: same length, and entry i is the metric of record i |
| `LiveMeasureDao.ByMetricSize` | server/sonar-ce-task-projectanalysis/src/main/java/org/sonar/ce/task/projectanalysis/step/PersistLiveMeasuresStep.java:138 | When no two records share a metric, the number of records written (`dtos.size()`) is the number of records stored |
| `LiveMeasureDao.UpsertStep` | server/sonar-ce-task-projectanalysis/src/main/java/org/sonar/ce/task/projectanalysis/step/PersistLiveMeasuresStep.java:125-127 | After upserting the first i+1 records, the component holds its previous records overlaid by those records |
| `LiveMeasureDao.DeleteExcludingStep` | server/sonar-ce-task-projectanalysis/src/main/java/org/sonar/ce/task/projectanalysis/step/PersistLiveMeasuresStep.java:128-131 | After the upserts, deleting the records whose metric is not among the upserted ones leaves exactly the upserted records, whatever was stored before |
| `LiveMeasureDao.InsertStep` | server/sonar-ce-task-projectanalysis/src/main/java/org/sonar/ce/task/projectanalysis/step/PersistLiveMeasuresStep.java:133-134 | After the delete, inserting the first i+1 records leaves exactly those records |
| `LiveMeasureDao.LiveMeasureDao.Upsert` | server/sonar-ce-task-projectanalysis/src/main/java/org/sonar/ce/task/projectanalysis/step/PersistLiveMeasuresStep.java:126 | The storage interface as the step uses it: insert or replace the record for (component, metric); nothing else changes |
| `LiveMeasureDao.LiveMeasureDao.DeleteByComponentUuidExcludingMetricUuids` | server/sonar-ce-task-projectanalysis/src/main/java/org/sonar/ce/task/projectanalysis/step/PersistLiveMeasuresStep.java:131 | The storage interface: the component keeps exactly its records whose metric is in the list; nothing else changes |
| `LiveMeasureDao.LiveMeasureDao.DeleteByComponent` | server/sonar-ce-task-projectanalysis/src/main/java/org/sonar/ce/task/projectanalysis/step/PersistLiveMeasuresStep.java:133 | The storage interface: the component has no records afterwards; nothing else changes |
| `LiveMeasureDao.LiveMeasureDao.Insert` | server/sonar-ce-task-projectanalysis/src/main/java/org/sonar/ce/task/projectanalysis/step/PersistLiveMeasuresStep.java:134 | The storage interface: adds a record, and the table's unique key on (component, metric) forbids a duplicate |
| `PersistLiveMeasures.KeptMeasure` | server/sonar-ce-task-projectanalysis/src/main/java/org/sonar/ce/task/projectanalysis/step/PersistLiveMeasuresStep.java:119-121 | Appending a kept measure's record and metric keeps the two lists parallel, free of repeated metrics and equal to the specified records of the keys examined so far |
| `PersistLiveMeasures.DroppedMeasure` | server/sonar-ce-task-projectanalysis/src/main/java/org/sonar/ce/task/projectanalysis/step/PersistLiveMeasuresStep.java:109-117 | Skipping a dropped measure (`continue`) keeps the lists equal to the specified records of the keys examined so far |
| `PersistLiveMeasures.CollectLiveMeasureDtos` | server/sonar-ce-task-projectanalysis/src/main/java/org/sonar/ce/task/projectanalysis/step/PersistLiveMeasuresStep.java:104-122 | The filtering loop, over the raw measures in any order, returns records that are exactly the component's specified records, with no repeated metric, all for the component, and the parallel list of their metric uuids |
| `PersistLiveMeasures.MeasureVisitor.WriteByUpsert` | server/sonar-ce-task-projectanalysis/src/main/java/org/sonar/ce/task/projectanalysis/step/PersistLiveMeasuresStep.java:124-131 | Upsert path: the component ends up holding exactly the kept records, including removal of stale ones, whatever it held before; no other component changes |
| `PersistLiveMeasures.MeasureVisitor.WriteByDeleteThenInsert` | server/sonar-ce-task-projectanalysis/src/main/java/org/sonar/ce/task/projectanalysis/step/PersistLiveMeasuresStep.java:132-135 | Fallback path: never violates the unique key, and leaves the same table as the upsert path, whatever the component held before |
| `PersistLiveMeasures.MeasureVisitor.VisitAny` | server/sonar-ce-task-projectanalysis/src/main/java/org/sonar/ce/task/projectanalysis/step/PersistLiveMeasuresStep.java:103-139 | On both paths, the visited component's records become exactly its kept records, other components are untouched, and the counter grows by the number of records written |
| `PersistLiveMeasures.MeasureVisitor.constructor` | server/sonar-ce-task-projectanalysis/src/main/java/org/sonar/ce/task/projectanalysis/step/PersistLiveMeasuresStep.java:96-100 | A new visitor uses the given session and upsert flag, with its counter at 0 |
| `PersistLiveMeasures.MeasureVisitor.Crawl` | server/sonar-ce-task-projectanalysis/src/main/java/org/sonar/ce/task/projectanalysis/step/PersistLiveMeasuresStep.java:84 | Crawling a subtree visits its components in pre-order, down to the leaves; the table and counter end as the sequence of those visits leaves them |
| `PersistLiveMeasures.Execute` | server/sonar-ce-task-projectanalysis/src/main/java/org/sonar/ce/task/projectanalysis/step/PersistLiveMeasuresStep.java:79-89 | The step reconciles every component of the tree and reports as `insertsOrUpdates` the sum, over all components, of the records written. When the uuids along the walk are distinct, every component of the tree holds exactly its kept records afterwards, and every component outside the tree holds what it held before |
| `PersistLiveMeasures.PreOrder` | server/sonar-ce-task-projectanalysis/src/main/java/org/sonar/ce/task/projectanalysis/step/PersistLiveMeasuresStep.java:97 | The pre-order walk starts at the root |
| `PersistLiveMeasures.Reconciled` | server/sonar-ce-task-projectanalysis/src/main/java/org/sonar/ce/task/projectanalysis/step/PersistLiveMeasuresStep.java:84 | The table after a sequence of visits stays well keyed |
| `PersistLiveMeasures.ReconciledAppend` | server/sonar-ce-task-projectanalysis/src/main/java/org/sonar/ce/task/projectanalysis/step/PersistLiveMeasuresStep.java:84 | Visiting two runs of components one after the other is visiting their concatenation, for the table and for the count |
| `PersistLiveMeasures.VisitedStep` | server/sonar-ce-task-projectanalysis/src/main/java/org/sonar/ce/task/projectanalysis/step/PersistLiveMeasuresStep.java:84 | Crawling one more child's subtree extends the visited components by that subtree's pre-order walk |
| `PersistLiveMeasures.ReconciledExact` | server/sonar-ce-task-projectanalysis/src/main/java/org/sonar/ce/task/projectanalysis/step/PersistLiveMeasuresStep.java:124-135 | After a run over components with distinct uuids, every visited component holds exactly its kept records, and every component not visited holds what it held before |
| `PersistLiveMeasures.ReconciledIdempotent` | server/sonar-ce-task-projectanalysis/src/main/java/org/sonar/ce/task/projectanalysis/step/PersistLiveMeasuresStep.java:79-89 | Running the whole step a second time with unchanged raw measures leaves the table exactly as the first run left it |
| `PersistLiveMeasures.RevisitChangesNothing` | server/sonar-ce-task-projectanalysis/src/main/java/org/sonar/ce/task/projectanalysis/step/PersistLiveMeasuresStep.java:104-135 | Visiting a component a second time with the same raw measures leaves the table unchanged |

## Left out

- The database session: opening it, the per-component and final `commit()`,
  and closing it (PersistLiveMeasuresStep.java:81, :85, :137). Each component's
  writes are modelled as taking effect at once; partial writes after a failure
  are not modelled.
- The dialect probe `supportsUpsert()` (:80) is the `supportUpsert` argument
  of `Execute`.
- The crawler classes `DepthTraversalTypeAwareCrawler`, `TypeAwareVisitorAdapter`
  and `CrawlerDepthLimit` are not part of this model. Their effect is modelled
  as a pre-order walk over every component, down to the leaves (`PreOrder`,
  `Crawl`).
- `BestValueOptimization`, `MeasureToMeasureDto`, `MetricRepository` and
  `MeasureRepository` are not part of this model. They are uninterpreted
  fields of `Collaborators`; of `MeasureToMeasureDto`, only the payload it
  builds is. In particular, how a measure's value is compared
  with a metric's best value, which may involve floating point, is not
  modelled. What a record holds besides its two uuids is an uninterpreted
  `Payload`.
- The statistics sink (:86-87) is not modelled. `Execute` returns the counter
  instead.
- `getDescription` (:74-76) returns a fixed label and is not modelled.
- The iteration order of the raw-measure map is unspecified. The filtering
  loop picks the next key nondeterministically, so every order is covered.
- An unknown metric key makes the metric lookup throw and aborts the step.
  The model does not represent this error. Instead, `WellFormed` requires
  that the lookup succeeds.
- `PersistLiveMeasures.MeasureVisitor.VisitAny`: `insertsOrUpdates` is a Java
  `int`, but the model uses an unbounded `nat`. Wrap-around after 2^31 - 1
  records is not modelled.
- `PersistLiveMeasures.ReconciledExact`: it requires component uuids to be
  distinct along the walk. `ReconciledIdempotent` requires this too. The
  component tree guarantees it, but it is not derived from the tree.
- The component types other than FILE are listed only so that FILE can be
  told apart from them.
- `LiveMeasureFilter.ToLiveMeasureDto`: only the payload comes from an
  uninterpreted collaborator. The model assumes that the conversion sets the
  record's component uuid and metric uuid from the component and metric it is
  given. The code of `MeasureToMeasureDto` is not part of this model, and the
  proofs that other components' records are left untouched rely on this
  assumption.
- The code checks the non-empty rule before the best-value rule (:115). Both
  are pure, so the order does not change the result.

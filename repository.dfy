/**
 * The values the UI reads from the keepsake library. They are fetched per
 * request and never updated by the UI, so they are plain values here; what
 * keepsake computes for them (`short_id()`, `best()`, `isoformat()`) is a
 * field holding the computed result.
 */
module Repository {
  import opened Wrappers

  /** A parameter or metric value, as it is displayed. */
  type Value = string

  /** A Python dict from names to values, in insertion order. */
  type Dict = seq<(string, Value)>

  /** A Python dict never holds the same key twice. */
  predicate DistinctKeys<V>(d: seq<(string, V)>)
  {
    forall i, j :: 0 <= i < j < |d| ==> d[i].0 != d[j].0
  }

  datatype Checkpoint = Checkpoint(id: string, metrics: Dict)

  datatype Experiment = Experiment(
    id: string,
    shortId: string,          // experiment.short_id()
    created: string,          // experiment.created.isoformat()
    command: string,
    params: Dict,
    best: Option<Checkpoint>  // experiment.best(): None when no checkpoint qualifies
  )

  /** The dicts an experiment carries are real dicts. */
  predicate WellFormed(e: Experiment)
  {
    DistinctKeys(e.params) && (e.best.Some? ==> DistinctKeys(e.best.value.metrics))
  }
}

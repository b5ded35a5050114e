// How the two halves of the core agree on the shape of a metrics record:
// what `SystemMetrics.to_dict` produces is what `validate_metrics_data` accepts.

module Consistency {
  import Monitor
  import Helpers

  /** The keys `to_dict` writes are exactly the keys the validator demands. */
  lemma SameFieldNames()
    ensures Monitor.MetricsFields == Helpers.RequiredFields
  {
  }

  /** Every record `to_dict` builds passes `validate_metrics_data`. */
  lemma ToDictValidates(m: Monitor.SystemMetrics)
    ensures Helpers.ValidateMetricsData(Monitor.ToDict(m))
  {
    SameFieldNames();
  }

  /** A record that `FromDict`, the inverse of `to_dict`, can read back also passes the validator. */
  lemma ReadableRecordValidates(d: map<string, Monitor.Field>)
    requires Monitor.FromDict(d).Some?
    ensures Helpers.ValidateMetricsData(d)
  {
    SameFieldNames();
  }
}

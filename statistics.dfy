/**
 * `StatisticService`: accept/reject metrics are queued as strings in the
 * settings and reported in bulk as a usage count per metric. Sending is
 * outside the model: `Report` returns the batch it would send, and a failed
 * send hands the batch back through `MergeMessages`.
 */
module Statistics {
  import opened Optional

  /** One report: the drained metrics and their usage counts. */
  datatype Batch = Batch(oldStats: seq<string>, usage: map<string, int>)

  /** The usage counts of `stats`: each metric mapped to how often it occurs. */
  ghost predicate CountsOf(usage: map<string, int>, stats: seq<string>)
  {
    && (forall s :: s in usage <==> s in stats)
    && (forall s :: s in usage ==> usage[s] == multiset(stats)[s])
  }

  /** Counts agree with the multiset of metrics, so they add up to the number of metrics. */
  lemma CountsAreMultiplicities(usage: map<string, int>, stats: seq<string>, s: string)
    requires CountsOf(usage, stats)
    ensures multiset(stats)[s] == if s in usage then usage[s] else 0
    ensures |multiset(stats)| == |stats|
  {
  }

  /** The counting loop of `report`. */
  method CountUsage(oldStats: seq<string>) returns (usage: map<string, int>)
    ensures CountsOf(usage, oldStats)
  {
    usage := map[];
    var i := 0;
    while i < |oldStats|
      invariant 0 <= i <= |oldStats|
      invariant CountsOf(usage, oldStats[..i])
    {
      var it := oldStats[i];
      assert oldStats[..i + 1] == oldStats[..i] + [it];
      if it in usage {
        usage := usage[it := usage[it] + 1];
      } else {
        usage := usage[it := 1];
      }
      i := i + 1;
    }
    assert oldStats[..i] == oldStats;
  }

  class StatisticService {
    /** The settings' `usageAcceptRejectMetricsCache`. */
    var stats: seq<string>

    constructor (stats: seq<string>)
      ensures this.stats == stats
    {
      this.stats := stats;
    }

    /**
     * `report`: nothing without metrics or without an API key; otherwise the
     * queue is drained into a batch with its usage counts.
     */
    method Report(apiKey: Option<string>) returns (batch: Option<Batch>)
      modifies this`stats
      ensures batch.None? <==> old(stats) == [] || apiKey.None?
      ensures batch.None? ==> stats == old(stats)
      ensures batch.Some? ==> && stats == []
                              && batch.value.oldStats == old(stats)
                              && CountsOf(batch.value.usage, old(stats))
    {
      if |stats| == 0 {
        return None;
      }
      if apiKey.None? {
        return None;
      }
      var oldStats := stats;
      stats := [];
      var usage := CountUsage(oldStats);
      batch := Some(Batch(oldStats, usage));
    }

    /** `addCompletionStatistic`: the metrics join the end of the queue. */
    method AddCompletionStatistic(metrics: seq<string>)
      modifies this`stats
      ensures stats == old(stats) + metrics
    {
      stats := stats + metrics;
    }

    /** `mergeMessages`, called when a send fails: the batch goes back at the end of the queue. */
    method MergeMessages(newStats: seq<string>)
      modifies this`stats
      ensures stats == old(stats) + newStats
      ensures multiset(stats) == multiset(old(stats)) + multiset(newStats)
    {
      stats := stats + newStats;
    }
  }
}

/**
 * The process-wide kept/discarded tallies and the diagnostic report the
 * ticker in main.go's `main` derives from them every 30 seconds.
 */
module Stats {
  import opened Wrappers

  /** What one tick reports: the percentage of events kept, and their total. */
  datatype Report = Report(percentageKept: int, totalEvents: int)

  /**
   * The report for one interval: present only when both tallies are non-zero,
   * with the percentage rounded down (Go's integer division, exact here since
   * both operands are non-negative).
   */
  function Summary(kept: nat, discarded: nat): (r: Option<Report>)
    ensures r.Some? <==> kept != 0 && discarded != 0
    ensures r.Some? ==> r.value.totalEvents == kept + discarded
    ensures r.Some? ==> 0 <= r.value.percentageKept < 100
    ensures r.Some? ==>
      r.value.percentageKept * r.value.totalEvents <= kept * 100 < (r.value.percentageKept + 1) * r.value.totalEvents
  {
    if kept != 0 && discarded != 0 then
      var total := kept + discarded;
      var p := (kept * 100) / total;
      PercentageBounds(kept, total, p);
      Some(Report(p, total))
    else
      None
  }

  /** The rounded-down percentage of `kept` in `total` is below 100 when some events were discarded. */
  lemma PercentageBounds(kept: nat, total: nat, p: int)
    requires 0 < kept < total && p == (kept * 100) / total
    ensures 0 <= p < 100
    ensures p * total <= kept * 100 < (p + 1) * total
  {
    var m := kept * 100;
    assert m == p * total + m % total;
    assert 0 <= m % total < total;
    assert p * total < 100 * total;
  }

  /** The two tallies; several sessions add to them and the ticker resets them. */
  class Counters {
    var kept: nat
    var discarded: nat

    constructor ()
      ensures kept == 0 && discarded == 0
    {
      kept, discarded := 0, 0;
    }

    /** One tick of the ticker: report when debugging, then reset both tallies. */
    method Tick(debug: bool) returns (report: Option<Report>)
      modifies this
      ensures kept == 0 && discarded == 0
      ensures report == if debug then Summary(old(kept), old(discarded)) else None
    {
      report := if debug then Summary(kept, discarded) else None;
      discarded := 0;
      kept := 0;
    }
  }
}

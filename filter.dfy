/**
 * The relay's filter: which firehose envelopes are forwarded downstream.
 * Modelled on `isLatency` and `keepEvent` in main.go.
 */
module Filter {
  import opened Strings

  /** The event types an envelope can carry (sonde-go's `Envelope_EventType`). */
  datatype EventType =
    | HttpStartStop
    | LogMessage
    | ValueMetric
    | CounterEvent
    | Error
    | ContainerMetric

  /**
   * An envelope reduced to the three fields the filter reads. `metricName` is
   * the name of the envelope's value metric, and "" when it carries none, as
   * the protobuf getters return for a nil or unset field.
   */
  datatype Envelope = Envelope(eventType: EventType, origin: string, metricName: string)

  /** A gorouter metric name that reports latency. */
  predicate IsLatency(name: string) {
    name == "latency" || name == "route_lookup_time" || HasPrefix(name, "latency.")
  }

  /** The filter decision: true when the envelope is forwarded. */
  predicate KeepEvent(e: Envelope)
    ensures KeepEvent(e) ==> e.eventType == ValueMetric || e.eventType == ContainerMetric
    ensures e.eventType == ContainerMetric ==> KeepEvent(e)
    ensures e.eventType == ValueMetric && e.origin != "gorouter" ==> KeepEvent(e)
  {
    match e.eventType
    case ValueMetric => !(e.origin == "gorouter" && IsLatency(e.metricName))
    case ContainerMetric => true
    case _ => false
  }

  /** Every name that starts with "latency." is a latency name. */
  lemma LatencyPrefixIsLatency(rest: string)
    ensures IsLatency("latency." + rest)
  {
    assert ("latency." + rest)[..8] == "latency.";
  }

  /** A latency name is one of the two fixed names or "latency." followed by something. */
  lemma LatencyNameShape(name: string)
    requires IsLatency(name)
    ensures name == "latency" || name == "route_lookup_time" || name == "latency." + name[8..]
  {
    if name != "latency" && name != "route_lookup_time" {
      assert name == name[..8] + name[8..];
    }
  }

  /** Names close to the latency names that are not latency names. */
  lemma NotLatencyExamples()
    ensures !IsLatency("")
    ensures !IsLatency("latencyX")
    ensures !IsLatency("latency_foo")
    ensures !IsLatency("numCPUS")
    ensures IsLatency("latency.")
  {
    assert "latencyX"[7] != "latency."[7];
    assert "latency_foo"[..8] != "latency.";
  }

  /** A container metric is kept whatever its origin and name. */
  lemma ContainerMetricKept(origin: string, name: string)
    ensures KeepEvent(Envelope(ContainerMetric, origin, name))
  {
  }

  /** Any type other than a value or container metric is discarded. */
  lemma OtherTypesDiscarded(e: Envelope)
    requires e.eventType != ValueMetric && e.eventType != ContainerMetric
    ensures !KeepEvent(e)
  {
  }

  /** A value metric is discarded exactly when it is a gorouter latency metric. */
  lemma ValueMetricDiscardedIff(origin: string, name: string)
    ensures !KeepEvent(Envelope(ValueMetric, origin, name)) <==> origin == "gorouter" && IsLatency(name)
  {
  }

  /** The cases exercised by the repository's filter test. */
  lemma KeepEventTestTable()
    ensures !KeepEvent(Envelope(CounterEvent, "", ""))
    ensures !KeepEvent(Envelope(ValueMetric, "gorouter", "latency"))
    ensures !KeepEvent(Envelope(ValueMetric, "gorouter", "latency.foo"))
    ensures !KeepEvent(Envelope(ValueMetric, "gorouter", "route_lookup_time"))
    ensures KeepEvent(Envelope(ContainerMetric, "", ""))
    ensures KeepEvent(Envelope(ValueMetric, "", ""))
    ensures KeepEvent(Envelope(ValueMetric, "gorouter", ""))
    ensures KeepEvent(Envelope(ValueMetric, "gorouter", "numCPUS"))
    ensures KeepEvent(Envelope(ValueMetric, "rep", "CapacityTotalContainers"))
  {
    LatencyPrefixIsLatency("foo");
    assert "latency.foo" == "latency." + "foo";
    NotLatencyExamples();
  }
}

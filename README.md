# cf-admin-ui-nozzle relay: a Dafny model

The nozzle subscribes to the Cloud Foundry firehose and relays envelopes to
one websocket client per connection. It drops gorouter latency metrics and
every event type except value metrics and container metrics. This project
models the filter, the intake loop and the write loop of `main.go`, and the
two small computations beside them: the subscription id taken from the
request URL, and the percentage the diagnostic ticker prints. It also proves
properties of each.

Modules, one per concern of `main.go`:

- `Filter` (filter.dfy): `IsLatency` and `KeepEvent`. An envelope is reduced
  to its event type, its origin and its value-metric name. The name is `""`
  when the envelope has no value metric.
- `Strings` (strings.dfy): the two functions of Go's `strings` package that
  `main.go` calls, `HasPrefix` (line 35) and `Split` with a non-empty
  separator (line 78). `Index` and `Join`, its inverse, are helpers that
  define and specify `Split`.
- `Subscription` (subscription.dfy): `strings.Split(url, "/firehose/")[1]`.
  It returns `None` where the Go index is out of range, which happens when
  the URL has no `"/firehose/"`.
- `Stats` (stats.dfy): the process-wide `eventKept`/`eventDiscarded` tallies,
  shown as a `Counters` object. The ticker computes the percentage and resets
  both tallies.
- `Relay` (relay.dfy): the buffered channel `parsedEventChan`, as a FIFO
  bounded by 4096. It also holds a `Session` whose `Intake` and `Drain`
  methods are the `eventProcessor` loop and the write loop of `wsInit`.

The model rests on the invariant `Session.Valid`. It says that the events the
filter kept are, in order:
1. the events written to the sink;
2. then at most one event lost in a failed write;
3. then the queue;
4. then the one event the intake may hold, which it does only while the
   queue is full.

In the Go code, `eventKept++` runs before the blocking send. So an event
that is waiting for room has already been counted, but it is not queued yet.
The model calls this event `pending`. Intake stops when it would block. As
with Go's buffered channel, the blocked sender does not send the event
itself: the drain's next receive frees a slot and moves the held event into
it at the back of the queue, so the drain goes on to write it.
Drain returns at the first failed write, and the event whose write failed is
not redelivered. So the sink is always a prefix of the kept events, with no
duplicates and nothing reordered.

The model follows `main.go` as it stands:
- `main.go` has no allow-list mode and no `grootfs` rule, so neither is
  modelled.
- `keepEvent` takes one argument. The test file calls it with a second,
  boolean argument. Every assertion in that test holds for the one-argument
  logic, and `Filter.KeepEventTestTable` states them all.

## Model

| member | source | states |
|---|---|---|
| `Filter.IsLatency` | main.go:34-36 | No contract of its own: `LatencyPrefixIsLatency` and `LatencyNameShape` characterise it in both directions, and `NotLatencyExamples` pins its edge cases. |
| `Filter.KeepEvent` | main.go:38-56 | Only value metrics and container metrics can be kept. A container metric is always kept. A value metric from any origin other than gorouter is always kept. |
| `Filter.ValueMetricDiscardedIff` | main.go:43-48 | A value metric is discarded exactly when its origin is "gorouter" and its name is a latency name, in both directions. |
| `Filter.ContainerMetricKept` | main.go:50-51 | A container metric is kept whatever its origin and name. |
| `Filter.OtherTypesDiscarded` | main.go:53-54 | Any event type other than ValueMetric or ContainerMetric is discarded, whatever its origin and name. |
| `Filter.LatencyPrefixIsLatency` | main.go:34-36 | Every name of the form "latency." followed by anything is a latency name. |
| `Filter.LatencyNameShape` | main.go:34-36 | A latency name is "latency", "route_lookup_time", or "latency." followed by a suffix. With the lemma above, this characterises `isLatency` exactly. |
| `Filter.NotLatencyExamples` | main.go:34-36 | "", "latencyX", "latency_foo" and "numCPUS" are not latency names; "latency." is one. |
| `Filter.KeepEventTestTable` | main_test.go:9-59 | Each case of the repository's test holds. CounterEvent and the three gorouter latency names are discarded. The container metric, the empty value metrics, gorouter/numCPUS and rep/CapacityTotalContainers are kept. |
| `Strings.HasPrefix` | main.go:35 | `prefix` is a prefix exactly when it is no longer than `s` and `s` is `prefix` followed by the rest of `s`. |
| `Strings.IndexFrom` | main.go:78 | The result is the first position at or after `from` where the separator occurs. None means it occurs nowhere at or after `from`. |
| `Strings.Index` | main.go:78 | The result is None exactly when the separator does not occur. Otherwise it is the first position where the separator occurs. |
| `Strings.Split` | main.go:78 | There is at least one piece. Joining the pieces with the separator gives back the input. No piece contains the separator, and no separator straddles a cut (a piece other than the last, followed by all but the last character of the separator, does not contain it), so the cuts are at the leftmost non-overlapping occurrences. There is exactly one piece when the input does not contain the separator. |
| `Strings.NoStraddle` | main.go:78 | The text before the first occurrence of the separator, followed by all but its last character, does not contain the separator. |
| `Subscription.SubscriptionId` | main.go:78 | The result is None exactly when the URL has no "/firehose/". Otherwise it is the text after the first "/firehose/" up to the next one found after it, or up to the end. That span exists and is unique, and the id never contains "/firehose/". |
| `Subscription.SplitSecond` | main.go:78 | For any such span, the second piece of `Split(url, "/firehose/")` is that span. |
| `Subscription.SpanExists` | main.go:78 | Every URL that contains "/firehose/" has such a span. |
| `Subscription.SubscriptionIdSingle` | main.go:78 | "/firehose/sub-1" gives "sub-1". |
| `Subscription.SubscriptionIdStopsAtSecond` | main.go:78 | "/firehose/a/firehose/b" gives "a": the id stops at the second separator. |
| `Subscription.SubscriptionIdOverlap` | main.go:78 | "/firehose/firehose/" gives "firehose/": an occurrence that overlaps the first one is not a separator. |
| `Subscription.SubscriptionIdMissing` | main.go:78 | "/nozzle", which the catch-all route hands to `wsInit`, has no id: the Go indexing would panic there. |
| `Stats.Summary` | main.go:133-137 | A report exists exactly when both tallies are non-zero. Its total is their sum. Its percentage is kept*100/total rounded down, and it lies in 0..99. |
| `Stats.PercentageBounds` | main.go:134-135 | When 0 < kept < total, the rounded-down percentage is in 0..99 and brackets kept*100 between p*total and (p+1)*total. |
| `Stats.Counters.constructor` | main.go:25-26 | Both tallies start at zero. |
| `Stats.Counters.Tick` | main.go:130-142 | The report appears only in debug mode and equals `Summary` of the old tallies. Both tallies are then zero. |
| `Relay.Kept` | main.go:63-65 | The kept events are never more than the input. |
| `Relay.KeptAppend` | main.go:60-68 | Filtering a concatenation is the concatenation of the filtered parts. Kept events stay in their relative order across successive inputs. |
| `Relay.DiscardedAppend` | main.go:66-68 | The same holds for the discarded events. |
| `Relay.KeptPartition` | main.go:63-68 | Each event is kept or discarded, never both. The two counts add up to the input length, and the two multisets make up the input. |
| `Relay.KeptCount` | main.go:63-65 | A kept event occurs among the kept events exactly as often as in the input: no duplication, no omission. A discarded event never occurs among them. |
| `Relay.IntakeStep` | main.go:62-68 | Taking one more event adds it to the kept events or to the discarded ones, and adds one to exactly one of the two counts. |
| `Relay.LeadingSuccesses` | main.go:110-118 | The result is the number of writes that succeed before the first failure. All earlier outcomes are successes, and the next one, if there is one, is a failure. |
| `Relay.Held` | main.go:64-65 | The intake holds at most one event. |
| `Relay.EventQueue.constructor` | main.go:99 | The channel starts empty. |
| `Relay.EventQueue.TryEnqueue` | main.go:65 | A send succeeds exactly when fewer than 4096 events are queued, and then appends the event at the back. A full queue is unchanged. |
| `Relay.EventQueue.TryDequeue` | main.go:111 | A receive returns the oldest event and removes it, or returns None from an empty queue. |
| `Relay.Session.constructor` | main.go:99-102 | A session starts with an empty queue and sink, no held event, and the connection open. |
| `Relay.Session.Receive` | main.go:62-68 | One event: exactly one tally grows by one. A kept event is queued, or, exactly when the queue is full, held as the pending event; the invariant says an event is held only while the queue is full. A discarded event changes nothing else. |
| `Relay.Session.Intake` | main.go:58-74 | The backlog grows by exactly the kept prefix of the events taken, in order, and each tally grows by its share. Intake stops early only when it holds a kept event and the queue's 4096 slots are full, and once blocked it takes nothing more: the held event is the last event it took, and that event was kept. The sink is untouched and stays a prefix of the kept events. |
| `Relay.Session.Drain` | main.go:110-119 | The sink receives the oldest events of the backlog (the queue followed by the event the intake holds), in order, one per successful write. Drain stops at the first failure and does not retry: the failed event is lost, the connection is closed, and the rest stay in the backlog. It also stops when the backlog or the known outcomes run out. After its first receive, the intake holds no event. The sink stays a prefix of the kept events. |
| `Relay.Session.WriteNext` | main.go:111-118 | One write: the oldest event is dequeued, and the event the intake holds, if any, moves into the freed slot at the back of the queue, as Go's receive from a full channel with a blocked sender does. It is appended to the sink on success. On failure the session is closed and the event is recorded as lost. |

## Left out

- HTTP handler registration, `ListenAndServe` and `wsHealth` are left out: they are network I/O.
- The noaa consumer, the TLS configuration, the idle timeout and the `Authorization` header are left out. They are calls into a foreign library, so the model takes the upstream events as a parameter.
- `websocket.Upgrade` and its failure path, which answers with a 400, are not modelled. They are foreign calls that happen before the drain starts.
- `conn.WriteMessage` is reduced to an oracle: one success flag per write.
- `proto.Marshal` is not modelled, because it is a foreign serialiser. The sink records the envelope itself rather than its wire bytes, and the ignored marshal error is not modelled.
- Goroutines, `select`, the stop channels, the error-checker goroutine and the deferred teardown order are left out, because their point is concurrency and cancellation. The model runs intake and drain as separate sequential steps. A receive that blocks on an empty channel, or a write still in flight, is modelled as the step returning.
- The races on the global counters are not modelled. One `Counters` object stands for the shared tallies.
- Relay.Session.Drain: requires that the connection is still open. The Go write loop never runs again after it has returned.
- Stats.Counters: the tallies are `nat`, so int64 overflow of the counters and of `eventKept * 100` is not modelled.
- The 30-second `time.Tick` schedule and the `fmt`/`strconv` printing are left out. `Report` holds the two numbers that are printed.
- Kingpin flag parsing is left out: it is configuration. The `debug` flag becomes a parameter of `Tick`.
- A closed upstream channel yields a nil envelope, so the Go code would classify a zero envelope. That case is not modelled.
- An envelope whose event type is unset is not modelled. Go's getter default is not represented; every envelope carries one of the six types.
- Strings.Split: defined only for a non-empty separator. Go splits into UTF-8 sequences on an empty separator, but `main.go` only ever splits on "/firehose/".
- Strings are sequences of characters here, while Go works on bytes. Equality, prefix and split results agree for the ASCII literals involved. Positions are counted in characters, not bytes.

/**
 * The sequential part of the relay in main.go: the intake loop of
 * `eventProcessor`, which filters upstream envelopes into the buffered
 * channel `parsedEventChan` (capacity 4096), and the write loop of `wsInit`,
 * which drains that channel to the websocket in order until a write fails.
 */
module Relay {
  import opened Wrappers
  import opened Filter
  import opened Stats

  /** The capacity of the channel between intake and drain. */
  const Capacity: nat := 4096

  /** The events of `s` the filter keeps, in their order in `s`. */
  function Kept(s: seq<Envelope>): (r: seq<Envelope>)
    ensures |r| <= |s|
  {
    if s == [] then []
    else Kept(s[..|s| - 1]) + (if KeepEvent(s[|s| - 1]) then [s[|s| - 1]] else [])
  }

  /** The events of `s` the filter discards, in their order in `s`. */
  function Discarded(s: seq<Envelope>): (r: seq<Envelope>)
    ensures |r| <= |s|
  {
    if s == [] then []
    else Discarded(s[..|s| - 1]) + (if KeepEvent(s[|s| - 1]) then [] else [s[|s| - 1]])
  }

  /** Filtering a concatenation filters each part: kept events keep their relative order. */
  lemma {:induction false} KeptAppend(a: seq<Envelope>, b: seq<Envelope>)
    ensures Kept(a + b) == Kept(a) + Kept(b)
    decreases |b|
  {
    if b == [] {
      assert a + b == a;
    } else {
      var b' := b[..|b| - 1];
      var last := b[|b| - 1];
      var tail := if KeepEvent(last) then [last] else [];
      assert (a + b)[..|a + b| - 1] == a + b';
      assert Kept(a + b) == Kept(a + b') + tail;
      KeptAppend(a, b');
      assert Kept(b) == Kept(b') + tail;
    }
  }

  /** Discarded events of a concatenation, in order, part by part. */
  lemma {:induction false} DiscardedAppend(a: seq<Envelope>, b: seq<Envelope>)
    ensures Discarded(a + b) == Discarded(a) + Discarded(b)
    decreases |b|
  {
    if b == [] {
      assert a + b == a;
    } else {
      var b' := b[..|b| - 1];
      var last := b[|b| - 1];
      var tail := if KeepEvent(last) then [] else [last];
      assert (a + b)[..|a + b| - 1] == a + b';
      assert Discarded(a + b) == Discarded(a + b') + tail;
      DiscardedAppend(a, b');
      assert Discarded(b) == Discarded(b') + tail;
    }
  }

  /** What follows a common prefix is determined by the whole. */
  lemma AppendCancel(a: seq<Envelope>, b: seq<Envelope>, b': seq<Envelope>, k: seq<Envelope>)
    requires a + b' == (a + b) + k
    ensures b' == b + k
  {
    assert (a + b) + k == a + (b + k);
    assert b' == (a + b')[|a|..];
  }

  /** Filtering one more event. */
  lemma KeptSnoc(s: seq<Envelope>, e: Envelope)
    ensures Kept(s + [e]) == Kept(s) + (if KeepEvent(e) then [e] else [])
    ensures Discarded(s + [e]) == Discarded(s) + (if KeepEvent(e) then [] else [e])
  {
    assert (s + [e])[..|s + [e]| - 1] == s;
  }

  /** How the tallies and the forwarded events grow when the intake takes `input[n]`. */
  lemma IntakeStep(input: seq<Envelope>, n: nat, f: seq<Envelope>)
    requires n < |input|
    ensures f + Kept(input[..n + 1]) == (f + Kept(input[..n])) + (if KeepEvent(input[n]) then [input[n]] else [])
    ensures |Kept(input[..n + 1])| == |Kept(input[..n])| + (if KeepEvent(input[n]) then 1 else 0)
    ensures |Discarded(input[..n + 1])| == |Discarded(input[..n])| + (if KeepEvent(input[n]) then 0 else 1)
  {
    assert input[..n + 1] == input[..n] + [input[n]];
    KeptSnoc(input[..n], input[n]);
    var t := if KeepEvent(input[n]) then [input[n]] else [];
    assert f + (Kept(input[..n]) + t) == (f + Kept(input[..n])) + t;
  }

  /**
   * Every event is either kept or discarded, never both: the two together are
   * the input, neither duplicating nor omitting an event.
   */
  lemma {:induction false} KeptPartition(s: seq<Envelope>)
    ensures |Kept(s)| + |Discarded(s)| == |s|
    ensures multiset(Kept(s)) + multiset(Discarded(s)) == multiset(s)
  {
    if s != [] {
      var s', x := s[..|s| - 1], s[|s| - 1];
      KeptPartition(s');
      assert s == s' + [x];
      assert multiset(s) == multiset(s') + multiset{x};
      if KeepEvent(x) {
        assert multiset(Kept(s)) == multiset(Kept(s')) + multiset{x};
      } else {
        assert multiset(Discarded(s)) == multiset(Discarded(s')) + multiset{x};
      }
    }
  }

  /** A kept event occurs in `Kept(s)` exactly as often as in `s`. */
  lemma {:induction false} KeptCount(s: seq<Envelope>, x: Envelope)
    ensures multiset(Kept(s))[x] == if KeepEvent(x) then multiset(s)[x] else 0
  {
    if s != [] {
      var s' := s[..|s| - 1];
      KeptCount(s', x);
      assert s == s' + [s[|s| - 1]];
    }
  }

  /** The number of writes that succeed before the first failure. */
  function LeadingSuccesses(results: seq<bool>): (n: nat)
    ensures n <= |results|
    ensures forall k :: 0 <= k < n ==> results[k]
    ensures n < |results| ==> !results[n]
  {
    if results == [] || !results[0] then 0 else 1 + LeadingSuccesses(results[1..])
  }

  /** A kept event a producer holds, as a sequence of zero or one events. */
  function Held(pending: Option<Envelope>): (s: seq<Envelope>)
    ensures |s| <= 1
  {
    if pending.Some? then [pending.value] else []
  }

  /**
   * The buffered channel: a first-in first-out queue that never holds more
   * than `Capacity` events.
   */
  class EventQueue {
    /** The queued events, oldest first. */
    var items: seq<Envelope>

    ghost predicate Valid()
      reads this
    {
      |items| <= Capacity
    }

    constructor ()
      ensures Valid() && items == []
    {
      items := [];
    }

    /** Sends `x` when there is room; a full queue is left unchanged. */
    method TryEnqueue(x: Envelope) returns (ok: bool)
      requires Valid()
      modifies this
      ensures Valid()
      ensures ok <==> |old(items)| < Capacity
      ensures items == if ok then old(items) + [x] else old(items)
    {
      ok := |items| < Capacity;
      if ok {
        items := items + [x];
      }
    }

    /** Receives the oldest event, or None from an empty queue. */
    method TryDequeue() returns (x: Option<Envelope>)
      requires Valid()
      modifies this
      ensures Valid()
      ensures x.None? <==> old(items) == []
      ensures x.Some? ==> x.value == old(items)[0] && items == old(items)[1..]
      ensures x.None? ==> items == old(items)
    {
      if items == [] {
        x := None;
      } else {
        x := Some(items[0]);
        items := items[1..];
      }
    }
  }

  /** One session: its queue, the event the intake holds, and what reached the sink. */
  class Session {
    const queue: EventQueue
    /**
     * A kept event the intake has taken and counted but cannot send: the
     * queue is full. The drain's next receive moves it into the freed slot.
     */
    var pending: Option<Envelope>
    /** The events written to the websocket, in order. */
    var sink: seq<Envelope>
    /** The drain returned after a failed write. */
    var closed: bool
    /** Every event the filter kept, in the order the intake received them. */
    ghost var forwarded: seq<Envelope>
    /** The event whose write failed; it is not redelivered. */
    ghost var lost: seq<Envelope>

    /** The kept events not yet taken by the drain, oldest first. */
    ghost function Backlog(): seq<Envelope>
      reads this, queue
    {
      queue.items + Held(pending)
    }

    /**
     * Every kept event is, in order, written, lost in the failed write, queued
     * or held by the intake: none is dropped, duplicated or reordered.
     */
    ghost predicate Valid()
      reads this, queue
    {
      && queue.Valid()
      && forwarded == sink + lost + Backlog()
      && |lost| <= 1
      && (closed <==> lost != [])
      && (pending.Some? ==> |queue.items| == Capacity)
    }

    constructor ()
      ensures Valid() && fresh(queue)
      ensures forwarded == [] && sink == [] && pending == None && !closed
    {
      queue := new EventQueue();
      pending, sink, closed := None, [], false;
      forwarded, lost := [], [];
    }

    /** Takes one upstream event: count it, and send it on when the filter keeps it. */
    method Receive(c: Counters, e: Envelope) returns (blocked: bool)
      requires Valid() && pending == None
      modifies this, queue, c
      ensures Valid()
      ensures sink == old(sink) && lost == old(lost) && closed == old(closed)
      ensures forwarded == old(forwarded) + (if KeepEvent(e) then [e] else [])
      ensures Backlog() == old(Backlog()) + (if KeepEvent(e) then [e] else [])
      ensures c.kept == old(c.kept) + (if KeepEvent(e) then 1 else 0)
      ensures c.discarded == old(c.discarded) + (if KeepEvent(e) then 0 else 1)
      ensures blocked <==> KeepEvent(e) && |old(queue.items)| == Capacity
      ensures blocked <==> pending.Some?
      ensures blocked ==> pending == Some(e) && |queue.items| == Capacity
    {
      blocked := false;
      if KeepEvent(e) {
        c.kept := c.kept + 1;
        ghost var queued := queue.items;
        assert (sink + lost) + (queued + [e]) == (sink + lost + queued) + [e];
        forwarded := forwarded + [e];
        var ok := queue.TryEnqueue(e);
        if !ok {
          pending := Some(e);
          blocked := true;
        }
        assert Backlog() == queued + [e];
      } else {
        c.discarded := c.discarded + 1;
      }
    }

    /**
     * The intake loop run over the next upstream events: it stops early only
     * when it holds a kept event and the queue is full, where the Go
     * goroutine blocks on its send, and once blocked it takes no further
     * event: the event it holds is the last one it took. Each event it takes
     * adds to exactly one counter.
     */
    method Intake(c: Counters, input: seq<Envelope>) returns (consumed: nat)
      requires Valid()
      modifies this, queue, c
      ensures Valid()
      ensures consumed <= |input|
      ensures sink == old(sink) && lost == old(lost) && closed == old(closed)
      ensures forwarded == old(forwarded) + Kept(input[..consumed])
      ensures Backlog() == old(Backlog()) + Kept(input[..consumed])
      ensures c.kept == old(c.kept) + |Kept(input[..consumed])|
      ensures c.discarded == old(c.discarded) + |Discarded(input[..consumed])|
      ensures consumed < |input| ==> pending.Some?
      ensures pending.Some? && consumed > 0 ==> pending == Some(input[consumed - 1]) && KeepEvent(input[consumed - 1])
      ensures pending.Some? ==> |queue.items| == Capacity
      ensures sink <= forwarded
    {
      consumed := 0;
      assert input[..0] == [];
      var blocked := pending.Some?;
      while consumed < |input| && !blocked
        invariant consumed <= |input|
        invariant Valid() && (blocked <==> pending.Some?)
        invariant blocked ==> |queue.items| == Capacity
        invariant blocked && consumed > 0 ==> pending == Some(input[consumed - 1]) && KeepEvent(input[consumed - 1])
        invariant sink == old(sink) && lost == old(lost) && closed == old(closed)
        invariant forwarded == old(forwarded) + Kept(input[..consumed])
        invariant c.kept == old(c.kept) + |Kept(input[..consumed])|
        invariant c.discarded == old(c.discarded) + |Discarded(input[..consumed])|
      {
        IntakeStep(input, consumed, old(forwarded));
        blocked := Receive(c, input[consumed]);
        consumed := consumed + 1;
      }
      AppendCancel(sink + lost, old(Backlog()), Backlog(), Kept(input[..consumed]));
    }

    /**
     * The write loop: dequeue the oldest event and write it, with `results`
     * giving the outcome of each successive write. It returns at the first
     * failed write, without retrying, and suspends when the queue is empty or
     * no further outcome is known.
     */
    method Drain(results: seq<bool>) returns (attempts: nat)
      requires Valid() && !closed
      modifies this, queue
      ensures Valid()
      ensures forwarded == old(forwarded)
      ensures
        var q := old(Backlog());
        var n := if LeadingSuccesses(results) < |q| then LeadingSuccesses(results) else |q|;
        && sink == old(sink) + q[..n]
        && (closed <==> n < |q| && n < |results|)
        && (closed ==> lost == [q[n]] && Backlog() == q[n + 1..] && attempts == n + 1)
        && (!closed ==> Backlog() == q[n..] && attempts == n)
      ensures attempts > 0 ==> pending == None
      ensures attempts == 0 ==> pending == old(pending)
      ensures sink <= forwarded
    {
      attempts := 0;
      ghost var q := Backlog();
      while attempts < |results|
        invariant attempts <= |results| && attempts <= |q|
        invariant Valid() && !closed
        invariant forwarded == old(forwarded)
        invariant attempts > 0 ==> pending == None
        invariant attempts == 0 ==> pending == old(pending)
        invariant forall k :: 0 <= k < attempts ==> results[k]
        invariant sink == old(sink) + q[..attempts]
        invariant Backlog() == q[attempts..]
      {
        var next := WriteNext(results[attempts]);
        if next.None? {
          break;
        }
        assert q[..attempts + 1] == q[..attempts] + [next.value];
        attempts := attempts + 1;
        if closed {
          return;
        }
      }
    }

    /** One iteration of the write loop: dequeue, then write with the given outcome. */
    method WriteNext(success: bool) returns (next: Option<Envelope>)
      requires Valid() && !closed
      modifies this, queue
      ensures Valid()
      ensures forwarded == old(forwarded)
      ensures next.None? <==> old(Backlog()) == []
      ensures next.None? ==> queue.items == old(queue.items) && pending == old(pending) && sink == old(sink) && !closed
      ensures next.Some? ==> next.value == old(queue.items)[0] && pending == None
      ensures next.Some? ==> queue.items == old(queue.items)[1..] + Held(old(pending))
      ensures next.Some? ==> next.value == old(Backlog())[0] && Backlog() == old(Backlog())[1..]
      ensures next.Some? && success ==> sink == old(sink) + [next.value] && !closed
      ensures next.Some? && !success ==> sink == old(sink) && closed && lost == [next.value]
    {
      ghost var done := sink;
      ghost var held := Held(pending);
      next := queue.TryDequeue();
      if next.Some? {
        var x := next.value;
        if pending.Some? {
          var ok := queue.TryEnqueue(pending.value);
          assert ok;
          pending := None;
        }
        assert queue.items == old(queue.items)[1..] + held;
        assert old(Backlog()) == [x] + queue.items;
        assert forwarded == done + [x] + Backlog();
        if success {
          sink := sink + [x];
        } else {
          lost := [x];
          closed := true;
        }
      }
    }
  }
}

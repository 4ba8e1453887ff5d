/**
 * Extraction of the firehose subscription id from the request URL:
 * `strings.Split(url, "/firehose/")[1]` in main.go's `wsInit`.
 */
module Subscription {
  import opened Wrappers
  import opened Strings

  const Sep: string := "/firehose/"

  /**
   * `url[i + |Sep|..j]` is the piece of `url` after its first "/firehose/"
   * (at `i`) and before the next one found after it (at `j`), or up to the end
   * of `url` when there is none.
   */
  ghost predicate IsIdSpan(url: string, i: nat, j: nat) {
    && OccursAt(url, Sep, i)
    && (forall k: nat :: k < i ==> !OccursAt(url, Sep, k))
    && i + |Sep| <= j <= |url|
    && (forall k: nat :: i + |Sep| <= k < j ==> !OccursAt(url, Sep, k))
    && (j == |url| || OccursAt(url, Sep, j))
  }

  /**
   * The subscription id, or None where the Go code's index `[1]` is out of
   * range (the URL holds no "/firehose/") and the handler panics.
   */
  function SubscriptionId(url: string): (r: Option<string>)
    ensures r.None? <==> !Contains(url, Sep)
    ensures r.Some? ==> exists i: nat, j: nat :: IsIdSpan(url, i, j) && r.value == url[i + |Sep|..j]
    ensures forall i: nat, j: nat :: IsIdSpan(url, i, j) ==> r == Some(url[i + |Sep|..j])
  {
    var parts := Split(url, Sep);
    if |parts| < 2 then None
    else
      SpanExists(url);
      forall i: nat, j: nat | IsIdSpan(url, i, j)
        ensures parts[1] == url[i + |Sep|..j]
      {
        SplitSecond(url, i, j);
      }
      Some(parts[1])
  }

  /** Given a span, the second piece of the split is exactly that span. */
  lemma SplitSecond(url: string, i: nat, j: nat)
    requires IsIdSpan(url, i, j)
    ensures |Split(url, Sep)| >= 2 && Split(url, Sep)[1] == url[i + |Sep|..j]
  {
    IndexAt(url, Sep, i);
    var rest := url[i + |Sep|..];
    assert Split(url, Sep) == [url[..i]] + Split(rest, Sep);
    FirstPieceOfRest(url, i, j);
  }

  /** The first piece of what follows the first "/firehose/" ends at the span's end. */
  lemma FirstPieceOfRest(url: string, i: nat, j: nat)
    requires IsIdSpan(url, i, j)
    ensures Split(url[i + |Sep|..], Sep)[0] == url[i + |Sep|..j]
  {
    var d := i + |Sep|;
    var rest := url[d..];
    var jr: nat := j - d;
    forall k: nat | k < jr ensures !OccursAt(rest, Sep, k) {
      OccursAtShift(url, Sep, d, k);
    }
    if j == |url| {
      forall k: nat | jr <= k ensures !OccursAt(rest, Sep, k) {
      }
      assert Index(rest, Sep).None?;
    } else {
      OccursAtShift(url, Sep, d, jr);
      IndexAt(rest, Sep, jr);
    }
  }

  /** The first occurrence is where `Index` finds it. */
  lemma IndexAt(s: string, p: string, i: nat)
    requires OccursAt(s, p, i)
    requires forall k: nat :: k < i ==> !OccursAt(s, p, k)
    ensures Index(s, p) == Some(i)
  {
    assert Contains(s, p);
  }

  /** A URL that holds "/firehose/" has a span. */
  lemma SpanExists(url: string)
    requires Contains(url, Sep)
    ensures exists i: nat, j: nat :: IsIdSpan(url, i, j)
  {
    var i := Index(url, Sep).value;
    var d := i + |Sep|;
    var rest := url[d..];
    forall k: nat ensures OccursAt(rest, Sep, k) <==> OccursAt(url, Sep, d + k) {
      OccursAtShift(url, Sep, d, k);
    }
    match Index(rest, Sep)
    case None =>
      forall k: nat | d <= k < |url| ensures !OccursAt(url, Sep, k) {
        assert !OccursAt(rest, Sep, k - d);
      }
      assert IsIdSpan(url, i, |url|);
    case Some(jr) =>
      forall k: nat | d <= k < d + jr ensures !OccursAt(url, Sep, k) {
        assert !OccursAt(rest, Sep, k - d);
      }
      assert IsIdSpan(url, i, d + jr);
  }

  /** The id is everything after the only "/firehose/". */
  lemma SubscriptionIdSingle()
    ensures SubscriptionId("/firehose/sub-1") == Some("sub-1")
  {
    assert IsIdSpan("/firehose/sub-1", 0, 15);
  }

  /** The id stops at the second "/firehose/". */
  lemma SubscriptionIdStopsAtSecond()
    ensures SubscriptionId("/firehose/a/firehose/b") == Some("a")
  {
    var url := Sep + "a" + Sep + "b";
    assert url == "/firehose/a/firehose/b";
    assert url[0..10] == Sep && url[11..21] == Sep;
    assert url[10..20][0] != Sep[0];
    assert IsIdSpan(url, 0, 11);
    assert url[10..11] == "a";
  }

  /** A second "/firehose/" sharing its first slash with the first is not a separator. */
  lemma SubscriptionIdOverlap()
    ensures SubscriptionId("/firehose/firehose/") == Some("firehose/")
  {
    assert IsIdSpan("/firehose/firehose/", 0, 19);
  }

  /** A URL routed to the websocket handler without "/firehose/" has no id. */
  lemma SubscriptionIdMissing()
    ensures SubscriptionId("/nozzle") == None
  {
    assert !Contains("/nozzle", Sep);
  }
}

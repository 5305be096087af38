/** The recent-search list of the market research panel
    (market-research-new.js, `addToSearchHistory`): the new query goes to
    the front, any older entry for the same query is dropped, and only the
    ten most recent entries are kept. The clock (`Date.now()`) is a
    parameter. */
module SearchHistory {

  const MaxHistory: nat := 10

  datatype HistoryEntry = HistoryEntry(query: string, timestamp: int)

  /** `a` can be obtained from `b` by deleting entries */
  predicate IsSubsequence(a: seq<HistoryEntry>, b: seq<HistoryEntry>)
    decreases |b|
  {
    if |a| == 0 then true
    else if |b| == 0 then false
    else if a[0] == b[0] then IsSubsequence(a[1..], b[1..])
    else IsSubsequence(a, b[1..])
  }

  /** Entries recorded for `q` */
  function Occurrences(h: seq<HistoryEntry>, q: string): (n: nat)
    ensures n == 0 <==> forall k :: 0 <= k < |h| ==> h[k].query != q
  {
    if |h| == 0 then 0
    else (if h[0].query == q then 1 else 0) + Occurrences(h[1..], q)
  }

  /** No query is recorded twice */
  predicate DistinctQueries(h: seq<HistoryEntry>) {
    forall i, j :: 0 <= i < j < |h| ==> h[i].query != h[j].query
  }

  /** Timestamps never increase from front to back */
  predicate NewestFirst(h: seq<HistoryEntry>) {
    forall i, j :: 0 <= i < j < |h| ==> h[i].timestamp >= h[j].timestamp
  }

  /** `searchHistory.filter(item => item.query !== query)` */
  function WithoutQuery(h: seq<HistoryEntry>, q: string): (r: seq<HistoryEntry>)
    ensures |r| == |h| - Occurrences(h, q)
    ensures forall e :: e in r <==> e in h && e.query != q
    ensures IsSubsequence(r, h)
  {
    if |h| == 0 then []
    else
      var rest := WithoutQuery(h[1..], q);
      if h[0].query != q then
        assert ([h[0]] + rest)[1..] == rest;
        [h[0]] + rest
      else
        rest
  }

  /** `slice(0, n)`: the first n entries, or all of them if there are fewer */
  function Take(h: seq<HistoryEntry>, n: nat): (r: seq<HistoryEntry>)
    ensures |r| == if |h| <= n then |h| else n
    ensures r == h[..|r|]
  {
    if |h| <= n then h else h[..n]
  }

  /** `addToSearchHistory` (market-research-new.js:768-787) */
  function AddToSearchHistory(h: seq<HistoryEntry>, q: string, now: int): (r: seq<HistoryEntry>)
    ensures 1 <= |r| <= MaxHistory
    ensures r[0] == HistoryEntry(q, now)
    ensures forall k :: 1 <= k < |r| ==> r[k].query != q
    ensures |r| == MaxHistory || r[1..] == WithoutQuery(h, q)
    ensures |r| <= |WithoutQuery(h, q)| + 1 && r[1..] == WithoutQuery(h, q)[..|r| - 1]
  {
    var rest := WithoutQuery(h, q);
    assert forall k :: 0 <= k < |rest| ==> rest[k].query != q by {
      assert forall k :: 0 <= k < |rest| ==> rest[k] in rest;
    }
    TakeAfterHead(HistoryEntry(q, now), rest, MaxHistory);
    Take([HistoryEntry(q, now)] + rest, MaxHistory)
  }

  /** Cutting a list with a new head: the head stays and the old entries
      follow it in order, cut only at the limit */
  lemma TakeAfterHead(e: HistoryEntry, rest: seq<HistoryEntry>, n: nat)
    requires n >= 1
    ensures var r := Take([e] + rest, n);
            && 1 <= |r| <= n && r[0] == e
            && |r| <= |rest| + 1 && r[1..] == rest[..|r| - 1]
            && (|r| == n || r[1..] == rest)
  {
    var r := Take([e] + rest, n);
    assert r == ([e] + rest)[..|r|];
    assert r[1..] == rest[..|r| - 1];
  }

  /** A prefix of a subsequence is a subsequence */
  lemma {:induction false} PrefixOfSubsequence(a: seq<HistoryEntry>, b: seq<HistoryEntry>, n: nat)
    requires IsSubsequence(a, b)
    requires n <= |a|
    ensures IsSubsequence(a[..n], b)
    decreases |b|
  {
    if n == 0 || |a| == 0 {
    } else if a[0] == b[0] {
      PrefixOfSubsequence(a[1..], b[1..], n - 1);
      assert a[..n][1..] == a[1..][..n - 1];
    } else {
      PrefixOfSubsequence(a, b[1..], n);
    }
  }

  /** After an addition the query is recorded exactly once, at the front,
      and the older entries that remain keep their relative order */
  lemma {:induction false} AddedQueryOnceAtFront(h: seq<HistoryEntry>, q: string, now: int)
    ensures var r := AddToSearchHistory(h, q, now);
            Occurrences(r, q) == 1 && r[0].query == q && IsSubsequence(r[1..], h)
  {
    var r := AddToSearchHistory(h, q, now);
    assert Occurrences(r[1..], q) == 0;
    PrefixOfSubsequence(WithoutQuery(h, q), h, |r| - 1);
  }

  /** Filtering keeps distinct queries distinct */
  lemma {:induction false} WithoutQueryKeepsDistinct(h: seq<HistoryEntry>, q: string)
    requires DistinctQueries(h)
    ensures DistinctQueries(WithoutQuery(h, q))
    decreases |h|
  {
    if |h| > 0 {
      WithoutQueryKeepsDistinct(h[1..], q);
      var rest := WithoutQuery(h[1..], q);
      if h[0].query != q {
        forall k | 0 <= k < |rest|
          ensures h[0].query != rest[k].query
        {
          assert rest[k] in h[1..];
        }
      }
    }
  }

  /** Adding a query keeps the history free of duplicates */
  lemma AddKeepsDistinct(h: seq<HistoryEntry>, q: string, now: int)
    requires DistinctQueries(h)
    ensures DistinctQueries(AddToSearchHistory(h, q, now))
  {
    WithoutQueryKeepsDistinct(h, q);
  }

  /** Filtering keeps the newest-first order */
  lemma {:induction false} WithoutQueryKeepsOrder(h: seq<HistoryEntry>, q: string)
    requires NewestFirst(h)
    ensures NewestFirst(WithoutQuery(h, q))
    decreases |h|
  {
    if |h| > 0 {
      WithoutQueryKeepsOrder(h[1..], q);
      var rest := WithoutQuery(h[1..], q);
      if h[0].query != q {
        forall k | 0 <= k < |rest|
          ensures h[0].timestamp >= rest[k].timestamp
        {
          assert rest[k] in h[1..];
        }
      }
    }
  }

  /** With a clock that does not run backwards, the history stays newest
      first */
  lemma AddKeepsNewestFirst(h: seq<HistoryEntry>, q: string, now: int)
    requires NewestFirst(h)
    requires forall k :: 0 <= k < |h| ==> h[k].timestamp <= now
    ensures NewestFirst(AddToSearchHistory(h, q, now))
  {
    WithoutQueryKeepsOrder(h, q);
    var rest := WithoutQuery(h, q);
    assert forall k :: 0 <= k < |rest| ==> rest[k] in h;
  }
}

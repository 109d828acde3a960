/** The request counters of the server: what every counter means, and that logging keeps it. */
module ServerStatus {
  datatype Event = Event(prefix: string, url: string, code: int)

  /** The shared counters. */
  datatype Counts = Counts(total: int, byCode: map<int, int>, byUrl: map<string, map<string, int>>)

  const NOTHING: Counts := Counts(0, map[], map[])

  // ---------------------------------------------------------------- what the counters mean

  /** The number of events that satisfy `p`. */
  function Hits(events: seq<Event>, p: Event -> bool): nat {
    if events == [] then 0
    else Hits(events[..|events| - 1], p) + (if p(events[|events| - 1]) then 1 else 0)
  }

  function WithCode(code: int): Event -> bool {
    (e: Event) => e.code == code
  }

  function WithPrefix(prefix: string): Event -> bool {
    (e: Event) => e.prefix == prefix
  }

  function WithUrl(prefix: string, url: string): Event -> bool {
    (e: Event) => e.prefix == prefix && e.url == url
  }

  ghost predicate CodesCount(c: Counts, events: seq<Event>) {
    && (forall k :: k in c.byCode <==> Hits(events, WithCode(k)) > 0)
    && (forall k :: k in c.byCode ==> c.byCode[k] == Hits(events, WithCode(k)))
  }

  /** The counters of one prefix. */
  function Urls(c: Counts, prefix: string): map<string, int> {
    if prefix in c.byUrl then c.byUrl[prefix] else map[]
  }

  ghost predicate UrlsTally(m: map<string, int>, events: seq<Event>, prefix: string) {
    && (forall u :: u in m <==> Hits(events, WithUrl(prefix, u)) > 0)
    && (forall u :: u in m ==> m[u] == Hits(events, WithUrl(prefix, u)))
  }

  ghost predicate UrlsCount(c: Counts, events: seq<Event>) {
    && (forall p :: p in c.byUrl <==> Hits(events, WithPrefix(p)) > 0)
    && (forall p :: UrlsTally(Urls(c, p), events, p))
  }

  /** Every counter is the number of logged events with its key, and every key has a counter. */
  ghost predicate Counted(c: Counts, events: seq<Event>) {
    c.total == |events| && CodesCount(c, events) && UrlsCount(c, events)
  }

  ghost function Sum<K>(m: map<K, int>): int {
    if m == map[] then 0
    else
      var k :| k in m;
      m[k] + Sum(m - {k})
  }

  ghost function Sums<K>(m: map<K, map<string, int>>): int {
    if m == map[] then 0
    else
      var k :| k in m;
      Sum(m[k]) + Sums(m - {k})
  }

  lemma {:induction false} SumWithout<K>(m: map<K, int>, k: K)
    requires k in m
    ensures Sum(m) == m[k] + Sum(m - {k})
    decreases |m|
  {
    var j :| j in m && Sum(m) == m[j] + Sum(m - {j});
    if j != k {
      SumWithout(m - {j}, k);
      SumWithout(m - {k}, j);
      assert m - {j} - {k} == m - {k} - {j};
    }
  }

  lemma {:induction false} SumsWithout<K>(m: map<K, map<string, int>>, k: K)
    requires k in m
    ensures Sums(m) == Sum(m[k]) + Sums(m - {k})
    decreases |m|
  {
    var j :| j in m && Sums(m) == Sum(m[j]) + Sums(m - {j});
    if j != k {
      SumsWithout(m - {j}, k);
      SumsWithout(m - {k}, j);
      assert m - {j} - {k} == m - {k} - {j};
    }
  }

  /** One more under one key. */
  function Bumped<K>(m: map<K, int>, k: K): map<K, int> {
    m[k := if k in m then m[k] + 1 else 1]
  }

  lemma BumpedSum<K>(m: map<K, int>, k: K)
    ensures Sum(Bumped(m, k)) == Sum(m) + 1
  {
    var b := Bumped(m, k);
    SumWithout(b, k);
    assert b - {k} == m - {k};
    if k in m {
      SumWithout(m, k);
    } else {
      assert m - {k} == m;
    }
  }

  function Logged(c: Counts, e: Event): Counts {
    Counts(c.total + 1,
           Bumped(c.byCode, e.code),
           c.byUrl[e.prefix := Bumped(Urls(c, e.prefix), e.url)])
  }

  /** Logging adds one to each of the three sums. */
  lemma LoggedSums(c: Counts, e: Event)
    ensures Sum(Logged(c, e).byCode) == Sum(c.byCode) + 1
    ensures Sums(Logged(c, e).byUrl) == Sums(c.byUrl) + 1
  {
    BumpedSum(c.byCode, e.code);
    BumpedSum(Urls(c, e.prefix), e.url);
    var after := Logged(c, e).byUrl;
    SumsWithout(after, e.prefix);
    assert after - {e.prefix} == c.byUrl - {e.prefix};
    if e.prefix in c.byUrl {
      SumsWithout(c.byUrl, e.prefix);
    } else {
      assert c.byUrl - {e.prefix} == c.byUrl;
    }
  }

  lemma HitsMore(events: seq<Event>, e: Event, p: Event -> bool)
    ensures Hits(events + [e], p) == Hits(events, p) + (if p(e) then 1 else 0)
  {
    assert (events + [e])[..|events|] == events;
  }

  lemma LoggedCodes(c: Counts, events: seq<Event>, e: Event)
    requires CodesCount(c, events)
    ensures CodesCount(Logged(c, e), events + [e])
  {
    forall k ensures Hits(events + [e], WithCode(k)) == Hits(events, WithCode(k)) + (if k == e.code then 1 else 0) {
      HitsMore(events, e, WithCode(k));
    }
  }

  lemma LoggedTally(m: map<string, int>, events: seq<Event>, prefix: string, e: Event)
    requires UrlsTally(m, events, prefix)
    ensures UrlsTally(if prefix == e.prefix then Bumped(m, e.url) else m, events + [e], prefix)
  {
    forall u ensures Hits(events + [e], WithUrl(prefix, u)) ==
                     Hits(events, WithUrl(prefix, u)) + (if prefix == e.prefix && u == e.url then 1 else 0) {
      HitsMore(events, e, WithUrl(prefix, u));
    }
  }

  lemma LoggedUrls(c: Counts, events: seq<Event>, e: Event)
    requires UrlsCount(c, events)
    ensures UrlsCount(Logged(c, e), events + [e])
  {
    forall p ensures p in Logged(c, e).byUrl <==> Hits(events + [e], WithPrefix(p)) > 0 {
      HitsMore(events, e, WithPrefix(p));
    }
    forall p ensures UrlsTally(Urls(Logged(c, e), p), events + [e], p) {
      LoggedTally(Urls(c, p), events, p, e);
    }
  }

  // ---------------------------------------------------------------- the order of events

  lemma {:induction false} HitsJoin(a: seq<Event>, b: seq<Event>, p: Event -> bool)
    ensures Hits(a + b, p) == Hits(a, p) + Hits(b, p)
    decreases |b|
  {
    if b == [] {
      assert a + b == a;
    } else {
      var n := |b| - 1;
      assert a + b == (a + b[..n]) + [b[n]];
      HitsMore(a + b[..n], b[n], p);
      HitsJoin(a, b[..n], p);
    }
  }

  function Without(b: seq<Event>, i: nat): seq<Event>
    requires i < |b|
  {
    b[..i] + b[i + 1..]
  }

  lemma HitsAround(x: seq<Event>, e: Event, y: seq<Event>, p: Event -> bool)
    ensures Hits((x + [e]) + y, p) == Hits(x + y, p) + (if p(e) then 1 else 0)
  {
    HitsJoin(x + [e], y, p);
    HitsMore(x, e, p);
    HitsJoin(x, y, p);
  }

  lemma TakenApart(b: seq<Event>, i: nat)
    requires i < |b|
    ensures b == (b[..i] + [b[i]]) + b[i + 1..]
  {
  }

  lemma HitsWithout(b: seq<Event>, i: nat, p: Event -> bool)
    requires i < |b|
    ensures Hits(b, p) == Hits(Without(b, i), p) + (if p(b[i]) then 1 else 0)
  {
    TakenApart(b, i);
    HitsAround(b[..i], b[i], b[i + 1..], p);
  }

  lemma MembersWithout(b: seq<Event>, i: nat)
    requires i < |b|
    ensures multiset(Without(b, i)) == multiset(b) - multiset{b[i]}
  {
    TakenApart(b, i);
  }

  lemma SameLength(a: seq<Event>, b: seq<Event>)
    requires multiset(a) == multiset(b)
    ensures |a| == |b|
  {
    assert |multiset(a)| == |a| && |multiset(b)| == |b|;
  }

  lemma {:induction false} HitsOfOrder(a: seq<Event>, b: seq<Event>, p: Event -> bool)
    requires multiset(a) == multiset(b)
    ensures Hits(a, p) == Hits(b, p)
    decreases |a|
  {
    SameLength(a, b);
    if a != [] {
      var n := |a| - 1;
      assert a[n] in multiset(b);
      var i :| 0 <= i < |b| && b[i] == a[n];
      HitsWithout(a, n, p);
      HitsWithout(b, i, p);
      MembersWithout(a, n);
      MembersWithout(b, i);
      HitsOfOrder(Without(a, n), Without(b, i), p);
    }
  }

  lemma SameCodes(c: Counts, d: Counts, a: seq<Event>, b: seq<Event>)
    requires CodesCount(c, a) && CodesCount(d, b)
    requires forall p: Event -> bool :: Hits(a, p) == Hits(b, p)
    ensures c.byCode == d.byCode
  {
    forall k | k in c.byCode || k in d.byCode ensures k in c.byCode && k in d.byCode && c.byCode[k] == d.byCode[k] {
      assert Hits(a, WithCode(k)) == Hits(b, WithCode(k));
    }
  }

  lemma SameTallies(m: map<string, int>, n: map<string, int>, a: seq<Event>, b: seq<Event>, prefix: string)
    requires UrlsTally(m, a, prefix) && UrlsTally(n, b, prefix)
    requires forall p: Event -> bool :: Hits(a, p) == Hits(b, p)
    ensures m == n
  {
    forall u ensures Hits(a, WithUrl(prefix, u)) == Hits(b, WithUrl(prefix, u)) {
    }
  }

  lemma SameUrls(c: Counts, d: Counts, a: seq<Event>, b: seq<Event>)
    requires UrlsCount(c, a) && UrlsCount(d, b)
    requires forall p: Event -> bool :: Hits(a, p) == Hits(b, p)
    ensures c.byUrl == d.byUrl
  {
    forall p | p in c.byUrl ensures p in d.byUrl && c.byUrl[p] == d.byUrl[p] {
      assert Hits(a, WithPrefix(p)) == Hits(b, WithPrefix(p));
      SameTallies(Urls(c, p), Urls(d, p), a, b, p);
    }
    forall p | p in d.byUrl ensures p in c.byUrl {
      assert Hits(a, WithPrefix(p)) == Hits(b, WithPrefix(p));
    }
  }

  /** The counters depend only on which events were logged, not on their order. */
  lemma SameCounts(c: Counts, d: Counts, a: seq<Event>, b: seq<Event>)
    requires Counted(c, a) && Counted(d, b) && multiset(a) == multiset(b)
    ensures c == d
  {
    SameLength(a, b);
    forall p: Event -> bool ensures Hits(a, p) == Hits(b, p) {
      HitsOfOrder(a, b, p);
    }
    SameCodes(c, d, a, b);
    SameUrls(c, d, a, b);
  }

  // ---------------------------------------------------------------- the counters in place

  /** The part of a server's status that its lock protects. */
  class Status {
    var totalRequests: int
    var responseCountByCode: map<int, int>
    var requestCountByUrl: map<string, map<string, int>>

    function Shared(): Counts
      reads this
    {
      Counts(totalRequests, responseCountByCode, requestCountByUrl)
    }

    constructor ()
      ensures Shared() == NOTHING
    {
      totalRequests, responseCountByCode, requestCountByUrl := 0, map[], map[];
    }

    method LogRequest(prefix: string, url: string, responseCode: int)
      modifies this
      ensures Shared() == Logged(old(Shared()), Event(prefix, url, responseCode))
    {
      if responseCode !in responseCountByCode {
        responseCountByCode := responseCountByCode[responseCode := 1];
      } else {
        responseCountByCode := responseCountByCode[responseCode := responseCountByCode[responseCode] + 1];
      }
      if prefix !in requestCountByUrl {
        requestCountByUrl := requestCountByUrl[prefix := map[url := 1]];
      } else {
        var urls := requestCountByUrl[prefix];
        if url !in urls {
          urls := urls[url := 1];
        } else {
          urls := urls[url := urls[url] + 1];
        }
        requestCountByUrl := requestCountByUrl[prefix := urls];
      }
      totalRequests := totalRequests + 1;
    }

    method GetSnapshot() returns (snapshot: Counts)
      ensures snapshot == Shared()
    {
      snapshot := Counts(totalRequests, responseCountByCode, requestCountByUrl);
    }
  }
}

/**
 * The two aggregation queries of the hit repository. Both keep the hits whose
 * timestamp lies in the inclusive window and, when a URI list is given, whose
 * uri is in it; group them by (app, uri); give each group its number of hits
 * (all of them, or its distinct IPs); and order the rows by that number,
 * largest first.
 */
module StatsQueries {
  import opened Wrappers
  import opened Hits

  /** The query parameters: the inclusive window and the optional URI list. */
  datatype Criteria = Criteria(start: int, end: int, uris: Option<seq<string>>)

  /** The grouping key. */
  type Key = (string, string)

  function KeyOf(h: EndpointHit): Key {
    (h.app, h.uri)
  }

  function RowKey(v: ViewStats): Key {
    (v.app, v.uri)
  }

  /**
   * The WHERE clause: the timestamp lies between start and end, both
   * included, and a missing URI list admits every uri. A URI list that is
   * present but empty admits none.
   */
  predicate Matches(h: EndpointHit, q: Criteria)
    ensures Matches(h, q) ==> q.start <= q.end
    ensures q.uris == Some([]) ==> !Matches(h, q)
  {
    && q.start <= h.timestamp <= q.end
    && (q.uris.None? || h.uri in q.uris.value)
  }

  /** The number of matching hits. */
  function MatchCount(hits: seq<EndpointHit>, q: Criteria): (n: nat)
    ensures n <= |hits|
    ensures q.start > q.end ==> n == 0
  {
    if hits == [] then 0 else (if Matches(hits[0], q) then 1 else 0) + MatchCount(hits[1..], q)
  }

  /** `COUNT(e.ip)` of group `k`: the number of matching hits with that key. */
  function Count(hits: seq<EndpointHit>, q: Criteria, k: Key): (n: nat)
    ensures n <= MatchCount(hits, q)
  {
    if hits == [] then 0
    else (if Matches(hits[0], q) && KeyOf(hits[0]) == k then 1 else 0) + Count(hits[1..], q, k)
  }

  /** The IPs of group `k`; `COUNT(DISTINCT e.ip)` is its size. */
  function Ips(hits: seq<EndpointHit>, q: Criteria, k: Key): (ips: set<string>)
    ensures Count(hits, q, k) == 0 ==> ips == {}
  {
    if hits == [] then {}
    else (if Matches(hits[0], q) && KeyOf(hits[0]) == k then {hits[0].ip} else {}) + Ips(hits[1..], q, k)
  }

  /** Hit `i` is counted in group `k`. */
  predicate CountedAt(hits: seq<EndpointHit>, q: Criteria, k: Key, i: int)
    requires 0 <= i < |hits|
  {
    Matches(hits[i], q) && KeyOf(hits[i]) == k
  }

  /** A group is non-empty exactly when some matching hit carries its key. */
  lemma {:induction false} CountPositiveIffWitness(hits: seq<EndpointHit>, q: Criteria, k: Key)
    ensures Count(hits, q, k) > 0 <==> exists i :: 0 <= i < |hits| && CountedAt(hits, q, k, i)
  {
    if hits != [] {
      CountPositiveIffWitness(hits[1..], q, k);
      if Matches(hits[0], q) && KeyOf(hits[0]) == k {
        assert CountedAt(hits, q, k, 0);
      }
      if exists i :: 0 <= i < |hits| && CountedAt(hits, q, k, i) {
        var i :| 0 <= i < |hits| && CountedAt(hits, q, k, i);
        if i > 0 {
          assert CountedAt(hits[1..], q, k, i - 1);
        }
      }
      if exists i :: 0 <= i < |hits[1..]| && CountedAt(hits[1..], q, k, i) {
        var i :| 0 <= i < |hits[1..]| && CountedAt(hits[1..], q, k, i);
        assert CountedAt(hits, q, k, i + 1);
      }
    }
  }

  /** An IP is in a group's IP set exactly when some matching hit of that group came from it. */
  lemma {:induction false} IpsMembership(hits: seq<EndpointHit>, q: Criteria, k: Key, ip: string)
    ensures ip in Ips(hits, q, k) <==> exists i :: 0 <= i < |hits| && CountedAt(hits, q, k, i) && hits[i].ip == ip
  {
    if hits != [] {
      IpsMembership(hits[1..], q, k, ip);
      if exists i :: 0 <= i < |hits| && CountedAt(hits, q, k, i) && hits[i].ip == ip {
        var i :| 0 <= i < |hits| && CountedAt(hits, q, k, i) && hits[i].ip == ip;
        if i > 0 {
          assert CountedAt(hits[1..], q, k, i - 1) && hits[1..][i - 1].ip == ip;
        }
      }
      if exists i :: 0 <= i < |hits[1..]| && CountedAt(hits[1..], q, k, i) && hits[1..][i].ip == ip {
        var i :| 0 <= i < |hits[1..]| && CountedAt(hits[1..], q, k, i) && hits[1..][i].ip == ip;
        assert CountedAt(hits, q, k, i + 1) && hits[i + 1].ip == ip;
      }
    }
  }

  /** A group has at most as many distinct IPs as hits, and at least one IP when it has a hit. */
  lemma {:induction false} DistinctIpsAtMostCount(hits: seq<EndpointHit>, q: Criteria, k: Key)
    ensures |Ips(hits, q, k)| <= Count(hits, q, k)
    ensures Count(hits, q, k) > 0 ==> |Ips(hits, q, k)| > 0
  {
    if hits != [] {
      DistinctIpsAtMostCount(hits[1..], q, k);
      var rest := Ips(hits[1..], q, k);
      if Matches(hits[0], q) && KeyOf(hits[0]) == k {
        assert Ips(hits, q, k) == {hits[0].ip} + rest;
        if hits[0].ip in rest {
          assert {hits[0].ip} + rest == rest;
        } else {
          assert |{hits[0].ip} + rest| == |rest| + 1;
        }
      } else {
        assert Ips(hits, q, k) == rest;
      }
    }
  }

  /** No two entries of `ks` are equal. */
  predicate DistinctKeys(ks: seq<Key>) {
    forall i, j :: 0 <= i < j < |ks| ==> ks[i] != ks[j]
  }

  /** `GROUP BY e.app, e.uri`: the keys of the matching hits, each once. */
  function Groups(hits: seq<EndpointHit>, q: Criteria): (ks: seq<Key>)
    ensures DistinctKeys(ks)
    ensures forall k :: k in ks <==> Count(hits, q, k) > 0
  {
    if hits == [] then []
    else
      var rest := Groups(hits[1..], q);
      if Matches(hits[0], q) && KeyOf(hits[0]) !in rest then [KeyOf(hits[0])] + rest else rest
  }

  /** The hits a row of group `k` carries: its distinct IPs, or all its hits. */
  function Measure(hits: seq<EndpointHit>, q: Criteria, k: Key, distinctIps: bool): nat {
    if distinctIps then |Ips(hits, q, k)| else Count(hits, q, k)
  }

  /** The aggregated row of group `k`. */
  function Row(hits: seq<EndpointHit>, q: Criteria, k: Key, distinctIps: bool): ViewStats {
    ViewStats(k.0, k.1, Measure(hits, q, k, distinctIps))
  }

  /** One row per key of `ks`, in that order. */
  function Rows(hits: seq<EndpointHit>, q: Criteria, ks: seq<Key>, distinctIps: bool): (rows: seq<ViewStats>)
    ensures |rows| == |ks|
    ensures forall i :: 0 <= i < |ks| ==> RowKey(rows[i]) == ks[i] && rows[i].hits == Measure(hits, q, ks[i], distinctIps)
  {
    if ks == [] then [] else [Row(hits, q, ks[0], distinctIps)] + Rows(hits, q, ks[1..], distinctIps)
  }

  // -------------------------------------------------------------- ordering

  /** Rows ordered by hits, largest first. */
  predicate SortedByHits(rows: seq<ViewStats>) {
    forall i, j :: 0 <= i < j < |rows| ==> rows[i].hits >= rows[j].hits
  }

  /** No two rows share an (app, uri) pair. */
  predicate OneRowPerKey(rows: seq<ViewStats>) {
    forall i, j :: 0 <= i < j < |rows| ==> RowKey(rows[i]) != RowKey(rows[j])
  }

  /** The sum of the hits column. */
  function TotalHits(rows: seq<ViewStats>): nat {
    if rows == [] then 0 else rows[0].hits + TotalHits(rows[1..])
  }

  /** Places `x` into rows already ordered by hits, ahead of the rows it ties with. */
  function Insert(x: ViewStats, rows: seq<ViewStats>): (r: seq<ViewStats>)
    ensures multiset(r) == multiset(rows) + multiset{x}
    ensures |r| == |rows| + 1
    ensures r[0] == x || (rows != [] && r[0] == rows[0])
  {
    if rows == [] || x.hits >= rows[0].hits then [x] + rows
    else
      assert rows == [rows[0]] + rows[1..];
      [rows[0]] + Insert(x, rows[1..])
  }

  /** Inserting into ordered rows keeps them ordered. */
  lemma {:induction false} InsertKeepsOrder(x: ViewStats, rows: seq<ViewStats>)
    requires SortedByHits(rows)
    ensures SortedByHits(Insert(x, rows))
  {
    if rows != [] && x.hits < rows[0].hits {
      var t := Insert(x, rows[1..]);
      InsertKeepsOrder(x, rows[1..]);
      assert Insert(x, rows) == [rows[0]] + t;
      assert rows[0].hits >= t[0].hits;
    }
  }

  /** `ORDER BY … DESC`: the rows rearranged so that hits never increase. */
  function SortByHits(rows: seq<ViewStats>): (r: seq<ViewStats>)
    ensures SortedByHits(r)
    ensures multiset(r) == multiset(rows)
  {
    if rows == [] then []
    else
      assert rows == [rows[0]] + rows[1..];
      InsertKeepsOrder(rows[0], SortByHits(rows[1..]));
      Insert(rows[0], SortByHits(rows[1..]))
  }

  /** A rearrangement holds the same rows. */
  lemma SameRows(a: seq<ViewStats>, b: seq<ViewStats>)
    requires multiset(a) == multiset(b)
    ensures forall v :: v in a <==> v in b
  {
    forall v
      ensures v in a <==> v in b
    {
      assert v in a <==> v in multiset(a);
      assert v in b <==> v in multiset(b);
    }
  }

  /** Inserting a row whose key is new keeps one row per key. */
  lemma {:induction false} InsertKeepsOneRowPerKey(x: ViewStats, rows: seq<ViewStats>)
    requires OneRowPerKey(rows)
    requires forall i :: 0 <= i < |rows| ==> RowKey(rows[i]) != RowKey(x)
    ensures OneRowPerKey(Insert(x, rows))
  {
    if rows != [] && x.hits < rows[0].hits {
      var tail := rows[1..];
      assert OneRowPerKey(tail) by {
        forall i, j | 0 <= i < j < |tail|
          ensures RowKey(tail[i]) != RowKey(tail[j])
        {
          assert tail[i] == rows[i + 1] && tail[j] == rows[j + 1];
        }
      }
      InsertKeepsOneRowPerKey(x, tail);
      var t := Insert(x, tail);
      SameRows(t, tail + [x]);
      forall j | 0 <= j < |t|
        ensures RowKey(rows[0]) != RowKey(t[j])
      {
        assert t[j] in tail + [x];
        if t[j] != x {
          var m :| 0 <= m < |tail| && tail[m] == t[j];
          assert rows[m + 1] == t[j];
        }
      }
      var r := Insert(x, rows);
      assert r == [rows[0]] + t;
      forall i, j | 0 <= i < j < |r|
        ensures RowKey(r[i]) != RowKey(r[j])
      {
        assert r[j] == t[j - 1];
        if i > 0 {
          assert r[i] == t[i - 1];
        }
      }
    }
  }

  /** Sorting a table with one row per key keeps one row per key. */
  lemma {:induction false} SortKeepsOneRowPerKey(rows: seq<ViewStats>)
    requires OneRowPerKey(rows)
    ensures OneRowPerKey(SortByHits(rows))
  {
    if rows != [] {
      var tail := rows[1..];
      assert OneRowPerKey(tail) by {
        forall i, j | 0 <= i < j < |tail|
          ensures RowKey(tail[i]) != RowKey(tail[j])
        {
          assert tail[i] == rows[i + 1] && tail[j] == rows[j + 1];
        }
      }
      SortKeepsOneRowPerKey(tail);
      var s := SortByHits(tail);
      SameRows(s, tail);
      forall i | 0 <= i < |s|
        ensures RowKey(s[i]) != RowKey(rows[0])
      {
        assert s[i] in tail;
        var m :| 0 <= m < |tail| && tail[m] == s[i];
        assert rows[m + 1] == s[i];
      }
      InsertKeepsOneRowPerKey(rows[0], s);
    }
  }

  /** Inserting a row adds its hits to the total. */
  lemma {:induction false} InsertTotal(x: ViewStats, rows: seq<ViewStats>)
    ensures TotalHits(Insert(x, rows)) == x.hits + TotalHits(rows)
  {
    if rows != [] && x.hits < rows[0].hits {
      InsertTotal(x, rows[1..]);
      assert Insert(x, rows)[1..] == Insert(x, rows[1..]);
    } else {
      assert ([x] + rows)[1..] == rows;
    }
  }

  /** Sorting does not change the total. */
  lemma {:induction false} SortTotal(rows: seq<ViewStats>)
    ensures TotalHits(SortByHits(rows)) == TotalHits(rows)
  {
    if rows != [] {
      SortTotal(rows[1..]);
      InsertTotal(rows[0], SortByHits(rows[1..]));
    }
  }

  // ------------------------------------------------------ sum of the groups

  /** How often `k` occurs in `ks`. */
  function Occurrences(ks: seq<Key>, k: Key): nat {
    if ks == [] then 0 else (if ks[0] == k then 1 else 0) + Occurrences(ks[1..], k)
  }

  lemma {:induction false} OccurrencesOfDistinct(ks: seq<Key>, k: Key)
    requires DistinctKeys(ks)
    ensures Occurrences(ks, k) == if k in ks then 1 else 0
  {
    if ks != [] {
      assert DistinctKeys(ks[1..]) by {
        forall i, j | 0 <= i < j < |ks[1..]|
          ensures ks[1..][i] != ks[1..][j]
        {
          assert ks[1..][i] == ks[i + 1] && ks[1..][j] == ks[j + 1];
        }
      }
      OccurrencesOfDistinct(ks[1..], k);
      if ks[0] == k {
        assert k !in ks[1..] by {
          forall m | 0 <= m < |ks[1..]|
            ensures ks[1..][m] != k
          {
            assert ks[1..][m] == ks[m + 1];
          }
        }
      } else {
        assert k in ks <==> k in ks[1..] by {
          assert ks == [ks[0]] + ks[1..];
        }
      }
    }
  }

  /** The total of the `COUNT(e.ip)` values of the groups `ks`. */
  function SumCounts(hits: seq<EndpointHit>, q: Criteria, ks: seq<Key>): nat {
    if ks == [] then 0 else Count(hits, q, ks[0]) + SumCounts(hits, q, ks[1..])
  }

  /** Peeling the first hit off: it adds one to every occurrence of its key among `ks`. */
  lemma {:induction false} SumCountsFirstHit(hits: seq<EndpointHit>, q: Criteria, ks: seq<Key>)
    requires hits != []
    ensures SumCounts(hits, q, ks) ==
              SumCounts(hits[1..], q, ks) + (if Matches(hits[0], q) then Occurrences(ks, KeyOf(hits[0])) else 0)
  {
    if ks != [] {
      SumCountsFirstHit(hits, q, ks[1..]);
    }
  }

  /** The groups' counts add up to the number of matching hits. */
  lemma {:induction false} GroupsSumToMatchCount(hits: seq<EndpointHit>, q: Criteria)
    ensures SumCounts(hits, q, Groups(hits, q)) == MatchCount(hits, q)
  {
    if hits != [] {
      var t := hits[1..];
      var ks := Groups(t, q);
      var k := KeyOf(hits[0]);
      GroupsSumToMatchCount(t, q);
      OccurrencesOfDistinct(ks, k);
      SumCountsFirstHit(hits, q, ks);
      if Matches(hits[0], q) && k !in ks {
        assert Groups(hits, q) == [k] + ks;
        assert Count(t, q, k) == 0;
        assert ([k] + ks)[1..] == ks;
      }
    }
  }

  /** The rows of the groups `ks` carry the groups' counts in total. */
  lemma {:induction false} RowsTotal(hits: seq<EndpointHit>, q: Criteria, ks: seq<Key>)
    ensures TotalHits(Rows(hits, q, ks, false)) == SumCounts(hits, q, ks)
  {
    if ks != [] {
      RowsTotal(hits, q, ks[1..]);
      assert Rows(hits, q, ks, false)[1..] == Rows(hits, q, ks[1..], false);
    }
  }

  // ---------------------------------------------------------------- queries

  /**
   * The aggregation both queries share: one row per group of the matching
   * hits, carrying its measure (all hits, or distinct IPs), ordered by it,
   * largest first.
   */
  function Aggregate(hits: seq<EndpointHit>, q: Criteria, distinctIps: bool): (r: seq<ViewStats>)
    ensures SortedByHits(r)
    ensures OneRowPerKey(r)
    ensures forall i :: 0 <= i < |r| ==> Count(hits, q, RowKey(r[i])) > 0
    ensures forall i :: 0 <= i < |r| ==> r[i].hits == Measure(hits, q, RowKey(r[i]), distinctIps)
    ensures forall k :: Count(hits, q, k) > 0 ==> exists i :: 0 <= i < |r| && RowKey(r[i]) == k
  {
    var rows := Rows(hits, q, Groups(hits, q), distinctIps);
    SortedRowsDescribeGroups(hits, q, distinctIps, rows, SortByHits(rows));
    SortedRowsCoverGroups(hits, q, distinctIps, rows, SortByHits(rows));
    SortByHits(rows)
  }

  /** The rows of the groups, once sorted, still hold one row per group carrying its measure. */
  lemma SortedRowsDescribeGroups(hits: seq<EndpointHit>, q: Criteria, distinctIps: bool,
                                 rows: seq<ViewStats>, r: seq<ViewStats>)
    requires rows == Rows(hits, q, Groups(hits, q), distinctIps)
    requires r == SortByHits(rows)
    ensures OneRowPerKey(r)
    ensures forall i :: 0 <= i < |r| ==> Count(hits, q, RowKey(r[i])) > 0
    ensures forall i :: 0 <= i < |r| ==> r[i].hits == Measure(hits, q, RowKey(r[i]), distinctIps)
  {
    var ks := Groups(hits, q);
    assert OneRowPerKey(rows) by {
      forall i, j | 0 <= i < j < |rows|
        ensures RowKey(rows[i]) != RowKey(rows[j])
      {
        assert RowKey(rows[i]) == ks[i] && RowKey(rows[j]) == ks[j];
      }
    }
    SortKeepsOneRowPerKey(rows);
    SameRows(r, rows);
    forall i | 0 <= i < |r|
      ensures Count(hits, q, RowKey(r[i])) > 0 && r[i].hits == Measure(hits, q, RowKey(r[i]), distinctIps)
    {
      assert r[i] in rows;
      var m :| 0 <= m < |rows| && rows[m] == r[i];
      assert ks[m] in ks;
    }
  }

  /** Every group with a matching hit still has a row once the rows are sorted. */
  lemma SortedRowsCoverGroups(hits: seq<EndpointHit>, q: Criteria, distinctIps: bool,
                              rows: seq<ViewStats>, r: seq<ViewStats>)
    requires rows == Rows(hits, q, Groups(hits, q), distinctIps)
    requires r == SortByHits(rows)
    ensures forall k :: Count(hits, q, k) > 0 ==> exists i :: 0 <= i < |r| && RowKey(r[i]) == k
  {
    var ks := Groups(hits, q);
    ReorderedRowsKeepKeys(ks, rows, r);
  }

  /** Rows that carry the keys `ks`, in any order, still carry every key of `ks`. */
  lemma ReorderedRowsKeepKeys(ks: seq<Key>, rows: seq<ViewStats>, r: seq<ViewStats>)
    requires |rows| == |ks|
    requires forall m :: 0 <= m < |ks| ==> RowKey(rows[m]) == ks[m]
    requires multiset(r) == multiset(rows)
    ensures forall k :: k in ks ==> exists i :: 0 <= i < |r| && RowKey(r[i]) == k
  {
    SameRows(r, rows);
    forall k | k in ks
      ensures exists i :: 0 <= i < |r| && RowKey(r[i]) == k
    {
      var m :| 0 <= m < |ks| && ks[m] == k;
      assert rows[m] in r;
      var i :| 0 <= i < |r| && r[i] == rows[m];
      assert RowKey(r[i]) == k;
    }
  }

  /** `findStats`: every group's row carries its number of matching hits. */
  function FindStats(hits: seq<EndpointHit>, start: int, end: int, uris: Option<seq<string>>): (r: seq<ViewStats>)
    ensures SortedByHits(r)
    ensures OneRowPerKey(r)
    ensures forall i :: 0 <= i < |r| ==> r[i].hits >= 1
    ensures forall i :: 0 <= i < |r| ==> r[i].hits == Count(hits, Criteria(start, end, uris), RowKey(r[i]))
    ensures forall k :: Count(hits, Criteria(start, end, uris), k) > 0 ==> exists i :: 0 <= i < |r| && RowKey(r[i]) == k
    ensures TotalHits(r) == MatchCount(hits, Criteria(start, end, uris))
  {
    var q := Criteria(start, end, uris);
    var ks := Groups(hits, q);
    SortTotal(Rows(hits, q, ks, false));
    RowsTotal(hits, q, ks);
    GroupsSumToMatchCount(hits, q);
    Aggregate(hits, q, false)
  }

  /** `findStatsUnique`: every group's row carries its number of distinct IPs. */
  function FindStatsUnique(hits: seq<EndpointHit>, start: int, end: int, uris: Option<seq<string>>)
    : (r: seq<ViewStats>)
    ensures SortedByHits(r)
    ensures OneRowPerKey(r)
    ensures forall i :: 0 <= i < |r| ==> 1 <= r[i].hits <= Count(hits, Criteria(start, end, uris), RowKey(r[i]))
    ensures forall i :: 0 <= i < |r| ==> r[i].hits == |Ips(hits, Criteria(start, end, uris), RowKey(r[i]))|
    ensures forall k :: Count(hits, Criteria(start, end, uris), k) > 0 ==> exists i :: 0 <= i < |r| && RowKey(r[i]) == k
  {
    var q := Criteria(start, end, uris);
    var r := Aggregate(hits, q, true);
    assert forall i :: 0 <= i < |r| ==> 1 <= r[i].hits <= Count(hits, q, RowKey(r[i])) by {
      forall i | 0 <= i < |r|
        ensures 1 <= r[i].hits <= Count(hits, q, RowKey(r[i]))
      {
        DistinctIpsAtMostCount(hits, q, RowKey(r[i]));
      }
    }
    r
  }

  /** Both queries report the same groups, and no group has more distinct IPs than hits. */
  lemma UniqueAtMostTotal(hits: seq<EndpointHit>, start: int, end: int, uris: Option<seq<string>>)
    ensures var total := FindStats(hits, start, end, uris);
            var unique := FindStatsUnique(hits, start, end, uris);
            && |unique| == |total|
            && forall i, j :: 0 <= i < |unique| && 0 <= j < |total| && RowKey(unique[i]) == RowKey(total[j]) ==>
                 unique[i].hits <= total[j].hits
  {
    var q := Criteria(start, end, uris);
    var ks := Groups(hits, q);
    assert |SortByHits(Rows(hits, q, ks, true))| == |ks| by {
      assert |multiset(SortByHits(Rows(hits, q, ks, true)))| == |multiset(Rows(hits, q, ks, true))|;
    }
    assert |SortByHits(Rows(hits, q, ks, false))| == |ks| by {
      assert |multiset(SortByHits(Rows(hits, q, ks, false)))| == |multiset(Rows(hits, q, ks, false))|;
    }
  }

  /**
   * Both ends of the window count: a hit stamped exactly at `start` or at
   * `end` (and with an admitted uri) adds one to its group, while a hit
   * stamped outside the window adds nothing.
   */
  lemma WindowIsInclusive(hits: seq<EndpointHit>, h: EndpointHit, q: Criteria)
    requires q.uris.None? || h.uri in q.uris.value
    ensures h.timestamp == q.start <= q.end || q.start <= q.end == h.timestamp ==>
              Count(hits + [h], q, KeyOf(h)) == Count(hits, q, KeyOf(h)) + 1
    ensures h.timestamp < q.start || h.timestamp > q.end ==>
              Count(hits + [h], q, KeyOf(h)) == Count(hits, q, KeyOf(h))
  {
    AppendedHitCounts(hits, h, q, KeyOf(h));
  }

  /** A present but empty URI list admits no hit, so both queries return nothing. */
  lemma {:induction false} EmptyUriListMatchesNothing(hits: seq<EndpointHit>, start: int, end: int)
    ensures FindStats(hits, start, end, Some([])) == []
    ensures FindStatsUnique(hits, start, end, Some([])) == []
  {
    var q := Criteria(start, end, Some([]));
    var r := FindStats(hits, start, end, Some([]));
    if r != [] {
      assert Count(hits, q, RowKey(r[0])) > 0;
      NoMatchNoCount(hits, q, RowKey(r[0]));
    }
  }

  /** With an empty URI list no group has a hit. */
  lemma {:induction false} NoMatchNoCount(hits: seq<EndpointHit>, q: Criteria, k: Key)
    requires q.uris == Some([])
    ensures Count(hits, q, k) == 0
  {
    if hits != [] {
      NoMatchNoCount(hits[1..], q, k);
    }
  }

  /** A hit stored after the others adds exactly one to its group's count when it matches. */
  lemma {:induction false} AppendedHitCounts(hits: seq<EndpointHit>, h: EndpointHit, q: Criteria, k: Key)
    ensures Count(hits + [h], q, k) == Count(hits, q, k) + (if Matches(h, q) && KeyOf(h) == k then 1 else 0)
    ensures Ips(hits + [h], q, k) == Ips(hits, q, k) + (if Matches(h, q) && KeyOf(h) == k then {h.ip} else {})
  {
    if hits == [] {
      assert [h][1..] == [];
    } else {
      AppendedHitCounts(hits[1..], h, q, k);
      assert (hits + [h])[1..] == hits[1..] + [h];
    }
  }

  /**
   * The same hit stored twice is counted twice by `findStats`, and once by
   * `findStatsUnique`: storing does not de-duplicate, the distinct count does.
   */
  lemma DuplicateHitCountsTwiceNotUnique(hits: seq<EndpointHit>, h: EndpointHit, q: Criteria)
    requires Matches(h, q)
    ensures Count(hits + [h] + [h], q, KeyOf(h)) == Count(hits, q, KeyOf(h)) + 2
    ensures Ips(hits + [h] + [h], q, KeyOf(h)) == Ips(hits + [h], q, KeyOf(h))
  {
    AppendedHitCounts(hits, h, q, KeyOf(h));
    AppendedHitCounts(hits + [h], h, q, KeyOf(h));
  }
}

/** The statistics service: the hit table, the write path and the dispatch between the two queries. */
module StatsServices {
  import opened Wrappers
  import opened Hits
  import opened StatsMapper
  import opened StatsQueries

  class StatsService {
    /** The hit table, in insertion order. */
    var hits: seq<EndpointHit>
    /** The id the table's identity column hands out next. */
    var nextId: int

    /** Every stored hit has an id, below the next one and unique. */
    ghost predicate Valid()
      reads this
    {
      && nextId >= 1
      && (forall i :: 0 <= i < |hits| ==> hits[i].id.Some? && 1 <= hits[i].id.value < nextId)
      && (forall i, j :: 0 <= i < j < |hits| ==> hits[i].id.value < hits[j].id.value)
    }

    constructor ()
      ensures Valid()
      ensures hits == []
    {
      hits := [];
      nextId := 1;
    }

    /**
     * `saveHit`: the request body is mapped to an entity and stored as one new
     * row under a fresh id; the rows already stored are untouched, and an
     * identical body stored again makes a second row.
     */
    method SaveHit(dto: EndpointHitDto)
      requires Valid()
      modifies this
      ensures Valid()
      ensures |hits| == |old(hits)| + 1
      ensures hits[..|old(hits)|] == old(hits)
      ensures hits[|old(hits)|] == ToEntity(dto).(id := Some(old(nextId)))
      ensures nextId == old(nextId) + 1
    {
      var e := ToEntity(dto);
      hits := hits + [e.(id := Some(nextId))];
      nextId := nextId + 1;
    }

    /**
     * `getStats`: with `unique` exactly true every row counts its distinct
     * IPs, with false or null it counts all its hits. The table is only read.
     */
    function GetStats(start: int, end: int, uris: Option<seq<string>>, unique: Option<bool>): (r: seq<ViewStats>)
      reads this
      ensures SortedByHits(r)
      ensures OneRowPerKey(r)
      ensures forall i :: 0 <= i < |r| ==>
                r[i].hits == Measure(hits, Criteria(start, end, uris), RowKey(r[i]), unique == Some(true))
      ensures forall i :: 0 <= i < |r| ==> r[i].hits >= 1 && Count(hits, Criteria(start, end, uris), RowKey(r[i])) > 0
      ensures forall k :: Count(hits, Criteria(start, end, uris), k) > 0 ==>
                exists i :: 0 <= i < |r| && RowKey(r[i]) == k
      ensures unique != Some(true) ==> TotalHits(r) == MatchCount(hits, Criteria(start, end, uris))
    {
      if unique == Some(true) then FindStatsUnique(hits, start, end, uris) else FindStats(hits, start, end, uris)
    }
  }
}

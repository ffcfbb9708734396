/** The statistics endpoints: `POST /hit` forwards to the service, `GET /stats` guards the window first. */
module StatsApi {
  import opened Wrappers
  import opened Exceptions
  import opened Hits
  import opened StatsMapper
  import opened StatsQueries
  import opened StatsServices

  const BadRange := "Start date must be before end date"

  class StatsController {
    const service: StatsService

    constructor (service: StatsService)
      ensures this.service == service
    {
      this.service := service;
    }

    /** `saveHit`: the body is handed to the service once, which stores exactly one row for it. */
    method SaveHit(dto: EndpointHitDto)
      requires service.Valid()
      modifies service
      ensures service.Valid()
      ensures service.hits == old(service.hits) + [ToEntity(dto).(id := Some(old(service.nextId)))]
    {
      service.SaveHit(dto);
    }

    /**
     * `getStats`: a start strictly after the end is refused with an illegal
     * argument and the service is not asked; an equal start and end is a
     * valid one-instant window. A missing `unique` means false.
     */
    function GetStats(start: int, end: int, uris: Option<seq<string>>, unique: Option<bool>)
      : (r: Result<seq<ViewStats>, AppException>)
      reads service
      ensures r.Failure? <==> start > end
      ensures r.Failure? ==> r.error == IllegalArgumentException(BadRange)
      ensures r.Success? ==> r.value == service.GetStats(start, end, uris, Some(unique.GetOr(false)))
    {
      if start > end then Failure(IllegalArgumentException(BadRange))
      else Success(service.GetStats(start, end, uris, Some(unique.GetOr(false))))
    }

    /** A missing `unique` and an explicit false give the same answer: all hits are counted. */
    lemma MissingUniqueCountsAllHits(start: int, end: int, uris: Option<seq<string>>)
      requires start <= end
      ensures GetStats(start, end, uris, None) == GetStats(start, end, uris, Some(false))
      ensures GetStats(start, end, uris, None).value == FindStats(service.hits, start, end, uris)
    {
    }

    /** The refusal is reported as 400 Bad Request, and a window of one instant is accepted. */
    lemma RangeGuard(t: int, uris: Option<seq<string>>, unique: Option<bool>, now: int)
      ensures GetStats(t, t, uris, unique).Success?
      ensures Handle(GetStats(t + 1, t, uris, unique).error, now).status == 400
    {
    }
  }
}

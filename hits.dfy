/**
 * The records of the statistics side: one stored request (`EndpointHit`), its
 * wire form (`EndpointHitDto`) and one aggregated row (`ViewStats`).
 * Timestamps are integers (seconds on one clock).
 */
module Hits {
  import opened Wrappers

  /** A stored request; `id` is null until the table assigns one. */
  datatype EndpointHit = EndpointHit(id: Option<int>, app: string, uri: string, ip: string, timestamp: int)

  /** The request body of `POST /hit` and its response form. */
  datatype EndpointHitDto = EndpointHitDto(id: Option<int>, app: string, uri: string, ip: string, timestamp: int)

  /** One row of `GET /stats`: an (app, uri) pair and its number of hits. */
  datatype ViewStats = ViewStats(app: string, uri: string, hits: nat)
}

/** The hit mapper: both directions copy field by field; `toEntity` leaves the id to the table. */
module StatsMapper {
  import opened Wrappers
  import opened Hits

  /** `toEntity`: app, uri, ip and timestamp are copied, the id is left null. */
  function ToEntity(dto: EndpointHitDto): (e: EndpointHit)
    ensures e.id.None?
    ensures e.app == dto.app && e.uri == dto.uri && e.ip == dto.ip && e.timestamp == dto.timestamp
  {
    EndpointHit(None, dto.app, dto.uri, dto.ip, dto.timestamp)
  }

  /** `toDto`: all five fields are copied, the id included. */
  function ToDto(e: EndpointHit): (dto: EndpointHitDto)
    ensures dto.id == e.id
    ensures dto.app == e.app && dto.uri == e.uri && dto.ip == e.ip && dto.timestamp == e.timestamp
  {
    EndpointHitDto(e.id, e.app, e.uri, e.ip, e.timestamp)
  }

  /** A request body mapped to an entity and back comes back with its id cleared and nothing else changed. */
  lemma RoundTripClearsId(dto: EndpointHitDto)
    ensures ToDto(ToEntity(dto)) == dto.(id := None)
  {
  }

  /** An entity mapped to a request body and back comes back with its id cleared. */
  lemma EntityRoundTripClearsId(e: EndpointHit)
    ensures ToEntity(ToDto(e)) == e.(id := None)
  {
  }
}

/**
 * The rows the visibility queries answer with: a case, its id and its distance
 * from the caller (null when the caller has no location), and the sort keys
 * the queries order them by.
 */
module CaseRows {
  import opened Wrappers
  import opened RescueRequestModel
  import opened UserModel
  import opened Queries

  /**
   * The great-circle distance in km between (lat1, lng1) and (lat2, lng2).
   * How it is computed is not part of this model.
   */
  type Distance = (real, real, real, real) -> real

  datatype CaseRow = CaseRow(id: CaseId, request: RescueRequest, distance: Option<real>)

  /** The distance of case `c` from a caller at `loc`, or null when the caller has no location. */
  function DistanceFrom(loc: UserLocation, c: RescueRequest, dist: Distance): Option<real> {
    if HasLocation(loc) then Some(dist(loc.lat.value, loc.lng.value, c.location.lat, c.location.lng))
    else None
  }

  function CreatedKey(e: Entry<RescueRequest>): real {
    e.value.createdAt as real
  }

  /** A missing escalation time sorts before every real one. */
  function EscalatedKey(e: Entry<RescueRequest>): real {
    match e.value.escalatedAt
    case None => -1.0
    case Some(t) => t as real
  }

  function RowCreated(r: CaseRow): real {
    r.request.createdAt as real
  }

  function RowEscalated(r: CaseRow): real {
    match r.request.escalatedAt
    case None => -1.0
    case Some(t) => t as real
  }

  function RowId(r: CaseRow): real {
    r.id as real
  }

  function RowDistance(r: CaseRow): real {
    r.distance.GetOr(0.0)
  }

  /**
   * Each selected case paired with its distance from `loc`. The rows keep the
   * order of the entries, so an order by age or escalation time carries over.
   */
  function Annotate(es: seq<Entry<RescueRequest>>, loc: UserLocation, dist: Distance): (rows: seq<CaseRow>)
    ensures |rows| == |es|
    ensures forall i | 0 <= i < |es| :: rows[i] == CaseRow(es[i].id, es[i].value, DistanceFrom(loc, es[i].value, dist))
    ensures SortedLex(es, CreatedKey, IdKey) ==> SortedLex(rows, RowCreated, RowId)
    ensures SortedLex(es, EscalatedKey, IdKey) ==> SortedLex(rows, RowEscalated, RowId)
    ensures DistinctBy(es, IdKey) ==> DistinctBy(rows, RowId)
  {
    seq(|es|, i requires 0 <= i < |es| => CaseRow(es[i].id, es[i].value, DistanceFrom(loc, es[i].value, dist)))
  }

  /** A row of an annotated sequence is exactly an entry paired with its own distance. */
  lemma AnnotateMembers(es: seq<Entry<RescueRequest>>, loc: UserLocation, dist: Distance)
    ensures forall row :: row in Annotate(es, loc, dist) <==>
              Entry(row.id, row.request) in es && row.distance == DistanceFrom(loc, row.request, dist)
  {
    var rows := Annotate(es, loc, dist);
    forall row ensures row in rows <==> Entry(row.id, row.request) in es && row.distance == DistanceFrom(loc, row.request, dist) {
      if Entry(row.id, row.request) in es && row.distance == DistanceFrom(loc, row.request, dist) {
        var i :| 0 <= i < |es| && es[i] == Entry(row.id, row.request);
        assert rows[i] == row;
      }
    }
  }
}

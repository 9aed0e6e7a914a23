/**
 * The five Track routes as transitions of the table. Every route answers with a status
 * and a body; the mutating routes (and, as written, DELETE too) run the validation chain
 * first and answer 400 without touching the table when any check fails. A failing table
 * call answers 500 with a fixed message; whether a call fails is a parameter.
 */
module TrackService {
  import opened Wrappers
  import opened Json
  import opened TrackModel
  import opened Validation
  import opened Duration

  /** A track as the GET routes render it: `duration` becomes its `M:SS` text. */
  datatype TrackView = TrackView(
    trackId: int,
    songTitle: string,
    artistName: string,
    albumName: string,
    genre: string,
    duration: string,
    releaseYear: int)

  /**
   * The response formatter: the key and the five other columns are copied unchanged, and
   * `duration` is rendered as `M:SS` text.
   */
  function FormatTrack(t: Track): (v: TrackView)
    ensures v.trackId == t.trackId && v.releaseYear == t.fields.releaseYear
    ensures v.songTitle == t.fields.songTitle && v.artistName == t.fields.artistName
    ensures v.albumName == t.fields.albumName && v.genre == t.fields.genre
  {
    TrackView(t.trackId, t.fields.songTitle, t.fields.artistName, t.fields.albumName, t.fields.genre,
              FormatDuration(t.fields.duration), t.fields.releaseYear)
  }

  /**
   * The duration text of a formatted track reads back as its floored minutes and JavaScript
   * remainder, so a non-negative packed duration is recovered exactly.
   */
  lemma FormatTrackReadsBack(t: Track)
    ensures ReadDuration(FormatTrack(t).duration) == Some((Minutes(t.fields.duration), Seconds(t.fields.duration)))
    ensures t.fields.duration >= 0 ==> ReadPacked(FormatTrack(t).duration) == Some(t.fields.duration)
  {
    FormatDurationReadsBack(t.fields.duration);
    if t.fields.duration >= 0 {
      FormatDurationRoundTrip(t.fields.duration);
    }
  }

  /** The JSON bodies the routes answer with. */
  datatype Payload =
    | RawTrack(track: Track)                                  // the stored record, unformatted
    | OneView(view: TrackView)
    | ManyViews(views: seq<TrackView>)
    | ValidationFailed(error: string, messages: seq<string>)
    | ErrorMessage(error: string)
    | Acknowledged(message: string)

  datatype Response = Response(status: int, payload: Payload)

  /** The table after a request and the answer to it. */
  datatype Outcome = Outcome(store: Store, response: Response)

  const NotFound: Response := Response(404, ErrorMessage("Track not found"))

  /** The 400 answer of the validation error handler. */
  function Rejected(body: Body): Response
  {
    Response(400, ValidationFailed("Validation failed", Messages(ValidateTrack(body))))
  }

  /** `tracks.map(formatTrack)`. */
  function FormatAll(ts: seq<Track>): (vs: seq<TrackView>)
    ensures |vs| == |ts|
    ensures forall i :: 0 <= i < |ts| ==> vs[i] == FormatTrack(ts[i]) && vs[i].trackId == ts[i].trackId
  {
    seq(|ts|, i requires 0 <= i < |ts| => FormatTrack(ts[i]))
  }

  /** On a valid table every formatted track listed is the formatted form of a stored track. */
  lemma ListingShowsStoredTracks(s: Store)
    requires Valid(s)
    ensures var vs := FormatAll(FindAll(s));
      forall i :: 0 <= i < |vs| ==> vs[i].trackId in s.rows && vs[i] == FormatTrack(s.rows[vs[i].trackId])
  {
    var ts := FindAll(s);
    var vs := FormatAll(ts);
    forall i | 0 <= i < |vs|
      ensures vs[i].trackId in s.rows && vs[i] == FormatTrack(s.rows[vs[i].trackId])
    {
      assert vs[i] == FormatTrack(ts[i]) && vs[i].trackId == ts[i].trackId;
      assert s.rows[ts[i].trackId] == ts[i];
    }
  }

  /** On a valid table every stored track is listed. */
  lemma ListingShowsEveryTrack(s: Store)
    requires Valid(s)
    ensures forall id :: id in s.rows ==> FormatTrack(s.rows[id]) in FormatAll(FindAll(s))
  {
    var ts := FindAll(s);
    forall id | id in s.rows
      ensures FormatTrack(s.rows[id]) in FormatAll(ts)
    {
      var i :| 0 <= i < |ts| && ts[i] == s.rows[id];
      assert FormatAll(ts)[i] == FormatTrack(s.rows[id]);
    }
  }

  /** On a valid table the listing is in ascending key order, so no track is listed twice. */
  lemma ListingInKeyOrder(s: Store)
    requires Valid(s)
    ensures var vs := FormatAll(FindAll(s));
      && (forall i, j :: 0 <= i < j < |vs| ==> vs[i].trackId < vs[j].trackId)
      && (s.rows == map[] ==> vs == [])
  {
  }

  /**
   * `vs` lists the table `s` faithfully: every entry is the formatted form of the row under
   * its id, every row appears, and the ids ascend, so no row appears twice.
   */
  predicate ListsStore(vs: seq<TrackView>, s: Store)
  {
    && (forall i :: 0 <= i < |vs| ==> vs[i].trackId in s.rows && vs[i] == FormatTrack(s.rows[vs[i].trackId]))
    && (forall id :: id in s.rows ==> FormatTrack(s.rows[id]) in vs)
    && (forall i, j :: 0 <= i < j < |vs| ==> vs[i].trackId < vs[j].trackId)
  }

  /** On a valid table the formatted `findAll` lists the table faithfully. */
  lemma ListingFaithful(s: Store)
    requires Valid(s)
    ensures ListsStore(FormatAll(FindAll(s)), s)
    ensures s.rows == map[] ==> FormatAll(FindAll(s)) == []
  {
    ListingShowsStoredTracks(s);
    ListingShowsEveryTrack(s);
    ListingInKeyOrder(s);
  }

  /** GET /api/tracks: every stored track, formatted, in ascending key order. */
  function ListTracks(s: Store, storeFails: bool): (o: Outcome)
    ensures o.store == s
    ensures storeFails ==> o.response == Response(500, ErrorMessage("Failed to fetch tracks"))
    ensures !storeFails ==> o.response.status == 200 && o.response.payload.ManyViews?
    ensures !storeFails && Valid(s) ==> ListsStore(o.response.payload.views, s)
    ensures !storeFails && s.rows == map[] ==> o.response.payload.views == []
  {
    if storeFails then
      Outcome(s, Response(500, ErrorMessage("Failed to fetch tracks")))
    else
      var o := Outcome(s, Response(200, ManyViews(FormatAll(FindAll(s)))));
      if Valid(s) then ListingFaithful(s); o else o
  }

  /** GET /api/tracks/:id: the formatted track, or 404 when no row has that key. */
  function GetTrack(s: Store, id: int, storeFails: bool): (o: Outcome)
    ensures o.store == s
    ensures storeFails ==> o.response == Response(500, ErrorMessage("Failed to fetch track"))
    ensures !storeFails && id !in s.rows ==> o.response == NotFound
    ensures !storeFails && id in s.rows ==> o.response == Response(200, OneView(FormatTrack(s.rows[id])))
  {
    if storeFails then Outcome(s, Response(500, ErrorMessage("Failed to fetch track")))
    else match FindByPk(s, id)
      case None => Outcome(s, NotFound)
      case Some(t) => Outcome(s, Response(200, OneView(FormatTrack(t))))
  }

  /** POST /api/tracks: validates, then stores a new record and answers 201 with it unformatted. */
  function CreateTrack(s: Store, body: Body, storeFails: bool): (o: Outcome)
    ensures HandleValidationErrors(body).Reject? ==> o == Outcome(s, Rejected(body))
    ensures HandleValidationErrors(body).Pass? && storeFails ==>
      o == Outcome(s, Response(500, ErrorMessage("Failed to create track")))
    ensures HandleValidationErrors(body).Pass? && !storeFails ==>
      && o.response.status == 201 && o.response.payload.RawTrack?
      && var t := o.response.payload.track;
      && t.fields == DecodeTrack(body)
      && (Valid(s) ==> t.trackId !in s.rows)
      && o.store.rows == s.rows[t.trackId := t]
      && s.nextId <= t.trackId < o.store.nextId
    ensures Valid(s) ==> Valid(o.store)
    ensures o.store.nextId >= s.nextId
  {
    match HandleValidationErrors(body)
    case Reject(_, _) => Outcome(s, Rejected(body))
    case Pass =>
      if storeFails then Outcome(s, Response(500, ErrorMessage("Failed to create track")))
      else
        var (s', t) := Create(s, DecodeTrack(body));
        Outcome(s', Response(201, RawTrack(t)))
  }

  /**
   * PUT /api/tracks/:id: validates, replaces all six columns of the row (404 when there is
   * none), then re-reads the row and answers with it unformatted. The re-read is a second
   * table call: when it fails the answer is 500 but the update has already happened.
   */
  function UpdateTrack(s: Store, id: int, body: Body, updateFails: bool, refetchFails: bool): (o: Outcome)
    ensures HandleValidationErrors(body).Reject? ==> o == Outcome(s, Rejected(body))
    ensures HandleValidationErrors(body).Pass? && updateFails ==>
      o == Outcome(s, Response(500, ErrorMessage("Failed to update track")))
    ensures HandleValidationErrors(body).Pass? && !updateFails && id !in s.rows ==> o == Outcome(s, NotFound)
    ensures HandleValidationErrors(body).Pass? && !updateFails && id in s.rows ==>
      && o.store == s.(rows := s.rows[id := Track(id, DecodeTrack(body))])
      && o.response == (if refetchFails then Response(500, ErrorMessage("Failed to update track"))
                        else Response(200, RawTrack(Track(id, DecodeTrack(body)))))
    ensures Valid(s) ==> Valid(o.store)
    ensures o.store.nextId == s.nextId
  {
    match HandleValidationErrors(body)
    case Reject(_, _) => Outcome(s, Rejected(body))
    case Pass =>
      if updateFails then Outcome(s, Response(500, ErrorMessage("Failed to update track")))
      else
        var (s', count) := Update(s, id, DecodeTrack(body));
        if count == 0 then Outcome(s, NotFound)
        else if refetchFails then Outcome(s', Response(500, ErrorMessage("Failed to update track")))
        else Outcome(s', Response(200, RawTrack(FindByPk(s', id).value)))
  }

  /**
   * DELETE /api/tracks/:id: the route is guarded by the same validation chain as POST and
   * PUT, so a body without six valid fields is answered 400 and deletes nothing; otherwise
   * the row is removed (404 when there is none).
   */
  function DeleteTrack(s: Store, id: int, body: Body, storeFails: bool): (o: Outcome)
    ensures HandleValidationErrors(body).Reject? ==> o == Outcome(s, Rejected(body))
    ensures HandleValidationErrors(body).Pass? && storeFails ==>
      o == Outcome(s, Response(500, ErrorMessage("Failed to delete track")))
    ensures HandleValidationErrors(body).Pass? && !storeFails && id !in s.rows ==> o == Outcome(s, NotFound)
    ensures HandleValidationErrors(body).Pass? && !storeFails && id in s.rows ==>
      && o.response == Response(200, Acknowledged("Track deleted successfully"))
      && o.store.rows.Keys == s.rows.Keys - {id}
      && (forall k :: k in o.store.rows ==> o.store.rows[k] == s.rows[k])
    ensures Valid(s) ==> Valid(o.store)
    ensures o.store.nextId == s.nextId
  {
    match HandleValidationErrors(body)
    case Reject(_, _) => Outcome(s, Rejected(body))
    case Pass =>
      if storeFails then Outcome(s, Response(500, ErrorMessage("Failed to delete track")))
      else
        var (s', count) := Destroy(s, id);
        if count == 0 then Outcome(s, NotFound)
        else Outcome(s', Response(200, Acknowledged("Track deleted successfully")))
  }

  /** The five routes, as method and path. */
  datatype Request =
    | ListAll                          // GET /api/tracks
    | GetOne(id: int)                  // GET /api/tracks/:id
    | Post(body: Body)                 // POST /api/tracks
    | Put(id: int, body: Body)         // PUT /api/tracks/:id
    | Delete(id: int, body: Body)      // DELETE /api/tracks/:id

  /** Which table calls of a request fail: its first, and (for PUT only) its second. */
  datatype Faults = Faults(first: bool, second: bool)

  const NoFaults: Faults := Faults(false, false)

  /** Whether the route runs the validation chain before its handler. */
  predicate Guarded(req: Request)
  {
    req.Post? || req.Put? || req.Delete?
  }

  /**
   * Routing. Every answer is one of 200, 201, 400, 404 and 500; 400 comes exactly from the
   * validation chain; 201 exactly from a valid POST whose insert succeeds, with a key the
   * counter had not handed out before; the table changes only on a success, or on a PUT
   * whose re-read fails after the update.
   */
  function Handle(s: Store, req: Request, faults: Faults): (o: Outcome)
    ensures Valid(s) ==> Valid(o.store)
    ensures o.store.nextId >= s.nextId
    ensures o.response.status in {200, 201, 400, 404, 500}
    ensures o.response.status == 400 <==> Guarded(req) && HandleValidationErrors(req.body).Reject?
    ensures o.response.status == 201 <==> req.Post? && HandleValidationErrors(req.body).Pass? && !faults.first
    ensures o.response.status == 201 ==>
      o.response.payload.RawTrack? && s.nextId <= o.response.payload.track.trackId < o.store.nextId
    ensures o.response.status in {400, 404} ==> o.store == s
    ensures o.response.status == 500 && !(req.Put? && faults.second) ==> o.store == s
    ensures !Guarded(req) ==> o.store == s
  {
    match req
    case ListAll =>
      var o := ListTracks(s, faults.first);
      assert o.store == s && o.response.status in {200, 500};
      o
    case GetOne(id) =>
      var o := GetTrack(s, id, faults.first);
      assert o.store == s && o.response.status in {200, 404, 500};
      o
    case Post(body) => CreateTrack(s, body, faults.first)
    case Put(id, body) => UpdateTrack(s, id, body, faults.first, faults.second)
    case Delete(id, body) => DeleteTrack(s, id, body, faults.first)
  }
}

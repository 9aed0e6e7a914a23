/** Properties of the Track service that relate several requests. */
module TrackProperties {
  import opened Wrappers
  import opened Json
  import opened TrackModel
  import opened Validation
  import opened Duration
  import opened TrackService

  /** A valid POST answered 201 is read back by GET on the returned key, formatted. */
  lemma CreateThenGet(s: Store, body: Body)
    requires Valid(s) && HandleValidationErrors(body).Pass?
    ensures var o := CreateTrack(s, body, false);
      var t := o.response.payload.track;
      && o.response.status == 201
      && t.fields == DecodeTrack(body)
      && GetTrack(o.store, t.trackId, false).response == Response(200, OneView(FormatTrack(t)))
  {
  }

  /** A successful PUT is read back by GET: same key, all six columns replaced. */
  lemma UpdateThenGet(s: Store, id: int, body: Body)
    requires HandleValidationErrors(body).Pass? && id in s.rows
    ensures var o := UpdateTrack(s, id, body, false, false);
      && o.response == Response(200, RawTrack(Track(id, DecodeTrack(body))))
      && GetTrack(o.store, id, false).response == Response(200, OneView(FormatTrack(Track(id, DecodeTrack(body)))))
  {
  }

  /** After a DELETE that passes validation, GET on that key answers 404. */
  lemma DeleteThenGet(s: Store, id: int, body: Body)
    requires HandleValidationErrors(body).Pass?
    ensures GetTrack(DeleteTrack(s, id, body, false).store, id, false).response == NotFound
  {
  }

  /** PUT on an absent key answers 404 and creates nothing. */
  lemma UpdateMissingCreatesNothing(s: Store, id: int, body: Body)
    requires HandleValidationErrors(body).Pass? && id !in s.rows
    ensures UpdateTrack(s, id, body, false, false) == Outcome(s, NotFound)
    ensures id !in UpdateTrack(s, id, body, false, false).store.rows
  {
  }

  /** An empty body fails all twelve checks, reported in chain order. */
  lemma EmptyBodyViolations()
    ensures ValidateTrack(map[]) == [
      Missing(SongTitle), WrongType(SongTitle), Missing(ArtistName), WrongType(ArtistName),
      Missing(AlbumName), WrongType(AlbumName), Missing(Genre), WrongType(Genre),
      Missing(Duration), WrongType(Duration), Missing(ReleaseYear), WrongType(ReleaseYear)]
  {
    var e: Body := map[];
    var fs := AllFields;
    EmptyFieldFails(SongTitle);
    EmptyFieldFails(ArtistName);
    EmptyFieldFails(AlbumName);
    EmptyFieldFails(Genre);
    EmptyFieldFails(Duration);
    EmptyFieldFails(ReleaseYear);
    assert ViolationsOf(e, fs[6..]) == [];
    assert ViolationsOf(e, fs[5..]) == FieldViolations(e, ReleaseYear) + ViolationsOf(e, fs[6..]);
    assert ViolationsOf(e, fs[4..]) == FieldViolations(e, Duration) + ViolationsOf(e, fs[5..]);
    assert ViolationsOf(e, fs[3..]) == FieldViolations(e, Genre) + ViolationsOf(e, fs[4..]);
    assert ViolationsOf(e, fs[2..]) == FieldViolations(e, AlbumName) + ViolationsOf(e, fs[3..]);
    assert ViolationsOf(e, fs[1..]) == FieldViolations(e, ArtistName) + ViolationsOf(e, fs[2..]);
    assert ViolationsOf(e, fs) == FieldViolations(e, SongTitle) + ViolationsOf(e, fs[1..]);
  }

  /** A field missing from the body fails both of its checks. */
  lemma EmptyFieldFails(f: Field)
    ensures FieldViolations(map[], f) == [Missing(f), WrongType(f)]
  {
    assert ValueOf(map[], f) == None;
  }

  /**
   * DELETE runs the validation chain: with an empty body it answers 400 with the messages of
   * all twelve failed checks and the row stays, even when it exists.
   */
  lemma DeleteWithoutBodyDeletesNothing(s: Store, id: int)
    ensures var o := DeleteTrack(s, id, map[], false);
      && o.store == s
      && o.response == Response(400, ValidationFailed("Validation failed", Messages(ValidateTrack(map[]))))
      && |ValidateTrack(map[])| == 12
  {
    EmptyBodyViolations();
    assert !FieldValid(map[], SongTitle);
  }

  /** GET /api/tracks on an empty table answers 200 with an empty list. */
  lemma ListEmptyStore()
    ensures ListTracks(EmptyStore, false).response == Response(200, ManyViews([]))
  {
  }

  /**
   * The request sequence run against a table, each request with its own table failures:
   * final table and answers.
   */
  function Run(s: Store, reqs: seq<Request>, faults: seq<Faults>): (Store, seq<Response>)
    requires |faults| == |reqs|
    decreases |reqs|
  {
    if reqs == [] then (s, [])
    else
      var o := Handle(s, reqs[0], faults[0]);
      var (s', rs) := Run(o.store, reqs[1..], faults[1..]);
      (s', [o.response] + rs)
  }

  /** The keys of the records created (answered 201), in answer order. */
  function CreatedIds(rs: seq<Response>): seq<int>
  {
    if rs == [] then []
    else
      var head := if rs[0].status == 201 && rs[0].payload.RawTrack? then [rs[0].payload.track.trackId] else [];
      head + CreatedIds(rs[1..])
  }

  /** All values lie in `[lo, hi)` and strictly increase. */
  predicate AscendingWithin(ids: seq<int>, lo: int, hi: int)
  {
    && (forall i :: 0 <= i < |ids| ==> lo <= ids[i] < hi)
    && (forall i, j :: 0 <= i < j < |ids| ==> ids[i] < ids[j])
  }

  lemma PrependAscending(head: seq<int>, rest: seq<int>, lo: int, mid: int, hi: int)
    requires |head| <= 1 && (forall i :: 0 <= i < |head| ==> lo <= head[i] < mid)
    requires AscendingWithin(rest, mid, hi) && lo <= mid <= hi
    ensures AscendingWithin(head + rest, lo, hi)
  {
  }

  /**
   * Auto-increment keys are fresh: over any sequence of requests, whichever table calls fail,
   * the table stays valid, and the keys of created records strictly increase and start at the
   * counter's value, so none equals a key stored (or since deleted) before.
   */
  lemma {:induction false} CreatedIdsFresh(s: Store, reqs: seq<Request>, faults: seq<Faults>)
    requires Valid(s) && |faults| == |reqs|
    ensures Valid(Run(s, reqs, faults).0) && Run(s, reqs, faults).0.nextId >= s.nextId
    ensures AscendingWithin(CreatedIds(Run(s, reqs, faults).1), s.nextId, Run(s, reqs, faults).0.nextId)
    decreases |reqs|
  {
    if reqs != [] {
      var o := Handle(s, reqs[0], faults[0]);
      CreatedIdsFresh(o.store, reqs[1..], faults[1..]);
      var (s', rs) := Run(o.store, reqs[1..], faults[1..]);
      var all := [o.response] + rs;
      assert Run(s, reqs, faults) == (s', all);
      assert all[1..] == rs;
      var head := if o.response.status == 201 && o.response.payload.RawTrack?
        then [o.response.payload.track.trackId] else [];
      assert CreatedIds(all) == head + CreatedIds(rs);
      PrependAscending(head, CreatedIds(rs), s.nextId, o.store.nextId, s'.nextId);
    }
  }

  /** A key that was ever stored is never handed out again, whatever requests and failures follow. */
  lemma StoredIdNeverReused(s: Store, id: int, reqs: seq<Request>, faults: seq<Faults>)
    requires Valid(s) && id in s.rows && |faults| == |reqs|
    ensures id !in CreatedIds(Run(s, reqs, faults).1)
  {
    CreatedIdsFresh(s, reqs, faults);
  }

  /** The record of the catalogue example. */
  const ExampleFields: TrackFields := TrackFields("A", "B", "C", "Rock", 325, 2020)

  /** POST of the example body on an empty table stores it under key 1 and answers 201 with it. */
  lemma ExampleCreate()
    ensures Handle(EmptyStore, Post(BodyOf(ExampleFields)), NoFaults)
      == Outcome(Store(map[1 := Track(1, ExampleFields)], 2), Response(201, RawTrack(Track(1, ExampleFields))))
  {
    CreateOnEmpty(ExampleFields);
  }

  /** The first POST of a valid record on an empty table stores it under key 1 and answers 201. */
  lemma CreateOnEmpty(f: TrackFields)
    requires NonEmptyText(f) && f.duration != 0 && f.releaseYear != 0
    ensures Handle(EmptyStore, Post(BodyOf(f)), NoFaults)
      == Outcome(Store(map[1 := Track(1, f)], 2), Response(201, RawTrack(Track(1, f))))
  {
    BodyOfPasses(f);
  }

  /** The example record renders its packed duration 325 as "3:25". */
  lemma ExampleFormatted()
    ensures FormatTrack(Track(1, ExampleFields)) == TrackView(1, "A", "B", "C", "Rock", "3:25", 2020)
  {
    FormatDurationUnclamped();
  }

  /** GET of key 1 on the table holding the example record answers 200 with it formatted. */
  lemma ExampleGet()
    ensures Handle(Store(map[1 := Track(1, ExampleFields)], 2), GetOne(1), NoFaults).response
      == Response(200, OneView(FormatTrack(Track(1, ExampleFields))))
  {
  }

  /** The catalogue example: POST a track on an empty table, then GET it with duration "3:25". */
  lemma CatalogueScenario()
    ensures var created := Handle(EmptyStore, Post(BodyOf(ExampleFields)), NoFaults);
      var fetched := Handle(created.store, GetOne(1), NoFaults);
      && created.response == Response(201, RawTrack(Track(1, ExampleFields)))
      && fetched.response == Response(200, OneView(TrackView(1, "A", "B", "C", "Rock", "3:25", 2020)))
  {
    ExampleCreate();
    ExampleGet();
    ExampleFormatted();
  }
}

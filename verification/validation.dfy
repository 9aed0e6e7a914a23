/**
 * The track validation chain and its error handler. Each of the six fields runs two checks
 * in order: "exists, treating falsy values as absent", then a type check (`isString` for
 * the four text fields, `isInt` for `duration` and `releaseYear`). Neither a chain nor the
 * list of chains stops at a failure, so every failing check contributes its message, in
 * field order and, within a field, in check order.
 */
module Validation {
  import opened Wrappers
  import opened Decimal
  import opened Json
  import opened TrackModel

  datatype Field = SongTitle | ArtistName | AlbumName | Genre | Duration | ReleaseYear

  /** The body key a field is read from. */
  function Key(f: Field): string
  {
    match f
    case SongTitle => "songTitle"
    case ArtistName => "artistName"
    case AlbumName => "albumName"
    case Genre => "genre"
    case Duration => "duration"
    case ReleaseYear => "releaseYear"
  }

  predicate IsTextField(f: Field)
  {
    f.SongTitle? || f.ArtistName? || f.AlbumName? || f.Genre?
  }

  /** A failed check: the field's "exists" check or its type check. */
  datatype Violation = Missing(field: Field) | WrongType(field: Field)

  /** The message each failed check reports. */
  function Text(v: Violation): string
  {
    match v
    case Missing(SongTitle) => "Song title is required"
    case WrongType(SongTitle) => "Song title must be a string"
    case Missing(ArtistName) => "Artist name is required"
    case WrongType(ArtistName) => "Artist name must be a string"
    case Missing(AlbumName) => "Album is required"
    case WrongType(AlbumName) => "Album must be a string"
    case Missing(Genre) => "Genre is required"
    case WrongType(Genre) => "Genre must be a string"
    case Missing(Duration) => "Duration is required"
    case WrongType(Duration) => "Duration must be an integer"
    case Missing(ReleaseYear) => "Release year is required"
    case WrongType(ReleaseYear) => "Release year must be an integer"
  }

  /** The messages of a list of failed checks, in order: `errors.array().map(e => e.msg)`. */
  function Messages(vs: seq<Violation>): (ms: seq<string>)
    ensures |ms| == |vs|
    ensures forall i :: 0 <= i < |vs| ==> ms[i] == Text(vs[i])
  {
    if vs == [] then [] else [Text(vs[0])] + Messages(vs[1..])
  }

  /** The value of a field in a body (`None` when the key is absent). */
  function ValueOf(body: Body, f: Field): Option<Value>
  {
    Lookup(body, Key(f))
  }

  predicate TypeOk(f: Field, v: Option<Value>)
  {
    if IsTextField(f) then IsString(v) else IsInt(v)
  }

  /** A field passes both of its checks. */
  predicate FieldValid(body: Body, f: Field)
  {
    Truthy(ValueOf(body, f)) && TypeOk(f, ValueOf(body, f))
  }

  /** The failed checks of one field's chain, in check order. */
  function FieldViolations(body: Body, f: Field): seq<Violation>
  {
    var v := ValueOf(body, f);
    (if Truthy(v) then [] else [Missing(f)]) + (if TypeOk(f, v) then [] else [WrongType(f)])
  }

  /** The six chains, in the order they are registered. */
  const AllFields: seq<Field> := [SongTitle, ArtistName, AlbumName, Genre, Duration, ReleaseYear]

  /** The failed checks of the chains for `fs`, run one after the other. */
  function ViolationsOf(body: Body, fs: seq<Field>): seq<Violation>
  {
    if fs == [] then [] else FieldViolations(body, fs[0]) + ViolationsOf(body, fs[1..])
  }

  /** The failed checks of all six chains, in order: what `validationResult(req)` collects. */
  function ValidateTrack(body: Body): seq<Violation>
  {
    ViolationsOf(body, AllFields)
  }

  /** The outcome of the error handler: pass on to the route, or answer 400 with the messages. */
  datatype Verdict = Pass | Reject(error: string, messages: seq<string>)

  /** The error handler: any failed check rejects the request with "Validation failed" and every message. */
  function HandleValidationErrors(body: Body): (v: Verdict)
    ensures v.Pass? <==> forall f: Field :: FieldValid(body, f)
    ensures v.Reject? ==> v.error == "Validation failed" && v.messages == Messages(ValidateTrack(body))
    ensures v.Reject? ==> |v.messages| > 0
  {
    var violations := ValidateTrack(body);
    ValidateEmptyIff(body);
    if violations == [] then Pass else Reject("Validation failed", Messages(violations))
  }

  /** Every field has a chain. */
  lemma EveryFieldChecked()
    ensures forall f: Field :: f in AllFields
  {
    forall f: Field
      ensures f in AllFields
    {
      match f
      case SongTitle => assert AllFields[0] == f;
      case ArtistName => assert AllFields[1] == f;
      case AlbumName => assert AllFields[2] == f;
      case Genre => assert AllFields[3] == f;
      case Duration => assert AllFields[4] == f;
      case ReleaseYear => assert AllFields[5] == f;
    }
  }

  /** A failed check is collected for `fs` exactly when its field is in `fs` and that field's chain reports it. */
  lemma {:induction false} InViolationsOf(body: Body, fs: seq<Field>, m: Violation)
    ensures m in ViolationsOf(body, fs) <==> m.field in fs && m in FieldViolations(body, m.field)
  {
    if fs != [] {
      InViolationsOf(body, fs[1..], m);
      assert m.field in fs <==> m.field == fs[0] || m.field in fs[1..];
    }
  }

  /** No message is collected for `fs` exactly when every field in `fs` passes. */
  lemma {:induction false} ViolationsOfEmpty(body: Body, fs: seq<Field>)
    ensures ViolationsOf(body, fs) == [] <==> forall f :: f in fs ==> FieldValid(body, f)
  {
    if fs != [] {
      ViolationsOfEmpty(body, fs[1..]);
      assert FieldViolations(body, fs[0]) == [] <==> FieldValid(body, fs[0]);
      assert forall f :: f in fs <==> f == fs[0] || f in fs[1..];
    }
  }

  /** No failure is collected exactly when every field passes both its checks. */
  lemma ValidateEmptyIff(body: Body)
    ensures ValidateTrack(body) == [] <==> forall f: Field :: FieldValid(body, f)
  {
    ViolationsOfEmpty(body, AllFields);
    EveryFieldChecked();
  }

  /** Distinct failed checks report distinct messages, so the messages identify the failures. */
  lemma TextIdentifiesViolation(v: Violation, w: Violation)
    ensures Text(v) == Text(w) ==> v == w
  {
  }

  /**
   * Failures are collected without short-circuiting: a field's "exists" failure is reported
   * exactly when its value is falsy or absent, and its type failure exactly when the type
   * check fails, whatever the other fields hold.
   */
  lemma ValidateReportsEachFailure(body: Body, f: Field)
    ensures Missing(f) in ValidateTrack(body) <==> !Truthy(ValueOf(body, f))
    ensures WrongType(f) in ValidateTrack(body) <==> !TypeOk(f, ValueOf(body, f))
  {
    EveryFieldChecked();
    InViolationsOf(body, AllFields, Missing(f));
    InViolationsOf(body, AllFields, WrongType(f));
  }

  /** The reported messages are those of the failed checks: both checks of every field are covered. */
  lemma MessagesReportEachFailure(body: Body, f: Field)
    ensures Text(Missing(f)) in Messages(ValidateTrack(body)) <==> !Truthy(ValueOf(body, f))
    ensures Text(WrongType(f)) in Messages(ValidateTrack(body)) <==> !TypeOk(f, ValueOf(body, f))
  {
    var vs := ValidateTrack(body);
    ValidateReportsEachFailure(body, f);
    forall i | 0 <= i < |vs|
      ensures Messages(vs)[i] == Text(Missing(f)) ==> vs[i] == Missing(f)
      ensures Messages(vs)[i] == Text(WrongType(f)) ==> vs[i] == WrongType(f)
    {
      TextIdentifiesViolation(vs[i], Missing(f));
      TextIdentifiesViolation(vs[i], WrongType(f));
    }
  }

  /**
   * Falsy values count as absent: a missing key, `null`, `""`, `false` or the number 0 fails
   * the "exists" check; a missing key or `null` also fails the type check, while `""` still
   * passes `isString` and 0 still passes `isInt`.
   */
  lemma FalsyCountsAsMissing(body: Body, f: Field)
    requires ValueOf(body, f) in {None, Some(JNull), Some(JStr("")), Some(JBool(false)), Some(JInt(0))}
    ensures Missing(f) in ValidateTrack(body)
    ensures ValueOf(body, f) in {None, Some(JNull)} ==> WrongType(f) in ValidateTrack(body)
    ensures ValueOf(body, f) == Some(JStr("")) && IsTextField(f) ==> WrongType(f) !in ValidateTrack(body)
    ensures ValueOf(body, f) == Some(JInt(0)) && !IsTextField(f) ==> WrongType(f) !in ValidateTrack(body)
  {
    ValidateReportsEachFailure(body, f);
  }

  /**
   * The six columns the route hands to the table, from a body that passed validation: the
   * texts as given, the integer fields as the numbers they are or spell.
   */
  function DecodeTrack(body: Body): (f: TrackFields)
    requires forall g: Field :: FieldValid(body, g)
    ensures NonEmptyText(f)
    ensures Some(JStr(f.songTitle)) == ValueOf(body, SongTitle)
    ensures Some(JStr(f.artistName)) == ValueOf(body, ArtistName)
    ensures Some(JStr(f.albumName)) == ValueOf(body, AlbumName)
    ensures Some(JStr(f.genre)) == ValueOf(body, Genre)
    ensures FieldValid(body, Duration) && f.duration == IntOf(ValueOf(body, Duration))
    ensures FieldValid(body, ReleaseYear) && f.releaseYear == IntOf(ValueOf(body, ReleaseYear))
  {
    assert FieldValid(body, SongTitle) && FieldValid(body, ArtistName) && FieldValid(body, AlbumName);
    assert FieldValid(body, Genre) && FieldValid(body, Duration) && FieldValid(body, ReleaseYear);
    TrackFields(
      ValueOf(body, SongTitle).value.s,
      ValueOf(body, ArtistName).value.s,
      ValueOf(body, AlbumName).value.s,
      ValueOf(body, Genre).value.s,
      IntOf(ValueOf(body, Duration)),
      IntOf(ValueOf(body, ReleaseYear)))
  }

  /** A JSON body carrying a record's six columns: texts as strings, integers as numbers. */
  function BodyOf(f: TrackFields): Body
  {
    map[
      "songTitle" := JStr(f.songTitle),
      "artistName" := JStr(f.artistName),
      "albumName" := JStr(f.albumName),
      "genre" := JStr(f.genre),
      "duration" := JInt(f.duration),
      "releaseYear" := JInt(f.releaseYear)]
  }

  /** The body built from a record holds each column under its key. */
  lemma BodyOfValues(f: TrackFields)
    ensures ValueOf(BodyOf(f), SongTitle) == Some(JStr(f.songTitle))
    ensures ValueOf(BodyOf(f), ArtistName) == Some(JStr(f.artistName))
    ensures ValueOf(BodyOf(f), AlbumName) == Some(JStr(f.albumName))
    ensures ValueOf(BodyOf(f), Genre) == Some(JStr(f.genre))
    ensures ValueOf(BodyOf(f), Duration) == Some(JInt(f.duration))
    ensures ValueOf(BodyOf(f), ReleaseYear) == Some(JInt(f.releaseYear))
  {
  }

  /**
   * A body of non-empty strings and non-zero integers yields no failure, and only such a
   * body does; the columns decoded from it are the ones it was built from.
   */
  lemma BodyOfRoundTrip(f: TrackFields)
    ensures ValidateTrack(BodyOf(f)) == [] <==> NonEmptyText(f) && f.duration != 0 && f.releaseYear != 0
    ensures ValidateTrack(BodyOf(f)) == [] ==> DecodeTrack(BodyOf(f)) == f
  {
    var body := BodyOf(f);
    ValidateEmptyIff(body);
    BodyOfValues(f);
    assert FieldValid(body, SongTitle) <==> f.songTitle != "";
    assert FieldValid(body, ArtistName) <==> f.artistName != "";
    assert FieldValid(body, AlbumName) <==> f.albumName != "";
    assert FieldValid(body, Genre) <==> f.genre != "";
    assert FieldValid(body, Duration) <==> f.duration != 0;
    assert FieldValid(body, ReleaseYear) <==> f.releaseYear != 0;
  }

  /** The body of a record with non-empty texts and non-zero numbers passes the error handler. */
  lemma BodyOfPasses(f: TrackFields)
    requires NonEmptyText(f) && f.duration != 0 && f.releaseYear != 0
    ensures HandleValidationErrors(BodyOf(f)).Pass?
    ensures DecodeTrack(BodyOf(f)) == f
  {
    BodyOfRoundTrip(f);
    ValidateEmptyIff(BodyOf(f));
  }

  /**
   * Only the number 0 is falsy, not the string "0": a duration sent as "0" passes both its
   * checks and reaches the table as 0.
   */
  lemma StringZeroDurationAccepted(body: Body)
    requires ValueOf(body, Duration) == Some(JStr("0"))
    requires forall f: Field :: f != Duration ==> FieldValid(body, f)
    ensures HandleValidationErrors(body).Pass?
    ensures DecodeTrack(body).duration == 0
  {
    assert IntPattern("0") && DigitsValue("0") == 0;
    assert FieldValid(body, Duration);
    assert forall f: Field :: FieldValid(body, f);
  }
}

/**
 * The Track table: one record per catalogue entry, keyed by an auto-incremented integer
 * primary key, with four non-null text columns and two non-null integer columns. The
 * table is modelled as a map from key to record plus the next key the auto-increment
 * counter hands out; the table operations the service calls (find all, find by primary
 * key, create, update where key, destroy where key) are pure state transitions on it.
 */
module TrackModel {
  import opened Wrappers

  /** The six caller-supplied columns; `duration` is packed as `minutes * 100 + seconds`. */
  datatype TrackFields = TrackFields(
    songTitle: string,
    artistName: string,
    albumName: string,
    genre: string,
    duration: int,
    releaseYear: int)

  /** A stored row: the store-assigned primary key and the six columns. */
  datatype Track = Track(trackId: int, fields: TrackFields)

  /** The table contents and the auto-increment counter (SQLite `AUTOINCREMENT`: keys are never reused). */
  datatype Store = Store(rows: map<int, Track>, nextId: int)

  /** The empty table of a fresh database: the first key handed out is 1. */
  const EmptyStore: Store := Store(map[], 1)

  /** Every text column is non-empty: what validation lets through to the table. */
  predicate NonEmptyText(f: TrackFields)
  {
    f.songTitle != "" && f.artistName != "" && f.albumName != "" && f.genre != ""
  }

  /**
   * The table invariant: each row sits under its own primary key (so no two rows share a
   * key), every key lies below the counter and above zero, and every text column is non-empty.
   */
  predicate Valid(s: Store)
  {
    && s.nextId >= 1
    && forall id :: id in s.rows ==>
         s.rows[id].trackId == id && 1 <= id < s.nextId && NonEmptyText(s.rows[id].fields)
  }

  lemma EmptyStoreValid()
    ensures Valid(EmptyStore) && EmptyStore.rows == map[]
  {
  }

  /** Each key is smaller than every later one, so none repeats. */
  predicate StrictlyAscending(ks: seq<int>)
  {
    forall i, j :: 0 <= i < j < |ks| ==> ks[i] < ks[j]
  }

  /** The keys present in `rows` within `[lo, hi)`, in ascending order. */
  function KeysBetween(rows: map<int, Track>, lo: int, hi: int): (ks: seq<int>)
    ensures forall i :: 0 <= i < |ks| ==> ks[i] in rows && lo <= ks[i] < hi
    ensures forall k :: k in rows && lo <= k < hi ==> k in ks
    ensures StrictlyAscending(ks)
    decreases hi - lo
  {
    if lo >= hi then []
    else
      var rest := KeysBetween(rows, lo + 1, hi);
      if lo in rows then AscendingCons(lo, rest); [lo] + rest else rest
  }

  /** A key below every key of an ascending list extends it at the front. */
  lemma AscendingCons(k: int, rest: seq<int>)
    requires StrictlyAscending(rest)
    requires forall i :: 0 <= i < |rest| ==> k < rest[i]
    ensures StrictlyAscending([k] + rest)
  {
    var ks := [k] + rest;
    forall i, j | 0 <= i < j < |ks| ensures ks[i] < ks[j] {
      assert ks[j] == rest[j - 1];
      if i > 0 {
        assert ks[i] == rest[i - 1];
      }
    }
  }

  /** The rows under the given keys, in the keys' order. */
  function RowsAt(rows: map<int, Track>, ks: seq<int>): (ts: seq<Track>)
    requires forall i :: 0 <= i < |ks| ==> ks[i] in rows
    ensures |ts| == |ks|
    ensures forall i :: 0 <= i < |ks| ==> ts[i] == rows[ks[i]]
  {
    if ks == [] then [] else [rows[ks[0]]] + RowsAt(rows, ks[1..])
  }

  /**
   * `ts` lists the rows of `s` in ascending key order: each entry is the row stored under its
   * key, every stored row appears, and the keys strictly ascend, so no row appears twice.
   */
  predicate ListsRows(ts: seq<Track>, s: Store)
  {
    && (forall i :: 0 <= i < |ts| ==> ts[i].trackId in s.rows && s.rows[ts[i].trackId] == ts[i])
    && (forall id :: id in s.rows ==> s.rows[id] in ts)
    && (forall i, j :: 0 <= i < j < |ts| ==> ts[i].trackId < ts[j].trackId)
  }

  /**
   * `findAll`: the rows under every key below the counter. On a valid table it lists exactly
   * the stored rows, each once, in ascending key order (the order they were created in); on
   * an empty table it lists nothing.
   */
  function FindAll(s: Store): (ts: seq<Track>)
    ensures Valid(s) ==> ListsRows(ts, s)
    ensures s.rows == map[] ==> ts == []
  {
    RowsInKeyOrder(s);
    RowsAt(s.rows, KeysBetween(s.rows, 1, s.nextId))
  }

  /** The rows under the stored keys below the counter list a valid table. */
  lemma RowsInKeyOrder(s: Store)
    ensures Valid(s) ==> ListsRows(RowsAt(s.rows, KeysBetween(s.rows, 1, s.nextId)), s)
  {
    if Valid(s) {
      var ks := KeysBetween(s.rows, 1, s.nextId);
      var ts := RowsAt(s.rows, ks);
      assert forall i :: 0 <= i < |ts| ==> ts[i].trackId == ks[i];
      forall id | id in s.rows
        ensures s.rows[id] in ts
      {
        var i := IndexOf(ks, id);
        assert ts[i] == s.rows[id];
      }
    }
  }

  /** Position of a value known to occur in a sequence. */
  function IndexOf(ks: seq<int>, k: int): (i: nat)
    requires k in ks
    ensures i < |ks| && ks[i] == k
  {
    if ks[0] == k then 0 else 1 + IndexOf(ks[1..], k)
  }

  /** `findByPk`: the row under `id`, or nothing. */
  function FindByPk(s: Store, id: int): (r: Option<Track>)
    ensures r.Some? <==> id in s.rows
    ensures r.Some? ==> r.value == s.rows[id]
  {
    if id in s.rows then Some(s.rows[id]) else None
  }

  /** `create`: stores a new row under the next auto-increment key and returns it. */
  function Create(s: Store, f: TrackFields): (r: (Store, Track))
    ensures r.1.fields == f
    ensures r.0.rows == s.rows[r.1.trackId := r.1]
    ensures Valid(s) ==> r.1.trackId !in s.rows
    ensures Valid(s) && NonEmptyText(f) ==> Valid(r.0)
    ensures r.0.nextId > s.nextId && r.0.nextId > r.1.trackId >= s.nextId
  {
    var t := Track(s.nextId, f);
    (Store(s.rows[s.nextId := t], s.nextId + 1), t)
  }

  /** `update ... where trackId = id`: replaces all six columns of that row; reports the rows matched. */
  function Update(s: Store, id: int, f: TrackFields): (r: (Store, nat))
    ensures r.1 == (if id in s.rows then 1 else 0)
    ensures id in s.rows ==> r.0.rows == s.rows[id := Track(id, f)]
    ensures id !in s.rows ==> r.0 == s
    ensures r.0.nextId == s.nextId
    ensures Valid(s) && NonEmptyText(f) ==> Valid(r.0)
  {
    if id in s.rows then (s.(rows := s.rows[id := Track(id, f)]), 1) else (s, 0)
  }

  /** `destroy ... where trackId = id`: removes that row; reports the rows removed. */
  function Destroy(s: Store, id: int): (r: (Store, nat))
    ensures r.1 == (if id in s.rows then 1 else 0)
    ensures r.0.rows.Keys == s.rows.Keys - {id}
    ensures forall k :: k in r.0.rows ==> r.0.rows[k] == s.rows[k]
    ensures r.0.nextId == s.nextId
    ensures Valid(s) ==> Valid(r.0)
  {
    if id in s.rows then (s.(rows := s.rows - {id}), 1) else (s, 0)
  }

  /**
   * `findByPk` after a write: the created row is found under its new key, the updated row
   * under its key, nothing under a destroyed key, and every other key finds what it found
   * before.
   */
  lemma FindByPkAfterWrites(s: Store, f: TrackFields, id: int, k: int)
    ensures var (s', t) := Create(s, f);
      && FindByPk(s', t.trackId) == Some(t)
      && (k != t.trackId ==> FindByPk(s', k) == FindByPk(s, k))
    ensures FindByPk(Update(s, id, f).0, id) == (if id in s.rows then Some(Track(id, f)) else None)
    ensures k != id ==> FindByPk(Update(s, id, f).0, k) == FindByPk(s, k)
    ensures FindByPk(Destroy(s, id).0, id) == None
    ensures k != id ==> FindByPk(Destroy(s, id).0, k) == FindByPk(s, k)
  {
  }
}

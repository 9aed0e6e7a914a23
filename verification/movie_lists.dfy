/**
 * Lists of movies keyed by `movie.id`, as the watchlist and the favourites keep them:
 * the membership test `list.some(m => m.id === id)` and the filter
 * `list.filter(m => m.id !== id)` both front ends share.
 */
module MovieLists {
  import opened Wrappers

  /** A movie from the catalogue API, with the fields the list logic and the card read. */
  datatype Movie = Movie(id: int, title: string, posterPath: Option<string>, releaseDate: Option<string>)

  /** `list.some(m => m.id === id)`. */
  function HasId(ms: seq<Movie>, id: int): (b: bool)
    ensures b <==> exists i :: 0 <= i < |ms| && ms[i].id == id
  {
    if ms == [] then false
    else if ms[0].id == id then true
    else
      var b := HasId(ms[1..], id);
      assert forall i :: 1 <= i < |ms| ==> ms[i] == ms[1..][i - 1];
      b
  }

  /** `list.filter(m => m.id !== id)`. */
  function WithoutId(ms: seq<Movie>, id: int): (r: seq<Movie>)
    ensures forall i :: 0 <= i < |r| ==> r[i].id != id
    ensures forall m :: m in r <==> m in ms && m.id != id
  {
    if ms == [] then []
    else
      var rest := WithoutId(ms[1..], id);
      assert ms == [ms[0]] + ms[1..];
      if ms[0].id == id then rest else [ms[0]] + rest
  }

  /** The filter drops every copy of an entry with the id and keeps every copy of the others. */
  lemma {:induction false} WithoutIdCounts(ms: seq<Movie>, id: int)
    ensures forall m :: multiset(WithoutId(ms, id))[m] == if m.id == id then 0 else multiset(ms)[m]
    decreases |ms|
  {
    if ms != [] {
      WithoutIdCounts(ms[1..], id);
      assert ms == [ms[0]] + ms[1..];
    }
  }

  /** No two entries share an id. */
  predicate UniqueIds(ms: seq<Movie>)
  {
    forall i, j :: 0 <= i < j < |ms| ==> ms[i].id != ms[j].id
  }

  /** The filter keeps the order of what it keeps: it distributes over concatenation. */
  lemma {:induction false} WithoutIdAppend(a: seq<Movie>, b: seq<Movie>, id: int)
    ensures WithoutId(a + b, id) == WithoutId(a, id) + WithoutId(b, id)
    decreases |a|
  {
    if a == [] {
      assert a + b == b;
    } else {
      assert (a + b)[0] == a[0] && (a + b)[1..] == a[1..] + b;
      WithoutIdAppend(a[1..], b, id);
    }
  }

  /** A list without the id is left as it is. */
  lemma {:induction false} WithoutIdAbsent(ms: seq<Movie>, id: int)
    requires !HasId(ms, id)
    ensures WithoutId(ms, id) == ms
    decreases |ms|
  {
    if ms != [] {
      WithoutIdAbsent(ms[1..], id);
      assert ms == [ms[0]] + ms[1..];
    }
  }

  /** Filtering keeps ids unique: what it keeps is a sub-list in the original order. */
  lemma {:induction false} WithoutIdKeepsUnique(ms: seq<Movie>, id: int)
    requires UniqueIds(ms)
    ensures UniqueIds(WithoutId(ms, id))
    decreases |ms|
  {
    if ms != [] {
      UniqueSplit(ms);
      WithoutIdKeepsUnique(ms[1..], id);
      if ms[0].id != id {
        UniqueCons(ms[0], WithoutId(ms[1..], id));
      }
    }
  }

  /** A list with unique ids is its head, whose id no later entry shares, and a unique tail. */
  lemma UniqueSplit(ms: seq<Movie>)
    requires UniqueIds(ms) && ms != []
    ensures UniqueIds(ms[1..])
    ensures forall m :: m in ms[1..] ==> m.id != ms[0].id
  {
    forall i, j | 0 <= i < j < |ms[1..]| ensures ms[1..][i].id != ms[1..][j].id {
      assert ms[1..][i] == ms[i + 1] && ms[1..][j] == ms[j + 1];
    }
  }

  /** Prepending an entry whose id the unique tail lacks keeps the ids unique. */
  lemma UniqueCons(m: Movie, rest: seq<Movie>)
    requires UniqueIds(rest)
    requires forall x :: x in rest ==> x.id != m.id
    ensures UniqueIds([m] + rest)
  {
    var r := [m] + rest;
    forall i, j | 0 <= i < j < |r| ensures r[i].id != r[j].id {
      assert r[j] == rest[j - 1];
      if i > 0 {
        assert r[i] == rest[i - 1];
      }
    }
  }

  /** Membership of any other id is untouched by the filter. */
  lemma WithoutIdOtherIds(ms: seq<Movie>, id: int, other: int)
    requires other != id
    ensures HasId(WithoutId(ms, id), other) <==> HasId(ms, other)
  {
    var r := WithoutId(ms, id);
    if HasId(ms, other) {
      var i :| 0 <= i < |ms| && ms[i].id == other;
      assert ms[i] in r;
    }
    if HasId(r, other) {
      var i :| 0 <= i < |r| && r[i].id == other;
      assert r[i] in ms;
    }
  }
}

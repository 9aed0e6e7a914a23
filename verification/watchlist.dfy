/**
 * The watchlist context: add a movie unless one with its id is already listed, remove every
 * entry with an id, and test membership by id. The list is the function's input and output;
 * its persistence in browser storage is not part of the model.
 */
module Watchlist {
  import opened MovieLists

  /** `isInWatchlist(id)`. */
  function IsInWatchlist(w: seq<Movie>, id: int): (b: bool)
    ensures b <==> exists i :: 0 <= i < |w| && w[i].id == id
  {
    HasId(w, id)
  }

  /** `addToWatchlist(movie)`: appended at the end iff no entry has its id, otherwise unchanged. */
  function AddToWatchlist(w: seq<Movie>, movie: Movie): (r: seq<Movie>)
    ensures IsInWatchlist(w, movie.id) ==> r == w
    ensures !IsInWatchlist(w, movie.id) ==> r == w + [movie]
  {
    if HasId(w, movie.id) then w else w + [movie]
  }

  /** `removeFromWatchlist(id)`: drops every entry with the id, keeping the others in order. */
  function RemoveFromWatchlist(w: seq<Movie>, id: int): (r: seq<Movie>)
    ensures forall m :: m in r <==> m in w && m.id != id
    ensures forall m :: multiset(r)[m] == if m.id == id then 0 else multiset(w)[m]
  {
    WithoutIdCounts(w, id);
    WithoutId(w, id)
  }

  /** After adding a movie it is in the watchlist, and every other id's membership is as before. */
  lemma AddThenIsIn(w: seq<Movie>, movie: Movie, other: int)
    ensures IsInWatchlist(AddToWatchlist(w, movie), movie.id)
    ensures other != movie.id ==> (IsInWatchlist(AddToWatchlist(w, movie), other) <==> IsInWatchlist(w, other))
  {
    var r := AddToWatchlist(w, movie);
    if !HasId(w, movie.id) {
      assert r[|w|] == movie;
      if other != movie.id && HasId(r, other) {
        var i :| 0 <= i < |r| && r[i].id == other;
        assert w[i] == r[i];
      }
      if HasId(w, other) {
        var i :| 0 <= i < |w| && w[i].id == other;
        assert r[i] == w[i];
      }
    }
  }

  /** Adding the same movie twice is the same as adding it once. */
  lemma AddIdempotent(w: seq<Movie>, movie: Movie)
    ensures AddToWatchlist(AddToWatchlist(w, movie), movie) == AddToWatchlist(w, movie)
  {
    AddThenIsIn(w, movie, movie.id);
  }

  /** After removing an id it is not in the watchlist; every other id's membership is unchanged. */
  lemma RemoveThenNotIn(w: seq<Movie>, id: int, other: int)
    ensures !IsInWatchlist(RemoveFromWatchlist(w, id), id)
    ensures other != id ==> (IsInWatchlist(RemoveFromWatchlist(w, id), other) <==> IsInWatchlist(w, other))
  {
    if other != id {
      WithoutIdOtherIds(w, id, other);
    }
  }

  /** Removal keeps the relative order of the kept entries: it distributes over concatenation. */
  lemma RemovePreservesOrder(a: seq<Movie>, b: seq<Movie>, id: int)
    ensures RemoveFromWatchlist(a + b, id) == RemoveFromWatchlist(a, id) + RemoveFromWatchlist(b, id)
  {
    WithoutIdAppend(a, b, id);
  }

  /** Removing an id that is not listed changes nothing; removing twice is removing once. */
  lemma RemoveAbsentOrTwice(w: seq<Movie>, id: int)
    ensures !IsInWatchlist(w, id) ==> RemoveFromWatchlist(w, id) == w
    ensures RemoveFromWatchlist(RemoveFromWatchlist(w, id), id) == RemoveFromWatchlist(w, id)
  {
    if !HasId(w, id) {
      WithoutIdAbsent(w, id);
    }
    WithoutIdAbsent(WithoutId(w, id), id);
  }

  /** Adding a movie that was not listed and then removing its id gives back the watchlist. */
  lemma AddThenRemove(w: seq<Movie>, movie: Movie)
    requires !IsInWatchlist(w, movie.id)
    ensures RemoveFromWatchlist(AddToWatchlist(w, movie), movie.id) == w
  {
    WithoutIdAppend(w, [movie], movie.id);
    WithoutIdAbsent(w, movie.id);
  }

  /** Starting from unique ids, adding and removing keep them unique. */
  lemma OperationsKeepIdsUnique(w: seq<Movie>, movie: Movie, id: int)
    requires UniqueIds(w)
    ensures UniqueIds(AddToWatchlist(w, movie))
    ensures UniqueIds(RemoveFromWatchlist(w, id))
  {
    WithoutIdKeepsUnique(w, id);
    var r := AddToWatchlist(w, movie);
    if !HasId(w, movie.id) {
      forall i, j | 0 <= i < j < |r| ensures r[i].id != r[j].id {
        if j == |w| {
          assert r[i] == w[i];
        } else {
          assert r[i] == w[i] && r[j] == w[j];
        }
      }
    }
  }
}

/**
 * The movie card: poster address, year label and the favourite toggle. The favourites
 * list is what browser storage holds under "favorites" (`None` when nothing is stored,
 * read as an empty list); the card's own `isFavorite` flag is an input, since it is set
 * when the card appears and is not re-read from storage on each toggle.
 */
module MovieCard {
  import opened Wrappers
  import opened MovieLists

  const PosterPrefix: string := "https://image.tmdb.org/t/p/w500"
  const PlaceholderPoster: string := "https://placehold.co/300x450?text=No+Image"

  /** `poster_path` is truthy: present and not the empty string. */
  predicate HasPoster(movie: Movie)
  {
    movie.posterPath.Some? && movie.posterPath.value != ""
  }

  /** The poster address: the `w500` image address of the poster path, or the placeholder. */
  function PosterUrl(movie: Movie): (url: string)
    ensures HasPoster(movie) ==> |url| > |PosterPrefix| && url[..|PosterPrefix|] == PosterPrefix
                                 && url[|PosterPrefix|..] == movie.posterPath.value
    ensures !HasPoster(movie) ==> url == PlaceholderPoster
  {
    if HasPoster(movie) then PosterPrefix + movie.posterPath.value else PlaceholderPoster
  }

  /**
   * A poster address is never the placeholder, and it determines the poster path: two
   * movies with posters share an address exactly when they share the path.
   */
  lemma PosterUrlDistinguishes(movie: Movie, other: Movie)
    ensures HasPoster(movie) ==> PosterUrl(movie) != PlaceholderPoster
    ensures HasPoster(movie) && HasPoster(other) ==>
      (PosterUrl(movie) == PosterUrl(other) <==> movie.posterPath == other.posterPath)
  {
    if HasPoster(movie) {
      assert PosterUrl(movie)[8] == PosterPrefix[8] == 'i';
      assert PlaceholderPoster[8] == 'p';
    }
  }

  /** `release_date?.substring(0, 4)`: at most the first four characters; nothing without a date. */
  function YearLabel(movie: Movie): (year: Option<string>)
    ensures year.Some? <==> movie.releaseDate.Some?
    ensures year.Some? ==> var date := movie.releaseDate.value;
      && |year.value| == (if |date| < 4 then |date| else 4)
      && year.value == date[..|year.value|]
  {
    match movie.releaseDate
    case None => None
    case Some(date) => Some(if |date| < 4 then date else date[..4])
  }

  /**
   * `JSON.parse(localStorage.getItem("favorites")) || []`: with nothing stored `JSON.parse`
   * gives `null`, which is falsy; a stored array is truthy even when it is empty.
   */
  function LoadFavorites(stored: Option<seq<Movie>>): (favorites: seq<Movie>)
    ensures stored.None? ==> favorites == []
    ensures stored.Some? ==> favorites == stored.value
  {
    stored.GetOr([])
  }

  /** The flag a card starts with: whether some stored favourite has the movie's id. */
  function InitialIsFavorite(stored: Option<seq<Movie>>, movie: Movie): (b: bool)
    ensures b <==> exists i :: 0 <= i < |LoadFavorites(stored)| && LoadFavorites(stored)[i].id == movie.id
    ensures stored.None? ==> !b
  {
    HasId(LoadFavorites(stored), movie.id)
  }

  /** What a toggle leaves behind: the stored favourites and the card's flag. */
  datatype CardState = CardState(favorites: seq<Movie>, isFavorite: bool)

  /**
   * `toggleFavorite`: when the card shows the movie as a favourite, every stored entry with
   * its id is removed; otherwise the movie is appended, with no check for an entry already
   * there.
   */
  function ToggleFavorite(stored: Option<seq<Movie>>, isFavorite: bool, movie: Movie): (r: CardState)
    ensures isFavorite ==> !r.isFavorite && !HasId(r.favorites, movie.id)
    ensures isFavorite ==> forall m :: m in r.favorites <==> m in LoadFavorites(stored) && m.id != movie.id
    ensures isFavorite ==> forall m ::
      multiset(r.favorites)[m] == if m.id == movie.id then 0 else multiset(LoadFavorites(stored))[m]
    ensures !isFavorite ==> r.isFavorite && r.favorites == LoadFavorites(stored) + [movie]
  {
    var favorites := LoadFavorites(stored);
    WithoutIdCounts(favorites, movie.id);
    if isFavorite then CardState(WithoutId(favorites, movie.id), false)
    else CardState(favorites + [movie], true)
  }

  /** The card state after a toggle, as the next toggle finds it. */
  function Toggled(s: CardState, movie: Movie): CardState
  {
    ToggleFavorite(Some(s.favorites), s.isFavorite, movie)
  }

  /**
   * Toggling off filters in place: the favourites kept from two stretches of the list are
   * those kept from each, in the same order.
   */
  lemma ToggleOffPreservesOrder(a: seq<Movie>, b: seq<Movie>, movie: Movie)
    ensures ToggleFavorite(Some(a + b), true, movie).favorites
      == ToggleFavorite(Some(a), true, movie).favorites + ToggleFavorite(Some(b), true, movie).favorites
  {
    WithoutIdAppend(a, b, movie.id);
  }

  /**
   * `JSON.parse(...) || []`: a card behaves the same with nothing stored as with an empty
   * stored list; it starts as no favourite, and a toggle gives the same result.
   */
  lemma NothingStoredIsEmptyList(isFavorite: bool, movie: Movie)
    ensures InitialIsFavorite(None, movie) == InitialIsFavorite(Some([]), movie) == false
    ensures ToggleFavorite(None, isFavorite, movie) == ToggleFavorite(Some([]), isFavorite, movie)
  {
  }

  /** Toggling on and then off gives back a favourites list that did not hold the movie. */
  lemma ToggleOnThenOff(favorites: seq<Movie>, movie: Movie)
    requires !HasId(favorites, movie.id)
    ensures var on := ToggleFavorite(Some(favorites), false, movie);
      Toggled(on, movie) == CardState(favorites, false)
  {
    WithoutIdAppend(favorites, [movie], movie.id);
    WithoutIdAbsent(favorites, movie.id);
  }

  /** A flag that agrees with storage still agrees after a toggle. */
  lemma ToggleKeepsFlagInSync(stored: Option<seq<Movie>>, movie: Movie)
    ensures var r := ToggleFavorite(stored, InitialIsFavorite(stored, movie), movie);
      r.isFavorite == HasId(r.favorites, movie.id)
  {
    var r := ToggleFavorite(stored, InitialIsFavorite(stored, movie), movie);
    if r.isFavorite {
      assert r.favorites[|r.favorites| - 1] == movie;
    }
  }

  /**
   * Toggling on keeps entries unique only when the movie was not already stored: with a flag
   * that is out of date (false while storage holds the movie) the append duplicates it.
   */
  lemma ToggleOnUniqueness(favorites: seq<Movie>, movie: Movie)
    requires UniqueIds(favorites)
    ensures var r := ToggleFavorite(Some(favorites), false, movie);
      UniqueIds(r.favorites) <==> !HasId(favorites, movie.id)
  {
    var r := ToggleFavorite(Some(favorites), false, movie).favorites;
    if HasId(favorites, movie.id) {
      var i :| 0 <= i < |favorites| && favorites[i].id == movie.id;
      assert r[i].id == r[|favorites|].id;
    } else {
      forall i, j | 0 <= i < j < |r| ensures r[i].id != r[j].id {
        assert r[i] == favorites[i];
        if j < |favorites| {
          assert r[j] == favorites[j];
        }
      }
    }
  }

  /** Toggling off keeps entries unique. */
  lemma ToggleOffUniqueness(favorites: seq<Movie>, movie: Movie)
    requires UniqueIds(favorites)
    ensures UniqueIds(ToggleFavorite(Some(favorites), true, movie).favorites)
  {
    WithoutIdKeepsUnique(favorites, movie.id);
  }
}

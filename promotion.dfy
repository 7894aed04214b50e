/** `MovieDetails`: the favorite record `handleFavMovie` builds from the
    directory's detail response, and the user rating the detail view starts
    from. */
module Promotion {
  import opened JsValues
  import opened Favorites

  /** The detail response fields the view destructures. `Runtime` and
      `imdbRating` are `None` when the response lacks them, as OMDb's error
      payload `{"Response": "False", "Error": ...}` does. */
  datatype MovieDetail = MovieDetail(
    title: string,
    poster: string,
    year: string,
    runtime: Option<string>,
    genres: string,
    imdbRating: Option<string>,
    plot: string,
    imdbID: string)

  /** `Number(runtime.split(' ').at(0))`: the leading token of the runtime
      text, read as a number. */
  function RuntimeMinutes(runtime: string): JsNum
  {
    ToNumber(Before(runtime, ' '))
  }

  /** `Number(value)` for a value that may be `undefined`, which reads as NaN. */
  function NumberOf(value: Option<string>): JsNum
  {
    if value.Some? then ToNumber(value.value) else NaN
  }

  /** The `newFavorite` record of `handleFavMovie`, or `None` when a missing
      runtime makes `runtime.split(' ')` throw a TypeError. */
  function BuildFavorite(d: MovieDetail, userRating: int): Option<Favorite>
  {
    if d.runtime.None? then None
    else
      Some(Favorite(
        title := d.title,
        poster := d.poster,
        year := d.year,
        runtime := RuntimeMinutes(d.runtime.value),
        genres := d.genres,
        rating := NumberOf(d.imdbRating),
        overview := d.plot,
        imdbID := d.imdbID,
        userRating := userRating))
  }

  /** `favs.find(fav => fav.imdbID === id)`: the first record with the
      identifier, if any. */
  function Find(favs: seq<Favorite>, id: string): (r: Option<Favorite>)
    ensures r.None? <==> !HasId(favs, id)
    ensures r.Some? ==> exists k :: 0 <= k < |favs| && favs[k] == r.value && r.value.imdbID == id &&
                                    forall j :: 0 <= j < k ==> favs[j].imdbID != id
  {
    if favs == [] then None
    else if favs[0].imdbID == id then Some(favs[0])
    else
      var r := Find(favs[1..], id);
      if r.Some? then
        var k :| 0 <= k < |favs[1..]| && favs[1..][k] == r.value && r.value.imdbID == id &&
                 forall j :: 0 <= j < k ==> favs[1..][j].imdbID != id;
        assert favs[k + 1] == r.value;
        assert forall j :: 0 <= j < k + 1 ==> favs[j].imdbID != id by {
          forall j | 0 <= j < k + 1 ensures favs[j].imdbID != id {
            if j > 0 { assert favs[j] == favs[1..][j - 1]; }
          }
        }
        r
      else r
  }

  /** `favs.find(fav => fav.imdbID === id)?.userRating || 0`: the rating the
      detail view starts from. On an integer, `|| 0` only maps 0 to 0, so it
      is the found record's rating, or 0 when there is none. */
  function InitialUserRating(favs: seq<Favorite>, id: string): int
  {
    match Find(favs, id)
    case Some(f) => f.userRating
    case None => 0
  }

  /** A movie that is not a favorite starts unrated, whatever the list. */
  lemma InitialUserRatingAbsent(favs: seq<Favorite>, id: string)
    ensures !HasId(favs, id) ==> InitialUserRating(favs, id) == 0
    ensures InitialUserRating([], id) == 0
  {
  }

  /** With unique identifiers, a favorite starts from the rating stored in
      its record. */
  lemma InitialUserRatingOfFavorite(favs: seq<Favorite>, k: nat)
    requires UniqueIds(favs) && k < |favs|
    ensures InitialUserRating(favs, favs[k].imdbID) == favs[k].userRating
  {
    var r := Find(favs, favs[k].imdbID);
    assert HasId(favs, favs[k].imdbID) by {
      HasIdIff(favs, favs[k].imdbID);
    }
    var j :| 0 <= j < |favs| && favs[j] == r.value && r.value.imdbID == favs[k].imdbID &&
             forall i :: 0 <= i < j ==> favs[i].imdbID != favs[k].imdbID;
    assert favs[j].imdbID == favs[k].imdbID;
  }

  /** A runtime text "<n> <unit>" such as "142 min" yields n minutes. */
  lemma RuntimeMinutesOfNumeral(n: nat, unit: string)
    ensures RuntimeMinutes(DecimalString(n) + " " + unit) == Num(n as real)
  {
    var s := DecimalString(n);
    assert ' ' !in s by {
      forall i | 0 <= i < |s| ensures s[i] != ' ' {
        assert IsDigit(s[i]);
      }
    }
    BeforeFirstSeparator(s, ' ', unit);
    ToNumberOfDecimalString(n);
  }

  /** A runtime the directory does not know ("N/A") yields NaN minutes. */
  lemma RuntimeMinutesOfPlaceholder()
    ensures RuntimeMinutes("N/A").NaN?
  {
    assert Before("N/A", ' ') == "N/A" by {
      BeforeAbsent("N/A", ' ');
    }
    ToNumberOfPlaceholder();
  }

  /** "136 min" reads as 136 minutes. */
  lemma RuntimeExample()
    ensures RuntimeMinutes("136 min") == Num(136.0)
  {
    assert "136 min" == "136" + [' '] + "min";
    BeforeFirstSeparator("136", ' ', "min");
    BeforeAbsent("136", '.');
    assert AllDigits("136");
    assert "136"[..2] == "13" && "13"[..1] == "1" && "1"[..0] == [];
    assert DecimalValue("136") == 136;
  }

  /** "8.8" reads as 8.8. */
  lemma RatingExample()
    ensures ToNumber("8.8") == Num(8.8)
  {
    assert "8.8" == "8" + ['.'] + "8";
    BeforeFirstSeparator("8", '.', "8");
    assert "8.8"[2..] == "8";
    assert "8"[..0] == [];
    assert DecimalValue("8") == 8;
  }

  /** Promoting a detail with runtime "136 min", rating "8.8" and user rating
      9 gives runtime 136, rating 8.8 and user rating 9, and keeps the
      identifier. */
  lemma BuildFavoriteExample(d: MovieDetail)
    requires d.runtime == Some("136 min") && d.imdbRating == Some("8.8")
    ensures BuildFavorite(d, 9).Some?
    ensures BuildFavorite(d, 9).value.runtime == Num(136.0)
    ensures BuildFavorite(d, 9).value.rating == Num(8.8)
    ensures BuildFavorite(d, 9).value.userRating == 9
    ensures BuildFavorite(d, 9).value.imdbID == d.imdbID
  {
    RuntimeExample();
    RatingExample();
  }

  /** A detail without a runtime yields no record; one with a runtime but
      without a rating yields a record rated NaN. */
  lemma BuildFavoriteMissingFields(d: MovieDetail, userRating: int)
    ensures BuildFavorite(d, userRating).None? <==> d.runtime.None?
    ensures d.runtime.Some? && d.imdbRating.None? ==> BuildFavorite(d, userRating).value.rating.NaN?
  {
  }
}

/** `calculateStats`: the aggregate figures shown above the favorites list,
    computed by three `reduce` folds over the list. */
module Stats {
  import opened JsValues
  import opened Favorites

  datatype Stats = Stats(count: nat, avgRating: JsNum, avgUserRating: JsNum, totalMinutes: JsNum)

  function RatingOf(f: Favorite): JsNum { f.rating }
  function RuntimeOf(f: Favorite): JsNum { f.runtime }
  function UserRatingOf(f: Favorite): JsNum { Num(f.userRating as real) }

  /** `favs.reduce((sum, movie) => sum + field(movie), acc)`: a left fold,
      first element first. */
  function Reduce(favs: seq<Favorite>, field: Favorite -> JsNum, acc: JsNum): JsNum
  {
    if favs == [] then acc else Reduce(favs[1..], field, Add(acc, field(favs[0])))
  }

  /** `calculateStats()` without its `toFixed(1)` formatting. */
  function CalculateStats(favs: seq<Favorite>): Stats
  {
    if |favs| == 0 then Stats(0, Num(0.0), Num(0.0), Num(0.0))
    else
      var totalRating := Reduce(favs, RatingOf, Num(0.0));
      var totalUserRating := Reduce(favs, UserRatingOf, Num(0.0));
      var totalMinutes := Reduce(favs, RuntimeOf, Num(0.0));
      Stats(|favs|, DivBy(totalRating, |favs|), DivBy(totalUserRating, |favs|), totalMinutes)
  }

  /** Every record has a (non-NaN) number in `field`. */
  predicate AllNum(favs: seq<Favorite>, field: Favorite -> JsNum)
  {
    forall i :: 0 <= i < |favs| ==> field(favs[i]).Num?
  }

  /** The mathematical sum of `field` over the list, independent of the
      fold order. */
  function Total(favs: seq<Favorite>, field: Favorite -> JsNum): real
    requires AllNum(favs, field)
  {
    if favs == [] then 0.0 else field(favs[0]).v + Total(favs[1..], field)
  }

  /** The fold yields the sum when every value is a number, and NaN as
      soon as the start value or any one value is NaN. */
  lemma {:induction false} ReduceIsTotal(favs: seq<Favorite>, field: Favorite -> JsNum, acc: JsNum)
    ensures Reduce(favs, field, acc) ==
      if acc.Num? && AllNum(favs, field) then Num(acc.v + Total(favs, field)) else NaN
  {
    if favs != [] {
      var tail := favs[1..];
      assert AllNum(favs, field) <==> field(favs[0]).Num? && AllNum(tail, field) by {
        if field(favs[0]).Num? && AllNum(tail, field) {
          forall i | 0 <= i < |favs| ensures field(favs[i]).Num? {
            if i > 0 { assert favs[i] == tail[i - 1]; }
          }
        }
        if AllNum(favs, field) {
          forall i | 0 <= i < |tail| ensures field(tail[i]).Num? {
            assert tail[i] == favs[i + 1];
          }
        }
      }
      ReduceIsTotal(tail, field, Add(acc, field(favs[0])));
    }
  }

  /** Appending one record to the list adds its value to the fold. */
  lemma {:induction false} ReduceAppend(favs: seq<Favorite>, f: Favorite, field: Favorite -> JsNum, acc: JsNum)
    ensures Reduce(favs + [f], field, acc) == Add(Reduce(favs, field, acc), field(f))
  {
    if favs != [] {
      assert (favs + [f])[1..] == favs[1..] + [f];
      ReduceAppend(favs[1..], f, field, Add(acc, field(favs[0])));
    } else {
      assert [f][1..] == [];
    }
  }

  /** The figures `calculateStats` reports: all zeros for an empty list;
      otherwise the count is the length, the total minutes the sum of the
      runtimes, and the two averages the sums divided by the count, with a
      single NaN value turning its figure into NaN. */
  lemma CalculateStatsSpec(favs: seq<Favorite>)
    ensures favs == [] ==> CalculateStats(favs) == Stats(0, Num(0.0), Num(0.0), Num(0.0))
    ensures favs != [] ==> CalculateStats(favs).count == |favs|
    ensures favs != [] ==>
      CalculateStats(favs).totalMinutes ==
        (if AllNum(favs, RuntimeOf) then Num(Total(favs, RuntimeOf)) else NaN)
    ensures favs != [] ==>
      CalculateStats(favs).avgRating ==
        (if AllNum(favs, RatingOf) then Num(Total(favs, RatingOf) / |favs| as real) else NaN)
    ensures favs != [] ==>
      AllNum(favs, UserRatingOf) &&
      CalculateStats(favs).avgUserRating == Num(Total(favs, UserRatingOf) / |favs| as real)
  {
    ReduceIsTotal(favs, RatingOf, Num(0.0));
    ReduceIsTotal(favs, RuntimeOf, Num(0.0));
    ReduceIsTotal(favs, UserRatingOf, Num(0.0));
  }

  /** The sum of user ratings each between 0 and 10 lies between 0 and ten
      times the count. */
  lemma {:induction false} UserRatingTotalBounds(favs: seq<Favorite>)
    requires forall i :: 0 <= i < |favs| ==> 0 <= favs[i].userRating <= 10
    ensures AllNum(favs, UserRatingOf)
    ensures 0.0 <= Total(favs, UserRatingOf) <= 10.0 * |favs| as real
  {
    if favs != [] {
      var tail := favs[1..];
      forall i | 0 <= i < |tail| ensures 0 <= tail[i].userRating <= 10 {
        assert tail[i] == favs[i + 1];
      }
      UserRatingTotalBounds(tail);
    }
  }

  /** Dividing a sum bounded by 0 and 10n by n gives a value on the 0-10 scale. */
  lemma ScaleBounds(t: real, n: real)
    requires n > 0.0 && 0.0 <= t <= 10.0 * n
    ensures 0.0 <= t / n <= 10.0
  {
    assert t / n <= 10.0 * n / n;
  }

  /** With user ratings on the 0-10 scale, the average user rating is on
      that scale too. */
  lemma AverageUserRatingInScale(favs: seq<Favorite>)
    requires forall i :: 0 <= i < |favs| ==> 0 <= favs[i].userRating <= 10
    ensures CalculateStats(favs).avgUserRating.Num?
    ensures 0.0 <= CalculateStats(favs).avgUserRating.v <= 10.0
  {
    if favs != [] {
      UserRatingTotalBounds(favs);
      ReduceIsTotal(favs, UserRatingOf, Num(0.0));
      ScaleBounds(Total(favs, UserRatingOf), |favs| as real);
    }
  }

  /** Adding a record with a new identifier raises the count by one and adds
      its runtime to the total minutes. */
  lemma StatsAfterAdding(favs: seq<Favorite>, f: Favorite)
    requires !HasId(favs, f.imdbID)
    ensures CalculateStats(Toggle(favs, f)).count == CalculateStats(favs).count + 1
    ensures CalculateStats(Toggle(favs, f)).totalMinutes ==
      Add(CalculateStats(favs).totalMinutes, f.runtime)
  {
    ReduceAppend(favs, f, RuntimeOf, Num(0.0));
  }

  /** Two favorites with runtimes 120 and 150, ratings 8 and 7 and user
      ratings 9 and 10 give count 2, averages 7.5 and 9.5 and 270 minutes. */
  lemma TwoFavoritesExample(a: Favorite, b: Favorite)
    requires a.runtime == Num(120.0) && a.rating == Num(8.0) && a.userRating == 9
    requires b.runtime == Num(150.0) && b.rating == Num(7.0) && b.userRating == 10
    ensures CalculateStats([a, b]) == Stats(2, Num(7.5), Num(9.5), Num(270.0))
  {
    var favs := [a, b];
    assert favs[1..] == [b] && [b][1..] == [];
    assert Reduce(favs, RuntimeOf, Num(0.0)) == Reduce([b], RuntimeOf, Num(120.0)) == Num(270.0);
    assert Reduce(favs, RatingOf, Num(0.0)) == Reduce([b], RatingOf, Num(8.0)) == Num(15.0);
    assert Reduce(favs, UserRatingOf, Num(0.0)) == Reduce([b], UserRatingOf, Num(9.0)) == Num(19.0);
  }
}

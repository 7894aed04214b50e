/** The favorites list kept by `App` and the toggle `handleAddFavorite`
    applies to it: records are keyed by their `imdbID`. */
module Favorites {
  import opened JsValues

  /** A favorite record as `handleFavMovie` builds it. */
  datatype Favorite = Favorite(
    title: string,
    poster: string,
    year: string,
    runtime: JsNum,
    genres: string,
    rating: JsNum,
    overview: string,
    imdbID: string,
    userRating: int)

  /** At most one record per identifier. */
  predicate UniqueIds(favs: seq<Favorite>)
  {
    forall i, j :: 0 <= i < j < |favs| ==> favs[i].imdbID != favs[j].imdbID
  }

  /** `favs.some(movie => movie.imdbID === id)`. */
  predicate HasId(favs: seq<Favorite>, id: string)
  {
    favs != [] && (favs[0].imdbID == id || HasId(favs[1..], id))
  }

  /** `favs.filter(movie => movie.imdbID !== id)`. */
  function Without(favs: seq<Favorite>, id: string): (r: seq<Favorite>)
    ensures |r| <= |favs|
    ensures forall g :: g in r ==> g in favs && g.imdbID != id
    ensures forall g :: g in favs && g.imdbID != id ==> g in r
  {
    if favs == [] then []
    else if favs[0].imdbID != id then [favs[0]] + Without(favs[1..], id)
    else Without(favs[1..], id)
  }

  /** The list `handleAddFavorite(f)` leaves behind: drop every record with
      `f`'s identifier if there is one, otherwise append `f`. */
  function Toggle(favs: seq<Favorite>, f: Favorite): seq<Favorite>
  {
    if HasId(favs, f.imdbID) then Without(favs, f.imdbID) else favs + [f]
  }

  /** `some` finds exactly the identifiers that occur at some index. */
  lemma {:induction false} HasIdIff(favs: seq<Favorite>, id: string)
    ensures HasId(favs, id) <==> exists i :: 0 <= i < |favs| && favs[i].imdbID == id
  {
    if favs != [] {
      HasIdIff(favs[1..], id);
      if HasId(favs[1..], id) {
        var i :| 0 <= i < |favs[1..]| && favs[1..][i].imdbID == id;
        assert favs[i + 1].imdbID == id;
      }
      if exists i :: 0 <= i < |favs| && favs[i].imdbID == id {
        var i :| 0 <= i < |favs| && favs[i].imdbID == id;
        if i > 0 {
          assert favs[1..][i - 1].imdbID == id;
        }
      }
    }
  }

  /** Filtering commutes with concatenation: the survivors keep their
      original relative order. */
  lemma {:induction false} WithoutAppend(a: seq<Favorite>, b: seq<Favorite>, id: string)
    ensures Without(a + b, id) == Without(a, id) + Without(b, id)
  {
    if a != [] {
      assert (a + b)[1..] == a[1..] + b;
      WithoutAppend(a[1..], b, id);
    } else {
      assert a + b == b;
    }
  }

  /** Filtering out an identifier that does not occur changes nothing. */
  lemma {:induction false} WithoutAbsent(favs: seq<Favorite>, id: string)
    requires !HasId(favs, id)
    ensures Without(favs, id) == favs
  {
    if favs != [] {
      WithoutAbsent(favs[1..], id);
      assert favs == [favs[0]] + favs[1..];
    }
  }

  /** In a list with unique identifiers, the identifier at index `k` occurs
      neither before nor after `k`. */
  lemma UniqueElsewhereAbsent(favs: seq<Favorite>, k: nat)
    requires UniqueIds(favs) && k < |favs|
    ensures !HasId(favs[..k], favs[k].imdbID)
    ensures !HasId(favs[k + 1..], favs[k].imdbID)
  {
    var id := favs[k].imdbID;
    HasIdIff(favs[..k], id);
    HasIdIff(favs[k + 1..], id);
    forall i | 0 <= i < k ensures favs[..k][i].imdbID != id {
      assert favs[..k][i] == favs[i];
    }
    var after := favs[k + 1..];
    forall i | 0 <= i < |after| ensures after[i].imdbID != id {
      assert after[i] == favs[k + 1 + i];
    }
  }

  /** Filtering out the identifier of the one record that carries it removes
      exactly that record. */
  lemma {:induction false} WithoutSingle(before: seq<Favorite>, x: Favorite, after: seq<Favorite>)
    requires !HasId(before, x.imdbID) && !HasId(after, x.imdbID)
    ensures Without(before + [x] + after, x.imdbID) == before + after
  {
    var rest := [x] + after;
    assert before + [x] + after == before + rest;
    WithoutAppend(before, rest, x.imdbID);
    WithoutAbsent(before, x.imdbID);
    assert rest[1..] == after;
    WithoutAbsent(after, x.imdbID);
  }

  /** On a list with unique identifiers, filtering out the identifier of
      the record at index `k` removes exactly that record. */
  lemma WithoutUniqueAt(favs: seq<Favorite>, k: nat)
    requires UniqueIds(favs) && k < |favs|
    ensures Without(favs, favs[k].imdbID) == favs[..k] + favs[k + 1..]
  {
    UniqueElsewhereAbsent(favs, k);
    assert favs == favs[..k] + [favs[k]] + favs[k + 1..];
    WithoutSingle(favs[..k], favs[k], favs[k + 1..]);
  }

  /** Removing one record keeps the identifiers unique. */
  lemma UniqueWithoutIndex(favs: seq<Favorite>, k: nat)
    requires UniqueIds(favs) && k < |favs|
    ensures UniqueIds(favs[..k] + favs[k + 1..])
  {
    var r := favs[..k] + favs[k + 1..];
    forall i, j | 0 <= i < j < |r| ensures r[i].imdbID != r[j].imdbID {
      var i' := if i < k then i else i + 1;
      var j' := if j < k then j else j + 1;
      assert r[i] == favs[i'] && r[j] == favs[j'];
    }
  }

  /** Appending a record with a new identifier keeps the identifiers unique. */
  lemma UniqueAppend(favs: seq<Favorite>, f: Favorite)
    requires UniqueIds(favs) && !HasId(favs, f.imdbID)
    ensures UniqueIds(favs + [f])
  {
    HasIdIff(favs, f.imdbID);
    var r := favs + [f];
    forall i, j | 0 <= i < j < |r| ensures r[i].imdbID != r[j].imdbID {
      assert r[i] == favs[i];
    }
  }

  /** Toggling appends the record at the end, leaving every existing entry
      where it was, exactly when its identifier is absent. */
  lemma ToggleAbsentAppends(favs: seq<Favorite>, f: Favorite)
    ensures Toggle(favs, f) == favs + [f] <==> !HasId(favs, f.imdbID)
  {
  }

  /** Toggling a record whose identifier is present removes every entry with
      that identifier, keeps all the others and adds nothing. */
  lemma TogglePresentRemoves(favs: seq<Favorite>, f: Favorite, k: nat)
    requires k < |favs| && favs[k].imdbID == f.imdbID
    ensures forall g :: g in Toggle(favs, f) ==> g in favs && g.imdbID != f.imdbID
    ensures forall g :: g in favs && g.imdbID != f.imdbID ==> g in Toggle(favs, f)
    ensures |Toggle(favs, f)| < |favs|
  {
    HasIdIff(favs, f.imdbID);
    WithoutAppend(favs[..k], favs[k..], f.imdbID);
    assert favs == favs[..k] + favs[k..];
    assert favs[k..] == [favs[k]] + favs[k + 1..];
  }

  /** Toggling keeps the identifiers unique, and the length moves by exactly
      one: up when the record was absent, down when it was present. */
  lemma ToggleKeepsUniqueIds(favs: seq<Favorite>, f: Favorite)
    requires UniqueIds(favs)
    ensures UniqueIds(Toggle(favs, f))
    ensures |Toggle(favs, f)| == if HasId(favs, f.imdbID) then |favs| - 1 else |favs| + 1
  {
    HasIdIff(favs, f.imdbID);
    if HasId(favs, f.imdbID) {
      var k :| 0 <= k < |favs| && favs[k].imdbID == f.imdbID;
      WithoutUniqueAt(favs, k);
      UniqueWithoutIndex(favs, k);
    } else {
      UniqueAppend(favs, f);
    }
  }

  /** Toggling a record with an absent identifier twice in a row restores the
      original list exactly. */
  lemma ToggleTwiceRestores(favs: seq<Favorite>, f: Favorite)
    requires !HasId(favs, f.imdbID)
    ensures Toggle(Toggle(favs, f), f) == favs
  {
    var added := favs + [f];
    HasIdIff(added, f.imdbID);
    assert added[|favs|].imdbID == f.imdbID;
    WithoutAppend(favs, [f], f.imdbID);
    WithoutAbsent(favs, f.imdbID);
  }

  /** A record that is present as the last entry and nowhere else comes back
      to the same place after two toggles. */
  lemma ToggleTwiceLastRestores(favs: seq<Favorite>, f: Favorite)
    requires !HasId(favs, f.imdbID)
    ensures Toggle(Toggle(favs + [f], f), f) == favs + [f]
  {
    var added := favs + [f];
    HasIdIff(added, f.imdbID);
    assert added[|favs|].imdbID == f.imdbID;
    WithoutAppend(favs, [f], f.imdbID);
    WithoutAbsent(favs, f.imdbID);
    assert [f][1..] == [];
    assert Toggle(added, f) == favs;
  }

  /** When the identifier was already present, two toggles need not restore
      the list: the record comes back as the new record, at the end. */
  lemma ToggleTwiceMovesToEnd(a: Favorite, b: Favorite)
    requires a.imdbID != b.imdbID
    ensures Toggle(Toggle([a, b], a), a) == [b, a]
    ensures Toggle(Toggle([a, b], a), a) != [a, b]
  {
    assert HasId([a, b], a.imdbID);
    assert [a, b][1..] == [b];
    assert Toggle([a, b], a) == [b];
    assert [b][1..] == [];
    assert !HasId([b], a.imdbID);
  }
}

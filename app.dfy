/** The state of the `App` component (search text, search results, selected
    movie, favorites) and the event handlers that change it. */
module App {
  import opened JsValues
  import opened Favorites
  import opened Promotion

  /** One search result as the directory returns it. */
  datatype Summary = Summary(imdbID: string, title: string, year: string, poster: string)

  /** The component's four state slots. `selectedId == None` is `null`,
      for which the favorites list is shown instead of a detail view. */
  datatype Model = Model(
    search: string,
    movies: seq<Summary>,
    selectedId: Option<string>,
    favorites: seq<Favorite>)

  /** The search query runs only from this many characters on. */
  const MinQueryLength: nat := 3

  /** The `enabled` flag of the movie search query. */
  predicate SearchEnabled(search: string)
  {
    |search| >= MinQueryLength
  }

  /** The state on first render: the stored favorites when the durable slot
      holds a list, otherwise none. */
  function Initial(stored: Option<seq<Favorite>>): Model
  {
    Model("", [], None, if stored.Some? then stored.value else [])
  }

  /** `handleReset`: the Escape key clears the search and its results. */
  function KeyDown(m: Model, key: string): Model
  {
    if key == "Escape" then m.(search := "", movies := []) else m
  }

  /** `handleSelectId`: selecting the current movie again collapses the
      detail view; every selection clears the search text. */
  function SelectId(m: Model, id: Option<string>): Model
  {
    m.(selectedId := if m.selectedId == id then None else id, search := "")
  }

  /** `handleAddFavorite`: toggle the record; only when it was added is
      `handleSelectId(null)` called as well. */
  function AddFavorite(m: Model, f: Favorite): Model
  {
    var toggled := m.(favorites := Toggle(m.favorites, f));
    if HasId(m.favorites, f.imdbID) then toggled else SelectId(toggled, None)
  }

  /** The search box's `onChange`. */
  function EditSearch(m: Model, text: string): Model
  {
    m.(search := text)
  }

  /** The effect on the query's `data`: a result list replaces the shown
      movies, an absent result leaves them. */
  function ReceiveMovies(m: Model, data: Option<seq<Summary>>): Model
  {
    if data.Some? then m.(movies := data.value) else m
  }

  /** `handleBack` of the detail view. */
  function Back(m: Model): Model
  {
    m.(selectedId := None)
  }

  /** `handleFavMovie`: build the record, toggle it, close the detail view.
      When the detail has no runtime, building the record throws before any
      state update, so nothing changes. */
  function FavMovie(m: Model, d: MovieDetail, userRating: int): Model
  {
    match BuildFavorite(d, userRating)
    case None => m
    case Some(f) => Back(AddFavorite(m, f))
  }

  /** The events the component reacts to. */
  datatype Event =
    | Key(key: string)
    | Select(id: Option<string>)
    | Edit(text: string)
    | Results(data: Option<seq<Summary>>)
    | Promote(detail: MovieDetail, userRating: int)
    | GoBack

  function Step(m: Model, e: Event): Model
  {
    match e
    case Key(key) => KeyDown(m, key)
    case Select(id) => SelectId(m, id)
    case Edit(text) => EditSearch(m, text)
    case Results(data) => ReceiveMovies(m, data)
    case Promote(d, rating) => FavMovie(m, d, rating)
    case GoBack => Back(m)
  }

  /** The state after a sequence of events, handled one at a time in order. */
  function Run(m: Model, events: seq<Event>): Model
    decreases |events|
  {
    if events == [] then m else Run(Step(m, events[0]), events[1..])
  }

  /** While the query is disabled, only typing a text of at least three
      characters enables it: no other event can. */
  lemma QueryEnabledOnlyByTyping(m: Model, e: Event)
    requires !SearchEnabled(m.search)
    ensures SearchEnabled(Step(m, e).search) <==> e.Edit? && |e.text| >= 3
  {
  }

  /** Escape clears the search text and results and disables the query;
      any other key changes nothing; selection and favorites never change. */
  lemma KeyDownSpec(m: Model, key: string)
    ensures KeyDown(m, key).selectedId == m.selectedId
    ensures KeyDown(m, key).favorites == m.favorites
    ensures key == "Escape" ==>
      KeyDown(m, key).search == "" && KeyDown(m, key).movies == [] &&
      !SearchEnabled(KeyDown(m, key).search)
    ensures key != "Escape" ==> KeyDown(m, key) == m
    ensures KeyDown(KeyDown(m, key), key) == KeyDown(m, key)
  {
  }

  /** Selection is a two-state toggle: the result is `null` exactly when the
      same identifier (or `null`) was selected, otherwise the new
      identifier; the search text is always cleared. */
  lemma SelectIdSpec(m: Model, id: Option<string>)
    ensures SelectId(m, id).selectedId.None? <==> id.None? || m.selectedId == id
    ensures id.Some? && m.selectedId != id ==> SelectId(m, id).selectedId == id
    ensures SelectId(m, id).search == "" && !SearchEnabled(SelectId(m, id).search)
    ensures SelectId(m, id).movies == m.movies && SelectId(m, id).favorites == m.favorites
  {
  }

  /** Selecting the same movie twice from the favorites view returns to the
      favorites view. */
  lemma SelectTwiceCollapses(m: Model, id: string)
    requires m.selectedId.None?
    ensures SelectId(SelectId(m, Some(id)), Some(id)).selectedId.None?
  {
  }

  /** Adding a record with a new identifier appends it, clears the
      selection and the search; toggling a present one removes it and
      leaves selection, search and results as they were. */
  lemma AddFavoriteSpec(m: Model, f: Favorite)
    ensures AddFavorite(m, f).movies == m.movies
    ensures !HasId(m.favorites, f.imdbID) ==>
      AddFavorite(m, f).favorites == m.favorites + [f] &&
      AddFavorite(m, f).selectedId.None? && AddFavorite(m, f).search == ""
    ensures HasId(m.favorites, f.imdbID) ==>
      AddFavorite(m, f).favorites == Without(m.favorites, f.imdbID) &&
      AddFavorite(m, f).selectedId == m.selectedId && AddFavorite(m, f).search == m.search
  {
    HasIdIff(m.favorites, f.imdbID);
  }

  /** After a promotion the detail view is closed and the favorites list is
      the toggle of the built record; the search is cleared only when the
      record was added. A detail without a runtime changes nothing. */
  lemma FavMovieSpec(m: Model, d: MovieDetail, userRating: int)
    ensures d.runtime.None? ==> FavMovie(m, d, userRating) == m
    ensures d.runtime.Some? ==>
      FavMovie(m, d, userRating).selectedId.None? &&
      FavMovie(m, d, userRating).favorites == Toggle(m.favorites, BuildFavorite(d, userRating).value) &&
      FavMovie(m, d, userRating).movies == m.movies &&
      FavMovie(m, d, userRating).search == (if HasId(m.favorites, d.imdbID) then m.search else "")
  {
  }

  /** Every event keeps the favorites' identifiers unique. */
  lemma StepKeepsUniqueIds(m: Model, e: Event)
    requires UniqueIds(m.favorites)
    ensures UniqueIds(Step(m, e).favorites)
  {
    if e.Promote? && BuildFavorite(e.detail, e.userRating).Some? {
      ToggleKeepsUniqueIds(m.favorites, BuildFavorite(e.detail, e.userRating).value);
    }
  }

  /** Any sequence of events keeps the favorites' identifiers unique. */
  lemma {:induction false} RunKeepsUniqueIds(m: Model, events: seq<Event>)
    requires UniqueIds(m.favorites)
    ensures UniqueIds(Run(m, events).favorites)
    decreases |events|
  {
    if events != [] {
      StepKeepsUniqueIds(m, events[0]);
      RunKeepsUniqueIds(Step(m, events[0]), events[1..]);
    }
  }

  /** Promoting the same new movie twice in a row (add, then remove) leaves
      the favorites list as it was. */
  lemma PromoteTwiceRestores(m: Model, d: MovieDetail, userRating: int)
    requires !HasId(m.favorites, d.imdbID)
    ensures Run(m, [Promote(d, userRating), Promote(d, userRating)]).favorites == m.favorites
  {
    var e := Promote(d, userRating);
    assert [e, e][1..] == [e] && [e][1..] == [];
    var once := Step(m, e);
    assert Run(m, [e, e]) == Run(once, [e]) == Step(once, e);
    if d.runtime.Some? {
      ToggleTwiceRestores(m.favorites, BuildFavorite(d, userRating).value);
    }
  }

  /** The component's state, updated in place by its handlers. */
  class AppState {
    var search: string
    var movies: seq<Summary>
    var selectedId: Option<string>
    var favorites: seq<Favorite>

    function State(): Model
      reads this
    {
      Model(search, movies, selectedId, favorites)
    }

    /** The `useState` initialisers; `stored` is the parsed durable slot. */
    constructor (stored: Option<seq<Favorite>>)
      ensures State() == Initial(stored)
    {
      search := "";
      movies := [];
      selectedId := None;
      favorites := if stored.Some? then stored.value else [];
    }

    method HandleReset(key: string)
      modifies this
      ensures State() == KeyDown(old(State()), key)
    {
      if key == "Escape" {
        search := "";
        movies := [];
      }
    }

    method HandleSelectId(id: Option<string>)
      modifies this
      ensures State() == SelectId(old(State()), id)
    {
      selectedId := if selectedId == id then None else id;
      search := "";
    }

    method HandleAddFavorite(f: Favorite)
      modifies this
      ensures State() == AddFavorite(old(State()), f)
      ensures UniqueIds(old(favorites)) ==> UniqueIds(favorites)
    {
      if UniqueIds(favorites) {
        ToggleKeepsUniqueIds(favorites, f);
      }
      if HasId(favorites, f.imdbID) {
        favorites := Without(favorites, f.imdbID);
        return;
      }
      favorites := favorites + [f];
      HandleSelectId(None);
    }

    method SetSearch(text: string)
      modifies this
      ensures State() == EditSearch(old(State()), text)
    {
      search := text;
    }

    method ReceiveData(data: Option<seq<Summary>>)
      modifies this
      ensures State() == ReceiveMovies(old(State()), data)
    {
      if data.Some? {
        movies := data.value;
      }
    }

    method HandleBack()
      modifies this
      ensures State() == Back(old(State()))
    {
      selectedId := None;
    }

    method HandleFavMovie(d: MovieDetail, userRating: int)
      modifies this
      ensures State() == FavMovie(old(State()), d, userRating)
      ensures UniqueIds(old(favorites)) ==> UniqueIds(favorites)
    {
      var newFavorite := BuildFavorite(d, userRating);
      if newFavorite.None? {
        // `runtime.split` throws: the handler stops before any update
        return;
      }
      HandleAddFavorite(newFavorite.value);
      HandleBack();
    }
  }
}

# movie-rater: a verified model of the App component's state logic

movie-rater is a browser application for searching a third-party movie
directory (OMDb), inspecting a movie's details, keeping a list of favorite
movies with personal ratings, and showing statistics over those favorites.
All of its state logic lives in the `App` component of `src/App.jsx`. This
project lifts that logic out of React and models it in Dafny:

- `js_values.dfy` (module `JsValues`): the JavaScript values the logic relies
  on. `null` is `Option`. A number is `JsNum`, an exact real or NaN. It also
  models `Number(string)` and the first element of `string.split(sep)`.
- `favorites.dfy` (module `Favorites`): the favorite record and the toggle
  that `handleAddFavorite` applies to the favorites list. The list is keyed
  by `imdbID`, and identifiers stay unique.
- `stats.dfy` (module `Stats`): `calculateStats`, three `reduce` folds over
  the favorites.
- `promotion.dfy` (module `Promotion`): the record `handleFavMovie` builds
  from a detail response. Its runtime is the leading token of the runtime
  text. The detail view's initial user rating is looked up from the
  favorites.
- `app.dfy` (module `App`): the component's four state slots (`search`,
  `movies`, `selectedId`, `favorites`) as a `Model` value, one pure
  transition function per event handler, and the class `AppState`. Its
  handler methods update the fields in place, and each method is specified by
  its transition function. The events are the Escape key, selection, typing,
  query results, promotion and the back button. The lemmas about these
  transitions include that every event sequence keeps favorite identifiers
  unique.

What the code does, which the model follows:

- Two toggles of an absent record always restore the list
  (`Favorites.ToggleTwiceRestores`). A present record is first removed and
  then re-appended at the end, so the list comes back only if that record was
  already its last entry (`Favorites.ToggleTwiceLastRestores`,
  `Favorites.ToggleTwiceMovesToEnd`).
- A malformed stored favorites value is not tolerated: `JSON.parse` at
  `src/App.jsx:21` throws. The model starts from the already parsed value.
- Every selection clears the search text, including a selection that
  collapses the current one. So does the add branch of `handleAddFavorite`,
  because it calls `handleSelectId(null)`.
- A detail response without a runtime (OMDb's error payload has none) makes
  `runtime.split(' ')` throw when the favorite button is pressed, before any
  state update: the model's `FavMovie` leaves the state unchanged then.
- A search that throws (a network error or a non-ok status) is logged and
  `fetchMovies` returns `undefined`, so the shown results stay as they were.
  A response without a `Search` field, such as OMDb's "not found" payload,
  returns `[]`, which clears them (`App.ReceiveMovies` with `Some([])`).

## Model

| member | source | states |
|---|---|---|
| `JsValues.Before` | src/App.jsx:425 | `split(' ').at(0)`: the result is a prefix of the text, holds no separator, and is followed by the separator whenever it is shorter than the text |
| `JsValues.Add` | src/App.jsx:81-89 | JavaScript `+` on numbers, NaN absorbing; specified by `Stats.ReduceIsTotal` and `Stats.ReduceAppend` |
| `JsValues.DivBy` | src/App.jsx:93-94 | JavaScript `/` by the positive count; specified by `Stats.CalculateStatsSpec` |
| `JsValues.ToNumber` | src/App.jsx:425-427 | `Number(text)`; specified by `JsValues.ToNumberOfDecimalString`, `JsValues.ToNumberOfPlaceholder` and `Promotion.RatingExample` |
| `JsValues.ToNumberOfDecimalString` | src/App.jsx:425 | `Number` reads the decimal numeral of every natural number back as that number |
| `JsValues.ToNumberOfPlaceholder` | src/App.jsx:425-427 | `Number("N/A")`, the directory's placeholder for an unknown runtime or rating, is NaN |
| `Favorites.HasId` | src/App.jsx:60 | `some` on the identifier; specified by `Favorites.HasIdIff` |
| `Favorites.Toggle` | src/App.jsx:59-67 | the list `handleAddFavorite` leaves behind; specified by `Favorites.ToggleAbsentAppends`, `Favorites.TogglePresentRemoves`, `Favorites.ToggleKeepsUniqueIds` and `Favorites.ToggleTwiceRestores` |
| `Favorites.HasIdIff` | src/App.jsx:60 | `some(movie => movie.imdbID === id)` holds exactly when some index carries the identifier |
| `Favorites.Without` | src/App.jsx:61-63 | the filter never grows the list, keeps only records of the list whose identifier differs, and keeps every such record |
| `Favorites.WithoutAppend` | src/App.jsx:61-63 | filtering distributes over concatenation, so the survivors keep their relative order |
| `Favorites.WithoutAbsent` | src/App.jsx:61-63 | filtering out an identifier that does not occur returns the list unchanged |
| `Favorites.WithoutUniqueAt` | src/App.jsx:60-64 | on a list with unique identifiers, removing the identifier at index k removes exactly the record at k and keeps the rest in order |
| `Favorites.ToggleAbsentAppends` | src/App.jsx:59-67 | toggling appends the record at the end and leaves every existing entry in place exactly when its identifier is absent |
| `Favorites.TogglePresentRemoves` | src/App.jsx:60-64 | toggling a record whose identifier is present leaves only records of the old list with other identifiers, keeps all of them, and shortens the list |
| `Favorites.ToggleKeepsUniqueIds` | src/App.jsx:59-67 | unique identifiers stay unique, and the length changes by exactly -1 (was present) or +1 (was absent) |
| `Favorites.ToggleTwiceRestores` | src/App.jsx:59-67 | toggling a record with an absent identifier twice returns exactly the original list |
| `Favorites.ToggleTwiceLastRestores` | src/App.jsx:59-67 | a record present only as the last entry is removed and re-appended in the same place, so two toggles restore the list |
| `Favorites.ToggleTwiceMovesToEnd` | src/App.jsx:59-67 | toggling a present record twice does not restore the list: [a, b] becomes [b, a] |
| `Stats.Reduce` | src/App.jsx:81-89 | the `reduce` left fold; specified by `Stats.ReduceIsTotal` and `Stats.ReduceAppend` |
| `Stats.CalculateStats` | src/App.jsx:71-97 | `calculateStats` without formatting; specified by `Stats.CalculateStatsSpec`, `Stats.AverageUserRatingInScale` and `Stats.StatsAfterAdding` |
| `Stats.ReduceIsTotal` | src/App.jsx:81-89 | each `reduce` fold equals the start value plus the sum of the field when every value is a number, and NaN otherwise |
| `Stats.ReduceAppend` | src/App.jsx:86-89 | folding a list with one more record adds that record's value to the fold |
| `Stats.CalculateStatsSpec` | src/App.jsx:71-96 | empty list: count 0 and all figures 0; otherwise count = length, totalMinutes = sum of runtimes, and each average = its sum / length, with NaN when any value is NaN |
| `Stats.UserRatingTotalBounds` | src/App.jsx:82-85 | the sum of user ratings on the 0-10 scale lies between 0 and 10 times the count |
| `Stats.AverageUserRatingInScale` | src/App.jsx:82-94 | with user ratings on the 0-10 scale, the average user rating is a number between 0 and 10 |
| `Stats.StatsAfterAdding` | src/App.jsx:67-92 | adding a favorite with a new identifier raises the count by one and adds its runtime to totalMinutes |
| `Stats.TwoFavoritesExample` | src/App.jsx:71-96 | runtimes 120 and 150, ratings 8 and 7, user ratings 9 and 10 give count 2, averages 7.5 and 9.5, and 270 minutes |
| `Promotion.Find` | src/App.jsx:385 | `find` returns nothing exactly when the identifier is absent, and otherwise the record at the first index carrying it |
| `Promotion.RuntimeMinutes` | src/App.jsx:425 | `Number(runtime.split(' ').at(0))`; specified by `Promotion.RuntimeMinutesOfNumeral`, `Promotion.RuntimeMinutesOfPlaceholder` and `Promotion.RuntimeExample` |
| `Promotion.NumberOf` | src/App.jsx:427 | `Number(rating)` where the rating may be `undefined`; specified by `Promotion.BuildFavoriteMissingFields` and `Promotion.RatingExample` |
| `Promotion.BuildFavorite` | src/App.jsx:421-431 | the `newFavorite` record, or none when a missing runtime makes line 425 throw; specified by `Promotion.BuildFavoriteExample` and `Promotion.BuildFavoriteMissingFields` |
| `Promotion.InitialUserRating` | src/App.jsx:384-386 | `find(...)?.userRating \|\| 0`; specified by `Promotion.InitialUserRatingAbsent` and `Promotion.InitialUserRatingOfFavorite` |
| `Promotion.InitialUserRatingAbsent` | src/App.jsx:384-386 | on any list, including the empty one, a movie that is not a favorite starts from 0 |
| `Promotion.InitialUserRatingOfFavorite` | src/App.jsx:384-386 | with unique identifiers, a favorite starts from the rating stored in its record |
| `Promotion.RuntimeMinutesOfNumeral` | src/App.jsx:425 | a runtime text "n unit" (e.g. "142 min") yields n minutes, for every natural n |
| `Promotion.RuntimeMinutesOfPlaceholder` | src/App.jsx:425 | a runtime text "N/A" yields NaN minutes |
| `Promotion.RuntimeExample` | src/App.jsx:425 | "136 min" yields 136 |
| `Promotion.RatingExample` | src/App.jsx:427 | "8.8" yields 8.8 |
| `Promotion.BuildFavoriteExample` | src/App.jsx:420-431 | a detail with runtime "136 min" and rating "8.8", promoted with user rating 9, gives a record with runtime 136, rating 8.8, user rating 9 and the same identifier |
| `Promotion.BuildFavoriteMissingFields` | src/App.jsx:421-431 | no record is built exactly when the runtime is missing; a missing rating gives a NaN rating |
| `App.SearchEnabled` | src/App.jsx:27 | the `enabled` gate `search.length >= 3`; specified by `App.QueryEnabledOnlyByTyping`, `App.KeyDownSpec` and `App.SelectIdSpec` |
| `App.Initial` | src/App.jsx:16-22 | the state on first render; specified by `App.AppState.constructor` |
| `App.KeyDown` | src/App.jsx:47-52 | `handleReset`; specified by `App.KeyDownSpec` |
| `App.SelectId` | src/App.jsx:54-57 | `handleSelectId`; specified by `App.SelectIdSpec` and `App.SelectTwiceCollapses` |
| `App.AddFavorite` | src/App.jsx:59-69 | `handleAddFavorite`; specified by `App.AddFavoriteSpec` |
| `App.EditSearch` | src/App.jsx:197 | the search box's change handler; specified by `App.QueryEnabledOnlyByTyping` |
| `App.ReceiveMovies` | src/App.jsx:30-34 | the effect on the query's data; specified by `App.AppState.ReceiveData` |
| `App.Back` | src/App.jsx:405-407 | `handleBack`; specified by `App.AppState.HandleBack` |
| `App.FavMovie` | src/App.jsx:420-435 | `handleFavMovie`; specified by `App.FavMovieSpec` and `App.PromoteTwiceRestores` |
| `App.QueryEnabledOnlyByTyping` | src/App.jsx:27 | while the search is disabled (fewer than 3 characters), only typing a text of at least 3 characters enables it |
| `App.KeyDownSpec` | src/App.jsx:47-52 | Escape clears the search and the results, which disables the query; any other key changes nothing; selection and favorites never change; repeating a key changes nothing more |
| `App.SelectIdSpec` | src/App.jsx:54-57 | the new selection is null exactly when the id is null or equals the current one, and otherwise is the id; the search is cleared; results and favorites are unchanged |
| `App.SelectTwiceCollapses` | src/App.jsx:54-57 | selecting the same movie twice from the favorites view returns to the favorites view |
| `App.AddFavoriteSpec` | src/App.jsx:59-69 | a new identifier is appended, and selection and search are cleared; a present identifier is filtered out, and selection and search are unchanged; the results are never touched |
| `App.FavMovieSpec` | src/App.jsx:420-435 | promotion toggles the built record and closes the detail view; the search is cleared when the record was added and kept when it was removed; results are untouched; a detail without a runtime leaves the whole state unchanged |
| `App.StepKeepsUniqueIds` | src/App.jsx:59-67 | every event keeps the favorites' identifiers unique |
| `App.RunKeepsUniqueIds` | src/App.jsx:59-67 | any sequence of events keeps the favorites' identifiers unique |
| `App.PromoteTwiceRestores` | src/App.jsx:420-435 | promoting a movie that is not a favorite twice in a row leaves the favorites as they were |
| `App.AppState.constructor` | src/App.jsx:16-22 | the initial state: empty search, no results, no selection, and the stored favorites or an empty list |
| `App.AppState.HandleReset` | src/App.jsx:47-52 | the fields after the handler are `KeyDown` of the fields before |
| `App.AppState.HandleSelectId` | src/App.jsx:54-57 | the fields after the handler are `SelectId` of the fields before |
| `App.AppState.HandleAddFavorite` | src/App.jsx:59-69 | the fields after the handler are `AddFavorite` of the fields before, and unique identifiers stay unique |
| `App.AppState.SetSearch` | src/App.jsx:197 | the search box's change handler replaces the search text and nothing else |
| `App.AppState.ReceiveData` | src/App.jsx:30-34 | query data, when present, replaces the shown results; otherwise nothing changes |
| `App.AppState.HandleBack` | src/App.jsx:405-407 | the back button clears the selection and nothing else |
| `App.AppState.HandleFavMovie` | src/App.jsx:420-435 | the fields after the handler are `FavMovie` of the fields before, and unique identifiers stay unique |

## Left out

- `src/utils/fetchMovies.js` and the detail fetch at `src/App.jsx:372-380`: HTTP I/O against OMDb, abort signals and error logging. Query data enters the model only as the parameter of `ReceiveData`.
- `useQuery` caching, refetching, cancellation and response ordering (`src/App.jsx:24-28`, `377-380`): library behaviour and asynchronous ordering. Only the `enabled` gate is modelled. The model does not capture that superseded responses are discarded.
- localStorage and JSON (`src/App.jsx:19-22`, `43-45`): persistence I/O. The constructor takes the already parsed stored value. Writing the list back after every change is not modelled. Neither is the way `JSON.stringify` turns NaN into `null`.
- Floating point: numbers are exact reals. `toFixed(1)` at `src/App.jsx:93-94` is not modelled, so the averages are exact, not strings rounded to one decimal.
- `JsValues.ToNumber`: reads only the empty string, `ddd`, `ddd.ddd`, `ddd.` and `.ddd`. Signs, exponents, hexadecimal, binary (`0b`) and octal (`0o`) prefixes, `Infinity` and surrounding whitespace are read as NaN, although JavaScript's `Number` accepts them. OMDb's runtime and rating texts use only the modelled forms or "N/A".
- `App.SearchEnabled`: `search.length` counts UTF-16 code units. The model counts characters, so the two differ for characters outside the Basic Multilingual Plane.
- The star-rating control that changes the detail view's user rating: `StarRating` is not part of this model. The rating at promotion time is a parameter of `HandleFavMovie`.
- `handleAddFavorite` decides with the rendered `favorites` and updates the list through `curFavorites`. Events are handled one at a time, so the model treats these as the same list.
- Missing detail fields other than `Runtime` and `imdbRating`: the model takes title, poster, year, genres, plot and identifier as strings, so an `undefined` copied into the record is not represented.
- The empty identifier: the view tests `selectedId` for truthiness (`src/App.jsx:120`), so a selected `""` would show the favorites list, while the model treats `Some("")` as a selection. Directory identifiers are never empty.
- Rendering: all JSX components, `document.title` (`src/App.jsx:389-393`) and `console.log` (`src/App.jsx:306`).
- `vite.config.js`: build configuration.

# Catalog query and favourites engine

A Dafny model of the logic behind the self-service catalog page (`catalog.jsx`): the
favourites hook `useFavorites`, the page's filter state, and the derived list
`filteredServices` that the page renders.

- **Favourites** (`Favorites`): a class `FavoritesStore` with the favourites set and the
  `isLoaded` flag. `ToggleFavorite` copies the set and deletes or adds one id.
  `MarkLoaded` is the end of the simulated load. `IsFavorite` and `CountLabel` are read-only
  queries. Each method is tied to the pure transition `Step` over the value `State`.
  `Run` replays a whole sequence of toggles and load completions, and the lemmas about
  `Run` state what holds across any interleaving.
- **Filter state and page** (`Page`): a class `CatalogPage` with `searchTerm`,
  `selectedCategory`, `activeTab`, the `showLoading` flag the page derives from `isLoaded`,
  and the favourites hook. It has the three setters, `HandleClearFilters`, the loading
  effect, the derived view and the cards the grid shows.
- **Derived view** (`Query`): `Derive` is `filteredServices` as a pure function of the
  catalog, the favourites set and the three filter values. It applies three stable
  filters in the source's order: favourites tab, case-insensitive search, category.
  `Seqs.Filter` models `Array.prototype.filter`.
  `Text.Lower` and `Text.Includes` model `toLowerCase` and `includes`.
- **Catalog** (`CatalogData`): the six services and the four category labels.
- **Scenarios** (`Scenarios`): concrete runs over the six services.

`toLowerCase` is a per-character map `fold: char -> char` that the caller supplies. Every
result holds for every such map. A few results state the one property of the map they
need: idempotence for `SearchIgnoresCase`, and that `'R'` and `'r'` fold alike for
`SearchReact`.

Two points of the page's behaviour, as the code has it:

- A favourites-tab query made before the load completes gives an empty view, though not
  because `filteredServices` checks the load. It reads the favourites set directly and
  ignores `isLoaded` (catalog.jsx:269-289), so the hook on its own can hold favourites
  toggled before the load (`Favorites.RunFavorites`, `Scenarios.FavoritesTab`). On the page,
  however, the star that calls `toggleFavorite` is part of a card (catalog.jsx:187, 575),
  cards are rendered only when `showLoading` is false (catalog.jsx:541-579), and
  `showLoading` turns false only after the load (catalog.jsx:291-296). So the page's set
  stays empty until the load: `Page.CatalogPage.Valid` records this, and
  `Page.FavoritesTabEmptyBeforeLoad` states the empty view. The grid also stays empty
  after the load until the page's effect has run.
- The category menu offers only "all" and the four labels, but the setter accepts any
  string. `SetSelectedCategory` therefore takes any string, and a category that no
  service has gives an empty view.

## Model

| member | source | states |
|---|---|---|
| `Seqs.Filter` | catalog.jsx:272-287 | the result holds exactly the input's elements that satisfy the predicate, and is no longer than the input |
| `Seqs.FilterIsSubsequence` | catalog.jsx:269-289 | a filter's result embeds into its input at strictly increasing positions: no reordering, no repetition |
| `Seqs.FilterKeepsDistinct` | catalog.jsx:269-289 | filtering a duplicate-free sequence gives a duplicate-free one |
| `Seqs.FilterAgreeing` | catalog.jsx:272-287 | two predicates that agree on the elements give the same filter result |
| `Seqs.FilterKeepsAll` | catalog.jsx:276-287 | a predicate true of every element keeps the sequence whole |
| `Seqs.FilterTwice` | catalog.jsx:269-289 | two successive filters equal one filter by the conjunction |
| `Seqs.FilterCommutes` | catalog.jsx:269-289 | two successive filters give the same result in either order |
| `Text.Lower` | catalog.jsx:279-281 | lowercasing keeps the length and maps each character through the case map |
| `Text.IncludesIff` | catalog.jsx:279-281 | `includes` holds exactly when the pattern occurs at some position of the text |
| `Text.LowerAppend` | catalog.jsx:279-281 | lowercasing a concatenation concatenates the lowercased parts |
| `Text.LowerTwice` | catalog.jsx:279-281 | with an idempotent case map, lowercasing twice equals lowercasing once |
| `Text.IncludesPrefix` | catalog.jsx:279-281 | a text that contains `a + b` contains `a` |
| `CatalogData.ServicesWellFormed` | catalog.jsx:4-55 | service ids are unique, no service occurs twice, and every category is one of the four labels |
| `Favorites.Toggled` | catalog.jsx:69-79 | the toggled id's membership flips and every other id's membership is unchanged; any id is accepted |
| `Favorites.ToggleTwice` | catalog.jsx:69-79 | toggling the same id twice restores the original set |
| `Favorites.ToggledSize` | catalog.jsx:69-79 | a toggle removes one element when the id was present and adds one when it was not |
| `Favorites.RunLoaded` | catalog.jsx:59-67 | after any run, `isLoaded` holds iff it held before or the load completed during the run, so it never returns to false |
| `Favorites.RunFavorites` | catalog.jsx:59-79 | after any run the set equals the result of the run's toggles alone: the load never changes the set, and toggles made before it are kept |
| `Favorites.ToggleAllParity` | catalog.jsx:69-79 | after a series of toggles, an id is a favourite iff its starting membership differs from whether it was toggled an odd number of times |
| `Favorites.FavoriteAfterRun` | catalog.jsx:59-79 | from mount, an id is a favourite iff the run toggled it an odd number of times, whenever the load completed |
| `Favorites.FavoritesStore.constructor` | catalog.jsx:59-60 | the hook starts with an empty set and `isLoaded` false |
| `Favorites.FavoritesStore.ToggleFavorite` | catalog.jsx:69-79 | the new state is one toggle step from the old one: the id's membership flips, others and `isLoaded` are unchanged |
| `Favorites.FavoritesStore.IsFavorite` | catalog.jsx:81 | true exactly when the id is in the current set |
| `Favorites.FavoritesStore.MarkLoaded` | catalog.jsx:62-67 | sets `isLoaded` to true and leaves the set unchanged |
| `Favorites.FavoritesStore.CountLabel` | catalog.jsx:537 | a number exactly when loaded, and then the size of the set |
| `Query.Cleared` | catalog.jsx:298-301 | empty search term, "all" category, tab unchanged |
| `Query.Derive` | catalog.jsx:269-289 | a service is in the view iff it is in the catalog, and the tab is not "favorites" or its id is a favourite, and the search is empty or its lowercase occurs in the lowercased title, description or a tag, and the category is "all" or equal to the service's |
| `Query.ApplyStageIsFilter` | catalog.jsx:272-287 | each stage, whether its axis is active or not, is the filter by that stage's condition |
| `Query.ApplyStagesIsFilter` | catalog.jsx:269-289 | any sequence of stages is one filter by the conjunction of their conditions |
| `Query.DeriveIsFilter` | catalog.jsx:269-289 | the view is the catalog filtered in one pass by the three-part selection condition |
| `Query.StageOrderIrrelevant` | catalog.jsx:269-289 | running the three stages in any order, repeats allowed, gives the same view |
| `Query.DeriveIsSubsequence` | catalog.jsx:269-289 | the view is a subsequence of the catalog in catalog order, and duplicate-free when the catalog is |
| `Query.UnfilteredIsCatalog` | catalog.jsx:269-289 | with empty search, "all" category and the "all" tab, the view is the whole catalog, for any favourites |
| `Query.OrphanFavoritesInvisible` | catalog.jsx:272-274 | favourite ids that name no catalog service do not change the view |
| `Query.ToggleOrphanKeepsView` | catalog.jsx:272-274 | toggling an id that is not in the catalog leaves the view unchanged |
| `Query.SearchIgnoresCase` | catalog.jsx:276-283 | with an idempotent case map, searching a term or its lowercase form gives the same view |
| `Query.LongerSearchNarrows` | catalog.jsx:276-283 | every service shown for `term + more` is shown for `term` |
| `Query.ClearedView` | catalog.jsx:298-301 | after clearing, the view is the catalog on the "all" tab and the catalog's favourites, in catalog order, on the favourites tab |
| `Page.CatalogPage.constructor` | catalog.jsx:261-267 | empty search, "all" category, "all" tab, loading shown, and a fresh hook with no favourites and not loaded |
| `Page.CatalogPage.FilteredServices` | catalog.jsx:269-289 | the page's view holds exactly the services selected by the page's current filters and favourites |
| `Page.CatalogPage.ShownServices` | catalog.jsx:558-579 | nothing is shown while the loading state is shown, including after the load until the effect runs; once it is over, the shown cards are the derived view |
| `Page.CatalogPage.SetSearchTerm` | catalog.jsx:451 | sets the search term; the other filters, the favourites and the loading flag are unchanged |
| `Page.CatalogPage.SetSelectedCategory` | catalog.jsx:486-508 | sets the category to any string; the other filters are unchanged |
| `Page.CatalogPage.SetActiveTab` | catalog.jsx:526-535 | sets the tab; the other filters are unchanged |
| `Page.CatalogPage.HandleClearFilters` | catalog.jsx:298-301 | search becomes empty and category "all"; the tab and the favourites are unchanged |
| `Page.CatalogPage.ToggleFavorite` | catalog.jsx:541-579 | a star click, possible only once the loading state is over, is one toggle step of the hook |
| `Page.FavoritesTabEmptyBeforeLoad` | catalog.jsx:269-296 | on the page, the favourites tab's view is empty before the favourites have loaded |
| `Page.CatalogPage.LoadTimerFires` | catalog.jsx:64-66 | the timer's firing is the hook's load step |
| `Page.CatalogPage.LoadingEffect` | catalog.jsx:291-296 | loading stays shown iff it was shown and the favourites are not loaded; it never stops before the load |
| `Scenarios.ServicesFields` | catalog.jsx:6-55 | the six services' categories and ids, in order |
| `Scenarios.DesignOfSix` | catalog.jsx:285-287 | in any six-service catalog with these categories, selecting "Design" keeps the second and sixth |
| `Scenarios.SelectDesign` | catalog.jsx:285-287 | selecting "Design" shows services 2 and 6, in that order |
| `Scenarios.FavoritesOfSix` | catalog.jsx:272-274 | in any six-service catalog with ids "1" to "6", favourites "2" and "6" keep the second and sixth |
| `Scenarios.FavoritesTwoAndSix` | catalog.jsx:272-274 | favourites "2" and "6" on the favourites tab show services 2 and 6, in order |
| `Scenarios.FavoritesTab` | catalog.jsx:59-79 | toggling "2" then "6" shows services 2 and 6 on the favourites tab, wherever the load completes |
| `Scenarios.ReactTitleMatches` | catalog.jsx:279 | the title "Aplicativo Web React" matches the search "react" |
| `Scenarios.SearchReact` | catalog.jsx:276-283 | searching "react" shows service 1 |
| `Scenarios.FavoritesTabWhileLoading` | catalog.jsx:541-558 | opening the favourites tab before the load: the view is empty and the grid shows nothing |
| `Scenarios.LoadThenToggle` | catalog.jsx:291-296 | after the load and the loading effect, starring "2" and "6" makes the grid show services 2 and 6 |
| `Scenarios.ClearKeepsTab` | catalog.jsx:298-301 | clearing after a search and a category keeps the favourites tab and the favourites, and shows services 2 and 6 |

## Left out

- Rendering: icons, `ServiceCard` styling, hover state, the colour and icon maps with their fallbacks, style objects and the JSX tree (catalog.jsx:87-258, 303-432, 434-581). None of it is logic.
- The `iconName` field of a service only selects an icon and is not part of `Service`.
- The category menu's visibility (`showCategoryDropdown`) and the loading skeleton with its card count `favorites.size || 4` (catalog.jsx:265, 458, 541-556). These are presentation.
- The one-second `setTimeout` and React's effect and memo scheduling. The load is the explicit method `MarkLoaded`, or `LoadTimerFires` on the page, and the page's reaction is the explicit `LoadingEffect`. React's functional state update `setFavorites(prev => …)` is a direct update, which is the same in a sequential model.
- Unicode case mapping of `toLowerCase` (for labels such as "Análise"). It is the parameter `fold`.
- `activeTab` is a two-valued datatype. The source stores strings but only ever sets "all" or "favorites".
- chat.jsx and redirect.jsx are not part of this model. The first is UI around an external chat hook and the clock; the second is static markup.
- SearchReact: states only that service 1 is shown for "react", not that it is the only one. That holds only for a concrete case map (for instance ASCII lowercasing that is the identity elsewhere): with an arbitrary `fold`, a constant map makes every non-empty search match every service. With a concrete map it would still need a proof that a short pattern is absent from the long description literals, which the verifier does not manage cheaply.
- The search "xyz-no-match" returning nothing is not modelled, for the same two reasons.

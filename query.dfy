/** The derived view of the catalog page (`filteredServices`): the catalog narrowed by
    the favourites tab, the free-text search and the selected category, in that order. */
module Query {
  import opened Seqs
  import opened Text
  import opened CatalogData
  import Favorites

  /** The two tabs; the source stores them as the strings "all" and "favorites". */
  datatype Tab = AllServices | FavoritesOnly

  /** The sentinel value of the category selector that selects every category. */
  const AllCategories: string := "all"

  /** The three filter axes of the page. */
  datatype Filters = Filters(searchTerm: string, selectedCategory: string, activeTab: Tab)

  /** The filter values on mount: empty search, every category, the "all" tab. */
  const InitialFilters: Filters := Filters("", AllCategories, AllServices)

  /** `handleClearFilters`: search and category reset, the tab kept. */
  function Cleared(f: Filters): (r: Filters)
    ensures r.searchTerm == "" && r.selectedCategory == AllCategories
    ensures r.activeTab == f.activeTab
  {
    f.(searchTerm := "", selectedCategory := AllCategories)
  }

  /** The search predicate: the lowercased term occurs in the lowercased title, in the
      lowercased description, or in some lowercased tag. */
  predicate MatchesSearch(fold: char -> char, term: string, s: Service)
  {
    var t := Lower(fold, term);
    || Includes(Lower(fold, s.title), t)
    || Includes(Lower(fold, s.description), t)
    || exists tag :: tag in s.tags && Includes(Lower(fold, tag), t)
  }

  /** The three filter stages, named so that they can be applied in any order. */
  datatype Stage = TabStage | SearchStage | CategoryStage

  /** What stage `st` demands of a service; a stage that is switched off demands nothing. */
  predicate Passes(favorites: set<string>, f: Filters, fold: char -> char, st: Stage, s: Service)
  {
    match st
    case TabStage => f.activeTab != FavoritesOnly || s.id in favorites
    case SearchStage => f.searchTerm == "" || MatchesSearch(fold, f.searchTerm, s)
    case CategoryStage => f.selectedCategory == AllCategories || s.category == f.selectedCategory
  }

  /** The whole selection condition: a service is shown when every stage lets it through. */
  predicate Selected(favorites: set<string>, f: Filters, fold: char -> char, s: Service)
  {
    && Passes(favorites, f, fold, TabStage, s)
    && Passes(favorites, f, fold, SearchStage, s)
    && Passes(favorites, f, fold, CategoryStage, s)
  }

  /** `filteredServices`: start from the catalog and, for each active axis, filter. It reads
      the favourites set as it is; the load flag plays no part. Its members are exactly
      the catalog's services that every stage lets through. */
  function Derive(catalog: seq<Service>, favorites: set<string>, f: Filters, fold: char -> char): (view: seq<Service>)
    ensures forall s :: s in view <==> s in catalog && Selected(favorites, f, fold, s)
  {
    var afterTab :=
      if f.activeTab == FavoritesOnly then Filter(catalog, (s: Service) => s.id in favorites) else catalog;
    var afterSearch :=
      if f.searchTerm != "" then Filter(afterTab, s => MatchesSearch(fold, f.searchTerm, s)) else afterTab;
    if f.selectedCategory != AllCategories then Filter(afterSearch, (s: Service) => s.category == f.selectedCategory)
    else afterSearch
  }

  /** One stage, applied as the source applies it: a filter only when its axis is active. */
  function ApplyStage(ss: seq<Service>, favorites: set<string>, f: Filters, fold: char -> char, st: Stage): seq<Service>
  {
    match st
    case TabStage =>
      if f.activeTab == FavoritesOnly then Filter(ss, (s: Service) => s.id in favorites) else ss
    case SearchStage =>
      if f.searchTerm != "" then Filter(ss, s => MatchesSearch(fold, f.searchTerm, s)) else ss
    case CategoryStage =>
      if f.selectedCategory != AllCategories then Filter(ss, (s: Service) => s.category == f.selectedCategory) else ss
  }

  /** The stages `order` applied one after another, first stage first. */
  function ApplyStages(ss: seq<Service>, favorites: set<string>, f: Filters, fold: char -> char, order: seq<Stage>): seq<Service>
    decreases |order|
  {
    if order == [] then ss
    else ApplyStages(ApplyStage(ss, favorites, f, fold, order[0]), favorites, f, fold, order[1..])
  }

  /** Every stage, active or not, is the filter by what it demands. */
  lemma ApplyStageIsFilter(ss: seq<Service>, favorites: set<string>, f: Filters, fold: char -> char, st: Stage)
    ensures ApplyStage(ss, favorites, f, fold, st) == Filter(ss, s => Passes(favorites, f, fold, st, s))
  {
    var p := s => Passes(favorites, f, fold, st, s);
    match st
    case TabStage =>
      if f.activeTab == FavoritesOnly {
        FilterAgreeing(ss, (s: Service) => s.id in favorites, p);
      } else {
        FilterKeepsAll(ss, p);
      }
    case SearchStage =>
      if f.searchTerm != "" {
        FilterAgreeing(ss, s => MatchesSearch(fold, f.searchTerm, s), p);
      } else {
        FilterKeepsAll(ss, p);
      }
    case CategoryStage =>
      if f.selectedCategory != AllCategories {
        FilterAgreeing(ss, (s: Service) => s.category == f.selectedCategory, p);
      } else {
        FilterKeepsAll(ss, p);
      }
  }

  /** Any sequence of stages is one filter by the conjunction of what its stages demand. */
  lemma {:induction false} ApplyStagesIsFilter(ss: seq<Service>, favorites: set<string>, f: Filters, fold: char -> char, order: seq<Stage>)
    ensures ApplyStages(ss, favorites, f, fold, order)
         == Filter(ss, s => forall st :: st in order ==> Passes(favorites, f, fold, st, s))
    decreases |order|
  {
    var all := s => forall st :: st in order ==> Passes(favorites, f, fold, st, s);
    if order == [] {
      FilterKeepsAll(ss, all);
    } else {
      var first := s => Passes(favorites, f, fold, order[0], s);
      var rest := s => forall st :: st in order[1..] ==> Passes(favorites, f, fold, st, s);
      var once := ApplyStage(ss, favorites, f, fold, order[0]);
      ApplyStageIsFilter(ss, favorites, f, fold, order[0]);
      ApplyStagesIsFilter(once, favorites, f, fold, order[1..]);
      assert forall st :: st in order <==> st == order[0] || st in order[1..] by {
        assert order == [order[0]] + order[1..];
      }
      FilterTwice(ss, first, rest, all);
    }
  }

  /** The source's stage order is tab, search, category. */
  const SourceOrder: seq<Stage> := [TabStage, SearchStage, CategoryStage]

  /** The derived view is the catalog filtered in one pass by the selection condition. */
  lemma DeriveIsFilter(catalog: seq<Service>, favorites: set<string>, f: Filters, fold: char -> char)
    ensures Derive(catalog, favorites, f, fold) == Filter(catalog, s => Selected(favorites, f, fold, s))
  {
    assert Derive(catalog, favorites, f, fold) == ApplyStages(catalog, favorites, f, fold, SourceOrder);
    ApplyStagesIsFilter(catalog, favorites, f, fold, SourceOrder);
    FilterAgreeing(catalog,
      s => forall st :: st in SourceOrder ==> Passes(favorites, f, fold, st, s),
      s => Selected(favorites, f, fold, s));
  }

  /** The stage order does not matter: any order that runs each of the three stages
      (once or more) gives the source's view. */
  lemma StageOrderIrrelevant(catalog: seq<Service>, favorites: set<string>, f: Filters, fold: char -> char, order: seq<Stage>)
    requires TabStage in order && SearchStage in order && CategoryStage in order
    ensures ApplyStages(catalog, favorites, f, fold, order) == Derive(catalog, favorites, f, fold)
  {
    ApplyStagesIsFilter(catalog, favorites, f, fold, order);
    DeriveIsFilter(catalog, favorites, f, fold);
    FilterAgreeing(catalog,
      s => forall st :: st in order ==> Passes(favorites, f, fold, st, s),
      s => Selected(favorites, f, fold, s));
  }

  /** The view keeps the catalog's order and repeats nothing: it is a subsequence of the
      catalog, and free of duplicates when the catalog is. */
  lemma DeriveIsSubsequence(catalog: seq<Service>, favorites: set<string>, f: Filters, fold: char -> char)
    ensures SubsequenceOf(Derive(catalog, favorites, f, fold), catalog)
    ensures Distinct(catalog) ==> Distinct(Derive(catalog, favorites, f, fold))
  {
    DeriveIsFilter(catalog, favorites, f, fold);
    FilterIsSubsequence(catalog, s => Selected(favorites, f, fold, s));
    if Distinct(catalog) {
      FilterKeepsDistinct(catalog, s => Selected(favorites, f, fold, s));
    }
  }

  /** With an empty search, every category and the "all" tab, the view is the whole catalog,
      whatever the favourites. */
  lemma UnfilteredIsCatalog(catalog: seq<Service>, favorites: set<string>, fold: char -> char)
    ensures Derive(catalog, favorites, InitialFilters, fold) == catalog
  {
  }

  /** The ids of a catalog, as a set. */
  function IdSet(catalog: seq<Service>): (ids: set<string>)
    ensures forall id :: id in ids <==> exists s :: s in catalog && s.id == id
  {
    set s | s in catalog :: s.id
  }

  /** Favourite ids that name no service of the catalog never show up in the view. */
  lemma OrphanFavoritesInvisible(catalog: seq<Service>, favorites: set<string>, f: Filters, fold: char -> char)
    ensures Derive(catalog, favorites, f, fold) == Derive(catalog, favorites * IdSet(catalog), f, fold)
  {
    DeriveIsFilter(catalog, favorites, f, fold);
    DeriveIsFilter(catalog, favorites * IdSet(catalog), f, fold);
    FilterAgreeing(catalog,
      s => Selected(favorites, f, fold, s),
      s => Selected(favorites * IdSet(catalog), f, fold, s));
  }

  /** Toggling an id that names no service of the catalog leaves the view unchanged. */
  lemma ToggleOrphanKeepsView(catalog: seq<Service>, favorites: set<string>, id: string, f: Filters, fold: char -> char)
    requires id !in IdSet(catalog)
    ensures Derive(catalog, Favorites.Toggled(favorites, id), f, fold) == Derive(catalog, favorites, f, fold)
  {
    OrphanFavoritesInvisible(catalog, favorites, f, fold);
    OrphanFavoritesInvisible(catalog, Favorites.Toggled(favorites, id), f, fold);
    assert Favorites.Toggled(favorites, id) * IdSet(catalog) == favorites * IdSet(catalog);
  }

  /** The search is case-insensitive: searching for a term or for its lowercase form gives
      the same view, when the character map is idempotent. */
  lemma SearchIgnoresCase(catalog: seq<Service>, favorites: set<string>, f: Filters, fold: char -> char)
    requires forall c :: fold(fold(c)) == fold(c)
    ensures Derive(catalog, favorites, f.(searchTerm := Lower(fold, f.searchTerm)), fold)
         == Derive(catalog, favorites, f, fold)
  {
    var g := f.(searchTerm := Lower(fold, f.searchTerm));
    LowerTwice(fold, f.searchTerm);
    DeriveIsFilter(catalog, favorites, f, fold);
    DeriveIsFilter(catalog, favorites, g, fold);
    FilterAgreeing(catalog, s => Selected(favorites, g, fold, s), s => Selected(favorites, f, fold, s));
  }

  /** Typing more of the search term only narrows the view: every service shown for
      `term + more` is shown for `term`. */
  lemma LongerSearchNarrows(catalog: seq<Service>, favorites: set<string>, f: Filters, more: string, fold: char -> char)
    ensures forall s :: s in Derive(catalog, favorites, f.(searchTerm := f.searchTerm + more), fold)
                    ==> s in Derive(catalog, favorites, f, fold)
  {
    var t, tm := f.searchTerm, f.searchTerm + more;
    LowerAppend(fold, t, more);
    forall s | MatchesSearch(fold, tm, s) ensures MatchesSearch(fold, t, s) {
      var lt, lm := Lower(fold, t), Lower(fold, more);
      if Includes(Lower(fold, s.title), lt + lm) {
        IncludesPrefix(Lower(fold, s.title), lt, lm);
      } else if Includes(Lower(fold, s.description), lt + lm) {
        IncludesPrefix(Lower(fold, s.description), lt, lm);
      } else {
        var tag :| tag in s.tags && Includes(Lower(fold, tag), lt + lm);
        IncludesPrefix(Lower(fold, tag), lt, lm);
      }
    }
  }

  /** After `handleClearFilters` the view is the catalog on the "all" tab, and the
      catalog's favourites on the favourites tab. */
  lemma ClearedView(catalog: seq<Service>, favorites: set<string>, f: Filters, fold: char -> char)
    ensures Derive(catalog, favorites, Cleared(f), fold)
         == if f.activeTab == FavoritesOnly then Filter(catalog, (s: Service) => s.id in favorites) else catalog
  {
  }
}

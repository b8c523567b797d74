/** The state of the catalog page component: the three filter axes, the loading flag the
    page derives from the favourites hook, and the hook itself. */
module Page {
  import opened CatalogData
  import opened Query
  import opened Favorites

  class CatalogPage {
    var searchTerm: string
    var selectedCategory: string
    var activeTab: Tab
    /** True until the page has seen the favourites load complete. */
    var showLoading: bool
    /** The favourites hook, created with the page and kept for its lifetime. */
    const store: FavoritesStore

    /** The page stops showing the loading state only after the favourites have loaded,
        and while it shows the loading state no card (hence no star) is rendered, so
        no favourite can have been toggled yet. */
    ghost predicate Valid()
      reads this, store
    {
      && (!showLoading ==> store.isLoaded)
      && (showLoading ==> store.favorites == {})
    }

    /** The filter axes as a value. */
    function CurrentFilters(): Filters
      reads this
    {
      Filters(searchTerm, selectedCategory, activeTab)
    }

    /** Mounting: empty search, every category, the "all" tab, loading shown, and a fresh
        favourites hook with no favourites and not yet loaded. */
    constructor ()
      ensures Valid() && fresh(store)
      ensures CurrentFilters() == InitialFilters
      ensures showLoading && store.Snapshot() == Initial
    {
      searchTerm := "";
      selectedCategory := AllCategories;
      activeTab := AllServices;
      showLoading := true;
      store := new FavoritesStore();
    }

    /** `filteredServices` over the fixed catalog, from the page's current state. */
    function FilteredServices(fold: char -> char): (view: seq<Service>)
      reads this, store
      ensures forall s :: s in view <==> s in Services && Selected(store.favorites, CurrentFilters(), fold, s)
    {
      Derive(Services, store.favorites, CurrentFilters(), fold)
    }

    /** The cards the grid shows: none while the loading state is shown (before the
        load, and after it until the page's effect has run), the derived view afterwards. */
    function ShownServices(fold: char -> char): (shown: seq<Service>)
      reads this, store
      ensures showLoading ==> shown == []
      ensures !showLoading ==> shown == FilteredServices(fold)
    {
      if showLoading then [] else FilteredServices(fold)
    }

    /** The search box's `onChange`. */
    method SetSearchTerm(term: string)
      requires Valid()
      modifies this`searchTerm
      ensures Valid()
      ensures CurrentFilters() == old(CurrentFilters()).(searchTerm := term)
    {
      searchTerm := term;
    }

    /** A click in the category menu: "all" or one category label. */
    method SetSelectedCategory(category: string)
      requires Valid()
      modifies this`selectedCategory
      ensures Valid()
      ensures CurrentFilters() == old(CurrentFilters()).(selectedCategory := category)
    {
      selectedCategory := category;
    }

    /** A click on one of the two tabs. */
    method SetActiveTab(tab: Tab)
      requires Valid()
      modifies this`activeTab
      ensures Valid()
      ensures CurrentFilters() == old(CurrentFilters()).(activeTab := tab)
    {
      activeTab := tab;
    }

    /** `handleClearFilters`: reset search and category; the tab and the favourites stay. */
    method HandleClearFilters()
      requires Valid()
      modifies this`searchTerm, this`selectedCategory
      ensures Valid()
      ensures CurrentFilters() == Cleared(old(CurrentFilters()))
      ensures activeTab == old(activeTab) && store.Snapshot() == old(store.Snapshot())
    {
      searchTerm := "";
      selectedCategory := AllCategories;
    }

    /** A star click on a card, passed to the hook's `toggleFavorite`. Cards, and with them
        their stars, are rendered only once the loading state is over. */
    method ToggleFavorite(serviceId: string)
      requires Valid() && !showLoading
      modifies store`favorites
      ensures Valid()
      ensures store.Snapshot() == Step(old(store.Snapshot()), Toggle(serviceId))
    {
      store.ToggleFavorite(serviceId);
    }

    /** The simulated load's timer firing. */
    method LoadTimerFires()
      requires Valid()
      modifies store`isLoaded
      ensures Valid()
      ensures store.Snapshot() == Step(old(store.Snapshot()), LoadCompleted)
    {
      store.MarkLoaded();
    }

    /** The page's effect on the load flag: once loaded, stop showing the loading state. */
    method LoadingEffect()
      requires Valid()
      modifies this`showLoading
      ensures Valid()
      ensures showLoading == (old(showLoading) && !store.isLoaded)
    {
      if store.isLoaded {
        showLoading := false;
      }
    }
  }

  /** Before the favourites have loaded, the favourites tab of the page derives an empty
      view: no star has been rendered yet, so the set is still empty. */
  lemma FavoritesTabEmptyBeforeLoad(page: CatalogPage, fold: char -> char)
    requires page.Valid() && !page.store.isLoaded && page.activeTab == FavoritesOnly
    ensures page.FilteredServices(fold) == []
  {
  }
}

/** Concrete runs of the catalog page over its six services. Each holds for every
    character map `fold`, except where a requirement on `fold` is stated. */
module Scenarios {
  import opened Seqs
  import opened Text
  import opened CatalogData
  import opened Favorites
  import opened Query
  import opened Page

  /** A filter of six services that keeps exactly the second and the sixth. */
  lemma KeepsSecondAndSixth(c: seq<Service>, p: Service -> bool)
    requires |c| == 6
    requires !p(c[0]) && p(c[1]) && !p(c[2]) && !p(c[3]) && !p(c[4]) && p(c[5])
    ensures Filter(c, p) == [c[1], c[5]]
  {
    assert c[5..][1..] == [];
    assert Filter(c[5..], p) == [c[5]];
    assert c[4..][1..] == c[5..];
    assert Filter(c[4..], p) == [c[5]];
    assert c[3..][1..] == c[4..];
    assert Filter(c[3..], p) == [c[5]];
    assert c[2..][1..] == c[3..];
    assert Filter(c[2..], p) == [c[5]];
    assert c[1..][1..] == c[2..];
    assert Filter(c[1..], p) == [c[1], c[5]];
  }

  /** The categories and ids of the six services, in order. */
  lemma ServicesFields()
    ensures |Services| == 6
    ensures Services[0].category == "Desenvolvimento" && Services[1].category == "Design"
    ensures Services[2].category == "Análise" && Services[3].category == "Marketing"
    ensures Services[4].category == "Desenvolvimento" && Services[5].category == "Design"
    ensures Services[0].id == "1" && Services[1].id == "2" && Services[2].id == "3"
    ensures Services[3].id == "4" && Services[4].id == "5" && Services[5].id == "6"
  {
  }

  /** In any six-service catalog categorised like the real one, selecting "Design" on
      the "all" tab keeps the second and the sixth service. */
  lemma DesignOfSix(c: seq<Service>, favorites: set<string>, fold: char -> char)
    requires |c| == 6
    requires c[0].category == "Desenvolvimento" && c[1].category == "Design"
    requires c[2].category == "Análise" && c[3].category == "Marketing"
    requires c[4].category == "Desenvolvimento" && c[5].category == "Design"
    ensures Derive(c, favorites, Filters("", "Design", AllServices), fold) == [c[1], c[5]]
  {
    var f := Filters("", "Design", AllServices);
    DeriveIsFilter(c, favorites, f, fold);
    KeepsSecondAndSixth(c, s => Selected(favorites, f, fold, s));
  }

  /** Selecting "Design" on the "all" tab shows the two design services, in catalog order. */
  lemma SelectDesign(favorites: set<string>, fold: char -> char)
    ensures Derive(Services, favorites, Filters("", "Design", AllServices), fold) == [Services[1], Services[5]]
  {
    ServicesFields();
    DesignOfSix(Services, favorites, fold);
  }

  /** In any six-service catalog with the real ids, favourites "2" and "6" on the
      favourites tab keep the second and the sixth service. */
  lemma FavoritesOfSix(c: seq<Service>, fold: char -> char)
    requires |c| == 6
    requires c[0].id == "1" && c[1].id == "2" && c[2].id == "3"
    requires c[3].id == "4" && c[4].id == "5" && c[5].id == "6"
    ensures Derive(c, {"2", "6"}, Filters("", AllCategories, FavoritesOnly), fold) == [c[1], c[5]]
  {
    var f := Filters("", AllCategories, FavoritesOnly);
    DeriveIsFilter(c, {"2", "6"}, f, fold);
    KeepsSecondAndSixth(c, s => Selected({"2", "6"}, f, fold, s));
  }

  /** Favourites "2" and "6" on the favourites tab, empty search, every category: services
      2 and 6, "2" first. */
  lemma FavoritesTwoAndSix(fold: char -> char)
    ensures Derive(Services, {"2", "6"}, Filters("", AllCategories, FavoritesOnly), fold)
         == [Services[1], Services[5]]
  {
    ServicesFields();
    FavoritesOfSix(Services, fold);
  }

  /** Toggling "2" and then "6" and opening the favourites tab shows services 2 and 6,
      "2" first, whether the load completes before, between or after the toggles. */
  lemma FavoritesTab(evs: seq<Event>, fold: char -> char)
    requires ToggledIds(evs) == ["2", "6"]
    ensures Derive(Services, Run(Initial, evs).favorites, Filters("", AllCategories, FavoritesOnly), fold)
         == [Services[1], Services[5]]
  {
    RunFavorites(Initial, evs);
    assert ToggleAll({}, ["2", "6"]) == {"2", "6"};
    FavoritesTwoAndSix(fold);
  }

  /** A service titled "Aplicativo Web React" matches the search "react", provided the
      character map folds 'R' and 'r' alike. */
  lemma ReactTitleMatches(s: Service, fold: char -> char)
    requires s.title == "Aplicativo Web React"
    requires fold('R') == fold('r')
    ensures MatchesSearch(fold, "react", s)
  {
    var title := Lower(fold, s.title);
    var term := Lower(fold, "react");
    assert title[15..20] == term;
    assert OccursAt(title, term, 15);
    IncludesIff(title, term);
  }

  /** Searching "react" shows the React web application. */
  lemma SearchReact(favorites: set<string>, fold: char -> char)
    requires fold('R') == fold('r')
    ensures Services[0] in Derive(Services, favorites, Filters("react", AllCategories, AllServices), fold)
  {
    assert Services[0].title == "Aplicativo Web React";
    ReactTitleMatches(Services[0], fold);
  }

  /** Opening the favourites tab while the favourites are still loading: the derived view
      is empty and the grid shows nothing. */
  method FavoritesTabWhileLoading(fold: char -> char) returns (view: seq<Service>, shown: seq<Service>)
    ensures view == [] && shown == []
  {
    var page := new CatalogPage();
    page.SetActiveTab(FavoritesOnly);
    page.LoadingEffect();
    FavoritesTabEmptyBeforeLoad(page, fold);
    view := page.FilteredServices(fold);
    shown := page.ShownServices(fold);
  }

  /** Once the load has completed and the page has seen it, starring "2" and "6" on the
      favourites tab makes the grid show services 2 and 6. */
  method LoadThenToggle(fold: char -> char) returns (shown: seq<Service>)
    ensures shown == [Services[1], Services[5]]
  {
    var page := new CatalogPage();
    page.LoadTimerFires();
    page.LoadingEffect();
    page.ToggleFavorite("2");
    page.ToggleFavorite("6");
    page.SetActiveTab(FavoritesOnly);
    assert page.store.favorites == {"2", "6"};
    FavoritesTwoAndSix(fold);
    shown := page.ShownServices(fold);
  }

  /** Clearing after a search and a category on the favourites tab restores the empty
      search and every category, keeps the tab and the favourites, and shows the
      favourites in catalog order. */
  method ClearKeepsTab(fold: char -> char) returns (filters: Filters, favorites: set<string>, view: seq<Service>)
    ensures filters == Filters("", AllCategories, FavoritesOnly)
    ensures favorites == {"2", "6"}
    ensures view == [Services[1], Services[5]]
  {
    var page := new CatalogPage();
    page.LoadTimerFires();
    page.LoadingEffect();
    page.ToggleFavorite("2");
    page.ToggleFavorite("6");
    page.SetActiveTab(FavoritesOnly);
    page.SetSearchTerm("react");
    page.SetSelectedCategory("Design");
    page.HandleClearFilters();
    filters := page.CurrentFilters();
    favorites := page.store.favorites;
    assert favorites == {"2", "6"};
    FavoritesTwoAndSix(fold);
    view := page.FilteredServices(fold);
  }
}

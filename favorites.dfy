/** The favourites hook of the catalog page: a set of favourite service ids that the
    user toggles, and a flag that turns true once the simulated load has finished. */
module Favorites {

  datatype Option<T> = None | Some(value: T)

  /** The set `toggleFavorite(id)` installs: a copy of `favorites` with `id` deleted
      when it was there and added when it was not. Any id is accepted. */
  function Toggled(favorites: set<string>, id: string): (r: set<string>)
    ensures id in r <==> id !in favorites
    ensures forall x :: x != id ==> (x in r <==> x in favorites)
  {
    if id in favorites then favorites - {id} else favorites + {id}
  }

  /** Toggling an id twice gives back the set it started from. */
  lemma ToggleTwice(favorites: set<string>, id: string)
    ensures Toggled(Toggled(favorites, id), id) == favorites
  {
  }

  /** A toggle changes the number of favourites by exactly one. */
  lemma ToggledSize(favorites: set<string>, id: string)
    ensures |Toggled(favorites, id)| == if id in favorites then |favorites| - 1 else |favorites| + 1
  {
  }

  /** What the hook holds: the favourites set and the load flag. */
  datatype State = State(favorites: set<string>, isLoaded: bool)

  /** What can happen to the hook: a toggle from the UI, or the end of the simulated load. */
  datatype Event = Toggle(id: string) | LoadCompleted

  /** The hook's state when the page mounts: no favourites, not loaded. */
  const Initial: State := State({}, false)

  /** The effect of one event: a toggle touches only the set, the load only the flag. */
  function Step(s: State, e: Event): State
  {
    match e
    case Toggle(id) => s.(favorites := Toggled(s.favorites, id))
    case LoadCompleted => s.(isLoaded := true)
  }

  /** The state after the events `evs`, applied in order. */
  function Run(s: State, evs: seq<Event>): State
    decreases |evs|
  {
    if evs == [] then s else Run(Step(s, evs[0]), evs[1..])
  }

  /** The ids toggled by `evs`, in order. */
  function ToggledIds(evs: seq<Event>): (ids: seq<string>)
    ensures |ids| <= |evs|
    ensures forall id :: id in ids <==> Toggle(id) in evs
  {
    if evs == [] then []
    else match evs[0]
      case Toggle(id) => [id] + ToggledIds(evs[1..])
      case LoadCompleted => ToggledIds(evs[1..])
  }

  /** `favorites` after toggling each of `ids` in turn. */
  function ToggleAll(favorites: set<string>, ids: seq<string>): set<string>
    decreases |ids|
  {
    if ids == [] then favorites else ToggleAll(Toggled(favorites, ids[0]), ids[1..])
  }

  /** Readiness is monotone: the flag is true after a run exactly when it was true
      before or the load completed during the run; nothing sets it back to false. */
  lemma {:induction false} RunLoaded(s: State, evs: seq<Event>)
    ensures Run(s, evs).isLoaded <==> s.isLoaded || LoadCompleted in evs
    decreases |evs|
  {
    if evs != [] {
      RunLoaded(Step(s, evs[0]), evs[1..]);
      assert evs == [evs[0]] + evs[1..];
    }
  }

  /** The load never touches the set: the favourites after a run are those obtained
      by the run's toggles alone, so toggles made before the load survive it. */
  lemma {:induction false} RunFavorites(s: State, evs: seq<Event>)
    ensures Run(s, evs).favorites == ToggleAll(s.favorites, ToggledIds(evs))
    decreases |evs|
  {
    if evs != [] {
      RunFavorites(Step(s, evs[0]), evs[1..]);
    }
  }

  /** An id is a favourite after toggling `ids` exactly when it was one before and is
      toggled an even number of times, or was not and is toggled an odd number of times. */
  lemma {:induction false} ToggleAllParity(favorites: set<string>, ids: seq<string>, x: string)
    ensures x in ToggleAll(favorites, ids) <==> (x in favorites) != (multiset(ids)[x] % 2 == 1)
    decreases |ids|
  {
    if ids != [] {
      ToggleAllParity(Toggled(favorites, ids[0]), ids[1..], x);
      assert ids == [ids[0]] + ids[1..];
      assert multiset(ids) == multiset{ids[0]} + multiset(ids[1..]);
    }
  }

  /** Starting from an empty set, an id is a favourite after a run exactly when the run
      toggled it an odd number of times, whether or not and whenever the load completed. */
  lemma FavoriteAfterRun(evs: seq<Event>, x: string)
    ensures x in Run(Initial, evs).favorites <==> multiset(ToggledIds(evs))[x] % 2 == 1
  {
    RunFavorites(Initial, evs);
    ToggleAllParity({}, ToggledIds(evs), x);
  }

  /** `useFavorites`: the favourites set and the load flag as component state. */
  class FavoritesStore {
    var favorites: set<string>
    var isLoaded: bool

    /** The hook's state as a value. */
    function Snapshot(): State
      reads this
    {
      State(favorites, isLoaded)
    }

    /** Mounting: an empty set, not yet loaded. */
    constructor ()
      ensures Snapshot() == Initial
    {
      favorites := {};
      isLoaded := false;
    }

    /** `toggleFavorite(serviceId)`: copy the set, delete or add the id, install the copy. */
    method ToggleFavorite(serviceId: string)
      modifies this`favorites
      ensures Snapshot() == Step(old(Snapshot()), Toggle(serviceId))
      ensures serviceId in favorites <==> serviceId !in old(favorites)
      ensures forall x :: x != serviceId ==> (x in favorites <==> x in old(favorites))
    {
      var next := favorites;
      if serviceId in next {
        next := next - {serviceId};
      } else {
        next := next + {serviceId};
      }
      favorites := next;
    }

    /** `isFavorite(serviceId)`: whether the id is in the current set. */
    function IsFavorite(serviceId: string): (b: bool)
      reads this
      ensures b <==> serviceId in Snapshot().favorites
    {
      serviceId in favorites
    }

    /** The end of the simulated load: the flag turns true and the set is left alone. */
    method MarkLoaded()
      modifies this`isLoaded
      ensures Snapshot() == Step(old(Snapshot()), LoadCompleted)
      ensures isLoaded && favorites == old(favorites)
    {
      isLoaded := true;
    }

    /** The count in the favourites tab label: the size of the set once loaded,
        and no number (the label shows an ellipsis) before. */
    function CountLabel(): (r: Option<nat>)
      reads this
      ensures r.Some? <==> isLoaded
      ensures r.Some? ==> r.value == |favorites|
    {
      if isLoaded then Some(|favorites|) else None
    }
  }
}

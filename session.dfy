/** The component's state: the eight `useState` cells of App, the fetch effect that runs
    once on mount, the filter effect that re-runs whenever the list, the search term or
    the selected type changes, and the click and close handlers of the detail overlay. */
module Session {
  import opened Seqs
  import opened Catalog
  import opened Acquisition

  /** The message the fetch effect stores when any request rejects. */
  const FetchFailedMessage: string := "Failed to fetch Pokémon data"

  /** What the component renders, decided by `loading` first and `error` second. */
  datatype Screen = LoadingScreen | ErrorScreen(message: string) | CatalogScreen

  class App {
    var pokemonList: seq<Pokemon>
    var filteredPokemon: seq<Pokemon>
    var searchTerm: string
    var selectedType: string
    var loading: bool
    var error: Option<string>
    var types: seq<string>
    var selectedPokemon: Option<Pokemon>

    /** The view and the type index are always those of the current list and criteria;
        while loading nothing has been fetched; a failed load keeps no records. */
    ghost predicate Valid()
      reads this
    {
      && filteredPokemon == FilteredPokemon(pokemonList, searchTerm, selectedType)
      && types == TypeIndex(pokemonList)
      && (loading ==> pokemonList == [] && error == None)
      && (error.Some? ==> !loading && pokemonList == [] && error == Some(FetchFailedMessage))
    }

    /** The screen the render function returns for the current state. `if (error)` tests
        truthiness, so an empty message would show the catalog. */
    function CurrentScreen(): (s: Screen)
      reads this
      ensures s == LoadingScreen <==> loading
      ensures s.ErrorScreen? <==> !loading && error.Some? && error.value != ""
      ensures s.ErrorScreen? ==> s.message == error.value
    {
      if loading then LoadingScreen
      else if error.Some? && error.value != "" then ErrorScreen(error.value)
      else CatalogScreen
    }

    /** The initial values of the state cells, after the filter effect's first run. */
    constructor ()
      ensures Valid()
      ensures pokemonList == [] && filteredPokemon == [] && types == []
      ensures searchTerm == "" && selectedType == AllTypes
      ensures loading && error == None && selectedPokemon == None
    {
      pokemonList := [];
      filteredPokemon := [];
      searchTerm := "";
      selectedType := AllTypes;
      loading := true;
      error := None;
      types := [];
      selectedPokemon := None;
      new;
      ApplyFilter();
    }

    /** The filter effect: narrow the list by name when the search term is non-empty,
        then by type when a type is selected, and store the result. */
    method ApplyFilter()
      modifies this`filteredPokemon
      ensures filteredPokemon == FilteredPokemon(pokemonList, searchTerm, selectedType)
    {
      var filtered := pokemonList;
      if searchTerm != "" {
        filtered := Filter(filtered, NameFilter(searchTerm));
      }
      if selectedType != AllTypes {
        filtered := Filter(filtered, TypeFilter(selectedType));
      }
      filteredPokemon := filtered;
    }

    /** The fetch effect, given the replies to its requests. On success it stores the
        records, the view and the type index; on any rejection it stores only the fixed
        message. Either way loading ends. */
    method FetchPokemon(list: Fetch<seq<Summary>>, details: seq<Fetch<DetailResponse>>)
      requires Valid() && loading
      requires list.Ok? ==> |details| == |list.value|
      modifies this
      ensures Valid() && !loading
      ensures searchTerm == old(searchTerm) && selectedType == old(selectedType)
      ensures selectedPokemon == old(selectedPokemon)
      ensures FetchCatalog(list, details).Ok? ==>
                pokemonList == FetchCatalog(list, details).value && error == None
      ensures FetchCatalog(list, details).Rejected? ==>
                pokemonList == [] && error == Some(FetchFailedMessage)
    {
      var result := FetchCatalog(list, details);
      match result {
        case Ok(pokemonDetails) =>
          StoreCatalog(pokemonDetails);
        case Rejected(_) =>
          StoreFailure();
      }
    }

    /** The success path of the fetch effect: store the records, the view and the type
        index, end loading, and let the filter effect run again for the new list. */
    method StoreCatalog(pokemonDetails: seq<Pokemon>)
      requires Valid() && loading
      modifies this
      ensures Valid() && !loading
      ensures pokemonList == pokemonDetails && error == None
      ensures searchTerm == old(searchTerm) && selectedType == old(selectedType)
      ensures selectedPokemon == old(selectedPokemon)
    {
      pokemonList := pokemonDetails;
      filteredPokemon := pokemonDetails;
      types := TypeIndex(pokemonDetails);
      loading := false;
      // `pokemonList` changed, so the filter effect runs again.
      ApplyFilter();
    }

    /** The catch path of the fetch effect: store the fixed message and end loading. */
    method StoreFailure()
      requires Valid() && loading
      modifies this`error, this`loading
      ensures Valid() && !loading
      ensures pokemonList == [] && error == Some(FetchFailedMessage)
    {
      error := Some(FetchFailedMessage);
      loading := false;
    }

    /** The search box's change handler, followed by the filter effect. */
    method SetSearchTerm(term: string)
      requires Valid()
      modifies this`searchTerm, this`filteredPokemon
      ensures Valid() && searchTerm == term
    {
      searchTerm := term;
      ApplyFilter();
    }

    /** The type selector's change handler, followed by the filter effect. */
    method SetSelectedType(selection: string)
      requires Valid()
      modifies this`selectedType, this`filteredPokemon
      ensures Valid() && selectedType == selection
    {
      selectedType := selection;
      ApplyFilter();
    }

    /** A click on a card opens the detail overlay for that record. */
    method HandlePokemonClick(p: Pokemon)
      requires Valid()
      modifies this`selectedPokemon
      ensures Valid() && selectedPokemon == Some(p)
    {
      selectedPokemon := Some(p);
    }

    /** The overlay's close button clears the selection. */
    method CloseModal()
      requires Valid()
      modifies this`selectedPokemon
      ensures Valid() && selectedPokemon == None
    {
      selectedPokemon := None;
    }
  }

  /** Mounting the component: the initial state, then the fetch effect with the given
      replies. Loading always ends. When every request succeeds the list has one record
      per list entry in list order, the view is the whole list and there is no error;
      otherwise no record is kept and the error screen shows the fixed message. */
  method Mount(list: Fetch<seq<Summary>>, details: seq<Fetch<DetailResponse>>) returns (app: App)
    requires list.Ok? ==> |details| == |list.value|
    ensures app.Valid() && !app.loading
    ensures app.searchTerm == "" && app.selectedType == AllTypes && app.selectedPokemon == None
    ensures list.Ok? && AllOk(details) ==>
              && |app.pokemonList| == |list.value|
              && (forall i :: 0 <= i < |details| ==> app.pokemonList[i] == Project(details[i].value))
              && app.filteredPokemon == app.pokemonList
              && app.error == None
              && app.CurrentScreen() == CatalogScreen
    ensures !(list.Ok? && AllOk(details)) ==>
              && app.pokemonList == [] && app.filteredPokemon == [] && app.types == []
              && app.CurrentScreen() == ErrorScreen(FetchFailedMessage)
  {
    app := new App();
    app.FetchPokemon(list, details);
    FilteredIsWholeList(app.pokemonList, "", AllTypes);
  }
}

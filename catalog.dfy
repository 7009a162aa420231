/** The catalog records and the derived view: the filter effect of App.jsx, which narrows
    the list by a case-insensitive name search and then by a selected type, and the type
    index offered in the type selector. */
module Catalog {
  import opened Text
  import opened Seqs

  datatype Option<T> = None | Some(value: T)

  /** One record as the fetch effect builds it from a detail response. */
  datatype Pokemon = Pokemon(
    id: nat,
    name: string,
    image: Option<string>,
    types: seq<string>,
    height: int,
    weight: int,
    abilities: seq<string>)

  /** The selector value that switches the type filter off. */
  const AllTypes: string := "all"

  /** `pokemon.name.toLowerCase().includes(searchTerm.toLowerCase())`: the empty term
      matches every record, and no term longer than the name matches it. */
  function NameMatches(p: Pokemon, searchTerm: string): (b: bool)
    ensures searchTerm == [] ==> b
    ensures b ==> |searchTerm| <= |p.name|
  {
    Contains(ToLower(p.name), ToLower(searchTerm))
  }

  /** `pokemon.types.includes(selectedType)`: some slot of the record's type list holds
      exactly the selected string. */
  function HasType(p: Pokemon, selectedType: string): (b: bool)
    ensures b <==> exists i :: 0 <= i < |p.types| && p.types[i] == selectedType
  {
    selectedType in p.types
  }

  function NameFilter(searchTerm: string): Pokemon -> bool
  {
    p => NameMatches(p, searchTerm)
  }

  function TypeFilter(selectedType: string): Pokemon -> bool
  {
    p => HasType(p, selectedType)
  }

  /** The name step of the filter effect: only a non-empty search term filters, and then
      a record is kept exactly when its name matches. */
  function ByName(list: seq<Pokemon>, searchTerm: string): (r: seq<Pokemon>)
    ensures |r| <= |list|
    ensures searchTerm == "" ==> r == list
    ensures forall p :: p in r <==> p in list && NameMatches(p, searchTerm)
  {
    if searchTerm != "" then Filter(list, NameFilter(searchTerm)) else list
  }

  /** The type step of the filter effect: any selector value other than "all" filters,
      and then a record is kept exactly when it has the selected type. */
  function ByType(list: seq<Pokemon>, selectedType: string): (r: seq<Pokemon>)
    ensures |r| <= |list|
    ensures selectedType == AllTypes ==> r == list
    ensures selectedType != AllTypes ==> forall p :: p in r <==> p in list && HasType(p, selectedType)
  {
    if selectedType != AllTypes then Filter(list, TypeFilter(selectedType)) else list
  }

  /** Whether a record passes both active criteria. */
  predicate Matches(p: Pokemon, searchTerm: string, selectedType: string)
  {
    && (searchTerm == "" || NameMatches(p, searchTerm))
    && (selectedType == AllTypes || HasType(p, selectedType))
  }

  function MatchFilter(searchTerm: string, selectedType: string): Pokemon -> bool
  {
    p => Matches(p, searchTerm, selectedType)
  }

  /** The list the filter effect stores in `filteredPokemon`: a record is shown exactly
      when it is in the list and passes both criteria. */
  function FilteredPokemon(list: seq<Pokemon>, searchTerm: string, selectedType: string): (r: seq<Pokemon>)
    ensures forall p :: p in r <==> p in list && Matches(p, searchTerm, selectedType)
  {
    ByType(ByName(list, searchTerm), selectedType)
  }

  /** The two steps in sequence are one filter by the conjunction of the criteria. */
  lemma {:induction false} FilteredIsConjunction(list: seq<Pokemon>, searchTerm: string, selectedType: string)
    ensures FilteredPokemon(list, searchTerm, selectedType)
         == Filter(list, MatchFilter(searchTerm, selectedType))
  {
    var both := MatchFilter(searchTerm, selectedType);
    assert forall p :: both(p) == (Matches(p, searchTerm, selectedType));
    if searchTerm != "" && selectedType != AllTypes {
      FilterFuse(list, NameFilter(searchTerm), TypeFilter(selectedType));
      FilterCongruent(list, Both(NameFilter(searchTerm), TypeFilter(selectedType)), both);
    } else if searchTerm != "" {
      FilterCongruent(list, NameFilter(searchTerm), both);
    } else if selectedType != AllTypes {
      FilterCongruent(list, TypeFilter(selectedType), both);
    } else {
      FilterKeepsAll(list, both);
    }
  }

  /** The view keeps the list's order and never repeats or invents a record: it sits in
      the list exactly at the positions of the matching records, in increasing order. */
  lemma {:induction false} FilteredIsSubsequence(list: seq<Pokemon>, searchTerm: string, selectedType: string)
    ensures IsEmbedding(FilteredPokemon(list, searchTerm, selectedType), list,
                        KeptPositions(list, MatchFilter(searchTerm, selectedType)))
  {
    FilteredIsConjunction(list, searchTerm, selectedType);
    FilterEmbedding(list, MatchFilter(searchTerm, selectedType));
  }

  /** The view is the whole list exactly when every record matches; in particular with
      an empty search term and the "all" selector. */
  lemma FilteredIsWholeList(list: seq<Pokemon>, searchTerm: string, selectedType: string)
    ensures FilteredPokemon(list, searchTerm, selectedType) == list
        <==> forall i :: 0 <= i < |list| ==> Matches(list[i], searchTerm, selectedType)
    ensures FilteredPokemon(list, "", AllTypes) == list
  {
    FilteredIsConjunction(list, searchTerm, selectedType);
    FilterKeepsAll(list, MatchFilter(searchTerm, selectedType));
  }

  /** Re-running the filter on its own output with the same criteria changes nothing. */
  lemma FilteredIdempotent(list: seq<Pokemon>, searchTerm: string, selectedType: string)
    ensures FilteredPokemon(FilteredPokemon(list, searchTerm, selectedType), searchTerm, selectedType)
         == FilteredPokemon(list, searchTerm, selectedType)
  {
    var r := FilteredPokemon(list, searchTerm, selectedType);
    FilteredIsConjunction(list, searchTerm, selectedType);
    FilteredIsConjunction(r, searchTerm, selectedType);
    FilterIdempotent(list, MatchFilter(searchTerm, selectedType));
  }

  /** Applying the name step and the type step in either order gives the same list. */
  lemma FilterStepsCommute(list: seq<Pokemon>, searchTerm: string, selectedType: string)
    ensures ByType(ByName(list, searchTerm), selectedType) == ByName(ByType(list, selectedType), searchTerm)
  {
    if searchTerm != "" && selectedType != AllTypes {
      FilterCommute(list, NameFilter(searchTerm), TypeFilter(selectedType));
    }
  }

  /** The search is case-insensitive: two search terms that fold to the same lower-case
      string select the same records. */
  lemma FilteredCaseInsensitive(list: seq<Pokemon>, term1: string, term2: string, selectedType: string)
    requires ToLower(term1) == ToLower(term2)
    ensures FilteredPokemon(list, term1, selectedType) == FilteredPokemon(list, term2, selectedType)
  {
    assert |term1| == |term2|;
    if term1 != "" {
      FilterCongruent(list, NameFilter(term1), NameFilter(term2));
    }
  }

  /** Searching for the name a card shows (its capitalised form) always finds the record. */
  lemma ShownNameFindsRecord(list: seq<Pokemon>, p: Pokemon)
    requires p in list
    ensures p in FilteredPokemon(list, Capitalize(p.name), AllTypes)
  {
    CapitalizeFoldsAway(p.name);
    var folded := ToLower(p.name);
    ContainsSlice(folded, 0, |folded|);
    assert folded[0..|folded|] == folded;
    assert NameMatches(p, Capitalize(p.name));
  }

  /** `pokemonDetails.flatMap(p => p.types)`: every record's types, record by record. */
  function TypesOf(list: seq<Pokemon>): (r: seq<string>)
    ensures forall t :: t in r <==> exists i :: 0 <= i < |list| && t in list[i].types
  {
    if list == [] then []
    else
      var rest := TypesOf(list[1..]);
      assert forall i :: 1 <= i < |list| ==> list[1..][i - 1] == list[i];
      assert forall t :: (exists i :: 1 <= i < |list| && t in list[i].types) ==> t in rest by {
        forall t | exists i :: 1 <= i < |list| && t in list[i].types ensures t in rest {
          var i :| 1 <= i < |list| && t in list[i].types;
          assert t in list[1..][i - 1].types;
        }
      }
      list[0].types + rest
  }

  /** The flattening goes record by record, each record's types in their own order: one
      record contributes its type list, and a split list flattens to the two flattened
      parts in order. */
  lemma {:induction false} TypesOfAppend(a: seq<Pokemon>, b: seq<Pokemon>)
    ensures |a| == 1 ==> TypesOf(a) == a[0].types
    ensures TypesOf(a + b) == TypesOf(a) + TypesOf(b)
    decreases |a|
  {
    if a == [] {
      assert a + b == b;
    } else {
      assert (a + b)[0] == a[0];
      assert (a + b)[1..] == a[1..] + b;
      TypesOfAppend(a[1..], b);
    }
  }

  /** `[...new Set(pokemonDetails.flatMap(p => p.types))]`: the options of the type
      selector, each type once, exactly the types some record has. */
  function TypeIndex(list: seq<Pokemon>): (r: seq<string>)
    ensures NoDuplicates(r)
    ensures forall t :: t in r <==> exists i :: 0 <= i < |list| && t in list[i].types
  {
    Dedup(TypesOf(list))
  }

  /** The type index lists each type at its first appearance in the flattened types,
      in the order of those appearances. */
  lemma TypeIndexOrder(list: seq<Pokemon>) returns (idx: seq<nat>)
    ensures AtFirstOccurrences(TypeIndex(list), TypesOf(list), idx)
  {
    idx := DedupFirstOccurrences(TypesOf(list));
  }

  /** Every option of the type selector picks out at least one record when the search
      term is empty, and any other selector value except "all" picks out none. */
  lemma IndexedTypeSelectsSome(list: seq<Pokemon>, t: string)
    ensures t in TypeIndex(list) ==> FilteredPokemon(list, "", t) != []
    ensures t != AllTypes ==> (FilteredPokemon(list, "", t) != [] <==> t in TypeIndex(list))
  {
    var view := FilteredPokemon(list, "", t);
    if t in TypeIndex(list) {
      var i :| 0 <= i < |list| && t in list[i].types;
      assert list[i] in list;
      if t == AllTypes {
        FilteredIsWholeList(list, "", t);
      } else {
        assert Matches(list[i], "", t);
      }
    }
    if view != [] && t != AllTypes {
      assert view[0] in view;
      assert t in view[0].types;
    }
  }
}

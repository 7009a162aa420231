# Pokémon Explorer — a Dafny model of the catalog state and filter core

Pokémon Explorer is a single React component (`src/App.jsx`). On mount it fetches a page of
150 Pokémon summaries. It then fetches each entry's detail with `Promise.all` and projects
every detail reply to a record. The records are stored in component state, along with the
list of types that occur in them. The component shows the records filtered by a
case-insensitive name search and a type selector. A click on a card opens a detail overlay.

This project models that core:

- `text.dfy` (module `Text`): the string operations the component uses. These are ASCII
  `toLowerCase`/`toUpperCase`, `String#includes`, first-letter capitalisation,
  `String#padStart` and `Number#toString` for non-negative integers. `DecimalValue` reads a
  digit string back as a number.
- `seqs.dfy` (module `Seqs`): `Array#filter` as `Filter`, and `[...new Set(xs)]` as
  `Dedup`. `Dedup` keeps each value once, in first-insertion order. `IsEmbedding` states
  "is a subsequence of": the elements sit at strictly increasing positions.
- `catalog.dfy` (module `Catalog`): the record type, the two filter predicates, the
  filtered view (`FilteredPokemon`) and the type index (`TypeIndex`), with their lemmas.
- `display.dfy` (module `Display`): the card's number label and the type-badge colour
  class.
- `acquisition.dfy` (module `Acquisition`): the detail projection, `Promise.all` as an
  all-or-nothing map in list order, and the whole two-phase acquisition.
- `session.dfy` (module `Session`): the class `App` with the eight state cells. It has one
  method per state change: the fetch effect, the filter effect, the search and type
  handlers, and click and close. `Mount` is a client that runs the component from its
  initial state through the fetch effect.

The network is an input. It is the reply to the list request plus one reply per list entry
for the detail requests, in list order. Each reply is either `Ok` with the decoded reply or
`Rejected`. A reply the projection throws on counts as `Rejected`, because the exception
ends in the same `catch`. It throws when `sprites`, `types` or `abilities` is missing or
not of the expected kind, or when a type entry lacks its `type` object or an ability entry
its `ability` object. The class invariant `App.Valid()` says that
`filteredPokemon` is always `FilteredPokemon(pokemonList, searchTerm, selectedType)` and that
`types` is always `TypeIndex(pokemonList)`. Every state-changing method keeps the invariant.

The model follows what the code does, including these points:

- A record with no types is kept by the filter when the selector is "all".
- The type index is an ordered list in the order types first appear in the records, not an
  unordered set.
- The selected type is not checked against the type index. A value outside it, other than
  "all", gives an empty view.
- The fetch effect runs once, on mount, and nothing discards a stale reply.
- A click on a card is not guarded by the loading state.
- On success `error` is not reset. It is still the initial `null`, which `Valid()` ties to
  the loading state.

## Model

| member | source | states |
|---|---|---|
| `Text.LowerChar` | src/App.jsx:56 | lower-casing one character turns 'A'..'Z' into 'a'..'z' (32 code points up) and keeps every other character |
| `Text.UpperChar` | src/App.jsx:157 | upper-casing one character turns 'a'..'z' into 'A'..'Z' (32 code points down) and keeps every other character |
| `Text.ToLower` | src/App.jsx:56 | `toLowerCase` keeps the length, turns each upper-case letter into its lower-case letter and keeps every other character, so no upper-case letter is left |
| `Text.Contains` | src/App.jsx:56 | `includes` finds the empty string in every string, and never finds a needle longer than the haystack |
| `Text.ContainsSlice` | src/App.jsx:56 | every slice of a string, the whole string included, is found in it by `includes` |
| `Text.Capitalize` | src/App.jsx:157 | `charAt(0).toUpperCase() + slice(1)` keeps the length, changes only the first character, leaves it not lower-case and folding it gives the same letter |
| `Text.CapitalizeFoldsAway` | src/App.jsx:157 | capitalising does not change the case-folded string, so it does not change what the search sees |
| `Text.PadStart` | src/App.jsx:159 | `padStart(n, c)` has length max(n, \|s\|), ends with `s` and has only `c` before it |
| `Text.DecimalString` | src/App.jsx:159 | `toString()` of a non-negative integer is a non-empty digit string with no leading zero, and it denotes the integer |
| `Text.LeadingZerosValue` | src/App.jsx:159 | zero padding in front of a digit string does not change the number it denotes |
| `Text.DecimalStringLength` | src/App.jsx:159 | a number below 10^k has at most k digits |
| `Seqs.Filter` | src/App.jsx:55-63 | `Array#filter` returns at most as many elements, and an element is in the result iff it is in the input and accepted |
| `Seqs.KeptPositions` | src/App.jsx:55-63 | the positions a filter keeps are in range and strictly increasing |
| `Seqs.KeptPositionsExact` | src/App.jsx:55-63 | a position is among the kept positions iff the filter predicate accepts its element |
| `Seqs.FilterEmbedding` | src/App.jsx:55-63 | the filter result sits in the input exactly at the kept positions, in order: nothing is reordered, repeated or invented, and no accepted element is dropped |
| `Seqs.FilterKeepsAll` | src/App.jsx:55-63 | the filter returns its input unchanged iff every element is accepted |
| `Seqs.FilterIdempotent` | src/App.jsx:55-63 | filtering a filtered list again with the same predicate changes nothing |
| `Seqs.FilterCongruent` | src/App.jsx:55-63 | two predicates that agree on the elements give the same filter result |
| `Seqs.FilterFuse` | src/App.jsx:52-64 | two filters in a row equal one filter by the conjunction |
| `Seqs.FilterCommute` | src/App.jsx:52-64 | two filters in a row give the same list in either order |
| `Seqs.Dedup` | src/App.jsx:38 | `[...new Set(xs)]` has no duplicates and holds exactly the values of `xs` |
| `Seqs.DedupFirstOccurrences` | src/App.jsx:38 | each value of `[...new Set(xs)]` stands at its first occurrence in `xs`, and those occurrences are in increasing order |
| `Catalog.NameMatches` | src/App.jsx:55-57 | the name test accepts every record for the empty term, and rejects every record whose name is shorter than the term |
| `Catalog.HasType` | src/App.jsx:61-63 | the type test accepts a record iff some slot of its type list is exactly the selected string |
| `Catalog.ByName` | src/App.jsx:54-58 | the name step returns the list itself for the empty term; otherwise a record is in its result iff it is in the list and its name matches; never more records than the list |
| `Catalog.ByType` | src/App.jsx:60-64 | the type step returns the list itself for "all"; otherwise a record is in its result iff it is in the list and has the selected type; never more records than the list |
| `Catalog.FilteredPokemon` | src/App.jsx:51-67 | a record is in the view iff it is in the list, matches the lower-cased search term when that term is non-empty, and has the selected type when the selector is not "all" |
| `Catalog.FilteredIsConjunction` | src/App.jsx:52-64 | the name step followed by the type step is one filter by the conjunction of both criteria |
| `Catalog.FilteredIsSubsequence` | src/App.jsx:52-66 | the view is an order-preserving subsequence of the list, sitting at the kept positions of the match predicate (by `Seqs.KeptPositionsExact`, exactly the positions of the matching records) |
| `Catalog.FilteredIsWholeList` | src/App.jsx:52-64 | the view equals the list iff every record matches; with an empty term and "all" it is always the list |
| `Catalog.FilteredIdempotent` | src/App.jsx:52-64 | filtering the view again with the same criteria returns it unchanged |
| `Catalog.FilterStepsCommute` | src/App.jsx:54-64 | applying the type step before the name step gives the same view |
| `Catalog.FilteredCaseInsensitive` | src/App.jsx:54-58 | two search terms with the same lower-casing select the same records |
| `Catalog.ShownNameFindsRecord` | src/App.jsx:56 | searching for the capitalised name a card shows always finds that record |
| `Catalog.TypesOf` | src/App.jsx:38 | `flatMap(p => p.types)` holds exactly the types some record has |
| `Catalog.TypesOfAppend` | src/App.jsx:38 | `flatMap(p => p.types)` flattens record by record: one record gives its own type list, and a list split in two flattens to the two flattened parts in order |
| `Catalog.TypeIndex` | src/App.jsx:38 | the type index has no duplicates and holds exactly the types that occur in some record |
| `Catalog.TypeIndexOrder` | src/App.jsx:38 | the type index lists each type at its first appearance in the flattened types, in order of appearance |
| `Catalog.IndexedTypeSelectsSome` | src/App.jsx:126-130 | with an empty search term, every type offered in the selector selects at least one record, and any other selector value except "all" selects none |
| `Display.IdLabel` | src/App.jsx:159 | the id label has length max(3, number of digits), ends with the id's digits and has only '0' before them |
| `Display.IdLabelDenotesId` | src/App.jsx:159 | the id label reads back as the id |
| `Display.IdLabelShortIds` | src/App.jsx:159 | ids below 1000 get labels of exactly three characters |
| `Display.BadgeClass` | src/App.jsx:164-183 | the badge class is `bg-gray-600` iff the type is none of the 18 types the chain names |
| `Acquisition.Project` | src/App.jsx:23-31 | a record copies id, name, sprite, height and weight from the reply, and maps the type and ability lists to their names, keeping their order and length |
| `Acquisition.GatherDetails` | src/App.jsx:20-33 | `Promise.all` over the detail replies succeeds iff every reply does, with one record per reply in reply order; otherwise it rejects with some rejected reply's reason |
| `Acquisition.FetchCatalog` | src/App.jsx:18-33 | the acquisition succeeds iff the list request and every detail request succeed, and then yields one projected record per list entry, in list order |
| `Session.App.CurrentScreen` | src/App.jsx:77-101 | the loading screen shows iff loading; the error screen shows iff loading is over and the error is set and non-empty (the truthiness test `if (error)`), and it shows the stored error text |
| `Session.App.constructor` | src/App.jsx:7-14 | the initial state: empty lists, empty search term, "all", loading, no error, nothing selected |
| `Session.App.ApplyFilter` | src/App.jsx:51-67 | the filter effect stores `FilteredPokemon` of the current list, search term and selected type, and changes nothing else |
| `Session.App.FetchPokemon` | src/App.jsx:16-49 | loading ends in both branches and the invariant holds; on success the list is the acquired records with no error; on any rejection the list stays empty and the error is the fixed message |
| `Session.App.StoreCatalog` | src/App.jsx:35-41 | the success path stores the records, ends loading with no error, keeps the search settings and the selection, and leaves the view and type index those of the new list |
| `Session.App.StoreFailure` | src/App.jsx:42-44 | the catch path stores the fixed message and ends loading, with the list still empty and the invariant kept |
| `Session.App.SetSearchTerm` | src/App.jsx:116-117 | the new search term is stored and the view is recomputed for it |
| `Session.App.SetSelectedType` | src/App.jsx:123-124 | the new selected type is stored and the view is recomputed for it |
| `Session.App.HandlePokemonClick` | src/App.jsx:69-71 | a click selects the clicked record, keeps the invariant and changes nothing else |
| `Session.App.CloseModal` | src/App.jsx:73-75 | close clears the selection, keeps the invariant and changes nothing else |
| `Session.Mount` | src/App.jsx:16-49 | after mounting loading has ended. If every request succeeds, the list has one record per list entry in list order, the view is the whole list, there is no error and the catalog shows. Otherwise the list, view and type index are empty and the error screen shows the fixed message |

## Left out

- HTTP requests through `axios.get` and the remote API's reply schema are not modelled. The
  replies are parameters, and only the fields the projection reads are modelled.
- `Promise.all` concurrency and scheduling are not modelled. The detail replies are combined
  in list order, all or nothing.
- `Acquisition.GatherDetails`: the contract says only that the rejection reason is that of
  some rejected reply. `Promise.all` uses the first rejection in time, which the inputs do
  not determine. The fetch effect discards the reason anyway.
- `Session.App.FetchPokemon` requires one detail reply per list entry. That is how the
  model represents the network answering each request it was sent.
- React render and effect scheduling are not modelled. The state is modelled as it stands
  once the effects have run. The brief render between `setFilteredPokemon(pokemonDetails)`
  and the filter effect's re-run is not represented.
- JSX layout, Tailwind classes, `framer-motion` animations and the detail overlay's
  contents (image, abilities) are presentation and are left out.
- The height and weight display divides by 10 in floating point, which is left out.
- `window.location.reload()` is browser I/O and is left out.
- Case folding covers ASCII letters only. Full Unicode `toLowerCase`/`toUpperCase` can change
  the length of a string and is not modelled.
- `Text.DecimalString`: the id is a non-negative integer (`nat`), always written in plain
  digits. `Number#toString` writes negative and fractional numbers differently, writes
  integers of 10^21 and above in exponent notation ("1e+21"), and cannot hold integers
  above 2^53 exactly. None of that is modelled. Ids in the replies are small, so the card
  label never meets those cases.
- A reply missing a plain field (`id`, `name`, `height`, `weight` or
  `sprites.front_default`) does not throw: the record simply holds `undefined` there. The
  model's `DetailResponse` always has every field, so that case is not represented.

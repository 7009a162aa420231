/** The fetch effect's network part: one list request, then one detail request per list
    entry joined with Promise.all, each detail projected to a catalog record. The network
    is an input here: the reply to the list request, and the reply to each detail request
    in the order of the list. */
module Acquisition {
  import opened Catalog

  /** The outcome of one request: the decoded reply, or a rejection. A reply the
      projection throws on (missing `sprites`, `types` or `abilities`, or a type or ability
      entry without its inner object) rejects too, since the exception ends in the same
      catch. */
  datatype Fetch<T> = Ok(value: T) | Rejected(reason: string)

  /** One entry of `response.data.results`: a name and the URL of its detail. */
  datatype Summary = Summary(name: string, url: string)

  /** A `{ name }` reference inside a detail reply (`type.type`, `ability.ability`). */
  datatype NamedResource = NamedResource(name: string)

  /** One entry of `details.data.types`. */
  datatype TypeSlot = TypeSlot(typeRef: NamedResource)

  /** One entry of `details.data.abilities`. */
  datatype AbilitySlot = AbilitySlot(ability: NamedResource)

  /** The fields of a detail reply the projection reads. */
  datatype DetailResponse = DetailResponse(
    id: nat,
    name: string,
    frontDefault: Option<string>,
    types: seq<TypeSlot>,
    height: int,
    weight: int,
    abilities: seq<AbilitySlot>)

  /** The record built from one detail reply: scalar fields copied, and the type and
      ability lists mapped to their names in the reply's order. */
  function Project(d: DetailResponse): (p: Pokemon)
    ensures p.id == d.id && p.name == d.name && p.image == d.frontDefault
    ensures p.height == d.height && p.weight == d.weight
    ensures |p.types| == |d.types| && forall i :: 0 <= i < |d.types| ==> p.types[i] == d.types[i].typeRef.name
    ensures |p.abilities| == |d.abilities|
    ensures forall i :: 0 <= i < |d.abilities| ==> p.abilities[i] == d.abilities[i].ability.name
  {
    Pokemon(
      d.id,
      d.name,
      d.frontDefault,
      seq(|d.types|, i requires 0 <= i < |d.types| => d.types[i].typeRef.name),
      d.height,
      d.weight,
      seq(|d.abilities|, i requires 0 <= i < |d.abilities| => d.abilities[i].ability.name))
  }

  predicate AllOk<T>(replies: seq<Fetch<T>>)
  {
    forall i :: 0 <= i < |replies| ==> replies[i].Ok?
  }

  /** Promise.all over the projected detail replies, taken in list order: it succeeds
      exactly when every reply does, with one record per reply in the same order, and
      otherwise rejects with the reason of some rejected reply, exposing no records. */
  function GatherDetails(replies: seq<Fetch<DetailResponse>>): (r: Fetch<seq<Pokemon>>)
    ensures r.Ok? <==> AllOk(replies)
    ensures r.Ok? ==> |r.value| == |replies|
    ensures r.Ok? ==> forall i :: 0 <= i < |replies| ==> r.value[i] == Project(replies[i].value)
    ensures r.Rejected? ==> exists i :: 0 <= i < |replies| && replies[i] == Rejected(r.reason)
  {
    if replies == [] then Ok([])
    else
      match replies[0]
      case Rejected(reason) => Rejected(reason)
      case Ok(d) =>
        var rest := GatherDetails(replies[1..]);
        assert forall i :: 1 <= i < |replies| ==> replies[1..][i - 1] == replies[i];
        match rest
        case Rejected(reason) =>
          assert exists i :: 1 <= i < |replies| && replies[i] == Rejected(reason) by {
            var j :| 0 <= j < |replies[1..]| && replies[1..][j] == Rejected(reason);
            assert replies[j + 1] == Rejected(reason);
          }
          Rejected(reason)
        case Ok(records) => Ok([Project(d)] + records)
  }

  /** The whole acquisition: a rejected list request fails at once; otherwise the detail
      replies (one per list entry) are gathered. The records, when there are any, are one
      per list entry, in list order. */
  function FetchCatalog(list: Fetch<seq<Summary>>, details: seq<Fetch<DetailResponse>>): (r: Fetch<seq<Pokemon>>)
    requires list.Ok? ==> |details| == |list.value|
    ensures r.Ok? <==> list.Ok? && AllOk(details)
    ensures r.Ok? ==> |r.value| == |list.value|
    ensures r.Ok? ==> forall i :: 0 <= i < |details| ==> r.value[i] == Project(details[i].value)
  {
    match list
    case Rejected(reason) => Rejected(reason)
    case Ok(_) => GatherDetails(details)
  }
}

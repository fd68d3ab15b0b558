/** Spring Data's `Sort` as built by `createSortFromSortInput`: the database applies it, the
    controller only produces it. */
module Sorting {
  import opened Wrappers
  import opened Entities
  import opened Text

  datatype Direction = Asc | Desc

  /** `Sort.Order(direction, property)`. */
  datatype Order = Order(direction: Direction, property: string)

  /** `Sort.by(orders)`; no orders is `Sort.unsorted()`. */
  datatype Sort = Sort(orders: seq<Order>)

  const Unsorted: Sort := Sort([])

  /** The IllegalArgumentException `Sort.Order` throws for a property without text. */
  datatype SortError = PropertyMustNotBeEmpty

  /** DESC only for DESCENDING; ASC for ASCENDING and for a missing direction. */
  function ToDirection(d: Option<SortDirection>): (r: Direction)
    ensures r == Desc <==> d == Some(Descending)
  {
    if d == Some(Descending) then Desc else Asc
  }

  /** The stream `map` step: one order per input, or the exception of its constructor. */
  function ToOrders(inputs: seq<SortInput>): (r: Result<seq<Order>, SortError>)
    ensures r.Ok? <==> forall i :: 0 <= i < |inputs| ==> IsNotBlank(inputs[i].field)
    ensures r.Ok? ==> |r.value| == |inputs|
    ensures r.Ok? ==> forall i :: 0 <= i < |inputs| ==>
      && inputs[i].field == Some(r.value[i].property)
      && (r.value[i].direction == Desc <==> inputs[i].direction == Some(Descending))
  {
    if inputs == [] then Ok([])
    else if !IsNotBlank(inputs[0].field) then Err(PropertyMustNotBeEmpty)
    else
      match ToOrders(inputs[1..])
      case Err(e) => Err(e)
      case Ok(rest) =>
        Ok([Order(ToDirection(inputs[0].direction), inputs[0].field.value)] + rest)
  }

  /** createSortFromSortInput: a null or empty list is unsorted; otherwise one order per
      input, in input order. */
  function CreateSortFromSortInput(sortInputs: Option<seq<SortInput>>): (r: Result<Sort, SortError>)
    ensures sortInputs.None? || sortInputs == Some([]) ==> r == Ok(Unsorted)
    ensures sortInputs.Some? && sortInputs.value != [] ==>
      (r.Ok? <==> forall i :: 0 <= i < |sortInputs.value| ==> IsNotBlank(sortInputs.value[i].field))
    ensures r.Ok? && sortInputs.Some? && sortInputs.value != [] ==>
      && |r.value.orders| == |sortInputs.value|
      && r.value != Unsorted
      && forall i :: 0 <= i < |sortInputs.value| ==>
        && sortInputs.value[i].field == Some(r.value.orders[i].property)
        && (r.value.orders[i].direction == Desc <==> sortInputs.value[i].direction == Some(Descending))
  {
    if sortInputs.Some? && sortInputs.value != [] then
      match ToOrders(sortInputs.value)
      case Err(e) => Err(e)
      case Ok(orders) => Ok(Sort(orders))
    else Ok(Unsorted)
  }
}

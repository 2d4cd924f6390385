/**
 * The per-site row parsers of the ezkify family. Each reads one item into an `Item` or fails
 * with the first field that does not read. The ezkify parser reads a six-cell table row. The
 * smmrapid parser reads the five cells under an item's first child, with the id on the item
 * itself and the description in a separate modal. `time` and `cid` stand for the shared
 * `GLOBAL_DATE` and `CID` as they are when the parser runs.
 */
module EzkifyParse {
  import opened Wrappers
  import opened Strings
  import opened Dom
  import opened FilterMap
  import opened EzkifyItem
  import opened EzkifyMain

  /** Why a row does not parse, in the order the fields are read. */
  datatype ParseError = EmptyItem | ChildError | IdError | RateError | MinOrderError | MaxOrderError

  /** `.content` */
  const ContentSelector := AnyOf([Compound(None, Some("content"))])

  /**
   * The field chain both parsers share once the cells are known: the id (read elsewhere and
   * passed in), then the `$` rate of cell 2, the bounds of cells 3 and 4, and the description
   * from the given children; the first field that fails names the error.
   */
  function ReadItem(id: Option<int>, cells: seq<Node>, descKids: seq<Node>, time: int, cid: int,
                    parseFloat: string -> Option<real>): (r: Result<Item, ParseError>)
    requires |cells| >= 5
    ensures r == Err(IdError) <==> id.None?
    ensures r == Err(RateError) <==> id.Some? && Rate(cells[2], parseFloat).None?
    ensures r == Err(MinOrderError) <==>
              id.Some? && Rate(cells[2], parseFloat).Some? && Order(cells[3]).None?
    ensures r == Err(MaxOrderError) <==>
              id.Some? && Rate(cells[2], parseFloat).Some? && Order(cells[3]).Some? && Order(cells[4]).None?
    ensures r.Err? ==> r.error in {IdError, RateError, MinOrderError, MaxOrderError}
    ensures r.Ok? <==> id.Some? && Rate(cells[2], parseFloat).Some? && Order(cells[3]).Some? && Order(cells[4]).Some?
    ensures r.Ok? ==> r.value == Item(id.value, time, cid, TrimmedText(cells[1]), Rate(cells[2], parseFloat).value,
                                      Order(cells[3]).value, Order(cells[4]).value, Described(descKids))
  {
    if id.None? then Err(IdError)
    else
      var rate := Rate(cells[2], parseFloat);
      if rate.None? then Err(RateError)
      else
        var minOrder := Order(cells[3]);
        if minOrder.None? then Err(MinOrderError)
        else
          var maxOrder := Order(cells[4]);
          if maxOrder.None? then Err(MaxOrderError)
          else Ok(Item(id.value, time, cid, TrimmedText(cells[1]), rate.value, minOrder.value, maxOrder.value,
                       Described(descKids)))
  }

  // ---------------------------------------------------------------- ezkify

  /** `ezkify::parse`: a row of at least six cells; the id is cell 0's `data-filter-table-service-id`. */
  function EzkifyItemOf(row: Node, time: int, cid: int, parseFloat: string -> Option<real>): (r: Result<Item, ParseError>)
    ensures r == Err(ChildError) <==> |ElementsOf(row)| < 6
    ensures r != Err(EmptyItem)
  {
    var cells := ElementsOf(row);
    if |cells| < 6 then Err(ChildError)
    else ReadItem(AttrI64(cells[0], "data-filter-table-service-id"), cells, DescriptionKids(cells[5]), time, cid, parseFloat)
  }

  /**
   * The ezkify parser reads a row exactly as the ezkify front-end loop does: it fails with a
   * child error exactly where the loop aborts, fails on a field exactly where the loop skips
   * the row, and otherwise builds the item the loop stores under the same time and category.
   */
  lemma EzkifyAgreesWithLoop(row: Node, time: int, cid: int, parseFloat: string -> Option<real>)
    ensures RowFields(row, parseFloat).Panic? <==> EzkifyItemOf(row, time, cid, parseFloat) == Err(ChildError)
    ensures RowFields(row, parseFloat).Skip? <==>
              EzkifyItemOf(row, time, cid, parseFloat).Err? && EzkifyItemOf(row, time, cid, parseFloat).error != ChildError
    ensures RowFields(row, parseFloat).Keep? <==> EzkifyItemOf(row, time, cid, parseFloat).Ok?
    ensures RowFields(row, parseFloat).Keep? ==>
              EzkifyItemOf(row, time, cid, parseFloat).value == ItemOf(RowFields(row, parseFloat).value, time, cid)
  {
  }

  /** `ezkify::parse` with its description loop. */
  method ParseEzkify(row: Node, time: int, cid: int, parseFloat: string -> Option<real>) returns (r: Result<Item, ParseError>)
    ensures r == EzkifyItemOf(row, time, cid, parseFloat)
  {
    var cells := ElementsOf(row);
    if |cells| < 6 {
      return Err(ChildError);
    }
    var id := AttrI64(cells[0], "data-filter-table-service-id");
    r := ReadFieldsThenDescribe(id, cells, SelectFirst(cells[5], HiddenSelector), time, cid, parseFloat);
  }

  /**
   * The part both parsers share as code: the id check, the service, rate and bounds, then the
   * loop over the description container's children (none when the selector found nothing).
   */
  method ReadFieldsThenDescribe(id: Option<int>, cells: seq<Node>, container: Option<Node>, time: int, cid: int,
                                parseFloat: string -> Option<real>)
    returns (r: Result<Item, ParseError>)
    requires |cells| >= 5
    ensures r == ReadItem(id, cells, if container.None? then [] else Kids(container.value), time, cid, parseFloat)
  {
    if id.None? {
      return Err(IdError);
    }
    var service := TrimmedText(cells[1]);
    var rate := Rate(cells[2], parseFloat);
    if rate.None? {
      return Err(RateError);
    }
    var minOrder := Order(cells[3]);
    if minOrder.None? {
      return Err(MinOrderError);
    }
    var maxOrder := Order(cells[4]);
    if maxOrder.None? {
      return Err(MaxOrderError);
    }
    var description := Describe(container);
    r := Ok(Item(id.value, time, cid, service, rate.value, minOrder.value, maxOrder.value, description));
  }

  // ---------------------------------------------------------------- smmrapid

  /** The cells of a smmrapid item: the child elements of its first child element, if it has one. */
  function SmmrapidCells(item: Node): Option<seq<Node>> {
    var kids := ElementsOf(item);
    if kids == [] then None else Some(ElementsOf(kids[0]))
  }

  /** The description children of a smmrapid modal: those of its first `.content`, or none. */
  function ContentKids(modal: Node): seq<Node> {
    var content := SelectFirst(modal, ContentSelector);
    if content.None? then [] else Kids(content.value)
  }

  /**
   * `smmrapid::parse`: an empty item or fewer than five cells is an error before the id is
   * looked at; the id is the item's own `data-service-id`.
   */
  function SmmrapidItemOf(item: Node, modal: Node, time: int, cid: int, parseFloat: string -> Option<real>)
    : (r: Result<Item, ParseError>)
    ensures r == Err(EmptyItem) <==> ElementsOf(item) == []
    ensures r == Err(ChildError) <==> SmmrapidCells(item).Some? && |SmmrapidCells(item).value| < 5
    ensures r.Ok? ==> AttrI64(item, "data-service-id") == Some(r.value.id)
                      && r.value.description == Described(ContentKids(modal))
  {
    var cells := SmmrapidCells(item);
    if cells.None? then Err(EmptyItem)
    else if |cells.value| < 5 then Err(ChildError)
    else ReadItem(AttrI64(item, "data-service-id"), cells.value, ContentKids(modal), time, cid, parseFloat)
  }

  /** `smmrapid::parse` with its description loop. */
  method ParseSmmrapid(item: Node, modal: Node, time: int, cid: int, parseFloat: string -> Option<real>)
    returns (r: Result<Item, ParseError>)
    ensures r == SmmrapidItemOf(item, modal, time, cid, parseFloat)
  {
    var kids := ElementsOf(item);
    if kids == [] {
      return Err(EmptyItem);
    }
    var cells := ElementsOf(kids[0]);
    if |cells| < 5 {
      return Err(ChildError);
    }
    var id := AttrI64(item, "data-service-id");
    r := ReadFieldsThenDescribe(id, cells, SelectFirst(modal, ContentSelector), time, cid, parseFloat);
  }

  /** The shared field chain looks at cells 1 to 4 only. */
  lemma ReadItemCells(id: Option<int>, a: seq<Node>, b: seq<Node>, descKids: seq<Node>, time: int, cid: int,
                      parseFloat: string -> Option<real>)
    requires |a| >= 5 && |b| >= 5 && a[1] == b[1] && a[2] == b[2] && a[3] == b[3] && a[4] == b[4]
    ensures ReadItem(id, a, descKids, time, cid, parseFloat) == ReadItem(id, b, descKids, time, cid, parseFloat)
  {
  }

  /**
   * The two sites read the same fields the same way: given cells that agree on cells 1 to 4,
   * the same id and the same description children, the two parsers return the same item or
   * fail on the same field.
   */
  lemma SitesReadAlike(row: Node, item: Node, modal: Node, time: int, cid: int, parseFloat: string -> Option<real>)
    requires |ElementsOf(row)| >= 6 && SmmrapidCells(item).Some? && |SmmrapidCells(item).value| >= 5
    requires forall i | 1 <= i < 5 :: ElementsOf(row)[i] == SmmrapidCells(item).value[i]
    requires AttrI64(ElementsOf(row)[0], "data-filter-table-service-id") == AttrI64(item, "data-service-id")
    requires DescriptionKids(ElementsOf(row)[5]) == ContentKids(modal)
    ensures EzkifyItemOf(row, time, cid, parseFloat) == SmmrapidItemOf(item, modal, time, cid, parseFloat)
  {
    var a := ElementsOf(row);
    var b := SmmrapidCells(item).value;
    ReadItemCells(AttrI64(item, "data-service-id"), a, b, ContentKids(modal), time, cid, parseFloat);
  }
}

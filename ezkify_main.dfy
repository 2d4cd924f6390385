/**
 * The ezkify front end: the services table is a run of rows, where a category title row sets
 * the category of the item rows after it, and every other row is an item of six cells. A row
 * with fewer than six cells ends the whole run with an error; an item row with a bad id, rate
 * or order bound is only skipped. The database writes are recorded in order. `httpDate`
 * stands for the HTTP-date parser, `parseFloat` for `str::parse::<f64>`.
 */
module EzkifyMain {
  import opened Wrappers
  import opened Strings
  import opened Dom
  import opened FilterMap
  import opened EzkifyItem

  /** `.d-none` */
  const HiddenSelector := AnyOf([Compound(None, Some("d-none"))])

  /** The `class` of a category title row, matched as the whole attribute. */
  const CategoryClass := "services-list-category-title"

  /** What the run asks the database to store, in order. */
  datatype Write = CategoryWrite(id: int, desc: string) | ItemWrite(item: Item)

  predicate IsCategoryRow(row: Node) {
    Attr(row, "class") == Some(CategoryClass)
  }

  /** A category row's id: its `data-filter-table-category-id` as an i64, or -1 when missing or unreadable. */
  function CategoryId(row: Node): (r: int)
    ensures Attr(row, "data-filter-table-category-id").None? ==> r == -1
    ensures I64_MIN <= r <= I64_MAX
  {
    AttrI64(row, "data-filter-table-category-id").GetOr(-1)
  }

  /** A category id written out by the site reads back as itself; anything that is not an i64 gives -1. */
  lemma CategoryIdRoundTrip(row: Node, n: int)
    requires I64_MIN <= n <= I64_MAX
    ensures Attr(row, "data-filter-table-category-id") == Some(FormatInt(n)) ==> CategoryId(row) == n
    ensures (Attr(row, "data-filter-table-category-id").Some?
             && ParseInt(Attr(row, "data-filter-table-category-id").value, I64).None?) ==> CategoryId(row) == -1
  {
    ParseFormatRoundTrip(n, I64);
  }

  /** What an item row yields apart from its category and time. */
  datatype Fields = Fields(id: int, service: string, rate: real, minOrder: int, maxOrder: int, description: string)

  /**
   * An item row: Panic (the whole run stops) with fewer than six cells, Skip when the id,
   * rate, minimum or maximum does not read, else its fields.
   */
  function RowFields(row: Node, parseFloat: string -> Option<real>): (r: Step<Fields>)
    ensures r.Panic? <==> |ElementsOf(row)| < 6
  {
    var cells := ElementsOf(row);
    if |cells| < 6 then Panic
    else
      var id := AttrI64(cells[0], "data-filter-table-service-id");
      var rate := Rate(cells[2], parseFloat);
      var minOrder := Order(cells[3]);
      var maxOrder := Order(cells[4]);
      if id.None? || rate.None? || minOrder.None? || maxOrder.None? then Skip
      else
        var description := Described(DescriptionKids(cells[5]));
        Keep(Fields(id.value, TrimmedText(cells[1]), rate.value, minOrder.value, maxOrder.value, description))
  }

  /** The children that make up the description: those of the first `.d-none` below the cell, if any. */
  function DescriptionKids(cell: Node): seq<Node> {
    var hidden := SelectFirst(cell, HiddenSelector);
    if hidden.None? then [] else Kids(hidden.value)
  }

  /** What an item row that reads stores: each field from its own cell. */
  lemma ItemFields(row: Node, parseFloat: string -> Option<real>)
    requires RowFields(row, parseFloat).Keep?
    ensures var f := RowFields(row, parseFloat).value;
            var cells := ElementsOf(row);
            && |cells| >= 6
            && AttrI64(cells[0], "data-filter-table-service-id") == Some(f.id)
            && f.service == TrimmedText(cells[1])
            && Rate(cells[2], parseFloat) == Some(f.rate)
            && Order(cells[3]) == Some(f.minOrder)
            && Order(cells[4]) == Some(f.maxOrder)
            && (SelectFirst(cells[5], HiddenSelector).None? ==> f.description == "")
            && (SelectFirst(cells[5], HiddenSelector).Some? ==>
                  f.description == Described(Kids(SelectFirst(cells[5], HiddenSelector).value)))
  {
  }

  /** A six-cell row is skipped, not fatal, when one of its fields does not read. */
  lemma BadFieldSkips(row: Node, parseFloat: string -> Option<real>)
    requires |ElementsOf(row)| >= 6
    requires AttrI64(ElementsOf(row)[0], "data-filter-table-service-id").None?
             || Rate(ElementsOf(row)[2], parseFloat).None?
             || Order(ElementsOf(row)[3]).None? || Order(ElementsOf(row)[4]).None?
    ensures RowFields(row, parseFloat).Skip?
  {
  }

  /** The stored item: the row's fields under the category and time in force. */
  function ItemOf(f: Fields, time: int, cid: int): Item {
    Item(f.id, time, cid, f.service, f.rate, f.minOrder, f.maxOrder, f.description)
  }

  // ---------------------------------------------------------------- the row loop

  /** A row as the loop sees it: a category title with its id and text, or an item row's fields. */
  datatype RowKind = CategoryRow(id: int, desc: string) | ItemRow(fields: Step<Fields>)

  function KindOf(row: Node, parseFloat: string -> Option<real>): RowKind {
    if IsCategoryRow(row) then CategoryRow(CategoryId(row), TrimmedText(row)) else ItemRow(RowFields(row, parseFloat))
  }

  function KindsOf(rows: seq<Node>, parseFloat: string -> Option<real>): (r: seq<RowKind>)
    ensures |r| == |rows|
    ensures forall i | 0 <= i < |rows| :: r[i] == KindOf(rows[i], parseFloat)
  {
    seq(|rows|, i requires 0 <= i < |rows| => KindOf(rows[i], parseFloat))
  }

  /** The loop's state: the current category id and the writes so far. */
  datatype Scan = Scan(cid: int, writes: seq<Write>)

  /** One row: a category row sets cid and writes the category; an item row writes, skips or aborts. */
  function ScanStep(s: Scan, k: RowKind, time: int): Option<Scan> {
    match k
    case CategoryRow(id, desc) => Some(Scan(id, s.writes + [CategoryWrite(id, desc)]))
    case ItemRow(Panic) => None
    case ItemRow(Skip) => Some(s)
    case ItemRow(Keep(f)) => Some(Scan(s.cid, s.writes + [ItemWrite(ItemOf(f, time, s.cid))]))
  }

  /** The loop over the first n rows, from cid 0 and no writes; None once a row aborts. */
  function ScanKinds(ks: seq<RowKind>, n: nat, time: int): Option<Scan>
    requires n <= |ks|
  {
    if n == 0 then Some(Scan(0, []))
    else
      var before := ScanKinds(ks, n - 1, time);
      if before.None? then None else ScanStep(before.value, ks[n - 1], time)
  }

  /** The category id in force after the first n rows: the latest category row's, or 0 before any. */
  function LatestCid(ks: seq<RowKind>, n: nat): int
    requires n <= |ks|
  {
    if n == 0 then 0
    else if ks[n - 1].CategoryRow? then ks[n - 1].id
    else LatestCid(ks, n - 1)
  }

  /** What the whole loop produces: the writes, or the error of the first short row. */
  function RowsOutcome(rows: seq<Node>, time: int, parseFloat: string -> Option<real>): (r: Result<seq<Write>, string>)
    ensures var s := ScanKinds(KindsOf(rows, parseFloat), |rows|, time);
            && (r.Ok? <==> s.Some?)
            && (r.Ok? ==> r.value == s.value.writes)
            && (r.Err? ==> r.error == "child error")
  {
    var s := ScanKinds(KindsOf(rows, parseFloat), |rows|, time);
    if s.None? then Err("child error") else Ok(s.value.writes)
  }

  /** The loop's cid is always the latest category row's, and 0 before the first one. */
  lemma {:induction false} ScanCid(ks: seq<RowKind>, n: nat, time: int)
    requires n <= |ks| && ScanKinds(ks, n, time).Some?
    ensures ScanKinds(ks, n, time).value.cid == LatestCid(ks, n)
  {
    if n > 0 {
      ScanCid(ks, n - 1, time);
    }
  }

  /** An item row that reads is stored with the id of the category row above it (0 before any), and with the page's time. */
  lemma ItemUnderLatestCategory(ks: seq<RowKind>, k: nat, time: int)
    requires k < |ks| && ScanKinds(ks, k, time).Some? && ks[k].ItemRow? && ks[k].fields.Keep?
    ensures var it := ItemOf(ks[k].fields.value, time, LatestCid(ks, k));
            && ScanKinds(ks, k + 1, time).Some?
            && ScanKinds(ks, k + 1, time).value.writes == ScanKinds(ks, k, time).value.writes + [ItemWrite(it)]
            && it.cid == LatestCid(ks, k) && it.time == time
  {
    ScanCid(ks, k, time);
  }

  /** A skipped row leaves the writes and the category as they were. */
  lemma SkipWritesNothing(ks: seq<RowKind>, k: nat, time: int)
    requires k < |ks| && ScanKinds(ks, k, time).Some? && ks[k] == ItemRow(Skip)
    ensures ScanKinds(ks, k + 1, time) == ScanKinds(ks, k, time)
  {
  }

  /** Once a row aborts, no later row matters. */
  lemma {:induction false} AbortIsFinal(ks: seq<RowKind>, n: nat, time: int)
    requires n <= |ks| && ScanKinds(ks, n, time).None?
    ensures ScanKinds(ks, |ks|, time).None?
    decreases |ks| - n
  {
    if n < |ks| {
      AbortIsFinal(ks, n + 1, time);
    }
  }

  /** An item row with fewer than six cells anywhere makes the whole run fail, whatever comes before or after it. */
  lemma ShortRowAborts(rows: seq<Node>, k: nat, time: int, parseFloat: string -> Option<real>)
    requires k < |rows| && !IsCategoryRow(rows[k]) && |ElementsOf(rows[k])| < 6
    ensures RowsOutcome(rows, time, parseFloat) == Err("child error")
  {
    var ks := KindsOf(rows, parseFloat);
    assert ks[k] == ItemRow(Panic);
    PanicAborts(ks, k, time);
  }

  /** A Panic row anywhere aborts the loop. */
  lemma PanicAborts(ks: seq<RowKind>, k: nat, time: int)
    requires k < |ks| && ks[k] == ItemRow(Panic)
    ensures ScanKinds(ks, |ks|, time).None?
  {
    AbortIsFinal(ks, k + 1, time);
  }

  /** Every item the run stores carries the one Date header of the response. */
  lemma {:induction false} ItemsShareDate(ks: seq<RowKind>, n: nat, time: int)
    requires n <= |ks| && ScanKinds(ks, n, time).Some?
    ensures forall w <- ScanKinds(ks, n, time).value.writes :: w.ItemWrite? ==> w.item.time == time
  {
    if n > 0 {
      ItemsShareDate(ks, n - 1, time);
    }
  }

  /** The item row branch of the loop body: its fields, then its description loop. */
  method ReadItemRow(row: Node, parseFloat: string -> Option<real>) returns (r: Step<Fields>)
    ensures r == RowFields(row, parseFloat)
  {
    var cells := ElementsOf(row);
    if |cells| < 6 {
      return Panic;
    }
    var id := AttrI64(cells[0], "data-filter-table-service-id");
    if id.None? {
      return Skip;
    }
    var service := TrimmedText(cells[1]);
    var rate := Rate(cells[2], parseFloat);
    if rate.None? {
      return Skip;
    }
    var minOrder := Order(cells[3]);
    if minOrder.None? {
      return Skip;
    }
    var maxOrder := Order(cells[4]);
    if maxOrder.None? {
      return Skip;
    }
    var hidden := SelectFirst(cells[5], HiddenSelector);
    var description := Describe(hidden);
    r := Keep(Fields(id.value, service, rate.value, minOrder.value, maxOrder.value, description));
  }

  /** One row of the loop, from the locals cid and writes. */
  method VisitRow(cid: int, writes: seq<Write>, row: Node, time: int, parseFloat: string -> Option<real>)
    returns (next: Option<Scan>)
    ensures next == ScanStep(Scan(cid, writes), KindOf(row, parseFloat), time)
  {
    if Attr(row, "class") == Some(CategoryClass) {
      var id := CategoryId(row);
      var desc := TrimmedText(row);
      return Some(Scan(id, writes + [CategoryWrite(id, desc)]));
    }
    var fields := ReadItemRow(row, parseFloat);
    match fields {
      case Panic => next := None;
      case Skip => next := Some(Scan(cid, writes));
      case Keep(f) => next := Some(Scan(cid, writes + [ItemWrite(Item(f.id, time, cid, f.service, f.rate, f.minOrder, f.maxOrder, f.description))]));
    }
  }

  lemma ScanOneMore(ks: seq<RowKind>, i: nat, s: Scan, next: Option<Scan>, time: int)
    requires i < |ks| && ScanKinds(ks, i, time) == Some(s) && next == ScanStep(s, ks[i], time)
    ensures ScanKinds(ks, i + 1, time) == next
    ensures next.None? ==> ScanKinds(ks, |ks|, time).None?
  {
    if next.None? {
      AbortIsFinal(ks, i + 1, time);
    }
  }

  /** Row i of the loop, and where it leaves the scan over the rows' kinds. */
  method VisitNext(rows: seq<Node>, i: nat, cid: int, writes: seq<Write>, time: int, parseFloat: string -> Option<real>)
    returns (next: Option<Scan>)
    requires i < |rows| && ScanKinds(KindsOf(rows, parseFloat), i, time) == Some(Scan(cid, writes))
    ensures ScanKinds(KindsOf(rows, parseFloat), i + 1, time) == next
    ensures next.None? ==> ScanKinds(KindsOf(rows, parseFloat), |rows|, time).None?
  {
    next := VisitRow(cid, writes, rows[i], time, parseFloat);
    ScanOneMore(KindsOf(rows, parseFloat), i, Scan(cid, writes), next, time);
  }

  /** The loop of `main` over the child elements of `#service-tbody`. */
  method ScrapeRows(rows: seq<Node>, time: int, parseFloat: string -> Option<real>) returns (r: Result<seq<Write>, string>)
    ensures r == RowsOutcome(rows, time, parseFloat)
  {
    var cid := 0;
    var writes: seq<Write> := [];
    for i := 0 to |rows|
      invariant ScanKinds(KindsOf(rows, parseFloat), i, time) == Some(Scan(cid, writes))
    {
      var next := VisitNext(rows, i, cid, writes, time, parseFloat);
      if next.None? {
        return Err("child error");
      }
      cid, writes := next.value.cid, next.value.writes;
    }
    r := Ok(writes);
  }

  /** `HeaderValue::to_str`: only visible ASCII and tabs. */
  predicate VisibleAscii(s: string) {
    forall i | 0 <= i < |s| :: s[i] == '\t' || (' ' <= s[i] <= '~')
  }

  /**
   * `main` after the fetch: `date` is the response's Date header, `document` the parsed page.
   * No header, a header that is not visible ASCII, an unreadable date and a page without
   * `#service-tbody` each stop the run before any write.
   */
  method Run(date: Option<string>, httpDate: string -> Option<int>, document: Node,
             parseFloat: string -> Option<real>)
    returns (r: Result<seq<Write>, string>)
    ensures date.None? ==> r == Err("no date")
    ensures date.Some? && !VisibleAscii(date.value) ==> r.Err?
    ensures date.Some? && VisibleAscii(date.value) && httpDate(date.value).None? ==> r.Err?
    ensures r.Ok? ==> date.Some? && VisibleAscii(date.value) && httpDate(date.value).Some?
                      && SelectId(document, "service-tbody").Some?
    ensures (date.Some? && VisibleAscii(date.value) && httpDate(date.value).Some?
             && SelectId(document, "service-tbody").None?) ==> r == Err("element not found")
    ensures (date.Some? && VisibleAscii(date.value) && httpDate(date.value).Some?
             && SelectId(document, "service-tbody").Some?) ==>
              r == RowsOutcome(ElementsOf(SelectId(document, "service-tbody").value), httpDate(date.value).value, parseFloat)
  {
    if date.None? {
      return Err("no date");
    }
    if !VisibleAscii(date.value) {
      return Err("failed to convert header to a str");
    }
    var time := httpDate(date.value);
    if time.None? {
      return Err("invalid HTTP date");
    }
    var tbody := SelectId(document, "service-tbody");
    if tbody.None? {
      return Err("element not found");
    }
    r := ScrapeRows(ElementsOf(tbody.value), time.value, parseFloat);
  }
}

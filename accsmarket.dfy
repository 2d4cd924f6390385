/**
 * The accsmarket category crawl. The front page's `.soc-bl` container lists category titles
 * and category blocks; walking it in document order turns every block into one job carrying
 * the current category id and description. A job posts the category form and archives one
 * row per element of the answer: a quantity, a price, a description and an id derived from
 * the description by the standard library's default hasher. `hash` stands for that hasher,
 * `parseFloat` for Rust's `f64` parser and `httpDate` for the HTTP-date parser.
 */
module Accsmarket {
  import opened Wrappers
  import opened Strings
  import opened Dom

  /** A value of Rust's `u64`, what the hasher returns. */
  type U64Value = x: int | 0 <= x <= U64_MAX

  /** `.soc-text>p` */
  const DescSelector := ChildOf(Compound(None, Some("soc-text")), Compound(Some("p"), None))

  /** `h2` */
  const TitleSelector := AnyOf([Compound(Some("h2"), None)])

  /** `.soc-bl` */
  const ContainerSelector := AnyOf([Compound(None, Some("soc-bl"))])

  // ---------------------------------------------------------------- one archived row

  /** `hash as i64`: the same 64 bits read as two's complement. */
  function AsI64(h: U64Value): (r: int)
    ensures I64_MIN <= r <= I64_MAX
    ensures r == h || r == h - (U64_MAX + 1)
  {
    if h <= I64_MAX then h else h - (U64_MAX + 1)
  }

  /** The cast loses nothing: different hashes stay different ids. */
  lemma AsI64Injective(g: U64Value, h: U64Value)
    ensures AsI64(g) == AsI64(h) ==> g == h
  {
  }

  /** An archived row: the description's hash as an id, the description, the quantity and the price. */
  datatype Row = Row(id: int, desc: string, quantity: int, cost: real)

  /** The `data-qty` attribute read as an i64, or 0. */
  function Quantity(child: Node): (r: int)
    ensures I64_MIN <= r <= I64_MAX
  {
    var q := Attr(child, "data-qty");
    if q.None? then 0 else ParseInt(q.value, I64).GetOr(0)
  }

  /** The `data-cost` attribute with every ',' read as a decimal point, parsed as a float, or 0. */
  function Cost(child: Node, parseFloat: string -> Option<real>): real {
    var c := Attr(child, "data-cost");
    if c.None? then 0.0 else parseFloat(ReplaceChar(c.value, ',', ".")).GetOr(0.0)
  }

  /** The trimmed text of the first `.soc-text>p`, or the empty string. */
  function Description(child: Node): string {
    var d := SelectFirst(child, DescSelector);
    if d.None? then "" else TrimmedText(d.value)
  }

  /**
   * The row archived for a child: its description, the hash of that description as the id,
   * its quantity and its price.
   */
  predicate IsRowOf(row: Row, child: Node, hash: string -> U64Value, parseFloat: string -> Option<real>) {
    && row.desc == Description(child)
    && row.id == AsI64(hash(row.desc))
    && row.quantity == Quantity(child)
    && row.cost == Cost(child, parseFloat)
  }

  /** A quantity the site writes out is read back as itself; a missing or unreadable one counts as 0. */
  lemma QuantityRoundTrip(child: Node, n: int)
    requires I64_MIN <= n <= I64_MAX
    ensures Attr(child, "data-qty") == Some(FormatInt(n)) ==> Quantity(child) == n
    ensures Attr(child, "data-qty").None? ==> Quantity(child) == 0
    ensures Attr(child, "data-qty").Some? && ParseInt(Attr(child, "data-qty").value, I64).None? ==> Quantity(child) == 0
  {
    ParseFormatRoundTrip(n, I64);
  }

  /** A price written with a decimal comma reads as the same price written with a point. */
  lemma CommaReadsAsPoint(a: Node, b: Node, parseFloat: string -> Option<real>)
    requires Attr(a, "data-cost").Some? && Attr(b, "data-cost").Some?
    requires Attr(b, "data-cost").value == ReplaceChar(Attr(a, "data-cost").value, ',', ".")
    ensures Cost(a, parseFloat) == Cost(b, parseFloat)
  {
    var s := ReplaceChar(Attr(a, "data-cost").value, ',', ".");
    assert ',' !in s;
    ReplaceAbsent(s, ',', ".");
  }

  /** Rows with the same description carry the same id, and rows with different ids differ in description. */
  lemma EqualDescriptionsEqualIds(ra: Row, a: Node, rb: Row, b: Node, hash: string -> U64Value, parseFloat: string -> Option<real>)
    requires IsRowOf(ra, a, hash, parseFloat) && IsRowOf(rb, b, hash, parseFloat)
    ensures ra.desc == rb.desc ==> ra.id == rb.id
    ensures ra.id != rb.id ==> ra.desc != rb.desc
  {
  }

  // ---------------------------------------------------------------- work

  /**
   * The loop of `work`: one row per element child of the answer's root, pushed in document
   * order.
   */
  method Archive(children: seq<Node>, hash: string -> U64Value, parseFloat: string -> Option<real>)
    returns (archived: seq<Row>)
    ensures |archived| == |children|
    ensures forall i | 0 <= i < |children| :: IsRowOf(archived[i], children[i], hash, parseFloat)
  {
    archived := [];
    for i := 0 to |children|
      invariant |archived| == i
      invariant forall k | 0 <= k < i :: IsRowOf(archived[k], children[k], hash, parseFloat)
    {
      var row := ArchiveRow(children[i], hash, parseFloat);
      archived := archived + [row];
    }
  }

  /** The body of that loop: the fields of one child's row. */
  method ArchiveRow(child: Node, hash: string -> U64Value, parseFloat: string -> Option<real>) returns (row: Row)
    ensures IsRowOf(row, child, hash, parseFloat)
  {
    var quantity := Quantity(child);
    var cost := Cost(child, parseFloat);
    var desc := Description(child);
    row := Row(AsI64(hash(desc)), desc, quantity, cost);
  }

  /** The insert of one category: the four row columns, the category id and the time of the answer. */
  datatype Insert = Insert(
    ids: seq<int>, category: int, time: int, descs: seq<string>, quantities: seq<int>, prices: seq<real>)

  predicate Aligned(ins: Insert) {
    |ins.ids| == |ins.descs| == |ins.quantities| == |ins.prices|
  }

  /** The rows the server rebuilds with `unnest`. */
  function Unnest(ins: Insert): (r: seq<Row>)
    requires Aligned(ins)
    ensures |r| == |ins.ids|
  {
    seq(|ins.ids|, i requires 0 <= i < |ins.ids| => Row(ins.ids[i], ins.descs[i], ins.quantities[i], ins.prices[i]))
  }

  function InsertOf(archived: seq<Row>, category: int, time: int): (r: Insert)
    ensures Aligned(r) && |r.ids| == |archived|
  {
    Insert(
      seq(|archived|, i requires 0 <= i < |archived| => archived[i].id),
      category, time,
      seq(|archived|, i requires 0 <= i < |archived| => archived[i].desc),
      seq(|archived|, i requires 0 <= i < |archived| => archived[i].quantity),
      seq(|archived|, i requires 0 <= i < |archived| => archived[i].cost))
  }

  /** The array parameters line up: unnesting them gives back the archive, row for row. */
  lemma InsertRoundTrip(archived: seq<Row>, category: int, time: int)
    ensures Unnest(InsertOf(archived, category, time)) == archived
  {
    var r := Unnest(InsertOf(archived, category, time));
    forall i | 0 <= i < |archived| ensures r[i] == archived[i] {
    }
  }

  /** What the category form request brought back: the Date header, if any, and the answer's root. */
  datatype Answer = Answer(date: Option<string>, root: Node)

  /**
   * `work` for one category: `answer` is the response, or the transport error after which
   * nothing else happens; so does a missing or unreadable Date header. The result is the
   * insert sent, none when there is nothing to archive; what the database answers is only
   * logged.
   */
  method Work(id: int, answer: Result<Answer, string>, httpDate: string -> Option<int>,
              hash: string -> U64Value, parseFloat: string -> Option<real>)
    returns (r: Option<Insert>)
    ensures answer.Err? || answer.value.date.None? || httpDate(answer.value.date.value).None? ==> r.None?
    ensures r.Some? ==>
              && answer.Ok? && answer.value.date.Some?
              && httpDate(answer.value.date.value) == Some(r.value.time)
              && r.value.category == id
              && Aligned(r.value)
              && var children := ElementsOf(answer.value.root);
                 && |r.value.ids| == |children| > 0
                 && forall i | 0 <= i < |children| :: IsRowOf(Unnest(r.value)[i], children[i], hash, parseFloat)
    ensures (answer.Ok? && answer.value.date.Some? && httpDate(answer.value.date.value).Some?
             && ElementsOf(answer.value.root) != []) ==> r.Some?
  {
    if answer.Err? || answer.value.date.None? {
      return None;
    }
    var date := httpDate(answer.value.date.value);
    if date.None? {
      return None;
    }
    var archived := Archive(ElementsOf(answer.value.root), hash, parseFloat);
    if archived == [] {
      return None;
    }
    InsertRoundTrip(archived, id, date.value);
    r := Some(InsertOf(archived, id, date.value));
  }

  // ---------------------------------------------------------------- the category walk

  /** A job of the front page: a category id and the description that goes with it. */
  datatype Job = Job(id: int, desc: string)

  /** A title's `h2`: its `data-id` as an i64 (0 when missing or unreadable) and its trimmed text. */
  function TitleOf(h2: Node): (r: (int, string))
    ensures Attr(h2, "data-id").None? ==> r.0 == 0
    ensures I64_MIN <= r.0 <= I64_MAX
    ensures r.1 == TrimmedText(h2)
  {
    var idText := Attr(h2, "data-id");
    (if idText.None? then 0 else ParseInt(idText.value, I64).GetOr(0), TrimmedText(h2))
  }

  /**
   * What a child of the container is, by its whole `class` attribute: a title with its `h2`,
   * a title without one, a category block, or anything else.
   */
  datatype Entry = Title(id: int, desc: string) | Untitled | Block | Unknown

  function EntryOf(child: Node): Entry {
    var cls := Attr(child, "class");
    if cls == Some("soc-title") then
      var h2 := SelectFirst(child, TitleSelector);
      if h2.None? then Untitled else Title(TitleOf(h2.value).0, TitleOf(h2.value).1)
    else if cls == Some("socs") then Block
    else Unknown
  }

  function EntriesOf(children: seq<Node>): (r: seq<Entry>)
    ensures |r| == |children|
    ensures forall i | 0 <= i < |children| :: r[i] == EntryOf(children[i])
  {
    seq(|children|, i requires 0 <= i < |children| => EntryOf(children[i]))
  }

  /** The walk's state: the current id and description, and the jobs so far. */
  datatype Walk = Walk(id: int, desc: string, jobs: seq<Job>)

  /** A title sets both id and description, a block takes the description into a job, anything else changes nothing. */
  function WalkStep(w: Walk, e: Entry): Walk {
    match e
    case Title(id, desc) => Walk(id, desc, w.jobs)
    case Block => Walk(w.id, "", w.jobs + [Job(w.id, w.desc)])
    case Untitled => w
    case Unknown => w
  }

  /** The walk over the first n entries, from id 0 and an empty description. */
  function WalkOver(entries: seq<Entry>, n: nat): Walk
    requires n <= |entries|
  {
    if n == 0 then Walk(0, "", []) else WalkStep(WalkOver(entries, n - 1), entries[n - 1])
  }

  /** The number of blocks among the first n entries. */
  function Blocks(entries: seq<Entry>, n: nat): nat
    requires n <= |entries|
  {
    if n == 0 then 0 else Blocks(entries, n - 1) + (if entries[n - 1].Block? then 1 else 0)
  }

  /** The number of titles with an `h2` among the first n entries. */
  function Titles(entries: seq<Entry>, n: nat): nat
    requires n <= |entries|
  {
    if n == 0 then 0 else Titles(entries, n - 1) + (if entries[n - 1].Title? then 1 else 0)
  }

  /** The number of jobs handed a non-empty description. */
  function Described(jobs: seq<Job>): nat {
    if jobs == [] then 0 else Described(jobs[..|jobs| - 1]) + (if jobs[|jobs| - 1].desc != "" then 1 else 0)
  }

  /** Exactly one job per block. */
  lemma {:induction false} OneJobPerBlock(entries: seq<Entry>, n: nat)
    requires n <= |entries|
    ensures |WalkOver(entries, n).jobs| == Blocks(entries, n)
  {
    if n > 0 {
      OneJobPerBlock(entries, n - 1);
    }
  }

  /** Jobs are only ever appended: every earlier list of jobs is a prefix of every later one. */
  lemma {:induction false} JobsOnlyGrow(entries: seq<Entry>, m: nat, n: nat)
    requires m <= n <= |entries|
    ensures WalkOver(entries, m).jobs <= WalkOver(entries, n).jobs
    decreases n - m
  {
    if m < n {
      JobsOnlyGrow(entries, m, n - 1);
    }
  }

  /** A block's job carries 0 or the id of some title before it (which one is not stated here). */
  lemma {:induction false} JobHasLatestId(entries: seq<Entry>, n: nat)
    requires n <= |entries|
    ensures WalkOver(entries, n).id == 0 || exists k | 0 <= k < n :: entries[k].Title? && entries[k].id == WalkOver(entries, n).id
  {
    if n > 0 {
      JobHasLatestId(entries, n - 1);
    }
  }

  /**
   * `mem::take` hands a description to one job at most: the jobs that got a non-empty
   * description, plus the pending one, never outnumber the titles read.
   */
  lemma {:induction false} DescriptionUsedOnce(entries: seq<Entry>, n: nat)
    requires n <= |entries|
    ensures Described(WalkOver(entries, n).jobs) + (if WalkOver(entries, n).desc != "" then 1 else 0)
            <= Titles(entries, n)
  {
    if n > 0 {
      DescriptionUsedOnce(entries, n - 1);
      var w := WalkOver(entries, n - 1);
      var jobs := w.jobs + [Job(w.id, w.desc)];
      assert jobs[..|jobs| - 1] == w.jobs;
    }
  }

  /**
   * The loop of `main`: walks the container's element children and returns the jobs in the
   * order they are awaited.
   */
  method CollectJobs(container: Node) returns (jobs: seq<Job>)
    ensures var es := EntriesOf(ElementsOf(container)); jobs == WalkOver(es, |es|).jobs
  {
    var children := ElementsOf(container);
    var id := 0;
    var desc := "";
    jobs := [];
    for i := 0 to |children|
      invariant WalkOver(EntriesOf(children), i) == Walk(id, desc, jobs)
    {
      id, desc, jobs := Visit(children[i], id, desc, jobs);
    }
  }

  /** The body of that loop for one child: the new id, description and jobs. */
  method Visit(child: Node, id: int, desc: string, jobs: seq<Job>) returns (id': int, desc': string, jobs': seq<Job>)
    ensures Walk(id', desc', jobs') == WalkStep(Walk(id, desc, jobs), EntryOf(child))
  {
    id', desc', jobs' := id, desc, jobs;
    var cls := Attr(child, "class");
    if cls == Some("soc-title") {
      var h2 := SelectFirst(child, TitleSelector);
      if h2.Some? {
        var t := TitleOf(h2.value);
        id', desc' := t.0, t.1;
      }
    } else if cls == Some("socs") {
      jobs' := jobs + [Job(id, desc)];
      desc' := "";
    }
  }

  /**
   * `main`: the first `.soc-bl` of the front page; without one the crawl stops with an error
   * before any job.
   */
  method Crawl(document: Node) returns (r: Result<seq<Job>, string>)
    ensures SelectFirst(document, ContainerSelector).None? <==> r.Err?
    ensures r.Ok? ==> var es := EntriesOf(ElementsOf(SelectFirst(document, ContainerSelector).value));
                      r.value == WalkOver(es, |es|).jobs && |r.value| == Blocks(es, |es|)
  {
    var container := SelectFirst(document, ContainerSelector);
    if container.None? {
      return Err("element not found");
    }
    var jobs := CollectJobs(container.value);
    var es := EntriesOf(ElementsOf(container.value));
    OneJobPerBlock(es, |es|);
    r := Ok(jobs);
  }
}

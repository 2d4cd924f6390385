/**
 * The hackforums thread-list scraper: every `tr` of the fetched thread table becomes a thread
 * record when its cells hold a subject link with a `tid_<n>` id, reply and view counts and a
 * last-post time; any other row is dropped. A last-post time written out as text goes through
 * the scraper's own `simple_parse`, which panics on text too short for it, and that panic
 * ends the whole page. `httpDate` stands for the HTTP-date parser, giving seconds since the
 * epoch.
 */
module HackforumsScrape {
  import opened Wrappers
  import opened Strings
  import opened Dom
  import opened DateTemplate
  import opened FilterMap

  datatype Thread = Thread(tid: int, title: string, replies: int, views: int, lastPost: int)

  /** `tr` */
  const RowSelector := AnyOf([Compound(Some("tr"), None)])

  /** `.subject_old,.subject_new` */
  const SubjectSelector := AnyOf([Compound(None, Some("subject_old")), Compound(None, Some("subject_new"))])

  /** A row's cells: its element children. */
  function Cells(tr: Node): seq<Node> {
    ElementsOf(tr)
  }

  /** The thread id: an `id` attribute "tid_" followed by an i64. */
  function ParseTid(id: Option<string>): (r: Option<int>)
    ensures r.Some? ==> id.Some? && |id.value| >= 4 && id.value[..4] == "tid_"
                        && ParseInt(id.value[4..], I64) == r
  {
    if id.None? then None
    else
      var rest := StripPrefix(id.value, "tid_");
      if rest.None? then None else ParseInt(rest.value, I64)
  }

  /** Every thread id is found again in the id the forum writes for it. */
  lemma TidRoundTrip(n: int)
    requires I64_MIN <= n <= I64_MAX
    ensures ParseTid(Some("tid_" + FormatInt(n))) == Some(n)
  {
    var id := "tid_" + FormatInt(n);
    assert id[..4] == "tid_" && id[4..] == FormatInt(n);
    ParseFormatRoundTrip(n, I64);
  }

  /** A count cell: its text, trimmed, with every ',' removed, read as an i64. */
  function ParseCount(text: string): (r: Option<int>)
    ensures r.Some? ==> I64_MIN <= r.value <= I64_MAX
  {
    ParseInt(CleanCount(text), I64)
  }

  /** A count printed without separators is read back as itself. */
  lemma CountRoundTrip(n: int)
    requires I64_MIN <= n <= I64_MAX
    ensures ParseCount(FormatInt(n)) == Some(n)
  {
    var s := FormatInt(n);
    DecimalDigits(if n < 0 then -n else n);
    assert s[0] == '-' || IsDigit(s[0]);
    assert IsDigit(s[|s| - 1]);
    TrimUnchanged(s);
    ReplaceAbsent(s, ',', "");
    ParseFormatRoundTrip(n, I64);
  }

  /** Thousands separators do not matter: removing a ',' between two parts of a count changes nothing. */
  lemma SeparatorIgnored(a: string, b: string)
    requires a != [] && b != [] && !IsWhitespace(a[0]) && !IsWhitespace(b[|b| - 1])
    ensures ParseCount(a + "," + b) == ParseCount(a + b)
  {
    assert CleanCount(a + "," + b) == CleanCount(a + b) by {
      SeparatorDropped(a, b);
    }
  }

  /** What ParseCount hands to the integer parser. */
  function CleanCount(text: string): string {
    ReplaceChar(Trim(text), ',', "")
  }

  lemma SeparatorDropped(a: string, b: string)
    requires a != [] && b != [] && !IsWhitespace(a[0]) && !IsWhitespace(b[|b| - 1])
    ensures CleanCount(a + "," + b) == CleanCount(a + b)
  {
    JoinedEdges(a, ",", b);
    JoinedEdges(a, "", b);
    assert a + "" + b == a + b;
    TrimUnchanged(a + "," + b);
    TrimUnchanged(a + b);
    CommaRemoved(a, b);
  }

  lemma JoinedEdges(a: string, m: string, b: string)
    requires a != [] && b != []
    ensures (a + m + b)[0] == a[0] && (a + m + b)[|a + m + b| - 1] == b[|b| - 1]
  {
  }

  lemma CommaRemoved(a: string, b: string)
    ensures ReplaceChar(a + "," + b, ',', "") == ReplaceChar(a + b, ',', "")
  {
    var ra, rb := ReplaceChar(a, ',', ""), ReplaceChar(b, ',', "");
    ReplaceCharAppend(a + ",", b, ',', "");
    ReplaceCharAppend(a, ",", ',', "");
    ReplaceCharAppend(a, b, ',', "");
    assert ReplaceChar(",", ',', "") == "" by { assert ","[1..] == ""; }
    calc {
      ReplaceChar(a + "," + b, ',', "");
      ReplaceChar(a + ",", ',', "") + rb;
      (ra + "") + rb;
      { assert ra + "" == ra; }
      ra + rb;
    }
  }

  lemma TrimUnchanged(s: string)
    requires s != [] && !IsWhitespace(s[0]) && !IsWhitespace(s[|s| - 1])
    ensures Trim(s) == s
  {
    assert TrimStart(s) == s;
  }

  /** The first child node of the cell's first element child, if there is one. */
  function TimeNode(cell: Node): Option<Node> {
    var es := ElementsOf(cell);
    if es == [] || !es[0].Element? || es[0].children == [] then None else Some(es[0].children[0])
  }

  /**
   * The last-post cell's time node: an element gives its `data-timestamp` seconds, which the
   * system clock must be able to hold; a text gives the `simple_parse` of it (a panic when it
   * is too short); anything else, or no node, drops the row.
   */
  function LastPost(cell: Node, httpDate: string -> Option<int>): (r: Step<int>)
    ensures r.Panic? <==> TimeNode(cell).Some? && TimeNode(cell).value.Text? && !LongEnough(TimeNode(cell).value.text)
    ensures r.Keep? ==> TimeNode(cell).Some? && !TimeNode(cell).value.Other?
    ensures r.Keep? && TimeNode(cell).value.Element? ==>
              var ts := Attr(TimeNode(cell).value, "data-timestamp");
              ts.Some? && ParseInt(ts.value, U64) == Some(r.value) && r.value <= I64_MAX
    ensures r.Keep? && TimeNode(cell).value.Text? ==>
              var text := TimeNode(cell).value.text;
              LongEnough(text) && httpDate(ForumBuffer(text)) == Some(r.value)
  {
    match TimeNode(cell)
    case None => Skip
    case Some(a) =>
      match a
      case Element(_, _, _) =>
        var ts := Attr(a, "data-timestamp");
        if ts.None? then Skip
        else
          var secs := ParseInt(ts.value, U64);
          if secs.None? || secs.value > I64_MAX then Skip else Keep(secs.value)
      case Text(text) =>
        if !LongEnough(text) then Panic
        else
          var t := httpDate(ForumBuffer(text));
          if t.None? then Skip else Keep(t.value)
      case Other => Skip
  }

  /** The `filter_map` closure of `work` for one row. */
  function ParseRow(tr: Node, httpDate: string -> Option<int>): (r: Step<Thread>)
    ensures !r.Skip? ==> |Cells(tr)| >= 5 && SelectFirst(Cells(tr)[1], SubjectSelector).Some?
    ensures r.Keep? ==>
              var c := Cells(tr);
              var sub := SelectFirst(c[1], SubjectSelector).value;
              && r.value.title == Trim(FullText(sub))
              && ParseTid(Attr(sub, "id")) == Some(r.value.tid)
              && ParseCount(FullText(c[2])) == Some(r.value.replies)
              && ParseCount(FullText(c[3])) == Some(r.value.views)
              && LastPost(c[4], httpDate) == Keep(r.value.lastPost)
    ensures r.Panic? ==> LastPost(Cells(tr)[4], httpDate).Panic?
  {
    var c := Cells(tr);
    if |c| < 5 then Skip
    else
      var sub := SelectFirst(c[1], SubjectSelector);
      if sub.None? then Skip
      else
        var title := Trim(FullText(sub.value));
        var tid := ParseTid(Attr(sub.value, "id"));
        var replies := ParseCount(FullText(c[2]));
        var views := ParseCount(FullText(c[3]));
        if tid.None? || replies.None? || views.None? then Skip
        else
          match LastPost(c[4], httpDate)
          case Keep(t) => Keep(Thread(tid.value, title, replies.value, views.value, t))
          case Skip => Skip
          case Panic => Panic
  }

  /** What the closure gives for each row, in page order. */
  function RowSteps(rows: seq<Node>, httpDate: string -> Option<int>): (r: seq<Step<Thread>>)
    ensures |r| == |rows|
    ensures forall i | 0 <= i < |rows| :: r[i] == ParseRow(rows[i], httpDate)
  {
    seq(|rows|, i requires 0 <= i < |rows| => ParseRow(rows[i], httpDate))
  }

  /**
   * Rows are judged one by one: a row that fails drops only itself, the rows that parse keep
   * page order, and only a panicking row loses the page.
   */
  lemma RowsIndependent(a: seq<Node>, b: seq<Node>, httpDate: string -> Option<int>)
    ensures Collect(RowSteps(a + b, httpDate)) == Join(Collect(RowSteps(a, httpDate)), Collect(RowSteps(b, httpDate)))
    ensures Collect(RowSteps(a + b, httpDate)).None? <==>
              exists i | 0 <= i < |a + b| :: ParseRow((a + b)[i], httpDate).Panic?
  {
    RowStepsAppend(a, b, httpDate);
    CollectAppend(RowSteps(a, httpDate), RowSteps(b, httpDate));
  }

  lemma RowStepsAppend(a: seq<Node>, b: seq<Node>, httpDate: string -> Option<int>)
    ensures RowSteps(a + b, httpDate) == RowSteps(a, httpDate) + RowSteps(b, httpDate)
  {
    var steps, sa, sb := RowSteps(a + b, httpDate), RowSteps(a, httpDate), RowSteps(b, httpDate);
    forall i | 0 <= i < |steps|
      ensures steps[i] == (sa + sb)[i]
    {
      if i < |a| {
        assert (a + b)[i] == a[i];
      } else {
        assert (a + b)[i] == b[i - |a|];
      }
    }
  }

  /** When every row parses, the page holds exactly one thread per row, in row order. */
  lemma AllRowsKept(rows: seq<Node>, httpDate: string -> Option<int>)
    requires forall i | 0 <= i < |rows| :: ParseRow(rows[i], httpDate).Keep?
    ensures Collect(RowSteps(rows, httpDate)).Some?
    ensures |Collect(RowSteps(rows, httpDate)).value| == |rows|
    ensures forall i | 0 <= i < |rows| :: Collect(RowSteps(rows, httpDate)).value[i] == ParseRow(rows[i], httpDate).value
  {
    CollectAllKept(RowSteps(rows, httpDate));
  }

  /**
   * `work`: `table` is the fetched thread table, None when the browser failed, and then no
   * thread is returned. The result is None when a row panics.
   */
  function Work(table: Option<Node>, httpDate: string -> Option<int>): (r: Option<seq<Thread>>)
    ensures table.None? ==> r == Some([])
    ensures table.Some? ==> r == Collect(RowSteps(Select(table.value, RowSelector), httpDate))
  {
    if table.None? then Some([]) else Collect(RowSteps(Select(table.value, RowSelector), httpDate))
  }
}

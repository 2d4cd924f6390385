/**
 * The blackhatworld forum-page scraper: every `.structItem` of a thread list becomes a post
 * record when it has four element cells, a `js-threadListItem-<n>` class, an author, a title
 * link, a start time, reply and view counts and a last-reply time; any other entry is dropped.
 * The posts of a page go to the database as seven parallel column arrays, and a page with no
 * post makes no database call at all.
 */
module BlackhatworldScrape {
  import opened Wrappers
  import opened Strings
  import opened Dom
  import opened FilterMap

  datatype Post = Post(id: int, author: string, title: string, time: int, replies: int, views: int, lastReply: int)

  /** `.structItem` */
  const ItemSelector := AnyOf([Compound(None, Some("structItem"))])

  /** `.structItem-title>a` */
  const TitleSelector := ChildOf(Compound(None, Some("structItem-title")), Compound(Some("a"), None))

  /** `time.u-dt` */
  const TimeSelector := AnyOf([Compound(Some("time"), Some("u-dt"))])

  /** `dd` */
  const DdSelector := AnyOf([Compound(Some("dd"), None)])

  // ---------------------------------------------------------------- counts

  /** The abbreviated counts the forum prints: every 'K' stands for "000", every 'M' for "000000". */
  function ExpandSuffixes(x: string): string {
    ReplaceChar(ReplaceChar(x, 'K', "000"), 'M', "000000")
  }

  /** `_pa`: the expanded count read as an i64. */
  function Pa(x: string): (r: Option<int>)
    ensures r.Some? ==> I64_MIN <= r.value <= I64_MAX
  {
    ParseInt(ExpandSuffixes(x), I64)
  }

  function Zeros(k: nat): (r: string)
    ensures |r| == k && AllDigits(r)
  {
    if k == 0 then [] else Zeros(k - 1) + "0"
  }

  function Pow10(k: nat): nat {
    if k == 0 then 1 else 10 * Pow10(k - 1)
  }

  lemma {:induction false} AppendZeros(s: string, k: nat)
    requires AllDigits(s)
    ensures AllDigits(s + Zeros(k)) && DigitsValue(s + Zeros(k)) == DigitsValue(s) * Pow10(k)
    decreases k
  {
    if k > 0 {
      AppendZeros(s, k - 1);
      var t := s + Zeros(k - 1);
      assert s + Zeros(k) == t + "0";
      AppendZero(t);
      ScaleStep(DigitsValue(s), k);
    } else {
      assert s + Zeros(k) == s;
    }
  }

  lemma AppendZero(t: string)
    requires AllDigits(t)
    ensures AllDigits(t + "0") && DigitsValue(t + "0") == 10 * DigitsValue(t)
  {
    assert (t + "0")[..|t|] == t;
  }

  lemma ScaleStep(v: nat, k: nat)
    requires k > 0
    ensures v * Pow10(k) == 10 * (v * Pow10(k - 1))
  {
  }

  lemma ThreeAndSixZeros()
    ensures Zeros(3) == "000" && Pow10(3) == 1000
    ensures Zeros(6) == "000000" && Pow10(6) == 1000000
  {
    assert Zeros(1) == "0" && Zeros(2) == "00";
    assert Zeros(4) == "0000" && Zeros(5) == "00000";
  }

  /** A plain count, as `format!` prints it, is read back as itself. */
  lemma PaPlain(n: int)
    requires I64_MIN <= n <= I64_MAX
    ensures Pa(FormatInt(n)) == Some(n)
  {
    var s := FormatInt(n);
    DecimalDigits(if n < 0 then -n else n);
    assert 'K' !in s && 'M' !in s by {
      assert forall i | 0 <= i < |s| :: s[i] == '-' || IsDigit(s[i]);
    }
    ReplaceAbsent(s, 'K', "000");
    ReplaceAbsent(s, 'M', "000000");
    ParseFormatRoundTrip(n, I64);
  }

  /** "12K" is 12000. */
  lemma PaThousands(n: nat)
    requires n * 1000 <= I64_MAX
    ensures Pa(Decimal(n) + "K") == Some(n * 1000)
  {
    DecimalDigits(n);
    ThreeAndSixZeros();
    ExpandK(Decimal(n));
    ParseScaled(n, 3);
  }

  /** "3M" is 3000000. */
  lemma PaMillions(n: nat)
    requires n * 1000000 <= I64_MAX
    ensures Pa(Decimal(n) + "M") == Some(n * 1000000)
  {
    DecimalDigits(n);
    ThreeAndSixZeros();
    ExpandM(Decimal(n));
    ParseScaled(n, 6);
  }

  lemma ExpandK(d: string)
    requires AllDigits(d)
    ensures ExpandSuffixes(d + "K") == d + "000"
  {
    assert 'K' !in d && 'M' !in d;
    assert ReplaceChar("K", 'K', "000") == "000" by { assert "K"[1..] == []; }
    ReplaceCharAppend(d, "K", 'K', "000");
    ReplaceAbsent(d, 'K', "000");
    assert 'M' !in d + "000";
    ReplaceAbsent(d + "000", 'M', "000000");
  }

  lemma ExpandM(d: string)
    requires AllDigits(d)
    ensures ExpandSuffixes(d + "M") == d + "000000"
  {
    assert 'K' !in d + "M";
    ReplaceAbsent(d + "M", 'K', "000");
    assert ReplaceChar("M", 'M', "000000") == "000000" by { assert "M"[1..] == []; }
    ReplaceCharAppend(d, "M", 'M', "000000");
    assert 'M' !in d;
    ReplaceAbsent(d, 'M', "000000");
  }

  lemma ParseScaled(n: nat, k: nat)
    requires n * Pow10(k) <= I64_MAX
    ensures ParseInt(Decimal(n) + Zeros(k), I64) == Some(n * Pow10(k))
  {
    var d := Decimal(n);
    DecimalDigits(n);
    AppendZeros(d, k);
    assert (d + Zeros(k))[0] == d[0];
  }

  /** A character other than c that is not in the replacement survives the replacement. */
  lemma {:induction false} ReplaceKeeps(s: string, c: char, repl: string, d: char)
    requires d in s && d != c && d !in repl
    ensures d in ReplaceChar(s, c, repl)
    decreases |s|
  {
    if s[0] != d {
      assert d in s[1..];
      ReplaceKeeps(s[1..], c, repl, d);
    }
  }

  /** Counts with a fractional part, such as "1.2K", are not read at all. */
  lemma PaRejectsFraction(x: string)
    requires '.' in x
    ensures Pa(x) == None
  {
    ReplaceKeeps(x, 'K', "000", '.');
    ReplaceKeeps(ReplaceChar(x, 'K', "000"), 'M', "000000", '.');
    var e := ExpandSuffixes(x);
    var i :| 0 <= i < |e| && e[i] == '.';
    assert !IsDigit(e[i]);
  }

  // ---------------------------------------------------------------- thread id

  /** The class attribute pattern `js-threadListItem-(\d+)`. */
  const IdPrefix := "js-threadListItem-"

  /** The pattern matches at p: the prefix followed by at least one digit. */
  predicate IdMatch(cls: string, p: int) {
    OccursAt(cls, IdPrefix, p) && p + |IdPrefix| < |cls| && IsDigit(cls[p + |IdPrefix|])
  }

  /** The leftmost match at or after `from`, as the regex search finds it. */
  function FirstIdMatch(cls: string, from: nat): (r: Option<nat>)
    requires from <= |cls|
    ensures r.Some? ==> from <= r.value && IdMatch(cls, r.value)
    ensures r.Some? ==> forall j | from <= j < r.value :: !IdMatch(cls, j)
    ensures r.None? ==> forall j | from <= j <= |cls| :: !IdMatch(cls, j)
    decreases |cls| - from
  {
    if IdMatch(cls, from) then Some(from)
    else if from == |cls| then None
    else FirstIdMatch(cls, from + 1)
  }

  /** The greedy `\d+`: the longest run of digits starting at i. */
  function DigitRun(s: string, i: nat): (r: string)
    requires i <= |s|
    ensures i + |r| <= |s| && r == s[i..i + |r|] && AllDigits(r)
    ensures i + |r| == |s| || !IsDigit(s[i + |r|])
    decreases |s| - i
  {
    if i < |s| && IsDigit(s[i]) then [s[i]] + DigitRun(s, i + 1) else []
  }

  /** The first capture group of the leftmost match, if the class attribute has one. */
  function CaptureId(cls: string): (r: Option<string>)
    ensures r.Some? <==> exists p | 0 <= p <= |cls| :: IdMatch(cls, p)
    ensures r.Some? ==> r.value != [] && AllDigits(r.value)
  {
    var p := FirstIdMatch(cls, 0);
    if p.None? then None else Some(DigitRun(cls, p.value + |IdPrefix|))
  }

  /** The post id: the captured digits read as an i64; no class attribute, no match or overflow gives none. */
  function ParseId(cls: Option<string>): (r: Option<int>)
    ensures r.Some? ==> cls.Some? && CaptureId(cls.value).Some? && 0 <= r.value <= I64_MAX
  {
    if cls.None? then None
    else
      var digits := CaptureId(cls.value);
      if digits.None? then None else ParseInt(digits.value, I64)
  }

  lemma DigitRunIs(s: string, i: nat, d: string)
    requires i + |d| <= |s| && s[i..i + |d|] == d && AllDigits(d)
    requires i + |d| == |s| || !IsDigit(s[i + |d|])
    ensures DigitRun(s, i) == d
  {
  }

  /**
   * The id the forum writes into an entry's classes is read back, whatever classes precede it
   * (as long as none of them could start an earlier match) and whatever non-digit follows.
   */
  lemma IdFound(pre: string, n: nat, post: string)
    requires 'j' !in pre && n <= I64_MAX
    requires post == [] || !IsDigit(post[0])
    ensures ParseId(Some(pre + IdPrefix + Decimal(n) + post)) == Some(n)
  {
    var d := Decimal(n);
    DecimalDigits(n);
    var cls := pre + IdPrefix + d + post;
    FirstMatchAfter(pre, d, post, cls);
    RunAfterPrefix(pre, d, post, cls);
    ParseFormatRoundTrip(n, I64);
  }

  lemma NoMatchBefore(pre: string, cls: string)
    requires 'j' !in pre && |pre| <= |cls| && cls[..|pre|] == pre
    ensures forall j | 0 <= j < |pre| :: !IdMatch(cls, j)
  {
    forall j | 0 <= j < |pre| ensures !IdMatch(cls, j) {
      assert cls[j] == pre[j];
    }
  }

  lemma FirstMatchAfter(pre: string, d: string, post: string, cls: string)
    requires cls == pre + IdPrefix + d + post && d != [] && AllDigits(d) && 'j' !in pre
    ensures FirstIdMatch(cls, 0) == Some(|pre|)
  {
    var p := |pre|;
    var q := p + |IdPrefix|;
    assert cls[..p] == pre;
    assert cls[p..q] == IdPrefix;
    assert cls[q] == d[0];
    assert IdMatch(cls, p);
    NoMatchBefore(pre, cls);
  }

  lemma RunAfterPrefix(pre: string, d: string, post: string, cls: string)
    requires cls == pre + IdPrefix + d + post && AllDigits(d)
    requires post == [] || !IsDigit(post[0])
    ensures DigitRun(cls, |pre| + |IdPrefix|) == d
  {
    var q := |pre| + |IdPrefix|;
    assert cls[q..q + |d|] == d;
    if post != [] {
      assert cls[q + |d|] == post[0];
    }
    DigitRunIs(cls, q, d);
  }

  // ---------------------------------------------------------------- entries

  /**
   * The `time.u-dt` of a cell: its `data-time` seconds since the epoch, which the system clock
   * must be able to hold.
   */
  function TimeIn(cell: Node): (r: Option<int>)
    ensures r.Some? ==> 0 <= r.value <= I64_MAX
    ensures r.Some? ==> var t := SelectFirst(cell, TimeSelector);
                        t.Some? && Attr(t.value, "data-time").Some?
                        && ParseInt(Attr(t.value, "data-time").value, U64) == r
  {
    var t := SelectFirst(cell, TimeSelector);
    if t.None? then None
    else
      var secs := Attr(t.value, "data-time");
      if secs.None? then None
      else
        var v := ParseInt(secs.value, U64);
        if v.None? || v.value > I64_MAX then None else v
  }

  /** The closure of `filter_map` for one `.structItem`: a post, or nothing. */
  function ParseEntry(entry: Node): (r: Step<Post>)
    ensures !r.Panic?
  {
    var c := ElementsOf(entry);
    if |c| < 4 then Skip
    else
      var id := ParseId(Attr(entry, "class"));
      var author := Attr(entry, "data-author");
      var title := SelectFirst(c[1], TitleSelector);
      var time := TimeIn(c[1]);
      var dd := Select(c[2], DdSelector);
      if id.None? || author.None? || title.None? || time.None? || |dd| < 2 then Skip
      else
        var replies := Pa(TrimmedText(dd[0]));
        var views := Pa(TrimmedText(dd[1]));
        var lastReply := TimeIn(c[3]);
        if replies.None? || views.None? || lastReply.None? then Skip
        else Keep(Post(id.value, author.value, TrimmedText(title.value), time.value, replies.value, views.value, lastReply.value))
  }

  /**
   * A post carries exactly what its entry shows: the id from its class, its author, the
   * trimmed title link text, both times and the first two `dd` counts of its third cell.
   */
  lemma EntryFields(entry: Node)
    ensures ParseEntry(entry).Keep? ==>
              var c := ElementsOf(entry);
              var dd := if |c| >= 4 then Select(c[2], DdSelector) else [];
              && |c| >= 4 && |dd| >= 2
              && ParseId(Attr(entry, "class")) == Some(ParseEntry(entry).value.id)
              && Attr(entry, "data-author") == Some(ParseEntry(entry).value.author)
              && SelectFirst(c[1], TitleSelector).Some?
              && ParseEntry(entry).value.title == TrimmedText(SelectFirst(c[1], TitleSelector).value)
              && TimeIn(c[1]) == Some(ParseEntry(entry).value.time)
              && Pa(TrimmedText(dd[0])) == Some(ParseEntry(entry).value.replies)
              && Pa(TrimmedText(dd[1])) == Some(ParseEntry(entry).value.views)
              && TimeIn(c[3]) == Some(ParseEntry(entry).value.lastReply)
  {
  }

  /** An entry with fewer than four element cells never becomes a post. */
  lemma ShortEntryDropped(entry: Node)
    requires |ElementsOf(entry)| < 4
    ensures ParseEntry(entry) == Skip
  {
  }

  /** The posts of a thread list: the entries that parse, in page order. */
  function Posts(list: Node): (r: seq<Post>)
    ensures |r| <= |Select(list, ItemSelector)|
  {
    var steps := Judge(Select(list, ItemSelector), ParseEntry);
    assert forall i | 0 <= i < |steps| :: !steps[i].Panic?;
    Collect(steps).value
  }

  /**
   * A bad entry costs only itself: the posts of two runs of entries are the posts of each,
   * one after the other.
   */
  lemma EntriesIndependent(a: seq<Node>, b: seq<Node>)
    ensures Collect(Judge(a + b, ParseEntry)) == Join(Collect(Judge(a, ParseEntry)), Collect(Judge(b, ParseEntry)))
    ensures Collect(Judge(a + b, ParseEntry)).Some?
  {
    var steps, sa, sb := Judge(a + b, ParseEntry), Judge(a, ParseEntry), Judge(b, ParseEntry);
    JudgeAppend(a, b, ParseEntry);
    CollectAppend(sa, sb);
    assert forall i | 0 <= i < |steps| :: !steps[i].Panic?;
  }

  // ---------------------------------------------------------------- the database batch

  /** The seven array parameters of the upsert, one per column. */
  datatype Columns = Columns(
    ids: seq<int>, authors: seq<string>, titles: seq<string>, times: seq<int>,
    replies: seq<int>, views: seq<int>, lastReplies: seq<int>)

  function ColumnsOf(posts: seq<Post>): (r: Columns)
    ensures |r.ids| == |r.authors| == |r.titles| == |r.times| == |posts|
    ensures |r.replies| == |r.views| == |r.lastReplies| == |posts|
  {
    Columns(
      seq(|posts|, i requires 0 <= i < |posts| => posts[i].id),
      seq(|posts|, i requires 0 <= i < |posts| => posts[i].author),
      seq(|posts|, i requires 0 <= i < |posts| => posts[i].title),
      seq(|posts|, i requires 0 <= i < |posts| => posts[i].time),
      seq(|posts|, i requires 0 <= i < |posts| => posts[i].replies),
      seq(|posts|, i requires 0 <= i < |posts| => posts[i].views),
      seq(|posts|, i requires 0 <= i < |posts| => posts[i].lastReply))
  }

  /** The seven arrays have one entry per post each. */
  predicate Aligned(c: Columns) {
    |c.ids| == |c.authors| == |c.titles| == |c.times| == |c.replies| == |c.views| == |c.lastReplies|
  }

  /** The rows the server rebuilds with `unnest`, reading the columns side by side. */
  function Unnest(c: Columns): (r: seq<Post>)
    requires Aligned(c)
    ensures |r| == |c.ids|
  {
    seq(|c.ids|, i requires 0 <= i < |c.ids| =>
      Post(c.ids[i], c.authors[i], c.titles[i], c.times[i], c.replies[i], c.views[i], c.lastReplies[i]))
  }

  /** The columns line up: unnesting them gives back every post, field for field, in order. */
  lemma ColumnsRoundTrip(posts: seq<Post>)
    ensures Unnest(ColumnsOf(posts)) == posts
  {
    var r := Unnest(ColumnsOf(posts));
    forall i | 0 <= i < |posts| ensures r[i] == posts[i] {
    }
  }

  /** The statement sent for a page: the columns and the forum section every row is stored under. */
  datatype Upsert = Upsert(columns: Columns, section: int)

  /**
   * `work` for one page: `list` is the thread list the browser found, or the navigation or
   * lookup error, after which nothing else happens. The answer is the upsert sent, if any; what
   * the database answers is only logged.
   */
  function Work(list: Result<Node, string>, section: int): (r: Option<Upsert>)
    ensures r.Some? <==> list.Ok? && Posts(list.value) != []
    ensures r.Some? ==> r.value.section == section && Aligned(r.value.columns) && Unnest(r.value.columns) == Posts(list.value)
  {
    if list.Err? then None
    else
      var posts := Posts(list.value);
      if posts == [] then None
      else
        ColumnsRoundTrip(posts);
        Some(Upsert(ColumnsOf(posts), section))
  }
}

/**
 * What the ezkify-family scrapers read out of one service row, shared by the ezkify front-end
 * loop and the two per-site parsers: the item record, the `$` rate, the order bounds read
 * with all whitespace removed, and the description built from a container's child nodes.
 * `parseFloat` stands for Rust's `str::parse::<f64>`.
 */
module EzkifyItem {
  import opened Wrappers
  import opened Strings
  import opened Dom

  /** A service as stored: `time` is the page's Date header in seconds since the epoch, `cid` its category. */
  datatype Item = Item(id: int, time: int, cid: int, service: string, rate: real,
                       minOrder: int, maxOrder: int, description: string)

  // ---------------------------------------------------------------- the description

  /** What a child node adds to the description: a text its text, a `br` element a newline, anything else nothing. */
  function Piece(n: Node): string {
    match n
    case Text(t) => t
    case Element(name, _, _) => if name == "br" then "\n" else ""
    case Other => ""
  }

  /** The description made of the given child nodes, in order. */
  function Described(children: seq<Node>): string {
    if children == [] then "" else Described(children[..|children| - 1]) + Piece(children[|children| - 1])
  }

  /** The child nodes of a node (`ElementRef::children`); a non-element has none. */
  function Kids(n: Node): seq<Node> {
    if n.Element? then n.children else []
  }

  lemma DescribedSnoc(a: seq<Node>, n: Node)
    ensures Described(a + [n]) == Described(a) + Piece(n)
  {
    assert (a + [n])[..|a|] == a;
  }

  /** The description of two runs of children is the two descriptions joined. */
  lemma {:induction false} DescribedAppend(a: seq<Node>, b: seq<Node>)
    ensures Described(a + b) == Described(a) + Described(b)
    decreases |b|
  {
    if b == [] {
      assert a + b == a;
    } else {
      var b', last := b[..|b| - 1], b[|b| - 1];
      DescribedAppend(a, b');
      assert (a + b)[..|a + b| - 1] == a + b';
      assert (a + b)[|a + b| - 1] == last;
      calc {
        Described(a + b);
        Described(a + b') + Piece(last);
        (Described(a) + Described(b')) + Piece(last);
        Described(a) + (Described(b') + Piece(last));
        Described(a) + Described(b);
      }
    }
  }

  /** A `br` child becomes exactly one newline between what surrounds it. */
  lemma BreakIsNewline(a: seq<Node>, br: Node, b: seq<Node>)
    requires br.Element? && br.name == "br"
    ensures Described(a + [br] + b) == Described(a) + "\n" + Described(b)
  {
    DescribedAppend(a + [br], b);
    DescribedSnoc(a, br);
  }

  /** Any other element child (with all the text inside it) and any comment add nothing. */
  lemma OthersIgnored(a: seq<Node>, n: Node, b: seq<Node>)
    requires n.Other? || (n.Element? && n.name != "br")
    ensures Described(a + [n] + b) == Described(a + b)
  {
    DescribedAppend(a + [n], b);
    DescribedSnoc(a, n);
    assert Piece(n) == "";
    assert Described(a) + "" == Described(a);
    DescribedAppend(a, b);
  }

  /** A text child adds its text unchanged, untrimmed. */
  lemma TextKept(a: seq<Node>, t: string, b: seq<Node>)
    ensures Described(a + [Text(t)] + b) == Described(a) + t + Described(b)
  {
    DescribedAppend(a + [Text(t)], b);
    DescribedSnoc(a, Text(t));
  }

  /**
   * The loop that builds the description: the first element the selector found (None when it
   * found nothing, and then the description is empty), each child text pushed, each `br` a '\n'.
   */
  method Describe(container: Option<Node>) returns (s: string)
    ensures container.None? ==> s == ""
    ensures container.Some? ==> s == Described(Kids(container.value))
  {
    s := "";
    if container.None? {
      return;
    }
    var kids := Kids(container.value);
    for i := 0 to |kids|
      invariant s == Described(kids[..i])
    {
      assert kids[..i + 1][..i] == kids[..i];
      match kids[i] {
        case Text(t) =>
          s := s + t;
        case Element(name, _, _) =>
          if name == "br" {
            s := s + "\n";
          }
        case Other =>
      }
    }
    assert kids[..|kids|] == kids;
  }

  // ---------------------------------------------------------------- the fields

  /** An attribute read as an i64; None when it is missing or does not parse. */
  function AttrI64(n: Node, key: string): (r: Option<int>)
    ensures r.Some? ==> Attr(n, key).Some? && ParseInt(Attr(n, key).value, I64) == r
    ensures Attr(n, key).Some? ==> r == ParseInt(Attr(n, key).value, I64)
  {
    var a := Attr(n, key);
    if a.None? then None else ParseInt(a.value, I64)
  }

  /** The rate cell: its trimmed text must start with '$', and the rest must read as a float. */
  function Rate(cell: Node, parseFloat: string -> Option<real>): (r: Option<real>)
    ensures r.Some? ==> TrimmedText(cell) != [] && TrimmedText(cell)[0] == '$'
    ensures TrimmedText(cell) != [] && TrimmedText(cell)[0] == '$' ==> r == parseFloat(TrimmedText(cell)[1..])
  {
    var t := StripPrefix(TrimmedText(cell), "$");
    if t.None? then None else parseFloat(t.value)
  }

  /**
   * An order bound: every text piece with its whitespace removed, joined, read as an i64. The
   * same as reading the cell's whole text with all its whitespace removed.
   */
  function Order(cell: Node): (r: Option<int>)
    ensures r == ParseInt(RemoveWhitespace(FullText(cell)), I64)
  {
    RemoveWhitespaceConcat(Texts(cell));
    ParseInt(Concat(MapRemoveWhitespace(Texts(cell))), I64)
  }

  /** Whitespace inside a number, such as "10 000", does not change what it reads as. */
  lemma WhitespaceIgnored(a: string, w: string, b: string)
    requires forall i | 0 <= i < |w| :: IsWhitespace(w[i])
    ensures RemoveWhitespace(a + w + b) == RemoveWhitespace(a + b)
  {
    RemoveWhitespaceAppend(a + w, b);
    RemoveWhitespaceAppend(a, w);
    RemoveWhitespaceAppend(a, b);
    AllWhitespaceRemoved(w);
  }

  lemma {:induction false} AllWhitespaceRemoved(w: string)
    requires forall i | 0 <= i < |w| :: IsWhitespace(w[i])
    ensures RemoveWhitespace(w) == ""
    decreases |w|
  {
    if w != [] {
      AllWhitespaceRemoved(w[1..]);
    }
  }

  lemma {:induction false} NoWhitespaceKept(s: string)
    requires forall i | 0 <= i < |s| :: !IsWhitespace(s[i])
    ensures RemoveWhitespace(s) == s
    decreases |s|
  {
    if s != [] {
      NoWhitespaceKept(s[1..]);
      assert [s[0]] + s[1..] == s;
    }
  }

  /** No whitespace in a printed integer. */
  lemma FormatIntNoWhitespace(n: int)
    ensures forall i | 0 <= i < |FormatInt(n)| :: !IsWhitespace(FormatInt(n)[i])
  {
    var s := FormatInt(n);
    var m := if n < 0 then -n else n;
    DecimalDigits(m);
    forall i | 0 <= i < |s| ensures !IsWhitespace(s[i]) {
      if n < 0 && i == 0 {
        assert s[0] == '-';
      } else if n < 0 {
        assert s[i] == Decimal(m)[i - 1];
        assert IsDigit(Decimal(m)[i - 1]);
      } else {
        assert IsDigit(Decimal(m)[i]);
      }
    }
  }

  /** A cell whose text is a printed i64, with any whitespace around it, reads back as that number. */
  lemma OrderRoundTrip(cell: Node, n: int, before: string, after: string)
    requires I64_MIN <= n <= I64_MAX
    requires forall i | 0 <= i < |before| :: IsWhitespace(before[i])
    requires forall i | 0 <= i < |after| :: IsWhitespace(after[i])
    requires FullText(cell) == before + FormatInt(n) + after
    ensures Order(cell) == Some(n)
  {
    var s := FormatInt(n);
    assert RemoveWhitespace(before + s + after) == s by {
      FormatIntNoWhitespace(n);
      NoWhitespaceKept(s);
      AllWhitespaceRemoved(before);
      AllWhitespaceRemoved(after);
      RemoveWhitespaceAppend(before + s, after);
      RemoveWhitespaceAppend(before, s);
      assert "" + s + "" == s;
    }
    ParseFormatRoundTrip(n, I64);
  }
}

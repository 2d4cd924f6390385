/**
 * The parsed HTML that the scrapers walk, reduced to what they read of it: element names,
 * attributes, children in document order and text nodes; plus the few CSS selectors they
 * use and the document-order search that `ElementRef::select` performs.
 */
module Dom {
  import opened Wrappers
  import opened Strings

  /** A node of a parsed document. Comments, doctypes and the like are `Other`. */
  datatype Node =
    | Text(text: string)
    | Element(name: string, attrs: map<string, string>, children: seq<Node>)
    | Other

  /** `ElementRef::attr` */
  function Attr(n: Node, key: string): (r: Option<string>)
    ensures r.Some? <==> n.Element? && key in n.attrs
    ensures r.Some? ==> r.value == n.attrs[key]
  {
    if n.Element? && key in n.attrs then Some(n.attrs[key]) else None
  }

  /** `ElementRef::child_elements`: the element children, in document order. */
  function ChildElements(ns: seq<Node>): (r: seq<Node>)
    ensures |r| <= |ns|
    ensures forall i | 0 <= i < |r| :: r[i].Element? && r[i] in ns
    ensures forall n | n in ns && n.Element? :: n in r
  {
    if ns == [] then []
    else (if ns[0].Element? then [ns[0]] else []) + ChildElements(ns[1..])
  }

  /**
   * ChildElements keeps the order of the children: it distributes over concatenation and keeps
   * a single node iff it is an element, which together determine it on every sequence.
   */
  lemma ChildElementsInOrder(a: seq<Node>, b: seq<Node>)
    ensures ChildElements(a + b) == ChildElements(a) + ChildElements(b)
    ensures forall n: Node :: ChildElements([n]) == if n.Element? then [n] else []
  {
    ChildElementsAppend(a, b);
    forall n: Node
      ensures ChildElements([n]) == if n.Element? then [n] else []
    {
      ChildElementOne(n);
    }
  }

  lemma {:induction false} ChildElementsAppend(a: seq<Node>, b: seq<Node>)
    ensures ChildElements(a + b) == ChildElements(a) + ChildElements(b)
    decreases |a|
  {
    if a == [] {
      assert a + b == b;
    } else {
      var ab := a + b;
      assert ab[0] == a[0] && ab[1..] == a[1..] + b;
      ChildElementsAppend(a[1..], b);
    }
  }

  lemma ChildElementOne(n: Node)
    ensures ChildElements([n]) == if n.Element? then [n] else []
  {
    assert [n][1..] == [];
  }

  function ElementsOf(n: Node): seq<Node> {
    if n.Element? then ChildElements(n.children) else []
  }

  /** The text nodes below a forest, in document order. */
  function TextsOf(ns: seq<Node>): seq<string>
    decreases ns
  {
    if ns == [] then []
    else
      (match ns[0]
         case Text(t) => [t]
         case Element(_, _, children) => TextsOf(children)
         case Other => [])
      + TextsOf(ns[1..])
  }

  /** `ElementRef::text`: every descendant text node of the element, in document order. */
  function Texts(n: Node): seq<string> {
    if n.Element? then TextsOf(n.children) else []
  }

  /** `e.text().map(str::trim).collect::<String>()` */
  function TrimmedText(n: Node): string {
    Concat(MapTrim(Texts(n)))
  }

  /** `e.text().collect::<String>()` */
  function FullText(n: Node): string {
    Concat(Texts(n))
  }

  // ---------------------------------------------------------------- selectors

  /** HTML's ASCII whitespace, which separates the tokens of a `class` attribute. */
  predicate IsHtmlSpace(c: char) {
    c == ' ' || c == '\t' || c == '\n' || c == '\r' || c == '\U{000C}'
  }

  /** `cls` is a whole whitespace-separated token of the class list starting at index i. */
  predicate ClassTokenAt(classList: string, cls: string, i: int) {
    OccursAt(classList, cls, i)
    && (i == 0 || IsHtmlSpace(classList[i - 1]))
    && (i + |cls| == |classList| || IsHtmlSpace(classList[i + |cls|]))
  }

  predicate HasClass(n: Node, cls: string) {
    && n.Element? && "class" in n.attrs && cls != []
    && exists i | 0 <= i < |n.attrs["class"]| :: ClassTokenAt(n.attrs["class"], cls, i)
  }

  /** A compound selector: an optional tag name and an optional class, as in `h2`, `.d-none`, `time.u-dt`. */
  datatype Compound = Compound(tag: Option<string>, cls: Option<string>)

  /** The selector forms the scrapers use: a list of alternatives (`a,b`) and the child combinator (`a>b`). */
  datatype Selector =
    | AnyOf(alternatives: seq<Compound>)
    | ChildOf(parent: Compound, child: Compound)

  predicate MatchesCompound(c: Compound, n: Node) {
    && n.Element?
    && (c.tag.Some? ==> n.name == c.tag.value)
    && (c.cls.Some? ==> HasClass(n, c.cls.value))
  }

  predicate Matches(sel: Selector, parent: Node, n: Node) {
    match sel
    case AnyOf(alts) => exists k | 0 <= k < |alts| :: MatchesCompound(alts[k], n)
    case ChildOf(p, c) => MatchesCompound(p, parent) && MatchesCompound(c, n)
  }

  /** Every node of the forest below `parent` that matches sel, in document (pre-)order. */
  function SelectIn(parent: Node, ns: seq<Node>, sel: Selector): seq<Node>
    decreases ns
  {
    if ns == [] then []
    else
      var n := ns[0];
      (if Matches(sel, parent, n) then [n] else [])
      + (if n.Element? then SelectIn(n, n.children, sel) else [])
      + SelectIn(parent, ns[1..], sel)
  }

  /** `ElementRef::select`: the matching descendants of n, not n itself, in document order. */
  function Select(n: Node, sel: Selector): seq<Node> {
    if n.Element? then SelectIn(n, n.children, sel) else []
  }

  /** `e.select(sel).next()` */
  function SelectFirst(n: Node, sel: Selector): (r: Option<Node>)
    ensures r.Some? ==> Select(n, sel) != [] && r.value == Select(n, sel)[0]
    ensures r.None? <==> Select(n, sel) == []
  {
    var all := Select(n, sel);
    if all == [] then None else Some(all[0])
  }

  /** The first element of the forest, in document order, whose `id` attribute is id. */
  function SelectIdIn(ns: seq<Node>, id: string): (r: Option<Node>)
    ensures r.Some? ==> r.value.Element? && Attr(r.value, "id") == Some(id)
    decreases ns
  {
    if ns == [] then None
    else if ns[0].Element? && Attr(ns[0], "id") == Some(id) then Some(ns[0])
    else
      var inner := if ns[0].Element? then SelectIdIn(ns[0].children, id) else None;
      if inner.Some? then inner else SelectIdIn(ns[1..], id)
  }

  /** `select("#id").next()`: the first descendant element with that id. */
  function SelectId(n: Node, id: string): (r: Option<Node>)
    ensures r.Some? ==> r.value.Element? && Attr(r.value, "id") == Some(id)
  {
    if n.Element? then SelectIdIn(n.children, id) else None
  }

  /** Every node of the sequence is an element. */
  predicate AllElements(s: seq<Node>) {
    forall n <- s :: n.Element?
  }

  lemma {:induction false} SelectInElements(parent: Node, ns: seq<Node>, sel: Selector)
    ensures AllElements(SelectIn(parent, ns, sel))
    decreases ns
  {
    if ns != [] {
      var n := ns[0];
      if Matches(sel, parent, n) {
        MatchesElement(sel, parent, n);
      }
      if n.Element? {
        SelectInElements(n, n.children, sel);
      }
      SelectInElements(parent, ns[1..], sel);
    }
  }

  /** Only elements match a selector. */
  lemma MatchesElement(sel: Selector, parent: Node, n: Node)
    requires Matches(sel, parent, n)
    ensures n.Element?
  {
    if sel.AnyOf? {
      var k :| 0 <= k < |sel.alternatives| && MatchesCompound(sel.alternatives[k], n);
    }
  }

  /** What a selector finds is always an element. */
  lemma SelectFindsElements(n: Node, sel: Selector)
    ensures forall i | 0 <= i < |Select(n, sel)| :: Select(n, sel)[i].Element?
  {
    if n.Element? {
      SelectInElements(n, n.children, sel);
    }
  }

  // ---------------------------------------------------------------- document order

  /** A node met in a walk of the document, with the element it is a child of. */
  datatype Visit = Visit(parent: Node, node: Node)

  /** The nodes of a forest whose parent is `parent`, and all their descendants, in pre-order. */
  function PreorderIn(parent: Node, ns: seq<Node>): seq<Visit>
    decreases ns
  {
    if ns == [] then []
    else
      [Visit(parent, ns[0])]
      + (if ns[0].Element? then PreorderIn(ns[0], ns[0].children) else [])
      + PreorderIn(parent, ns[1..])
  }

  /** The proper descendants of n in document order. */
  function Preorder(n: Node): seq<Visit> {
    if n.Element? then PreorderIn(n, n.children) else []
  }

  /** v is a child of `parent` in the forest, or lies below one of the forest's elements. */
  ghost predicate Below(parent: Node, ns: seq<Node>, v: Visit)
    decreases ns
  {
    || (v.parent == parent && v.node in ns)
    || exists i | 0 <= i < |ns| :: ns[i].Element? && Below(ns[i], ns[i].children, v)
  }

  /** The pre-order walk visits exactly the nodes below the forest, each with its parent. */
  lemma {:induction false} PreorderVisitsBelow(parent: Node, ns: seq<Node>, v: Visit)
    ensures v in PreorderIn(parent, ns) <==> Below(parent, ns, v)
    decreases ns
  {
    if ns != [] {
      var n := ns[0];
      var rest := ns[1..];
      if n.Element? {
        PreorderVisitsBelow(n, n.children, v);
      }
      PreorderVisitsBelow(parent, rest, v);
      assert v.node in ns <==> v.node == n || v.node in rest;
      if Below(parent, ns, v) && !(v.parent == parent && v.node in ns) {
        var i :| 0 <= i < |ns| && ns[i].Element? && Below(ns[i], ns[i].children, v);
        if i > 0 {
          assert rest[i - 1] == ns[i];
        }
      }
      if Below(parent, rest, v) && !(v.parent == parent && v.node in rest) {
        var i :| 0 <= i < |rest| && rest[i].Element? && Below(rest[i], rest[i].children, v);
        assert ns[i + 1] == rest[i];
      }
    }
  }

  /** What a query looks for: a selector's matches, or elements with a given `id`. */
  datatype Query = Selecting(sel: Selector) | HavingId(id: string)

  predicate Hits(q: Query, v: Visit) {
    match q
    case Selecting(sel) => Matches(sel, v.parent, v.node)
    case HavingId(id) => v.node.Element? && Attr(v.node, "id") == Some(id)
  }

  /** The nodes of a walk that a query hits, in walk order. */
  function Found(vs: seq<Visit>, q: Query): seq<Node> {
    if vs == [] then [] else (if Hits(q, vs[0]) then [vs[0].node] else []) + Found(vs[1..], q)
  }

  /** i is the first position of the walk that the query hits. */
  predicate FirstHit(vs: seq<Visit>, q: Query, i: int) {
    && 0 <= i < |vs| && Hits(q, vs[i])
    && forall j | 0 <= j < i :: !Hits(q, vs[j])
  }

  lemma {:induction false} FoundAppend(a: seq<Visit>, b: seq<Visit>, q: Query)
    ensures Found(a + b, q) == Found(a, q) + Found(b, q)
  {
    if a == [] {
      assert a + b == b;
    } else {
      var ab := a + b;
      assert ab[0] == a[0] && ab[1..] == a[1..] + b;
      FoundAppend(a[1..], b, q);
      calc {
        Found(ab, q);
        (if Hits(q, a[0]) then [a[0].node] else []) + Found(a[1..] + b, q);
        (if Hits(q, a[0]) then [a[0].node] else []) + (Found(a[1..], q) + Found(b, q));
      }
    }
  }

  /**
   * Found lists the hit nodes: it is empty iff the query hits nothing, and otherwise starts with
   * the node of the first hit.
   */
  lemma {:induction false} FoundFirst(vs: seq<Visit>, q: Query)
    ensures Found(vs, q) == [] <==> forall i | 0 <= i < |vs| :: !Hits(q, vs[i])
    ensures Found(vs, q) != [] ==> exists i :: FirstHit(vs, q, i) && vs[i].node == Found(vs, q)[0]
  {
    if vs != [] {
      FoundFirst(vs[1..], q);
      if !Hits(q, vs[0]) && Found(vs[1..], q) != [] {
        var i :| FirstHit(vs[1..], q, i) && vs[1..][i].node == Found(vs[1..], q)[0];
        assert FirstHit(vs, q, i + 1);
      } else if Hits(q, vs[0]) {
        assert FirstHit(vs, q, 0);
      } else {
        assert forall i | 1 <= i < |vs| :: vs[i] == vs[1..][i - 1];
      }
    }
  }

  /** A node is found iff some visit of the walk that the query hits is a visit of it. */
  lemma {:induction false} FoundMembers(vs: seq<Visit>, q: Query, x: Node)
    ensures x in Found(vs, q) <==> exists v | v in vs :: Hits(q, v) && v.node == x
  {
    if vs != [] {
      FoundMembers(vs[1..], q, x);
      assert forall v :: v in vs <==> v == vs[0] || v in vs[1..];
    }
  }

  /** SelectIn is the pre-order walk filtered by the selector. */
  lemma {:induction false} SelectInPreorder(parent: Node, ns: seq<Node>, sel: Selector)
    ensures SelectIn(parent, ns, sel) == Found(PreorderIn(parent, ns), Selecting(sel))
    decreases ns
  {
    if ns != [] {
      var n := ns[0];
      var q := Selecting(sel);
      var inner := if n.Element? then PreorderIn(n, n.children) else [];
      var rest := PreorderIn(parent, ns[1..]);
      if n.Element? {
        SelectInPreorder(n, n.children, sel);
      }
      SelectInPreorder(parent, ns[1..], sel);
      FoundAppend([Visit(parent, n)] + inner, rest, q);
      FoundAppend([Visit(parent, n)], inner, q);
      assert Found([Visit(parent, n)], q) == if Matches(sel, parent, n) then [n] else [] by {
        assert [Visit(parent, n)][1..] == [];
      }
    }
  }

  /**
   * `ElementRef::select` finds x iff x is a proper descendant of n that matches the selector
   * (with its own parent), and lists the matches in document order.
   */
  lemma SelectSpec(n: Node, sel: Selector, x: Node)
    ensures Select(n, sel) == Found(Preorder(n), Selecting(sel))
    ensures x in Select(n, sel) <==>
              n.Element? && exists v :: Below(n, n.children, v) && v.node == x && Matches(sel, v.parent, x)
  {
    if n.Element? {
      SelectInPreorder(n, n.children, sel);
      FoundMembers(Preorder(n), Selecting(sel), x);
      forall v {
        PreorderVisitsBelow(n, n.children, v);
      }
    }
  }

  /**
   * `e.select(sel).next()` is the first descendant in document order that matches, and is None
   * iff no descendant matches.
   */
  lemma SelectFirstSpec(n: Node, sel: Selector)
    ensures SelectFirst(n, sel).None? <==> forall i | 0 <= i < |Preorder(n)| :: !Matches(sel, Preorder(n)[i].parent, Preorder(n)[i].node)
    ensures SelectFirst(n, sel).Some? ==>
              exists i :: FirstHit(Preorder(n), Selecting(sel), i) && Preorder(n)[i].node == SelectFirst(n, sel).value
  {
    if n.Element? {
      SelectInPreorder(n, n.children, sel);
    }
    FoundFirst(Preorder(n), Selecting(sel));
  }

  /** SelectIdIn returns the first node of the pre-order walk that has the id. */
  lemma {:induction false} SelectIdInPreorder(parent: Node, ns: seq<Node>, id: string)
    ensures var found := Found(PreorderIn(parent, ns), HavingId(id));
            SelectIdIn(ns, id) == if found == [] then None else Some(found[0])
    decreases ns
  {
    if ns != [] {
      var n := ns[0];
      var q := HavingId(id);
      var inner := if n.Element? then PreorderIn(n, n.children) else [];
      var rest := PreorderIn(parent, ns[1..]);
      if n.Element? {
        SelectIdInPreorder(n, n.children, id);
      }
      SelectIdInPreorder(parent, ns[1..], id);
      FoundAppend([Visit(parent, n)] + inner, rest, q);
      FoundAppend([Visit(parent, n)], inner, q);
      assert Found([Visit(parent, n)], q) == if Hits(q, Visit(parent, n)) then [n] else [] by {
        assert [Visit(parent, n)][1..] == [];
      }
    }
  }

  /**
   * `select("#id").next()` is the first descendant element in document order whose `id` is id,
   * and is None iff no descendant has it.
   */
  lemma SelectIdSpec(n: Node, id: string)
    ensures SelectId(n, id).None? <==>
              forall i | 0 <= i < |Preorder(n)| :: !(Preorder(n)[i].node.Element? && Attr(Preorder(n)[i].node, "id") == Some(id))
    ensures SelectId(n, id).Some? ==>
              exists i :: FirstHit(Preorder(n), HavingId(id), i) && Preorder(n)[i].node == SelectId(n, id).value
  {
    if n.Element? {
      SelectIdInPreorder(n, n.children, id);
    }
    FoundFirst(Preorder(n), HavingId(id));
  }
}

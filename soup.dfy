/** An abstract stand-in for the BeautifulSoup tree the parsers search: text
    nodes and elements with a tag name, a class list, the other attributes and
    children. Only the three operations the parsers use are modelled:
    `find`/`find_all` over the descendants in document order, `get_text(strip=True)`
    and `contents`. */
module Soup {
  import opened Wrappers
  import opened Text

  datatype Node =
    | TextNode(s: string)
    | Elem(tag: string, classes: seq<string>, attrs: map<string, string>, children: seq<Node>)

  /** The keyword filters the parsers pass to `find` and `find_all`. */
  datatype Query =
    | ByTag(tag: string)                      // find("a")
    | ByClass(tag: string, cls: string)       // find("td", class_="field author")
    | ByAttr(tag: string, attr: string)       // find("span", title=True)
    | ByIdPrefix(tag: string, prefix: string) // find("tr", id=re.compile("^review_"))

  /** `class_=c` matches one class of the element, or the whole class attribute
      written out with single spaces (so "field author" matches
      `<td class="field author">`). */
  predicate ClassMatches(classes: seq<string>, c: string) {
    c in classes || JoinSpace(classes) == c
  }

  predicate Matches(n: Node, q: Query) {
    && n.Elem?
    && n.tag == q.tag
    && match q
       case ByTag(_) => true
       case ByClass(_, c) => ClassMatches(n.classes, c)
       case ByAttr(_, a) => a in n.attrs
       case ByIdPrefix(_, p) => "id" in n.attrs && p <= n.attrs["id"]
  }

  /** Every node below the forest `ns`, in document (pre-)order: bs4's
      `.descendants`, taken over each node of `ns` and the node itself. */
  function Descendants(ns: seq<Node>): seq<Node>
    decreases ns
  {
    if ns == [] then []
    else
      [ns[0]]
      + (match ns[0] case TextNode(_) => [] case Elem(_, _, _, kids) => Descendants(kids))
      + Descendants(ns[1..])
  }

  function Filter(ds: seq<Node>, q: Query): (r: seq<Node>)
    ensures |r| <= |ds|
    ensures forall i :: 0 <= i < |r| ==> Matches(r[i], q)
    ensures forall n :: n in r <==> n in ds && Matches(n, q)
  {
    if ds == [] then []
    else (if Matches(ds[0], q) then [ds[0]] else []) + Filter(ds[1..], q)
  }

  /** `tag.find_all(...)`: the matching descendants of `tag`, in document order. */
  function FindAll(tag: Node, q: Query): (r: seq<Node>)
    ensures forall i :: 0 <= i < |r| ==> Matches(r[i], q)
    ensures tag.TextNode? ==> r == []
  {
    match tag
    case TextNode(_) => []
    case Elem(_, _, _, kids) => Filter(Descendants(kids), q)
  }

  /** `tag.find(...)`: the first matching descendant of `tag`, or None. */
  function Find(tag: Node, q: Query): (r: Option<Node>)
    ensures r.None? <==> FindAll(tag, q) == []
    ensures r.Some? ==> Matches(r.value, q) && r.value == FindAll(tag, q)[0]
  {
    var all := FindAll(tag, q);
    if all == [] then None else Some(all[0])
  }

  /** The strings `get_text(strip=True)` joins: each text node stripped, in
      document order (empty pieces add nothing to the join). */
  function JoinStripped(ds: seq<Node>): (r: string)
    ensures Stripped(r)
  {
    if ds == [] then ""
    else
      var head := if ds[0].TextNode? then Strip(ds[0].s) else "";
      StrippedConcat(head, JoinStripped(ds[1..]));
      head + JoinStripped(ds[1..])
  }

  /** `tag.get_text(strip=True)`: never padded with whitespace. */
  function GetText(tag: Node): (r: string)
    ensures Stripped(r)
  {
    match tag
    case TextNode(s) => Strip(s)
    case Elem(_, _, _, kids) => JoinStripped(Descendants(kids))
  }

  // ---- lemmas ---------------------------------------------------------------

  lemma {:induction false} DescendantsAppend(a: seq<Node>, b: seq<Node>)
    ensures Descendants(a + b) == Descendants(a) + Descendants(b)
    decreases a
  {
    if a == [] {
      assert a + b == b;
    } else {
      assert (a + b)[0] == a[0];
      assert (a + b)[1..] == a[1..] + b;
      DescendantsAppend(a[1..], b);
    }
  }

  lemma {:induction false} FilterAppend(a: seq<Node>, b: seq<Node>, q: Query)
    ensures Filter(a + b, q) == Filter(a, q) + Filter(b, q)
  {
    if a == [] {
      assert a + b == b;
    } else {
      assert (a + b)[0] == a[0];
      assert (a + b)[1..] == a[1..] + b;
      FilterAppend(a[1..], b, q);
    }
  }

  /** `find_all` keeps document order across siblings: the matches below the
      children `a` all come before those below the children `b`. */
  lemma FindAllSiblings(tag: Node, a: seq<Node>, b: seq<Node>, q: Query)
    requires tag.Elem? && tag.children == a + b
    ensures FindAll(tag, q) == Filter(Descendants(a), q) + Filter(Descendants(b), q)
  {
    DescendantsAppend(a, b);
    FilterAppend(Descendants(a), Descendants(b), q);
  }
}

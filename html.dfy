/**
 * The output tree that the converter's hooks build and that its cleanup
 * passes edit in place: elements with a name, attributes and children,
 * where a child is either a text node or another element. Entity
 * references such as `&nbsp;` are kept as the literal text they are
 * written as; nothing here parses or serialises markup.
 */
module Html {
  import opened Wrappers

  datatype Elem = Elem(name: string, attrs: map<string, string>, children: seq<Inline>)

  datatype Inline = Text(text: string) | Child(elem: Elem)

  /** `e[key]`: the attribute's value, or None when the element has no such attribute. */
  function Attr(e: Elem, key: string): Option<string>
  {
    if key in e.attrs then Some(e.attrs[key]) else None
  }

  /** An element with no attributes. */
  function Plain(name: string, children: seq<Inline>): (e: Elem)
    ensures e.name == name && e.children == children
    ensures forall key :: Attr(e, key) == None
  {
    Elem(name, map[], children)
  }

  /** Nokogiri's `content`: the text of every descendant text node, in document order. */
  function Content(e: Elem): string
    decreases e
  {
    ContentAll(e.children)
  }

  function ContentAll(xs: seq<Inline>): string
    decreases xs
  {
    if xs == [] then "" else InlineContent(xs[0]) + ContentAll(xs[1..])
  }

  function InlineContent(x: Inline): string
    decreases x
  {
    match x
    case Text(t) => t
    case Child(e) => Content(e)
  }

  lemma ContentAllCons(x: Inline, xs: seq<Inline>)
    ensures ContentAll([x] + xs) == InlineContent(x) + ContentAll(xs)
  {
    assert ([x] + xs)[1..] == xs;
  }

  lemma ContentAllSingle(x: Inline)
    ensures ContentAll([x]) == InlineContent(x)
  {
    ContentAllCons(x, []);
    assert [x] + [] == [x];
  }

  /** The text of a sequence of children is the text of its parts, one after the other. */
  lemma {:induction false} ContentAllAppend(xs: seq<Inline>, ys: seq<Inline>)
    ensures ContentAll(xs + ys) == ContentAll(xs) + ContentAll(ys)
    decreases xs
  {
    if xs == [] {
      assert xs + ys == ys;
    } else {
      assert (xs + ys)[1..] == xs[1..] + ys;
      ContentAllAppend(xs[1..], ys);
    }
  }

  /** The descendant elements of a list of children in document (pre-)order, as an XPath descendant search visits them. */
  function Descendants(xs: seq<Inline>): seq<Elem>
    decreases xs
  {
    if xs == [] then [] else InlineDescendants(xs[0]) + Descendants(xs[1..])
  }

  function InlineDescendants(x: Inline): seq<Elem>
    decreases x
  {
    match x
    case Text(_) => []
    case Child(e) => [e] + Descendants(e.children)
  }

  lemma {:induction false} DescendantsAppend(xs: seq<Inline>, ys: seq<Inline>)
    ensures Descendants(xs + ys) == Descendants(xs) + Descendants(ys)
    decreases xs
  {
    if xs == [] {
      assert xs + ys == ys;
    } else {
      assert (xs + ys)[1..] == xs[1..] + ys;
      DescendantsAppend(xs[1..], ys);
    }
  }

  /** The first element of `ds` called `name`. */
  function FindNamed(ds: seq<Elem>, name: string): (r: Option<Elem>)
    ensures r.Some? ==> r.value.name == name && r.value in ds
    ensures r.None? <==> forall d :: d in ds ==> d.name != name
    ensures r.Some? ==> exists i :: 0 <= i < |ds| && ds[i] == r.value && forall j :: 0 <= j < i ==> ds[j].name != name
  {
    if ds == [] then None
    else if ds[0].name == name then Some(ds[0])
    else FindNamed(ds[1..], name)
  }

  /** `t.at(".//name")`: the first descendant element called `name`, in document order. */
  function At(xs: seq<Inline>, name: string): Option<Elem>
  {
    FindNamed(Descendants(xs), name)
  }

  lemma {:induction false} FindNamedAppend(ds: seq<Elem>, es: seq<Elem>, name: string)
    ensures FindNamed(ds + es, name) == if FindNamed(ds, name).Some? then FindNamed(ds, name) else FindNamed(es, name)
    decreases ds
  {
    if ds == [] {
      assert ds + es == es;
    } else {
      assert (ds + es)[1..] == ds[1..] + es;
      FindNamedAppend(ds[1..], es, name);
    }
  }

  /** Searching appended children finds a match in the old children first. */
  lemma AtAppend(xs: seq<Inline>, ys: seq<Inline>, name: string)
    ensures At(xs + ys, name) == if At(xs, name).Some? then At(xs, name) else At(ys, name)
  {
    DescendantsAppend(xs, ys);
    FindNamedAppend(Descendants(xs), Descendants(ys), name);
  }
}

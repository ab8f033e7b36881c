/** The already-parsed XML descriptor. Parsing the text itself (ElementTree's
    `fromstring`) is not modelled: a descriptor arrives either as a
    well-formed element tree or as a parse failure with its message. */
module Xml {
  import opened Wrappers

  /** An element: its tag, its attributes, the text directly inside it
      (`None` when there is none, as ElementTree reports it) and its child
      elements in document order. */
  datatype Element = Element(
    tag: string,
    attributes: map<string, string>,
    text: Option<string>,
    children: seq<Element>)

  datatype XmlInput = Wellformed(root: Element) | Malformed(reason: string)

  /** Index of the first element with the given tag. */
  function FirstWithTag(es: seq<Element>, tag: string): (r: Option<nat>)
    ensures r.Some? ==> r.value < |es| && es[r.value].tag == tag
    ensures r.Some? ==> forall j :: 0 <= j < r.value ==> es[j].tag != tag
    ensures r.None? ==> forall j :: 0 <= j < |es| ==> es[j].tag != tag
  {
    if es == [] then None
    else if es[0].tag == tag then Some(0)
    else
      match FirstWithTag(es[1..], tag)
      case None => None
      case Some(i) => Some(i + 1)
  }

  /** `e.find(tag)`: the first direct child with that tag, if any. */
  function Find(e: Element, tag: string): (r: Option<Element>)
    ensures r.None? <==> forall j :: 0 <= j < |e.children| ==> e.children[j].tag != tag
    ensures r.Some? ==> r.value.tag == tag
    ensures r.Some? ==> exists i :: 0 <= i < |e.children| && e.children[i] == r.value
                                    && forall j :: 0 <= j < i ==> e.children[j].tag != tag
  {
    match FirstWithTag(e.children, tag)
    case None => None
    case Some(i) => Some(e.children[i])
  }

  /** `e.findall(tag)`: the direct children with that tag, in document order. */
  function FindAll(e: Element, tag: string): (r: seq<Element>)
    ensures forall x :: x in r <==> x in e.children && x.tag == tag
  {
    WithTag(e.children, tag)
  }

  function WithTag(es: seq<Element>, tag: string): (r: seq<Element>)
    ensures forall x :: x in r <==> x in es && x.tag == tag
  {
    if es == [] then []
    else (if es[0].tag == tag then [es[0]] else []) + WithTag(es[1..], tag)
  }

  /** Selecting by tag commutes with concatenation, so the selected children
      keep their document order. */
  lemma {:induction false} WithTagAppend(a: seq<Element>, b: seq<Element>, tag: string)
    ensures WithTag(a + b, tag) == WithTag(a, tag) + WithTag(b, tag)
  {
    if a == [] {
      assert a + b == b;
    } else {
      assert (a + b)[0] == a[0];
      assert (a + b)[1..] == a[1..] + b;
      WithTagAppend(a[1..], b, tag);
    }
  }

  /** `e.get(name)`: the attribute's value, if the element has it. */
  function Attr(e: Element, name: string): (r: Option<string>)
    ensures r.Some? <==> name in e.attributes
    ensures r.Some? ==> e.attributes[name] == r.value
  {
    if name in e.attributes then Some(e.attributes[name]) else None
  }

  /** The text of the first child `tag`, kept only when that child exists
      and its text is non-empty (Python's `elem is not None and elem.text`). */
  function NonEmptyText(root: Element, tag: string): (r: Option<string>)
    ensures r.Some? ==> r.value != ""
    ensures r.Some? <==> Find(root, tag).Some? && Find(root, tag).value.text.Some?
                         && Find(root, tag).value.text.value != ""
    ensures r.Some? ==> Find(root, tag).value.text == r
  {
    match Find(root, tag)
    case None => None
    case Some(elem) =>
      match elem.text
      case None => None
      case Some(t) => if t != "" then Some(t) else None
  }
}

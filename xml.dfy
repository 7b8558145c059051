/**
 * The part of the kXML document tree the parsers look at: elements with a name, a namespace
 * (the empty string when there is none), attributes and children; every non-element child
 * (text, whitespace, CDATA) is a text node.
 */
module Xml {
  import opened Wrappers
  import opened Seqs
  import opened Text

  datatype Attribute = Attribute(name: string, value: string)

  datatype Element = Element(name: string, namespace: string, attributes: seq<Attribute>, children: seq<Node>)

  datatype Node = ElementNode(element: Element) | TextNode(text: string)

  /** `e.getAttributeValue(null, name)`: the value of the first attribute called `name`, in any namespace. */
  function AttributeValue(e: Element, name: string): (r: Option<string>)
    ensures r.None? <==> forall i :: 0 <= i < |e.attributes| ==> e.attributes[i].name != name
    ensures r.Some? ==> exists i :: 0 <= i < |e.attributes| && e.attributes[i] == Attribute(name, r.value)
  {
    match FirstMatch(e.attributes, (a: Attribute) => a.name == name)
    case None => None
    case Some(a) => Some(a.value)
  }

  /** The text of the run of text nodes at the start of `cs`. */
  function LeadingText(cs: seq<Node>): string {
    if cs != [] && cs[0].TextNode? then cs[0].text + LeadingText(cs[1..]) else ""
  }

  /**
   * Stands for JavaRosa's `XFormParser.getXMLText(e, true)`: null when the element has no
   * children or its first child is not text, otherwise the trimmed text of its leading text nodes.
   */
  function ElementText(e: Element): Option<string> {
    if e.children == [] || e.children[0].ElementNode? then None else Some(Trim(LeadingText(e.children)))
  }

  /** The first element among `cs`, if any. */
  function FirstElement(cs: seq<Node>): (r: Option<Element>)
    ensures r.None? <==> forall i :: 0 <= i < |cs| ==> cs[i].TextNode?
    ensures r.Some? ==> exists i :: 0 <= i < |cs| && cs[i] == ElementNode(r.value) && forall j :: 0 <= j < i ==> cs[j].TextNode?
  {
    match FirstIndex(cs, (n: Node) => n.ElementNode?)
    case None => None
    case Some(i) => Some(cs[i].element)
  }

  /** The elements among `cs` that satisfy `p`, in document order. */
  function ElementsWhere(cs: seq<Node>, p: Element -> bool): (r: seq<Element>)
    ensures |r| <= |cs|
    ensures forall k :: 0 <= k < |r| ==> p(r[k])
    decreases |cs|
  {
    if cs == [] then []
    else (if cs[0].ElementNode? && p(cs[0].element) then [cs[0].element] else []) + ElementsWhere(cs[1..], p)
  }

  predicate IsEntry(n: Node, isEntry: Element -> bool) {
    n.ElementNode? && isEntry(n.element)
  }

  /**
   * The values `conv` gives the elements among `cs` that satisfy `isEntry`, in document
   * order; the first entry `conv` rejects fails the whole collection with `err`.
   */
  function Collect<T, E>(cs: seq<Node>, isEntry: Element -> bool, conv: Element -> Option<T>, err: E): Result<seq<T>, E>
    decreases |cs|
  {
    if cs == [] then Success([])
    else if !IsEntry(cs[0], isEntry) then Collect(cs[1..], isEntry, conv, err)
    else match conv(cs[0].element)
      case None => Failure(err)
      case Some(v) => Prepend(v, Collect(cs[1..], isEntry, conv, err))
  }

  /** One step of a loop that collects from position `i` on. */
  lemma {:induction false} CollectStep<T, E>(cs: seq<Node>, i: nat, isEntry: Element -> bool, conv: Element -> Option<T>, err: E)
    requires i < |cs|
    ensures Collect(cs[i..], isEntry, conv, err)
         == if !IsEntry(cs[i], isEntry) then Collect(cs[i + 1..], isEntry, conv, err)
            else match conv(cs[i].element)
              case None => Failure(err)
              case Some(v) => Prepend(v, Collect(cs[i + 1..], isEntry, conv, err))
  {
    assert cs[i..][1..] == cs[i + 1..];
  }

  predicate AllAccepted<T>(es: seq<Element>, conv: Element -> Option<T>) {
    forall k :: 0 <= k < |es| ==> conv(es[k]).Some?
  }

  /** Collecting fails exactly when `conv` rejects one of the entries. */
  lemma {:induction false} CollectSucceedsIff<T, E>(cs: seq<Node>, isEntry: Element -> bool, conv: Element -> Option<T>, err: E)
    ensures Collect(cs, isEntry, conv, err).Success? <==> AllAccepted(ElementsWhere(cs, isEntry), conv)
  {
    if cs != [] {
      CollectSucceedsIff(cs[1..], isEntry, conv, err);
      var es := ElementsWhere(cs, isEntry);
      var rest := ElementsWhere(cs[1..], isEntry);
      if IsEntry(cs[0], isEntry) {
        assert es == [cs[0].element] + rest;
        if AllAccepted(es, conv) {
          assert conv(es[0]).Some?;
          forall k | 0 <= k < |rest| ensures conv(rest[k]).Some? {
            assert rest[k] == es[k + 1];
          }
        }
        if conv(cs[0].element).Some? && AllAccepted(rest, conv) {
          forall k | 0 <= k < |es| ensures conv(es[k]).Some? {
            if k > 0 {
              assert es[k] == rest[k - 1];
            }
          }
        }
      } else {
        assert es == rest;
      }
    }
  }

  /** A successful collection holds one value per entry, in document order. */
  lemma {:induction false} CollectInOrder<T, E>(cs: seq<Node>, isEntry: Element -> bool, conv: Element -> Option<T>, err: E)
    requires Collect(cs, isEntry, conv, err).Success?
    ensures var es := ElementsWhere(cs, isEntry); var vs := Collect(cs, isEntry, conv, err).value;
      |vs| == |es| && forall k :: 0 <= k < |es| ==> conv(es[k]) == Some(vs[k])
  {
    if cs != [] {
      CollectInOrder(cs[1..], isEntry, conv, err);
      var es := ElementsWhere(cs, isEntry);
      var rest := ElementsWhere(cs[1..], isEntry);
      if IsEntry(cs[0], isEntry) {
        assert es == [cs[0].element] + rest;
        var vs := Collect(cs, isEntry, conv, err).value;
        var tail := Collect(cs[1..], isEntry, conv, err).value;
        assert vs == [vs[0]] + tail;
        assert forall k :: 1 <= k < |es| ==> es[k] == rest[k - 1] && vs[k] == tail[k - 1];
      } else {
        assert es == rest;
      }
    }
  }
}

/** The parsed XML document the validator works on, with the two ElementTree
    queries it uses: `root.iter(tag)` and `root.find('.//' + tag)`. */
module Xml {
  import opened Wrappers

  /** An element: its tag, its text (`None` when the element has no text
      node), and its children in document order. */
  datatype Element = Element(tag: string, text: Option<string>, children: seq<Element>)

  /** What the parser hands back for one file: the root element, or the
      failure that `ET.parse` raises on malformed or unreadable input. */
  datatype Document = Parsed(root: Element) | Unparsable

  /** `e.iter(t)`: every element of the subtree rooted at `e` (the root
      included) whose tag is `t`, depth-first in document order. */
  function IterTag(e: Element, t: string): seq<Element>
    decreases e
  {
    (if e.tag == t then [e] else []) + IterTagAll(e.children, t)
  }

  function IterTagAll(cs: seq<Element>, t: string): seq<Element>
    decreases cs
  {
    if cs == [] then [] else IterTag(cs[0], t) + IterTagAll(cs[1..], t)
  }

  /** `e.find('.//' + t)`: ElementPath walks `e.iter(t)` and skips the
      element it started from, so the answer is the first element of that
      walk other than `e` itself. */
  function FindBelow(e: Element, t: string): Option<Element> {
    var walk := IterTag(e, t);
    var skip := if e.tag == t then 1 else 0;
    if |walk| > skip then Some(walk[skip]) else None
  }

  /** Some element of the subtree rooted at `e` (the root included) has tag `t`. */
  predicate Contains(e: Element, t: string)
    decreases e
  {
    e.tag == t || ContainsAny(e.children, t)
  }

  /** Some tree of the forest `cs` contains an element with tag `t`. */
  predicate ContainsAny(cs: seq<Element>, t: string)
    decreases cs
  {
    cs != [] && (Contains(cs[0], t) || ContainsAny(cs[1..], t))
  }

  /** The walk of `e.iter(t)` yields only elements tagged `t`, and yields one
      exactly when the subtree holds such an element. */
  lemma {:induction false} IterTagSpec(e: Element, t: string)
    ensures forall x | x in IterTag(e, t) :: x.tag == t
    ensures |IterTag(e, t)| > 0 <==> Contains(e, t)
    decreases e
  {
    IterTagAllSpec(e.children, t);
  }

  lemma {:induction false} IterTagAllSpec(cs: seq<Element>, t: string)
    ensures forall x | x in IterTagAll(cs, t) :: x.tag == t
    ensures |IterTagAll(cs, t)| > 0 <==> ContainsAny(cs, t)
    decreases cs
  {
    if cs != [] {
      IterTagSpec(cs[0], t);
      IterTagAllSpec(cs[1..], t);
    }
  }

  /** `.//t` searches strictly below the root: it finds an element exactly
      when some child's subtree holds one, whatever the root's own tag, and
      what it finds carries tag `t`. */
  lemma FindBelowSpec(e: Element, t: string)
    ensures FindBelow(e, t).Some? <==> ContainsAny(e.children, t)
    ensures FindBelow(e, t).Some? ==> FindBelow(e, t).value.tag == t
  {
    IterTagAllSpec(e.children, t);
    var walk := IterTag(e, t);
    if e.tag == t {
      assert walk == [e] + IterTagAll(e.children, t);
    } else {
      assert walk == IterTagAll(e.children, t);
    }
  }
}

/**
 * Parsed sitemap documents and the ElementTree queries both generations run
 * on them. A document follows the Sitemap protocol 0.9 (sitemaps.org,
 * sections "XML tag definitions" and "Using Sitemap index files"): a
 * `urlset` of `url` entries or a `sitemapindex` of `sitemap` entries, each
 * carrying a `loc`. Parsing itself is not modelled: a fetched body is either
 * empty, not well-formed, or an element tree.
 */
module SitemapXml {
  import opened Wrappers
  import opened Seqs

  /** The namespace of the Sitemap protocol 0.9. */
  const SitemapNs := "http://www.sitemaps.org/schemas/sitemap/0.9"

  /** An ElementTree tag: `{namespace}local`, or a bare `local` name. */
  datatype QName = QName(ns: Option<string>, local: string)

  /** An element: its tag, its `.text` (`None` when absent) and its children in order. */
  datatype Element = Element(tag: QName, text: Option<string>, children: seq<Element>)

  /**
   * A fetched sitemap body: empty (a falsy string in Python), not
   * well-formed (`ET.fromstring` raises), or parsed to its root element.
   */
  datatype Doc = EmptyBody | Malformed | Parsed(root: Element)

  /** A tag in the sitemap namespace. */
  function Ns(local: string): QName {
    QName(Some(SitemapNs), local)
  }

  /** A tag without namespace, as `root.iter('loc')` matches it. */
  function Bare(local: string): QName {
    QName(None, local)
  }

  /** The element and all its descendants in document order: `e.iter()`. */
  function Preorder(e: Element): (r: seq<Element>)
    ensures |r| > 0 && r[0] == e
    decreases e, 1
  {
    [e] + PreorderAll(e.children)
  }

  /** The document-order walks of a list of sibling subtrees, one after the other. */
  function PreorderAll(es: seq<Element>): seq<Element>
    decreases es, 0
  {
    if |es| == 0 then [] else Preorder(es[0]) + PreorderAll(es[1..])
  }

  /** The strict descendants of `root` in document order: what `.//` ranges over. */
  function Descendants(root: Element): seq<Element> {
    PreorderAll(root.children)
  }

  /** The elements of `es` with tag `t`, in order. */
  function Tagged(es: seq<Element>, t: QName): (r: seq<Element>)
    ensures forall i :: 0 <= i < |r| ==> r[i].tag == t
  {
    Filter(es, (e: Element) => e.tag == t)
  }

  /** For each element of `es` in turn, its children tagged `t`: the step `…/t`. */
  function ChildrenTagged(es: seq<Element>, t: QName): (r: seq<Element>)
    ensures forall i :: 0 <= i < |r| ==> r[i].tag == t
  {
    if |es| == 0 then []
    else
      var head := Tagged(es[0].children, t);
      var rest := ChildrenTagged(es[1..], t);
      assert forall i :: |head| <= i < |head + rest| ==> (head + rest)[i] == rest[i - |head|];
      head + rest
  }

  /** `root.findall('.//parent/child')`. */
  function FindAll(root: Element, parent: QName, child: QName): seq<Element> {
    ChildrenTagged(Tagged(Descendants(root), parent), child)
  }

  /** `[e.text for e in es]` */
  function Texts(es: seq<Element>): (r: seq<Option<string>>)
    ensures |r| == |es|
    ensures forall i :: 0 <= i < |es| ==> r[i] == es[i].text
  {
    seq(|es|, i requires 0 <= i < |es| => es[i].text)
  }

  /** A truthy `.text`: present and non-empty. */
  predicate HasText(e: Element) {
    e.text.Some? && |e.text.value| > 0
  }

  /** `[e.text for e in es if e.text]` */
  function NonEmptyTexts(es: seq<Element>): (r: seq<string>)
    ensures forall i :: 0 <= i < |r| ==> |r[i]| > 0
  {
    if |es| == 0 then []
    else (if HasText(es[0]) then [es[0].text.value] else []) + NonEmptyTexts(es[1..])
  }

  lemma {:induction false} NonEmptyTextsMembership(es: seq<Element>, u: string)
    ensures u in NonEmptyTexts(es) <==> exists i :: 0 <= i < |es| && HasText(es[i]) && es[i].text.value == u
  {
    if |es| > 0 {
      NonEmptyTextsMembership(es[1..], u);
      if exists i :: 0 <= i < |es[1..]| && HasText(es[1..][i]) && es[1..][i].text.value == u {
        var i :| 0 <= i < |es[1..]| && HasText(es[1..][i]) && es[1..][i].text.value == u;
        assert es[i + 1] == es[1..][i];
      }
      forall i | 1 <= i < |es| && HasText(es[i]) && es[i].text.value == u
        ensures u in NonEmptyTexts(es[1..])
      {
        assert es[1..][i - 1] == es[i];
      }
    }
  }

  /** `e.find(t)`: the first child tagged `t`. */
  function FirstChild(e: Element, t: QName): (r: Option<Element>)
    ensures r.Some? <==> |Tagged(e.children, t)| > 0
    ensures r.Some? ==> r.value == Tagged(e.children, t)[0]
  {
    var c := Tagged(e.children, t);
    if |c| > 0 then Some(c[0]) else None
  }

  /** Every element reached through `ChildrenTagged` is a child of one of `es`. */
  lemma {:induction false} ChildrenTaggedMembership(es: seq<Element>, t: QName, x: Element)
    ensures x in ChildrenTagged(es, t) <==> x.tag == t && exists i :: 0 <= i < |es| && x in es[i].children
  {
    if |es| > 0 {
      ChildrenTaggedMembership(es[1..], t, x);
      FilterMembership(es[0].children, (e: Element) => e.tag == t, x);
      if exists i :: 1 <= i < |es| && x in es[i].children {
        var i :| 1 <= i < |es| && x in es[i].children;
        assert es[1..][i - 1] == es[i];
      }
      if exists i :: 0 <= i < |es[1..]| && x in es[1..][i].children {
        var i :| 0 <= i < |es[1..]| && x in es[1..][i].children;
        assert es[i + 1] == es[1..][i];
      }
    }
  }
}

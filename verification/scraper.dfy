/**
 * The modular generation's sitemap discovery and URL classification
 * (src/scraper.py): probing candidate sitemap paths, reading a sitemap or
 * sitemap index, expanding an index one level, and sorting URLs into
 * case-study, pricing and government buckets. HTTP is an oracle `get`
 * from a URL to its outcome.
 */
module Scraper {
  import opened Wrappers
  import opened Strings
  import opened Seqs
  import opened SitemapXml

  // ------------------------------------------------------------ scrape_site

  /** The longest page text `scrape_site` keeps. */
  const MaxPageText := 30000

  /**
   * `scrape_site(url)` given the browser's extracted text, or `None` when
   * loading or extraction raised: the text cut to `MaxPageText` characters,
   * or "" on failure.
   */
  function ScrapeSite(extracted: Option<string>): (r: string)
    ensures |r| <= MaxPageText
    ensures extracted.None? ==> r == ""
    ensures extracted.Some? ==> r <= extracted.value
    ensures extracted.Some? && |extracted.value| <= MaxPageText ==> r == extracted.value
  {
    match extracted
    case Some(t) => Take(t, MaxPageText)
    case None => ""
  }

  // ---------------------------------------------------------- fetch_sitemap

  /** What one GET yields: no usable response (an exception), or a status and a body. */
  datatype Http = Unreachable | Response(status: int, body: Doc)

  predicate IsOk(h: Http) {
    h.Response? && h.status == 200
  }

  /** `https://` is put in front of a domain not starting with "http", then trailing slashes go. */
  function NormaliseDomain(domain: string): (r: string)
    ensures StartsWith(r, "http")
    ensures |r| > 0 ==> r[|r| - 1] != '/'
    ensures StartsWith(domain, "http") ==> r <= domain
    ensures !StartsWith(domain, "http") ==> r <= "https://" + domain
    ensures var d := if StartsWith(domain, "http") then domain else "https://" + domain;
            forall i :: |r| <= i < |d| ==> d[i] == '/'
  {
    var d := if StartsWith(domain, "http") then domain else "https://" + domain;
    var r := RStripChar(d, '/');
    RStripCharKeepsPrefix(d, '/', "http");
    r
  }

  /** The candidate paths, in the order they are tried. */
  const SitemapPaths: seq<string> :=
    ["/sitemap.xml", "/sitemap_index.xml", "/sitemap-index.xml", "/wp-sitemap.xml", "/page-sitemap.xml"]

  /** `[f"{base}{path}" for path in paths]` */
  function Candidates(base: string, paths: seq<string>): (r: seq<string>)
    ensures |r| == |paths|
    ensures forall i :: 0 <= i < |paths| ==> r[i] == base + paths[i]
  {
    seq(|paths|, i requires 0 <= i < |paths| => base + paths[i])
  }

  /** The position of the first URL answered with status 200. */
  function FirstOk(urls: seq<string>, get: string -> Http): (r: Option<nat>)
    ensures r.Some? ==> r.value < |urls| && IsOk(get(urls[r.value]))
    ensures r.Some? ==> forall j :: 0 <= j < r.value ==> !IsOk(get(urls[j]))
    ensures r.None? ==> forall j :: 0 <= j < |urls| ==> !IsOk(get(urls[j]))
  {
    if |urls| == 0 then None
    else if IsOk(get(urls[0])) then Some(0)
    else
      match FirstOk(urls[1..], get)
      case None => None
      case Some(k) => Some(k + 1)
  }

  /** The first candidate's body answered with 200, if any, and the normalised base. */
  function ProbeSitemap(base: string, paths: seq<string>, get: string -> Http): (r: (Option<Doc>, string))
    ensures r.1 == base
  {
    var cands := Candidates(base, paths);
    match FirstOk(cands, get)
    case Some(i) => (Some(get(cands[i]).body), base)
    case None => (None, base)
  }

  /** `fetch_sitemap(domain)` */
  function FetchSitemap(domain: string, get: string -> Http): (r: (Option<Doc>, string)) {
    ProbeSitemap(NormaliseDomain(domain), SitemapPaths, get)
  }

  /**
   * The body returned is that of the first candidate, in the fixed order,
   * that answered 200; no body at all means none did. The base domain is
   * returned either way.
   */
  lemma FetchSitemapFirstOk(domain: string, get: string -> Http)
    ensures var base := NormaliseDomain(domain);
            var r := FetchSitemap(domain, get);
            && r.1 == base
            && (r.0.None? <==> forall j :: 0 <= j < |SitemapPaths| ==> !IsOk(get(base + SitemapPaths[j])))
            && (r.0.Some? ==>
                  exists i :: (0 <= i < |SitemapPaths|
                    && IsOk(get(base + SitemapPaths[i]))
                    && r.0.value == get(base + SitemapPaths[i]).body
                    && forall j :: 0 <= j < i ==> !IsOk(get(base + SitemapPaths[j]))))
  {
    var base := NormaliseDomain(domain);
    var cands := Candidates(base, SitemapPaths);
    match FirstOk(cands, get)
    case Some(i) =>
      assert cands[i] == base + SitemapPaths[i];
    case None =>
  }

  // ------------------------------------------------------ parse_sitemap_urls

  /** The `(urls, is_index)` pair of `parse_sitemap_urls`; index entries may lack text. */
  datatype SitemapList = SitemapList(urls: seq<Option<string>>, isIndex: bool)

  /** `[Some(u) for u in us]` */
  function Somes(us: seq<string>): (r: seq<Option<string>>)
    ensures |r| == |us|
    ensures forall i :: 0 <= i < |us| ==> r[i] == Some(us[i])
  {
    seq(|us|, i requires 0 <= i < |us| => Some(us[i]))
  }

  /** The `loc` children of index entries: `root.findall('.//ns:sitemap/ns:loc')`. */
  function IndexLocs(root: Element): seq<Element> {
    FindAll(root, Ns("sitemap"), Ns("loc"))
  }

  /** The `loc` children of page entries: `root.findall('.//ns:url/ns:loc')`. */
  function PageLocs(root: Element): seq<Element> {
    FindAll(root, Ns("url"), Ns("loc"))
  }

  /** Every un-namespaced `loc` element, the root included: `root.iter('loc')`. */
  function BareLocs(root: Element): seq<Element> {
    Tagged(Preorder(root), Bare("loc"))
  }

  /**
   * `parse_sitemap_urls(content)`: the index entries' texts when there are
   * any; else the non-empty page-entry texts; else the non-empty texts of
   * un-namespaced `loc` elements. A body that does not parse gives nothing.
   */
  function ParseSitemapUrls(doc: Doc): (r: SitemapList)
    ensures !r.isIndex ==> forall i :: 0 <= i < |r.urls| ==> r.urls[i].Some? && |r.urls[i].value| > 0
    ensures r.isIndex ==> |r.urls| > 0
    ensures !doc.Parsed? ==> r == SitemapList([], false)
  {
    match doc
    case Parsed(root) =>
      var sitemaps := IndexLocs(root);
      if |sitemaps| > 0 then SitemapList(Texts(sitemaps), true)
      else
        var pages := NonEmptyTexts(PageLocs(root));
        if |pages| > 0 then SitemapList(Somes(pages), false)
        else SitemapList(Somes(NonEmptyTexts(BareLocs(root))), false)
    case _ => SitemapList([], false)
  }

  lemma {:induction false} PreorderAllMembership(es: seq<Element>, x: Element)
    ensures x in PreorderAll(es) <==> exists j :: 0 <= j < |es| && x in Preorder(es[j])
    decreases es
  {
    if |es| > 0 {
      PreorderAllMembership(es[1..], x);
      if exists j :: 1 <= j < |es| && x in Preorder(es[j]) {
        var j :| 1 <= j < |es| && x in Preorder(es[j]);
        assert es[1..][j - 1] == es[j];
      }
      if exists j :: 0 <= j < |es[1..]| && x in Preorder(es[1..][j]) {
        var j :| 0 <= j < |es[1..]| && x in Preorder(es[1..][j]);
        assert es[j + 1] == es[1..][j];
      }
    }
  }

  /** A child of an element of the walk is itself on the walk. */
  lemma {:induction false} ChildInPreorder(root: Element, x: Element, c: Element)
    requires x in Preorder(root) && c in x.children
    ensures c in Preorder(root)
    decreases root
  {
    if x == root {
      var j :| 0 <= j < |root.children| && root.children[j] == c;
      assert c == Preorder(c)[0];
      PreorderAllMembership(root.children, c);
    } else {
      PreorderAllMembership(root.children, x);
      var j :| 0 <= j < |root.children| && x in Preorder(root.children[j]);
      ChildInPreorder(root.children[j], x, c);
      PreorderAllMembership(root.children, c);
    }
  }

  /** What `FindAll` returns lies in the document. */
  lemma FindAllInDocument(root: Element, parent: QName, child: QName, x: Element)
    requires x in FindAll(root, parent, child)
    ensures x in Preorder(root) && x.tag == child
  {
    var ps := Tagged(Descendants(root), parent);
    ChildrenTaggedMembership(ps, child, x);
    var i :| 0 <= i < |ps| && x in ps[i].children;
    FilterMembership(Descendants(root), (e: Element) => e.tag == parent, ps[i]);
    assert ps[i] in Preorder(root);
    ChildInPreorder(root, ps[i], x);
  }

  /** Every entry `parse_sitemap_urls` returns is the text of a `loc` element of the document. */
  lemma ParsedUrlsAreLocTexts(doc: Doc, k: nat)
    requires k < |ParseSitemapUrls(doc).urls|
    ensures doc.Parsed?
    ensures exists e :: e in Preorder(doc.root) && e.tag.local == "loc" && e.text == ParseSitemapUrls(doc).urls[k]
  {
    var root := doc.root;
    var r := ParseSitemapUrls(doc);
    if |IndexLocs(root)| > 0 {
      var e := IndexLocs(root)[k];
      FindAllInDocument(root, Ns("sitemap"), Ns("loc"), e);
    } else if |NonEmptyTexts(PageLocs(root))| > 0 {
      var u := r.urls[k].value;
      assert u in NonEmptyTexts(PageLocs(root));
      NonEmptyTextsMembership(PageLocs(root), u);
      var i :| 0 <= i < |PageLocs(root)| && HasText(PageLocs(root)[i]) && PageLocs(root)[i].text.value == u;
      FindAllInDocument(root, Ns("url"), Ns("loc"), PageLocs(root)[i]);
    } else {
      var u := r.urls[k].value;
      assert u in NonEmptyTexts(BareLocs(root));
      NonEmptyTextsMembership(BareLocs(root), u);
      var i :| 0 <= i < |BareLocs(root)| && HasText(BareLocs(root)[i]) && BareLocs(root)[i].text.value == u;
      FilterMembership(Preorder(root), (e: Element) => e.tag == Bare("loc"), BareLocs(root)[i]);
    }
  }

  /** Some `sitemap` element below the root has a `loc` child. */
  predicate HasIndexEntry(root: Element) {
    exists s :: s in Descendants(root) && s.tag == Ns("sitemap") && |Tagged(s.children, Ns("loc"))| > 0
  }

  lemma IndexLocsFromEntry(root: Element)
    requires |IndexLocs(root)| > 0
    ensures HasIndexEntry(root)
  {
    var ps := Tagged(Descendants(root), Ns("sitemap"));
    var x := IndexLocs(root)[0];
    ChildrenTaggedMembership(ps, Ns("loc"), x);
    var i :| 0 <= i < |ps| && x in ps[i].children;
    FilterMembership(Descendants(root), (e: Element) => e.tag == Ns("sitemap"), ps[i]);
    FilterMembership(ps[i].children, (e: Element) => e.tag == Ns("loc"), x);
  }

  lemma EntryGivesIndexLocs(root: Element)
    requires HasIndexEntry(root)
    ensures |IndexLocs(root)| > 0
  {
    var ps := Tagged(Descendants(root), Ns("sitemap"));
    var s :| s in Descendants(root) && s.tag == Ns("sitemap") && |Tagged(s.children, Ns("loc"))| > 0;
    var x := Tagged(s.children, Ns("loc"))[0];
    FilterMembership(s.children, (e: Element) => e.tag == Ns("loc"), x);
    FilterMembership(Descendants(root), (e: Element) => e.tag == Ns("sitemap"), s);
    ChildrenTaggedMembership(ps, Ns("loc"), x);
  }

  /**
   * The index flag is set exactly when some `sitemap` entry below the root
   * has a `loc` child; the page entries are then ignored.
   */
  lemma IndexFlag(doc: Doc)
    ensures ParseSitemapUrls(doc).isIndex <==> doc.Parsed? && HasIndexEntry(doc.root)
    ensures ParseSitemapUrls(doc).isIndex ==> ParseSitemapUrls(doc).urls == Texts(IndexLocs(doc.root))
  {
    if doc.Parsed? {
      if |IndexLocs(doc.root)| > 0 {
        IndexLocsFromEntry(doc.root);
      } else if HasIndexEntry(doc.root) {
        EntryGivesIndexLocs(doc.root);
      }
    }
  }

  /**
   * Without index entries, every page entry's non-empty `loc` text is
   * returned, and nothing from the un-namespaced fallback.
   */
  lemma PageEntriesComplete(doc: Doc, e: Element)
    requires doc.Parsed? && |IndexLocs(doc.root)| == 0
    requires e in PageLocs(doc.root) && HasText(e)
    ensures !ParseSitemapUrls(doc).isIndex
    ensures ParseSitemapUrls(doc).urls == Somes(NonEmptyTexts(PageLocs(doc.root)))
    ensures Some(e.text.value) in ParseSitemapUrls(doc).urls
  {
    var pl := PageLocs(doc.root);
    var i :| 0 <= i < |pl| && pl[i] == e;
    NonEmptyTextsMembership(pl, e.text.value);
    var ts := NonEmptyTexts(pl);
    var k :| 0 <= k < |ts| && ts[k] == e.text.value;
    assert Somes(ts)[k] == Some(e.text.value);
  }

  /**
   * Without index entries or any page entry with text, the un-namespaced
   * fallback applies: every `loc` element's non-empty text is returned, in
   * document order, the root included.
   */
  lemma BareLocsComplete(doc: Doc, e: Element)
    requires doc.Parsed? && |IndexLocs(doc.root)| == 0 && |NonEmptyTexts(PageLocs(doc.root))| == 0
    requires e in BareLocs(doc.root) && HasText(e)
    ensures !ParseSitemapUrls(doc).isIndex
    ensures ParseSitemapUrls(doc).urls == Somes(NonEmptyTexts(BareLocs(doc.root)))
    ensures Some(e.text.value) in ParseSitemapUrls(doc).urls
  {
    var bl := BareLocs(doc.root);
    var i :| 0 <= i < |bl| && bl[i] == e;
    NonEmptyTextsMembership(bl, e.text.value);
    var ts := NonEmptyTexts(bl);
    var k :| 0 <= k < |ts| && ts[k] == e.text.value;
    assert Somes(ts)[k] == Some(e.text.value);
  }

  // ------------------------------------------------- fetch_multiple_sitemaps

  /** The URLs one child sitemap contributes: none when its `loc` had no text, the GET failed or was not 200. */
  function ChildUrls(loc: Option<string>, get: string -> Http): seq<Option<string>> {
    match loc
    case None => []
    case Some(u) => if IsOk(get(u)) then ParseSitemapUrls(get(u).body).urls else []
  }

  /** `fetch_multiple_sitemaps(locs)`: the children's lists, concatenated in order. */
  function FetchMultipleSitemaps(locs: seq<Option<string>>, get: string -> Http): (r: seq<Option<string>>) {
    Flatten(seq(|locs|, i requires 0 <= i < |locs| => ChildUrls(locs[i], get)))
  }

  /**
   * An entry of the expansion comes from a child that answered 200 and lists
   * it; and every entry such a child lists is in the expansion.
   */
  lemma FetchMultipleSitemapsMembership(locs: seq<Option<string>>, get: string -> Http, x: Option<string>)
    ensures x in FetchMultipleSitemaps(locs, get) <==>
              exists i :: 0 <= i < |locs| && locs[i].Some? && IsOk(get(locs[i].value))
                          && x in ParseSitemapUrls(get(locs[i].value).body).urls
  {
    var parts := seq(|locs|, i requires 0 <= i < |locs| => ChildUrls(locs[i], get));
    FlattenMembership(parts, x);
    assert forall i :: 0 <= i < |locs| ==> parts[i] == ChildUrls(locs[i], get);
  }

  /** A child's own index flag is dropped: a nested index contributes its `loc` texts as URLs. */
  lemma NestedIndexContributesLocs(loc: string, get: string -> Http)
    requires IsOk(get(loc)) && ParseSitemapUrls(get(loc).body).isIndex
    ensures FetchMultipleSitemaps([Some(loc)], get) == Texts(IndexLocs(get(loc).body.root))
  {
    IndexFlag(get(loc).body);
    var parts := seq(1, i requires 0 <= i < 1 => ChildUrls([Some(loc)][i], get));
    assert parts == [ChildUrls(Some(loc), get)];
    assert Flatten(parts) == parts[0] + Flatten(parts[1..]);
  }

  // --------------------------------------------------- filter_relevant_pages

  const CaseStudyKeywords: seq<string> :=
    ["case-stud", "customer-stor", "success-stor", "testimonial", "client-stor",
     "case_stud", "reviews", "customers/", "/stories", "use-case"]

  const PricingKeywords: seq<string> :=
    ["pricing", "plans", "price", "cost", "quote", "get-started", "buy", "purchase"]

  const GovernmentKeywords: seq<string> :=
    ["government", "gov", "public-sector", "municipal", "city", "federal", "state", "agency", "civic"]

  /** The error `url.lower()` raises on a missing `loc` text. */
  const NoneLowerError := "'NoneType' object has no attribute 'lower'"

  /** `any(k in s for k in keywords)` */
  predicate AnyIn(s: string, keywords: seq<string>) {
    exists i :: 0 <= i < |keywords| && Contains(s, keywords[i])
  }

  predicate IsCaseStudyUrl(u: string) {
    AnyIn(Lower(u), CaseStudyKeywords)
  }

  predicate IsPricingUrl(u: string) {
    AnyIn(Lower(u), PricingKeywords)
  }

  predicate MentionsGovernment(u: string) {
    AnyIn(Lower(u), GovernmentKeywords)
  }

  /** The government test is reached only for case-study URLs. */
  predicate IsGovernmentCaseStudy(u: string) {
    IsCaseStudyUrl(u) && MentionsGovernment(u)
  }

  /** The three result lists of `filter_relevant_pages`. */
  datatype Buckets = Buckets(caseStudies: seq<string>, pricing: seq<string>, government: seq<string>)

  /**
   * `filter_relevant_pages(urls, base_domain)`; the base domain is never read,
   * so it is not a parameter. Each bucket is the input filtered by its test.
   */
  function FilterRelevantPages(urls: seq<string>): (r: Buckets)
    ensures r.caseStudies == Filter(urls, IsCaseStudyUrl)
    ensures r.pricing == Filter(urls, IsPricingUrl)
    ensures r.government == Filter(urls, IsGovernmentCaseStudy)
    decreases |urls|
  {
    if |urls| == 0 then Buckets([], [], [])
    else
      var init := urls[..|urls| - 1];
      var u := urls[|urls| - 1];
      assert urls == init + [u];
      FilterSnoc(init, u, IsCaseStudyUrl);
      FilterSnoc(init, u, IsPricingUrl);
      FilterSnoc(init, u, IsGovernmentCaseStudy);
      var b := FilterRelevantPages(init);
      var lower := Lower(u);
      var isCase := AnyIn(lower, CaseStudyKeywords);
      Buckets(
        b.caseStudies + (if isCase then [u] else []),
        b.pricing + (if AnyIn(lower, PricingKeywords) then [u] else []),
        b.government + (if isCase && AnyIn(lower, GovernmentKeywords) then [u] else []))
  }

  /** Every government URL is a case study, and the government list is the case-study list filtered. */
  lemma GovernmentWithinCaseStudies(urls: seq<string>)
    ensures var r := FilterRelevantPages(urls);
            && r.government == Filter(r.caseStudies, MentionsGovernment)
            && IsSubseq(r.government, r.caseStudies)
            && forall u :: u in r.government ==> u in r.caseStudies
  {
    var r := FilterRelevantPages(urls);
    FilterOfFilter(urls, IsCaseStudyUrl, MentionsGovernment, IsGovernmentCaseStudy);
    FilterIsSubseq(r.caseStudies, MentionsGovernment);
    forall u | u in r.government
      ensures u in r.caseStudies
    {
      FilterMembership(urls, IsGovernmentCaseStudy, u);
      FilterMembership(urls, IsCaseStudyUrl, u);
    }
  }

  /**
   * Each bucket keeps the input's order and keeps repeated URLs as often as
   * they occur; a URL is in a bucket exactly when it is in the input and
   * passes that bucket's test.
   */
  lemma BucketsPreserveOrderAndDuplicates(urls: seq<string>, u: string)
    ensures var r := FilterRelevantPages(urls);
            && IsSubseq(r.caseStudies, urls) && IsSubseq(r.pricing, urls) && IsSubseq(r.government, urls)
            && (u in r.caseStudies <==> u in urls && IsCaseStudyUrl(u))
            && (u in r.pricing <==> u in urls && IsPricingUrl(u))
            && (IsCaseStudyUrl(u) ==> multiset(r.caseStudies)[u] == multiset(urls)[u])
            && (IsPricingUrl(u) ==> multiset(r.pricing)[u] == multiset(urls)[u])
  {
    FilterIsSubseq(urls, IsCaseStudyUrl);
    FilterIsSubseq(urls, IsPricingUrl);
    FilterIsSubseq(urls, IsGovernmentCaseStudy);
    FilterMembership(urls, IsCaseStudyUrl, u);
    FilterMembership(urls, IsPricingUrl, u);
    if IsCaseStudyUrl(u) {
      FilterMultiplicity(urls, IsCaseStudyUrl, u);
    }
    if IsPricingUrl(u) {
      FilterMultiplicity(urls, IsPricingUrl, u);
    }
  }

  /** The tests read the lower-cased URL, so the letter case of a URL never matters. */
  lemma ClassificationIgnoresCase(u: string)
    ensures IsCaseStudyUrl(u) == IsCaseStudyUrl(Lower(u))
    ensures IsPricingUrl(u) == IsPricingUrl(Lower(u))
    ensures MentionsGovernment(u) == MentionsGovernment(Lower(u))
  {
    LowerIdempotent(u);
  }

  /**
   * The pricing test is independent of the case-study test: a URL whose
   * text, host included, holds "case-stud" and "pricing" lands in both lists.
   */
  lemma CaseStudyAndPricing(u: string)
    requires Contains(Lower(u), "case-stud") && Contains(Lower(u), "pricing")
    ensures var r := FilterRelevantPages([u]);
            r.caseStudies == [u] && r.pricing == [u]
  {
    assert CaseStudyKeywords[0] == "case-stud";
    assert PricingKeywords[0] == "pricing";
    assert IsCaseStudyUrl(u) && IsPricingUrl(u);
  }
}

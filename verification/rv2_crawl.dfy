/**
 * The second generation's domain crawl (market_research_toolRV2.py):
 * probing three sitemap paths, reading the sitemap's entries, expanding an
 * index one level, sorting the URLs into case-study, pricing and government
 * lists, scanning a bounded number of them, and crawling every domain in
 * turn with a failing domain recorded and the crawl carrying on.
 *
 * The outside world is the `Web` oracle: what a GET of a URL returns, the
 * text `scrape_url` extracts from a page (`None` on failure), and what the
 * model gateway returns or raises for the case-study and pricing prompts
 * about a page.
 */
module Rv2Crawl {
  import opened Wrappers
  import opened Strings
  import opened Seqs
  import opened SitemapXml
  import opened UrlParse
  import Scraper
  import opened Json
  import Rv2Extract

  datatype Web = Web(
    get: string -> Scraper.Http,
    scrape: string -> Option<string>,
    caseReply: string -> TextReply,
    pricingReply: string -> TextReply)

  // ---------------------------------------------------------- fetch_sitemap

  /** The candidate paths, in the order they are tried. */
  const SitemapPaths: seq<string> := ["/sitemap.xml", "/sitemap_index.xml", "/sitemap-index.xml"]

  /**
   * `fetch_sitemap(domain, session)`: the body and address of the first
   * candidate answered with status 200, whatever that body holds.
   */
  function FetchSitemap(domain: string, get: string -> Scraper.Http): (r: Option<(Doc, string)>)
    ensures r.None? <==> forall j :: 0 <= j < |SitemapPaths| ==> !Scraper.IsOk(get(domain + SitemapPaths[j]))
    ensures r.Some? ==>
              exists i :: (0 <= i < |SitemapPaths|
                && Scraper.IsOk(get(domain + SitemapPaths[i]))
                && r.value == (get(domain + SitemapPaths[i]).body, domain + SitemapPaths[i])
                && forall j :: 0 <= j < i ==> !Scraper.IsOk(get(domain + SitemapPaths[j])))
  {
    var cands := Scraper.Candidates(domain, SitemapPaths);
    match Scraper.FirstOk(cands, get)
    case Some(i) =>
      assert cands[i] == domain + SitemapPaths[i];
      Some((get(cands[i]).body, cands[i]))
    case None => None
  }

  /** The sitemap the crawl goes on with: none when nothing answered or the body was empty. */
  function SitemapContent(domain: string, get: string -> Scraper.Http): (r: Option<Doc>)
    ensures r.Some? ==> !r.value.EmptyBody?
  {
    match FetchSitemap(domain, get)
    case Some((doc, _)) => if doc.EmptyBody? then None else Some(doc)
    case None => None
  }

  // ---------------------------------------------------------- parse_sitemap

  /** The tag an entry carries: `'sitemap_index'` or `'url'`. */
  datatype Kind = SitemapIndex | Url

  /** A `(type, loc.text)` pair. */
  datatype Entry = Entry(kind: Kind, loc: Option<string>)

  /** For each element of `es` with a `loc` child, in order, an entry holding the first such child's text. */
  function EntriesOf(es: seq<Element>, kind: Kind): (r: seq<Entry>)
    ensures |r| <= |es|
    ensures forall i :: 0 <= i < |r| ==> r[i].kind == kind
  {
    if |es| == 0 then []
    else
      var head := match FirstChild(es[0], Ns("loc")) case Some(l) => [Entry(kind, l.text)] case None => [];
      var rest := EntriesOf(es[1..], kind);
      assert forall i :: |head| <= i < |head + rest| ==> (head + rest)[i] == rest[i - |head|];
      head + rest
  }

  /** The element has a `loc` child. */
  predicate HasLoc(e: Element) {
    FirstChild(e, Ns("loc")).Some?
  }

  /** `e.find('ns:loc').text` */
  function LocText(e: Element): Option<string>
    requires HasLoc(e)
  {
    FirstChild(e, Ns("loc")).value.text
  }

  /** Some element of `es` has a `loc` child whose text is `t`. */
  predicate LocAmong(es: seq<Element>, t: Option<string>) {
    exists i :: 0 <= i < |es| && HasLoc(es[i]) && LocText(es[i]) == t
  }

  lemma {:induction false} EntriesOfMembership(es: seq<Element>, kind: Kind, t: Option<string>)
    ensures Entry(kind, t) in EntriesOf(es, kind) <==> LocAmong(es, t)
  {
    if |es| > 0 {
      EntriesOfMembership(es[1..], kind, t);
      assert Entry(kind, t) in EntriesOf(es, kind) <==>
             (HasLoc(es[0]) && LocText(es[0]) == t) || Entry(kind, t) in EntriesOf(es[1..], kind) by {
        var head := if HasLoc(es[0]) then [Entry(kind, LocText(es[0]))] else [];
        assert EntriesOf(es, kind) == head + EntriesOf(es[1..], kind);
      }
      LocAmongCons(es, t);
    }
  }

  lemma LocAmongCons(es: seq<Element>, t: Option<string>)
    requires |es| > 0
    ensures LocAmong(es, t) <==> (HasLoc(es[0]) && LocText(es[0]) == t) || LocAmong(es[1..], t)
  {
    if LocAmong(es, t) {
      var i :| 0 <= i < |es| && HasLoc(es[i]) && LocText(es[i]) == t;
      if i > 0 {
        assert es[1..][i - 1] == es[i];
      }
    }
    if LocAmong(es[1..], t) {
      var i :| 0 <= i < |es[1..]| && HasLoc(es[1..][i]) && LocText(es[1..][i]) == t;
      assert es[i + 1] == es[1..][i];
    }
  }

  /** The entries made from the elements tagged `tag`: one per such element with a `loc` child. */
  lemma TaggedEntries(es: seq<Element>, tag: QName, kind: Kind, t: Option<string>)
    ensures Entry(kind, t) in EntriesOf(Tagged(es, tag), kind) <==>
              exists e :: e in es && e.tag == tag && HasLoc(e) && LocText(e) == t
  {
    if Entry(kind, t) in EntriesOf(Tagged(es, tag), kind) {
      TaggedEntryHasElement(es, tag, kind, t);
    }
    if exists e :: e in es && e.tag == tag && HasLoc(e) && LocText(e) == t {
      var e :| e in es && e.tag == tag && HasLoc(e) && LocText(e) == t;
      TaggedElementHasEntry(es, tag, kind, e);
    }
  }

  lemma TaggedEntryHasElement(es: seq<Element>, tag: QName, kind: Kind, t: Option<string>)
    requires Entry(kind, t) in EntriesOf(Tagged(es, tag), kind)
    ensures exists e :: e in es && e.tag == tag && HasLoc(e) && LocText(e) == t
  {
    var ts := Tagged(es, tag);
    EntriesOfMembership(ts, kind, t);
    var i :| 0 <= i < |ts| && HasLoc(ts[i]) && LocText(ts[i]) == t;
    FilterMembership(es, (e: Element) => e.tag == tag, ts[i]);
  }

  lemma TaggedElementHasEntry(es: seq<Element>, tag: QName, kind: Kind, e: Element)
    requires e in es && e.tag == tag && HasLoc(e)
    ensures Entry(kind, LocText(e)) in EntriesOf(Tagged(es, tag), kind)
  {
    var ts := Tagged(es, tag);
    FilterMembership(es, (e: Element) => e.tag == tag, e);
    var i :| 0 <= i < |ts| && ts[i] == e;
    EntriesOfMembership(ts, kind, LocText(e));
  }

  /**
   * `parse_sitemap(xml_content)`: an entry for every `sitemap` element with a
   * `loc` child, then one for every `url` element with a `loc` child, each
   * in document order; nothing when the body does not parse.
   */
  function ParseSitemap(doc: Doc): (r: seq<Entry>)
    ensures !doc.Parsed? ==> r == []
    ensures forall i, j :: 0 <= i < j < |r| && r[i].kind == Url ==> r[j].kind == Url
  {
    match doc
    case Parsed(root) =>
      var index := EntriesOf(Tagged(Descendants(root), Ns("sitemap")), SitemapIndex);
      var pages := EntriesOf(Tagged(Descendants(root), Ns("url")), Url);
      assert forall i :: |index| <= i < |index + pages| ==> (index + pages)[i] == pages[i - |index|];
      index + pages
    case _ => []
  }

  /**
   * An index entry is listed exactly for a `sitemap` element below the root
   * with a `loc` child, and a page entry exactly for such a `url` element.
   */
  lemma ParseSitemapEntries(root: Element, kind: Kind, t: Option<string>)
    ensures var tag := if kind == SitemapIndex then Ns("sitemap") else Ns("url");
            Entry(kind, t) in ParseSitemap(Parsed(root)) <==>
              exists e :: e in Descendants(root) && e.tag == tag && HasLoc(e) && LocText(e) == t
  {
    var index := EntriesOf(Tagged(Descendants(root), Ns("sitemap")), SitemapIndex);
    var pages := EntriesOf(Tagged(Descendants(root), Ns("url")), Url);
    assert ParseSitemap(Parsed(root)) == index + pages;
    if kind == SitemapIndex {
      TaggedEntries(Descendants(root), Ns("sitemap"), kind, t);
      assert Entry(kind, t) !in pages;
    } else {
      TaggedEntries(Descendants(root), Ns("url"), kind, t);
      assert Entry(kind, t) !in index;
    }
  }

  /** `[url for type, url in entries if type == kind]` */
  function OfKind(entries: seq<Entry>, kind: Kind): (r: seq<Option<string>>)
    ensures |r| <= |entries|
  {
    if |entries| == 0 then []
    else (if entries[0].kind == kind then [entries[0].loc] else []) + OfKind(entries[1..], kind)
  }

  lemma {:induction false} OfKindMembership(entries: seq<Entry>, kind: Kind, t: Option<string>)
    ensures t in OfKind(entries, kind) <==> Entry(kind, t) in entries
  {
    if |entries| > 0 {
      OfKindMembership(entries[1..], kind, t);
      assert entries == [entries[0]] + entries[1..];
    }
  }

  // ------------------------------------------------ collecting the page URLs

  /** `sitemap_indices[:20]` */
  const MaxChildSitemaps := 20

  /**
   * The page URLs one child sitemap contributes: its `url` entries, or
   * nothing when its address is missing, the GET raised or was not 200.
   */
  function ChildPages(loc: Option<string>, get: string -> Scraper.Http): seq<Option<string>> {
    match loc
    case None => []
    case Some(u) => if Scraper.IsOk(get(u)) then OfKind(ParseSitemap(get(u).body), Url) else []
  }

  /** The child sitemaps' contributions, one list per child, for the children that are fetched. */
  function Children(children: seq<Option<string>>, get: string -> Scraper.Http): (r: seq<seq<Option<string>>>)
    ensures |r| == |children|
    ensures forall i :: 0 <= i < |children| ==> r[i] == ChildPages(children[i], get)
  {
    seq(|children|, i requires 0 <= i < |children| => ChildPages(children[i], get))
  }

  /**
   * `all_urls`: with index entries, the page entries of the first twenty
   * child sitemaps in order; without, the sitemap's own page entries.
   */
  function CollectUrls(doc: Doc, get: string -> Scraper.Http): seq<Option<string>> {
    var entries := ParseSitemap(doc);
    var indices := OfKind(entries, SitemapIndex);
    if |indices| > 0 then Flatten(Children(Front(indices, MaxChildSitemaps), get))
    else OfKind(entries, Url)
  }

  /**
   * With index entries, a collected URL comes from a page entry of one of the
   * first twenty children that answered 200, and every such entry is
   * collected; the index's own page entries play no part.
   */
  lemma IndexCollectsChildPages(doc: Doc, get: string -> Scraper.Http, x: Option<string>)
    requires |OfKind(ParseSitemap(doc), SitemapIndex)| > 0
    ensures var children := Front(OfKind(ParseSitemap(doc), SitemapIndex), MaxChildSitemaps);
            x in CollectUrls(doc, get) <==>
              exists i :: 0 <= i < |children| && children[i].Some? && Scraper.IsOk(get(children[i].value))
                          && Entry(Url, x) in ParseSitemap(get(children[i].value).body)
  {
    var children := Front(OfKind(ParseSitemap(doc), SitemapIndex), MaxChildSitemaps);
    FlattenMembership(Children(children, get), x);
    forall i | 0 <= i < |children| && children[i].Some? && Scraper.IsOk(get(children[i].value))
      ensures x in ChildPages(children[i], get) <==> Entry(Url, x) in ParseSitemap(get(children[i].value).body)
    {
      OfKindMembership(ParseSitemap(get(children[i].value).body), Url, x);
    }
  }

  /** Child sitemaps after the twentieth are never fetched: the oracle's answers for them do not matter. */
  lemma ChildrenBeyondTwentyIgnored(doc: Doc, get1: string -> Scraper.Http, get2: string -> Scraper.Http)
    requires SameAnswers(Front(OfKind(ParseSitemap(doc), SitemapIndex), MaxChildSitemaps), get1, get2)
    ensures CollectUrls(doc, get1) == CollectUrls(doc, get2)
  {
    var children := Front(OfKind(ParseSitemap(doc), SitemapIndex), MaxChildSitemaps);
    forall i | 0 <= i < |children|
      ensures ChildPages(children[i], get1) == ChildPages(children[i], get2)
    {
      ChildPagesAgree(children[i], get1, get2);
    }
    assert Children(children, get1) == Children(children, get2);
  }

  /** Two oracles answer alike for every address present in `locs`. */
  predicate SameAnswers(locs: seq<Option<string>>, get1: string -> Scraper.Http, get2: string -> Scraper.Http) {
    forall i :: 0 <= i < |locs| && locs[i].Some? ==> get1(locs[i].value) == get2(locs[i].value)
  }

  lemma ChildPagesAgree(loc: Option<string>, get1: string -> Scraper.Http, get2: string -> Scraper.Http)
    requires loc.Some? ==> get1(loc.value) == get2(loc.value)
    ensures ChildPages(loc, get1) == ChildPages(loc, get2)
  {
  }

  // ------------------------------------------------------------ classification

  /** The case-study patterns, with each `[-_]` written out as both alternatives. */
  const CaseStudyPatterns: seq<string> :=
    ["case-stud", "case_stud", "customer-stor", "customer_stor", "success-stor", "success_stor",
     "testimonial", "review", "/case/", "/customer/", "/success/", "/stories/", "/clients/", "/portfolio/"]

  const PricingPatterns: seq<string> :=
    ["pricing", "price", "cost", "/plans", "/plan/", "/quote", "/fees", "/packages", "/subscription"]

  const GovernmentPatterns: seq<string> :=
    ["government", "municipal", "city", "county", "public-sector", "public_sector"]

  predicate IsCaseStudyUrl(u: string) {
    Scraper.AnyIn(Lower(u), CaseStudyPatterns)
  }

  predicate IsPricingUrl(u: string) {
    Scraper.AnyIn(Lower(u), PricingPatterns)
  }

  predicate IsGovernmentUrl(u: string) {
    Scraper.AnyIn(Lower(u), GovernmentPatterns)
  }

  /** The three lists `crawl_domain` fills in its loop; each test runs on its own. */
  function ClassifyUrls(urls: seq<string>): (r: Scraper.Buckets)
    ensures r.caseStudies == Filter(urls, IsCaseStudyUrl)
    ensures r.pricing == Filter(urls, IsPricingUrl)
    ensures r.government == Filter(urls, IsGovernmentUrl)
    decreases |urls|
  {
    if |urls| == 0 then Scraper.Buckets([], [], [])
    else
      var init := urls[..|urls| - 1];
      var u := urls[|urls| - 1];
      assert urls == init + [u];
      FilterSnoc(init, u, IsCaseStudyUrl);
      FilterSnoc(init, u, IsPricingUrl);
      FilterSnoc(init, u, IsGovernmentUrl);
      var b := ClassifyUrls(init);
      var lower := Lower(u);
      Scraper.Buckets(
        b.caseStudies + (if Scraper.AnyIn(lower, CaseStudyPatterns) then [u] else []),
        b.pricing + (if Scraper.AnyIn(lower, PricingPatterns) then [u] else []),
        b.government + (if Scraper.AnyIn(lower, GovernmentPatterns) then [u] else []))
  }

  /**
   * Unlike the modular generation, a government URL need not be a case
   * study: a page about a city that matches no case-study pattern is listed
   * as government all the same.
   */
  lemma GovernmentNotRestricted()
    ensures var r := ClassifyUrls(["city"]);
            r.government == ["city"] && r.caseStudies == []
  {
    assert Lower("city") == "city";
    assert Contains("city", GovernmentPatterns[2]) by {
      ContainsSelf("city");
    }
    assert !IsCaseStudyUrl("city") by {
      forall i | 0 <= i < |CaseStudyPatterns|
        ensures !Contains("city", CaseStudyPatterns[i])
      {
        ContainsLonger("city", CaseStudyPatterns[i]);
      }
    }
  }

  // ------------------------------------------------------------ deep scans

  /** `case_studies[:10]` and `pricing_pages[:5]` */
  const MaxCaseScans := 10
  const MaxPricingScans := 5

  /** A scanned case study: the page and the model's whole reply. */
  datatype CaseScan = CaseScan(url: string, analysis: string)

  /** A case-study page yields a scan when it gave text and the model replied; failures are skipped. */
  function CaseScanned(web: Web): string -> bool {
    u => Rv2Extract.Scraped(web.scrape(u)) && web.caseReply(u).Ok?
  }

  /** A pricing page is analysed when it gave text; the analysis records its own errors. */
  function PageScraped(web: Web): string -> bool {
    u => Rv2Extract.Scraped(web.scrape(u))
  }

  /** The deep-scan loop over case-study pages. */
  function ScanCases(urls: seq<string>, web: Web): (r: seq<CaseScan>)
    ensures |r| == |Filter(urls, CaseScanned(web))|
    ensures forall i :: 0 <= i < |r| ==> r[i].url == Filter(urls, CaseScanned(web))[i]
    ensures forall i :: 0 <= i < |r| ==> web.caseReply(r[i].url) == Ok(r[i].analysis)
    decreases |urls|
  {
    if |urls| == 0 then []
    else
      var init := urls[..|urls| - 1];
      var u := urls[|urls| - 1];
      assert urls == init + [u];
      FilterSnoc(init, u, CaseScanned(web));
      var text := web.scrape(u);
      var rest := ScanCases(init, web);
      if Rv2Extract.Scraped(text) then
        match web.caseReply(u)
        case Ok(response) => rest + [CaseScan(u, response)]
        case Raised(_) => rest
      else rest
  }

  /** The pricing loop: one `analyze_pricing_page` record per page that gave text. */
  function ScanPricing(urls: seq<string>, web: Web): (r: seq<Rv2Extract.PricingInfo>)
    ensures |r| == |Filter(urls, PageScraped(web))|
    ensures forall i :: 0 <= i < |r| ==>
              var u := Filter(urls, PageScraped(web))[i];
              r[i] == Rv2Extract.AnalyzePricingPage(u, web.scrape(u), web.pricingReply(u))
    decreases |urls|
  {
    if |urls| == 0 then []
    else
      var init := urls[..|urls| - 1];
      var u := urls[|urls| - 1];
      assert urls == init + [u];
      FilterSnoc(init, u, PageScraped(web));
      var text := web.scrape(u);
      var rest := ScanPricing(init, web);
      if Rv2Extract.Scraped(text) then rest + [Rv2Extract.AnalyzePricingPage(u, text, web.pricingReply(u))]
      else rest
  }

  // ------------------------------------------------------------ crawl_domain

  /**
   * The record `crawl_domain` returns. The scan lists are present only when
   * there was something to scan, as the keys are only set then.
   */
  datatype DomainResult = DomainResult(
    domain: string,
    totalUrls: nat,
    caseStudies: seq<string>,
    pricingPages: seq<string>,
    governmentUrls: seq<string>,
    scannedCaseStudies: Option<seq<CaseScan>>,
    pricingInfo: Option<seq<Rv2Extract.PricingInfo>>)

  function NoSitemapResult(domain: string): DomainResult {
    DomainResult(domain, 0, [], [], [], None, None)
  }


  /**
   * `crawl_domain(domain, ...)`: without a sitemap the empty record; a
   * collected entry without text makes the URL loop raise; otherwise the
   * buckets and the bounded scans.
   */
  function CrawlDomain(domain: string, web: Web): (r: Result<DomainResult>)
    ensures r.Ok? ==> r.value.domain == domain
    ensures SitemapContent(domain, web.get).None? ==> r == Ok(NoSitemapResult(domain))
    ensures SitemapContent(domain, web.get).Some? ==>
              var all := CollectUrls(SitemapContent(domain, web.get).value, web.get);
              && (r.Raised? <==> HasMissing(all))
              && (r.Raised? ==> r.msg == Scraper.NoneLowerError)
              && (r.Ok? ==> r.value.totalUrls == |all|)
    ensures r.Ok? && r.value.scannedCaseStudies.Some? ==>
              |r.value.caseStudies| > 0 && |r.value.scannedCaseStudies.value| <= MaxCaseScans
    ensures r.Ok? && r.value.pricingInfo.Some? ==>
              |r.value.pricingPages| > 0 && |r.value.pricingInfo.value| <= MaxPricingScans
  {
    match SitemapContent(domain, web.get)
    case None => Ok(NoSitemapResult(domain))
    case Some(doc) =>
      var all := CollectUrls(doc, web.get);
      if HasMissing(all) then Raised(Scraper.NoneLowerError)
      else
        var b := ClassifyUrls(Present(all));
        var cases := Front(b.caseStudies, MaxCaseScans);
        var prices := Front(b.pricing, MaxPricingScans);
        Ok(DomainResult(
          domain, |all|, b.caseStudies, b.pricing, b.government,
          if |b.caseStudies| > 0 then Some(ScanCases(cases, web)) else None,
          if |b.pricing| > 0 then Some(ScanPricing(prices, web)) else None))
  }

  /**
   * A crawled domain's lists are its collected URLs filtered by each
   * pattern list. A non-empty bucket is always scanned, over its first ten
   * case studies or first five pricing pages, in order; each scan belongs
   * to one of those pages.
   */
  lemma CrawlDomainScans(domain: string, web: Web)
    ensures SitemapContent(domain, web.get).Some? && CrawlDomain(domain, web).Ok? ==>
            var all := CollectUrls(SitemapContent(domain, web.get).value, web.get);
            var res := CrawlDomain(domain, web).value;
            && !HasMissing(all)
            && res.caseStudies == Filter(Present(all), IsCaseStudyUrl)
            && res.pricingPages == Filter(Present(all), IsPricingUrl)
            && res.governmentUrls == Filter(Present(all), IsGovernmentUrl)
            && res.scannedCaseStudies == (if |res.caseStudies| > 0
                                          then Some(ScanCases(Front(res.caseStudies, MaxCaseScans), web)) else None)
            && res.pricingInfo == (if |res.pricingPages| > 0
                                   then Some(ScanPricing(Front(res.pricingPages, MaxPricingScans), web)) else None)
            && (res.scannedCaseStudies.Some? ==>
                  IsSubseq(ScanUrls(res.scannedCaseStudies.value), Front(res.caseStudies, MaxCaseScans)))
            && (res.pricingInfo.Some? ==>
                  IsSubseq(PricingUrls(res.pricingInfo.value), Front(res.pricingPages, MaxPricingScans)))
  {
    if SitemapContent(domain, web.get).Some? && CrawlDomain(domain, web).Ok? {
      var res := CrawlDomain(domain, web).value;
      if res.scannedCaseStudies.Some? {
        var cases := Front(res.caseStudies, MaxCaseScans);
        var scans := res.scannedCaseStudies.value;
        assert scans == ScanCases(cases, web);
        assert ScanUrls(scans) == Filter(cases, CaseScanned(web));
        FilterIsSubseq(cases, CaseScanned(web));
      }
      if res.pricingInfo.Some? {
        var prices := Front(res.pricingPages, MaxPricingScans);
        var infos := res.pricingInfo.value;
        assert infos == ScanPricing(prices, web);
        assert PricingUrls(infos) == Filter(prices, PageScraped(web));
        FilterIsSubseq(prices, PageScraped(web));
      }
    }
  }

  /** The pages of a list of pricing analyses. */
  function PricingUrls(infos: seq<Rv2Extract.PricingInfo>): (r: seq<string>)
    ensures |r| == |infos|
    ensures forall i :: 0 <= i < |infos| ==> r[i] == infos[i].url
  {
    seq(|infos|, i requires 0 <= i < |infos| => infos[i].url)
  }

  /** The pages of a list of scans. */
  function ScanUrls(scans: seq<CaseScan>): (r: seq<string>)
    ensures |r| == |scans|
    ensures forall i :: 0 <= i < |scans| ==> r[i] == scans[i].url
  {
    seq(|scans|, i requires 0 <= i < |scans| => scans[i].url)
  }

  // ------------------------------------------------------- crawl_all_domains

  /** The domains to crawl: the distinct origins in order of first occurrence. */
  function CrawlDomains(urls: seq<string>): (r: Result<seq<string>>)
    ensures r.Ok? <==> forall i :: 0 <= i < |urls| ==> Origin(urls[i]).Some?
    ensures r.Ok? ==> NoDuplicates(r.value)
  {
    var origins :- Origins(urls);
    Ok(Dedup(origins))
  }

  /** A domain is crawled exactly when some input URL has it as origin. */
  lemma CrawlDomainsMembership(urls: seq<string>, d: string)
    requires CrawlDomains(urls).Ok?
    ensures d in CrawlDomains(urls).value <==> exists i :: 0 <= i < |urls| && Origin(urls[i]) == Some(d)
  {
    var origins := Origins(urls).value;
    if d in Dedup(origins) {
      var k :| 0 <= k < |Dedup(origins)| && Dedup(origins)[k] == d;
      var i :| 0 <= i < |origins| && origins[i] == d;
    }
    if exists i :: 0 <= i < |urls| && Origin(urls[i]) == Some(d) {
      var i :| 0 <= i < |urls| && Origin(urls[i]) == Some(d);
      assert origins[i] == d;
    }
  }

  /** One entry of the results: the domain's record, or `{'domain', 'error'}` when it raised. */
  datatype Outcome = Crawled(result: DomainResult) | Failed(domain: string, error: string)

  /** The checkpoint saved after a domain: `completed_domains`, `total_domains` and the results so far. */
  datatype Checkpoint = Checkpoint(completedDomains: nat, totalDomains: nat, results: seq<Outcome>)

  /** The outcome for one domain, as the loop body records it. */
  function OutcomeOf(domain: string, web: Web): (r: Outcome)
    ensures r.Crawled? <==> CrawlDomain(domain, web).Ok?
    ensures r.Crawled? ==> r.result.domain == domain
    ensures r.Failed? ==> r.domain == domain && r.error == CrawlDomain(domain, web).msg
  {
    match CrawlDomain(domain, web)
    case Ok(res) => Crawled(res)
    case Raised(e) => Failed(domain, e)
  }

  /**
   * The loop over the first `n` domains, `crawl` giving each domain's
   * outcome: the results and the checkpoints saved along the way.
   */
  function CrawlLoop(domains: seq<string>, n: nat, crawl: string -> Outcome): (r: (seq<Outcome>, seq<Checkpoint>))
    requires n <= |domains|
    ensures |r.0| == n
    ensures forall i :: 0 <= i < n ==> r.0[i] == crawl(domains[i])
    decreases n
  {
    if n == 0 then ([], [])
    else
      var (results, saves) := CrawlLoop(domains, n - 1, crawl);
      var results' := results + [crawl(domains[n - 1])];
      if results'[n - 1].Crawled? then (results', saves + [Checkpoint(n, |domains|, results')])
      else (results', saves)
  }

  /**
   * A checkpoint saved after a crawled domain: it counts the domains done so
   * far, holds exactly the results so far, and the last of them is a success.
   */
  predicate SavedAfterSuccess(results: seq<Outcome>, save: Checkpoint, total: nat) {
    && save.totalDomains == total
    && 0 < save.completedDomains <= |results|
    && save.completedDomains == |save.results|
    && save.results == results[..save.completedDomains]
    && results[save.completedDomains - 1].Crawled?
  }

  /** Later results do not disturb a checkpoint already saved. */
  lemma SavedAfterSuccessExtends(results: seq<Outcome>, o: Outcome, save: Checkpoint, total: nat)
    requires SavedAfterSuccess(results, save, total)
    ensures SavedAfterSuccess(results + [o], save, total)
  {
    assert (results + [o])[..save.completedDomains] == results[..save.completedDomains];
  }

  /**
   * Checkpoints are saved once per domain crawled without error, in the
   * order of the domains, each after that domain's result.
   */
  lemma CheckpointInvariant(domains: seq<string>, n: nat, crawl: string -> Outcome)
    requires n <= |domains|
    ensures var (results, saves) := CrawlLoop(domains, n, crawl);
            && |saves| == |Filter(domains[..n], Succeeds(crawl))|
            && (forall k :: 0 <= k < |saves| ==> SavedAfterSuccess(results, saves[k], |domains|))
            && (forall k :: 0 < k < |saves| ==> saves[k - 1].completedDomains < saves[k].completedDomains)
  {
    CheckpointCount(domains, n, crawl);
    CheckpointsSaved(domains, n, crawl);
    CheckpointsOrdered(domains, n, crawl);
  }

  lemma {:induction false} CheckpointCount(domains: seq<string>, n: nat, crawl: string -> Outcome)
    requires n <= |domains|
    ensures |CrawlLoop(domains, n, crawl).1| == |Filter(domains[..n], Succeeds(crawl))|
    decreases n
  {
    if n > 0 {
      CheckpointCount(domains, n - 1, crawl);
      assert domains[..n] == domains[..n - 1] + [domains[n - 1]];
      FilterSnoc(domains[..n - 1], domains[n - 1], Succeeds(crawl));
    }
  }

  lemma {:induction false} CheckpointsSaved(domains: seq<string>, n: nat, crawl: string -> Outcome)
    requires n <= |domains|
    ensures forall k :: 0 <= k < |CrawlLoop(domains, n, crawl).1| ==>
              SavedAfterSuccess(CrawlLoop(domains, n, crawl).0, CrawlLoop(domains, n, crawl).1[k], |domains|)
    decreases n
  {
    if n > 0 {
      CheckpointsSaved(domains, n - 1, crawl);
      var prev := CrawlLoop(domains, n - 1, crawl);
      var results := prev.0 + [crawl(domains[n - 1])];
      assert CrawlLoop(domains, n, crawl).0 == results;
      forall k | 0 <= k < |prev.1|
        ensures SavedAfterSuccess(results, prev.1[k], |domains|)
      {
        SavedAfterSuccessExtends(prev.0, crawl(domains[n - 1]), prev.1[k], |domains|);
      }
      assert results[..n] == results;
    }
  }

  lemma {:induction false} CheckpointsOrdered(domains: seq<string>, n: nat, crawl: string -> Outcome)
    requires n <= |domains|
    ensures forall k :: 0 <= k < |CrawlLoop(domains, n, crawl).1| ==> CrawlLoop(domains, n, crawl).1[k].completedDomains <= n
    ensures forall k :: 0 < k < |CrawlLoop(domains, n, crawl).1| ==>
              CrawlLoop(domains, n, crawl).1[k - 1].completedDomains < CrawlLoop(domains, n, crawl).1[k].completedDomains
    decreases n
  {
    if n > 0 {
      CheckpointsOrdered(domains, n - 1, crawl);
      var prev := CrawlLoop(domains, n - 1, crawl).1;
      assert forall k :: 0 <= k < |prev| ==> prev[k].completedDomains < n;
    }
  }

  /** A domain whose crawl succeeds. */
  function Succeeds(crawl: string -> Outcome): string -> bool {
    d => crawl(d).Crawled?
  }

  /** Each domain's outcome, as `crawl_domain` decides it. */
  function CrawlOne(web: Web): string -> Outcome {
    d => OutcomeOf(d, web)
  }

  /**
   * `crawl_all_domains(urls, landscape_name)`: one outcome per distinct
   * domain, a failing domain recorded and the loop carrying on.
   */
  function CrawlAllDomains(urls: seq<string>, web: Web): (r: Result<(seq<Outcome>, seq<Checkpoint>)>)
    ensures r.Ok? <==> CrawlDomains(urls).Ok?
    ensures r.Ok? ==> |r.value.0| == |CrawlDomains(urls).value|
    ensures r.Ok? ==> forall i :: 0 <= i < |r.value.0| ==>
              r.value.0[i] == OutcomeOf(CrawlDomains(urls).value[i], web)
  {
    var domains :- CrawlDomains(urls);
    Ok(CrawlLoop(domains, |domains|, CrawlOne(web)))
  }

  /**
   * The whole crawl saves one checkpoint per domain crawled without error,
   * each after that domain's result and holding every result so far.
   */
  lemma CrawlAllCheckpoints(urls: seq<string>, web: Web)
    ensures CrawlAllDomains(urls, web).Ok? ==>
            var domains := CrawlDomains(urls).value;
            var (results, saves) := CrawlAllDomains(urls, web).value;
            && |saves| == |Filter(domains, Succeeds(CrawlOne(web)))|
            && (forall k :: 0 <= k < |saves| ==> SavedAfterSuccess(results, saves[k], |domains|))
            && (forall k :: 0 < k < |saves| ==> saves[k - 1].completedDomains < saves[k].completedDomains)
  {
    if CrawlAllDomains(urls, web).Ok? {
      var domains := CrawlDomains(urls).value;
      CheckpointInvariant(domains, |domains|, CrawlOne(web));
      assert domains[..|domains|] == domains;
    }
  }
}

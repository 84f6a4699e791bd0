/**
 * The modular generation's driver (main.py): the URL input line, the
 * feature and product stages over the input URLs, and the sitemap crawl
 * with its deep scans, summary rows and checkpoint record. The driver calls
 * the analyzer functions of market-research-tool/src/analyzer.py (modelled
 * in ToolAnalyzer), whose signatures are the ones it uses. Browser text,
 * HTTP, the homepage link crawler and the model replies are oracles.
 */
module Pipeline {
  import opened Wrappers
  import opened Strings
  import opened Seqs
  import opened Json
  import opened FeatureMap
  import UrlParse
  import Scraper
  import ToolAnalyzer

  // ---------------------------------------------------------------- URL input

  predicate NonEmpty(u: string) {
    |u| > 0
  }

  /** `[u.strip() for u in tokens]` */
  function StripEach(tokens: seq<string>): (r: seq<string>)
    ensures |r| == |tokens|
  {
    seq(|tokens|, i requires 0 <= i < |tokens| => Strip(tokens[i]))
  }

  /**
   * The URL line as the driver reads it: commas become spaces, the line is
   * split on whitespace, and each token is stripped and kept when non-empty.
   * Every URL is a non-empty run of non-whitespace without a comma.
   */
  function SplitUrls(input: string): (r: seq<string>)
    ensures forall i :: 0 <= i < |r| ==> IsWord(r[i]) && ',' !in r[i]
  {
    var spaced := ReplaceChar(input, ',', ' ');
    var tokens := Words(spaced);
    WordsAvoid(spaced, ',');
    StripWords(tokens);
    FilterAll(tokens, NonEmpty);
    Filter(StripEach(tokens), NonEmpty)
  }

  /** Stripping a word changes nothing. */
  lemma StripWords(tokens: seq<string>)
    requires forall i :: 0 <= i < |tokens| ==> IsWord(tokens[i])
    ensures StripEach(tokens) == tokens
  {
    forall i | 0 <= i < |tokens|
      ensures StripEach(tokens)[i] == tokens[i]
    {
      StripUnchanged(tokens[i]);
    }
  }

  /** The strip and the emptiness test of the comprehension never change what `split()` produced. */
  lemma SplitUrlsIsSplit(input: string)
    ensures SplitUrls(input) == Words(ReplaceChar(input, ',', ' '))
  {
    var tokens := Words(ReplaceChar(input, ',', ' '));
    StripWords(tokens);
    FilterAll(tokens, NonEmpty);
  }

  /** What may stand between two URLs on the input line: whitespace and commas, at least one character. */
  predicate IsSeparator(sep: string) {
    |sep| > 0 && forall i :: 0 <= i < |sep| ==> IsSpace(sep[i]) || sep[i] == ','
  }

  lemma ReplaceCharAppend(a: string, b: string, x: char, y: char)
    ensures ReplaceChar(a + b, x, y) == ReplaceChar(a, x, y) + ReplaceChar(b, x, y)
  {
    var l := ReplaceChar(a + b, x, y);
    var ra, rb := ReplaceChar(a, x, y), ReplaceChar(b, x, y);
    assert |l| == |ra + rb|;
    forall i | 0 <= i < |l|
      ensures l[i] == (ra + rb)[i]
    {
      if i < |a| {
        assert (a + b)[i] == a[i] && (ra + rb)[i] == ra[i];
      } else {
        assert (a + b)[i] == b[i - |a|] && (ra + rb)[i] == rb[i - |a|];
      }
    }
  }

  /** Replacing a character the parts lack only touches the separators. */
  lemma {:induction false} ReplaceCharJoin(parts: seq<string>, sep: string, x: char, y: char)
    requires forall i :: 0 <= i < |parts| ==> x !in parts[i]
    ensures ReplaceChar(JoinWith(parts, sep), x, y) == JoinWith(parts, ReplaceChar(sep, x, y))
    decreases |parts|
  {
    if |parts| == 1 {
      ReplaceCharAbsent(parts[0], x, y);
    } else if |parts| > 1 {
      var rest := JoinWith(parts[1..], sep);
      assert JoinWith(parts, sep) == parts[0] + sep + rest;
      ReplaceCharAppend(parts[0] + sep, rest, x, y);
      ReplaceCharAppend(parts[0], sep, x, y);
      ReplaceCharAbsent(parts[0], x, y);
      ReplaceCharJoin(parts[1..], sep, x, y);
    }
  }

  /**
   * URLs written on one line with any mix of whitespace and commas between
   * them are read back one for one, in order.
   */
  lemma SplitUrlsJoin(urls: seq<string>, sep: string)
    requires IsSeparator(sep)
    requires forall i :: 0 <= i < |urls| ==> IsWord(urls[i]) && ',' !in urls[i]
    ensures SplitUrls(JoinWith(urls, sep)) == urls
  {
    var spaced := ReplaceChar(sep, ',', ' ');
    assert AllSpace(spaced);
    ReplaceCharJoin(urls, sep, ',', ' ');
    WordsOfJoin(urls, spaced);
    SplitUrlsIsSplit(JoinWith(urls, sep));
  }

  // -------------------------------------------------------------- domain set

  /**
   * `set(f"{scheme}://{netloc}" for u in urls)`: the distinct roots, or the
   * error `urlparse` raises on a malformed authority.
   */
  function Domains(urls: seq<string>): (r: Result<set<string>>)
    ensures r.Ok? <==> forall i :: 0 <= i < |urls| ==> UrlParse.Origin(urls[i]).Some?
    ensures r.Raised? ==> r.msg == UrlParse.InvalidIpv6
  {
    var origins :- UrlParse.Origins(urls);
    Ok(set d | d in origins)
  }

  /** A domain is in the set exactly when some input URL has it as its root. */
  lemma DomainsMembership(urls: seq<string>, d: string)
    requires Domains(urls).Ok?
    ensures d in Domains(urls).value <==> exists i :: 0 <= i < |urls| && UrlParse.Origin(urls[i]) == Some(d)
  {
    var origins := UrlParse.Origins(urls).value;
    if d in Domains(urls).value {
      var i :| 0 <= i < |origins| && origins[i] == d;
      assert UrlParse.Origin(urls[i]) == Some(d);
    }
  }

  /**
   * `list(set(...))`: the loop visits each domain once, in an order the
   * set chooses.
   */
  ghost predicate Enumerates(order: seq<string>, s: set<string>) {
    NoDuplicates(order) && (forall d :: d in order <==> d in s)
  }

  // ----------------------------------------------------------------- oracles

  /**
   * The outside world of one crawl. `page` is the browser's extracted text
   * of a URL (`None` when loading raised); `homepage` is what the homepage
   * link crawler returns; the replies are the decoded model answers for a
   * URL and the text sent with it.
   */
  datatype Web = Web(
    get: string -> Scraper.Http,
    homepage: string -> seq<string>,
    page: string -> Option<string>,
    deepReply: (string, string) -> JsonReply,
    pricingReply: (string, string) -> JsonReply)

  // ---------------------------------------------------------------- discovery

  /**
   * The sitemap part of discovery: the list `parse_sitemap_urls` gives for
   * non-empty content, expanded through the children when it is an index;
   * nothing when no sitemap answered or its body was empty.
   */
  function SitemapUrls(domain: string, get: string -> Scraper.Http): (r: seq<Option<string>>)
    ensures HasMissing(r) ==> var doc := Scraper.FetchSitemap(domain, get).0;
                              doc.Some? && Scraper.ParseSitemapUrls(doc.value).isIndex
    ensures var doc := Scraper.FetchSitemap(domain, get).0;
            && (doc.None? || doc.value.EmptyBody? ==> r == [])
            && (doc.Some? && !doc.value.EmptyBody? ==>
                  var listed := Scraper.ParseSitemapUrls(doc.value);
                  && (listed.isIndex ==> r == Scraper.FetchMultipleSitemaps(listed.urls, get))
                  && (!listed.isIndex ==> r == listed.urls))
  {
    match Scraper.FetchSitemap(domain, get).0
    case None => []
    case Some(doc) =>
      if doc.EmptyBody? then []
      else
        var listed := Scraper.ParseSitemapUrls(doc);
        if listed.isIndex then Scraper.FetchMultipleSitemaps(listed.urls, get)
        else
          assert !HasMissing(listed.urls) by {
            forall i | 0 <= i < |listed.urls|
              ensures listed.urls[i].Some?
            {
            }
          }
          listed.urls
  }

  /** The URLs the crawl works on: the sitemap's, or the homepage links when the sitemap gave none. */
  function Discover(domain: string, get: string -> Scraper.Http, homepage: string -> seq<string>): (r: seq<Option<string>>)
    ensures |r| == 0 ==> |homepage(domain)| == 0
    ensures HasMissing(r) ==> var doc := Scraper.FetchSitemap(domain, get).0;
                              doc.Some? && Scraper.ParseSitemapUrls(doc.value).isIndex
  {
    var found := SitemapUrls(domain, get);
    if |found| > 0 then found else Scraper.Somes(homepage(domain))
  }

  /** The homepage crawler is consulted only when the sitemap gave nothing. */
  lemma HomepageOnlyAsFallback(domain: string, get: string -> Scraper.Http, h1: string -> seq<string>, h2: string -> seq<string>)
    ensures |SitemapUrls(domain, get)| > 0 || h1(domain) == h2(domain) ==>
              Discover(domain, get, h1) == Discover(domain, get, h2)
  {
  }

  /**
   * When the sitemap gave no URL (none answered, its body was empty, or it
   * listed none) the crawl works on exactly the homepage links.
   */
  lemma NoSitemapUsesHomepage(domain: string, get: string -> Scraper.Http, homepage: string -> seq<string>)
    requires |SitemapUrls(domain, get)| == 0
    ensures Discover(domain, get, homepage) == Scraper.Somes(homepage(domain))
  {
  }

  // --------------------------------------------------------------- deep scans

  /** The most case-study and pricing pages scanned per domain. */
  const MaxCaseScans := 2
  const MaxPricingScans := 3

  /** An entry of `scanned_case_studies`. */
  datatype CaseEntry = CaseEntry(url: string, isGov: string, summary: Json)

  /** An entry of `pricing_info`. */
  datatype PricingEntry = PricingEntry(url: string, pricingModel: Json, startingPrice: Json, details: Json)

  /**
   * One case-study page: scraped, deep-scanned when the text is non-empty,
   * and recorded when the scan returned its object.
   */
  function CaseOf(url: string, web: Web): (r: Option<CaseEntry>)
    ensures r.Some? ==> r.value.url == url && (r.value.isGov == "YES" || r.value.isGov == "NO")
    ensures r.Some? ==> exists s :: r.value.summary == JStr(s) && s == ToolAnalyzer.CleanText(s)
    ensures r.Some? ==> |Scraper.ScrapeSite(web.page(url))| > 0
    ensures var text := Scraper.ScrapeSite(web.page(url));
            var reply := web.deepReply(url, text);
            && (r.Some? <==> |text| > 0 && ToolAnalyzer.DeepScanPage(reply).Some?)
            && (r.Some? ==> && reply.Decoded? && reply.value.JObj?
                            && ToolAnalyzer.CleanJson(Get(reply.value.fields, "analysis", JStr(""))).Some?
                            && r.value.summary
                               == JStr(ToolAnalyzer.CleanJson(Get(reply.value.fields, "analysis", JStr(""))).value))
  {
    var text := Scraper.ScrapeSite(web.page(url));
    if |text| == 0 then None
    else
      match ToolAnalyzer.DeepScanPage(web.deepReply(url, text))
      case None => None
      case Some(fields) =>
        var isGov := if Truthy(Get(fields, "has_government_mention", JNull)) then "YES" else "NO";
        Some(CaseEntry(url, isGov, Get(fields, "analysis", JStr("No summary"))))
  }

  /**
   * `is_gov` reads the model's own flag: the scan rewrites only the
   * analysis, so the flag is "YES" exactly when the decoded reply's
   * `has_government_mention` is truthy.
   */
  lemma CaseFlagFromReply(url: string, web: Web)
    requires CaseOf(url, web).Some?
    ensures var reply := web.deepReply(url, Scraper.ScrapeSite(web.page(url)));
            && reply.Decoded? && reply.value.JObj?
            && (CaseOf(url, web).value.isGov == "YES" <==>
                  Truthy(Get(reply.value.fields, "has_government_mention", JNull)))
  {
    var text := Scraper.ScrapeSite(web.page(url));
    var reply := web.deepReply(url, text);
    var fields := ToolAnalyzer.DeepScanPage(reply).value;
    var a := ToolAnalyzer.CleanJson(Get(reply.value.fields, "analysis", JStr(""))).value;
    assert fields == Set(reply.value.fields, "analysis", JStr(a));
    SetKeepsOthers(reply.value.fields, "analysis", JStr(a), "has_government_mention");
  }

  /** Recording the first page's entry before the rest keeps every entry tied to its page. */
  lemma CaseEntriesCons(urls: seq<string>, e: CaseEntry, rest: seq<CaseEntry>, web: Web)
    requires |urls| > 0 && CaseOf(urls[0], web) == Some(e)
    requires forall k :: 0 <= k < |rest| ==> rest[k].url in urls[1..] && CaseOf(rest[k].url, web) == Some(rest[k])
    ensures forall k :: 0 <= k < |[e] + rest| ==> ([e] + rest)[k].url in urls && CaseOf(([e] + rest)[k].url, web) == Some(([e] + rest)[k])
  {
    assert e.url == urls[0];
    forall k | 0 <= k < |rest|
      ensures rest[k].url in urls
    {
      assert rest[k].url in urls[1..];
    }
  }

  /** The case-study loop: the pages that yielded an entry, in order. */
  function ScanCases(urls: seq<string>, web: Web): (r: seq<CaseEntry>)
    ensures |r| <= |urls|
    ensures forall k :: 0 <= k < |r| ==> r[k].url in urls && CaseOf(r[k].url, web) == Some(r[k])
    decreases |urls|
  {
    if |urls| == 0 then []
    else
      var rest := ScanCases(urls[1..], web);
      match CaseOf(urls[0], web)
      case Some(e) => CaseEntriesCons(urls, e, rest, web); [e] + rest
      case None => rest
  }

  /** The pages whose case-study step yields an entry. */
  function CaseYields(web: Web): string -> bool {
    u => CaseOf(u, web).Some?
  }

  /** `e` is recorded for page `u`. */
  function CaseFor(): (string, CaseEntry) -> bool {
    (u, e: CaseEntry) => e.url == u
  }

  /**
   * The loop appends in list order: its entries are, one for one, for the
   * pages that yield one, in the order (and with the repetitions) of the URL
   * list; each entry is the one its page yields (`ScanCases`).
   */
  lemma {:induction false} ScanCasesInOrder(urls: seq<string>, web: Web)
    ensures var r := ScanCases(urls, web);
            var pages := Filter(urls, CaseYields(web));
            && |r| == |pages|
            && forall k :: 0 <= k < |r| ==> r[k].url == pages[k]
    decreases |urls|
  {
    if |urls| > 0 {
      var p := CaseYields(web);
      ScanCasesInOrder(urls[1..], web);
      var rest := ScanCases(urls[1..], web);
      var tail := Filter(urls[1..], p);
      assert forall k :: 0 <= k < |tail| ==> CaseFor()(tail[k], rest[k]);
      assert Filter(urls, p) == (if p(urls[0]) then [urls[0]] else []) + tail;
      assert p(urls[0]) == CaseOf(urls[0], web).Some?;
      if CaseOf(urls[0], web).Some? {
        var e := CaseOf(urls[0], web).value;
        assert ScanCases(urls, web) == [e] + rest;
        assert Filter(urls, p) == [urls[0]] + tail;
        PairedCons(urls[0], e, tail, rest, CaseFor());
      } else {
        assert ScanCases(urls, web) == rest;
        assert Filter(urls, p) == tail;
      }
    }
  }

  /** A page whose scan yields an entry is recorded. */
  lemma {:induction false} ScanCasesComplete(urls: seq<string>, web: Web, u: string)
    requires u in urls && CaseOf(u, web).Some?
    ensures CaseOf(u, web).value in ScanCases(urls, web)
    decreases |urls|
  {
    if urls[0] != u {
      ScanCasesComplete(urls[1..], web, u);
    }
  }

  /**
   * One pricing page: scraped, sent to the pricing extraction when the text
   * is non-empty, and recorded when the extraction is truthy. A truthy
   * result that is not an object has no `get`, and the error escapes.
   */
  function PricingOf(url: string, web: Web): (r: Result<Option<PricingEntry>>)
    ensures r.Ok? && r.value.Some? ==> r.value.value.url == url
    ensures r.Raised? <==> var text := Scraper.ScrapeSite(web.page(url));
                           var details := ToolAnalyzer.ExtractStandardizedPricing(web.pricingReply(url, text));
                           |text| > 0 && Truthy(details) && !details.JObj?
    ensures r.Ok? ==> var text := Scraper.ScrapeSite(web.page(url));
                      var details := ToolAnalyzer.ExtractStandardizedPricing(web.pricingReply(url, text));
                      (r.value.Some? <==> |text| > 0 && Truthy(details))
                      && (r.value.Some? ==> details.JObj?)
  {
    var text := Scraper.ScrapeSite(web.page(url));
    if |text| == 0 then Ok(None)
    else
      var details := ToolAnalyzer.ExtractStandardizedPricing(web.pricingReply(url, text));
      if !Truthy(details) then Ok(None)
      else
        match GetAttr(details, "pricing_model", JStr("Unsure"))
        case Raised(m) => Raised(m)
        case Ok(pricingModel) =>
          Ok(Some(PricingEntry(url, pricingModel,
                               Get(details.fields, "starting_price", JStr("Unsure")),
                               Get(details.fields, "details", JStr("")))))
  }

  /**
   * The recorded entry carries the reply's own fields, and "Unsure" for a
   * pricing model or starting price the reply does not name; the extraction
   * asks the model for a starting price but never for a pricing model.
   */
  lemma PricingFields(url: string, web: Web)
    requires PricingOf(url, web).Ok? && PricingOf(url, web).value.Some?
    ensures var reply := web.pricingReply(url, Scraper.ScrapeSite(web.page(url)));
            var e := PricingOf(url, web).value.value;
            && reply.Decoded? && reply.value.JObj? && |reply.value.fields| > 0
            && (Lookup(reply.value.fields, "pricing_model").None? ==> e.pricingModel == JStr("Unsure"))
            && (Lookup(reply.value.fields, "pricing_model").Some? ==> e.pricingModel == Lookup(reply.value.fields, "pricing_model").value)
            && (Lookup(reply.value.fields, "starting_price").None? ==> e.startingPrice == JStr("Unsure"))
            && (Lookup(reply.value.fields, "starting_price").Some? ==> e.startingPrice == Lookup(reply.value.fields, "starting_price").value)
            && (Lookup(reply.value.fields, "details").None? ==> e.details == JStr(""))
            && (Lookup(reply.value.fields, "details").Some? ==> e.details == Lookup(reply.value.fields, "details").value)
  {
  }

  /** The pricing loop: entries in order; the first escaping error ends it. */
  function ScanPricing(urls: seq<string>, web: Web): (r: Result<seq<PricingEntry>>)
    ensures r.Ok? <==> forall i :: 0 <= i < |urls| ==> PricingOf(urls[i], web).Ok?
    ensures r.Ok? ==> |r.value| <= |urls| && forall k :: 0 <= k < |r.value| ==> r.value[k].url in urls
    ensures r.Ok? ==> forall k :: 0 <= k < |r.value| ==> PricingOf(r.value[k].url, web) == Ok(Some(r.value[k]))
    ensures r.Raised? ==> exists i :: 0 <= i < |urls| && PricingOf(urls[i], web) == Raised(r.msg)
    decreases |urls|
  {
    if |urls| == 0 then Ok([])
    else
      match PricingOf(urls[0], web)
      case Raised(m) => Raised(m)
      case Ok(entry) =>
        match ScanPricing(urls[1..], web)
        case Raised(m) =>
          assert forall i :: 0 <= i < |urls| - 1 ==> urls[1..][i] == urls[i + 1];
          Raised(m)
        case Ok(rest) =>
          assert forall i :: 0 <= i < |urls| - 1 ==> urls[1..][i] == urls[i + 1];
          PricingEntriesCons(urls, entry, rest, web);
          Ok((if entry.Some? then [entry.value] else []) + rest)
  }

  /** Recording the first page's entry, if any, before the rest keeps every entry tied to its page. */
  lemma PricingEntriesCons(urls: seq<string>, entry: Option<PricingEntry>, rest: seq<PricingEntry>, web: Web)
    requires |urls| > 0 && PricingOf(urls[0], web) == Ok(entry) && |rest| <= |urls| - 1
    requires forall k :: 0 <= k < |rest| ==> rest[k].url in urls[1..] && PricingOf(rest[k].url, web) == Ok(Some(rest[k]))
    ensures var out := (if entry.Some? then [entry.value] else []) + rest;
            && |out| <= |urls|
            && forall k :: 0 <= k < |out| ==> out[k].url in urls && PricingOf(out[k].url, web) == Ok(Some(out[k]))
  {
    var out := (if entry.Some? then [entry.value] else []) + rest;
    if entry.Some? {
      assert entry.value.url == urls[0];
    }
    forall k | 0 <= k < |rest|
      ensures rest[k].url in urls
    {
      assert rest[k].url in urls[1..];
    }
  }

  /** The pages whose pricing step records an entry. */
  function PricingYields(web: Web): string -> bool {
    u => PricingOf(u, web).Ok? && PricingOf(u, web).value.Some?
  }

  /**
   * A successful pricing loop appends in list order: its entries are, one
   * for one, those of the pages that record one, in the order (and with the
   * repetitions) of the URL list.
   */
  lemma {:induction false} ScanPricingInOrder(urls: seq<string>, web: Web)
    ensures ScanPricing(urls, web).Ok? ==>
              var r := ScanPricing(urls, web).value;
              var pages := Filter(urls, PricingYields(web));
              && |r| == |pages|
              && forall k :: 0 <= k < |r| ==> PricingOf(pages[k], web) == Ok(Some(r[k]))
    decreases |urls|
  {
    if |urls| > 0 && ScanPricing(urls, web).Ok? {
      var p := PricingYields(web);
      ScanPricingInOrder(urls[1..], web);
      var entry := PricingOf(urls[0], web).value;
      var rest := ScanPricing(urls[1..], web).value;
      var tail := Filter(urls[1..], p);
      assert Filter(urls, p) == (if p(urls[0]) then [urls[0]] else []) + tail;
      assert p(urls[0]) == entry.Some?;
      if entry.Some? {
        assert ScanPricing(urls, web).value == [entry.value] + rest;
        assert Filter(urls, p) == [urls[0]] + tail;
      } else {
        assert ScanPricing(urls, web).value == rest;
      }
    }
  }

  /** Page `i` is the first, in list order, whose pricing step raised, and it raised `msg`. */
  predicate FirstRaisedAt(urls: seq<string>, web: Web, i: int, msg: string) {
    && 0 <= i < |urls| && PricingOf(urls[i], web) == Raised(msg)
    && forall j :: 0 <= j < i ==> PricingOf(urls[j], web).Ok?
  }

  /**
   * A failed pricing loop raises the error of the first page, in list
   * order, whose step raised: every earlier page's step succeeded.
   */
  lemma {:induction false} ScanPricingFirstError(urls: seq<string>, web: Web)
    ensures ScanPricing(urls, web).Raised? ==> exists i :: FirstRaisedAt(urls, web, i, ScanPricing(urls, web).msg)
    decreases |urls|
  {
    if |urls| > 0 && ScanPricing(urls, web).Raised? {
      var m := ScanPricing(urls, web).msg;
      if PricingOf(urls[0], web).Raised? {
        assert FirstRaisedAt(urls, web, 0, m);
      } else {
        assert ScanPricing(urls[1..], web) == Raised(m);
        ScanPricingFirstError(urls[1..], web);
        var i :| FirstRaisedAt(urls[1..], web, i, m);
        FirstRaisedShift(urls, web, i, m);
      }
    }
  }

  /** A first failure in the tail, after a first page that succeeded, is the first failure of the whole list. */
  lemma FirstRaisedShift(urls: seq<string>, web: Web, i: int, msg: string)
    requires |urls| > 0 && PricingOf(urls[0], web).Ok? && FirstRaisedAt(urls[1..], web, i, msg)
    ensures FirstRaisedAt(urls, web, i + 1, msg)
  {
    forall j | 0 <= j < i + 1
      ensures PricingOf(urls[j], web).Ok?
    {
      if j > 0 {
        assert urls[j] == urls[1..][j - 1];
      }
    }
    assert urls[i + 1] == urls[1..][i];
  }

  /** A page whose pricing step yields an entry is recorded when the loop succeeds. */
  lemma {:induction false} ScanPricingComplete(urls: seq<string>, web: Web, u: string)
    requires u in urls
    ensures ScanPricing(urls, web).Ok? && PricingOf(u, web).Ok? && PricingOf(u, web).value.Some? ==>
              PricingOf(u, web).value.value in ScanPricing(urls, web).value
    decreases |urls|
  {
    if urls[0] != u {
      assert u in urls[1..];
      ScanPricingComplete(urls[1..], web, u);
    }
  }

  // ------------------------------------------------------------- domain step

  /** `domain_result` as appended to the checkpoint. */
  datatype DomainResult = DomainResult(
    domain: string,
    totalUrls: nat,
    scannedCaseStudies: seq<CaseEntry>,
    pricingInfo: seq<PricingEntry>)

  /** A row of the deep-crawl summary table. */
  datatype SummaryRow = SummaryRow(
    domain: string,
    totalUrls: nat,
    caseStudiesFound: nat,
    verifiedCaseStudies: string,
    pricingPages: nat,
    pricingInfo: string)

  /**
   * `f"[{is_gov}] {url} - {summary}"`: the flag in brackets leads, the
   * summary's text trails.
   */
  function CaseLine(c: CaseEntry): (r: string)
    ensures |r| == |c.isGov| + |c.url| + |Show(c.summary)| + 6
    ensures r[0] == '[' && r[1..|c.isGov| + 1] == c.isGov && r[|c.isGov| + 1..|c.isGov| + 3] == "] "
    ensures r[|c.isGov| + 3..|c.isGov| + 3 + |c.url|] == c.url
    ensures r[|r| - |Show(c.summary)|..] == Show(c.summary)
  {
    "[" + c.isGov + "] " + c.url + " - " + Show(c.summary)
  }

  /** `f"{pricing_model} ({starting_price})"`: the model leads, the price follows in parentheses. */
  function PricingLine(p: PricingEntry): (r: string)
    ensures |r| == |Show(p.pricingModel)| + |Show(p.startingPrice)| + 3
    ensures r[..|Show(p.pricingModel)|] == Show(p.pricingModel)
    ensures r[|Show(p.pricingModel)|..|Show(p.pricingModel)| + 2] == " ("
    ensures r[|r| - 1 - |Show(p.startingPrice)|..|r| - 1] == Show(p.startingPrice) && r[|r| - 1] == ')'
  {
    Show(p.pricingModel) + " (" + Show(p.startingPrice) + ")"
  }

  /** The case-study lines of a domain, in scan order. */
  function CaseLines(cs: seq<CaseEntry>): (r: seq<string>)
    ensures |r| == |cs|
  {
    seq(|cs|, i requires 0 <= i < |cs| => CaseLine(cs[i]))
  }

  /** The pricing lines of a domain, in scan order. */
  function PricingLines(ps: seq<PricingEntry>): (r: seq<string>)
    ensures |r| == |ps|
  {
    seq(|ps|, i requires 0 <= i < |ps| => PricingLine(ps[i]))
  }

  /**
   * One domain of the crawl: discovery, classification, the capped deep
   * scans, the result appended to the checkpoint and the summary row. A
   * missing URL text (from an index child) or a non-object pricing result
   * raises, and nothing inside the loop catches it.
   */
  function CrawlDomain(domain: string, web: Web): (r: Result<(DomainResult, SummaryRow)>)
    ensures var urls := Discover(domain, web.get, web.homepage);
            && (HasMissing(urls) ==> r == Raised(Scraper.NoneLowerError))
            && (r.Ok? ==> && r.value.0.domain == domain && r.value.1.domain == domain
                          && r.value.0.totalUrls == |urls| && r.value.1.totalUrls == |urls|)
            && (r.Ok? ==> var present := Present(urls);
                          && r.value.1.caseStudiesFound == |Filter(present, Scraper.IsCaseStudyUrl)|
                          && r.value.1.pricingPages == |Filter(present, Scraper.IsPricingUrl)|)
    ensures r.Ok? ==> && |r.value.0.scannedCaseStudies| <= MaxCaseScans
                      && |r.value.0.pricingInfo| <= MaxPricingScans
                      && |r.value.0.scannedCaseStudies| <= r.value.1.caseStudiesFound
                      && |r.value.0.pricingInfo| <= r.value.1.pricingPages
  {
    var urls := Discover(domain, web.get, web.homepage);
    if HasMissing(urls) then Raised(Scraper.NoneLowerError)
    else
      var filtered := Scraper.FilterRelevantPages(Present(urls));
      var cases := ScanCases(Front(filtered.caseStudies, MaxCaseScans), web);
      match ScanPricing(Front(filtered.pricing, MaxPricingScans), web)
      case Raised(m) => Raised(m)
      case Ok(pricing) =>
        var result := DomainResult(domain, |urls|, cases, pricing);
        var row := SummaryRow(domain, |urls|, |filtered.caseStudies|, JoinWith(CaseLines(cases), " || "),
                              |filtered.pricing|, JoinWith(PricingLines(pricing), " || "));
        Ok((result, row))
  }

  /**
   * The summary row's text columns join the lines of the scans the domain
   * result holds, in scan order, with " || ".
   */
  lemma CrawlDomainSummary(domain: string, web: Web)
    ensures CrawlDomain(domain, web).Ok? ==>
              var res := CrawlDomain(domain, web).value.0;
              var row := CrawlDomain(domain, web).value.1;
              && row.verifiedCaseStudies == JoinWith(CaseLines(res.scannedCaseStudies), " || ")
              && row.pricingInfo == JoinWith(PricingLines(res.pricingInfo), " || ")
  {
  }

  /**
   * When a domain's step succeeds and what it holds: it raises exactly when
   * a collected URL has no text or the pricing loop raises, with the pricing
   * loop's error in the latter case; otherwise the scans are the case-study
   * loop over the first two case-study URLs and the pricing loop over the
   * first three pricing URLs.
   */
  lemma CrawlDomainOutcome(domain: string, web: Web)
    ensures var urls := Discover(domain, web.get, web.homepage);
            var r := CrawlDomain(domain, web);
            && (HasMissing(urls) ==> r.Raised?)
            && (!HasMissing(urls) ==>
                  var prices := ScanPricing(Front(Filter(Present(urls), Scraper.IsPricingUrl), MaxPricingScans), web);
                  && (r.Raised? <==> prices.Raised?)
                  && (prices.Raised? ==> r == Raised(prices.msg))
                  && (r.Ok? ==> && r.value.0.scannedCaseStudies
                                     == ScanCases(Front(Filter(Present(urls), Scraper.IsCaseStudyUrl), MaxCaseScans), web)
                                && prices == Ok(r.value.0.pricingInfo)))
  {
    var urls := Discover(domain, web.get, web.homepage);
    if !HasMissing(urls) {
      var filtered := Scraper.FilterRelevantPages(Present(urls));
      assert filtered.caseStudies == Filter(Present(urls), Scraper.IsCaseStudyUrl);
      assert filtered.pricing == Filter(Present(urls), Scraper.IsPricingUrl);
    }
  }

  /**
   * Every scanned case study is among the domain's first two case-study
   * URLs and every pricing entry among its first three pricing URLs.
   */
  lemma ScansWithinFront(domain: string, web: Web)
    ensures CrawlDomain(domain, web).Ok? ==>
            var urls := Present(Discover(domain, web.get, web.homepage));
            var res := CrawlDomain(domain, web).value.0;
            && (forall k :: 0 <= k < |res.scannedCaseStudies| ==>
                  res.scannedCaseStudies[k].url in Front(Filter(urls, Scraper.IsCaseStudyUrl), MaxCaseScans))
            && (forall k :: 0 <= k < |res.pricingInfo| ==>
                  res.pricingInfo[k].url in Front(Filter(urls, Scraper.IsPricingUrl), MaxPricingScans))
  {
  }

  // -------------------------------------------------------- checkpoint loop

  /** The checkpoint record: `completed_domains`, `total_domains`, `results`. */
  datatype Checkpoint = Checkpoint(completedDomains: nat, totalDomains: nat, results: seq<DomainResult>)

  /**
   * The crawl loop's state after some domains: the current checkpoint, every
   * checkpoint saved so far, the summary rows, and the error that ended the
   * loop, if one did.
   */
  datatype Crawl = Crawl(checkpoint: Checkpoint, saves: seq<Checkpoint>, rows: seq<SummaryRow>, error: Option<string>)

  /**
   * The loop over the first `n` domains of `order`, with `step` the outcome
   * of one domain: each success appends the result, counts the domain and
   * saves; the first error stops the loop with everything before it kept.
   */
  function CrawlLoop(order: seq<string>, n: nat, step: string -> Result<(DomainResult, SummaryRow)>): (r: Crawl)
    requires n <= |order|
    ensures |r.saves| <= n
    ensures r.checkpoint.totalDomains == |order|
    ensures r.checkpoint.completedDomains == |r.checkpoint.results| == |r.saves| == |r.rows|
    ensures forall k :: 0 <= k < |r.saves| ==>
              && r.saves[k].completedDomains == k + 1 == |r.saves[k].results|
              && r.saves[k].totalDomains == |order|
              && r.saves[k].results == r.checkpoint.results[..k + 1]
    ensures forall k :: 0 <= k < |r.saves| ==>
              step(order[k]).Ok? && r.checkpoint.results[k] == step(order[k]).value.0
              && r.rows[k] == step(order[k]).value.1
    ensures r.error.None? <==> |r.saves| == n
    ensures r.error.Some? ==> |r.saves| < n && step(order[|r.saves|]) == Raised(r.error.value)
    decreases n
  {
    if n == 0 then Crawl(Checkpoint(0, |order|, []), [], [], None)
    else
      var prev := CrawlLoop(order, n - 1, step);
      if prev.error.Some? then prev
      else
        match step(order[n - 1])
        case Raised(m) => prev.(error := Some(m))
        case Ok((result, row)) =>
          var cp := Checkpoint(prev.checkpoint.completedDomains + 1, prev.checkpoint.totalDomains,
                               prev.checkpoint.results + [result]);
          assert forall k :: 0 <= k < |prev.saves| ==> prev.saves[k].results == cp.results[..k + 1];
          Crawl(cp, prev.saves + [cp], prev.rows + [row], None)
  }

  /**
   * No isolation between domains: the loop stops at the first domain whose
   * step raises, after exactly the domains before it were saved.
   */
  lemma {:induction false} StopsAtFirstError(order: seq<string>, n: nat, step: string -> Result<(DomainResult, SummaryRow)>, k: nat)
    requires k < n <= |order|
    requires step(order[k]).Raised?
    requires forall j :: 0 <= j < k ==> step(order[j]).Ok?
    ensures CrawlLoop(order, n, step).error == Some(step(order[k]).msg)
    ensures |CrawlLoop(order, n, step).saves| == k
    decreases n
  {
    if n - 1 > k {
      StopsAtFirstError(order, n - 1, step, k);
    }
  }

  /** `CrawlOne(web)` is the step of the driver's loop. */
  function CrawlOne(web: Web): string -> Result<(DomainResult, SummaryRow)> {
    d => CrawlDomain(d, web)
  }

  /**
   * The crawl stage: the domain set, visited in `order` (an enumeration of
   * it), each domain crawled in turn. A malformed URL raises before the
   * checkpoint exists.
   */
  function DeepCrawl(urls: seq<string>, order: seq<string>, web: Web): (r: Result<Crawl>)
    requires Domains(urls).Ok? ==> Enumerates(order, Domains(urls).value)
    ensures r.Ok? <==> Domains(urls).Ok?
    ensures r.Ok? ==> r.value == CrawlLoop(order, |order|, CrawlOne(web))
  {
    match Domains(urls)
    case Raised(m) => Raised(m)
    case Ok(_) => Ok(CrawlLoop(order, |order|, CrawlOne(web)))
  }

  /**
   * Every saved checkpoint counts exactly the results it holds, out of the
   * number of distinct domains, and each save extends the one before.
   */
  lemma DeepCrawlCheckpoints(urls: seq<string>, order: seq<string>, web: Web)
    requires Domains(urls).Ok? && Enumerates(order, Domains(urls).value)
    ensures var c := DeepCrawl(urls, order, web).value;
            && (forall k :: 0 <= k < |c.saves| ==>
                  && c.saves[k].completedDomains == |c.saves[k].results|
                  && c.saves[k].totalDomains == |Domains(urls).value|)
            && (forall k :: 0 < k < |c.saves| ==> c.saves[k - 1].results <= c.saves[k].results)
  {
    var c := DeepCrawl(urls, order, web).value;
    EnumerationSize(order, Domains(urls).value);
    forall k | 0 < k < |c.saves|
      ensures c.saves[k - 1].results <= c.saves[k].results
    {
      assert c.saves[k - 1].results == c.checkpoint.results[..k];
      assert c.saves[k].results == c.checkpoint.results[..k + 1];
    }
  }

  lemma {:induction false} EnumerationSize(order: seq<string>, s: set<string>)
    requires Enumerates(order, s)
    ensures |order| == |s|
    decreases |order|
  {
    if |order| > 0 {
      var x := order[|order| - 1];
      var init := order[..|order| - 1];
      assert x !in init by {
        forall j | 0 <= j < |init|
          ensures init[j] != x
        {
          assert init[j] == order[j];
        }
      }
      assert Enumerates(init, s - {x}) by {
        forall i, j | 0 <= i < j < |init|
          ensures init[i] != init[j]
        {
          assert init[i] == order[i] && init[j] == order[j];
        }
        forall d
          ensures d in init <==> d in s - {x}
        {
          assert d in order <==> d in init || d == x by {
            assert order == init + [x];
          }
        }
      }
      EnumerationSize(init, s - {x});
    }
  }

  // ---------------------------------------------------------- feature stage

  /** A row of the feature table: column name to cell. */
  type Row = map<string, Json>

  /** `{'URL': url}` updated with the answers, then the reasons. */
  function FeatureRow(url: string, v: Verdicts<string>): (r: Row)
    ensures r.Keys == {"URL"} + v.answers.Keys + v.reasons.Keys
    ensures forall k :: k in v.reasons ==> r[k] == JStr(v.reasons[k])
    ensures forall k :: k in v.answers && k !in v.reasons ==> r[k] == v.answers[k]
    ensures "URL" !in v.answers && "URL" !in v.reasons ==> r["URL"] == JStr(url)
  {
    map["URL" := JStr(url)] + v.answers + (map k | k in v.reasons :: JStr(v.reasons[k]))
  }

  /** `{'URL': url, **{f: "Error" for f in feature_names}}` */
  function ErrorRow(url: string, features: seq<string>): (r: Row)
    ensures r.Keys == {"URL"} + (set f | f in features)
  {
    map["URL" := JStr(url)] + (map f | f in features :: JStr("Error"))
  }

  /** The feature stage: one row per input URL, analysed when its scrape is non-empty. */
  function FeatureStage(urls: seq<string>, features: seq<string>,
                        page: string -> Option<string>, reply: (string, string) -> JsonReply): (r: seq<Row>)
    ensures |r| == |urls|
  {
    seq(|urls|, i requires 0 <= i < |urls| =>
      var text := Scraper.ScrapeSite(page(urls[i]));
      if |text| > 0 then FeatureRow(urls[i], ToolAnalyzer.AnalyzeFeaturesWithAi(features, reply(urls[i], text)))
      else ErrorRow(urls[i], features))
  }

  lemma ReasonKeyNotUrl(f: string)
    ensures ReasonKey(f) != "URL"
  {
    assert |ReasonKey(f)| >= 7;
  }

  /**
   * Every row has the URL column and one column per feature; the reason
   * columns are there when the page scraped and absent when it did not
   * (unless a feature is named like another's reason). The URL cell holds the
   * URL unless a feature is itself named "URL", whose answer overwrites it.
   */
  lemma FeatureStageRows(urls: seq<string>, features: seq<string>,
                         page: string -> Option<string>, reply: (string, string) -> JsonReply, i: nat)
    requires i < |urls|
    ensures var row := FeatureStage(urls, features, page, reply)[i];
            var scraped := |Scraper.ScrapeSite(page(urls[i]))| > 0;
            && "URL" in row
            && (forall f :: f in features ==> f in row)
            && (scraped ==> forall f :: f in features ==> ReasonKey(f) in row)
            && (!scraped ==> forall f :: f in features && ReasonKey(f) !in features ==> ReasonKey(f) !in row)
            && ("URL" !in features ==> row["URL"] == JStr(urls[i]))
            && (!scraped ==> forall f :: f in features ==> row[f] == JStr("Error"))
  {
    var text := Scraper.ScrapeSite(page(urls[i]));
    var row := FeatureStage(urls, features, page, reply)[i];
    if |text| > 0 {
      var v := ToolAnalyzer.AnalyzeFeaturesWithAi(features, reply(urls[i], text));
      assert KeyedBy(v, features);
      forall f | f in features
        ensures ReasonKey(f) in row
      {
        assert ReasonKey(f) in v.reasons.Keys;
      }
      if "URL" !in features {
        assert "URL" !in v.answers;
        assert "URL" !in v.reasons by {
          forall g | g in features
            ensures ReasonKey(g) != "URL"
          {
            ReasonKeyNotUrl(g);
          }
        }
      }
    } else {
      forall f | f in features && ReasonKey(f) !in features
        ensures ReasonKey(f) !in row
      {
        ReasonKeyNotUrl(f);
      }
    }
  }

  // ---------------------------------------------------------- product stage

  /** A row of the product table: the analyzer's row, or the scrape-failure row. */
  datatype ProductEntry = Extracted(row: ToolAnalyzer.ProductRow) | ScrapeFailed(url: string)
  {
    function Url(): string {
      match this
      case Extracted(row) => row.url
      case ScrapeFailed(u) => u
    }

    function ProductName(): string {
      match this
      case Extracted(row) => row.productName
      case ScrapeFailed(_) => "Scrape Failed"
    }
  }

  /** The product stage: one row per input URL, extracted when its scrape is non-empty. */
  function ProductStage(urls: seq<string>, page: string -> Option<string>,
                        identity: (string, string) -> JsonReply, reply: (string, string) -> TextReply): (r: seq<ProductEntry>)
    ensures |r| == |urls|
    ensures forall i :: 0 <= i < |urls| ==> r[i].Url() == urls[i]
  {
    seq(|urls|, i requires 0 <= i < |urls| =>
      var text := Scraper.ScrapeSite(page(urls[i]));
      if |text| > 0 then Extracted(ToolAnalyzer.ExtractProductInfo(urls[i], identity(urls[i], text), reply(urls[i], text)))
      else ScrapeFailed(urls[i]))
  }

  /**
   * A row is the scrape-failure row exactly when the page gave no text, and
   * then its product name is "Scrape Failed"; an extracted row for a URL
   * whose domain hint cannot be formed is the analyzer's error row.
   */
  lemma ProductStageRows(urls: seq<string>, page: string -> Option<string>,
                         identity: (string, string) -> JsonReply, reply: (string, string) -> TextReply, i: nat)
    requires i < |urls|
    ensures var e := ProductStage(urls, page, identity, reply)[i];
            && (e.ScrapeFailed? <==> |Scraper.ScrapeSite(page(urls[i]))| == 0)
            && (e.ScrapeFailed? ==> e.ProductName() == "Scrape Failed")
            && (e.Extracted? && ToolAnalyzer.DomainHint(urls[i]).None? ==> e.row == ToolAnalyzer.ProductError(urls[i]))
            && (e.Extracted? ==> var text := Scraper.ScrapeSite(page(urls[i]));
                                 e.row == ToolAnalyzer.ExtractProductInfo(urls[i], identity(urls[i], text), reply(urls[i], text)))
  {
  }
}

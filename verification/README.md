# Market research tool — a Dafny model of its core

The tool takes a list of vendor URLs and a set of features to look for. It
scrapes each site and asks a language model (Gemini) whether each feature is
offered. It extracts product information, then crawls each vendor domain's
sitemap to find case-study and pricing pages. A few of those pages are scanned
more closely, and the results are saved after every domain.

It comes in two generations, and this project models both:

- **The monolith** `market_research_toolRV2.py`: a throttled, retrying model
  gateway; line-oriented reply parsers for features, products and pricing; and
  the sitemap crawl, with regular-expression page classification and a
  per-domain checkpoint.
- **The modular pipeline** `main.py`, built on `src/scraper.py` and the
  analyzers. The analyzers are `src/analyzer.py` and its successor
  `market-research-tool/src/analyzer.py`, the latter with
  `market-research-tool/src/rate_limiter.py`. The pipeline covers URL input
  splitting, the feature and product stages, and the domain crawl with its
  checkpoint and summary rows.

Everything outside the program is a parameter of the model:

- **HTTP:** a function from URL to response.
- **The browser's extracted text:** a function from URL to `Option<string>`.
- **The model's replies:** a function per prompt kind, returning a text reply,
  a decoded JSON reply, or a raised message.
- **The clock:** explicit readings.

Python exceptions are modelled as `Result.Raised(message)`. JSON values are the
`Json` datatype; a decoded float is the decimal it denotes (`JFloat`). Clock
readings and intervals are `real`.

Modules, in dependency order:

| module | file | what it is |
|---|---|---|
| `Wrappers` | wrappers.dfy | `Option`, `Result` |
| `Strings` | strings.dfy | `lower`, `upper`, `strip`, `split`, `join`, `in` on strings |
| `Seqs` | seqs.dfy | filtering, prefixes, flattening, de-duplication |
| `Json` | json.dfy | JSON values, truthiness, `dict.get`, `repr` |
| `UrlParse` | url_parse.dfy | the `scheme`/`netloc` part of `urllib.parse.urlparse` |
| `LineFields` | line_fields.dfy | how the reply parsers read labelled lines |
| `SitemapXml` | sitemap_xml.dfy | the ElementTree queries the sitemap parsers use |
| `Throttle` | throttle.dfy | `RateLimiter`, `rate_limited`, `rate_limited_sync`, `rate_limited_delay` |
| `Gateway` | gateway.dfy | `api_call_with_retry` |
| `Scraper` | scraper.dfy | `src/scraper.py` |
| `Rv2Extract` | rv2_extract.dfy | the monolith's reply parsers |
| `Rv2Crawl` | rv2_crawl.dfy | the monolith's sitemap crawl and domain loop |
| `FeatureMap` | feature_map.dfy | the answers/reasons loop both analyzer generations share |
| `ToolAnalyzer` | tool_analyzer.dfy | `market-research-tool/src/analyzer.py` |
| `SrcAnalyzer` | src_analyzer.dfy | `src/analyzer.py` |
| `Pipeline` | pipeline.dfy | `main.py` |

**Where the documentation and the code disagree, the model follows the code.**

- **Broken imports in `main.py`.**
  - `main.py` imports `crawl_homepage_links` from `src.scraper`, and
    `extract_company_identity` and `extract_standardized_pricing` from
    `src.analyzer`. None of these is defined in those files, so the script as
    written stops at import.
  - The functions it calls match the signatures in
    `market-research-tool/src/analyzer.py`, and the pipeline is modelled with
    that analyzer (`ToolAnalyzer`).
  - `crawl_homepage_links` is not part of this model. It is the `homepage`
    oracle of `Pipeline.Web`.
- **Crawl failures stop `main.py`'s loop.** The description suggests every
  domain is crawled. In the code, `main.py`'s crawl loop has no `try`, so the
  first exception ends it. The monolith records the failure and goes on.
- **"Government-related" pages.** In the monolith, any URL matching a
  government pattern is "government-related", case study or not. In
  `src/scraper.py`, only case-study URLs can be.
- **The "no" inference.** The monolith's feature verdict treats any "no" within
  the first 50 characters of a reply as a negative answer, even inside a word
  (`Rv2Extract.NoInsideAnyWord`).
- **The quota test.** The retry loop's quota test is a bare substring test.
  Any error mentioning "generate" contains "rate" and is therefore retried
  (`Gateway.GenerateLooksLikeQuota`).

## Model

| member | source | states |
|---|---|---|
| Json.FloatReprOfValue | main.py:210 | a float prints by its value alone: two decimals denoting one number (`29.99`, `29.990`) print alike |
| Json.LookupUniqueIsLast | src/analyzer.py:82-86 | on an object whose keys are unique, as every object `json.loads` returns, the first pair with a key is the last pair with it, which is the value Python keeps |
| Throttle.NewLimiter | market-research-tool/src/rate_limiter.py:9-12 | a limiter's interval times the calls per minute is 60 and it starts with stamp 0; a zero rate raises float division by zero |
| Throttle.Pause | market-research-tool/src/rate_limiter.py:14-24 | the pause is never negative, brings the call to at least one interval after the previous stamp, is exactly that when positive, and is zero when an interval has already passed |
| Throttle.Admit | market-research-tool/src/rate_limiter.py:14-24 | a call starts no earlier than it arrives and at least one interval after the previous stamp, and the limiter is stamped with that start |
| Throttle.AsyncRateLimited | market-research-tool/src/rate_limiter.py:30-36 | the decorated call's result is the wrapped function's at the start time, and the shared limiter is stamped no earlier than the call arrived and one interval after the previous stamp |
| Throttle.SyncRateLimited | market-research-tool/src/rate_limiter.py:38-52 | the synchronous wrapper keeps the shared interval |
| Throttle.WrappersAgree | market-research-tool/src/rate_limiter.py:30-52 | the synchronous and asynchronous wrappers give the same result and leave the shared limiter in the same state |
| Throttle.GeminiLimiterIsTenPerMinute | market-research-tool/src/rate_limiter.py:28 | the shared limiter allows ten calls a minute: a 6 s interval |
| Throttle.ScheduleSpacing | market_research_toolRV2.py:70-80 | over any run of throttled calls, each starts no earlier than it arrives and at least one interval after the previous start, and at once when it arrives late enough |
| Throttle.ScheduleSpan | market_research_toolRV2.py:70-80 | k + 1 throttled calls span at least k intervals |
| Throttle.ScheduleSplit | market_research_toolRV2.py:70-80 | a run of calls split in two is the first part followed by the rest on the limiter the first part left |
| Throttle.FirstCallImmediate | market-research-tool/src/rate_limiter.py:9-24 | a fresh limiter lets the first call through at once when the clock reads at least one interval |
| Gateway.Backoff | market_research_toolRV2.py:93-96 | the sleep after a quota failure is 60·2^attempt capped at 300 s, and never below 60 s |
| Gateway.BackoffSchedule | market_research_toolRV2.py:94 | the sleeps are 60, 120 and 240 s, and 300 s from the fourth failure on |
| Gateway.ApiCallWithRetry | market_research_toolRV2.py:82-103 | the result is the reply of the first attempt that succeeds, fails without a quota hint, or is the last; at most `max_retries` attempts; one backoff per quota failure before the last attempt; each retry reaches the throttle only after the failed call and its backoff sleep, and passes it no earlier than that and one interval after the previous attempt |
| Gateway.NonQuotaRaisedAtOnce | market_research_toolRV2.py:90-101 | an error without a quota hint is re-raised after one attempt |
| Gateway.SucceedsAfterQuotaFailures | market_research_toolRV2.py:84-96 | the first success within the budget is returned when every earlier attempt failed on the quota |
| Gateway.QuotaExhaustionReraisesLast | market_research_toolRV2.py:90-99 | when every attempt fails on the quota, the last error is re-raised after `max_retries` attempts |
| Gateway.NoAttemptsAllowed | market_research_toolRV2.py:84-103 | with no attempts allowed, the catch-all "API call failed after all retries" is raised |
| Gateway.GenerateLooksLikeQuota | market_research_toolRV2.py:91-92 | any message containing "generate" passes the quota test |
| Scraper.ScrapeSite | src/scraper.py:8-27 | the page text is a prefix of the extracted text, at most 30000 characters, the whole text when short enough, and empty on failure |
| Scraper.NormaliseDomain | src/scraper.py:32-34 | the base starts with "http", has no trailing slash, and is the domain, with "https://" in front when it lacked "http", with only trailing slashes removed |
| Scraper.FirstOk | src/scraper.py:46-54 | the chosen candidate is the first answered with status 200; none means no candidate was |
| Scraper.FetchSitemapFirstOk | src/scraper.py:31-56 | the body returned is the first 200-answered candidate's, in the fixed path order, and the base domain is returned either way |
| Scraper.ParseSitemapUrls | src/scraper.py:58-77 | non-index results are present and non-empty, an index result is non-empty, and an unparsable body gives nothing; the page-entry and un-namespaced fallback cases are stated by the two lemmas below |
| Scraper.ParsedUrlsAreLocTexts | src/scraper.py:58-77 | every returned entry is the text of a `loc` element of the document |
| Scraper.IndexFlag | src/scraper.py:64-66 | the index flag holds exactly when some `sitemap` entry has a `loc` child, and the result is then those `loc` texts |
| Scraper.PageEntriesComplete | src/scraper.py:68-74 | without index entries, every page entry's non-empty `loc` text is returned, and nothing from the fallback |
| Scraper.BareLocsComplete | src/scraper.py:71-74 | without index entries or page entries with text, the result is the non-empty texts of every `loc` element in document order, so each such text is returned |
| Scraper.FetchMultipleSitemapsMembership | src/scraper.py:79-92 | an entry of the expansion is exactly an entry listed by a child that answered 200 |
| Scraper.NestedIndexContributesLocs | src/scraper.py:79-92 | a child that is itself an index contributes its `loc` texts as page URLs |
| Scraper.BucketsPreserveOrderAndDuplicates | src/scraper.py:94-108 | each bucket is a subsequence of the input, keeps each URL's multiplicity when it passes, and holds a URL exactly when the URL is in the input and passes the bucket's test |
| Scraper.GovernmentWithinCaseStudies | src/scraper.py:103-106 | every government URL is a case study; the government list is the case-study list filtered |
| Scraper.ClassificationIgnoresCase | src/scraper.py:102 | the classification of a URL does not depend on its letter case |
| Scraper.CaseStudyAndPricing | src/scraper.py:103-108 | a URL mentioning both a case study and pricing lands in both lists |
| UrlParse.ParseComposed | market_research_toolRV2.py:645-646 | a URL built from a scheme, an authority and a path (sections 3.1 and 3.2 of RFC 3986) parses back to the lower-cased scheme and that authority |
| UrlParse.OriginIdempotent | market_research_toolRV2.py:645-646 | taking the domain of a domain changes nothing |
| UrlParse.Origins | main.py:159 | the domains of all URLs, in order; an unbalanced bracket in any authority makes the whole list fail with "Invalid IPv6 URL" (the one `ValueError` of `urlsplit` modelled) |
| Rv2Crawl.FetchSitemap | market_research_toolRV2.py:342-359 | no sitemap exactly when no candidate path answered 200; otherwise the first such candidate's body and address |
| Rv2Crawl.ParseSitemap | market_research_toolRV2.py:361-382 | an unparsable body gives no entries, and index entries all come before page entries |
| Rv2Crawl.ParseSitemapEntries | market_research_toolRV2.py:368-377 | an entry of a kind is exactly the `loc` text of a descendant element with that tag and a `loc` child |
| Rv2Crawl.OfKindMembership | market_research_toolRV2.py:481-496 | selecting entries by kind keeps exactly the texts of the entries of that kind |
| Rv2Crawl.IndexCollectsChildPages | market_research_toolRV2.py:481-494 | an index's URLs are, child by child, the page entries of the first 20 children that answered 200 |
| Rv2Crawl.ChildrenBeyondTwentyIgnored | market_research_toolRV2.py:484 | what children beyond the 20th answer does not change the collected URLs |
| Rv2Crawl.ClassifyUrls | market_research_toolRV2.py:537-547 | the three lists are the URLs matching each pattern list, in order |
| Rv2Crawl.GovernmentNotRestricted | market_research_toolRV2.py:546-547 | a URL can be government-related without being a case study |
| Rv2Crawl.ScanCases | market_research_toolRV2.py:554-605 | one scan per case-study page that gave text and a reply, in order, each holding that reply |
| Rv2Crawl.ScanPricing | market_research_toolRV2.py:607-628 | one pricing record per page that gave text, in order, each that page's analysis |
| Rv2Crawl.CrawlDomain | market_research_toolRV2.py:452-630 | no sitemap gives the empty record; a collected entry without text raises the `lower` error; otherwise the total is the number of collected URLs and the scans are bounded by 10 and 5 |
| Rv2Crawl.CrawlDomainScans | market_research_toolRV2.py:498-628 | the lists are the collected URLs classified; a non-empty bucket is always scanned, over exactly its first 10 case studies or first 5 pricing pages, and the scans follow those pages in order |
| Rv2Crawl.CrawlDomains | market_research_toolRV2.py:642-648 | the domains are duplicate-free and succeed exactly when every URL parses |
| Rv2Crawl.CrawlDomainsMembership | market_research_toolRV2.py:642-648 | a domain is listed exactly when it is some URL's domain |
| Rv2Crawl.OutcomeOf | market_research_toolRV2.py:655-672 | a domain is crawled exactly when its crawl succeeds; otherwise its error is recorded under its domain |
| Rv2Crawl.CrawlLoop | market_research_toolRV2.py:653-673 | one outcome per domain, in order, each that domain's outcome |
| Rv2Crawl.CheckpointInvariant | market_research_toolRV2.py:653-673 | every successful domain saves a checkpoint with its position, the total and the results so far |
| Rv2Crawl.CrawlAllDomains | market_research_toolRV2.py:632-675 | the crawl succeeds exactly when every URL parses, with one outcome per distinct domain |
| Rv2Crawl.CrawlAllCheckpoints | market_research_toolRV2.py:632-675 | the checkpoints count completed domains against the total and hold the results so far |
| Rv2Extract.Verdict | market_research_toolRV2.py:188-193 | the verdict is YES, NO or AI Error; YES exactly when the first line reads YES; NO when it reads NO, or when it is not YES and "no" occurs within the first 50 characters |
| Rv2Extract.AnalyzeFeature | market_research_toolRV2.py:165-206 | no text gives AI Error with "Could not scrape page content"; a raised reply gives AI Error with its message; otherwise the verdict and reason parsed from the reply |
| Rv2Extract.FeatureReplyRoundTrip | market_research_toolRV2.py:165-206 | a reply written as the prompt asks (YES/NO, then "Reason:") parses back to that answer and reason |
| Rv2Extract.NoInsideAnyWord | market_research_toolRV2.py:192-193 | a "no" anywhere in the first 50 characters, even inside a word, rules out "AI Error" and turns a non-YES reply into NO |
| Rv2Extract.ScanProductLines | market_research_toolRV2.py:279-294 | name and description come from the last labelled line, else "Not specified"; features are the bullet lines after the first FEATURES header |
| Rv2Extract.ExtractProductInfo | market_research_toolRV2.py:250-309 | no text and a raised reply give their fixed records; a reply gives the name, description and bullets scanned from its stripped lines |
| Rv2Extract.ProductReplyRoundTrip | market_research_toolRV2.py:250-309 | a reply in the requested format parses back to its name, description and features |
| Rv2Extract.BulletsBeforeHeaderIgnored | market_research_toolRV2.py:284-294 | bullets before the FEATURES header are not features |
| Rv2Extract.ScanPricingLines | market_research_toolRV2.py:413-436 | each field comes from the last line with its label, else its default |
| Rv2Extract.AnalyzePricingPage | market_research_toolRV2.py:384-450 | no text and a raised reply give their fixed records; otherwise the fields parsed from the stripped reply |
| Rv2Extract.PricingReplyRoundTrip | market_research_toolRV2.py:384-450 | a reply in the requested format parses back to the six fields it was written from |
| FeatureMap.MapFeatures | market-research-tool/src/analyzer.py:100-115 | the loop succeeds exactly when every feature's entry does; then each feature reports its entry under its own key and its reason key; otherwise the first failing feature's error is raised |
| FeatureMap.Uniform | market-research-tool/src/analyzer.py:120-130 | every feature reports the same answer and reason, keyed by the features |
| FeatureMap.ReasonKeyInjective | market-research-tool/src/analyzer.py:112 | different features have different reason keys |
| ToolAnalyzer.CleanText | market-research-tool/src/analyzer.py:8-11 | the cleaned text has no line breaks, no double spaces and no surrounding whitespace |
| ToolAnalyzer.CleanTextIdempotent | market-research-tool/src/analyzer.py:8-11 | cleaning twice is cleaning once |
| ToolAnalyzer.CleanTextKeepsVisible | market-research-tool/src/analyzer.py:8-11 | cleaning keeps every visible character, in order |
| ToolAnalyzer.DomainHint | market-research-tool/src/analyzer.py:16 | the hint exists exactly when the URL parses and holds no dot |
| ToolAnalyzer.DomainHintOfHost | market-research-tool/src/analyzer.py:16 | for a URL on `[www.]name.tld`, the hint is the name capitalised in ASCII letter case |
| ToolAnalyzer.WwwRemovedEverywhere | market-research-tool/src/analyzer.py:16 | "www." is removed anywhere in the host, not only at its start |
| ToolAnalyzer.ExtractCompanyIdentity | market-research-tool/src/analyzer.py:14-44 | a name exists exactly when the URL parses; it is the reply's `company_name` when given, else the domain hint |
| ToolAnalyzer.FuzzyMatch | market-research-tool/src/analyzer.py:104-108 | the fallback finds nothing exactly when no result key contains the feature, ignoring ASCII letter case |
| ToolAnalyzer.FeatureData | market-research-tool/src/analyzer.py:101-108 | a truthy exact entry wins; otherwise the first fuzzily matched value when it is truthy; the data is always truthy |
| ToolAnalyzer.FuzzyFirst | market-research-tool/src/analyzer.py:105-108 | the fallback takes the first key containing the feature |
| ToolAnalyzer.FuzzyFallback | market-research-tool/src/analyzer.py:101-108 | without a truthy exact entry, the first key containing the feature supplies the data |
| ToolAnalyzer.CaseVariantFound | market-research-tool/src/analyzer.py:104-108 | a key differing from the feature only in case is found |
| ToolAnalyzer.ShorterKeyMissed | market-research-tool/src/analyzer.py:104-108 | a single key shorter than the requested feature ("SSO" for "SSO Support") is never matched, whatever its value |
| ToolAnalyzer.SpacingVariantMissed | market-research-tool/src/analyzer.py:104-108 | the requested feature written without its spaces ("MobileApp" for "Mobile App") is never matched |
| ToolAnalyzer.CleanJson | market-research-tool/src/analyzer.py:112 | a string reason is cleaned, a falsy one is empty, and any other value fails |
| ToolAnalyzer.FeatureEntry | market-research-tool/src/analyzer.py:99-115 | missing data gives "Unsure" with "AI data missing"; object data gives its answer (default "Unsure") and cleaned reason, failing when the reason is not text; other data and a non-object `results` raise |
| ToolAnalyzer.AnalyzeFeaturesWithAi | market-research-tool/src/analyzer.py:47-130 | answers and reasons are keyed by the features; an undecodable reply gives every feature "Unsure" with "Invalid AI response format"; a failed call, or a reply that decodes to something other than an object, gives every feature "Unsure" with "Error during analysis" |
| ToolAnalyzer.MissingFeatureIsUnsure | market-research-tool/src/analyzer.py:113-115 | a feature without data is "Unsure" with "AI data missing" |
| ToolAnalyzer.MatchedEntryDefaults | market-research-tool/src/analyzer.py:110-112 | an entry without an answer gives "Unsure" and its cleaned reason |
| ToolAnalyzer.ScanProductLines | market-research-tool/src/analyzer.py:165-179 | the product name and cleaned description come from the last labelled lines; the features are the bullet lines after the first header, each reduced to its name |
| ToolAnalyzer.ProductFeatures | market-research-tool/src/analyzer.py:165-180 | the parsed description is the cleaned value of the last "Description:" line, or "" without one, as the line scan gives it |
| ToolAnalyzer.BulletEntry | market-research-tool/src/analyzer.py:176-178 | a feature entry is a bullet and a space followed by a name holding no bullet and no colon |
| ToolAnalyzer.BulletedNameEntry | market-research-tool/src/analyzer.py:176-178 | a line "• name: …" gives the entry "• name" |
| ToolAnalyzer.DashedNameEntry | market-research-tool/src/analyzer.py:176-178 | a line "- name: …" gives the entry "• - name", the dash kept |
| ToolAnalyzer.ExtractProductInfo | market-research-tool/src/analyzer.py:133-186 | a URL that does not parse or a raised reply gives the error row |
| ToolAnalyzer.DeepScanPage | market-research-tool/src/analyzer.py:189-209 | a record exists exactly when the reply decodes to an object whose analysis is text or falsy; its analysis is then that value cleaned |
| ToolAnalyzer.DeepScanKeepsOthers | market-research-tool/src/analyzer.py:206-207 | every key of the reply other than `analysis` is kept unchanged in the record |
| ToolAnalyzer.ExtractStandardizedPricing | market-research-tool/src/analyzer.py:212-263 | the decoded reply is returned unchanged, and nothing when it does not decode |
| SrcAnalyzer.AnalyzeFeaturesWithAi | src/analyzer.py:4-50 | answers and reasons are keyed by the features; no text gives every feature "Error" with "No text to analyze"; a raised call fails every feature with its message |
| SrcAnalyzer.NoTextNoCall | src/analyzer.py:5-6 | with no text, the model's reply is never consulted |
| SrcAnalyzer.FeatureEntry | src/analyzer.py:40-46 | a feature absent from the reply gives "AI Error" with "Feature not found in response"; a present entry succeeds exactly when it is an object, with its answer and reason or their defaults |
| SrcAnalyzer.FeatureVerdict | src/analyzer.py:40-46 | each feature's answer and reason are read from its own exact key, with their defaults |
| SrcAnalyzer.ExactKeyOnly | src/analyzer.py:40-46 | a feature the reply does not hold under exactly its name answers "AI Error", with "Feature not found in response" when no entry raised, whatever other keys contain the name |
| SrcAnalyzer.NonObjectEntryFailsAll | src/analyzer.py:40-50 | when the first failing feature's entry is present but not an object, every feature gets "AI Error" with the message of its missing `get` |
| SrcAnalyzer.ExtractProductInfo | src/analyzer.py:52-92 | no text gives the "No content" record; a reply without features gives empty features; a reply that is not an object, or whose features cannot be iterated, gives the error record; otherwise the name and description are the reply's, defaulting to "Not specified" and "Not available" |
| SrcAnalyzer.ProductFields | src/analyzer.py:81-89 | the record is for the URL; for an object reply it is built exactly when the `features` value (default `[]`) can be iterated |
| SrcAnalyzer.ProductFeaturesRoundTrip | src/analyzer.py:83 | the features text, split on newlines, is one bullet line per listed feature |
| SrcAnalyzer.DeepScanPage | src/analyzer.py:94-119 | no text or a raised call gives nothing; otherwise the decoded reply |
| SrcAnalyzer.ExtractPricingDetails | src/analyzer.py:121-148 | a record exists exactly when there is text and the reply decodes to an object; it then carries the URL |
| SrcAnalyzer.PricingKeepsReply | src/analyzer.py:145-147 | every field of the reply other than `url` is kept unchanged |
| Pipeline.SplitUrls | main.py:67 | every URL is a non-empty token without whitespace or commas |
| Pipeline.SplitUrlsIsSplit | main.py:67 | the URLs are the whitespace-split words of the input with commas read as spaces |
| Pipeline.SplitUrlsJoin | main.py:67 | URLs joined with commas and spaces split back to the same list |
| Pipeline.Domains | main.py:159 | the domain set exists exactly when every URL parses, and otherwise raises "Invalid IPv6 URL" |
| Pipeline.DomainsMembership | main.py:159 | a domain is in the set exactly when it is some URL's domain |
| Pipeline.Discover | main.py:167-174 | no URLs means the homepage crawl found none either; a missing `loc` text can only come from an index sitemap |
| Pipeline.SitemapUrls | main.py:167-172 | nothing when no sitemap answered or its body was empty; an index is expanded through its children; any other sitemap gives its listed URLs; a missing URL text only comes from an index |
| Pipeline.NoSitemapUsesHomepage | main.py:168-174 | when the sitemap gave no URL (none answered, an empty body, or none listed), the homepage crawl's links are used |
| Pipeline.HomepageOnlyAsFallback | main.py:171-174 | the homepage crawl matters only when the sitemap gave no URLs |
| Pipeline.CaseOf | main.py:180-189 | a case entry is for its URL, flags YES or NO, and exists exactly when the page scraped to text and the deep scan returned a record; its summary is the reply's cleaned analysis |
| Pipeline.CaseFlagFromReply | main.py:186 | the flag is YES exactly when the reply's `has_government_mention` is truthy |
| Pipeline.ScanCases | main.py:180-189 | every case entry is the one its URL yields, for a URL of the list; the order and repetitions are stated by `ScanCasesInOrder` |
| Pipeline.ScanCasesComplete | main.py:180-189 | every listed URL that yields a case entry contributes it |
| Pipeline.ScanCasesInOrder | main.py:180-189 | the entries are, one for one and in list order with repetitions, for the URLs that yield an entry |
| Pipeline.PricingOf | main.py:192-202 | the pricing step raises exactly when there is text and the details are truthy but not an object; otherwise it records an entry exactly when there is text and the details are truthy, and then they are an object |
| Pipeline.PricingFields | main.py:197-201 | the entry's fields are the reply's `pricing_model`, `starting_price` and `details`, missing ones defaulting to "Unsure", "Unsure" and "" |
| Pipeline.ScanPricing | main.py:192-202 | the pricing loop succeeds exactly when every page's step does, and otherwise raises a page's error; every recorded entry is the one its URL yields; order and the first error are stated by `ScanPricingInOrder` and `ScanPricingFirstError` |
| Pipeline.ScanPricingComplete | main.py:192-202 | every listed URL whose step records an entry contributes it to a successful loop |
| Pipeline.ScanPricingInOrder | main.py:192-202 | a successful loop's entries are, one for one and in list order with repetitions, those of the URLs whose step records one |
| Pipeline.ScanPricingFirstError | main.py:192-202 | a raising loop raises the error of the first URL whose step raises, every earlier step having succeeded |
| Pipeline.CrawlDomain | main.py:167-219 | a missing `loc` text raises the `lower` error; the record and the row name the domain and count the discovered URLs and each bucket; at most 2 case and 3 pricing scans |
| Pipeline.CrawlDomainOutcome | main.py:177-202 | a domain raises exactly when a URL has no text or the pricing loop raises, with that loop's error; otherwise the scans are the case-study loop over the first 2 case-study URLs and the pricing loop over the first 3 pricing URLs |
| Pipeline.CrawlDomainSummary | main.py:209-218 | the summary's text columns join the case-study and pricing lines of the scans, in order, with " || " |
| Pipeline.CaseLine | main.py:209 | a case-study line is the flag in brackets, the URL, " - " and the summary text |
| Pipeline.PricingLine | main.py:210 | a pricing line is the pricing model followed by the starting price in parentheses |
| Pipeline.ScansWithinFront | main.py:177-192 | scans come only from the first 2 case-study and the first 3 pricing URLs |
| Pipeline.CrawlLoop | main.py:161-206 | each save counts the domains completed so far against the total and holds the results so far; the loop stops at the first raised error |
| Pipeline.StopsAtFirstError | main.py:165-206 | the first failing domain's error ends the crawl, with exactly the earlier domains saved |
| Pipeline.DeepCrawl | main.py:159-206 | the crawl starts exactly when every URL parses, and then walks every domain |
| Pipeline.DeepCrawlCheckpoints | main.py:160-206 | saved results only grow, each save extending the previous one |
| Pipeline.EnumerationSize | main.py:159-160 | the total is the number of distinct domains |
| Pipeline.FeatureRow | main.py:103-106 | a scraped URL's row holds the URL, every answer and every reason; each reason column holds its reason, each other answer column its answer, and the URL column the URL unless an answer or reason overwrote it |
| Pipeline.ErrorRow | main.py:112 | a failed URL's row holds the URL and one column per feature |
| Pipeline.FeatureStage | main.py:93-112 | the feature stage gives one row per input URL |
| Pipeline.FeatureStageRows | main.py:94-112 | every row has the URL and every feature; reasons exactly when scraped, barring a feature named like a reason key; "Error" for every feature when not scraped |
| Pipeline.ProductStage | main.py:133-143 | one product entry per URL, in order, for that URL |
| Pipeline.ProductStageRows | main.py:136-143 | a URL is the scrape-failure row, named "Scrape Failed", exactly when its page gave no text; otherwise it is the analyzer's row for that page's identity and product replies |

## Left out

- Network, browser and file I/O:
  - Page loading and HTML text extraction (Playwright, BeautifulSoup).
  - Sitemap HTTP fetching: the `get` oracle.
  - Writing CSV and checkpoint JSON files (`save_checkpoint`, the `save_*` functions, pandas); the checkpoint is modelled as the data written.
  - `load_checkpoint`.
  - Output directories.
- The language model:
  - The prompts and `generate_content` are reply oracles.
  - Model selection (`get_working_model`, `configure_api`, src/config.py, diagnose_gemini.py).
  - The pricing mapping table, which only goes into a prompt.
- Parsing:
  - XML parsing is the `Doc` datatype: parsed tree, parse error or empty body.
  - JSON decoding is the `Decoded`/`JsonReply` oracle result.
- The clock is ideal: a sleep of `d` seconds wakes exactly `d` later. Logging, `print` and `input` are left out.
- Concurrency: `asyncio` tasks run one after another, as the loops await them.
- `Json.Show` writes Python's `repr`/`str` of a value without string-escape details.
- Json.FloatRepr: writes positional notation only; Python switches to exponent notation below 1e-4 and from 1e16 on, prints `-0.0` for negative zero, and prints the binary float nearest the decimal, so decimals with more than 17 significant digits can print differently.
- Json.Lookup: reads the first pair of a repeated key, while `json.loads` keeps the last; the two agree on objects without repeated keys (`Json.LookupUniqueIsLast`), and the reply oracles are not constrained to such objects.
- Strings.Lower/Upper/Capitalize: map ASCII letters only, while Python's `str.lower`, `str.upper` and `str.capitalize` follow the Unicode case tables ("ü" and "Ü", "é" and "É", "ſ" upper-casing to "S", "İ" lower-casing to two characters). The members that depend on them are exact only for ASCII letters: ToolAnalyzer.FuzzyMatch, ToolAnalyzer.DomainHint and DomainHintOfHost, Rv2Extract.Verdict (a character that lowers to two would also shift its 50-character window), the quota test of `Gateway`, and the URL classifiers of `Scraper` and `Rv2Crawl`. The scheme lower-casing of `UrlParse` is exact, since Python lowers a scheme only when it is all ASCII.
- ToolAnalyzer.DomainHintOfHost: the hint is capitalised in ASCII letter case; a host such as `www.école.fr` gives "école" with its first letter unchanged, where Python gives "École".
- ToolAnalyzer.FuzzyMatch: ignores ASCII letter case only; a key and a feature that differ in the case of a non-ASCII letter do not match here but do in Python.
- UrlParse.Parse/Origins: fail only on an unbalanced bracket. Two other `ValueError`s of `urlsplit` (Python 3.12) are not modelled, and for such URLs the model gives a domain where Python raises: a netloc that NFKC normalisation changes into one holding "/", "?", "#", "@" or ":" (for example `http://a\uFF03b.com`), and a bracketed host that is no valid IPv6 or IPvFuture address (for example `http://[abc]/`, rejected from Python 3.11.4 on).
- Messages of Python `TypeError`/`AttributeError`: only the ones the model's branches compare against are spelt out.
- The monolith's `scrape_url` (market_research_toolRV2.py:135-159) is the `scrape` oracle of `Rv2Crawl.Web`; its 50000-character cut is not modelled.
- The monolith's batch drivers `analyze_features_for_url`, `analyze_all_features` and `extract_all_products` (market_research_toolRV2.py:208-245, 311-337): sequential `await` loops over the modelled per-URL operations. The last two catch a URL's exception into an error row: every feature "Error" with the message as its reason, or the name "Error" with the message as the description. The monolith's `main` and `print_summary` are output only.
- src/visualizer.py: charts only.
- `main.py`'s `crawl_homepage_links` is not defined in the scraper; it is the `homepage` oracle.
- The `base_domain` argument of `filter_relevant_pages` is never read, and is not a parameter.
- Pipeline.FeatureStage/ProductStage: the two scrapes of one URL (feature and product stages) read the same `page` oracle, so a site that answers differently the second time is not modelled.
- Rv2Crawl.ScanCases: the monolith's case-study loop reads the model reply as one string (`CaseScan.analysis`); the display parsing of that reply in the `save_*` functions is output formatting and is left out.

/**
 * The second generation's reply parsers (market_research_toolRV2.py):
 * `analyze_feature`, `extract_product_info` and `analyze_pricing_page`.
 * Each takes the scraped page text (`None` when scraping failed) and the
 * model's reply, which is only requested when there is text; a raised
 * reply is the exception `api_call_with_retry` let through.
 */
module Rv2Extract {
  import opened Wrappers
  import opened Strings
  import opened Seqs
  import opened Json
  import opened LineFields

  /** `if not text` fails: the scrape gave `None` or "". */
  predicate Scraped(text: Option<string>) {
    text.Some? && |text.value| > 0
  }

  // ------------------------------------------------------------ analyze_feature

  datatype FeatureVerdict = FeatureVerdict(feature: string, present: string, reason: string)

  const AiError := "AI Error"
  const ReasonTag := "Reason:"

  /** `response.strip().split('\n')`: the lines are not stripped one by one here. */
  function ReplyLines(response: string): (r: seq<string>)
    ensures |r| >= 1
  {
    SplitOn(Strip(response), '\n')
  }

  /** `lines[0].strip().upper()` */
  function FirstAnswer(response: string): string {
    Upper(Strip(ReplyLines(response)[0]))
  }

  /** `'no' in response.lower()[:50]` */
  predicate MentionsNo(response: string) {
    Contains(Take(Lower(response), 50), "no")
  }

  /**
   * The verdict read from a reply: its first line if that says YES or NO in
   * any letter case; otherwise NO when "no" occurs among the first fifty
   * characters, and "AI Error" when it does not.
   */
  function Verdict(response: string): (r: string)
    ensures r == "YES" || r == "NO" || r == AiError
    ensures r == "YES" <==> FirstAnswer(response) == "YES"
    ensures r == "NO" <==> FirstAnswer(response) == "NO" || (FirstAnswer(response) != "YES" && MentionsNo(response))
  {
    var present := FirstAnswer(response);
    if present == "YES" || present == "NO" then present
    else if MentionsNo(response) then "NO"
    else AiError
  }

  /** The second line without its "Reason:" label, or "Analysis completed" for a one-line reply. */
  function Reason(response: string): string {
    var lines := ReplyLines(response);
    if |lines| > 1 then LabelValue(lines[1], ReasonTag) else "Analysis completed"
  }

  /** `analyze_feature(url, feature, text)` */
  function AnalyzeFeature(feature: string, text: Option<string>, reply: TextReply): (r: FeatureVerdict)
    ensures r.feature == feature
    ensures r.present == "YES" || r.present == "NO" || r.present == AiError
    ensures !Scraped(text) ==> r.present == AiError && r.reason == "Could not scrape page content"
    ensures Scraped(text) && reply.Raised? ==> r.present == AiError && r.reason == reply.msg
    ensures Scraped(text) && reply.Ok? ==> r.present == Verdict(reply.value) && r.reason == Reason(reply.value)
  {
    if !Scraped(text) then FeatureVerdict(feature, AiError, "Could not scrape page content")
    else
      match reply
      case Raised(e) => FeatureVerdict(feature, AiError, e)
      case Ok(response) => FeatureVerdict(feature, Verdict(response), Reason(response))
  }

  /** Without page text the reply is never consulted. */
  lemma NoTextNoCall(feature: string, text: Option<string>, a: TextReply, b: TextReply)
    requires !Scraped(text)
    ensures AnalyzeFeature(feature, text, a) == AnalyzeFeature(feature, text, b)
  {
  }

  /**
   * A reply in the requested two-line format, `YES` or `NO` and then
   * `Reason: <sentence>`, is read back as exactly that verdict and sentence.
   */
  lemma FeatureReplyRoundTrip(feature: string, text: Option<string>, yes: bool, reason: string)
    requires Scraped(text) && PlainValue(reason, ReasonTag)
    ensures var answer := if yes then "YES" else "NO";
            AnalyzeFeature(feature, text, Ok(answer + "\n" + Labelled(ReasonTag, reason)))
              == FeatureVerdict(feature, answer, reason)
  {
    var answer := if yes then "YES" else "NO";
    var response := answer + "\n" + Labelled(ReasonTag, reason);
    assert Verdict(response) == answer by {
      AnswerReadBack(answer);
      FeatureReplyLines(answer, reason);
      VerdictReadBack(answer, reason);
    }
    assert Reason(response) == reason by {
      AnswerReadBack(answer);
      ReasonReadBack(answer, reason);
    }
  }

  lemma ReasonReadBack(answer: string, reason: string)
    requires PlainLine(answer) && PlainValue(reason, ReasonTag)
    ensures Reason(answer + "\n" + Labelled(ReasonTag, reason)) == reason
  {
    FeatureReplyLines(answer, reason);
    LabelValueOfLabelled(ReasonTag, reason);
  }

  lemma VerdictReadBack(answer: string, reason: string)
    requires answer == "YES" || answer == "NO"
    requires ReplyLines(answer + "\n" + Labelled(ReasonTag, reason)) == [answer, Labelled(ReasonTag, reason)]
    ensures Verdict(answer + "\n" + Labelled(ReasonTag, reason)) == answer
  {
    AnswerReadBack(answer);
  }

  /** The two-line reply splits into the answer and the reason line. */
  lemma FeatureReplyLines(answer: string, reason: string)
    requires PlainLine(answer) && PlainValue(reason, ReasonTag)
    ensures ReplyLines(answer + "\n" + Labelled(ReasonTag, reason)) == [answer, Labelled(ReasonTag, reason)]
  {
    var second := Labelled(ReasonTag, reason);
    var ls := [answer, second];
    LabelledIsPlain(ReasonTag, reason);
    assert PlainLines(ls);
    assert JoinWith(ls, "\n") == answer + "\n" + second;
    SplitOfJoined(ls);
  }

  /** An answer already in capitals is read back as itself. */
  lemma AnswerReadBack(answer: string)
    requires answer == "YES" || answer == "NO"
    ensures PlainLine(answer) && Upper(Strip(answer)) == answer
  {
    assert PlainLine(answer) by {
      assert answer[0] in "YN" && answer[|answer| - 1] in "SO";
    }
    StripUnchanged(answer);
    forall i | 0 <= i < |answer|
      ensures UpperChar(answer[i]) == answer[i]
    {
    }
  }

  /**
   * The fallback is a bare substring test: "no" inside any word among the
   * first fifty characters ("cannot", "unknown", "not") reads as NO.
   */
  lemma NoInsideAnyWord(response: string, i: nat)
    requires i + 2 <= 50 && i + 2 <= |response| && Lower(response)[i..i + 2] == "no"
    ensures Verdict(response) != AiError
    ensures FirstAnswer(response) != "YES" ==> Verdict(response) == "NO"
  {
    MentionsNoAt(response, i);
  }

  lemma MentionsNoAt(response: string, i: nat)
    requires i + 2 <= 50 && i + 2 <= |response| && Lower(response)[i..i + 2] == "no"
    ensures MentionsNo(response)
  {
    var low := Lower(response);
    var t := Take(low, 50);
    assert t[i..i + 2] == low[i..i + 2] by {
      assert i + 2 <= |t| && t <= low;
    }
    assert "no" <= t[i..];
    ContainsAt(t, "no", i);
  }

  // ------------------------------------------------------- extract_product_info

  const ProductNameTag := "PRODUCT NAME:"
  const DescriptionTag := "DESCRIPTION:"
  const FeaturesTag := "FEATURES:"

  /** A feature line: it starts with the bullet and is kept whole. */
  predicate IsBullet(line: string) {
    StartsWith(line, [Bullet])
  }

  datatype ProductInfo = ProductInfo(url: string, name: string, description: string, features: seq<string>)

  /** What the line loop carries. */
  datatype ProductScan = ProductScan(name: string, description: string, features: seq<string>, inFeatures: bool)

  /** One turn of the loop: the first label the line starts with decides, else a bullet after "FEATURES:". */
  function ProductStep(s: ProductScan, line: string): (r: ProductScan)
    ensures r.name == if StartsWith(line, ProductNameTag) then LabelValue(line, ProductNameTag) else s.name
    ensures r.description == if StartsWith(line, DescriptionTag) then LabelValue(line, DescriptionTag) else s.description
    ensures r.inFeatures == (s.inFeatures || StartsWith(line, FeaturesTag))
    ensures r.features == s.features + if s.inFeatures && IsBullet(line) then [line] else []
  {
    ProductTagsExclusive(line);
    if StartsWith(line, ProductNameTag) then s.(name := LabelValue(line, ProductNameTag))
    else if StartsWith(line, DescriptionTag) then s.(description := LabelValue(line, DescriptionTag))
    else if StartsWith(line, FeaturesTag) then s.(inFeatures := true)
    else if s.inFeatures && IsBullet(line) then s.(features := s.features + [line])
    else s
  }

  /** A line starts with at most one label, and a labelled line is no bullet. */
  lemma ProductTagsExclusive(line: string)
    ensures StartsWith(line, ProductNameTag) ==> !StartsWith(line, DescriptionTag) && !StartsWith(line, FeaturesTag) && !IsBullet(line)
    ensures StartsWith(line, DescriptionTag) ==> !StartsWith(line, FeaturesTag) && !IsBullet(line)
    ensures StartsWith(line, FeaturesTag) ==> !IsBullet(line)
  {
    if |line| > 0 {
      assert StartsWith(line, ProductNameTag) ==> line[0] == 'P';
      assert StartsWith(line, DescriptionTag) ==> line[0] == 'D';
      assert StartsWith(line, FeaturesTag) ==> line[0] == 'F';
      assert IsBullet(line) ==> line[0] == Bullet;
    }
  }

  /**
   * The loop over the reply's stripped lines: the last "PRODUCT NAME:" and
   * "DESCRIPTION:" lines decide those fields, and the features are the
   * bullet lines after the first "FEATURES:" line.
   */
  function ScanProductLines(lines: seq<string>): (r: ProductScan)
    ensures r.name == Field(lines, ProductNameTag, "Not specified")
    ensures r.description == Field(lines, DescriptionTag, "Not specified")
    ensures r.inFeatures == HasLine(lines, FeaturesTag)
    ensures r.features == Filter(AfterFirst(lines, FeaturesTag), IsBullet)
    decreases |lines|
  {
    if |lines| == 0 then ProductScan("Not specified", "Not specified", [], false)
    else
      var init := lines[..|lines| - 1];
      var line := lines[|lines| - 1];
      assert lines == init + [line];
      FieldSnoc(init, line, ProductNameTag, "Not specified");
      FieldSnoc(init, line, DescriptionTag, "Not specified");
      HasLineSnoc(init, line, FeaturesTag);
      AfterFirstSnoc(init, line, FeaturesTag);
      FilterSnoc(AfterFirst(init, FeaturesTag), line, IsBullet);
      ProductStep(ScanProductLines(init), line)
  }

  /** `extract_product_info(url, text)` */
  function ExtractProductInfo(url: string, text: Option<string>, reply: TextReply): (r: ProductInfo)
    ensures r.url == url
    ensures !Scraped(text) ==> r == ProductInfo(url, "Not specified", "Could not scrape content", [])
    ensures Scraped(text) && reply.Raised? ==> r == ProductInfo(url, "Error", reply.msg, [])
    ensures Scraped(text) && reply.Ok? ==>
              var s := ScanProductLines(Lines(Strip(reply.value)));
              r == ProductInfo(url, s.name, s.description, s.features)
    ensures forall i :: 0 <= i < |r.features| ==> IsBullet(r.features[i])
  {
    if !Scraped(text) then ProductInfo(url, "Not specified", "Could not scrape content", [])
    else
      match reply
      case Raised(e) => ProductInfo(url, "Error", e, [])
      case Ok(response) =>
        var s := ScanProductLines(Lines(Strip(response)));
        ProductInfo(url, s.name, s.description, s.features)
  }

  /** The reply in the requested format for a product. */
  function ProductReply(name: string, description: string, features: seq<string>): seq<string> {
    [Labelled(ProductNameTag, name), Labelled(DescriptionTag, description), FeaturesTag] + features
  }

  /** Feature lines as the format expects them: bullets, one line each, already stripped. */
  predicate PlainBullets(features: seq<string>) {
    forall i :: 0 <= i < |features| ==> IsBullet(features[i]) && PlainLine(features[i])
  }

  /** A reply in the requested format gives back the name, description and bullet lines written into it. */
  lemma ProductReplyRoundTrip(url: string, text: Option<string>, name: string, description: string, features: seq<string>)
    requires Scraped(text)
    requires PlainValue(name, ProductNameTag) && PlainValue(description, DescriptionTag)
    requires PlainBullets(features)
    ensures ExtractProductInfo(url, text, Ok(JoinWith(ProductReply(name, description, features), "\n")))
         == ProductInfo(url, name, description, features)
  {
    ProductReplyLines(name, description, features);
    LinesOfJoined(ProductReply(name, description, features));
    ProductReplyFields(name, description, features);
  }

  /** Scanning the requested format's lines recovers the name, the description and the bullets. */
  lemma ProductReplyFields(name: string, description: string, features: seq<string>)
    requires PlainValue(name, ProductNameTag) && PlainValue(description, DescriptionTag)
    requires PlainBullets(features)
    ensures var s := ScanProductLines(ProductReply(name, description, features));
            s.name == name && s.description == description && s.features == features
  {
    ProductNameField(name, description, features);
    ProductDescriptionField(name, description, features);
    ProductReplyFeatures(name, description, features);
  }

  lemma ProductNameField(name: string, description: string, features: seq<string>)
    requires PlainValue(name, ProductNameTag) && PlainValue(description, DescriptionTag)
    requires PlainBullets(features)
    ensures Field(ProductReply(name, description, features), ProductNameTag, "Not specified") == name
  {
    var ls := ProductReply(name, description, features);
    ProductReplyLines(name, description, features);
    assert PlainLabel(ProductNameTag);
    assert ls[0] == Labelled(ProductNameTag, name);
    FieldOfLabelled(ls, ProductNameTag, 0, name, "Not specified");
  }

  lemma ProductDescriptionField(name: string, description: string, features: seq<string>)
    requires PlainValue(name, ProductNameTag) && PlainValue(description, DescriptionTag)
    requires PlainBullets(features)
    ensures Field(ProductReply(name, description, features), DescriptionTag, "Not specified") == description
  {
    var ls := ProductReply(name, description, features);
    ProductReplyLines(name, description, features);
    assert PlainLabel(DescriptionTag);
    assert ls[1] == Labelled(DescriptionTag, description);
    FieldOfLabelled(ls, DescriptionTag, 1, description, "Not specified");
  }

  lemma ProductReplyFeatures(name: string, description: string, features: seq<string>)
    requires PlainBullets(features)
    ensures Filter(AfterFirst(ProductReply(name, description, features), FeaturesTag), IsBullet) == features
  {
    var ls := ProductReply(name, description, features);
    InitialsApart(ls[0], FeaturesTag);
    InitialsApart(ls[1], FeaturesTag);
    assert AfterFirst(ls, FeaturesTag) == AfterFirst(ls[1..], FeaturesTag);
    assert ls[1..][1..] == [FeaturesTag] + features;
    assert AfterFirst(ls[1..], FeaturesTag) == AfterFirst([FeaturesTag] + features, FeaturesTag);
    assert ([FeaturesTag] + features)[1..] == features;
    FilterAll(features, IsBullet);
  }

  /** The requested format's lines are plain, and no label's initial recurs on a later line. */
  lemma ProductReplyLines(name: string, description: string, features: seq<string>)
    requires PlainValue(name, ProductNameTag) && PlainValue(description, DescriptionTag)
    requires PlainBullets(features)
    ensures var ls := ProductReply(name, description, features);
            && PlainLines(ls)
            && (forall j :: 0 < j < |ls| ==> Initial(ls[j]) != 'P')
            && (forall j :: 1 < j < |ls| ==> Initial(ls[j]) != 'D')
  {
    var ls := ProductReply(name, description, features);
    LabelledIsPlain(ProductNameTag, name);
    LabelledIsPlain(DescriptionTag, description);
    forall j | 3 <= j < |ls|
      ensures PlainLine(ls[j]) && Initial(ls[j]) == Bullet
    {
      assert ls[j] == features[j - 3];
    }
  }

  /** A bullet before the "FEATURES:" line is not a feature. */
  lemma BulletsBeforeHeaderIgnored(url: string, text: Option<string>, bullet: string, rest: seq<string>)
    requires Scraped(text) && IsBullet(bullet)
    requires !HasLine(rest, FeaturesTag)
    ensures var lines := [bullet] + rest;
            ScanProductLines(lines).features == []
  {
    var lines := [bullet] + rest;
    ProductTagsExclusive(bullet);
    assert !HasLine(lines, FeaturesTag) by {
      forall j | 0 <= j < |lines|
        ensures !StartsWith(lines[j], FeaturesTag)
      {
        if j > 0 {
          assert lines[j] == rest[j - 1];
        }
      }
    }
  }

  // ------------------------------------------------------- analyze_pricing_page

  const PricingModelTag := "PRICING MODEL:"
  const TiersTag := "TIERS:"
  const StartingPriceTag := "STARTING PRICE:"
  const FreeTrialTag := "FREE TRIAL:"
  const ContactTag := "CONTACT FOR QUOTE:"
  const DetailsTag := "DETAILS:"

  datatype PricingInfo = PricingInfo(
    url: string,
    pricingModel: string,
    tiers: string,
    startingPrice: string,
    freeTrial: string,
    contactForQuote: string,
    details: string)

  /** The record before any line is read. */
  function PricingDefaults(url: string): PricingInfo {
    PricingInfo(url, "Not specified", "N/A", "N/A", "N/A", "N/A", "Not specified")
  }

  /** One turn of the loop: the first label the line starts with overwrites its field. */
  function PricingStep(p: PricingInfo, line: string): (r: PricingInfo)
    ensures r.url == p.url
    ensures r.pricingModel == if StartsWith(line, PricingModelTag) then LabelValue(line, PricingModelTag) else p.pricingModel
    ensures r.tiers == if StartsWith(line, TiersTag) then LabelValue(line, TiersTag) else p.tiers
    ensures r.startingPrice == if StartsWith(line, StartingPriceTag) then LabelValue(line, StartingPriceTag) else p.startingPrice
    ensures r.freeTrial == if StartsWith(line, FreeTrialTag) then LabelValue(line, FreeTrialTag) else p.freeTrial
    ensures r.contactForQuote == if StartsWith(line, ContactTag) then LabelValue(line, ContactTag) else p.contactForQuote
    ensures r.details == if StartsWith(line, DetailsTag) then LabelValue(line, DetailsTag) else p.details
  {
    PricingTagsExclusive(line);
    if StartsWith(line, PricingModelTag) then p.(pricingModel := LabelValue(line, PricingModelTag))
    else if StartsWith(line, TiersTag) then p.(tiers := LabelValue(line, TiersTag))
    else if StartsWith(line, StartingPriceTag) then p.(startingPrice := LabelValue(line, StartingPriceTag))
    else if StartsWith(line, FreeTrialTag) then p.(freeTrial := LabelValue(line, FreeTrialTag))
    else if StartsWith(line, ContactTag) then p.(contactForQuote := LabelValue(line, ContactTag))
    else if StartsWith(line, DetailsTag) then p.(details := LabelValue(line, DetailsTag))
    else p
  }

  /** The six labels begin with six different letters, so a line starts with at most one. */
  lemma PricingTagsExclusive(line: string)
    ensures |line| > 0 && StartsWith(line, PricingModelTag) ==> line[0] == 'P'
    ensures |line| > 0 && StartsWith(line, TiersTag) ==> line[0] == 'T'
    ensures |line| > 0 && StartsWith(line, StartingPriceTag) ==> line[0] == 'S'
    ensures |line| > 0 && StartsWith(line, FreeTrialTag) ==> line[0] == 'F'
    ensures |line| > 0 && StartsWith(line, ContactTag) ==> line[0] == 'C'
    ensures |line| > 0 && StartsWith(line, DetailsTag) ==> line[0] == 'D'
  {
  }

  /** The loop over the reply's stripped lines: each field is set by the last line carrying its label. */
  function ScanPricingLines(url: string, lines: seq<string>): (r: PricingInfo)
    ensures r.url == url
    ensures r.pricingModel == Field(lines, PricingModelTag, "Not specified")
    ensures r.tiers == Field(lines, TiersTag, "N/A")
    ensures r.startingPrice == Field(lines, StartingPriceTag, "N/A")
    ensures r.freeTrial == Field(lines, FreeTrialTag, "N/A")
    ensures r.contactForQuote == Field(lines, ContactTag, "N/A")
    ensures r.details == Field(lines, DetailsTag, "Not specified")
    decreases |lines|
  {
    if |lines| == 0 then PricingDefaults(url)
    else
      var init := lines[..|lines| - 1];
      var line := lines[|lines| - 1];
      assert lines == init + [line];
      FieldSnoc(init, line, PricingModelTag, "Not specified");
      FieldSnoc(init, line, TiersTag, "N/A");
      FieldSnoc(init, line, StartingPriceTag, "N/A");
      FieldSnoc(init, line, FreeTrialTag, "N/A");
      FieldSnoc(init, line, ContactTag, "N/A");
      FieldSnoc(init, line, DetailsTag, "Not specified");
      PricingStep(ScanPricingLines(url, init), line)
  }

  /** `analyze_pricing_page(url, text)` */
  function AnalyzePricingPage(url: string, text: Option<string>, reply: TextReply): (r: PricingInfo)
    ensures r.url == url
    ensures !Scraped(text) ==> r == PricingInfo(url, "Could not scrape", "N/A", "N/A", "N/A", "N/A", "Could not scrape content")
    ensures Scraped(text) && reply.Raised? ==> r == PricingInfo(url, "Error", "Error", "Error", "Error", "Error", reply.msg)
    ensures Scraped(text) && reply.Ok? ==> r == ScanPricingLines(url, Lines(Strip(reply.value)))
  {
    if !Scraped(text) then PricingInfo(url, "Could not scrape", "N/A", "N/A", "N/A", "N/A", "Could not scrape content")
    else
      match reply
      case Raised(e) => PricingInfo(url, "Error", "Error", "Error", "Error", "Error", e)
      case Ok(response) => ScanPricingLines(url, Lines(Strip(response)))
  }

  /** A reply without any label leaves every field at its default. */
  lemma UnlabelledReplyGivesDefaults(url: string, text: Option<string>, response: string)
    requires Scraped(text)
    requires forall i :: 0 <= i < |Lines(Strip(response))| ==> |Lines(Strip(response))[i]| == 0
    ensures AnalyzePricingPage(url, text, Ok(response)) == PricingDefaults(url)
  {
  }

  /** The reply in the requested format for a pricing record, one labelled line per field. */
  function PricingReply(p: PricingInfo): seq<string> {
    [Labelled(PricingModelTag, p.pricingModel), Labelled(TiersTag, p.tiers),
     Labelled(StartingPriceTag, p.startingPrice), Labelled(FreeTrialTag, p.freeTrial),
     Labelled(ContactTag, p.contactForQuote), Labelled(DetailsTag, p.details)]
  }

  predicate PlainPricing(p: PricingInfo) {
    && PlainValue(p.pricingModel, PricingModelTag) && PlainValue(p.tiers, TiersTag)
    && PlainValue(p.startingPrice, StartingPriceTag) && PlainValue(p.freeTrial, FreeTrialTag)
    && PlainValue(p.contactForQuote, ContactTag) && PlainValue(p.details, DetailsTag)
  }

  /** A reply in the requested format gives back every field written into it. */
  lemma PricingReplyRoundTrip(url: string, text: Option<string>, p: PricingInfo)
    requires Scraped(text) && PlainPricing(p)
    ensures AnalyzePricingPage(url, text, Ok(JoinWith(PricingReply(p), "\n"))) == p.(url := url)
  {
    PricingReplyLines(p);
    LinesOfJoined(PricingReply(p));
    PricingReplyFields(url, p);
  }

  /** Scanning the requested format's lines recovers the record. */
  lemma PricingReplyFields(url: string, p: PricingInfo)
    requires PlainPricing(p)
    ensures ScanPricingLines(url, PricingReply(p)) == p.(url := url)
  {
    PricingModelAndTiers(p);
    PricingStartAndTrial(p);
    PricingContactAndDetails(p);
  }

  /** The pricing labels are single-line labels, with the initials the reply lines are told apart by. */
  lemma PricingLabelsPlain()
    ensures PlainLabel(PricingModelTag) && PricingModelTag[0] == 'P'
    ensures PlainLabel(TiersTag) && TiersTag[0] == 'T'
    ensures PlainLabel(StartingPriceTag) && StartingPriceTag[0] == 'S'
    ensures PlainLabel(FreeTrialTag) && FreeTrialTag[0] == 'F'
    ensures PlainLabel(ContactTag) && ContactTag[0] == 'C'
    ensures PlainLabel(DetailsTag) && DetailsTag[0] == 'D'
  {
  }

  lemma PricingModelAndTiers(p: PricingInfo)
    requires PlainPricing(p)
    ensures Field(PricingReply(p), PricingModelTag, "Not specified") == p.pricingModel
    ensures Field(PricingReply(p), TiersTag, "N/A") == p.tiers
  {
    PricingModelField(p);
    PricingTiersField(p);
  }

  lemma PricingTiersField(p: PricingInfo)
    requires PlainPricing(p)
    ensures Field(PricingReply(p), TiersTag, "N/A") == p.tiers
  {
    var ls := PricingReply(p);
    PricingReplyLines(p);
    PricingLabelsPlain();
    assert ls[1] == Labelled(TiersTag, p.tiers);
    FieldOfLabelled(ls, TiersTag, 1, p.tiers, "N/A");
  }

  lemma PricingModelField(p: PricingInfo)
    requires PlainPricing(p)
    ensures Field(PricingReply(p), PricingModelTag, "Not specified") == p.pricingModel
  {
    var ls := PricingReply(p);
    PricingReplyLines(p);
    PricingLabelsPlain();
    assert ls[0] == Labelled(PricingModelTag, p.pricingModel);
    FieldOfLabelled(ls, PricingModelTag, 0, p.pricingModel, "Not specified");
  }

  lemma PricingStartAndTrial(p: PricingInfo)
    requires PlainPricing(p)
    ensures Field(PricingReply(p), StartingPriceTag, "N/A") == p.startingPrice
    ensures Field(PricingReply(p), FreeTrialTag, "N/A") == p.freeTrial
  {
    var ls := PricingReply(p);
    PricingReplyLines(p);
    PricingLabelsPlain();
    assert ls[2] == Labelled(StartingPriceTag, p.startingPrice);
    FieldOfLabelled(ls, StartingPriceTag, 2, p.startingPrice, "N/A");
    assert ls[3] == Labelled(FreeTrialTag, p.freeTrial);
    FieldOfLabelled(ls, FreeTrialTag, 3, p.freeTrial, "N/A");
  }

  lemma PricingContactAndDetails(p: PricingInfo)
    requires PlainPricing(p)
    ensures Field(PricingReply(p), ContactTag, "N/A") == p.contactForQuote
    ensures Field(PricingReply(p), DetailsTag, "Not specified") == p.details
  {
    var ls := PricingReply(p);
    PricingReplyLines(p);
    PricingLabelsPlain();
    assert ls[4] == Labelled(ContactTag, p.contactForQuote);
    FieldOfLabelled(ls, ContactTag, 4, p.contactForQuote, "N/A");
    assert ls[5] == Labelled(DetailsTag, p.details);
    FieldOfLabelled(ls, DetailsTag, 5, p.details, "Not specified");
  }

  /** The requested format's lines are plain, and no label's initial recurs on a later line. */
  lemma PricingReplyLines(p: PricingInfo)
    requires PlainPricing(p)
    ensures var ls := PricingReply(p);
            && PlainLines(ls)
            && (forall j :: 0 < j < 6 ==> Initial(ls[j]) != 'P')
            && (forall j :: 1 < j < 6 ==> Initial(ls[j]) != 'T')
            && (forall j :: 2 < j < 6 ==> Initial(ls[j]) != 'S')
            && (forall j :: 3 < j < 6 ==> Initial(ls[j]) != 'F')
            && (forall j :: 4 < j < 6 ==> Initial(ls[j]) != 'C')
  {
    LabelledIsPlain(PricingModelTag, p.pricingModel);
    LabelledIsPlain(TiersTag, p.tiers);
    LabelledIsPlain(StartingPriceTag, p.startingPrice);
    LabelledIsPlain(FreeTrialTag, p.freeTrial);
    LabelledIsPlain(ContactTag, p.contactForQuote);
    LabelledIsPlain(DetailsTag, p.details);
  }
}

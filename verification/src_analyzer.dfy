/**
 * The reply handling of the first modular analyzer (src/analyzer.py): the
 * feature verdicts with exact-key lookup and their sentinels, the product
 * record, and the result shapes of the deep scan and the pricing
 * extraction. The model call and `json.loads` are one oracle: the decoded
 * value, or the message of whatever either of them raised.
 */
module SrcAnalyzer {
  import opened Wrappers
  import opened Strings
  import opened Json
  import opened FeatureMap
  import LineFields

  /** What the code sees of a JSON-mode model call: the decoded reply or an exception. */
  type Decoded = Result<Json>

  // --------------------------------------------------- Python's view of values

  /**
   * `key in value`: a key of an object, an element of a list, a substring of
   * a text; any other value raises.
   */
  function Member(value: Json, key: string): (r: Result<bool>)
    ensures r.Raised? <==> !(value.JObj? || value.JArr? || value.JStr?)
    ensures value.JObj? ==> r == Ok(Lookup(value.fields, key).Some?)
  {
    match value
    case JObj(fs) => Ok(Lookup(fs, key).Some?)
    case JArr(items) => Ok(JStr(key) in items)
    case JStr(s) => Ok(Contains(s, key))
    case _ => Raised("argument of type '" + TypeName(value) + "' is not iterable")
  }

  /** `value[key]` after a successful membership test: only an object can be indexed by text. */
  function Index(value: Json, key: string): (r: Result<Json>)
    ensures r.Ok? <==> value.JObj? && Lookup(value.fields, key).Some?
    ensures r.Ok? ==> r.value == Lookup(value.fields, key).value
  {
    match value
    case JObj(fs) => (match Lookup(fs, key) case Some(v) => Ok(v) case None => Raised("KeyError"))
    case JArr(_) => Raised("list indices must be integers or slices, not str")
    case _ => Raised("string indices must be integers, not 'str'")
  }

  // ------------------------------------------------ analyze_features_with_ai

  const FeatureNotFound := "Feature not found in response"
  const NoReason := "No reason provided"
  const NoText := "No text to analyze"

  /**
   * One turn of the loop over the requested features: the answer and reason
   * of an entry the reply holds under exactly that key, the "not found"
   * sentinel otherwise, or the exception a malformed reply raises.
   */
  function FeatureEntry(parsed: Json, feature: string): (r: Result<(Json, Json)>)
    ensures parsed.JObj? && Lookup(parsed.fields, feature).None? ==>
              r == Ok((JStr("AI Error"), JStr(FeatureNotFound)))
    ensures parsed.JObj? && Lookup(parsed.fields, feature).Some? ==>
              var e := Lookup(parsed.fields, feature).value;
              && (r.Ok? <==> e.JObj?)
              && (r.Ok? ==> r.value == (Get(e.fields, "answer", JStr("AI Error")), Get(e.fields, "reason", JStr(NoReason))))
  {
    var present :- Member(parsed, feature);
    if !present then Ok((JStr("AI Error"), JStr(FeatureNotFound)))
    else
      var e :- Index(parsed, feature);
      var answer :- GetAttr(e, "answer", JStr("AI Error"));
      Ok((answer, Get(e.fields, "reason", JStr(NoReason))))
  }

  /** Each feature's entry, for the feature loop. */
  function EntryOf(parsed: Json): string -> Result<(Json, Json)> {
    f => FeatureEntry(parsed, f)
  }

  /** The verdict every feature gets when the analysis raised `msg`. */
  function Failed(features: seq<string>, msg: string): Verdicts<Json> {
    Uniform(features, JStr("AI Error"), JStr("Error: " + msg))
  }

  /**
   * `analyze_features_with_ai(url, text, ..., features, model)`: the
   * "Error" sentinel without a model call for empty text; otherwise the
   * per-feature mapping of the reply, or, when anything in the `try` raised,
   * "AI Error" for every feature with the exception's message.
   */
  function AnalyzeFeaturesWithAi(text: string, features: seq<string>, reply: Decoded): (v: Verdicts<Json>)
    ensures KeyedBy(v, features)
    ensures |text| == 0 ==> v == Uniform(features, JStr("Error"), JStr(NoText))
    ensures |text| > 0 && reply.Raised? ==> v == Failed(features, reply.msg)
  {
    if |text| == 0 then Uniform(features, JStr("Error"), JStr(NoText))
    else
      match reply
      case Raised(msg) => Failed(features, msg)
      case Ok(parsed) =>
        match MapFeatures(EntryOf(parsed), features)
        case Ok(v) => v
        case Raised(msg) => Failed(features, msg)
  }

  /** With empty text the reply plays no part: no model call is made. */
  lemma NoTextNoCall(features: seq<string>, reply1: Decoded, reply2: Decoded)
    ensures AnalyzeFeaturesWithAi("", features, reply1) == AnalyzeFeaturesWithAi("", features, reply2)
    ensures forall f :: f in features ==> AnalyzeFeaturesWithAi("", features, reply1).answers[f] == JStr("Error")
  {
  }

  /**
   * When no feature's entry raises, each feature reports its own entry;
   * otherwise every feature reports "AI Error" with the message of the first
   * feature, in the requested order, whose entry raised.
   */
  lemma FeatureVerdict(text: string, features: seq<string>, parsed: Json, k: nat)
    requires |text| > 0 && k < |features|
    ensures var v := AnalyzeFeaturesWithAi(text, features, Ok(parsed));
            if forall i :: 0 <= i < |features| ==> FeatureEntry(parsed, features[i]).Ok? then
              v.answers[features[k]] == FeatureEntry(parsed, features[k]).value.0
              && v.reasons[ReasonKey(features[k])] == FeatureEntry(parsed, features[k]).value.1
            else
              exists j :: 0 <= j < |features| && FeatureEntry(parsed, features[j]).Raised?
                          && (forall i :: 0 <= i < j ==> FeatureEntry(parsed, features[i]).Ok?)
                          && v == Failed(features, FeatureEntry(parsed, features[j]).msg)
  {
    var r := MapFeatures(EntryOf(parsed), features);
    var v := AnalyzeFeaturesWithAi(text, features, Ok(parsed));
    assert v == if r.Ok? then r.value else Failed(features, r.msg);
    assert forall i :: 0 <= i < |features| ==> EntryOf(parsed)(features[i]) == FeatureEntry(parsed, features[i]);
    if r.Raised? {
      var j :| 0 <= j < |features| && EntryOf(parsed)(features[j]) == Raised(r.msg)
               && forall i :: 0 <= i < j ==> EntryOf(parsed)(features[i]).Ok?;
      assert FeatureEntry(parsed, features[j]) == Raised(r.msg);
    } else {
      assert Reports(r.value, features[k], FeatureEntry(parsed, features[k]).value);
    }
  }

  /**
   * The lookup is by exact key only: a feature the reply does not hold under
   * exactly its own name reports "AI Error", and, when no entry raised, the
   * "not found" reason, whatever other keys contain the name.
   */
  lemma ExactKeyOnly(text: string, features: seq<string>, fs: seq<(string, Json)>, k: nat)
    requires |text| > 0 && k < |features| && Lookup(fs, features[k]).None?
    ensures AnalyzeFeaturesWithAi(text, features, Ok(JObj(fs))).answers[features[k]] == JStr("AI Error")
    ensures (forall i :: 0 <= i < |features| ==> FeatureEntry(JObj(fs), features[i]).Ok?) ==>
              AnalyzeFeaturesWithAi(text, features, Ok(JObj(fs))).reasons[ReasonKey(features[k])] == JStr(FeatureNotFound)
  {
    FeatureVerdict(text, features, JObj(fs), k);
  }

  /** An entry filed under "SSO Support" does not answer for "SSO". */
  lemma LongerKeyNotFound()
    ensures var parsed := JObj([("SSO Support", JObj([("answer", JStr("YES"))]))]);
            var v := AnalyzeFeaturesWithAi("text", ["SSO"], Ok(parsed));
            v.answers["SSO"] == JStr("AI Error") && v.reasons[ReasonKey("SSO")] == JStr(FeatureNotFound)
  {
    var fs := [("SSO Support", JObj([("answer", JStr("YES"))]))];
    assert "SSO Support" != "SSO";
    assert Lookup(fs, "SSO").None?;
    ExactKeyOnly("text", ["SSO"], fs, 0);
  }

  /** A present entry without "answer" or "reason" gets the "AI Error" and "No reason provided" defaults. */
  lemma PresentEntryDefaults(fs: seq<(string, Json)>, feature: string, e: seq<(string, Json)>)
    requires Lookup(fs, feature) == Some(JObj(e))
    requires Lookup(e, "answer").None? && Lookup(e, "reason").None?
    ensures FeatureEntry(JObj(fs), feature) == Ok((JStr("AI Error"), JStr(NoReason)))
  {
  }

  /**
   * The first feature, in the requested order, whose entry is present but no
   * object makes every feature fail alike, with the message of the `get` it
   * does not have.
   */
  lemma NonObjectEntryFailsAll(text: string, fs: seq<(string, Json)>, features: seq<string>, j: nat)
    requires |text| > 0 && j < |features|
    requires forall i :: 0 <= i < j ==> FeatureEntry(JObj(fs), features[i]).Ok?
    requires Lookup(fs, features[j]).Some? && !Lookup(fs, features[j]).value.JObj?
    ensures AnalyzeFeaturesWithAi(text, features, Ok(JObj(fs)))
         == Failed(features, NoGet(Lookup(fs, features[j]).value))
  {
    var parsed := JObj(fs);
    assert FeatureEntry(parsed, features[j]) == Raised(NoGet(Lookup(fs, features[j]).value));
    FeatureVerdict(text, features, parsed, j);
    var j' :| 0 <= j' < |features| && FeatureEntry(parsed, features[j']).Raised?
              && (forall i :: 0 <= i < j' ==> FeatureEntry(parsed, features[i]).Ok?)
              && AnalyzeFeaturesWithAi(text, features, Ok(parsed)) == Failed(features, FeatureEntry(parsed, features[j']).msg);
    assert j' == j;
  }

  // ------------------------------------------------------ extract_product_info

  /** The record `extract_product_info` returns. */
  datatype ProductRecord = ProductRecord(url: string, productName: Json, description: Json, features: string)

  /** `for feat in value`: the items of a list, the characters of a text, the keys of an object. */
  function Items(value: Json): (r: Result<seq<Json>>)
    ensures r.Raised? <==> !(value.JArr? || value.JStr? || value.JObj?)
    ensures value.JArr? ==> r == Ok(value.items)
  {
    match value
    case JArr(items) => Ok(items)
    case JStr(s) => Ok(seq(|s|, i requires 0 <= i < |s| => JStr([s[i]])))
    case JObj(fs) => Ok(seq(|fs|, i requires 0 <= i < |fs| => JStr(fs[i].0)))
    case _ => Raised("'" + TypeName(value) + "' object is not iterable")
  }

  /** `f"• {feat}"` for each feature. */
  function BulletLines(items: seq<Json>): (r: seq<string>)
    ensures |r| == |items|
    ensures forall i :: 0 <= i < |items| ==> r[i] == [LineFields.Bullet, ' '] + Show(items[i])
  {
    seq(|items|, i requires 0 <= i < |items| => [LineFields.Bullet, ' '] + Show(items[i]))
  }


  /**
   * `extract_product_info(url, text, ...)`: the "No content" record for empty
   * text; the reply's name, description and bulleted features, with their
   * defaults; the "Extraction failed" record when anything raised.
   */
  function ExtractProductInfo(url: string, text: string, reply: Decoded): (r: ProductRecord)
    ensures r.url == url
    ensures |text| == 0 ==> r == ProductRecord(url, JStr("Error"), JStr("No content"), "")
    ensures |text| > 0 && reply.Ok? && reply.value.JObj? && Lookup(reply.value.fields, "features").None? ==>
              r.features == "" && r.productName == Get(reply.value.fields, "product_name", JStr("Not specified"))
    ensures |text| > 0 && !(reply.Ok? && reply.value.JObj?) ==>
              r == ProductRecord(url, JStr("AI Error"), JStr("Extraction failed"), "")
    ensures |text| > 0 && ProductFields(url, reply).Ok? ==>
              && r.productName == Get(reply.value.fields, "product_name", JStr("Not specified"))
              && r.description == Get(reply.value.fields, "description", JStr("Not available"))
    ensures |text| > 0 && ProductFields(url, reply).Raised? ==>
              r == ProductRecord(url, JStr("AI Error"), JStr("Extraction failed"), "")
  {
    if |text| == 0 then ProductRecord(url, JStr("Error"), JStr("No content"), "")
    else
      match ProductFields(url, reply)
      case Ok(record) => record
      case Raised(_) => ProductRecord(url, JStr("AI Error"), JStr("Extraction failed"), "")
  }

  /** The `try` body after the model call. */
  function ProductFields(url: string, reply: Decoded): (r: Result<ProductRecord>)
    ensures r.Ok? ==> r.value.url == url
    ensures r.Ok? ==> reply.Ok? && reply.value.JObj?
    ensures reply.Ok? && reply.value.JObj? ==>
              (r.Ok? <==> Items(Get(reply.value.fields, "features", JArr([]))).Ok?)
  {
    var data :- reply;
    var featureValue :- GetAttr(data, "features", JArr([]));
    var items :- Items(featureValue);
    var name := Get(data.fields, "product_name", JStr("Not specified"));
    var description := Get(data.fields, "description", JStr("Not available"));
    Ok(ProductRecord(url, name, description, JoinWith(BulletLines(items), "\n")))
  }

  /**
   * A list of one-line text features is rendered one bullet per line: the
   * record's features split at the line breaks give the features back.
   */
  lemma ProductFeaturesRoundTrip(url: string, text: string, fields: seq<(string, Json)>, names: seq<string>)
    requires |text| > 0 && |names| > 0
    requires forall i :: 0 <= i < |names| ==> '\n' !in names[i]
    requires Lookup(fields, "features") == Some(JArr(seq(|names|, i requires 0 <= i < |names| => JStr(names[i]))))
    ensures var lines := SplitOn(ExtractProductInfo(url, text, Ok(JObj(fields))).features, '\n');
            |lines| == |names| && forall i :: 0 <= i < |names| ==> lines[i] == [LineFields.Bullet, ' '] + names[i]
  {
    var items := seq(|names|, i requires 0 <= i < |names| => JStr(names[i]));
    var bullets := BulletLines(items);
    assert ExtractProductInfo(url, text, Ok(JObj(fields))).features == JoinWith(bullets, "\n") by {
      assert GetAttr(JObj(fields), "features", JArr([])) == Ok(JArr(items));
      assert Items(JArr(items)) == Ok(items);
    }
    assert forall i :: 0 <= i < |bullets| ==> bullets[i] == [LineFields.Bullet, ' '] + names[i];
    assert SplitOn(JoinWith(bullets, "\n"), '\n') == bullets by {
      forall i | 0 <= i < |bullets|
        ensures '\n' !in bullets[i]
      {
        assert bullets[i] == [LineFields.Bullet, ' '] + names[i];
      }
      SplitOnJoin(bullets, '\n');
    }
  }

  // ----------------------------------------- deep_scan_page, extract_pricing_details

  /**
   * `deep_scan_page(url, text, model)`: the decoded reply as it is, or Python's
   * `None` (JSON null) for empty text or any failure.
   */
  function DeepScanPage(text: string, reply: Decoded): (r: Json)
    ensures |text| == 0 || reply.Raised? ==> r == JNull
    ensures |text| > 0 && reply.Ok? ==> r == reply.value
  {
    if |text| == 0 then JNull
    else
      match reply
      case Ok(parsed) => parsed
      case Raised(_) => JNull
  }

  /**
   * `extract_pricing_details(url, text, model)`: the decoded object with its
   * "url" set to the page, or `None` (JSON null) for empty text, any failure,
   * or a reply that is not an object (assigning a key to it raises).
   */
  function ExtractPricingDetails(url: string, text: string, reply: Decoded): (r: Json)
    ensures r == JNull || r.JObj?
    ensures r.JObj? ==> Lookup(r.fields, "url") == Some(JStr(url))
    ensures r.JObj? <==> |text| > 0 && reply.Ok? && reply.value.JObj?
  {
    if |text| == 0 then JNull
    else
      match reply
      case Ok(JObj(fs)) => JObj(Set(fs, "url", JStr(url)))
      case _ => JNull
  }

  /** Besides "url", a pricing result holds exactly what the reply held. */
  lemma PricingKeepsReply(url: string, text: string, fs: seq<(string, Json)>, key: string)
    requires |text| > 0 && key != "url"
    ensures Lookup(ExtractPricingDetails(url, text, Ok(JObj(fs))).fields, key) == Lookup(fs, key)
  {
    SetKeepsOthers(fs, "url", JStr(url), key);
  }
}

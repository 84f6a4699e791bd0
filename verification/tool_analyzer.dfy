/**
 * The reply post-processing of the modular generation's analyzer
 * (market-research-tool/src/analyzer.py): text clean-up, the domain-derived
 * company hint, the two-phase feature lookup, the product-reply line parser,
 * and the result shapes of the deep scan and the pricing extraction.
 * Every model call is an oracle: its decoded reply is a parameter.
 */
module ToolAnalyzer {
  import opened Wrappers
  import opened Strings
  import opened Seqs
  import opened Json
  import opened LineFields
  import UrlParse
  import opened FeatureMap

  // ---------------------------------------------------------------- clean_text

  /** No two consecutive ASCII spaces. */
  predicate NoDoubleSpace(s: string) {
    forall i :: 0 <= i < |s| - 1 ==> !(s[i] == ' ' && s[i + 1] == ' ')
  }

  /** `re.sub(' +', ' ', s)`: every run of spaces collapsed to one space. */
  function Squeeze(s: string): (r: string)
    ensures |r| <= |s|
    ensures |r| > 0 <==> |s| > 0
    ensures |r| > 0 ==> r[0] == s[0]
    ensures NoDoubleSpace(r)
  {
    if |s| == 0 then ""
    else if |s| >= 2 && s[0] == ' ' && s[1] == ' ' then Squeeze(s[1..])
    else [s[0]] + Squeeze(s[1..])
  }

  /**
   * `clean_text(text)`: empty for empty input; otherwise newlines become
   * spaces, carriage returns go, space runs collapse and the ends are stripped.
   */
  function CleanText(text: string): (r: string)
    ensures '\n' !in r && '\r' !in r
    ensures NoDoubleSpace(r)
    ensures |r| > 0 ==> !IsSpace(r[0]) && !IsSpace(r[|r| - 1])
  {
    if |text| == 0 then ""
    else
      var t := Unbreak(text);
      SqueezeAbsent(t, '\n');
      SqueezeAbsent(t, '\r');
      var sq := Squeeze(t);
      StripKeeps(sq, '\n');
      StripKeeps(sq, '\r');
      Strip(sq)
  }

  /** The first two replacements of `clean_text`: newlines to spaces, carriage returns deleted. */
  function Unbreak(text: string): (r: string)
    ensures '\n' !in r && '\r' !in r
  {
    var t := ReplaceChar(text, '\n', ' ');
    assert '\n' !in t by {
      assert forall i :: 0 <= i < |t| ==> t[i] != '\n';
    }
    DeleteChar(t, '\r')
  }

  lemma {:induction false} SqueezeAbsent(s: string, c: char)
    requires c !in s
    ensures c !in Squeeze(s)
  {
    if |s| > 0 {
      SqueezeAbsent(s[1..], c);
    }
  }

  /** A slice of a string keeps its characters and its freedom from double spaces. */
  lemma StripKeeps(s: string, c: char)
    ensures c !in s ==> c !in Strip(s)
    ensures NoDoubleSpace(s) ==> NoDoubleSpace(Strip(s))
  {
    var k := StripIsSlice(s);
    var r := Strip(s);
    assert forall i :: 0 <= i < |r| ==> r[i] == s[k + i];
  }

  lemma {:induction false} SqueezeUnchanged(s: string)
    requires NoDoubleSpace(s)
    ensures Squeeze(s) == s
  {
    if |s| > 0 {
      assert NoDoubleSpace(s[1..]);
      SqueezeUnchanged(s[1..]);
    }
  }

  lemma {:induction false} VisibleSqueeze(s: string)
    ensures Visible(Squeeze(s)) == Visible(s)
  {
    if |s| > 0 {
      VisibleSqueeze(s[1..]);
    }
  }

  /** Cleaning cleaned text changes nothing. */
  lemma CleanTextIdempotent(text: string)
    ensures CleanText(CleanText(text)) == CleanText(text)
  {
    var r := CleanText(text);
    if |r| > 0 {
      ReplaceCharAbsent(r, '\n', ' ');
      DeleteCharAbsent(r, '\r');
      assert Unbreak(r) == r;
      SqueezeUnchanged(r);
      StripUnchanged(r);
    }
  }

  /** Cleaning only touches whitespace: the visible characters survive, in order. */
  lemma CleanTextKeepsVisible(text: string)
    ensures Visible(CleanText(text)) == Visible(text)
  {
    if |text| > 0 {
      var a := ReplaceChar(text, '\n', ' ');
      var b := DeleteChar(a, '\r');
      VisibleReplaceChar(text, '\n', ' ');
      VisibleDeleteChar(a, '\r');
      VisibleSqueeze(b);
      VisibleStrip(Squeeze(b));
    }
  }

  // ------------------------------------------------------- company identity

  /**
   * The domain hint of `extract_company_identity`: the netloc with every
   * "www." removed, cut at the first ".", capitalized. `None` where
   * `urlparse` raises, which happens outside the function's `try`.
   */
  function DomainHint(url: string): (r: Option<string>)
    ensures r.Some? <==> UrlParse.Parse(url).Some?
    ensures r.Some? ==> '.' !in r.value
  {
    match UrlParse.Parse(url)
    case None => None
    case Some(p) =>
      var name := CutAt(RemoveAll(p.netloc, "www."), '.');
      CapitalizeKeepsDot(name);
      Some(Capitalize(name))
  }

  lemma CapitalizeKeepsDot(s: string)
    requires '.' !in s
    ensures '.' !in Capitalize(s)
  {
    if |s| > 0 {
      var r := Capitalize(s);
      assert forall i :: 0 <= i < |r| ==> r[i] == (if i == 0 then UpperChar(s[0]) else LowerChar(s[i]));
    }
  }

  /** No occurrence of `pat` in `a + b` starts inside `a`. */
  predicate NoMatchBefore(a: string, b: string, pat: string) {
    forall i :: 0 <= i < |a| ==> !(pat <= a[i..] + b)
  }

  /** Removal passes over a stretch in which no occurrence of `pat` starts. */
  lemma {:induction false} RemoveAllPassOver(a: string, b: string, pat: string)
    requires |pat| > 0
    requires NoMatchBefore(a, b, pat)
    ensures RemoveAll(a + b, pat) == a + RemoveAll(b, pat)
  {
    if |a| > 0 {
      var tail := a[1..];
      var z := RemoveAll(b, pat);
      assert RemoveAll(a + b, pat) == [a[0]] + (tail + z) by {
        NoMatchBeforeTail(a, b, pat);
        RemoveAllPassOver(tail, b, pat);
      }
      assert [a[0]] + (tail + z) == a + z by {
        assert a == [a[0]] + tail;
      }
    } else {
      assert a + b == b;
    }
  }

  /** One step of `RemoveAllPassOver`: the head is kept, the rest still has no match. */
  lemma NoMatchBeforeTail(a: string, b: string, pat: string)
    requires |pat| > 0 && |a| > 0
    requires NoMatchBefore(a, b, pat)
    ensures NoMatchBefore(a[1..], b, pat)
    ensures RemoveAll(a + b, pat) == [a[0]] + RemoveAll(a[1..] + b, pat)
  {
    var s := a + b;
    assert !(pat <= s) by {
      assert a[0..] == a;
    }
    assert s[1..] == a[1..] + b;
    forall i | 0 <= i < |a[1..]|
      ensures !(pat <= a[1..][i..] + b)
    {
      assert a[1..][i..] == a[i + 1..];
    }
  }

  /** No "www." starts inside a dot-free name that does not end in "www" and is followed by a dot. */
  lemma NoWwwInside(name: string, rest: string)
    requires '.' !in name
    requires !(|name| >= 3 && name[|name| - 3..] == "www")
    requires |rest| > 0 && rest[0] == '.'
    ensures NoMatchBefore(name, rest, "www.")
  {
    forall i | 0 <= i < |name|
      ensures !("www." <= name[i..] + rest)
    {
      var t := name[i..] + rest;
      var n := |name| - i;
      if n > 3 {
        assert t[3] == name[i + 3] && name[i + 3] in name;
      } else if n == 3 {
        assert name[|name| - 3..] == t[..3];
      } else {
        assert t[n] == '.';
      }
    }
  }

  lemma {:induction false} CutAtComposed(a: string, c: char, b: string)
    requires c !in a
    ensures CutAt(a + [c] + b, c) == a
  {
    if |a| == 0 {
      assert a + [c] + b == [c] + b;
    } else {
      assert (a + [c] + b)[1..] == a[1..] + [c] + b;
      CutAtComposed(a[1..], c, b);
    }
  }

  /** Characters that may appear in a host as written here: no delimiter, bracket, tab or line break. */
  predicate PlainHost(s: string) {
    forall i :: 0 <= i < |s| ==> PlainHostChar(s[i])
  }

  predicate PlainHostChar(c: char) {
    !UrlParse.IsAuthorityEnd(c) && c != '[' && c != ']' && c != '\t' && c != '\r' && c != '\n'
  }

  lemma PlainHostAppend(a: string, b: string)
    requires PlainHost(a) && PlainHost(b)
    ensures PlainHost(a + b)
  {
    assert forall i :: |a| <= i < |a + b| ==> (a + b)[i] == b[i - |a|];
  }

  lemma PlainHostFacts(s: string)
    requires PlainHost(s)
    ensures forall i :: 0 <= i < |s| ==> !UrlParse.IsAuthorityEnd(s[i])
    ensures '[' !in s && ']' !in s && UrlParse.Clean(s)
  {
    assert forall c :: c in s ==> PlainHostChar(c);
  }

  lemma CleanAppend(a: string, b: string)
    requires UrlParse.Clean(a) && UrlParse.Clean(b)
    ensures UrlParse.Clean(a + b)
  {
    assert forall c :: c in a + b ==> c in a || c in b;
  }

  lemma SchemeIsClean(scheme: string)
    requires UrlParse.IsScheme(scheme)
    ensures UrlParse.Clean(scheme)
  {
    assert forall c :: c in scheme ==> UrlParse.IsSchemeChar(c);
  }

  /** The text of the hint before capitalization, for a host `name.tld` optionally behind "www.". */
  lemma HostHintText(www: bool, name: string, tld: string)
    requires '.' !in name
    requires !(|name| >= 3 && name[|name| - 3..] == "www")
    ensures CutAt(RemoveAll((if www then "www." else "") + name + "." + tld, "www."), '.') == name
  {
    var rest := "." + tld;
    var tail := RemoveAll(tld, "www.");
    var host := (if www then "www." else "") + name + "." + tld;
    assert RemoveAll(host, "www.") == RemoveAll(name + rest, "www.") by {
      if www {
        assert host == "www." + (name + rest);
        RemoveAllHit("www.", name + rest);
      } else {
        assert host == name + rest;
      }
    }
    assert RemoveAll(name + rest, "www.") == name + ['.'] + tail by {
      NameKept(name, rest);
      DotKept(tld);
      assert name + ("." + tail) == name + ['.'] + tail;
    }
    CutAtComposed(name, '.', tail);
  }

  lemma NameKept(name: string, rest: string)
    requires '.' !in name
    requires !(|name| >= 3 && name[|name| - 3..] == "www")
    requires |rest| > 0 && rest[0] == '.'
    ensures RemoveAll(name + rest, "www.") == name + RemoveAll(rest, "www.")
  {
    NoWwwInside(name, rest);
    RemoveAllPassOver(name, rest, "www.");
  }

  lemma DotKept(tld: string)
    ensures RemoveAll("." + tld, "www.") == "." + RemoveAll(tld, "www.")
  {
    assert ("." + tld)[1..] == tld;
    assert !("www." <= "." + tld) by {
      assert ("." + tld)[0] == '.';
    }
  }

  /**
   * For a host `name.tld`, optionally behind "www.", the hint is the name,
   * capitalized. A name ending in "www" is excluded: there the removal of
   * "www." reaches across the dot (see `WwwRemovedEverywhere`).
   */
  lemma DomainHintOfHost(scheme: string, www: bool, name: string, tld: string, path: string)
    requires UrlParse.IsScheme(scheme)
    requires PlainHost(name) && '.' !in name
    requires !(|name| >= 3 && name[|name| - 3..] == "www")
    requires PlainHost(tld)
    requires UrlParse.Clean(path) && (|path| > 0 ==> UrlParse.IsAuthorityEnd(path[0]))
    ensures var host := (if www then "www." else "") + name + "." + tld;
            DomainHint(scheme + "://" + host + path) == Some(Capitalize(name))
  {
    var pre := if www then "www." else "";
    var host := pre + name + "." + tld;
    assert PlainHost(pre) && PlainHost(".");
    PlainHostAppend(pre, name);
    PlainHostAppend(pre + name, ".");
    PlainHostAppend(pre + name + ".", tld);
    ParsePlainHost(scheme, host, path);
    HostHintText(www, name, tld);
  }

  /** `ParseComposed` for a host of plain characters and a clean path. */
  lemma ParsePlainHost(scheme: string, host: string, path: string)
    requires UrlParse.IsScheme(scheme) && PlainHost(host)
    requires UrlParse.Clean(path) && (|path| > 0 ==> UrlParse.IsAuthorityEnd(path[0]))
    ensures UrlParse.Parse(scheme + "://" + host + path) == Some(UrlParse.Parts(Lower(scheme), host))
  {
    PlainHostFacts(host);
    SchemeIsClean(scheme);
    assert UrlParse.Clean("://");
    CleanAppend(scheme, "://");
    CleanAppend(scheme + "://", host);
    CleanAppend(scheme + "://" + host, path);
    UrlParse.ParseComposed(scheme, host, path);
  }

  /**
   * `replace('www.', '')` removes every occurrence, not only a leading one.
   * When the first label itself ends in "www", the removal swallows the dot
   * and the hint runs on into the next label: "xwww.com" gives "Xcom".
   */
  lemma WwwRemovedEverywhere(scheme: string, x: string, tld: string, path: string)
    requires UrlParse.IsScheme(scheme)
    requires PlainHost(x) && '.' !in x
    requires PlainHost(tld) && '.' !in tld
    requires UrlParse.Clean(path) && (|path| > 0 ==> UrlParse.IsAuthorityEnd(path[0]))
    ensures var host := x + "www." + tld;
            DomainHint(scheme + "://" + host + path) == Some(Capitalize(x + RemoveAll(tld, "www.")))
  {
    var host := x + "www." + tld;
    WwwIsPlain();
    PlainHostAppend(x, "www.");
    PlainHostAppend(x + "www.", tld);
    ParsePlainHost(scheme, host, path);
    WwwHostText(x, tld);
  }

  lemma WwwIsPlain()
    ensures PlainHost("www.")
  {
  }

  /** The text of the hint before capitalization for a host `x` + "www." + `tld`. */
  lemma WwwHostText(x: string, tld: string)
    requires '.' !in x && '.' !in tld
    ensures CutAt(RemoveAll(x + "www." + tld, "www."), '.') == x + RemoveAll(tld, "www.")
  {
    NoWwwBeforeWww(x, tld);
    assert x + "www." + tld == x + ("www." + tld);
    RemoveAllPassOver(x, "www." + tld, "www.");
    RemoveAllHit("www.", tld);
    RemoveAllAbsent(tld, "www.", '.');
    assert '.' !in x + RemoveAll(tld, "www.");
    CutAtAbsent(x + RemoveAll(tld, "www."), '.');
  }

  /** In a dot-free stretch followed by "www.", no occurrence of "www." starts early. */
  lemma NoWwwBeforeWww(x: string, tld: string)
    requires '.' !in x
    ensures NoMatchBefore(x, "www." + tld, "www.")
  {
    forall i | 0 <= i < |x|
      ensures !("www." <= x[i..] + ("www." + tld))
    {
      var t := x[i..] + ("www." + tld);
      var n := |x| - i;
      if n > 3 {
        assert t[3] == x[i + 3] && x[i + 3] in x;
      } else {
        assert t[3] == "www."[3 - n];
      }
    }
  }

  lemma {:induction false} RemoveAllAbsent(s: string, pat: string, c: char)
    requires c !in s
    ensures c !in RemoveAll(s, pat)
    decreases |s|
  {
    if |pat| > 0 && pat <= s {
      RemoveAllAbsent(s[|pat|..], pat, c);
    } else if |pat| > 0 && |s| > 0 {
      RemoveAllAbsent(s[1..], pat, c);
    }
  }

  lemma {:induction false} CutAtAbsent(s: string, c: char)
    requires c !in s
    ensures CutAt(s, c) == s
  {
    if |s| > 0 {
      CutAtAbsent(s[1..], c);
    }
  }

  lemma RemoveAllHit(pat: string, rest: string)
    requires |pat| > 0
    ensures RemoveAll(pat + rest, pat) == RemoveAll(rest, pat)
  {
    assert (pat + rest)[|pat|..] == rest;
  }

  /**
   * `extract_company_identity`: the reply's `company_name` when the reply is a
   * decoded object that has one, else the domain hint. `None` models the
   * `ValueError` of `urlparse`, which escapes the function.
   */
  function ExtractCompanyIdentity(url: string, reply: JsonReply): (r: Option<Json>)
    ensures r.Some? <==> DomainHint(url).Some?
    ensures r.Some? && !(reply.Decoded? && reply.value.JObj? && Lookup(reply.value.fields, "company_name").Some?)
            ==> r.value == JStr(DomainHint(url).value)
    ensures r.Some? && reply.Decoded? && reply.value.JObj?
            ==> (Lookup(reply.value.fields, "company_name").Some? ==> r.value == Lookup(reply.value.fields, "company_name").value)
  {
    match DomainHint(url)
    case None => None
    case Some(hint) =>
      match reply
      case Decoded(JObj(fields)) => Some(Get(fields, "company_name", JStr(hint)))
      case _ => Some(JStr(hint))
  }

  // ------------------------------------------------ analyze_features_with_ai

  /**
   * The fallback scan: the value of the first key, in the object's order,
   * whose lower-cased form contains the requested name lower-cased.
   */
  function FuzzyMatch(results: seq<(string, Json)>, feature: string): (r: Option<Json>)
    ensures r.None? <==> forall i :: 0 <= i < |results| ==> !Contains(Lower(results[i].0), Lower(feature))
  {
    if |results| == 0 then None
    else if Contains(Lower(results[0].0), Lower(feature)) then Some(results[0].1)
    else
      var r := FuzzyMatch(results[1..], feature);
      assert forall i :: 1 <= i < |results| ==> results[i] == results[1..][i - 1];
      r
  }

  /**
   * `feat_data` once both lookup phases have run, when it is truthy; `None`
   * when the feature counts as missing.
   */
  function FeatureData(results: seq<(string, Json)>, feature: string): (r: Option<Json>)
    ensures r.Some? ==> Truthy(r.value)
    ensures var exact := Lookup(results, feature);
            exact.Some? && Truthy(exact.value) ==> r == exact
    ensures var exact := Lookup(results, feature);
            var fuzzy := FuzzyMatch(results, feature);
            !(exact.Some? && Truthy(exact.value)) ==> (r.Some? <==> fuzzy.Some? && Truthy(fuzzy.value)) && (r.Some? ==> r == fuzzy)
  {
    var exact := Lookup(results, feature);
    if exact.Some? && Truthy(exact.value) then exact
    else
      match FuzzyMatch(results, feature)
      case Some(v) => if Truthy(v) then Some(v) else None
      case None => None
  }

  /**
   * `clean_text` applied to a decoded value: falsy values give "", text is
   * cleaned, any other value raises because it has no `replace`.
   */
  function CleanJson(v: Json): (r: Option<string>)
    ensures r.None? <==> Truthy(v) && !v.JStr?
    ensures v.JStr? ==> r == Some(CleanText(v.s))
  {
    if !Truthy(v) then Some("")
    else
      match v
      case JStr(s) => Some(CleanText(s))
      case _ => None
  }

  /** What `clean_text` returns is left alone by a second cleaning. */
  lemma CleanJsonIsClean(v: Json)
    requires CleanJson(v).Some?
    ensures CleanText(CleanJson(v).value) == CleanJson(v).value
  {
    if v.JStr? {
      CleanTextIdempotent(v.s);
    }
  }

  /** One feature's answer and reason, or the exception the loop raises for it. */
  function FeatureEntry(results: Json, feature: string): (r: Result<(Json, string)>)
    ensures !results.JObj? ==> r.Raised?
    ensures results.JObj? && FeatureData(results.fields, feature).None? ==> r == Ok((JStr("Unsure"), "AI data missing"))
    ensures results.JObj? && FeatureData(results.fields, feature).Some? ==>
              var d := FeatureData(results.fields, feature).value;
              && (!d.JObj? ==> r.Raised?)
              && (d.JObj? ==> var reason := CleanJson(Get(d.fields, "reason", JStr("")));
                              && (r.Ok? <==> reason.Some?)
                              && (r.Ok? ==> r.value == (Get(d.fields, "answer", JStr("Unsure")), reason.value)))
  {
    match results
    case JObj(fs) =>
      (match FeatureData(fs, feature)
       case None => Ok((JStr("Unsure"), "AI data missing"))
       case Some(JObj(d)) =>
         (match CleanJson(Get(d, "reason", JStr("")))
          case Some(reason) => Ok((Get(d, "answer", JStr("Unsure")), reason))
          case None => Raised("reason has no replace"))
       case Some(_) => Raised("feature data has no get"))
    case _ => Raised("results has no get")
  }

  /** Each feature's entry, for the feature loop. */
  function EntryOf(results: Json): string -> Result<(Json, string)> {
    f => FeatureEntry(results, f)
  }

  /**
   * `analyze_features_with_ai` after the model call: the per-feature mapping
   * of the decoded reply, or a uniform "Unsure" verdict when the reply did not
   * decode ("Invalid AI response format") or anything else raised
   * ("Error during analysis").
   */
  function AnalyzeFeaturesWithAi(features: seq<string>, reply: JsonReply): (v: Verdicts<string>)
    ensures KeyedBy(v, features)
    ensures reply.Undecodable? ==> v == Uniform(features, JStr("Unsure"), "Invalid AI response format")
    ensures reply.CallFailed? ==> v == Uniform(features, JStr("Unsure"), "Error during analysis")
    ensures reply.Decoded? && !reply.value.JObj? ==> v == Uniform(features, JStr("Unsure"), "Error during analysis")
  {
    match reply
    case CallFailed(_) => Uniform(features, JStr("Unsure"), "Error during analysis")
    case Undecodable => Uniform(features, JStr("Unsure"), "Invalid AI response format")
    case Decoded(data) =>
      match data
      case JObj(d) => ObjectVerdicts(features, d)
      case _ => Uniform(features, JStr("Unsure"), "Error during analysis")
  }

  /**
   * The verdicts for an object reply: the feature loop over its `results`,
   * or "Error during analysis" for every feature when the loop raised.
   */
  function ObjectVerdicts(features: seq<string>, d: seq<(string, Json)>): (v: Verdicts<string>)
    ensures KeyedBy(v, features)
  {
    match MapFeatures(EntryOf(Get(d, "results", JObj([]))), features)
    case Ok(v) => v
    case Raised(_) => Uniform(features, JStr("Unsure"), "Error during analysis")
  }

  /**
   * The reported verdict of one feature for a decoded object reply: its own
   * entry when every feature mapped, else the "Error during analysis" sentinel.
   */
  lemma FeatureVerdict(features: seq<string>, d: seq<(string, Json)>, k: nat)
    requires k < |features|
    ensures var v := AnalyzeFeaturesWithAi(features, Decoded(JObj(d)));
            var results := Get(d, "results", JObj([]));
            if forall i :: 0 <= i < |features| ==> FeatureEntry(results, features[i]).Ok? then
              v.answers[features[k]] == FeatureEntry(results, features[k]).value.0
              && v.reasons[ReasonKey(features[k])] == FeatureEntry(results, features[k]).value.1
            else
              v.answers[features[k]] == JStr("Unsure")
              && v.reasons[ReasonKey(features[k])] == "Error during analysis"
  {
    var results := Get(d, "results", JObj([]));
    var r := MapFeatures(EntryOf(results), features);
    var v := AnalyzeFeaturesWithAi(features, Decoded(JObj(d)));
    assert v == ObjectVerdicts(features, d);
    assert forall i :: 0 <= i < |features| ==> EntryOf(results)(features[i]) == FeatureEntry(results, features[i]);
    if r.Ok? {
      assert v == r.value;
      assert Reports(r.value, features[k], FeatureEntry(results, features[k]).value);
    } else {
      assert v == Uniform(features, JStr("Unsure"), "Error during analysis");
    }
  }

  /** A feature whose data is missing is "Unsure" for "AI data missing" when nothing else raised. */
  lemma MissingFeatureIsUnsure(features: seq<string>, d: seq<(string, Json)>, fs: seq<(string, Json)>, k: nat)
    requires k < |features|
    requires Get(d, "results", JObj([])) == JObj(fs)
    requires FeatureData(fs, features[k]).None?
    requires forall i :: 0 <= i < |features| ==> FeatureEntry(JObj(fs), features[i]).Ok?
    ensures AnalyzeFeaturesWithAi(features, Decoded(JObj(d))).answers[features[k]] == JStr("Unsure")
    ensures AnalyzeFeaturesWithAi(features, Decoded(JObj(d))).reasons[ReasonKey(features[k])] == "AI data missing"
  {
    FeatureVerdict(features, d, k);
  }

  /** A matched object without "answer" reports "Unsure"; its reason is cleaned. */
  lemma MatchedEntryDefaults(fs: seq<(string, Json)>, feature: string, e: seq<(string, Json)>, reason: string)
    requires FeatureData(fs, feature) == Some(JObj(e))
    requires Lookup(e, "answer").None?
    requires Lookup(e, "reason") == Some(JStr(reason))
    ensures FeatureEntry(JObj(fs), feature) == Ok((JStr("Unsure"), CleanText(reason)))
  {
  }

  /**
   * Second phase: without a truthy exact entry, the first key (in the reply's
   * order) whose lower-case form contains the requested name decides.
   */
  lemma FuzzyFallback(fs: seq<(string, Json)>, feature: string, j: nat)
    requires j < |fs|
    requires Lookup(fs, feature).None? || !Truthy(Lookup(fs, feature).value)
    requires Contains(Lower(fs[j].0), Lower(feature)) && Truthy(fs[j].1)
    requires forall i :: 0 <= i < j ==> !Contains(Lower(fs[i].0), Lower(feature))
    ensures FeatureData(fs, feature) == Some(fs[j].1)
  {
    FuzzyFirst(fs, feature, j);
  }

  lemma {:induction false} FuzzyFirst(fs: seq<(string, Json)>, feature: string, j: nat)
    requires j < |fs|
    requires Contains(Lower(fs[j].0), Lower(feature))
    requires forall i :: 0 <= i < j ==> !Contains(Lower(fs[i].0), Lower(feature))
    ensures FuzzyMatch(fs, feature) == Some(fs[j].1)
  {
    if j > 0 {
      assert forall i :: 0 <= i < j - 1 ==> fs[1..][i] == fs[i + 1];
      FuzzyFirst(fs[1..], feature, j - 1);
    }
  }

  /** A key differing from the requested name only in letter case is found. */
  lemma CaseVariantFound(feature: string, key: string, v: Json)
    requires Lower(key) == Lower(feature) && Truthy(v)
    ensures FeatureData([(key, v)], feature) == Some(v)
  {
    if key != feature {
      ContainsSelf(Lower(key));
      FuzzyFallback([(key, v)], feature, 0);
    }
  }

  /** The requested name must lie inside the key: a key shorter than the name ("SSO" for "SSO Support") is never found. */
  lemma ShorterKeyMissed(key: string, feature: string, v: Json)
    requires |key| < |feature|
    ensures FeatureData([(key, v)], feature).None?
  {
    ContainsLonger(Lower(key), Lower(feature));
  }

  /** Nor is the name written without its spaces ("MobileApp" for "Mobile App"). */
  lemma SpacingVariantMissed(feature: string, v: Json)
    requires ' ' in feature
    ensures FeatureData([(DeleteChar(feature, ' '), v)], feature).None?
  {
    DeleteCharLength(feature, ' ');
    ShorterKeyMissed(DeleteChar(feature, ' '), feature, v);
  }

  // ------------------------------------------------------ extract_product_info

  predicate IsBulletLine(line: string) {
    StartsWith(line, [Bullet]) || StartsWith(line, "-")
  }

  /** A feature bullet re-emitted: markers removed, cut at the first ":", stripped, prefixed "• ". */
  function BulletEntry(line: string): (r: string)
    ensures StartsWith(r, [Bullet, ' '])
    ensures Bullet !in r[2..] && ':' !in r[2..]
  {
    var name := Strip(CutAt(DeleteChar(line, Bullet), ':'));
    StripKeeps(CutAt(DeleteChar(line, Bullet), ':'), Bullet);
    StripKeeps(CutAt(DeleteChar(line, Bullet), ':'), ':');
    assert ([Bullet, ' '] + name)[2..] == name;
    [Bullet, ' '] + name
  }

  /** A bullet's name is what precedes its first ":", bullet marks removed and stripped. */
  lemma BulletEntryCut(head: string, rest: string)
    requires ':' !in head && (|rest| == 0 || rest[0] == ':')
    ensures BulletEntry(head + rest) == [Bullet, ' '] + Strip(DeleteChar(head, Bullet))
  {
    DeleteCharAppend(head, rest, Bullet);
    var d := DeleteChar(head, Bullet);
    var e := DeleteChar(rest, Bullet);
    assert |e| == 0 || e[0] == ':' by {
      if |rest| > 0 {
        assert e == [':'] + DeleteChar(rest[1..], Bullet);
      }
    }
    CutAtBoundary(d, e, ':');
  }

  /** "• name: text" is re-emitted as "• name". */
  lemma BulletedNameEntry(name: string, rest: string)
    requires Bullet !in name && ':' !in name && Strip(name) == name
    requires |rest| == 0 || rest[0] == ':'
    ensures BulletEntry([Bullet, ' '] + name + rest) == [Bullet, ' '] + name
  {
    var head := [Bullet, ' '] + name;
    assert head + rest == [Bullet, ' '] + name + rest;
    BulletEntryCut(head, rest);
    assert DeleteChar(head, Bullet) == " " + name by {
      assert head[1..] == " " + name;
      assert (" " + name)[1..] == name;
      DeleteCharAbsent(name, Bullet);
    }
    StripSpacePrefix(name);
  }

  /** A dash bullet keeps its dash: "- name: text" is re-emitted as "• - name". */
  lemma DashedNameEntry(name: string, rest: string)
    requires Bullet !in name && ':' !in name && |name| > 0 && !IsSpace(name[|name| - 1])
    requires |rest| == 0 || rest[0] == ':'
    ensures BulletEntry("- " + name + rest) == [Bullet, ' '] + "- " + name
  {
    var head := "- " + name;
    assert head + rest == "- " + name + rest;
    assert forall i :: 0 <= i < |head| ==> head[i] == '-' || head[i] == ' ' || head[i] in name;
    assert ':' !in head && Bullet !in head;
    assert Strip(DeleteChar(head, Bullet)) == head by {
      DeleteCharAbsent(head, Bullet);
      assert head[0] == '-' && head[|head| - 1] == name[|name| - 1];
      StripUnchanged(head);
    }
    BulletEntryCut(head, rest);
    assert BulletEntry(head + rest) == [Bullet, ' '] + head;
    AppendAssoc([Bullet, ' '], "- ", name);
  }

  function MapBullets(lines: seq<string>): (r: seq<string>)
    ensures |r| == |lines|
    ensures forall i :: 0 <= i < |lines| ==> r[i] == BulletEntry(lines[i])
  {
    seq(|lines|, i requires 0 <= i < |lines| => BulletEntry(lines[i]))
  }

  /** What the line loop accumulates. */
  datatype ProductScan = ProductScan(
    productName: string,
    description: string,
    bullets: seq<string>,
    inFeatures: bool)

  const ProductNameTag := "Product Name:"
  const DescriptionTag := "Description:"
  const FeaturesTag := "Features:"

  /**
   * The loop over the stripped reply lines. Its state after any prefix of the
   * lines is given by the reference definitions: the last "Product Name:"
   * line, the last "Description:" line, and the bullets after the first
   * "Features:" line.
   */
  function ScanProductLines(lines: seq<string>): (r: ProductScan)
    ensures r.productName == Field(lines, ProductNameTag, "Not specified")
    ensures r.description == (match LastWith(lines, DescriptionTag)
                              case Some(l) => CleanText(LabelValue(l, DescriptionTag))
                              case None => "")
    ensures r.inFeatures == HasLine(lines, FeaturesTag)
    ensures r.bullets == MapBullets(Filter(AfterFirst(lines, FeaturesTag), IsBulletLine))
    decreases |lines|
  {
    if |lines| == 0 then ProductScan("Not specified", "", [], false)
    else
      var init := lines[..|lines| - 1];
      var line := lines[|lines| - 1];
      assert lines == init + [line];
      FieldSnoc(init, line, ProductNameTag, "Not specified");
      LastWithSnoc(init, line, DescriptionTag);
      HasLineSnoc(init, line, FeaturesTag);
      BulletsSnoc(init, line);
      ProductStep(ScanProductLines(init), line)
  }

  /** One turn of the loop over the reply's lines. */
  function ProductStep(s: ProductScan, line: string): (r: ProductScan)
    ensures r.productName == if StartsWith(line, ProductNameTag) then LabelValue(line, ProductNameTag) else s.productName
    ensures r.description == if StartsWith(line, DescriptionTag) then CleanText(LabelValue(line, DescriptionTag)) else s.description
    ensures r.inFeatures == (s.inFeatures || StartsWith(line, FeaturesTag))
    ensures r.bullets == s.bullets + if s.inFeatures && IsBulletLine(line) then [BulletEntry(line)] else []
  {
    TagsExclusive(line);
    if StartsWith(line, ProductNameTag) then
      s.(productName := LabelValue(line, ProductNameTag))
    else if StartsWith(line, DescriptionTag) then
      s.(description := CleanText(LabelValue(line, DescriptionTag)))
    else if StartsWith(line, FeaturesTag) then
      s.(inFeatures := true)
    else if s.inFeatures && IsBulletLine(line) then
      s.(bullets := s.bullets + [BulletEntry(line)])
    else s
  }

  /** The reference bullets of one more line: it counts once a "Features:" line has been seen. */
  lemma BulletsSnoc(init: seq<string>, line: string)
    ensures MapBullets(Filter(AfterFirst(init + [line], FeaturesTag), IsBulletLine))
         == MapBullets(Filter(AfterFirst(init, FeaturesTag), IsBulletLine))
            + if HasLine(init, FeaturesTag) && IsBulletLine(line) then [BulletEntry(line)] else []
  {
    var after := AfterFirst(init, FeaturesTag);
    AfterFirstSnoc(init, line, FeaturesTag);
    if HasLine(init, FeaturesTag) {
      assert AfterFirst(init + [line], FeaturesTag) == after + [line];
      var xs := Filter(after, IsBulletLine);
      var ys: seq<string> := if IsBulletLine(line) then [line] else [];
      assert Filter(after + [line], IsBulletLine) == xs + ys by {
        FilterSnoc(after, line, IsBulletLine);
      }
      MapBulletsAppend(xs, ys);
      assert MapBullets(ys) == if IsBulletLine(line) then [BulletEntry(line)] else [];
    } else {
      assert AfterFirst(init + [line], FeaturesTag) == [] && after == [];
    }
  }

  lemma MapBulletsAppend(a: seq<string>, b: seq<string>)
    ensures MapBullets(a + b) == MapBullets(a) + MapBullets(b)
  {
  }

  /** A line carries at most one of the labels, and a labelled line is no bullet. */
  lemma TagsExclusive(line: string)
    ensures StartsWith(line, ProductNameTag) ==> !StartsWith(line, DescriptionTag) && !StartsWith(line, FeaturesTag) && !IsBulletLine(line)
    ensures StartsWith(line, DescriptionTag) ==> !StartsWith(line, FeaturesTag) && !IsBulletLine(line)
    ensures StartsWith(line, FeaturesTag) ==> !IsBulletLine(line)
  {
    if |line| > 0 {
      assert StartsWith(line, ProductNameTag) ==> line[0] == 'P';
      assert StartsWith(line, DescriptionTag) ==> line[0] == 'D';
      assert StartsWith(line, FeaturesTag) ==> line[0] == 'F';
      assert IsBulletLine(line) ==> line[0] == Bullet || line[0] == '-';
    }
  }

  /** The product row of the modular generation. */
  datatype ProductRow = ProductRow(
    url: string,
    company: Json,
    productName: string,
    description: string,
    features: string)

  /** The row `extract_product_info`'s handler returns for any exception. */
  function ProductError(url: string): ProductRow {
    ProductRow(url, JStr("Error"), "Error", "", "")
  }

  /**
   * `extract_product_info` given the identity reply and the product reply.
   * An unparsable URL or a failed product call gives the error row.
   */
  function ExtractProductInfo(url: string, identity: JsonReply, reply: TextReply): (r: ProductRow)
    ensures r.url == url
    ensures DomainHint(url).None? || reply.Raised? ==> r == ProductError(url)
  {
    match ExtractCompanyIdentity(url, identity)
    case None => ProductError(url)
    case Some(company) =>
      match reply
      case Raised(_) => ProductError(url)
      case Ok(text) =>
        var scan := ScanProductLines(Lines(Strip(text)));
        ProductRow(url, company, scan.productName, scan.description,
                   if |scan.bullets| > 0 then JoinWith(scan.bullets, " | ") else "")
  }

  /** The bullets after the first "Features:" line, re-emitted and joined; only those. */
  lemma ProductFeatures(url: string, identity: JsonReply, text: string)
    requires DomainHint(url).Some?
    ensures var lines := Lines(Strip(text));
            var bullets := MapBullets(Filter(AfterFirst(lines, FeaturesTag), IsBulletLine));
            var r := ExtractProductInfo(url, identity, Ok(text));
            && r.features == (if |bullets| > 0 then JoinWith(bullets, " | ") else "")
            && r.productName == Field(lines, ProductNameTag, "Not specified")
            && r.description == ScanProductLines(lines).description
            && r.description == (match LastWith(lines, DescriptionTag)
                                 case Some(l) => CleanText(LabelValue(l, DescriptionTag))
                                 case None => "")
            && r.company == ExtractCompanyIdentity(url, identity).value
  {
  }

  /** A reply with no "Features:" line yields no features at all, whatever bullets it has. */
  lemma NoFeaturesHeaderNoFeatures(url: string, identity: JsonReply, text: string)
    requires DomainHint(url).Some?
    requires !HasLine(Lines(Strip(text)), FeaturesTag)
    ensures ExtractProductInfo(url, identity, Ok(text)).features == ""
  {
  }

  // --------------------------------------------------------- deep_scan_page

  /**
   * `deep_scan_page`: the decoded object with "analysis" replaced by its
   * cleaned text; `None` when the call or decoding fails, the reply is not an
   * object, or its analysis is a non-text truthy value.
   */
  function DeepScanPage(reply: JsonReply): (r: Option<seq<(string, Json)>>)
    ensures r.Some? ==> exists s :: Lookup(r.value, "analysis") == Some(JStr(s)) && s == CleanText(s)
    ensures r.Some? <==> reply.Decoded? && reply.value.JObj?
                         && CleanJson(Get(reply.value.fields, "analysis", JStr(""))).Some?
    ensures r.Some? ==> Lookup(r.value, "analysis")
                        == Some(JStr(CleanJson(Get(reply.value.fields, "analysis", JStr(""))).value))
  {
    match reply
    case Decoded(JObj(fields)) =>
      (match CleanJson(Get(fields, "analysis", JStr("")))
       case Some(a) =>
         CleanJsonIsClean(Get(fields, "analysis", JStr("")));
         Some(Set(fields, "analysis", JStr(a)))
       case None => None)
    case _ => None
  }

  /** The scan rewrites the analysis only: every other key of the reply keeps its value. */
  lemma DeepScanKeepsOthers(reply: JsonReply, key: string)
    requires key != "analysis"
    ensures DeepScanPage(reply).Some? ==> Lookup(DeepScanPage(reply).value, key) == Lookup(reply.value.fields, key)
  {
    if DeepScanPage(reply).Some? {
      var a := CleanJson(Get(reply.value.fields, "analysis", JStr(""))).value;
      SetKeepsOthers(reply.value.fields, "analysis", JStr(a), key);
    }
  }

  /**
   * `extract_standardized_pricing`: the decoded reply itself, or Python's
   * `None` (JSON null) on any failure.
   */
  function ExtractStandardizedPricing(reply: JsonReply): (r: Json)
    ensures reply.Decoded? ==> r == reply.value
    ensures !reply.Decoded? ==> r == JNull
  {
    if reply.Decoded? then reply.value else JNull
  }
}

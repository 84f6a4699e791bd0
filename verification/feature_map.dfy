/**
 * The result shape both generations' `analyze_features_with_ai` return: an
 * answer per requested feature and a reason under `"<feature>_reason"`,
 * built by a loop over the requested features that stops at the first
 * exception. What one feature's entry is (or what it raises) is the caller's
 * `entry` function.
 */
module FeatureMap {
  import opened Wrappers
  import opened Json

  /** The key under which a feature's reason is reported. */
  function ReasonKey(feature: string): string {
    feature + "_reason"
  }

  lemma ReasonKeyInjective(a: string, b: string)
    requires ReasonKey(a) == ReasonKey(b)
    ensures a == b
  {
    assert a == ReasonKey(a)[..|a|];
    assert |a| == |b|;
    assert b == ReasonKey(b)[..|b|];
  }

  /** The answers and reasons a feature analysis reports, keyed as the rows expect. */
  datatype Verdicts<R> = Verdicts(answers: map<string, Json>, reasons: map<string, R>)

  /** Exactly one answer per feature and one reason per feature's reason key. */
  predicate KeyedBy<R>(v: Verdicts<R>, features: seq<string>) {
    && v.answers.Keys == (set f | f in features)
    && v.reasons.Keys == (set f | f in features :: ReasonKey(f))
  }

  /** The same verdict for every feature: what the exception handlers return. */
  function Uniform<R>(features: seq<string>, answer: Json, reason: R): (v: Verdicts<R>)
    ensures KeyedBy(v, features)
    ensures forall f :: f in features ==> v.answers[f] == answer && v.reasons[ReasonKey(f)] == reason
  {
    Verdicts(map f | f in features :: answer, map f | f in features :: ReasonKey(f) := reason)
  }

  /** `v` reports `entry` for `feature`. */
  predicate Reports<R(==)>(v: Verdicts<R>, feature: string, entry: (Json, R)) {
    && feature in v.answers && v.answers[feature] == entry.0
    && ReasonKey(feature) in v.reasons && v.reasons[ReasonKey(feature)] == entry.1
  }

  /** One turn of the loop: the feature's answer and reason recorded. */
  function Record<R>(prev: Verdicts<R>, f: string, entry: (Json, R)): Verdicts<R> {
    Verdicts(prev.answers[f := entry.0], prev.reasons[ReasonKey(f) := entry.1])
  }

  /**
   * The loop over the requested features. It fails with the first feature's
   * exception, in the requested order; otherwise every feature reports its
   * own entry, whichever of its occurrences the loop recorded last.
   */
  function MapFeatures<R(==)>(entry: string -> Result<(Json, R)>, features: seq<string>): (r: Result<Verdicts<R>>)
    ensures r.Ok? <==> forall i :: 0 <= i < |features| ==> entry(features[i]).Ok?
    ensures r.Ok? ==> KeyedBy(r.value, features)
    ensures r.Ok? ==> forall i :: 0 <= i < |features| ==> Reports(r.value, features[i], entry(features[i]).value)
    ensures r.Raised? ==> exists k :: 0 <= k < |features| && entry(features[k]) == Raised(r.msg)
                                     && forall i :: 0 <= i < k ==> entry(features[i]).Ok?
    decreases |features|
  {
    if |features| == 0 then Ok(Verdicts(map[], map[]))
    else
      var init := features[..|features| - 1];
      var f := features[|features| - 1];
      assert forall i :: 0 <= i < |init| ==> init[i] == features[i];
      assert features == init + [f];
      match MapFeatures(entry, init)
      case Raised(m) =>
        FirstRaisedExtends(entry, features, |init|, m);
        Raised(m)
      case Ok(prev) =>
        match entry(f)
        case Raised(m) =>
          assert entry(features[|init|]) == Raised(m);
          FirstRaisedExtends(entry, features, |features|, m);
          Raised(m)
        case Ok(e) =>
          AddFeature(entry, prev, init, f, e);
          Ok(Record(prev, f, e))
  }

  /** A failure among the first features stays the first failure when one more is appended. */
  lemma FirstRaisedExtends<R>(entry: string -> Result<(Json, R)>, features: seq<string>, n: nat, m: string)
    requires n <= |features|
    requires exists k :: 0 <= k < n && entry(features[k]) == Raised(m)
                         && forall i :: 0 <= i < k ==> entry(features[i]).Ok?
    ensures exists k :: 0 <= k < |features| && entry(features[k]) == Raised(m)
                        && forall i :: 0 <= i < k ==> entry(features[i]).Ok?
    ensures !forall i :: 0 <= i < |features| ==> entry(features[i]).Ok?
  {
  }

  lemma AddFeature<R>(entry: string -> Result<(Json, R)>, prev: Verdicts<R>, init: seq<string>, f: string, e: (Json, R))
    requires KeyedBy(prev, init)
    requires forall i :: 0 <= i < |init| ==> entry(init[i]).Ok?
    requires forall i :: 0 <= i < |init| ==> Reports(prev, init[i], entry(init[i]).value)
    requires entry(f) == Ok(e)
    ensures KeyedBy(Record(prev, f, e), init + [f])
    ensures forall i :: 0 <= i < |init + [f]| ==> Reports(Record(prev, f, e), (init + [f])[i], entry((init + [f])[i]).value)
  {
    RecordKeys(prev, init, f, e);
    var es := seq(|init|, i requires 0 <= i < |init| => entry(init[i]).value);
    RecordReports(prev, init, es, f, e);
    forall i | 0 <= i < |init + [f]|
      ensures entry((init + [f])[i]).value == (es + [e])[i]
    {
    }
  }

  lemma RecordKeys<R>(prev: Verdicts<R>, init: seq<string>, f: string, e: (Json, R))
    requires KeyedBy(prev, init)
    ensures KeyedBy(Record(prev, f, e), init + [f])
  {
    var features := init + [f];
    assert (set g | g in features) == (set g | g in init) + {f};
    assert (set g | g in features :: ReasonKey(g)) == (set g | g in init :: ReasonKey(g)) + {ReasonKey(f)};
  }

  lemma RecordReports<R>(prev: Verdicts<R>, init: seq<string>, es: seq<(Json, R)>, f: string, e: (Json, R))
    requires |es| == |init|
    requires forall i :: 0 <= i < |init| ==> Reports(prev, init[i], es[i])
    requires forall i :: 0 <= i < |init| ==> init[i] == f ==> es[i] == e
    ensures forall i :: 0 <= i < |init + [f]| ==> Reports(Record(prev, f, e), (init + [f])[i], (es + [e])[i])
  {
    var features := init + [f];
    var next := Record(prev, f, e);
    forall i | 0 <= i < |features|
      ensures Reports(next, features[i], (es + [e])[i])
    {
      if i < |init| && features[i] != f {
        assert features[i] == init[i];
        if ReasonKey(init[i]) == ReasonKey(f) {
          ReasonKeyInjective(init[i], f);
        }
      }
    }
  }
}

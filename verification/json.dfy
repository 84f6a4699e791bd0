/**
 * Decoded JSON as the pipeline's Python code sees it after `json.loads`,
 * and the shapes in which a language-model reply reaches the code.
 * Objects keep their keys in insertion order, as Python dicts do. Python's
 * decoder keeps the last value of a repeated key; lookups here take the
 * first pair with the key, which is the same on objects with unique keys.
 * A float is kept as the decimal it denotes.
 */
module Json {
  import opened Wrappers
  import opened Strings

  /** A decoded float is `JFloat(mantissa, scale)`, the value `mantissa / 10^scale`. */
  datatype Json =
    | JNull
    | JBool(b: bool)
    | JNum(n: int)
    | JFloat(mantissa: int, scale: nat)
    | JStr(s: string)
    | JArr(items: seq<Json>)
    | JObj(fields: seq<(string, Json)>)

  /** Python truthiness: `bool(value)`. */
  predicate Truthy(j: Json) {
    match j
    case JNull => false
    case JBool(b) => b
    case JNum(n) => n != 0
    case JFloat(m, _) => m != 0
    case JStr(s) => |s| > 0
    case JArr(a) => |a| > 0
    case JObj(f) => |f| > 0
  }

  function Pow10(e: nat): (r: nat)
    ensures r > 0
  {
    if e == 0 then 1 else 10 * Pow10(e - 1)
  }

  /** The same value with the trailing zero digits of its fraction dropped. */
  function TrimZeros(d: nat, e: nat): (r: (nat, nat))
    ensures r.1 <= e
    ensures r.1 > 0 ==> r.0 % 10 != 0
    decreases e
  {
    if e > 0 && d % 10 == 0 then TrimZeros(d / 10, e - 1) else (d, e)
  }

  /** `text` with zeros put in front until it has at least `n` characters. */
  function PadZeros(text: string, n: nat): (r: string)
    ensures |r| >= n && |r| >= |text|
    decreases n - |text|
  {
    if |text| >= n then text else PadZeros("0" + text, n)
  }

  /**
   * `repr(float)` for a value written in positional notation: the shortest
   * decimal, with at least one digit on either side of the point.
   */
  function FloatRepr(m: int, e: nat): (r: string)
    ensures '.' in r
  {
    (if m < 0 then "-" else "") + PointText(TrimZeros(if m < 0 then -m else m, e))
  }

  /** The digits of `t.0` with a point `t.1` places from the right. */
  function PointText(t: (nat, nat)): (r: string)
    ensures '.' in r
  {
    if t.1 == 0 then NatDigits(t.0) + ".0"
    else
      var ds := PadZeros(NatDigits(t.0), t.1 + 1);
      ds[..|ds| - t.1] + "." + ds[|ds| - t.1..]
  }

  lemma {:induction false} Pow10Add(a: nat, b: nat)
    ensures Pow10(a + b) == Pow10(a) * Pow10(b)
  {
    if a > 0 {
      Pow10Add(a - 1, b);
    }
  }

  /** Dropping trailing zeros keeps the value: `d / 10^e == t.0 / 10^t.1`. */
  lemma {:induction false} TrimZerosValue(d: nat, e: nat)
    ensures d * Pow10(TrimZeros(d, e).1) == TrimZeros(d, e).0 * Pow10(e)
    decreases e
  {
    if e > 0 && d % 10 == 0 {
      var t := TrimZeros(d / 10, e - 1);
      TrimZerosValue(d / 10, e - 1);
      TenfoldStep(d, d / 10, Pow10(t.1), t.0, Pow10(e - 1));
    }
  }

  lemma TenfoldStep(d: int, q: int, p: int, t: int, c: int)
    requires d == 10 * q && q * p == t * c
    ensures d * p == t * (10 * c)
  {
    assert d * p == 10 * (q * p);
  }

  lemma MulCancel(c: int, x: int, y: int)
    requires c > 0 && c * x == c * y
    ensures x == y
  {
  }

  /** A multiple of ten ends in the digit zero. */
  lemma TenfoldEndsInZero(x: nat)
    ensures (10 * x) % 10 == 0
  {
  }

  /** `a / 10^k1 == b / 10^k2` with `k1 < k2` makes `b` a multiple of ten. */
  lemma LongerScaleEndsInZero(a: nat, k1: nat, b: nat, k2: nat)
    requires k1 < k2 && a * Pow10(k2) == b * Pow10(k1)
    ensures b % 10 == 0
  {
    var p := Pow10(k1);
    var q := Pow10(k2 - k1 - 1);
    Pow10Add(k1, k2 - k1);
    assert Pow10(k2 - k1) == 10 * q;
    assert Pow10(k2) == p * (10 * q);
    assert p * (10 * (a * q)) == p * b by {
      assert a * (p * (10 * q)) == p * (10 * (a * q));
    }
    MulCancel(p, 10 * (a * q), b);
    TenfoldEndsInZero(a * q);
  }

  /** Two decimals without trailing fraction zeros that denote one value are one decimal. */
  lemma CanonicalUnique(a: nat, k1: nat, b: nat, k2: nat)
    requires a * Pow10(k2) == b * Pow10(k1)
    requires k1 > 0 ==> a % 10 != 0
    requires k2 > 0 ==> b % 10 != 0
    ensures a == b && k1 == k2
  {
    if k1 < k2 {
      LongerScaleEndsInZero(a, k1, b, k2);
    } else if k2 < k1 {
      LongerScaleEndsInZero(b, k2, a, k1);
    } else {
      MulCancel(Pow10(k1), a, b);
    }
  }

  lemma CrossMultiply(d1: int, d2: int, t1: int, t2: int, p1: int, p2: int, q1: int, q2: int)
    requires d1 * q1 == t1 * p1 && d2 * q2 == t2 * p2 && d1 * p2 == d2 * p1
    ensures (p1 * p2) * (t1 * q2) == (p1 * p2) * (t2 * q1)
  {
    calc {
      (p1 * p2) * (t1 * q2);
      ((t1 * p1) * q2) * p2;
      ((d1 * q1) * q2) * p2;
      ((d1 * p2) * q1) * q2;
      ((d2 * p1) * q1) * q2;
      ((d2 * q2) * q1) * p1;
      ((t2 * p2) * q1) * p1;
      (p1 * p2) * (t2 * q1);
    }
  }

  /** Trimming gives one canonical decimal per value. */
  lemma SameValueSameTrim(d1: nat, e1: nat, d2: nat, e2: nat)
    requires d1 * Pow10(e2) == d2 * Pow10(e1)
    ensures TrimZeros(d1, e1) == TrimZeros(d2, e2)
  {
    var t1 := TrimZeros(d1, e1);
    var t2 := TrimZeros(d2, e2);
    TrimZerosValue(d1, e1);
    TrimZerosValue(d2, e2);
    var p1: int, p2: int, q1: int, q2: int := Pow10(e1), Pow10(e2), Pow10(t1.1), Pow10(t2.1);
    CrossMultiply(d1, d2, t1.0, t2.0, p1, p2, q1, q2);
    MulCancel(p1 * p2, t1.0 * q2, t2.0 * q1);
    CanonicalUnique(t1.0, t1.1, t2.0, t2.1);
  }

  /**
   * `repr` depends on the float's value only: `29.99` and `29.990` decode to
   * one float and print alike.
   */
  lemma FloatReprOfValue(m1: int, e1: nat, m2: int, e2: nat)
    requires m1 * Pow10(e2) == m2 * Pow10(e1)
    ensures FloatRepr(m1, e1) == FloatRepr(m2, e2)
  {
    var p1: int, p2: int := Pow10(e1), Pow10(e2);
    var a1: nat := if m1 < 0 then -m1 else m1;
    var a2: nat := if m2 < 0 then -m2 else m2;
    var v := m1 * p2;
    assert v == m2 * p1;
    ScaledMagnitude(m1, p2);
    ScaledMagnitude(m2, p1);
    assert a1 * p2 == a2 * p1 && (m1 < 0) == (m2 < 0) by {
      assert a1 * p2 == (if v < 0 then -v else v);
      assert a2 * p1 == (if v < 0 then -v else v);
    }
    SameValueSameTrim(a1, e1, a2, e2);
    assert TrimZeros(a1, e1) == TrimZeros(a2, e2);
  }

  /** Scaling by a positive factor keeps the sign and scales the magnitude. */
  lemma ScaledMagnitude(m: int, p: int)
    requires p > 0
    ensures (m < 0) == (m * p < 0)
    ensures (if m < 0 then -m else m) * p == (if m * p < 0 then -(m * p) else m * p)
  {
    if m < 0 {
      assert (-m) * p > 0;
    } else {
      assert m * p >= 0;
    }
  }

  /** Decimal digits of a natural number. */
  function NatDigits(n: nat): (r: string)
    ensures |r| > 0
    decreases n
  {
    var d := ['0' + (n % 10) as char];
    if n < 10 then d else NatDigits(n / 10) + d
  }

  /**
   * `str(value)`. Text inside a list or object is shown quoted in single
   * quotes without Python's escaping of quotes and backslashes.
   */
  function Show(j: Json): string {
    match j
    case JStr(s) => s
    case _ => Repr(j)
  }

  function Repr(j: Json): string
    decreases j, 1
  {
    match j
    case JNull => "None"
    case JBool(b) => if b then "True" else "False"
    case JNum(n) => if n < 0 then "-" + NatDigits(-n) else NatDigits(n)
    case JFloat(m, e) => FloatRepr(m, e)
    case JStr(s) => "'" + s + "'"
    case JArr(items) => "[" + JoinWith(ReprItems(items), ", ") + "]"
    case JObj(fs) => "{" + JoinWith(ReprFields(fs), ", ") + "}"
  }

  function ReprItems(items: seq<Json>): (r: seq<string>)
    ensures |r| == |items|
    decreases items, 0
  {
    if |items| == 0 then [] else [Repr(items[0])] + ReprItems(items[1..])
  }

  function ReprFields(fs: seq<(string, Json)>): (r: seq<string>)
    ensures |r| == |fs|
    decreases fs, 0
  {
    if |fs| == 0 then []
    else
      assert fs[0].1 < fs[0];
      ["'" + fs[0].0 + "': " + Repr(fs[0].1)] + ReprFields(fs[1..])
  }

  /** `key in obj` followed by `obj[key]`. */
  function Lookup(fields: seq<(string, Json)>, key: string): (r: Option<Json>)
    ensures r.Some? <==> exists i :: 0 <= i < |fields| && fields[i].0 == key
    ensures r.Some? ==> exists i :: 0 <= i < |fields| && fields[i] == (key, r.value)
  {
    if |fields| == 0 then None
    else if fields[0].0 == key then Some(fields[0].1)
    else
      var r := Lookup(fields[1..], key);
      assert r.Some? ==> exists i :: 0 <= i < |fields[1..]| && fields[1..][i] == (key, r.value);
      r
  }

  /** No key occurs twice: every object `json.loads` returns. */
  predicate UniqueKeys(fields: seq<(string, Json)>) {
    forall i, j :: 0 <= i < j < |fields| ==> fields[i].0 != fields[j].0
  }

  /** The value `json.loads` keeps for a repeated key: the last one. */
  function LookupLast(fields: seq<(string, Json)>, key: string): (r: Option<Json>)
    ensures r.Some? <==> exists i :: 0 <= i < |fields| && fields[i].0 == key
    ensures r.Some? ==> exists i :: && 0 <= i < |fields| && fields[i] == (key, r.value)
                                    && forall j :: i < j < |fields| ==> fields[j].0 != key
  {
    if |fields| == 0 then None
    else if fields[|fields| - 1].0 == key then Some(fields[|fields| - 1].1)
    else
      var r := LookupLast(fields[..|fields| - 1], key);
      assert r.Some? ==> exists i :: && 0 <= i < |fields| - 1 && fields[i] == (key, r.value)
                                     && forall j :: i < j < |fields| ==> fields[j].0 != key by {
        if r.Some? {
          var init := fields[..|fields| - 1];
          var i :| && 0 <= i < |init| && init[i] == (key, r.value)
                   && forall j :: i < j < |init| ==> init[j].0 != key;
          assert forall j :: i < j < |fields| ==> fields[j].0 != key by {
            forall j | i < j < |fields|
              ensures fields[j].0 != key
            {
              if j < |init| { assert init[j] == fields[j]; }
            }
          }
        }
      }
      r
  }

  /** On an object with unique keys, the first pair with a key is the last. */
  lemma LookupUniqueIsLast(fields: seq<(string, Json)>, key: string)
    requires UniqueKeys(fields)
    ensures Lookup(fields, key) == LookupLast(fields, key)
  {
    var first := Lookup(fields, key);
    var last := LookupLast(fields, key);
    if first.Some? {
      var i :| 0 <= i < |fields| && fields[i] == (key, first.value);
      var j :| 0 <= j < |fields| && fields[j] == (key, last.value);
      assert i == j;
    }
  }

  /** `obj.get(key, default)` */
  function Get(fields: seq<(string, Json)>, key: string, default: Json): Json {
    Lookup(fields, key).GetOr(default)
  }

  /** The name of a decoded value's Python type, as error messages spell it. */
  function TypeName(j: Json): string {
    match j
    case JNull => "NoneType"
    case JBool(_) => "bool"
    case JNum(_) => "int"
    case JFloat(_, _) => "float"
    case JStr(_) => "str"
    case JArr(_) => "list"
    case JObj(_) => "dict"
  }

  /** The message `value.get(...)` raises on anything but an object. */
  function NoGet(value: Json): string {
    "'" + TypeName(value) + "' object has no attribute 'get'"
  }

  /** `value.get(key, default)`: only an object has `get`. */
  function GetAttr(value: Json, key: string, default: Json): (r: Result<Json>)
    ensures r.Ok? <==> value.JObj?
    ensures r.Ok? ==> r.value == Get(value.fields, key, default)
    ensures r.Raised? ==> r.msg == NoGet(value)
  {
    if value.JObj? then Ok(Get(value.fields, key, default))
    else Raised(NoGet(value))
  }

  /** `obj[key] = value`: an existing key keeps its position, a new key goes last. */
  function Set(fields: seq<(string, Json)>, key: string, value: Json): (r: seq<(string, Json)>)
    ensures Lookup(r, key) == Some(value)
  {
    if |fields| == 0 then [(key, value)]
    else if fields[0].0 == key then [(key, value)] + fields[1..]
    else [fields[0]] + Set(fields[1..], key, value)
  }

  /** Setting one key leaves every other key's value alone. */
  lemma {:induction false} SetKeepsOthers(fields: seq<(string, Json)>, key: string, value: Json, other: string)
    requires other != key
    ensures Lookup(Set(fields, key, value), other) == Lookup(fields, other)
  {
    if |fields| > 0 && fields[0].0 != key {
      SetKeepsOthers(fields[1..], key, value, other);
    }
  }

  /**
   * What a JSON-mode model call hands the code after `json.loads(response.text)`:
   * the call itself raised, the text was not JSON, or the decoded value.
   */
  datatype JsonReply = CallFailed(msg: string) | Undecodable | Decoded(value: Json)

  /**
   * What a plain-text model call hands the code: `Ok(response.text)`, or the
   * exception the call raised, carried as `Raised(message)`.
   */
  type TextReply = Result<string>
}

/**
 * The few Python `str` operations the pipeline relies on, over `seq<char>`.
 * Case mapping is the ASCII part of Python's `str.lower`/`str.upper`;
 * whitespace is exactly the set of characters for which `str.isspace()` holds.
 */
module Strings {

  /** Python's `str.isspace()` for one character. */
  predicate IsSpace(c: char) {
    || c == ' '
    || ('\t' <= c <= '\r')
    || ('\U{1C}' <= c <= '\U{1F}')
    || c == '\U{85}' || c == '\U{A0}' || c == '\U{1680}'
    || ('\U{2000}' <= c <= '\U{200A}')
    || c == '\U{2028}' || c == '\U{2029}' || c == '\U{202F}' || c == '\U{205F}' || c == '\U{3000}'
  }

  predicate IsUpperAscii(c: char) { 'A' <= c <= 'Z' }

  predicate IsLowerAscii(c: char) { 'a' <= c <= 'z' }

  function LowerChar(c: char): char {
    if IsUpperAscii(c) then (c as int + 32) as char else c
  }

  function UpperChar(c: char): char {
    if IsLowerAscii(c) then (c as int - 32) as char else c
  }

  /** `s.lower()` on ASCII letters; every other character is kept. */
  function Lower(s: string): (r: string)
    ensures |r| == |s|
    ensures forall i :: 0 <= i < |s| ==> r[i] == LowerChar(s[i])
  {
    seq(|s|, i requires 0 <= i < |s| => LowerChar(s[i]))
  }

  lemma LowerIdempotent(s: string)
    ensures Lower(Lower(s)) == Lower(s)
  {
  }

  /** `s.upper()` on ASCII letters; every other character is kept. */
  function Upper(s: string): (r: string)
    ensures |r| == |s|
    ensures forall i :: 0 <= i < |s| ==> r[i] == UpperChar(s[i])
  {
    seq(|s|, i requires 0 <= i < |s| => UpperChar(s[i]))
  }

  /** `s.capitalize()` on ASCII letters: first character upper-cased, the rest lower-cased. */
  function Capitalize(s: string): (r: string)
    ensures |r| == |s|
  {
    if |s| == 0 then "" else [UpperChar(s[0])] + Lower(s[1..])
  }

  /** `t in s`: substring test (the empty string is in every string). */
  predicate Contains(s: string, t: string)
    decreases |s|
  {
    t <= s || (|s| > 0 && Contains(s[1..], t))
  }

  lemma ContainsSelf(s: string)
    ensures Contains(s, s)
  {
  }

  /** A text never contains a longer one. */
  lemma {:induction false} ContainsLonger(s: string, t: string)
    requires |t| > |s|
    ensures !Contains(s, t)
    decreases |s|
  {
    if |s| > 0 {
      ContainsLonger(s[1..], t);
    }
  }

  /** `t` occurring at position `i` of `s` is contained in it. */
  lemma {:induction false} ContainsAt(s: string, t: string, i: nat)
    requires i <= |s| && t <= s[i..]
    ensures Contains(s, t)
    decreases i
  {
    if i > 0 {
      assert s[1..][i - 1..] == s[i..];
      ContainsAt(s[1..], t, i - 1);
    }
  }

  /** `s.startswith(p)` */
  predicate StartsWith(s: string, p: string) {
    p <= s
  }

  /** `s[:n]`: the prefix of at most `n` characters. */
  function Take(s: string, n: nat): (r: string)
    ensures |r| <= n && r <= s
    ensures |s| <= n ==> r == s
  {
    if |s| <= n then s else s[..n]
  }

  /** `s.lstrip()` */
  function LStrip(s: string): (r: string)
    ensures |r| <= |s| && r == s[|s| - |r|..]
    ensures |r| > 0 ==> !IsSpace(r[0])
    decreases |s|
  {
    if |s| > 0 && IsSpace(s[0]) then LStrip(s[1..]) else s
  }

  /** `s.rstrip()` */
  function RStrip(s: string): (r: string)
    ensures r <= s
    ensures |r| > 0 ==> !IsSpace(r[|r| - 1])
    decreases |s|
  {
    if |s| > 0 && IsSpace(s[|s| - 1]) then RStrip(s[..|s| - 1]) else s
  }

  /** `s.strip()` */
  function Strip(s: string): (r: string)
    ensures |r| <= |s|
    ensures |r| > 0 ==> !IsSpace(r[0]) && !IsSpace(r[|r| - 1])
  {
    RStrip(LStrip(s))
  }

  /** `s.rstrip(c)` for a single character `c`. */
  function RStripChar(s: string, c: char): (r: string)
    ensures r <= s
    ensures |r| > 0 ==> r[|r| - 1] != c
    ensures forall i :: |r| <= i < |s| ==> s[i] == c
    decreases |s|
  {
    if |s| > 0 && s[|s| - 1] == c then RStripChar(s[..|s| - 1], c) else s
  }

  /** Stripping a character never cuts into a prefix that does not contain it. */
  lemma {:induction false} RStripCharKeepsPrefix(s: string, c: char, p: string)
    requires p <= s && c !in p
    ensures p <= RStripChar(s, c)
    decreases |s|
  {
    if |s| > 0 && s[|s| - 1] == c {
      RStripCharKeepsPrefix(s[..|s| - 1], c, p);
    }
  }

  /** `s.replace(pat, "")`: every non-overlapping occurrence of `pat`, scanning left to right, removed. */
  function RemoveAll(s: string, pat: string): string
    decreases |s|
  {
    if |pat| == 0 then s
    else if pat <= s then RemoveAll(s[|pat|..], pat)
    else if |s| == 0 then s
    else [s[0]] + RemoveAll(s[1..], pat)
  }

  /** `s.replace(a, b)` for single characters. */
  function ReplaceChar(s: string, a: char, b: char): (r: string)
    ensures |r| == |s|
    ensures forall i :: 0 <= i < |s| ==> r[i] == (if s[i] == a then b else s[i])
  {
    if |s| == 0 then "" else [if s[0] == a then b else s[0]] + ReplaceChar(s[1..], a, b)
  }

  /** `s.replace(c, "")` for a single character. */
  function DeleteChar(s: string, c: char): (r: string)
    ensures c !in r
    ensures forall x :: x in r ==> x in s
  {
    if |s| == 0 then ""
    else if s[0] == c then DeleteChar(s[1..], c)
    else [s[0]] + DeleteChar(s[1..], c)
  }

  /** `s.split(c)[0]`: everything before the first `c`. */
  function CutAt(s: string, c: char): (r: string)
    ensures r <= s && c !in r
    ensures |r| < |s| ==> s[|r|] == c
  {
    if |s| == 0 || s[0] == c then "" else [s[0]] + CutAt(s[1..], c)
  }

  /** `s.split(c)` for a single-character separator. */
  function SplitOn(s: string, c: char): (r: seq<string>)
    ensures |r| >= 1
    ensures forall i :: 0 <= i < |r| ==> c !in r[i]
  {
    if |s| == 0 then [""]
    else if s[0] == c then [""] + SplitOn(s[1..], c)
    else
      var rest := SplitOn(s[1..], c);
      [[s[0]] + rest[0]] + rest[1..]
  }

  /** `sep.join(parts)` */
  function JoinWith(parts: seq<string>, sep: string): string {
    if |parts| == 0 then ""
    else if |parts| == 1 then parts[0]
    else parts[0] + sep + JoinWith(parts[1..], sep)
  }

  /** Splitting on `c` and joining with `c` gives back the text. */
  lemma {:induction false} JoinSplitOn(s: string, c: char)
    ensures JoinWith(SplitOn(s, c), [c]) == s
    decreases |s|
  {
    if |s| == 0 {
    } else if s[0] == c {
      JoinSplitOn(s[1..], c);
      assert s == [c] + s[1..];
    } else {
      JoinSplitOn(s[1..], c);
      var rest := SplitOn(s[1..], c);
      if |rest| == 1 {
        assert s == [s[0]] + s[1..];
      } else {
        assert JoinWith(rest, [c]) == rest[0] + [c] + JoinWith(rest[1..], [c]);
        assert s == [s[0]] + s[1..];
      }
    }
  }

  /** A text without the separator is one piece. */
  lemma {:induction false} SplitOnPlain(a: string, c: char)
    requires c !in a
    ensures SplitOn(a, c) == [a]
    decreases |a|
  {
    if |a| > 0 {
      SplitOnPlain(a[1..], c);
      assert a == [a[0]] + a[1..];
    }
  }

  /** Splitting `a + c + b` where `a` holds no `c`: `a` is the first piece. */
  lemma {:induction false} SplitOnPrefix(a: string, c: char, b: string)
    requires c !in a
    ensures SplitOn(a + [c] + b, c) == [a] + SplitOn(b, c)
    decreases |a|
  {
    var s := a + [c] + b;
    if |a| == 0 {
      assert s[1..] == b;
    } else {
      assert s[1..] == a[1..] + [c] + b;
      SplitOnPrefix(a[1..], c, b);
      assert a == [a[0]] + a[1..];
    }
  }

  /** Joining pieces without the separator and splitting again gives the pieces back. */
  lemma {:induction false} SplitOnJoin(parts: seq<string>, c: char)
    requires |parts| > 0
    requires forall i :: 0 <= i < |parts| ==> c !in parts[i]
    ensures SplitOn(JoinWith(parts, [c]), c) == parts
    decreases |parts|
  {
    if |parts| == 1 {
      SplitOnPlain(parts[0], c);
    } else {
      SplitOnJoin(parts[1..], c);
      SplitOnPrefix(parts[0], c, JoinWith(parts[1..], [c]));
      assert parts == [parts[0]] + parts[1..];
    }
  }

  /** A join starts with its first piece and ends with its last. */
  lemma {:induction false} JoinWithEnds(parts: seq<string>, sep: string)
    requires |parts| > 0
    ensures var j := JoinWith(parts, sep);
            var last := parts[|parts| - 1];
            && parts[0] <= j && |last| <= |j| && j[|j| - |last|..] == last
            && (|parts[0]| > 0 ==> j[0] == parts[0][0])
            && (|last| > 0 ==> j[|j| - 1] == last[|last| - 1])
    decreases |parts|
  {
    if |parts| > 1 {
      JoinWithEnds(parts[1..], sep);
      var j := JoinWith(parts, sep);
      var rest := JoinWith(parts[1..], sep);
      assert j == parts[0] + sep + rest;
      assert j[|j| - |rest|..] == rest;
    }
  }

  /** A text without an occurrence of `pat` is left alone by removing `pat`. */
  lemma {:induction false} RemoveAllNone(s: string, pat: string)
    requires |pat| > 0 && !Contains(s, pat)
    ensures RemoveAll(s, pat) == s
    decreases |s|
  {
    if |s| > 0 {
      RemoveAllNone(s[1..], pat);
      assert s == [s[0]] + s[1..];
    }
  }

  /** A leading space makes no difference to stripping. */
  lemma StripSpacePrefix(v: string)
    ensures Strip(" " + v) == Strip(v)
  {
    assert (" " + v)[1..] == v;
  }

  /** The longest prefix of `s` without whitespace. */
  function Word(s: string): (w: string)
    ensures w <= s
    ensures |s| > 0 && !IsSpace(s[0]) ==> |w| > 0
    ensures forall i :: 0 <= i < |w| ==> !IsSpace(w[i])
    ensures |w| < |s| ==> IsSpace(s[|w|])
  {
    if |s| == 0 || IsSpace(s[0]) then "" else [s[0]] + Word(s[1..])
  }

  /** `s.split()`: the maximal runs of non-whitespace, in order. */
  function Words(s: string): (r: seq<string>)
    ensures forall i :: 0 <= i < |r| ==> IsWord(r[i])
    decreases |s|
  {
    var t := LStrip(s);
    if |t| == 0 then []
    else
      var w := Word(t);
      assert IsWord(w);
      [w] + Words(t[|w|..])
  }

  /** A non-empty string without whitespace: what `split()` can produce. */
  predicate IsWord(w: string) {
    |w| > 0 && forall i :: 0 <= i < |w| ==> !IsSpace(w[i])
  }

  /** Nothing but whitespace. */
  predicate AllSpace(s: string) {
    forall i :: 0 <= i < |s| ==> IsSpace(s[i])
  }

  lemma {:induction false} LStripSpaces(sp: string, x: string)
    requires AllSpace(sp)
    ensures LStrip(sp + x) == LStrip(x)
    decreases |sp|
  {
    if |sp| > 0 {
      assert (sp + x)[1..] == sp[1..] + x;
      LStripSpaces(sp[1..], x);
    } else {
      assert sp + x == x;
    }
  }

  /** The run of non-whitespace at the front of `w + tail` is `w` when `tail` starts with whitespace. */
  lemma {:induction false} WordOfPrefix(w: string, tail: string)
    requires forall i :: 0 <= i < |w| ==> !IsSpace(w[i])
    requires |tail| == 0 || IsSpace(tail[0])
    ensures Word(w + tail) == w
    decreases |w|
  {
    if |w| == 0 {
      assert w + tail == tail;
    } else {
      assert (w + tail)[1..] == w[1..] + tail;
      WordOfPrefix(w[1..], tail);
    }
  }

  lemma WordsSkipSpaces(sp: string, x: string)
    requires AllSpace(sp)
    ensures Words(sp + x) == Words(x)
  {
    LStripSpaces(sp, x);
  }

  /**
   * `split()` undoes joining words with a whitespace separator: the words
   * come back one for one.
   */
  lemma {:induction false} WordsOfJoin(ws: seq<string>, sep: string)
    requires |sep| > 0 && AllSpace(sep)
    requires forall i :: 0 <= i < |ws| ==> IsWord(ws[i])
    ensures Words(JoinWith(ws, sep)) == ws
    decreases |ws|
  {
    if |ws| == 0 {
      assert JoinWith(ws, sep) == "";
    } else if |ws| == 1 {
      assert JoinWith(ws, sep) == ws[0];
      WordsOfWord(ws[0]);
    } else {
      WordsOfJoin(ws[1..], sep);
      WordsOfJoinStep(ws, sep);
    }
  }

  /** The inductive step of `WordsOfJoin`: a first word in front of words that split back. */
  lemma WordsOfJoinStep(ws: seq<string>, sep: string)
    requires |sep| > 0 && AllSpace(sep) && |ws| >= 2 && IsWord(ws[0])
    requires Words(JoinWith(ws[1..], sep)) == ws[1..]
    ensures Words(JoinWith(ws, sep)) == ws
  {
    var rest := JoinWith(ws[1..], sep);
    assert JoinWith(ws, sep) == ws[0] + sep + rest;
    WordsCons(ws[0], sep, rest);
    assert ws == [ws[0]] + ws[1..];
  }

  /** A single word splits into itself. */
  lemma WordsOfWord(w: string)
    requires IsWord(w)
    ensures Words(w) == [w]
  {
    WordOfPrefix(w, "");
    assert w + "" == w;
    assert w[|w|..] == "";
  }

  /** A word followed by whitespace: `split()` yields the word, then the words of what follows. */
  lemma WordsCons(w: string, sep: string, rest: string)
    requires IsWord(w) && |sep| > 0 && AllSpace(sep)
    ensures Words(w + sep + rest) == [w] + Words(rest)
  {
    var s := w + sep + rest;
    assert s == w + (sep + rest);
    assert LStrip(s) == s by {
      assert s[0] == w[0];
    }
    assert Word(s) == w by {
      WordOfPrefix(w, sep + rest);
    }
    assert s[|w|..] == sep + rest;
    WordsSkipSpaces(sep, rest);
  }

  /** A character the text lacks is in none of its words. */
  lemma {:induction false} WordsAvoid(s: string, c: char)
    requires c !in s
    ensures forall k :: 0 <= k < |Words(s)| ==> c !in Words(s)[k]
    decreases |s|
  {
    var t := LStrip(s);
    if |t| > 0 {
      var w := Word(t);
      var rest := t[|w|..];
      LStripAvoids(s, c);
      FirstWordAvoids(t, c);
      var tail := Words(rest);
      assert forall k :: 0 <= k < |tail| ==> c !in tail[k] by {
        WordsAvoid(rest, c);
      }
      var ws := Words(s);
      assert ws == [w] + tail;
      forall k | 0 <= k < |ws|
        ensures c !in ws[k]
      {
        if k > 0 {
          assert ws[k] == tail[k - 1];
        }
      }
    }
  }

  lemma LStripAvoids(s: string, c: char)
    requires c !in s
    ensures c !in LStrip(s)
  {
    var t := LStrip(s);
    forall j | 0 <= j < |t|
      ensures t[j] != c
    {
      assert t[j] == s[|s| - |t| + j];
    }
  }

  lemma FirstWordAvoids(t: string, c: char)
    requires c !in t
    ensures c !in Word(t) && c !in t[|Word(t)|..]
  {
    var w := Word(t);
    assert t == w + t[|w|..];
  }

  /** The non-whitespace characters of `s`, in order. */
  function Visible(s: string): string {
    if |s| == 0 then ""
    else if IsSpace(s[0]) then Visible(s[1..])
    else [s[0]] + Visible(s[1..])
  }

  lemma {:induction false} VisibleAppend(a: string, b: string)
    ensures Visible(a + b) == Visible(a) + Visible(b)
  {
    if |a| > 0 {
      assert (a + b)[1..] == a[1..] + b;
      VisibleAppend(a[1..], b);
    } else {
      assert a + b == b;
    }
  }

  lemma {:induction false} VisibleLStrip(s: string)
    ensures Visible(LStrip(s)) == Visible(s)
    decreases |s|
  {
    if |s| > 0 && IsSpace(s[0]) {
      VisibleLStrip(s[1..]);
    }
  }

  lemma {:induction false} VisibleRStrip(s: string)
    ensures Visible(RStrip(s)) == Visible(s)
    decreases |s|
  {
    if |s| > 0 && IsSpace(s[|s| - 1]) {
      var init := s[..|s| - 1];
      VisibleRStrip(init);
      assert s == init + [s[|s| - 1]];
      VisibleAppend(init, [s[|s| - 1]]);
    }
  }

  lemma VisibleStrip(s: string)
    ensures Visible(Strip(s)) == Visible(s)
  {
    VisibleLStrip(s);
    VisibleRStrip(LStrip(s));
  }

  /** Stripping leaves alone a string that neither starts nor ends with whitespace. */
  lemma StripUnchanged(s: string)
    requires |s| > 0 ==> !IsSpace(s[0]) && !IsSpace(s[|s| - 1])
    ensures Strip(s) == s
  {
  }

  /** `Strip(s)` is a contiguous slice of `s`. */
  lemma StripIsSlice(s: string) returns (k: nat)
    ensures k + |Strip(s)| <= |s| && Strip(s) == s[k..k + |Strip(s)|]
  {
    var l := LStrip(s);
    k := |s| - |l|;
    assert Strip(s) == l[..|Strip(s)|];
  }

  lemma {:induction false} ReplaceCharAbsent(s: string, a: char, b: char)
    requires a !in s
    ensures ReplaceChar(s, a, b) == s
  {
    if |s| > 0 {
      ReplaceCharAbsent(s[1..], a, b);
    }
  }

  /** Deleting a character that occurs shortens the text. */
  lemma {:induction false} DeleteCharLength(s: string, c: char)
    ensures |DeleteChar(s, c)| <= |s|
    ensures c in s ==> |DeleteChar(s, c)| < |s|
  {
    if |s| > 0 {
      DeleteCharLength(s[1..], c);
      assert s == [s[0]] + s[1..];
    }
  }

  lemma {:induction false} DeleteCharAbsent(s: string, c: char)
    requires c !in s
    ensures DeleteChar(s, c) == s
  {
    if |s| > 0 {
      DeleteCharAbsent(s[1..], c);
    }
  }

  lemma AppendAssoc(a: string, b: string, c: string)
    ensures a + (b + c) == a + b + c
  {
  }

  lemma {:induction false} DeleteCharAppend(a: string, b: string, c: char)
    ensures DeleteChar(a + b, c) == DeleteChar(a, c) + DeleteChar(b, c)
  {
    if |a| > 0 {
      assert (a + b)[1..] == a[1..] + b;
      DeleteCharAppend(a[1..], b, c);
    } else {
      assert a + b == b;
    }
  }

  /** Cutting at `c` stops exactly where a `c`-free prefix meets a `c`. */
  lemma {:induction false} CutAtBoundary(x: string, y: string, c: char)
    requires c !in x && (|y| == 0 || y[0] == c)
    ensures CutAt(x + y, c) == x
  {
    if |x| > 0 {
      assert (x + y)[1..] == x[1..] + y;
      CutAtBoundary(x[1..], y, c);
    } else {
      assert x + y == y;
    }
  }

  /** Replacing one whitespace character by another keeps the visible characters. */
  lemma {:induction false} VisibleReplaceChar(s: string, a: char, b: char)
    requires IsSpace(a) && IsSpace(b)
    ensures Visible(ReplaceChar(s, a, b)) == Visible(s)
  {
    if |s| > 0 {
      VisibleReplaceChar(s[1..], a, b);
    }
  }

  /** Deleting a whitespace character keeps the visible characters. */
  lemma {:induction false} VisibleDeleteChar(s: string, c: char)
    requires IsSpace(c)
    ensures Visible(DeleteChar(s, c)) == Visible(s)
  {
    if |s| > 0 {
      VisibleDeleteChar(s[1..], c);
    }
  }
}

/**
 * The scheme and authority split of Python's `urllib.parse.urlparse`
 * (as in Python 3.12), which both generations use to derive a crawl domain
 * `scheme://netloc`. The scheme follows section 3.1 of RFC 3986
 * (ALPHA *( ALPHA / DIGIT / "+" / "-" / "." ), compared case-insensitively, so it
 * is lower-cased) and the authority follows section 3.2 (introduced by "//",
 * ended by the next "/", "?" or "#" or by the end of the text).
 */
module UrlParse {
  import opened Wrappers
  import opened Strings

  predicate IsAsciiAlpha(c: char) { IsUpperAscii(c) || IsLowerAscii(c) }

  predicate IsSchemeChar(c: char) {
    IsAsciiAlpha(c) || ('0' <= c <= '9') || c == '+' || c == '-' || c == '.'
  }

  predicate AllSchemeChars(s: string) {
    forall i :: 0 <= i < |s| ==> IsSchemeChar(s[i])
  }

  /** A scheme name as section 3.1 of RFC 3986 defines it. */
  predicate IsScheme(s: string) {
    |s| > 0 && IsAsciiAlpha(s[0]) && AllSchemeChars(s)
  }

  /** Ends the authority component (section 3.2 of RFC 3986). */
  predicate IsAuthorityEnd(c: char) { c == '/' || c == '?' || c == '#' }

  /** `url.lstrip(...)` over the C0 controls and space (U+0000 to U+0020). */
  function LStripC0(s: string): (r: string)
    ensures |r| <= |s|
    decreases |s|
  {
    if |s| > 0 && s[0] <= ' ' then LStripC0(s[1..]) else s
  }

  /** Free of tabs, CRs and LFs. */
  predicate Clean(s: string) {
    '\t' !in s && '\r' !in s && '\n' !in s
  }

  /** The clean-up before splitting: leading controls and spaces dropped, then every tab, CR and LF. */
  function Sanitize(url: string): (r: string)
    ensures Clean(r)
  {
    DeleteChar(DeleteChar(DeleteChar(LStripC0(url), '\t'), '\r'), '\n')
  }

  /** `s.find(c)`, or -1 when `c` is absent. */
  function FindChar(s: string, c: char): (r: int)
    ensures -1 <= r < |s|
    ensures r >= 0 ==> s[r] == c && c !in s[..r]
    ensures r == -1 ==> c !in s
  {
    if |s| == 0 then -1
    else if s[0] == c then 0
    else
      var k := FindChar(s[1..], c);
      assert s[1..][..k + 1] == s[1..k + 2] by { }
      if k < 0 then -1 else k + 1
  }

  /** The authority text: the longest prefix without "/", "?" or "#". */
  function AuthorityPrefix(s: string): (r: string)
    ensures r <= s
    ensures forall i :: 0 <= i < |r| ==> !IsAuthorityEnd(r[i])
    ensures |r| < |s| ==> IsAuthorityEnd(s[|r|])
  {
    if |s| == 0 || IsAuthorityEnd(s[0]) then "" else [s[0]] + AuthorityPrefix(s[1..])
  }

  /** The result of `urlparse` that the pipeline reads: `.scheme` and `.netloc`. */
  datatype Parts = Parts(scheme: string, netloc: string)

  /** The scheme split of a sanitized URL: the scheme (lower-cased) and what follows its ":". */
  function SplitScheme(url: string): (r: (string, string))
    ensures r.0 == "" || IsScheme(r.0)
    ensures Lower(r.0) == r.0
    ensures Clean(url) ==> Clean(r.1)
  {
    var i := FindChar(url, ':');
    if i > 0 && IsAsciiAlpha(url[0]) && AllSchemeChars(url[..i])
    then LowerIdempotent(url[..i]); (Lower(url[..i]), url[i + 1..])
    else ("", url)
  }

  /** The netloc split of what follows the scheme. */
  function SplitNetloc(rest: string): (r: string)
    ensures forall i :: 0 <= i < |r| ==> !IsAuthorityEnd(r[i])
    ensures Clean(rest) ==> Clean(r)
  {
    if |rest| >= 2 && rest[..2] == "//" then AuthorityPrefix(rest[2..]) else ""
  }

  /**
   * `urlparse(url)`'s scheme and netloc; `None` when Python raises
   * `ValueError("Invalid IPv6 URL")` because the netloc holds only one of "[" and "]".
   * Two further `ValueError`s of `urlsplit` are not modelled: a netloc that NFKC
   * normalisation turns into one holding "/", "?", "#", "@" or ":", and a
   * bracketed host that is no IPv6 or IPvFuture address.
   */
  function Parse(url: string): (r: Option<Parts>)
    ensures r.Some? ==> forall i :: 0 <= i < |r.value.netloc| ==> !IsAuthorityEnd(r.value.netloc[i])
    ensures r.Some? ==> r.value.scheme == "" || IsScheme(r.value.scheme)
    ensures r.Some? ==> Lower(r.value.scheme) == r.value.scheme
    ensures r.Some? ==> Clean(r.value.scheme) && Clean(r.value.netloc)
    ensures r.Some? ==> ('[' in r.value.netloc) == (']' in r.value.netloc)
  {
    var split := SplitScheme(Sanitize(url));
    var scheme := split.0;
    var netloc := SplitNetloc(split.1);
    if ('[' in netloc) != (']' in netloc) then None
    else Some(Parts(scheme, netloc))
  }

  /** `f"{parsed.scheme}://{parsed.netloc}"`, the crawl domain of a URL. */
  function Origin(url: string): Option<string> {
    match Parse(url)
    case Some(p) => Some(p.scheme + "://" + p.netloc)
    case None => None
  }

  /** `urlparse` raising on an unbalanced bracket in the authority. */
  const InvalidIpv6 := "Invalid IPv6 URL"

  /** The domain of every URL, in order; a URL `urlparse` rejects makes the whole list fail. */
  function Origins(urls: seq<string>): (r: Result<seq<string>>)
    ensures r.Ok? <==> forall i :: 0 <= i < |urls| ==> Origin(urls[i]).Some?
    ensures r.Ok? ==> |r.value| == |urls| && forall i :: 0 <= i < |urls| ==> Origin(urls[i]) == Some(r.value[i])
    ensures r.Raised? ==> r.msg == InvalidIpv6
  {
    if exists i :: 0 <= i < |urls| && Origin(urls[i]).None? then Raised(InvalidIpv6)
    else Ok(seq(|urls|, i requires 0 <= i < |urls| => Origin(urls[i]).value))
  }

  lemma SanitizeIdentity(url: string)
    requires Clean(url) && (|url| > 0 ==> url[0] > ' ')
    ensures Sanitize(url) == url
  {
    DeleteCharAbsent(url, '\t');
    DeleteCharAbsent(url, '\r');
    DeleteCharAbsent(url, '\n');
  }

  lemma SanitizeIsClean(url: string)
    ensures Clean(Sanitize(url))
  {
  }

  lemma SplitSchemeComposed(scheme: string, tail: string)
    requires IsScheme(scheme)
    requires |tail| > 0 && tail[0] == ':'
    ensures SplitScheme(scheme + tail) == (Lower(scheme), tail[1..])
  {
    var url := scheme + tail;
    var i := FindChar(url, ':');
    assert url[|scheme|] == ':';
    assert url[..|scheme|] == scheme;
    assert forall j :: 0 <= j < |scheme| ==> url[j] != ':' by {
      assert forall j :: 0 <= j < |scheme| ==> url[j] == scheme[j] && IsSchemeChar(scheme[j]);
    }
    assert i == |scheme|;
    assert url[i + 1..] == tail[1..];
  }

  lemma {:induction false} AuthorityOfComposed(authority: string, path: string)
    requires forall i :: 0 <= i < |authority| ==> !IsAuthorityEnd(authority[i])
    requires |path| > 0 ==> IsAuthorityEnd(path[0])
    ensures AuthorityPrefix(authority + path) == authority
  {
    if |authority| == 0 {
      assert authority + path == path;
    } else {
      assert (authority + path)[1..] == authority[1..] + path;
      AuthorityOfComposed(authority[1..], path);
    }
  }

  /**
   * Reading back a URL assembled from a scheme, an authority and a path, as in
   * sections 3.1 and 3.2 of RFC 3986, yields that scheme (lower-cased) and that authority.
   */
  lemma ParseComposed(scheme: string, authority: string, path: string)
    requires IsScheme(scheme)
    requires forall i :: 0 <= i < |authority| ==> !IsAuthorityEnd(authority[i])
    requires |path| > 0 ==> IsAuthorityEnd(path[0])
    requires ('[' in authority) == (']' in authority)
    requires Clean(scheme + "://" + authority + path)
    ensures Parse(scheme + "://" + authority + path) == Some(Parts(Lower(scheme), authority))
  {
    var url := scheme + "://" + authority + path;
    var rest := "//" + authority + path;
    assert url == scheme + ([':'] + rest);
    assert Sanitize(url) == url by {
      assert url[0] == scheme[0];
      SanitizeIdentity(url);
    }
    SplitSchemeComposed(scheme, [':'] + rest);
    assert ([':'] + rest)[1..] == rest;
    NetlocOfComposed(authority, path);
  }

  lemma NetlocOfComposed(authority: string, path: string)
    requires forall i :: 0 <= i < |authority| ==> !IsAuthorityEnd(authority[i])
    requires |path| > 0 ==> IsAuthorityEnd(path[0])
    ensures SplitNetloc("//" + authority + path) == authority
  {
    var rest := "//" + authority + path;
    assert rest[..2] == "//";
    assert rest[2..] == authority + path;
    AuthorityOfComposed(authority, path);
  }

  /**
   * Deriving the domain again from a derived domain changes nothing, as long as
   * the URL had a scheme: the pipeline's domains are fixed points of `Origin`.
   */
  lemma OriginIdempotent(url: string)
    requires Origin(url).Some? && Parse(url).value.scheme != ""
    ensures Origin(Origin(url).value) == Origin(url)
  {
    var p := Parse(url).value;
    var o := p.scheme + "://" + p.netloc;
    assert o == p.scheme + "://" + p.netloc + "";
    assert Clean(o);
    ParseComposed(p.scheme, p.netloc, "");
  }
}

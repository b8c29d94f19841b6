/**
  `_is_valid_url` of app/routes.py: a URL is accepted when `urlparse` splits it
  into a scheme that is exactly "http" or "https" and a non-empty network
  location; when `urlparse` raises, the URL is refused.

  `urllib.parse.urlparse` belongs to Python's standard library, whose source is
  not part of this model: the validator takes it as a parameter. `SplitUrl`
  below is a simplified stand-in for it, used to state concrete consequences.
 */
module UrlCheck {
  import opened Wrappers
  import opened PyText

  /** What `urlparse` gives back, as far as the validator looks at it, or the exception it raised. */
  datatype UrlParts = Unparsable | Parts(scheme: string, netloc: string)

  /** `_is_valid_url(url)`, with `urlparse` supplied by the caller. */
  function IsValidUrl(urlparse: string -> UrlParts, url: string): (ok: bool)
  {
    match urlparse(url)
    case Unparsable => false
    case Parts(scheme, netloc) => (scheme == "http" || scheme == "https") && netloc != []
  }

  // ---------------------------------------------------------------------
  // A simplified `urlsplit`: the scheme is the text before the first ':'
  // when that text is a letter followed by letters, digits, '+', '-' or '.',
  // folded to lower case; the network location follows a "//" and runs to
  // the first '/', '?' or '#'; a network location with a '[' but no ']', or
  // the other way round, raises. It leaves out the removal of tab and
  // newline characters and of leading control characters.
  // ---------------------------------------------------------------------

  predicate IsAsciiLetter(c: char) {
    ('a' <= c <= 'z') || ('A' <= c <= 'Z')
  }

  predicate IsSchemeChar(c: char) {
    IsAsciiAlnum(c) || c == '+' || c == '-' || c == '.'
  }

  predicate EndsNetloc(c: char) {
    c == '/' || c == '?' || c == '#'
  }

  function LowerChar(c: char): char {
    if 'A' <= c <= 'Z' then (c as int + 32) as char else c
  }

  function LowerAscii(s: string): (r: string)
    ensures |r| == |s|
    ensures forall i | 0 <= i < |s| :: r[i] == LowerChar(s[i])
  {
    seq(|s|, i requires 0 <= i < |s| => LowerChar(s[i]))
  }

  /** The position of the first ':' in `s`. */
  function FirstColon(s: string): (k: Option<nat>)
    ensures k.Some? ==> k.value < |s| && s[k.value] == ':' && forall j | 0 <= j < k.value :: s[j] != ':'
    ensures k.None? ==> forall j | 0 <= j < |s| :: s[j] != ':'
  {
    if s == [] then None
    else if s[0] == ':' then Some(0)
    else match FirstColon(s[1..])
      case None => None
      case Some(k) => Some(k + 1)
  }

  /** The longest prefix of `s` without '/', '?' or '#'. */
  function NetlocOf(s: string): (n: string)
    ensures |n| <= |s| && n == s[..|n|]
    ensures forall i | 0 <= i < |n| :: !EndsNetloc(n[i])
    ensures |n| < |s| ==> EndsNetloc(s[|n|])
  {
    if s == [] || EndsNetloc(s[0]) then [] else [s[0]] + NetlocOf(s[1..])
  }

  predicate UnbalancedBrackets(netloc: string) {
    ('[' in netloc && ']' !in netloc) || (']' in netloc && '[' !in netloc)
  }

  /** The scheme (lower-cased) and what follows its ':', or no scheme and the whole URL. */
  function SplitScheme(url: string): (string, string)
  {
    match FirstColon(url)
    case Some(i) =>
      if i > 0 && IsAsciiLetter(url[0]) && forall j | 0 <= j < i :: IsSchemeChar(url[j])
      then (LowerAscii(url[..i]), url[i + 1..])
      else ([], url)
    case None => ([], url)
  }

  function SplitUrl(url: string): (parts: UrlParts)
    ensures parts.Parts? ==> forall i | 0 <= i < |parts.netloc| :: !EndsNetloc(parts.netloc[i])
    ensures parts.Parts? ==> forall i | 0 <= i < |parts.scheme| :: !('A' <= parts.scheme[i] <= 'Z')
    ensures parts.Parts? ==> !UnbalancedBrackets(parts.netloc)
    ensures parts.Parts? && parts.scheme != [] ==> url != [] && IsAsciiLetter(url[0])
  {
    var (scheme, rest) := SplitScheme(url);
    var netloc := if |rest| >= 2 && rest[..2] == "//" then NetlocOf(rest[2..]) else [];
    if UnbalancedBrackets(netloc) then Unparsable else Parts(scheme, netloc)
  }

  /**
    `url` starts with `scheme` (in any letter case), then "://", then a
    non-empty network location without a lone bracket.
   */
  predicate IsWebUrl(url: string, scheme: string) {
    var n := |scheme|;
    && |url| >= n + 3
    && LowerAscii(url[..n]) == scheme
    && url[n..n + 3] == "://"
    && NetlocOf(url[n + 3..]) != []
    && !UnbalancedBrackets(NetlocOf(url[n + 3..]))
  }

  /** Under the simplified split, the validator accepts exactly the http and https URLs with a host. */
  lemma SplitUrlValidIff(url: string)
    ensures IsValidUrl(SplitUrl, url) <==> IsWebUrl(url, "http") || IsWebUrl(url, "https")
  {
    if IsWebUrl(url, "http") {
      WebUrlSplits(url, "http");
    } else if IsWebUrl(url, "https") {
      WebUrlSplits(url, "https");
    } else if IsValidUrl(SplitUrl, url) {
      ValidSplitIsWebUrl(url);
    }
  }

  lemma ValidSplitIsWebUrl(url: string)
    requires IsValidUrl(SplitUrl, url)
    ensures IsWebUrl(url, SplitUrl(url).scheme)
  {
    var (scheme, rest) := SplitScheme(url);
    var i := SchemeEndsAtColon(url);
    assert rest == url[i + 1..];
    assert |rest| >= 2 && rest[..2] == "//";
    assert rest[0] == '/' && rest[1] == '/';
    assert url[i..i + 3] == [url[i], rest[0], rest[1]];
    assert rest[2..] == url[i + 3..];
  }

  /** A URL the simplified split gives a non-empty scheme has that scheme before its first ':'. */
  lemma SchemeEndsAtColon(url: string) returns (i: nat)
    requires SplitScheme(url).0 != []
    ensures i < |url| && url[i] == ':' && i == |SplitScheme(url).0|
    ensures SplitScheme(url) == (LowerAscii(url[..i]), url[i + 1..])
  {
    i := FirstColon(url).value;
  }

  /** The scheme of an http(s) URL ends at its first ':'. */
  lemma WebUrlScheme(url: string, scheme: string)
    requires scheme == "http" || scheme == "https"
    requires IsWebUrl(url, scheme)
    ensures SplitScheme(url) == (scheme, url[|scheme| + 1..])
  {
    var n := |scheme|;
    forall j | 0 <= j < n ensures IsAsciiLetter(url[j]) && url[j] != ':' {
      assert LowerChar(url[j]) == scheme[j];
    }
    assert url[n] == url[n..n + 3][0] == ':';
    assert FirstColon(url) == Some(n);
  }

  lemma WebUrlSplits(url: string, scheme: string)
    requires scheme == "http" || scheme == "https"
    requires IsWebUrl(url, scheme)
    ensures SplitUrl(url) == Parts(scheme, NetlocOf(url[|scheme| + 3..]))
  {
    var n := |scheme|;
    WebUrlScheme(url, scheme);
    assert url[n + 1..][2..] == url[n + 3..];
    assert url[n + 1] == url[n..n + 3][1] == '/';
    assert url[n + 2] == url[n..n + 3][2] == '/';
    assert url[n + 1..][..2] == "//";
  }

  /** Without a ':' there is no scheme, so the URL is refused. */
  lemma NoColonIsInvalid(url: string)
    requires forall i | 0 <= i < |url| :: url[i] != ':'
    ensures !IsValidUrl(SplitUrl, url)
  {
    assert FirstColon(url).None?;
  }

  lemma {:induction false} NetlocOfHost(host: string, rest: string)
    requires forall i | 0 <= i < |host| :: !EndsNetloc(host[i])
    requires rest == [] || EndsNetloc(rest[0])
    ensures NetlocOf(host + rest) == host
    decreases |host|
  {
    if host != [] {
      assert (host + rest)[1..] == host[1..] + rest;
      NetlocOfHost(host[1..], rest);
    }
  }

  /**
    Every "http://" or "https://" URL with a non-empty host (no '/', '?', '#'
    or bracket in it), followed by nothing or by a path, query or fragment, is
    accepted.
   */
  lemma HttpUrlWithHostIsValid(scheme: string, host: string, rest: string)
    requires scheme == "http" || scheme == "https"
    requires host != []
    requires forall i | 0 <= i < |host| :: !EndsNetloc(host[i]) && host[i] != '[' && host[i] != ']'
    requires rest == [] || EndsNetloc(rest[0])
    ensures IsValidUrl(SplitUrl, scheme + "://" + host + rest)
  {
    var url := scheme + "://" + host + rest;
    var n := |scheme|;
    assert url[..n] == scheme;
    assert LowerAscii(scheme) == scheme;
    assert url[n..n + 3] == "://";
    assert url[n + 3..] == host + rest;
    NetlocOfHost(host, rest);
    assert IsWebUrl(url, scheme);
    SplitUrlValidIff(url);
  }
}

/** The part of Python's `urllib.parse.urlparse` that the allow-list reads: the network
    location (`netloc`) of a URL. */
module Urls {
  import opened Strings

  predicate IsAsciiLetter(c: char)
  {
    'a' <= c <= 'z' || 'A' <= c <= 'Z'
  }

  /** Characters allowed in a URL scheme. */
  predicate IsSchemeChar(c: char)
  {
    IsAsciiLetter(c) || '0' <= c <= '9' || c == '+' || c == '-' || c == '.'
  }

  /** A scheme `urlsplit` recognises: a letter followed by scheme characters. */
  predicate IsScheme(s: string)
  {
    |s| > 0 && IsAsciiLetter(s[0]) && forall k :: 0 <= k < |s| ==> IsSchemeChar(s[k])
  }

  /** The characters that end the network location. */
  const NetlocStops: set<char> := {'/', '?', '#'}

  /** The URL with its `scheme:` prefix removed, when it has one. */
  function AfterScheme(url: string): (r: string)
    ensures |r| <= |url| && r == url[|url| - |r|..]
  {
    var i := IndexOf(url, ':');
    if i > 0 && IsScheme(url[..i]) then url[i + 1..] else url
  }

  /** `urlparse(url).netloc`: what follows `//` up to the first `/`, `?` or `#`,
      or the empty string when there is no `//`. */
  function Netloc(url: string): (r: string)
    ensures forall i :: 0 <= i < |r| ==> r[i] !in NetlocStops
    ensures r != "" ==>
              2 <= |AfterScheme(url)| && AfterScheme(url)[..2] == "//" && r <= AfterScheme(url)[2..]
  {
    var rest := AfterScheme(url);
    if |rest| >= 2 && rest[..2] == "//" then TakeUntil(rest[2..], NetlocStops) else ""
  }

  /** For a URL written `scheme://host` followed by a path, query or fragment (or nothing),
      the network location is exactly `host`. */
  lemma NetlocOfAbsoluteUrl(scheme: string, host: string, tail: string)
    requires IsScheme(scheme)
    requires forall k :: 0 <= k < |host| ==> host[k] !in NetlocStops
    requires tail == [] || tail[0] in NetlocStops
    ensures Netloc(scheme + "://" + host + tail) == host
  {
    var url := scheme + "://" + host + tail;
    var i := IndexOf(url, ':');
    assert url[|scheme|] == ':';
    assert url[..|scheme|] == scheme;
    assert i == |scheme|;
    assert url[i + 1..] == "//" + host + tail;
    var rest := AfterScheme(url);
    assert rest[2..] == host + tail;
    var r := TakeUntil(host + tail, NetlocStops);
    assert (host + tail)[..|host|] == host;
    assert |host| < |host + tail| ==> (host + tail)[|host|] in NetlocStops;
    assert |r| == |host|;
    assert r == host;
  }
}

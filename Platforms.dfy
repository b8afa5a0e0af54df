/** The platform allow-list that gates every request: a URL is accepted when one of eleven
    fixed domains occurs, as a substring, in its lower-cased network location. */
module Platforms {
  import opened Strings
  import opened Urls

  /** The supported domains, in the order the source lists them. */
  const SupportedDomains: seq<string> := [
    "youtube.com", "youtu.be", "tiktok.com", "instagram.com",
    "twitter.com", "x.com", "facebook.com", "twitch.tv",
    "vimeo.com", "dailymotion.com", "reddit.com"
  ]

  /** `any(d in host for d in domains)`. */
  function AnyDomainIn(domains: seq<string>, host: string): (r: bool)
    ensures r <==> exists k :: 0 <= k < |domains| && Occurs(domains[k], host)
  {
    if domains == [] then false
    else
      assert forall k :: 0 <= k < |domains| - 1 ==> domains[1..][k] == domains[k + 1];
      Contains(host, domains[0]) || AnyDomainIn(domains[1..], host)
  }

  /** The host test on an already lower-cased network location. */
  predicate HostAllowed(host: string)
  {
    AnyDomainIn(SupportedDomains, host)
  }

  /** `is_supported_platform(url)`: some supported domain is a substring of the
      lower-cased network location. */
  function IsSupportedPlatform(url: string): (r: bool)
    ensures r <==> exists k :: 0 <= k < |SupportedDomains| && Occurs(SupportedDomains[k], ToLower(Netloc(url)))
  {
    HostAllowed(ToLower(Netloc(url)))
  }

  /** Only the host decides: the scheme, path, query and fragment of a URL play no part. */
  lemma OnlyHostDecides(scheme: string, host: string, tail: string)
    requires IsScheme(scheme)
    requires forall k :: 0 <= k < |host| ==> host[k] !in NetlocStops
    requires tail == [] || tail[0] in NetlocStops
    ensures IsSupportedPlatform(scheme + "://" + host + tail) <==>
            exists k :: 0 <= k < |SupportedDomains| && Occurs(SupportedDomains[k], ToLower(host))
  {
    NetlocOfAbsoluteUrl(scheme, host, tail);
  }

  /** The test is case-insensitive: writing the host in capitals never changes the verdict. */
  lemma CaseInsensitive(scheme: string, host: string, tail: string)
    requires IsScheme(scheme)
    requires forall k :: 0 <= k < |host| ==> host[k] !in NetlocStops
    requires tail == [] || tail[0] in NetlocStops
    ensures IsSupportedPlatform(scheme + "://" + ToUpper(host) + tail) == IsSupportedPlatform(scheme + "://" + host + tail)
  {
    var upper := ToUpper(host);
    assert forall k :: 0 <= k < |upper| ==> upper[k] !in NetlocStops;
    NetlocOfAbsoluteUrl(scheme, host, tail);
    NetlocOfAbsoluteUrl(scheme, upper, tail);
    LowerForgetsCase(host);
  }

  /** Lower-casing leaves a string without capital letters unchanged. */
  lemma LowerOfLowerCase(s: string)
    requires forall i :: 0 <= i < |s| ==> !('A' <= s[i] <= 'Z')
    ensures ToLower(s) == s
  {
  }

  /** Every supported domain is written in lower case, so lower-casing a host keeps it. */
  lemma DomainsAreLowerCase(k: int)
    requires 0 <= k < |SupportedDomains|
    ensures ToLower(SupportedDomains[k]) == SupportedDomains[k]
  {
    LowerOfLowerCase(SupportedDomains[k]);
  }

  /** A host holding a supported domain passes the host test once lower-cased. */
  lemma ContainingHostAllowed(before: string, k: int, after: string)
    requires 0 <= k < |SupportedDomains|
    ensures HostAllowed(ToLower(before + SupportedDomains[k] + after))
  {
    var d := SupportedDomains[k];
    LowerAppend(before, d);
    LowerAppend(before + d, after);
    DomainsAreLowerCase(k);
    OccursInside(ToLower(before), d, ToLower(after));
    assert ToLower(before + d + after) == ToLower(before) + d + ToLower(after);
  }

  /** No supported domain holds a character that ends a network location. */
  lemma DomainHasNoStops(k: int)
    requires 0 <= k < |SupportedDomains|
    ensures forall i :: 0 <= i < |SupportedDomains[k]| ==> SupportedDomains[k][i] !in NetlocStops
  {
  }

  /** Gluing three stop-free pieces gives a stop-free host. */
  lemma NoStopsInConcat(a: string, b: string, c: string)
    requires forall i :: 0 <= i < |a| ==> a[i] !in NetlocStops
    requires forall i :: 0 <= i < |b| ==> b[i] !in NetlocStops
    requires forall i :: 0 <= i < |c| ==> c[i] !in NetlocStops
    ensures forall i :: 0 <= i < |a + b + c| ==> (a + b + c)[i] !in NetlocStops
  {
  }

  /** A URL whose host passes the host test is accepted. */
  lemma AllowedHostAccepted(scheme: string, host: string, tail: string)
    requires IsScheme(scheme)
    requires forall k :: 0 <= k < |host| ==> host[k] !in NetlocStops
    requires tail == [] || tail[0] in NetlocStops
    requires HostAllowed(ToLower(host))
    ensures IsSupportedPlatform(scheme + "://" + host + tail)
  {
    NetlocOfAbsoluteUrl(scheme, host, tail);
  }

  /** Any host that contains a supported domain anywhere is accepted, whatever surrounds it
      and however it is capitalised: subdomains (`m.youtube.com`) pass, and so do
      unrelated hosts that merely contain a listed name (`dropbox.com` contains `x.com`). */
  lemma HostContainingDomainAccepted(scheme: string, before: string, k: int, after: string, tail: string)
    requires IsScheme(scheme)
    requires 0 <= k < |SupportedDomains|
    requires forall i :: 0 <= i < |before| ==> before[i] !in NetlocStops
    requires forall i :: 0 <= i < |after| ==> after[i] !in NetlocStops
    requires tail == [] || tail[0] in NetlocStops
    ensures IsSupportedPlatform(scheme + "://" + (before + SupportedDomains[k] + after) + tail)
    ensures IsSupportedPlatform(scheme + "://" + ToUpper(before + SupportedDomains[k] + after) + tail)
  {
    var host := before + SupportedDomains[k] + after;
    DomainHasNoStops(k);
    NoStopsInConcat(before, SupportedDomains[k], after);
    ContainingHostAllowed(before, k, after);
    AllowedHostAccepted(scheme, host, tail);
    CaseInsensitive(scheme, host, tail);
  }

  /** `dropbox.com` is accepted: it contains `x.com`. */
  lemma LookalikeHostAccepted()
    ensures IsSupportedPlatform("https://dropbox.com/s/file")
  {
    assert IsScheme("https");
    assert SupportedDomains[5] == "x.com";
    assert "https://dropbox.com/s/file" == "https" + "://" + ("dropbo" + SupportedDomains[5] + "") + "/s/file";
    HostContainingDomainAccepted("https", "dropbo", 5, "", "/s/file");
  }

  /** A subdomain of a listed site is accepted. */
  lemma MobileSubdomainAccepted(url: string)
    requires url == "https://m.youtube.com/watch?v=1"
    ensures IsSupportedPlatform(url)
  {
    assert IsScheme("https");
    assert url == "https" + "://" + ("m." + SupportedDomains[0] + "") + "/watch?v=1";
    HostContainingDomainAccepted("https", "m.", 0, "", "/watch?v=1");
  }

  /** `x.com` is not inside `example.com`: the only `x` there is followed by an `a`. */
  lemma XComNotInExample()
    ensures !Occurs("x.com", "example.com")
  {
    var hay := "example.com";
    forall i | 0 <= i <= |hay|
      ensures !("x.com" <= hay[i..])
    {
      if i == 1 {
        assert hay[i..][1] == 'a';
      } else if i < |hay| {
        assert hay[i..][0] != 'x';
      }
    }
  }

  /** No listed domain occurs in `example.com`. */
  lemma NoDomainInExample()
    ensures forall k :: 0 <= k < |SupportedDomains| ==> !Occurs(SupportedDomains[k], "example.com")
  {
    var host := "example.com";
    forall k | 0 <= k < |SupportedDomains|
      ensures !Occurs(SupportedDomains[k], host)
    {
      var d := SupportedDomains[k];
      if k == 5 {
        XComNotInExample();
      } else {
        assert d[0] in d && d[0] !in host;
        MissingCharPreventsOccurrence(d, host, d[0]);
      }
    }
  }

  /** A host that contains no listed domain is refused. */
  lemma UnlistedHostRefused(url: string)
    requires url == "https://example.com"
    ensures !IsSupportedPlatform(url)
  {
    var host := "example.com";
    assert IsScheme("https");
    assert url == "https" + "://" + host + "";
    NoDomainInExample();
    LowerOfLowerCase(host);
    OnlyHostDecides("https", host, "");
  }
}

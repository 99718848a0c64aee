/** The URL safety gate in front of the crawler: a scheme whitelist, a
    private-host test and an optional domain whitelist.

    The URL parser and the IP-literal classifier are inputs: `parse` returns
    the scheme and hostname the parser extracts (None when it raises), and
    `classify` says whether a hostname is an IP literal and, if so, whether
    it is private, loopback or reserved. */
module UrlSafety {
  import opened Base

  /** The schemes the crawler may fetch. */
  const AllowedSchemes: set<string> := {"http", "https"}

  /** Hostnames that are private whatever their case. */
  const PrivateHostnames: set<string> := {"localhost", "127.0.0.1", "0.0.0.0", "::1"}

  /** Hostname prefixes treated as private networks. */
  const PrivatePrefixes: seq<string> := [
    "10.", "192.168.", "172.16.", "172.17.", "172.18.", "172.19.",
    "172.20.", "172.21.", "172.22.", "172.23.", "172.24.", "172.25.",
    "172.26.", "172.27.", "172.28.", "172.29.", "172.30.", "172.31.",
    "169.254."
  ]

  /** What the IP-address parser says about a hostname. */
  datatype IpClass = NotAnIp | Ip(blocked: bool)

  /** `hostname.startswith(prefixes)` for a tuple of prefixes. */
  predicate StartsWithAny(h: string, prefixes: seq<string>)
    decreases |prefixes|
  {
    |prefixes| > 0 && (StartsWith(h, prefixes[0]) || StartsWithAny(h, prefixes[1..]))
  }

  function DigitValue(c: char): int
  {
    c as int - '0' as int
  }

  predicate IsDigit(c: char) {
    '0' <= c <= '9'
  }

  /** The private networks the prefix list names, stated independently of
      the list: 10/8, 192.168/16, 169.254/16, and 172.N with N from 16 to 31,
      each as a dotted textual prefix. */
  predicate PrivateByPattern(h: string) {
    || StartsWith(h, "10.")
    || StartsWith(h, "192.168.")
    || StartsWith(h, "169.254.")
    || (&& StartsWith(h, "172.") && |h| >= 7 && IsDigit(h[4]) && IsDigit(h[5]) && h[6] == '.'
        && 16 <= 10 * DigitValue(h[4]) + DigitValue(h[5]) <= 31)
  }

  lemma {:induction false} StartsWithAnyExists(h: string, prefixes: seq<string>)
    ensures StartsWithAny(h, prefixes) <==> exists i :: 0 <= i < |prefixes| && StartsWith(h, prefixes[i])
    decreases |prefixes|
  {
    if |prefixes| > 0 {
      StartsWithAnyExists(h, prefixes[1..]);
      if StartsWithAny(h, prefixes[1..]) {
        var i :| 0 <= i < |prefixes[1..]| && StartsWith(h, prefixes[1..][i]);
        assert StartsWith(h, prefixes[i + 1]);
      }
      if exists i :: 0 <= i < |prefixes| && StartsWith(h, prefixes[i]) {
        var i :| 0 <= i < |prefixes| && StartsWith(h, prefixes[i]);
        if i > 0 {
          assert StartsWith(h, prefixes[1..][i - 1]);
        }
      }
    }
  }

  /** The 172.N entries of the prefix list: entry `n - 14` is "172.N." */
  lemma Block172Entry(n: int)
    requires 16 <= n <= 31
    ensures PrivatePrefixes[n - 14] == "172." + [(('0' as int) + n / 10) as char, (('0' as int) + n % 10) as char] + "."
  {
    if n == 16 {} else if n == 17 {} else if n == 18 {} else if n == 19 {}
    else if n == 20 {} else if n == 21 {} else if n == 22 {} else if n == 23 {}
    else if n == 24 {} else if n == 25 {} else if n == 26 {} else if n == 27 {}
    else if n == 28 {} else if n == 29 {} else if n == 30 {} else {}
  }

  /** A hostname starting "172.N." with N from 16 to 31 starts with a
      listed prefix. */
  lemma Block172Listed(h: string)
    requires StartsWith(h, "172.") && |h| >= 7 && IsDigit(h[4]) && IsDigit(h[5]) && h[6] == '.'
    requires 16 <= 10 * DigitValue(h[4]) + DigitValue(h[5]) <= 31
    ensures StartsWith(h, PrivatePrefixes[10 * DigitValue(h[4]) + DigitValue(h[5]) - 14])
  {
    var n := 10 * DigitValue(h[4]) + DigitValue(h[5]);
    Block172Entry(n);
    assert h[..4] == "172.";
    assert h[..7] == h[..4] + [h[4], h[5]] + [h[6]];
  }

  /** A hostname starting with listed 172 entry `i` starts "172.N." with N
      from 16 to 31. */
  lemma ListedBlock172(h: string, i: int)
    requires 2 <= i <= 17 && StartsWith(h, PrivatePrefixes[i])
    ensures PrivateByPattern(h)
  {
    Block172Entry(i + 14);
    var p := PrivatePrefixes[i];
    assert h[..7] == p;
    assert h[..4] == p[..4];
    assert h[4] == p[4] && h[5] == p[5] && h[6] == p[6];
  }

  /** The prefix list is exactly the set of networks `PrivateByPattern` names. */
  lemma PrivatePrefixesMeaning(h: string)
    ensures StartsWithAny(h, PrivatePrefixes) <==> PrivateByPattern(h)
  {
    StartsWithAnyExists(h, PrivatePrefixes);
    if PrivateByPattern(h) {
      if StartsWith(h, "10.") {
        assert StartsWith(h, PrivatePrefixes[0]);
      } else if StartsWith(h, "192.168.") {
        assert StartsWith(h, PrivatePrefixes[1]);
      } else if StartsWith(h, "169.254.") {
        assert StartsWith(h, PrivatePrefixes[18]);
      } else {
        Block172Listed(h);
      }
    }
    if StartsWithAny(h, PrivatePrefixes) {
      var i :| 0 <= i < |PrivatePrefixes| && StartsWith(h, PrivatePrefixes[i]);
      if 2 <= i <= 17 {
        ListedBlock172(h, i);
      } else if i == 0 {
        assert PrivatePrefixes[i] == "10.";
      } else if i == 1 {
        assert PrivatePrefixes[i] == "192.168.";
      } else {
        assert PrivatePrefixes[i] == "169.254.";
      }
    }
  }

  /** `is_private_ip`: a listed hostname (compared in lower case) is private;
      otherwise an IP literal is private exactly when the IP parser says it is
      private, loopback or reserved; otherwise the hostname is private exactly
      when it textually starts like an address in a private network. */
  function IsPrivateIp(classify: string -> IpClass, hostname: string): (b: bool)
    ensures Lower(hostname) in PrivateHostnames ==> b
    ensures Lower(hostname) !in PrivateHostnames && classify(hostname).Ip? ==> b == classify(hostname).blocked
    ensures Lower(hostname) !in PrivateHostnames && classify(hostname).NotAnIp? ==> (b <==> PrivateByPattern(hostname))
  {
    PrivatePrefixesMeaning(hostname);
    if Lower(hostname) in PrivateHostnames then true
    else
      match classify(hostname)
      case Ip(blocked) => blocked
      case NotAnIp => StartsWithAny(hostname, PrivatePrefixes)
  }

  /** A hostname that is no IP literal, starts with "10." and is not in the
      literal set is private even when it names a public DNS domain. */
  lemma NonNumericPrivatePrefix(classify: string -> IpClass)
    requires classify("10.example.com") == NotAnIp
    ensures IsPrivateIp(classify, "10.example.com")
  {
    assert StartsWith("10.example.com", "10.");
  }

  /** The literal private names match in any letter case. */
  lemma LocalhostAnyCase(classify: string -> IpClass)
    ensures IsPrivateIp(classify, "LocalHost")
  {
    assert Lower("LocalHost") == "localhost";
  }

  /** What the URL parser extracts: the scheme and the hostname, if any. */
  datatype Parsed = Parsed(scheme: string, hostname: Option<string>)

  /** Why a URL is refused; each case is one `ValueError` message. */
  datatype UrlError =
    | EmptyUrl
    | InvalidUrl
    | SchemeNotAllowed(scheme: string)
    | NoHost
    | PrivateAddress
    | DomainNotAllowed(hostname: string)

  datatype Outcome = Accepted(url: string) | Refused(error: UrlError)

  /** The hostname is the domain itself or a subdomain of it. */
  predicate DomainMatches(hostname: string, domain: string) {
    hostname == domain || EndsWith(hostname, "." + domain)
  }

  /** The domain loop: whether some listed domain matches. */
  predicate AnyDomainMatches(hostname: string, domains: seq<string>)
    decreases |domains|
  {
    |domains| > 0 && (DomainMatches(hostname, domains[0]) || AnyDomainMatches(hostname, domains[1..]))
  }

  lemma {:induction false} AnyDomainMatchesExists(hostname: string, domains: seq<string>)
    ensures AnyDomainMatches(hostname, domains) <==> exists i :: 0 <= i < |domains| && DomainMatches(hostname, domains[i])
    decreases |domains|
  {
    if |domains| > 0 {
      AnyDomainMatchesExists(hostname, domains[1..]);
      if AnyDomainMatches(hostname, domains[1..]) {
        var i :| 0 <= i < |domains[1..]| && DomainMatches(hostname, domains[1..][i]);
        assert DomainMatches(hostname, domains[i + 1]);
      }
      if exists i :: 0 <= i < |domains| && DomainMatches(hostname, domains[i]) {
        var i :| 0 <= i < |domains| && DomainMatches(hostname, domains[i]);
        if i > 0 {
          assert DomainMatches(hostname, domains[1..][i - 1]);
        }
      }
    }
  }

  /** The domain whitelist is applied only when it is given and non-empty. */
  predicate DomainAllowed(hostname: string, allowedDomains: Option<seq<string>>) {
    allowedDomains.None? || |allowedDomains.value| == 0 || AnyDomainMatches(hostname, allowedDomains.value)
  }

  /** `validate_url`: the checks in their order, the first failing one
      deciding the error; an accepted URL is returned unchanged. */
  function ValidateUrl(parse: string -> Option<Parsed>, classify: string -> IpClass, url: string,
                       allowedDomains: Option<seq<string>>): (r: Outcome)
    ensures r.Accepted? ==> r.url == url
    ensures url == "" ==> r == Refused(EmptyUrl)
    ensures url != "" && parse(url).None? ==> r == Refused(InvalidUrl)
    ensures r.Accepted? <==>
              && url != ""
              && parse(url).Some?
              && parse(url).value.scheme in AllowedSchemes
              && Truthy(parse(url).value.hostname)
              && !IsPrivateIp(classify, parse(url).value.hostname.value)
              && DomainAllowed(parse(url).value.hostname.value, allowedDomains)
  {
    if url == "" then Refused(EmptyUrl)
    else
      match parse(url)
      case None => Refused(InvalidUrl)
      case Some(p) =>
        if p.scheme !in AllowedSchemes then Refused(SchemeNotAllowed(p.scheme))
        else if !Truthy(p.hostname) then Refused(NoHost)
        else if IsPrivateIp(classify, p.hostname.value) then Refused(PrivateAddress)
        else if !DomainAllowed(p.hostname.value, allowedDomains) then Refused(DomainNotAllowed(p.hostname.value))
        else Accepted(url)
  }

  /** The scheme is checked before the host: a URL with a scheme outside
      the whitelist is refused for its scheme, whatever its host. */
  lemma SchemeCheckedFirst(parse: string -> Option<Parsed>, classify: string -> IpClass, url: string,
                           allowedDomains: Option<seq<string>>)
    requires url != "" && parse(url).Some? && parse(url).value.scheme !in AllowedSchemes
    ensures ValidateUrl(parse, classify, url, allowedDomains) == Refused(SchemeNotAllowed(parse(url).value.scheme))
  {
  }

  /** A parsed URL with an allowed scheme and no hostname is refused for
      missing its host. */
  lemma HostRequired(parse: string -> Option<Parsed>, classify: string -> IpClass, url: string,
                     allowedDomains: Option<seq<string>>)
    requires url != "" && parse(url).Some? && parse(url).value.scheme in AllowedSchemes
    requires !Truthy(parse(url).value.hostname)
    ensures ValidateUrl(parse, classify, url, allowedDomains) == Refused(NoHost)
  {
  }

  /** The private-host test comes before the domain whitelist: a private host
      is refused as private even when its domain is whitelisted. */
  lemma PrivateCheckedBeforeDomain(parse: string -> Option<Parsed>, classify: string -> IpClass, url: string,
                                   allowedDomains: Option<seq<string>>)
    requires url != "" && parse(url).Some? && parse(url).value.scheme in AllowedSchemes
    requires Truthy(parse(url).value.hostname)
    requires IsPrivateIp(classify, parse(url).value.hostname.value)
    ensures ValidateUrl(parse, classify, url, allowedDomains) == Refused(PrivateAddress)
  {
  }

  /** With a non-empty whitelist, an accepted URL's hostname is some listed
      domain or a subdomain of one; an absent or empty whitelist imposes
      nothing. */
  lemma AcceptedDomainIsListed(parse: string -> Option<Parsed>, classify: string -> IpClass, url: string,
                               allowedDomains: Option<seq<string>>)
    ensures var r := ValidateUrl(parse, classify, url, allowedDomains);
            r.Accepted? && allowedDomains.Some? && |allowedDomains.value| > 0 ==>
              exists i :: 0 <= i < |allowedDomains.value| &&
                DomainMatches(parse(url).value.hostname.value, allowedDomains.value[i])
    ensures ValidateUrl(parse, classify, url, None) == ValidateUrl(parse, classify, url, Some([]))
  {
    var r := ValidateUrl(parse, classify, url, allowedDomains);
    if r.Accepted? && allowedDomains.Some? && |allowedDomains.value| > 0 {
      AnyDomainMatchesExists(parse(url).value.hostname.value, allowedDomains.value);
    }
  }

  /** Every accepted URL has an allowed scheme and a host that is not
      private. */
  lemma AcceptedIsSafe(parse: string -> Option<Parsed>, classify: string -> IpClass, url: string,
                       allowedDomains: Option<seq<string>>)
    requires ValidateUrl(parse, classify, url, allowedDomains).Accepted?
    ensures parse(url).Some? && parse(url).value.scheme in {"http", "https"}
    ensures var h := parse(url).value.hostname;
            && h.Some? && h.value != ""
            && Lower(h.value) !in PrivateHostnames
            && (classify(h.value).NotAnIp? ==> !PrivateByPattern(h.value))
            && (classify(h.value).Ip? ==> !classify(h.value).blocked)
  {
  }

  /** What the IP-address parser promises for the networks the prefix list
      names: an IP literal inside 10/8, 172.16/12, 192.168/16 or 169.254/16
      is private or reserved. */
  ghost predicate ClassifiesPrivateNetworks(classify: string -> IpClass) {
    forall h :: classify(h).Ip? && PrivateByPattern(h) ==> classify(h).blocked
  }

  /** Under that promise every hostname in a private network is private,
      whether it is an IP literal or not. */
  lemma PrivateNetworkHostIsPrivate(classify: string -> IpClass, h: string)
    requires ClassifiesPrivateNetworks(classify)
    requires PrivateByPattern(h)
    ensures IsPrivateIp(classify, h)
  {
  }

  /** Under that promise no accepted URL has a host in a private network. */
  lemma AcceptedOutsidePrivateNetworks(parse: string -> Option<Parsed>, classify: string -> IpClass, url: string,
                                       allowedDomains: Option<seq<string>>)
    requires ClassifiesPrivateNetworks(classify)
    requires ValidateUrl(parse, classify, url, allowedDomains).Accepted?
    ensures !PrivateByPattern(parse(url).value.hostname.value)
  {
    var h := parse(url).value.hostname.value;
    if PrivateByPattern(h) {
      PrivateNetworkHostIsPrivate(classify, h);
    }
  }

  /** The cloud metadata address is refused as private, whatever the domain
      whitelist. */
  lemma MetadataAddressRefused(parse: string -> Option<Parsed>, classify: string -> IpClass, url: string,
                               allowedDomains: Option<seq<string>>)
    requires ClassifiesPrivateNetworks(classify)
    requires url != "" && parse(url) == Some(Parsed("http", Some("169.254.169.254")))
    ensures ValidateUrl(parse, classify, url, allowedDomains) == Refused(PrivateAddress)
  {
    assert StartsWith("169.254.169.254", "169.254.");
    PrivateNetworkHostIsPrivate(classify, "169.254.169.254");
  }
}

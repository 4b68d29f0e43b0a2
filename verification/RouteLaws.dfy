/** What the compiled route table means for the sites that declared it: whose route and whose
    certificate a host gets, and which tables are accepted. */
module RouteLaws {
  import opened Wrappers
  import opened Text
  import opened Locations
  import opened RouteTable

  // ----- Claims are the declared names -----

  /** The claim is for one of the site's server names, with the site's route and certificate. */
  predicate Declares(input: Input, site: Site, c: Claim) {
    && (exists word | word in Words(site.serverName) :: c.name == Lower(word))
    && c.route == RouteOf(input, site) && c.cert == SiteCert(input, site)
  }

  lemma SiteClaimsDeclared(input: Input, site: Site, c: Claim)
    ensures c in SiteClaims(input, site) <==> Declares(input, site, c)
  {
    var words := Words(site.serverName);
    ClaimsShape(words, RouteOf(input, site), SiteCert(input, site));
    var cs := SiteClaims(input, site);
    if c in cs {
      var i :| 0 <= i < |cs| && cs[i] == c;
      assert words[i] in words && c.name == Lower(words[i]);
    }
    if Declares(input, site, c) {
      var word :| word in words && c.name == Lower(word);
      var i :| 0 <= i < |words| && words[i] == word;
      assert cs[i] == c;
    }
  }

  /** Main result: the claims that the table is built from are the words of the sites' server
      names, lowercased, each with its own site's route and certificate. */
  lemma {:induction false} ClaimsAreDeclared(input: Input, sites: seq<Site>, c: Claim)
    ensures c in AllClaims(input, sites) <==> exists site | site in sites :: Declares(input, site, c)
  {
    if sites != [] {
      var before, site := sites[..|sites| - 1], sites[|sites| - 1];
      ClaimsAreDeclared(input, before, c);
      SiteClaimsDeclared(input, site, c);
      assert sites == before + [site];
    }
  }

  /** Main result: what a site's route is made of. */
  lemma RouteTellsSite(input: Input, site: Site)
    ensures var r, proxy := RouteOf(input, site), site.kind == "proxy_host" || site.kind == "proxy_container";
            && r.id == site.id && r.serverNames == Words(site.serverName)
            && (r.ssl <==> site.ssl && (if site.certName == "" then site.id else "cert-" + site.certName) in input.certs)
            && (r.forceSsl <==> r.ssl && site.forceSsl)
            && r.kind == (if proxy then Proxy
                          else if site.kind != "static" then Maintenance
                          else if site.localRoot != "" then Static(site.localRoot)
                          else Static(JoinPath(input.wwwDir, site.root)))
            && forall l :: l in r.locations <==> l in site.locations && !(proxy && l.path == "/")
  {
    forall l
      ensures l in RouteOf(input, site).locations
              <==> l in site.locations && !((site.kind == "proxy_host" || site.kind == "proxy_container") && l.path == "/")
    {
      BuildKeeps(site.locations, IsProxyKind(site.kind), l);
    }
  }

  predicate IsLabel(word: string) {
    word != "" && '.' !in word
  }

  /** A wildcard stands for exactly one non-empty label. */
  lemma WildcardIsOneLabel(host: string, suffix: string)
    ensures WildcardMatches(host, suffix) <==> exists word :: IsLabel(word) && host == word + suffix
  {
    if WildcardMatches(host, suffix) {
      var word := host[..|host| - |suffix|];
      assert IsLabel(word) && host == word + suffix;
    }
    if word :| IsLabel(word) && host == word + suffix {
      assert host[..|word|] == word && host[|word|..] == suffix;
    }
  }

  /** Before it is initialised the console answers every host that finds nothing else; a listener of
      its own always has the plain console. */
  lemma ConsoleAlwaysThere(input: Input)
    ensures Compiled(input).consoleRoute.Some? && Compiled(input).consoleFallback.Some? == !input.console.initialized
    ensures forall r | r == Compiled(input).consoleRoute || r == Compiled(input).consoleFallback ::
              r.Some? ==> r.value.id == "__console__" && r.value.kind == Proxy && !r.value.ssl && !r.value.forceSsl
                          && r.value.locations == []
  {
  }

  // ----- Whose certificate -----

  lemma {:induction false} CertsValue(cs: seq<Claim>, default: Option<Cert>, i: nat)
    requires Distinct(cs) && i < |cs| && cs[i].cert.Some? && !IsWild(cs[i].name)
    requires forall k | 0 <= k < |cs| :: Lower(cs[k].name) == cs[k].name
    ensures cs[i].name in Certs(cs, default).byHost && Certs(cs, default).byHost[cs[i].name] == cs[i].cert.value
  {
    if i < |cs| - 1 { CertsValue(cs[..|cs| - 1], default, i); }
  }

  lemma {:induction false} CertsWildValue(cs: seq<Claim>, default: Option<Cert>, i: nat)
    requires i < |cs| && cs[i].cert.Some? && IsWild(cs[i].name)
    requires forall k | 0 <= k < |cs| :: Lower(cs[k].name) == cs[k].name
    ensures (Suffix(cs[i].name), cs[i].cert.value) in Certs(cs, default).wildcards
  {
    if i < |cs| - 1 { CertsWildValue(cs[..|cs| - 1], default, i); }
  }

  lemma {:induction false} CertsWildSource(cs: seq<Claim>, default: Option<Cert>, w: (string, Cert)) returns (i: nat)
    requires w in Certs(cs, default).wildcards && forall k | 0 <= k < |cs| :: Lower(cs[k].name) == cs[k].name
    ensures i < |cs| && cs[i].cert.Some? && IsWild(cs[i].name) && w == (Suffix(cs[i].name), cs[i].cert.value)
  {
    var before, c := cs[..|cs| - 1], cs[|cs| - 1];
    if c.cert.Some? && IsWild(c.name) && w == (Suffix(c.name), c.cert.value) {
      i := |cs| - 1;
    } else {
      i := CertsWildSource(before, default, w);
    }
  }

  /** The key that the console's own certificate is indexed under, if it has one. */
  function ConsoleKey(input: Input): Option<string> {
    if ConsoleCert(input).Some? then Some(Lower(TrimBrackets(ExternalHost(input)))) else None
  }

  /** Main result: a client that names a site's exact name gets that site's certificate, unless the
      console's is indexed under the same name. */
  lemma ExactNameGetsItsCert(input: Input, i: nat)
    requires var cs := AllClaims(input, input.sites);
             Distinct(cs) && i < |cs| && !IsWild(cs[i].name) && cs[i].cert.Some?
             && ConsoleKey(input) != Some(cs[i].name)
    ensures var c := AllClaims(input, input.sites)[i];
            Resolve(Compiled(input).certs, Some(c.name)) == c.cert
  {
    var cs := AllClaims(input, input.sites);
    NamesAreLower(input, input.sites);
    CertsValue(cs, LoadCert(input, "default"), i);
  }

  /** Main result: a client that names a host under a wildcard, with no certificate of its own, gets
      the certificate of the wildcard's site. */
  lemma WildcardHostGetsItsCert(input: Input, i: nat, host: string)
    requires var cs := AllClaims(input, input.sites);
             Distinct(cs) && i < |cs| && IsWild(cs[i].name) && cs[i].cert.Some?
             && WildcardMatches(host, Suffix(cs[i].name)) && !IsCertName(input, host)
             && ConsoleKey(input) != Some(cs[i].name)
    requires Lower(host) == host && !IsWild(host)
    ensures Resolve(Compiled(input).certs, Some(host)) == AllClaims(input, input.sites)[i].cert
  {
    var cs, store := AllClaims(input, input.sites), Compiled(input).certs;
    NamesAreLower(input, input.sites);
    CompiledCerts(input, host);
    CertsWildValue(cs, LoadCert(input, "default"), i);
    var own := (Suffix(cs[i].name), cs[i].cert.value);
    assert own in store.wildcards;
    LongestMatchFinds(store.wildcards, host);
    var w := LongestMatch(store.wildcards, host).value;
    MatchUnique(host, w.0, own.0);
    OneCertPerSuffix(input, i, w);
  }

  lemma OneCertPerSuffix(input: Input, i: nat, w: (string, Cert))
    requires var cs := AllClaims(input, input.sites);
             Distinct(cs) && i < |cs| && IsWild(cs[i].name) && cs[i].cert.Some? && ConsoleKey(input) != Some(cs[i].name)
             && w in Compiled(input).certs.wildcards && w.0 == Suffix(cs[i].name)
    ensures Some(w.1) == AllClaims(input, input.sites)[i].cert
  {
    var cs := AllClaims(input, input.sites);
    NamesAreLower(input, input.sites);
    if w in Certs(cs, LoadCert(input, "default")).wildcards {
      var j := CertsWildSource(cs, LoadCert(input, "default"), w);
      SuffixInjective(cs[j].name, cs[i].name);
      assert cs[j].name == cs[i].name;
    } else {
      SuffixInjective(ConsoleKey(input).value, cs[i].name);
      assert false;
    }
  }

  /** Main result: a client that names the console's address, as it does without brackets, gets the
      console's certificate. */
  lemma ConsoleGetsItsCert(input: Input)
    requires ConsoleCert(input).Some? && !IsWild(ConsoleKey(input).value)
    ensures Resolve(Compiled(input).certs, ConsoleKey(input)) == ConsoleCert(input)
  {
    LowerLower(TrimBrackets(ExternalHost(input)));
  }

  /** Main result: a host that no certificate name covers, and a client that names none, gets the default. */
  lemma OthersGetDefaultCert(input: Input, host: string)
    requires Lower(host) == host && forall name | IsCertName(input, name) :: !Covers(name, host)
    ensures Resolve(Compiled(input).certs, Some(host)) == LoadCert(input, "default")
    ensures Resolve(Compiled(input).certs, None) == LoadCert(input, "default")
  {
    var store := Compiled(input).certs;
    CompiledCerts(input, host);
    LongestMatchFinds(store.wildcards, host);
    if host in store.byHost {
      assert IsCertName(input, host) && Covers(host, host);
    }
    if LongestMatch(store.wildcards, host).Some? {
      var w := LongestMatch(store.wildcards, host).value;
      var name := "*" + w.0;
      CompiledCerts(input, name);
      assert Suffix(name) == w.0 && HasSuffix(store.wildcards, Suffix(name));
      assert IsCertName(input, name) && Covers(name, host);
    }
  }

  // ----- Which tables are accepted -----

  /** Every location is a path, and static files have an absolute root. */
  predicate Servable(r: Route) {
    (forall l | l in r.locations :: l.path != "" && l.path[0] == '/')
    && (r.kind.Static? ==> r.kind.root != "" && r.kind.root[0] == '/')
  }

  lemma ServableIffChecked(cfg: Config, r: Route, host: string)
    requires r.ssl ==> Resolve(cfg.certs, Some(host)).Some?
    ensures CheckRoute(cfg, r, host) <==> Servable(r)
  {
  }

  /** Every site whose name is not the console's serves from paths. */
  ghost predicate SitesServable(input: Input) {
    var cs := AllClaims(input, input.sites);
    forall i | 0 <= i < |cs| && (IsWild(cs[i].name) || cs[i].name !in Reserved(input)) :: Servable(cs[i].route)
  }

  /** Main result: what reloading accepts, in terms of the declared sites alone: pairwise distinct
      names, a certificate for the console's own route, paths for locations and roots, and a
      target for a redirecting default. */
  lemma AcceptedIff(input: Input)
    ensures Distinct(AllClaims(input, input.sites)) && Validates(Compiled(input))
            <==> Distinct(AllClaims(input, input.sites)) && !ConsoleUncovered(input) && SitesServable(input)
                 && !(input.defaultMode == "redirect" && Trim(input.redirectUrl) == "")
  {
    if Distinct(AllClaims(input, input.sites)) {
      TlsCompleteIff(input);
      DefaultChecked(input);
      if Validates(Compiled(input)) { ValidImpliesServable(input); }
      if TlsComplete(Compiled(input)) && SitesServable(input) { ServableImpliesChecked(input); }
    }
  }

  lemma DefaultChecked(input: Input)
    ensures (Compiled(input).defaultSite.Redirect? ==> Trim(Compiled(input).defaultSite.url) != "")
            <==> !(input.defaultMode == "redirect" && Trim(input.redirectUrl) == "")
  {
  }

  lemma ValidImpliesServable(input: Input)
    requires Distinct(AllClaims(input, input.sites)) && Validates(Compiled(input))
    ensures TlsComplete(Compiled(input)) && SitesServable(input)
  {
    var cs, cfg := AllClaims(input, input.sites), Compiled(input);
    forall i | 0 <= i < |cs| && (IsWild(cs[i].name) || cs[i].name !in Reserved(input)) ensures Servable(cs[i].route) {
      if IsWild(cs[i].name) {
        WildsValue(cs, i);
        assert (Suffix(cs[i].name), cs[i].route) in cfg.wildcards;
        ServableIffChecked(cfg, cs[i].route, "wildcard-check" + Suffix(cs[i].name));
      } else {
        HostsValue(cs, i);
        assert cfg.hosts[cs[i].name] == cs[i].route;
        ServableIffChecked(cfg, cs[i].route, cs[i].name);
      }
    }
  }

  lemma ServableImpliesChecked(input: Input)
    requires Distinct(AllClaims(input, input.sites)) && TlsComplete(Compiled(input)) && SitesServable(input)
    ensures forall h | h in Compiled(input).hosts :: CheckRoute(Compiled(input), Compiled(input).hosts[h], h)
    ensures forall w | w in Compiled(input).wildcards :: CheckRoute(Compiled(input), w.1, "wildcard-check" + w.0)
  {
    var cs, cfg := AllClaims(input, input.sites), Compiled(input);
    forall h | h in cfg.hosts ensures CheckRoute(cfg, cfg.hosts[h], h) {
      if h !in Reserved(input) {
        var i := HostsSource(cs, h);
        ServableIffChecked(cfg, cs[i].route, h);
      } else {
        ServableIffChecked(cfg, cfg.hosts[h], h);
      }
    }
    forall w | w in cfg.wildcards ensures CheckRoute(cfg, w.1, "wildcard-check" + w.0) {
      var i := WildsSource(cs, w);
      ServableIffChecked(cfg, w.1, "wildcard-check" + w.0);
    }
  }

  predicate Passes(input: Input) {
    Distinct(AllClaims(input, input.sites)) && Validates(Compiled(input))
  }

  /** Main result: after any reloads the live table is that of the last input that passed. */
  lemma {:induction false} LiveIsLastPassed(inputs: seq<Input>, i: nat)
    requires i < |inputs| && Passes(inputs[i]) && forall j | i < j < |inputs| :: !Passes(inputs[j])
    ensures LiveAfterAll(inputs) == Compiled(inputs[i])
  {
    if i < |inputs| - 1 { LiveIsLastPassed(inputs[..|inputs| - 1], i); }
  }

  lemma {:induction false} LiveIsInitial(inputs: seq<Input>)
    requires forall j | 0 <= j < |inputs| :: !Passes(inputs[j])
    ensures LiveAfterAll(inputs) == DefaultConfig()
  {
    if inputs != [] { LiveIsInitial(inputs[..|inputs| - 1]); }
  }

  // ----- Other Host headers -----

  /** A value with several colons and no bracket, and a bracket that never closes, are left as they are. */
  lemma HostKeyOfOther(h: string)
    requires h != "" && NoSpace(h)
    requires if h[0] == '[' then ']' !in h else CountColons(h) >= 2
    ensures HostKey(Some(h)) == Lower(h)
  {
    TrimTight(h);
    if h[0] == '[' { assert forall c | c in h[1..] :: c in h; }
  }
}

/** The edge's route table: compiled from the declared sites, indexed by host,
    checked, and published only when it passes. */
module RouteTable {
  import opened Wrappers
  import opened Text
  import opened Locations

  // ----- The declared model -----

  type Cert = nat

  datatype Site = Site(id: string, serverName: string, kind: string, ssl: bool, forceSsl: bool, certName: string,
                       localRoot: string, root: string, locations: seq<Location>)

  datatype Console = Console(externalAddress: string, httpsMode: string, initialized: bool, dedicated: bool)

  datatype DefaultRoute = NotFound | Welcome | Drop | Redirect(url: string)

  /** `certs` maps the base name of a certificate pair to what it loads to; a pair that is
      missing or does not parse is absent. `isIpv6` is the address parser's verdict. */
  datatype Input = Input(sites: seq<Site>, defaultMode: string, redirectUrl: string, wwwDir: string,
                         certs: map<string, Cert>, console: Console, isIpv6: string -> bool)

  // ----- The compiled table -----

  datatype RouteKind = Proxy | Static(root: string) | Maintenance

  datatype Route = Route(id: string, serverNames: seq<string>, ssl: bool, forceSsl: bool, kind: RouteKind,
                         locations: seq<Location>)

  datatype CertStore = CertStore(byHost: map<string, Cert>, wildcards: seq<(string, Cert)>, default: Option<Cert>)

  datatype Config = Config(hosts: map<string, Route>, wildcards: seq<(string, Route)>, defaultSite: DefaultRoute,
                           consoleFallback: Option<Route>, consoleRoute: Option<Route>, certs: CertStore)

  function DefaultConfig(): Config {
    Config(map[], [], NotFound, None, None, CertStore(map[], [], None))
  }

  // ----- Lookup -----

  /** `suffix` starts with its dot; what stands before it must be one non-empty label. */
  predicate WildcardMatches(host: string, suffix: string) {
    |suffix| < |host| && host[|host| - |suffix|..] == suffix && '.' !in host[..|host| - |suffix|]
  }

  /** The last of the longest matching suffixes. */
  function LongestMatch<T>(ws: seq<(string, T)>, host: string): Option<(string, T)> {
    if ws == [] then None
    else
      var best, w := LongestMatch(ws[..|ws| - 1], host), ws[|ws| - 1];
      if WildcardMatches(host, w.0) && (best.None? || |w.0| >= |best.value.0|) then Some(w) else best
  }

  function RouteFor(cfg: Config, host: string): Option<Route> {
    if host in cfg.hosts then Some(cfg.hosts[host])
    else
      match LongestMatch(cfg.wildcards, host)
      case Some(w) => Some(w.1)
      case None => cfg.consoleFallback
  }

  function Resolve(certs: CertStore, sni: Option<string>): Option<Cert> {
    if sni.None? then certs.default
    else
      var host := Lower(sni.value);
      if host in certs.byHost then Some(certs.byHost[host])
      else
        match LongestMatch(certs.wildcards, host)
        case Some(w) => Some(w.1)
        case None => certs.default
  }

  // ----- What each site declares -----

  function LoadCert(input: Input, base: string): Option<Cert> {
    if base in input.certs then Some(input.certs[base]) else None
  }

  /** The certificate a site serves: none unless it asks for TLS and its pair loads. */
  function SiteCert(input: Input, site: Site): Option<Cert> {
    if !site.ssl then None
    else LoadCert(input, if site.certName == "" then site.id else "cert-" + site.certName)
  }

  function IsProxyKind(kind: string): bool {
    kind == "proxy_host" || kind == "proxy_container"
  }

  /** An absolute second path replaces the first. */
  function JoinPath(dir: string, path: string): string {
    if path != [] && path[0] == '/' then path
    else if dir == [] || dir[|dir| - 1] == '/' then dir + path
    else dir + "/" + path
  }

  function BuildKind(input: Input, site: Site): RouteKind {
    if IsProxyKind(site.kind) then Proxy
    else if site.kind == "static" then
      Static(if site.localRoot == "" then JoinPath(input.wwwDir, site.root) else site.localRoot)
    else Maintenance
  }

  function RouteOf(input: Input, site: Site): Route {
    var ssl := SiteCert(input, site).Some?;
    Route(site.id, Words(site.serverName), ssl, ssl && site.forceSsl, BuildKind(input, site),
          BuildLocations(site.locations, IsProxyKind(site.kind)))
  }

  /** One declared server name, lowercased, with the route and certificate of its site. */
  datatype Claim = Claim(name: string, route: Route, cert: Option<Cert>)

  function ClaimsOf(names: seq<string>, route: Route, cert: Option<Cert>): seq<Claim> {
    if names == [] then []
    else ClaimsOf(names[..|names| - 1], route, cert) + [Claim(Lower(names[|names| - 1]), route, cert)]
  }

  function SiteClaims(input: Input, site: Site): seq<Claim> {
    ClaimsOf(Words(site.serverName), RouteOf(input, site), SiteCert(input, site))
  }

  function AllClaims(input: Input, sites: seq<Site>): seq<Claim> {
    if sites == [] then []
    else AllClaims(input, sites[..|sites| - 1]) + SiteClaims(input, sites[|sites| - 1])
  }

  predicate Distinct(cs: seq<Claim>) {
    forall i, j | 0 <= i < j < |cs| :: cs[i].name != cs[j].name
  }

  // ----- The indexes that the claims stand for -----

  predicate IsWild(name: string) {
    "*." <= name
  }

  /** The stored suffix of a `*.` name keeps the dot. */
  function Suffix(name: string): string
    requires IsWild(name)
  {
    name[1..]
  }

  function Hosts(cs: seq<Claim>): map<string, Route> {
    if cs == [] then map[]
    else
      var before, c := Hosts(cs[..|cs| - 1]), cs[|cs| - 1];
      if IsWild(c.name) then before else before[c.name := c.route]
  }

  function Wilds(cs: seq<Claim>): seq<(string, Route)> {
    if cs == [] then []
    else
      var before, c := Wilds(cs[..|cs| - 1]), cs[|cs| - 1];
      if IsWild(c.name) then before + [(Suffix(c.name), c.route)] else before
  }

  function IndexCert(store: CertStore, name: string, cert: Cert): CertStore {
    var key := Lower(name);
    if IsWild(key) then store.(wildcards := store.wildcards + [(Suffix(key), cert)])
    else store.(byHost := store.byHost[key := cert])
  }

  function Certs(cs: seq<Claim>, default: Option<Cert>): CertStore {
    if cs == [] then CertStore(map[], [], default)
    else
      var before, c := Certs(cs[..|cs| - 1], default), cs[|cs| - 1];
      if c.cert.Some? then IndexCert(before, c.name, c.cert.value) else before
  }

  function SitesConfig(input: Input, cs: seq<Claim>): Config {
    Config(Hosts(cs), Wilds(cs), BuildDefault(input), None, None, Certs(cs, LoadCert(input, "default")))
  }

  function BuildDefault(input: Input): DefaultRoute {
    match input.defaultMode
    case "welcome" => Welcome
    case "444" => Drop
    case "redirect" => Redirect(input.redirectUrl)
    case _ => NotFound
  }

  // ----- The console route -----

  function ConsoleRoute(ssl: bool, forceSsl: bool, names: seq<string>): Route {
    Route("__console__", names, ssl, forceSsl, Proxy, [])
  }

  function Bracketed(input: Input, host: string): string {
    if !("[" <= host) && input.isIpv6(host) then "[" + host + "]" else host
  }

  function ExternalHost(input: Input): string {
    Bracketed(input, Lower(Trim(input.console.externalAddress)))
  }

  function TrimBrackets(s: string): string {
    if s != [] && s[0] == '[' then TrimBrackets(s[1..])
    else if s != [] && s[|s| - 1] == ']' then TrimBrackets(s[..|s| - 1])
    else s
  }

  predicate HasExternalHost(input: Input) {
    ExternalHost(input) !in {"", "localhost", "127.0.0.1"}
  }

  function ConsoleCert(input: Input): Option<Cert> {
    if HasExternalHost(input) && input.console.httpsMode != "none" then LoadCert(input, "cert-console") else None
  }

  /** Host keys that the console takes over. */
  function Reserved(input: Input): set<string> {
    {"localhost", "127.0.0.1"}
      + (if HasExternalHost(input) && !input.console.dedicated then {ExternalHost(input)} else {})
  }

  function WithConsole(cfg: Config, input: Input): Config {
    var loopback := ConsoleRoute(false, false, ["localhost", "127.0.0.1"]);
    var ext, cert := ExternalHost(input), ConsoleCert(input);
    var hosts := cfg.hosts["localhost" := loopback]["127.0.0.1" := loopback];
    var named := ConsoleRoute(cert.Some?, cert.Some? && input.console.initialized, [ext]);
    cfg.(hosts := if HasExternalHost(input) && !input.console.dedicated then hosts[ext := named] else hosts,
         consoleRoute := Some(loopback),
         consoleFallback := if input.console.initialized then None else Some(loopback),
         certs := if cert.Some? then IndexCert(cfg.certs, TrimBrackets(ext), cert.value) else cfg.certs)
  }

  /** The table a valid input stands for. */
  function Compiled(input: Input): Config {
    WithConsole(SitesConfig(input, AllClaims(input, input.sites)), input)
  }

  // ----- What the indexes hold -----

  ghost predicate Claimed(cs: seq<Claim>, name: string) {
    exists i | 0 <= i < |cs| :: cs[i].name == name
  }

  ghost predicate HasSuffix<T>(ws: seq<(string, T)>, suffix: string) {
    exists i | 0 <= i < |ws| :: ws[i].0 == suffix
  }

  lemma ClaimedSnoc(cs: seq<Claim>, c: Claim, name: string)
    ensures Claimed(cs + [c], name) <==> Claimed(cs, name) || c.name == name
  {
    assert (cs + [c])[|cs|] == c;
    if i :| 0 <= i < |cs| && cs[i].name == name { assert (cs + [c])[i].name == name; }
  }

  lemma HasSuffixSnoc<T>(ws: seq<(string, T)>, w: (string, T), suffix: string)
    ensures HasSuffix(ws + [w], suffix) <==> HasSuffix(ws, suffix) || w.0 == suffix
  {
    assert (ws + [w])[|ws|] == w;
    if i :| 0 <= i < |ws| && ws[i].0 == suffix { assert (ws + [w])[i].0 == suffix; }
  }

  lemma {:induction false} HostsKey(cs: seq<Claim>, name: string)
    ensures name in Hosts(cs) <==> !IsWild(name) && Claimed(cs, name)
  {
    if cs != [] {
      var before, c := cs[..|cs| - 1], cs[|cs| - 1];
      HostsKey(before, name);
      ClaimedSnoc(before, c, name);
      assert cs == before + [c];
    }
  }

  lemma {:induction false} WildsKey(cs: seq<Claim>, name: string)
    requires IsWild(name)
    ensures HasSuffix(Wilds(cs), Suffix(name)) <==> Claimed(cs, name)
  {
    if cs != [] {
      var before, c := cs[..|cs| - 1], cs[|cs| - 1];
      WildsKey(before, name);
      ClaimedSnoc(before, c, name);
      assert cs == before + [c];
      if IsWild(c.name) {
        HasSuffixSnoc(Wilds(before), (Suffix(c.name), c.route), Suffix(name));
        SuffixInjective(c.name, name);
      } else {
        assert Wilds(cs) == Wilds(before);
      }
    }
  }

  lemma SuffixInjective(a: string, b: string)
    requires IsWild(a) && IsWild(b)
    ensures Suffix(a) == Suffix(b) <==> a == b
  {
    assert a == "*" + a[1..] && b == "*" + b[1..];
  }

  lemma {:induction false} HostsValue(cs: seq<Claim>, i: nat)
    requires Distinct(cs) && i < |cs| && !IsWild(cs[i].name)
    ensures cs[i].name in Hosts(cs) && Hosts(cs)[cs[i].name] == cs[i].route
  {
    if i < |cs| - 1 { HostsValue(cs[..|cs| - 1], i); }
  }

  lemma {:induction false} WildsValue(cs: seq<Claim>, i: nat)
    requires i < |cs| && IsWild(cs[i].name)
    ensures (Suffix(cs[i].name), cs[i].route) in Wilds(cs)
  {
    if i < |cs| - 1 { WildsValue(cs[..|cs| - 1], i); }
  }

  /** Every stored suffix and host comes from a claim. */
  lemma {:induction false} WildsSource(cs: seq<Claim>, w: (string, Route)) returns (i: nat)
    requires w in Wilds(cs)
    ensures i < |cs| && IsWild(cs[i].name) && w == (Suffix(cs[i].name), cs[i].route)
  {
    var before, c := cs[..|cs| - 1], cs[|cs| - 1];
    if IsWild(c.name) && w == (Suffix(c.name), c.route) {
      i := |cs| - 1;
    } else {
      i := WildsSource(before, w);
    }
  }

  lemma {:induction false} HostsSource(cs: seq<Claim>, name: string) returns (i: nat)
    requires name in Hosts(cs)
    ensures i < |cs| && cs[i].name == name && !IsWild(name) && Hosts(cs)[name] == cs[i].route
  {
    var before, c := cs[..|cs| - 1], cs[|cs| - 1];
    if c.name == name && !IsWild(name) {
      i := |cs| - 1;
    } else {
      i := HostsSource(before, name);
    }
  }

  // ----- The builder -----

  lemma {:induction false} ClaimsShape(names: seq<string>, route: Route, cert: Option<Cert>)
    ensures |ClaimsOf(names, route, cert)| == |names|
    ensures forall i | 0 <= i < |names| :: ClaimsOf(names, route, cert)[i] == Claim(Lower(names[i]), route, cert)
  {
    if names != [] { ClaimsShape(names[..|names| - 1], route, cert); }
  }

  lemma ClaimsStep(cs: seq<Claim>, names: seq<string>, n: nat, route: Route, cert: Option<Cert>)
    requires n < |names|
    ensures cs + ClaimsOf(names[..n + 1], route, cert)
         == cs + ClaimsOf(names[..n], route, cert) + [Claim(Lower(names[n]), route, cert)]
  {
    assert names[..n + 1][..n] == names[..n];
  }

  lemma {:induction false} AllClaimsPrefix(input: Input, sites: seq<Site>, k: nat)
    requires k <= |sites|
    ensures AllClaims(input, sites[..k]) <= AllClaims(input, sites)
  {
    if k < |sites| {
      AllClaimsPrefix(input, sites[..|sites| - 1], k);
      assert sites[..|sites| - 1][..k] == sites[..k];
    } else {
      assert sites[..k] == sites;
    }
  }

  lemma DistinctSnoc(cs: seq<Claim>, c: Claim)
    requires Distinct(cs)
    ensures Distinct(cs + [c]) <==> !Claimed(cs, c.name)
  {
    assert (cs + [c])[|cs|] == c;
    if i :| 0 <= i < |cs| && cs[i].name == c.name { assert (cs + [c])[i].name == (cs + [c])[|cs|].name; }
  }

  lemma DuplicateStays(cs: seq<Claim>, all: seq<Claim>)
    requires !Distinct(cs) && cs <= all
    ensures !Distinct(all)
  {
    var i, j :| 0 <= i < j < |cs| && cs[i].name == cs[j].name;
    assert all[i].name == all[j].name;
  }

  method IndexCerts(store0: CertStore, names: seq<string>, route: Route, cert: Option<Cert>, ghost cs: seq<Claim>,
                    ghost default: Option<Cert>) returns (store: CertStore)
    requires store0 == Certs(cs, default)
    ensures store == Certs(cs + ClaimsOf(names, route, cert), default)
  {
    store := store0;
    assert cs + ClaimsOf(names[..0], route, cert) == cs;
    for n := 0 to |names|
      invariant store == Certs(cs + ClaimsOf(names[..n], route, cert), default)
    {
      ClaimsStep(cs, names, n, route, cert);
      CertsSnoc(cs + ClaimsOf(names[..n], route, cert), names[n], route, cert, default);
      if cert.Some? { store := IndexCert(store, names[n], cert.value); }
    }
    assert names[..|names|] == names;
  }

  lemma CertsSnoc(done: seq<Claim>, name: string, route: Route, cert: Option<Cert>, default: Option<Cert>)
    ensures Certs(done + [Claim(Lower(name), route, cert)], default)
         == if cert.Some? then IndexCert(Certs(done, default), name, cert.value) else Certs(done, default)
  {
    assert (done + [Claim(Lower(name), route, cert)])[..|done|] == done;
    LowerLower(name);
  }

  /** Index a route under one lowercased name, unless the name is taken. */
  method IndexName(hosts: map<string, Route>, wildcards: seq<(string, Route)>, key: string, route: Route,
                   ghost cert: Option<Cert>, ghost done: seq<Claim>)
    returns (r: Option<(map<string, Route>, seq<(string, Route)>)>)
    requires hosts == Hosts(done) && wildcards == Wilds(done)
    ensures r.Some? <==> !Claimed(done, key)
    ensures r.Some? ==> r.value == (Hosts(done + [Claim(key, route, cert)]), Wilds(done + [Claim(key, route, cert)]))
  {
    ghost var next := done + [Claim(key, route, cert)];
    assert next[..|done|] == done;
    HostsKey(done, key);
    if IsWild(key) {
      var suffix := "." + key[2..];
      assert suffix == Suffix(key);
      WildsKey(done, key);
      if exists i | 0 <= i < |wildcards| :: wildcards[i].0 == suffix { return None; }
      assert !HasSuffix(wildcards, suffix);
      r := Some((hosts, wildcards + [(suffix, route)]));
    } else {
      if key in hosts { return None; }
      r := Some((hosts[key := route], wildcards));
    }
  }

  /** Index one site's route under each of its names, refusing a name already taken. */
  method IndexHosts(hosts0: map<string, Route>, wildcards0: seq<(string, Route)>, names: seq<string>, route: Route,
                    ghost cert: Option<Cert>, ghost cs: seq<Claim>)
    returns (r: Result<(map<string, Route>, seq<(string, Route)>), string>)
    requires Distinct(cs) && hosts0 == Hosts(cs) && wildcards0 == Wilds(cs)
    ensures r.Ok? <==> Distinct(cs + ClaimsOf(names, route, cert))
    ensures r.Ok? ==> r.value == (Hosts(cs + ClaimsOf(names, route, cert)), Wilds(cs + ClaimsOf(names, route, cert)))
  {
    var hosts, wildcards := hosts0, wildcards0;
    assert cs + ClaimsOf(names[..0], route, cert) == cs;
    for n := 0 to |names|
      invariant Distinct(cs + ClaimsOf(names[..n], route, cert))
      invariant hosts == Hosts(cs + ClaimsOf(names[..n], route, cert))
      invariant wildcards == Wilds(cs + ClaimsOf(names[..n], route, cert))
    {
      var key := Lower(names[n]);
      ghost var done := cs + ClaimsOf(names[..n], route, cert);
      ClaimsStep(cs, names, n, route, cert);
      DistinctSnoc(done, Claim(key, route, cert));
      var step := IndexName(hosts, wildcards, key, route, cert, done);
      if step.None? {
        PrefixOfAll(cs, names, n + 1, route, cert);
        DuplicateStays(done + [Claim(key, route, cert)], cs + ClaimsOf(names, route, cert));
        return Err("conflicting server name");
      }
      hosts, wildcards := step.value.0, step.value.1;
    }
    assert names[..|names|] == names;
    r := Ok((hosts, wildcards));
  }

  lemma PrefixOfAll(cs: seq<Claim>, names: seq<string>, n: nat, route: Route, cert: Option<Cert>)
    requires n <= |names|
    ensures cs + ClaimsOf(names[..n], route, cert) <= cs + ClaimsOf(names, route, cert)
  {
    ClaimsShape(names, route, cert);
    ClaimsShape(names[..n], route, cert);
  }

  /** Main result: building succeeds exactly when the lowercased server names of all sites are
      pairwise distinct, and then yields the table the sites stand for. */
  method BuildRuntime(input: Input) returns (r: Result<Config, string>)
    ensures r.Ok? <==> Distinct(AllClaims(input, input.sites))
    ensures r.Ok? ==> r.value == Compiled(input)
  {
    var cfg := DefaultConfig().(defaultSite := BuildDefault(input),
                                certs := CertStore(map[], [], LoadCert(input, "default")));
    for s := 0 to |input.sites|
      invariant Distinct(AllClaims(input, input.sites[..s]))
      invariant cfg == SitesConfig(input, AllClaims(input, input.sites[..s]))
    {
      var site := input.sites[s];
      var route, cert := RouteOf(input, site), SiteCert(input, site);
      ghost var done := AllClaims(input, input.sites[..s]);
      assert input.sites[..s + 1][..s] == input.sites[..s];
      assert AllClaims(input, input.sites[..s + 1]) == done + ClaimsOf(route.serverNames, route, cert);
      var certs := IndexCerts(cfg.certs, route.serverNames, route, cert, done, LoadCert(input, "default"));
      var indexed := IndexHosts(cfg.hosts, cfg.wildcards, route.serverNames, route, cert, done);
      if indexed.Err? {
        AllClaimsPrefix(input, input.sites, s + 1);
        DuplicateStays(AllClaims(input, input.sites[..s + 1]), AllClaims(input, input.sites));
        return Err(indexed.error);
      }
      cfg := cfg.(hosts := indexed.value.0, wildcards := indexed.value.1, certs := certs);
    }
    assert input.sites[..|input.sites|] == input.sites;
    cfg := InjectConsoleRoute(cfg, input);
    r := Ok(cfg);
  }

  method InjectConsoleRoute(cfg0: Config, input: Input) returns (cfg: Config)
    ensures cfg == WithConsole(cfg0, input)
  {
    cfg := cfg0;
    var loopback := ConsoleRoute(false, false, ["localhost", "127.0.0.1"]);
    cfg := cfg.(hosts := cfg.hosts["localhost" := loopback]);
    cfg := cfg.(hosts := cfg.hosts["127.0.0.1" := loopback]);
    cfg := cfg.(consoleRoute := Some(loopback));
    var ext := Bracketed(input, Lower(Trim(input.console.externalAddress)));
    if ext != "" && ext != "localhost" && ext != "127.0.0.1" {
      var cert := if input.console.httpsMode != "none" then LoadCert(input, "cert-console") else None;
      var enforce := cert.Some? && input.console.initialized;
      if cert.Some? { cfg := cfg.(certs := IndexCert(cfg.certs, TrimBrackets(ext), cert.value)); }
      if !input.console.dedicated {
        cfg := cfg.(hosts := cfg.hosts[ext := ConsoleRoute(cert.Some?, enforce, [ext])]);
      }
    }
    cfg := cfg.(consoleFallback := if input.console.initialized then None else Some(loopback));
  }

  // ----- Lookup finds the site that claims the host -----

  lemma ShorterFails(host: string, a: string, b: string)
    ensures WildcardMatches(host, b) && |a| < |b| && b[0] == '.' ==> !WildcardMatches(host, a)
  {
    if WildcardMatches(host, b) && |a| < |b| && b[0] == '.' {
      assert host[..|host| - |a|][|host| - |b|] == host[|host| - |b|..][0] == '.';
    }
  }

  /** Two dotted suffixes that match one host are equal: a single label leaves no choice. */
  lemma MatchUnique(host: string, a: string, b: string)
    requires WildcardMatches(host, a) && WildcardMatches(host, b)
    requires a != [] && b != [] && a[0] == '.' && b[0] == '.'
    ensures a == b
  {
    ShorterFails(host, a, b);
    ShorterFails(host, b, a);
  }

  lemma {:induction false} LongestMatchFinds<T>(ws: seq<(string, T)>, host: string)
    ensures var r := LongestMatch(ws, host);
            (r.Some? ==> r.value in ws && WildcardMatches(host, r.value.0))
            && (r.None? ==> forall w | w in ws :: !WildcardMatches(host, w.0))
  {
    if ws != [] { LongestMatchFinds(ws[..|ws| - 1], host); }
  }

  /** Suffixes are dotted, and one suffix carries one value. */
  ghost predicate OneRoutePerSuffix<T>(ws: seq<(string, T)>) {
    (forall w | w in ws :: w.0 != [] && w.0[0] == '.') && (forall v, w | v in ws && w in ws && v.0 == w.0 :: v == w)
  }

  lemma MatchIsTheOne<T>(ws: seq<(string, T)>, host: string, w: (string, T))
    requires OneRoutePerSuffix(ws) && w in ws && WildcardMatches(host, w.0)
    ensures LongestMatch(ws, host) == Some(w)
  {
    LongestMatchFinds(ws, host);
    MatchUnique(host, w.0, LongestMatch(ws, host).value.0);
  }

  /** Main result: at most one stored suffix matches a host, so lookup does not depend on the
      order the wildcards are stored in. */
  lemma WildcardOrderIrrelevant<T>(ws: seq<(string, T)>, ws2: seq<(string, T)>, host: string)
    requires OneRoutePerSuffix(ws) && forall w :: w in ws <==> w in ws2
    ensures LongestMatch(ws, host) == LongestMatch(ws2, host)
    ensures forall v, w | v in ws && w in ws && WildcardMatches(host, v.0) && WildcardMatches(host, w.0) :: v == w
  {
    LongestMatchFinds(ws, host);
    LongestMatchFinds(ws2, host);
    forall v, w | v in ws && w in ws && WildcardMatches(host, v.0) && WildcardMatches(host, w.0) ensures v == w {
      MatchUnique(host, v.0, w.0);
    }
  }

  lemma WildsOnePerSuffix(cs: seq<Claim>)
    requires Distinct(cs)
    ensures OneRoutePerSuffix(Wilds(cs))
  {
    forall w | w in Wilds(cs) ensures w.0 != [] && w.0[0] == '.' {
      var i := WildsSource(cs, w);
    }
    forall v, w | v in Wilds(cs) && w in Wilds(cs) && v.0 == w.0 ensures v == w {
      var i := WildsSource(cs, v);
      var j := WildsSource(cs, w);
      SuffixInjective(cs[i].name, cs[j].name);
    }
  }

  /** Main result: every exact name that the console does not reserve looks up its own site. */
  lemma ExactNameFindsSite(input: Input, i: nat)
    requires var cs := AllClaims(input, input.sites);
             Distinct(cs) && i < |cs| && !IsWild(cs[i].name) && cs[i].name !in Reserved(input)
    ensures var c := AllClaims(input, input.sites)[i];
            RouteFor(Compiled(input), c.name) == Some(c.route)
  {
    HostsValue(AllClaims(input, input.sites), i);
  }

  /** Main result: every single-label host under a `*.` name, with no exact entry of its own,
      looks up the site of that name. */
  lemma WildcardHostFindsSite(input: Input, i: nat, host: string)
    requires var cs := AllClaims(input, input.sites);
             Distinct(cs) && i < |cs| && IsWild(cs[i].name) && WildcardMatches(host, Suffix(cs[i].name))
             && !Claimed(cs, host) && host !in Reserved(input)
    ensures RouteFor(Compiled(input), host) == Some(AllClaims(input, input.sites)[i].route)
  {
    var cs := AllClaims(input, input.sites);
    HostsKey(cs, host);
    WildsValue(cs, i);
    WildsOnePerSuffix(cs);
    MatchIsTheOne(Wilds(cs), host, (Suffix(cs[i].name), cs[i].route));
  }

  /** Main result: any other host gets the console while the panel is not set up, and nothing after. */
  lemma OtherHostsFallThrough(input: Input, host: string)
    requires var cs := AllClaims(input, input.sites);
             Distinct(cs) && !Claimed(cs, host) && host !in Reserved(input)
             && forall i | 0 <= i < |cs| && IsWild(cs[i].name) :: !WildcardMatches(host, Suffix(cs[i].name))
    ensures RouteFor(Compiled(input), host)
         == if input.console.initialized then None else Some(ConsoleRoute(false, false, ["localhost", "127.0.0.1"]))
  {
    var cs := AllClaims(input, input.sites);
    HostsKey(cs, host);
    LongestMatchFinds(Wilds(cs), host);
    if LongestMatch(Wilds(cs), host).Some? {
      var i := WildsSource(cs, LongestMatch(Wilds(cs), host).value);
      assert false;
    }
  }

  /** The console wins over any site on the host keys it reserves: in plain on the loopback names,
      under TLS at its external address exactly if its certificate loads, and with the redirect
      exactly once it is initialised as well. */
  lemma ReservedReachConsole(input: Input, host: string)
    requires host in Reserved(input)
    ensures var route := RouteFor(Compiled(input), host);
            route.Some? && route.value.id == "__console__"
            && (route.value.ssl <==> host == ExternalHost(input) && ConsoleCert(input).Some?)
            && (route.value.forceSsl <==> route.value.ssl && input.console.initialized)
  {
  }

  // ----- Certificates -----

  /** The names a certificate is indexed under: the console's first of all. */
  ghost predicate Covers(name: string, host: string) {
    if IsWild(name) then WildcardMatches(host, Suffix(name)) else name == host
  }

  /** A store grows: what resolved by a name still does. */
  ghost predicate Indexed(store: CertStore, name: string) {
    if IsWild(name) then HasSuffix(store.wildcards, Suffix(name)) else name in store.byHost
  }

  lemma IndexCertIndexes(store: CertStore, name: string, cert: Cert, other: string)
    ensures Indexed(IndexCert(store, name, cert), other) <==> Indexed(store, other) || other == Lower(name)
  {
    var key := Lower(name);
    if IsWild(key) {
      if IsWild(other) {
        HasSuffixSnoc(store.wildcards, (Suffix(key), cert), Suffix(other));
        SuffixInjective(key, other);
      }
    }
  }

  lemma {:induction false} CertsIndexed(cs: seq<Claim>, default: Option<Cert>, name: string)
    requires forall i | 0 <= i < |cs| :: Lower(cs[i].name) == cs[i].name
    ensures Indexed(Certs(cs, default), name) <==> exists i | 0 <= i < |cs| :: cs[i].cert.Some? && cs[i].name == name
    ensures Certs(cs, default).default == default
  {
    if cs != [] {
      var before, c := cs[..|cs| - 1], cs[|cs| - 1];
      CertsIndexed(before, default, name);
      if c.cert.Some? { IndexCertIndexes(Certs(before, default), c.name, c.cert.value, name); }
      assert forall i | 0 <= i < |before| :: cs[i] == before[i];
    }
  }

  ghost predicate WellIndexed(store: CertStore) {
    (forall w | w in store.wildcards :: w.0 != [] && w.0[0] == '.') && (forall k | k in store.byHost :: !IsWild(k))
  }

  lemma {:induction false} CertsWellIndexed(cs: seq<Claim>, default: Option<Cert>)
    ensures WellIndexed(Certs(cs, default))
  {
    if cs != [] { CertsWellIndexed(cs[..|cs| - 1], default); }
  }

  /** A lowercase host resolves exactly when some indexed name covers it, or by default. */
  lemma ResolveIffCovered(store: CertStore, host: string)
    requires Lower(host) == host && WellIndexed(store)
    ensures Resolve(store, Some(host)).Some?
            <==> store.default.Some? || exists name :: Indexed(store, name) && Covers(name, host)
  {
    LongestMatchFinds(store.wildcards, host);
    var r := LongestMatch(store.wildcards, host);
    if host in store.byHost { assert Indexed(store, host) && Covers(host, host); }
    if r.Some? {
      var name := "*" + r.value.0;
      assert Suffix(name) == r.value.0 && HasSuffix(store.wildcards, Suffix(name));
      assert Indexed(store, name) && Covers(name, host);
    }
    if name :| Indexed(store, name) && Covers(name, host) {
      if IsWild(name) { var i :| 0 <= i < |store.wildcards| && store.wildcards[i].0 == Suffix(name); }
    }
  }

  /** A name that some loaded certificate is indexed under. */
  ghost predicate IsCertName(input: Input, name: string) {
    var cs := AllClaims(input, input.sites);
    (exists i | 0 <= i < |cs| :: cs[i].cert.Some? && cs[i].name == name)
    || (ConsoleCert(input).Some? && name == Lower(TrimBrackets(ExternalHost(input))))
  }

  lemma {:induction false} NamesAreLower(input: Input, sites: seq<Site>)
    ensures forall i | 0 <= i < |AllClaims(input, sites)| ::
              Lower(AllClaims(input, sites)[i].name) == AllClaims(input, sites)[i].name
              && (AllClaims(input, sites)[i].route.ssl <==> AllClaims(input, sites)[i].cert.Some?)
  {
    if sites != [] {
      var before, site := AllClaims(input, sites[..|sites| - 1]), sites[|sites| - 1];
      NamesAreLower(input, sites[..|sites| - 1]);
      var names := Words(site.serverName);
      ClaimsShape(names, RouteOf(input, site), SiteCert(input, site));
      forall i | 0 <= i < |AllClaims(input, sites)|
        ensures Lower(AllClaims(input, sites)[i].name) == AllClaims(input, sites)[i].name
        ensures AllClaims(input, sites)[i].route.ssl <==> AllClaims(input, sites)[i].cert.Some?
      {
        if i < |before| {
          assert AllClaims(input, sites)[i] == before[i];
        } else {
          assert AllClaims(input, sites)[i] == SiteClaims(input, site)[i - |before|];
          LowerLower(names[i - |before|]);
        }
      }
    }
  }

  lemma CompiledCerts(input: Input, name: string)
    ensures Indexed(Compiled(input).certs, name) <==> IsCertName(input, name)
    ensures WellIndexed(Compiled(input).certs) && Compiled(input).certs.default == LoadCert(input, "default")
  {
    var cs := AllClaims(input, input.sites);
    var default := LoadCert(input, "default");
    NamesAreLower(input, input.sites);
    CertsIndexed(cs, default, name);
    CertsWellIndexed(cs, default);
    if ConsoleCert(input).Some? {
      IndexCertIndexes(Certs(cs, default), TrimBrackets(ExternalHost(input)), ConsoleCert(input).value, name);
    }
  }

  lemma ExternalHostLower(input: Input)
    ensures Lower(ExternalHost(input)) == ExternalHost(input)
  {
    LowerLower(Trim(input.console.externalAddress));
  }

  // ----- Validation -----

  predicate CheckRoute(cfg: Config, route: Route, certHost: string) {
    && (route.ssl ==> Resolve(cfg.certs, Some(certHost)).Some?)
    && (forall l | l in route.locations :: "/" <= l.path)
    && (route.kind.Static? ==> "/" <= route.kind.root)
  }

  /** The check before publishing succeeds. */
  predicate Validates(cfg: Config) {
    && (forall h | h in cfg.hosts :: CheckRoute(cfg, cfg.hosts[h], h))
    && (forall w | w in cfg.wildcards :: CheckRoute(cfg, w.1, "wildcard-check" + w.0))
    && (cfg.defaultSite.Redirect? ==> Trim(cfg.defaultSite.url) != "")
  }

  /** Every TLS route resolves a certificate under the host that validation tests. */
  ghost predicate TlsComplete(cfg: Config) {
    && (forall h | h in cfg.hosts && cfg.hosts[h].ssl :: Resolve(cfg.certs, Some(h)).Some?)
    && (forall w | w in cfg.wildcards && w.1.ssl :: Resolve(cfg.certs, Some("wildcard-check" + w.0)).Some?)
  }

  /** The console is given a TLS route whose key no certificate name covers, and there is no default. */
  ghost predicate ConsoleUncovered(input: Input) {
    && ConsoleCert(input).Some? && !input.console.dedicated && LoadCert(input, "default").None?
    && !exists name :: IsCertName(input, name) && Covers(name, ExternalHost(input))
  }

  lemma SiteHostResolves(input: Input, h: string)
    requires Distinct(AllClaims(input, input.sites))
    requires h in Hosts(AllClaims(input, input.sites)) && Hosts(AllClaims(input, input.sites))[h].ssl
    ensures Resolve(Compiled(input).certs, Some(h)).Some?
  {
    var cs := AllClaims(input, input.sites);
    var i := HostsSource(cs, h);
    NamesAreLower(input, input.sites);
    CompiledCerts(input, h);
    assert cs[i].cert.Some?;
    assert IsCertName(input, h) && Covers(h, h);
    ResolveIffCovered(Compiled(input).certs, h);
  }

  lemma SiteWildcardResolves(input: Input, w: (string, Route))
    requires Distinct(AllClaims(input, input.sites)) && w in Wilds(AllClaims(input, input.sites)) && w.1.ssl
    ensures Resolve(Compiled(input).certs, Some("wildcard-check" + w.0)).Some?
  {
    var cs := AllClaims(input, input.sites);
    var i := WildsSource(cs, w);
    var name, host := cs[i].name, "wildcard-check" + w.0;
    NamesAreLower(input, input.sites);
    CompiledCerts(input, name);
    assert cs[i].cert.Some?;
    assert IsCertName(input, name);
    CheckHostCovered(name);
    ResolveIffCovered(Compiled(input).certs, host);
  }

  /** The host that stands in for a wildcard in validation is one it covers. */
  lemma CheckHostCovered(name: string)
    requires Lower(name) == name && IsWild(name)
    ensures var host := "wildcard-check" + Suffix(name);
            Covers(name, host) && Lower(host) == host
  {
    var probe, suffix := "wildcard-check", Suffix(name);
    var host := probe + suffix;
    LowerSuffix(name);
    LowerConcat(probe, suffix);
    assert Lower(probe) == probe;
    assert host[|host| - |suffix|..] == suffix && host[..|host| - |suffix|] == probe;
  }

  lemma LowerSuffix(name: string)
    requires Lower(name) == name && IsWild(name)
    ensures Lower(Suffix(name)) == Suffix(name)
  {
    forall i | 0 <= i < |Suffix(name)| ensures LowerChar(Suffix(name)[i]) == Suffix(name)[i] {
      assert Lower(name)[i + 1] == name[i + 1];
    }
  }

  lemma ConsoleResolvesIff(input: Input)
    requires ConsoleCert(input).Some?
    ensures Resolve(Compiled(input).certs, Some(ExternalHost(input))).Some?
            <==> LoadCert(input, "default").Some?
                 || exists name :: IsCertName(input, name) && Covers(name, ExternalHost(input))
  {
    var store, ext := Compiled(input).certs, ExternalHost(input);
    ExternalHostLower(input);
    CompiledCerts(input, ext);
    ResolveIffCovered(store, ext);
    forall name ensures Indexed(store, name) <==> IsCertName(input, name) { CompiledCerts(input, name); }
  }

  /** Main result: every TLS route the builder emits resolves a certificate under the host that
      validation tests, exactly unless the console's own key is uncovered. */
  lemma TlsCompleteIff(input: Input)
    requires Distinct(AllClaims(input, input.sites))
    ensures TlsComplete(Compiled(input)) <==> !ConsoleUncovered(input)
    ensures ConsoleUncovered(input) ==> TrimBrackets(ExternalHost(input)) != ExternalHost(input)
  {
    UncoveredIsBracketed(input);
    var cfg, cs := Compiled(input), AllClaims(input, input.sites);
    var ext := ExternalHost(input);
    forall h | h in cfg.hosts && cfg.hosts[h].ssl && h !in Reserved(input) ensures Resolve(cfg.certs, Some(h)).Some? {
      SiteHostResolves(input, h);
    }
    forall w | w in cfg.wildcards && w.1.ssl ensures Resolve(cfg.certs, Some("wildcard-check" + w.0)).Some? {
      SiteWildcardResolves(input, w);
    }
    if ConsoleCert(input).Some? && !input.console.dedicated {
      assert ext in cfg.hosts && cfg.hosts[ext].ssl;
      ConsoleResolvesIff(input);
    }
  }

  /** An address without brackets is covered by its own certificate. */
  lemma UncoveredIsBracketed(input: Input)
    ensures ConsoleUncovered(input) ==> TrimBrackets(ExternalHost(input)) != ExternalHost(input)
  {
    var ext := ExternalHost(input);
    ExternalHostLower(input);
    if ConsoleCert(input).Some? && TrimBrackets(ext) == ext {
      assert IsCertName(input, ext);
      if IsWild(ext) {
        assert ext[|ext| - |Suffix(ext)|..] == Suffix(ext) && ext[..|ext| - |Suffix(ext)|] == "*";
      }
      assert Covers(ext, ext);
    }
  }

  /** In particular it always holds when the console's address has no brackets around it. */
  lemma PlainConsoleCovered(input: Input)
    requires Distinct(AllClaims(input, input.sites)) && TrimBrackets(ExternalHost(input)) == ExternalHost(input)
    ensures TlsComplete(Compiled(input))
  {
    TlsCompleteIff(input);
  }

  /** It fails for a console at an IPv6 literal with its own certificate and no default: the route
      key is bracketed, the certificate key is not, and the whole reload is refused. */
  lemma Ipv6ConsoleRefused(isIpv6: string -> bool)
    requires isIpv6("2001:db8::1")
    ensures var input := Input([], "404", "", "/www", map["cert-console" := 1],
                               Console("2001:db8::1", "selfsigned", true, false), isIpv6);
            Distinct(AllClaims(input, input.sites)) && !Validates(Compiled(input))
  {
    var addr := "2001:db8::1";
    var input := Input([], "404", "", "/www", map["cert-console" := 1],
                       Console(addr, "selfsigned", true, false), isIpv6);
    TrimTight(addr);
    assert Lower(addr) == addr;
    var ext := "[" + addr + "]";
    assert ExternalHost(input) == ext;
    assert TrimBrackets(ext) == addr by {
      assert ext[1..] == addr + "]" && (addr + "]")[..|addr|] == addr;
      assert TrimBrackets(ext) == TrimBrackets(addr + "]") == TrimBrackets(addr) == addr;
    }
    forall name | IsCertName(input, name) ensures !Covers(name, ext) {
      assert name == addr;
    }
    assert ConsoleUncovered(input);
    TlsCompleteIff(input);
    assert !TlsComplete(Compiled(input));
  }

  // ----- Reloading -----

  class Edge {
    var live: Config

    constructor ()
      ensures live == DefaultConfig()
    {
      live := DefaultConfig();
    }

    /** Build, check, publish: the live table changes only to one that passed. */
    method Reload(input: Input) returns (r: Result<(), string>)
      modifies this
      ensures r.Ok? <==> Distinct(AllClaims(input, input.sites)) && Validates(Compiled(input))
      ensures live == LiveAfter(old(live), input)
    {
      var built := BuildRuntime(input);
      if built.Err? { return Err(built.error); }
      if !Validates(built.value) { return Err("invalid configuration"); }
      live := built.value;
      r := Ok(());
    }
  }

  function LiveAfter(live: Config, input: Input): Config {
    if Distinct(AllClaims(input, input.sites)) && Validates(Compiled(input)) then Compiled(input) else live
  }

  function LiveAfterAll(inputs: seq<Input>): Config {
    if inputs == [] then DefaultConfig() else LiveAfter(LiveAfterAll(inputs[..|inputs| - 1]), inputs[|inputs| - 1])
  }

  /** Main result: after any reloads the live table is the initial one or the compiled table of the
      last input that passed, and then every TLS route in it has a certificate. */
  lemma {:induction false} LiveIsValidated(inputs: seq<Input>)
    ensures LiveAfterAll(inputs) == DefaultConfig()
            || exists i | 0 <= i < |inputs| ::
                 LiveAfterAll(inputs) == Compiled(inputs[i]) && Validates(Compiled(inputs[i]))
                 && TlsComplete(Compiled(inputs[i]))
  {
    if inputs != [] {
      var before, last := inputs[..|inputs| - 1], inputs[|inputs| - 1];
      LiveIsValidated(before);
      if LiveAfterAll(inputs) == LiveAfterAll(before) && LiveAfterAll(before) != DefaultConfig() {
        var i :| 0 <= i < |before| && LiveAfterAll(before) == Compiled(before[i]) && Validates(Compiled(before[i]))
                 && TlsComplete(Compiled(before[i]));
        assert before[i] == inputs[i];
      } else if LiveAfterAll(inputs) != LiveAfterAll(before) {
        assert LiveAfterAll(inputs) == Compiled(last) && TlsComplete(Compiled(last));
      }
    }
  }

  // ----- From the Host header to the site -----

  function CountColons(s: string): nat {
    if s == [] then 0 else (if s[0] == ':' then 1 else 0) + CountColons(s[1..])
  }

  /** The text up to the first `c`, all of it without one. */
  function Before(s: string, c: char): string {
    if s == [] || s[0] == c then [] else [s[0]] + Before(s[1..], c)
  }

  function HostKey(header: Option<string>): string {
    var h := Trim(if header.Some? then header.value else "");
    Lower(if "[" <= h then
            (if ']' in h[1..] then "[" + Before(h[1..], ']') + "]" else h)
          else if CountColons(h) == 1 then Before(h, ':')
          else h)
  }

  lemma {:induction false} BeforeConcat(a: string, b: string, c: char)
    requires c !in a
    ensures Before(a + [c] + b, c) == a
  {
    if a == [] {
      assert ([] + [c] + b)[0] == c;
    } else {
      assert (a + [c] + b)[1..] == a[1..] + [c] + b;
      BeforeConcat(a[1..], b, c);
    }
  }

  lemma {:induction false} ColonsConcat(a: string, b: string)
    ensures CountColons(a + b) == CountColons(a) + CountColons(b)
    ensures ':' !in a ==> CountColons(a) == 0
  {
    if a == [] {
      assert a + b == b;
    } else {
      assert (a + b)[1..] == a[1..] + b;
      ColonsConcat(a[1..], b);
    }
  }

  lemma {:induction false} NoColonsCountNone(s: string)
    requires ':' !in s
    ensures CountColons(s) == 0
  {
    if s != [] { NoColonsCountNone(s[1..]); }
  }

  /** A host name sent in any case, with or without a port, has its lowercase form as key. */
  lemma HostKeyOfName(name: string, port: string)
    requires name != [] && NoSpace(name) && NoSpace(port) && ':' !in name && ':' !in port && name[0] != '['
    ensures HostKey(Some(name)) == Lower(name) && HostKey(Some(name + ":" + port)) == Lower(name)
  {
    TrimTight(name);
    TrimTight(name + ":" + port);
    NoColonsCountNone(name);
    NoColonsCountNone(port);
    ColonsConcat(name, ":" + port);
    assert (":" + port)[1..] == port;
    assert name + ":" + port == name + (":" + port);
    BeforeConcat(name, port, ':');
  }

  /** Main result: a request whose Host header spells a declared exact name, in any case and with
      or without a port, reaches the site that declares it. */
  lemma RequestReachesSite(input: Input, i: nat, spelled: string, port: string)
    requires var cs := AllClaims(input, input.sites);
             Distinct(cs) && i < |cs| && !IsWild(cs[i].name) && cs[i].name !in Reserved(input)
             && Lower(spelled) == cs[i].name
    requires spelled != [] && NoSpace(spelled) && NoSpace(port) && ':' !in spelled && ':' !in port && spelled[0] != '['
    ensures var route := AllClaims(input, input.sites)[i].route;
            RouteFor(Compiled(input), HostKey(Some(spelled))) == Some(route)
            && RouteFor(Compiled(input), HostKey(Some(spelled + ":" + port))) == Some(route)
  {
    HostKeyOfName(spelled, port);
    ExactNameFindsSite(input, i);
  }

  /** A bracketed literal keeps its brackets and loses its port, as the console's key expects. */
  lemma HostKeyOfLiteral(addr: string, tail: string)
    requires NoSpace(addr) && NoSpace(tail) && ']' !in addr
    ensures HostKey(Some("[" + (addr + [']'] + tail))) == Lower("[" + addr + "]")
  {
    var rest := addr + [']'] + tail;
    var h := "[" + rest;
    assert rest[|addr|] == ']';
    assert !IsSpace(h[|h| - 1]) by { assert h[|h| - 1] == rest[|rest| - 1]; }
    TrimTight(h);
    assert h[1..] == rest;
    BeforeConcat(addr, tail, ']');
  }
}

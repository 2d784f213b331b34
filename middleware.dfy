/**
 * The response-header policy applied to every page request: whether the
 * request comes from an authorised embedding page (judged by its
 * `Referer`), the `frame-ancestors` source list that follows from it, the
 * Content-Security-Policy text with its white space collapsed, and the
 * headers set on the response.
 */
module EdgeMiddleware {
  import opened Wrappers
  import opened JsString

  /** The portfolio site's origins, first in the list of authorised origins. */
  const PortfolioOrigins: seq<string> := [
    "https://carter-portfolio.fyi",
    "https://www.carter-portfolio.fyi"
  ]

  /** The local development origins that follow them. */
  const LocalOrigins: seq<string> := [
    "http://localhost:4000",
    "http://localhost:8080",
    "http://localhost:3000",
    "https://localhost:4000",
    "https://localhost:8080",
    "https://localhost:3000"
  ]

  /** The origins allowed to embed the application, in the order listed. */
  const AuthorizedDomains: seq<string> := PortfolioOrigins + LocalOrigins

  /** The host name that keeps an origin out of `frame-ancestors`. */
  const Localhost := "localhost"

  /** `prefixes.some(p => s.startsWith(p))`. */
  function SomeStartsWith(s: string, prefixes: seq<string>): (b: bool)
    ensures b <==> exists k :: 0 <= k < |prefixes| && StartsWith(s, prefixes[k])
  {
    if |prefixes| == 0 then false
    else
      assert forall k :: 0 <= k < |prefixes| - 1 ==> prefixes[1..][k] == prefixes[k + 1];
      StartsWith(s, prefixes[0]) || SomeStartsWith(s, prefixes[1..])
  }

  /**
   * The request is an authorised iframe request: a referrer is present and
   * starts with one of the authorised origins. The empty referrer, which
   * JavaScript treats as false, starts with none of them.
   */
  function IsAuthorizedIframe(referrer: Option<string>): (b: bool)
    ensures b <==> referrer.Some? && exists k :: 0 <= k < |AuthorizedDomains| && StartsWith(referrer.value, AuthorizedDomains[k])
  {
    referrer.Some? && referrer.value != "" && SomeStartsWith(referrer.value, AuthorizedDomains)
  }

  /**
   * The match is on a textual prefix, not on the origin: any referrer that
   * begins with an authorised origin is authorised, whatever follows it,
   * including a host such as `https://carter-portfolio.fyi.example.net` or
   * `http://localhost:3000.evil.example`.
   */
  lemma LookalikeHostIsAuthorized(k: nat, rest: string)
    requires k < |AuthorizedDomains|
    ensures IsAuthorizedIframe(Some(AuthorizedDomains[k] + rest))
  {
    var d := AuthorizedDomains[k];
    assert (d + rest)[..|d|] == d;
    assert StartsWith(d + rest, d);
  }

  /** `ds.filter(d => !d.includes('localhost'))`. */
  function NonLocalhost(ds: seq<string>): (r: seq<string>)
    ensures forall d :: d in r <==> d in ds && !Includes(d, Localhost)
    ensures |r| <= |ds|
  {
    if |ds| == 0 then []
    else
      assert ds == [ds[0]] + ds[1..];
      (if Includes(ds[0], Localhost) then [] else [ds[0]]) + NonLocalhost(ds[1..])
  }

  /**
   * The `frame-ancestors` sources: `'self'` alone for a request that is not
   * an authorised iframe request, otherwise `'self'` followed by the
   * authorised origins that are not on localhost, separated by single
   * spaces. No localhost origin can appear in it.
   */
  function FrameAncestors(authorized: bool): (fa: string)
    ensures !authorized ==> fa == "'self'"
    ensures authorized ==> fa == "'self' " + Join(NonLocalhost(AuthorizedDomains), " ")
    ensures !Includes(fa, Localhost)
  {
    if authorized then
      var origins := NonLocalhost(AuthorizedDomains);
      SpaceSeparatedSourcesAvoidLocalhost(origins);
      "'self' " + Join(origins, " ")
    else
      SelfAvoidsLocalhost();
      "'self'"
  }

  lemma SelfAvoidsLocalhost()
    ensures !Includes("'self'", Localhost)
  {
    FirstCharacterAbsent("'self'", Localhost, 0);
  }

  /** `'self'` followed by space-separated origins none of which is on localhost names no localhost origin. */
  lemma SpaceSeparatedSourcesAvoidLocalhost(origins: seq<string>)
    requires forall d :: d in origins ==> !Includes(d, Localhost)
    ensures !Includes("'self' " + Join(origins, " "), Localhost)
  {
    assert forall k :: 0 <= k < |origins| ==> origins[k] in origins;
    JoinWithSpacesAvoids(origins, Localhost);
    SelfAvoidsLocalhost();
    SpaceSeparatedAvoids("'self'", Join(origins, " "), Localhost);
    assert "'self'" + " " + Join(origins, " ") == "'self' " + Join(origins, " ");
  }

  /** Neither portfolio origin names localhost. */
  lemma PortfolioOriginsAvoidLocalhost()
    ensures forall k :: 0 <= k < |PortfolioOrigins| ==> !Includes(PortfolioOrigins[k], Localhost)
  {
    BareOriginAvoidsLocalhost();
    WwwOriginAvoidsLocalhost();
  }

  /** No `l` comes before the last nine characters of the bare portfolio origin. */
  lemma BareOriginAvoidsLocalhost()
    ensures !Includes(PortfolioOrigins[0], Localhost)
  {
    FirstCharacterAbsent(PortfolioOrigins[0], Localhost, 20);
  }

  /** No `l` comes before the last nine characters of the `www` portfolio origin. */
  lemma WwwOriginAvoidsLocalhost()
    ensures !Includes(PortfolioOrigins[1], Localhost)
  {
    FirstCharacterAbsent(PortfolioOrigins[1], Localhost, 24);
  }

  /** Every local development origin names localhost. */
  lemma LocalOriginsIncludeLocalhost()
    ensures forall k :: 0 <= k < |LocalOrigins| ==> Includes(LocalOrigins[k], Localhost)
  {
    MatchingCharactersOccur(LocalOrigins[0], Localhost, 7);
    MatchingCharactersOccur(LocalOrigins[1], Localhost, 7);
    MatchingCharactersOccur(LocalOrigins[2], Localhost, 7);
    MatchingCharactersOccur(LocalOrigins[3], Localhost, 8);
    MatchingCharactersOccur(LocalOrigins[4], Localhost, 8);
    MatchingCharactersOccur(LocalOrigins[5], Localhost, 8);
  }

  /** Filtering keeps exactly the elements that avoid localhost, in order. */
  lemma {:induction false} NonLocalhostOfAvoiding(ds: seq<string>, n: nat)
    requires n <= |ds|
    requires forall k :: 0 <= k < n ==> !Includes(ds[k], Localhost)
    requires forall k :: n <= k < |ds| ==> Includes(ds[k], Localhost)
    ensures NonLocalhost(ds) == ds[..n]
  {
    if |ds| > 0 {
      NonLocalhostOfAvoiding(ds[1..], if n > 0 then n - 1 else 0);
      assert n > 0 ==> ds[..n] == [ds[0]] + ds[1..][..n - 1];
    }
  }

  /** Of the eight authorised origins, exactly the two portfolio origins stay. */
  lemma PublicOrigins()
    ensures NonLocalhost(AuthorizedDomains) == PortfolioOrigins
  {
    var n := |PortfolioOrigins|;
    PortfolioOriginsAvoidLocalhost();
    LocalOriginsIncludeLocalhost();
    assert forall k :: 0 <= k < n ==> AuthorizedDomains[k] == PortfolioOrigins[k];
    assert forall k :: n <= k < |AuthorizedDomains| ==> AuthorizedDomains[k] == LocalOrigins[k - n];
    NonLocalhostOfAvoiding(AuthorizedDomains, n);
    assert AuthorizedDomains[..n] == PortfolioOrigins;
  }

  /** For an authorised iframe request the sources are `'self'` and the two public origins. */
  lemma AuthorizedFrameAncestors()
    ensures FrameAncestors(true) == "'self' " + "https://carter-portfolio.fyi" + " " + "https://www.carter-portfolio.fyi"
  {
    PublicOrigins();
    JoinOfTwo("https://carter-portfolio.fyi", "https://www.carter-portfolio.fyi");
  }

  lemma JoinOfTwo(a: string, b: string)
    ensures "'self' " + Join([a, b], " ") == "'self' " + a + " " + b
  {
    assert [a, b][1..] == [b];
  }

  /** The directives of the Content-Security-Policy template before `frame-ancestors`. */
  const CspHead: string :=
    "\n      default-src 'self';"
    + "\n      script-src 'self' 'unsafe-inline' 'unsafe-eval';"
    + "\n      style-src 'self' 'unsafe-inline';"
    + "\n      img-src 'self' data: blob: https:;"
    + "\n      font-src 'self' data: https:;"
    + "\n      connect-src 'self' ws: wss: https:;"

  /** The directives of the template after `frame-ancestors`, and the closing indentation. */
  const CspTail: string :=
    "\n      base-uri 'self';"
    + "\n      form-action 'self';"
    + "\n    "

  /** The line break and indentation before each directive of the template. */
  const CspIndent: string := "\n      "

  /** The Content-Security-Policy text before normalisation, as laid out in the source. */
  function CspTemplate(frameAncestors: string): string
  {
    CspHead + CspIndent + "frame-ancestors" + " " + frameAncestors + ";" + CspTail
  }

  /**
   * The Content-Security-Policy value: the template with every run of white
   * space replaced by one space and the ends trimmed. It has no white space
   * at either end, no run of two white space characters, and the same
   * characters other than white space as the template, in the same order.
   */
  function ContentSecurityPolicy(frameAncestors: string): (csp: string)
    ensures Normalised(csp)
    ensures NonSpace(csp) == NonSpace(CspTemplate(frameAncestors))
  {
    CollapseThenTrimNormalises(CspTemplate(frameAncestors));
    Trim(CollapseSpaces(CspTemplate(frameAncestors)))
  }

  lemma SplitTemplate(a: string, b: string, k: string, f: string, t: string)
    ensures a + b + k + " " + f + ";" + t == a + b + (k + " " + (f + (";" + t)))
  {
  }

  lemma JoinCollapsed(h: string, k: string, f: string, t: string)
    ensures h + " " + (k + " " + (f + (";" + t))) == h + " " + (k + " " + f + ";") + t
  {
  }

  /** The template's directives before `frame-ancestors` end with `;`. */
  lemma CspHeadEndsDirective()
    ensures !TrailingSpace(CspHead)
  {
    assert CspHead[|CspHead| - 1] == ';';
  }

  /** The indentation before a directive is a run of white space. */
  lemma CspIndentIsWhiteSpace()
    ensures |CspIndent| > 0 && AllSpaces(CspIndent)
  {
  }

  /** The directive name `frame-ancestors` holds no white space. */
  lemma DirectiveNameNormalised()
    ensures Normalised("frame-ancestors")
  {
    NoWhiteSpaceIsNormalised("frame-ancestors");
  }

  /**
   * Collapsing the template keeps `frame-ancestors`, one space, the sources
   * unchanged and `;` together, when the sources are normalised.
   */
  lemma CollapsedTemplate(fa: string)
    requires Normalised(fa)
    ensures CollapseSpaces(CspTemplate(fa))
            == CollapseSpaces(CspHead) + " " + ("frame-ancestors" + " " + fa + ";") + CollapseSpaces(CspTail)
  {
    var kw := "frame-ancestors";
    var rest := fa + (";" + CspTail);
    SplitTemplate(CspHead, CspIndent, kw, fa, CspTail);
    CspHeadEndsDirective();
    CspIndentIsWhiteSpace();
    assert (kw + " " + rest)[0] == 'f';
    CollapseRun(CspHead, CspIndent, kw + " " + rest);
    DirectiveNameNormalised();
    assert |fa| > 0 ==> rest[0] == fa[0];
    assert |fa| == 0 ==> rest[0] == ';';
    CollapseRun(kw, " ", rest);
    CollapseKeepsCollapsed(kw);
    CollapseNormalisedPrefix(fa, ";" + CspTail);
    NoWhiteSpaceIsNormalised(";");
    CollapseNormalisedPrefix(";", CspTail);
    JoinCollapsed(CollapseSpaces(CspHead), kw, fa, CollapseSpaces(CspTail));
  }

  /**
   * The normalised policy carries the directive `frame-ancestors` followed
   * by one space, the sources unchanged and `;`, when the sources are
   * themselves normalised.
   */
  lemma CspNamesFrameAncestors(fa: string)
    requires Normalised(fa)
    ensures Includes(ContentSecurityPolicy(fa), "frame-ancestors" + " " + fa + ";")
  {
    var sub := "frame-ancestors" + " " + fa + ";";
    var head, tail := CollapseSpaces(CspHead), CollapseSpaces(CspTail);
    CollapsedTemplate(fa);
    var c := head + " " + sub + tail;
    assert c[|head| + 1..|head| + 1 + |sub|] == sub;
    assert sub[0] == 'f' && sub[|sub| - 1] == ';';
    OccurrenceSurvivesTrim(c, sub, |head| + 1);
  }

  /** The sources `'self'` followed by a space, and each portfolio origin, hold no white space of their own. */
  lemma SelfWithBlank()
    ensures !LeadingSpace("'self' ") && SpacesAreBlanks("'self' ") && NoAdjacentSpaces("'self' ")
  {
    NoWhiteSpaceIsNormalised("'self'");
    AppendBlank("'self'");
    assert "'self'" + " " == "'self' ";
  }

  lemma BareOriginNormalised()
    ensures Normalised("https://carter-portfolio.fyi")
  {
    NoWhiteSpaceIsNormalised("https://carter-portfolio.fyi");
  }

  lemma WwwOriginNormalised()
    ensures Normalised("https://www.carter-portfolio.fyi")
  {
    NoWhiteSpaceIsNormalised("https://www.carter-portfolio.fyi");
  }

  /** Both forms of the `frame-ancestors` sources are normalised. */
  lemma FrameAncestorsNormalised(authorized: bool)
    ensures Normalised(FrameAncestors(authorized))
  {
    if authorized {
      var o1, o2 := "https://carter-portfolio.fyi", "https://www.carter-portfolio.fyi";
      AuthorizedFrameAncestors();
      SelfWithBlank();
      BareOriginNormalised();
      WwwOriginNormalised();
      ConcatNormalised("'self' ", o1);
      AppendBlank("'self' " + o1);
      ConcatNormalised("'self' " + o1 + " ", o2);
    } else {
      NoWhiteSpaceIsNormalised("'self'");
    }
  }

  /**
   * The Content-Security-Policy header names exactly the `frame-ancestors`
   * sources decided for the request.
   */
  lemma CspCarriesFrameAncestors(referrer: Option<string>, embed: Option<string>)
    ensures var h, fa := PolicyHeaders(referrer, embed), FrameAncestors(IsAuthorizedIframe(referrer));
            "Content-Security-Policy" in h && Includes(h["Content-Security-Policy"], "frame-ancestors" + " " + fa + ";")
  {
    SecurityHeadersSet(referrer, embed);
    FrameAncestorsNormalised(IsAuthorizedIframe(referrer));
    CspNamesFrameAncestors(FrameAncestors(IsAuthorizedIframe(referrer)));
  }

  /** The portfolio site is embedding the application: its host in the referrer, or `embed=portfolio`. */
  predicate IsPortfolioEmbed(referrer: string, embed: Option<string>)
  {
    Includes(referrer, "carter-portfolio.fyi") || embed == Some("portfolio")
  }

  /** `X-Frame-Options`: same-origin framing for an authorised iframe request, none otherwise. */
  function FrameOptions(authorized: bool): string
  {
    if authorized then "SAMEORIGIN" else "DENY"
  }

  /** The names of the headers set on every response. */
  const SecurityHeaderNames: set<string> :=
    {"Content-Security-Policy", "X-Frame-Options", "X-Content-Type-Options", "Referrer-Policy", "Permissions-Policy"}

  /** The security headers, in the order they are set. */
  function SecurityHeaders(csp: string, frameOptions: string): seq<(string, string)>
  {
    [ ("Content-Security-Policy", csp),
      ("X-Frame-Options", frameOptions),
      ("X-Content-Type-Options", "nosniff"),
      ("Referrer-Policy", "origin-when-cross-origin"),
      ("Permissions-Policy", "camera=(), microphone=(), geolocation=()") ]
  }

  /** The header map after setting each pair in turn, a later pair overriding an earlier one. */
  function SetAll(start: map<string, string>, pairs: seq<(string, string)>): map<string, string>
  {
    if |pairs| == 0 then start
    else SetAll(start, pairs[..|pairs| - 1])[pairs[|pairs| - 1].0 := pairs[|pairs| - 1].1]
  }

  /** The iframe headers added for an authorised iframe request. */
  function WithIframeHeaders(h: map<string, string>, referrer: string, portfolioEmbed: bool): map<string, string>
  {
    var withIframe := h["X-Iframe-Allowed" := "true"]["X-Iframe-Referrer" := referrer];
    if portfolioEmbed then withIframe["X-Portfolio-Embed" := "true"] else withIframe
  }

  /** The headers the middleware leaves on the response for a referrer and an `embed` parameter. */
  function PolicyHeaders(referrer: Option<string>, embed: Option<string>): map<string, string>
  {
    var authorized := IsAuthorizedIframe(referrer);
    var h := SetAll(map[], SecurityHeaders(ContentSecurityPolicy(FrameAncestors(authorized)), FrameOptions(authorized)));
    if authorized then WithIframeHeaders(h, referrer.value, IsPortfolioEmbed(referrer.value, embed)) else h
  }

  /** A response's header list, updated in place by `set`. */
  class ResponseHeaders {
    var entries: map<string, string>

    constructor ()
      ensures entries == map[]
    {
      entries := map[];
    }

    /** `headers.set(name, value)`: adds the header or replaces its value. */
    method Set(name: string, value: string)
      modifies this
      ensures entries == old(entries)[name := value]
    {
      entries := entries[name := value];
    }

    /** `pairs.forEach(([name, value]) => headers.set(name, value))`. */
    method SetEach(pairs: seq<(string, string)>)
      modifies this
      ensures entries == SetAll(old(entries), pairs)
    {
      var i := 0;
      while i < |pairs|
        invariant 0 <= i <= |pairs|
        invariant entries == SetAll(old(entries), pairs[..i])
      {
        assert pairs[..i + 1][..i] == pairs[..i];
        Set(pairs[i].0, pairs[i].1);
        i := i + 1;
      }
      assert pairs[..i] == pairs;
    }
  }

  /**
   * Handles one request: decides whether it is an authorised iframe
   * request, builds the `frame-ancestors` sources, sets the security
   * headers and, for an authorised iframe request, the iframe headers.
   */
  method Middleware(referrer: Option<string>, embed: Option<string>) returns (response: ResponseHeaders)
    ensures fresh(response)
    ensures response.entries == PolicyHeaders(referrer, embed)
  {
    response := new ResponseHeaders();
    var isAuthorizedIframe := IsAuthorizedIframe(referrer);

    var frameAncestors := "'self'";
    if isAuthorizedIframe {
      var authorizedFrameAncestors := Join(NonLocalhost(AuthorizedDomains), " ");
      frameAncestors := "'self' " + authorizedFrameAncestors;
    }
    assert frameAncestors == FrameAncestors(isAuthorizedIframe);

    var securityHeaders := SecurityHeaders(ContentSecurityPolicy(frameAncestors), FrameOptions(isAuthorizedIframe));
    response.SetEach(securityHeaders);

    if isAuthorizedIframe {
      response.Set("X-Iframe-Allowed", "true");
      response.Set("X-Iframe-Referrer", referrer.value);
      var isPortfolioEmbed := Includes(referrer.value, "carter-portfolio.fyi") || embed == Some("portfolio");
      if isPortfolioEmbed {
        response.Set("X-Portfolio-Embed", "true");
      }
    }
  }

  // ---------------------------------------------------------------------
  // What the policy guarantees
  // ---------------------------------------------------------------------

  /** A header set by some pair is present; one no later pair renames keeps the value it was set to. */
  lemma {:induction false} SetAllValue(start: map<string, string>, pairs: seq<(string, string)>, k: nat)
    requires k < |pairs|
    requires forall j :: k < j < |pairs| ==> pairs[j].0 != pairs[k].0
    ensures pairs[k].0 in SetAll(start, pairs) && SetAll(start, pairs)[pairs[k].0] == pairs[k].1
  {
    if k < |pairs| - 1 {
      var prefix := pairs[..|pairs| - 1];
      assert forall j :: k < j < |prefix| ==> prefix[j] == pairs[j];
      SetAllValue(start, prefix, k);
    }
  }

  /** Setting pairs adds exactly their names to the header map. */
  lemma {:induction false} SetAllKeys(start: map<string, string>, pairs: seq<(string, string)>)
    ensures SetAll(start, pairs).Keys == start.Keys + set k | 0 <= k < |pairs| :: pairs[k].0
  {
    if |pairs| > 0 {
      var prefix := pairs[..|pairs| - 1];
      SetAllKeys(start, prefix);
      assert (set k | 0 <= k < |pairs| :: pairs[k].0)
          == (set k | 0 <= k < |prefix| :: prefix[k].0) + {pairs[|pairs| - 1].0} by {
        assert forall k :: 0 <= k < |prefix| ==> prefix[k] == pairs[k];
      }
    }
  }

  /** The five security headers carry the values they were given, and no other header is present. */
  lemma SecurityHeaderValues(csp: string, frameOptions: string)
    ensures var h := SetAll(map[], SecurityHeaders(csp, frameOptions));
            && h.Keys == SecurityHeaderNames
            && h["Content-Security-Policy"] == csp
            && h["X-Frame-Options"] == frameOptions
            && h["X-Content-Type-Options"] == "nosniff"
            && h["Referrer-Policy"] == "origin-when-cross-origin"
            && h["Permissions-Policy"] == "camera=(), microphone=(), geolocation=()"
  {
    var pairs := SecurityHeaders(csp, frameOptions);
    SetAllValue(map[], pairs, 0);
    SetAllValue(map[], pairs, 1);
    SetAllValue(map[], pairs, 2);
    SetAllValue(map[], pairs, 3);
    SetAllValue(map[], pairs, 4);
    SetAllKeys(map[], pairs);
    assert (set k | 0 <= k < |pairs| :: pairs[k].0) == SecurityHeaderNames by {
      assert pairs[0].0 == "Content-Security-Policy";
      assert pairs[1].0 == "X-Frame-Options";
      assert pairs[2].0 == "X-Content-Type-Options";
      assert pairs[3].0 == "Referrer-Policy";
      assert pairs[4].0 == "Permissions-Policy";
    }
  }

  /** The five security headers, whatever the request. */
  lemma SecurityHeadersSet(referrer: Option<string>, embed: Option<string>)
    ensures var h, authorized := PolicyHeaders(referrer, embed), IsAuthorizedIframe(referrer);
            && SecurityHeaderNames <= h.Keys
            && h["Content-Security-Policy"] == ContentSecurityPolicy(FrameAncestors(authorized))
            && h["X-Frame-Options"] == FrameOptions(authorized)
            && h["X-Content-Type-Options"] == "nosniff"
            && h["Referrer-Policy"] == "origin-when-cross-origin"
            && h["Permissions-Policy"] == "camera=(), microphone=(), geolocation=()"
  {
    var authorized := IsAuthorizedIframe(referrer);
    var csp, frameOptions := ContentSecurityPolicy(FrameAncestors(authorized)), FrameOptions(authorized);
    SecurityHeaderValues(csp, frameOptions);
    if authorized {
      IframeHeaderValues(SetAll(map[], SecurityHeaders(csp, frameOptions)), referrer.value, IsPortfolioEmbed(referrer.value, embed));
    }
  }

  /** `X-Frame-Options` is `SAMEORIGIN` exactly when a referrer starts with an authorised origin, and `DENY` otherwise. */
  lemma FrameOptionsFollowReferrer(referrer: Option<string>, embed: Option<string>)
    ensures var h := PolicyHeaders(referrer, embed);
            && "X-Frame-Options" in h
            && (h["X-Frame-Options"] == "SAMEORIGIN" <==>
                  referrer.Some? && exists k :: 0 <= k < |AuthorizedDomains| && StartsWith(referrer.value, AuthorizedDomains[k]))
            && (h["X-Frame-Options"] == "SAMEORIGIN" || h["X-Frame-Options"] == "DENY")
  {
    SecurityHeadersSet(referrer, embed);
  }

  /** The Content-Security-Policy value is normalised: no white space at the ends, none but single plain spaces inside. */
  lemma CspIsNormalised(referrer: Option<string>, embed: Option<string>)
    ensures var h := PolicyHeaders(referrer, embed);
            "Content-Security-Policy" in h && Normalised(h["Content-Security-Policy"])
  {
    SecurityHeadersSet(referrer, embed);
  }

  /** The iframe headers extend a map of security headers and change none of them. */
  lemma IframeHeaderValues(h: map<string, string>, referrer: string, portfolioEmbed: bool)
    requires h.Keys == SecurityHeaderNames
    ensures var w := WithIframeHeaders(h, referrer, portfolioEmbed);
            && w.Keys == SecurityHeaderNames + {"X-Iframe-Allowed", "X-Iframe-Referrer"}
                         + (if portfolioEmbed then {"X-Portfolio-Embed"} else {})
            && (forall name :: name in h ==> w[name] == h[name])
            && w["X-Iframe-Allowed"] == "true" && w["X-Iframe-Referrer"] == referrer
            && (portfolioEmbed ==> w["X-Portfolio-Embed"] == "true")
  {
  }

  /** The three iframe header names are distinct from each other and from the security header names. */
  lemma IframeHeaderNamesAreNew()
    ensures "X-Iframe-Allowed" !in SecurityHeaderNames && "X-Iframe-Referrer" !in SecurityHeaderNames
    ensures "X-Portfolio-Embed" !in SecurityHeaderNames + {"X-Iframe-Allowed", "X-Iframe-Referrer"}
  {
    assert "X-Iframe-Allowed"[2] == 'I' && "X-Iframe-Referrer"[2] == 'I' && "X-Portfolio-Embed"[2] == 'P';
    assert "Content-Security-Policy"[0] == 'C' && "Referrer-Policy"[0] == 'R' && "Permissions-Policy"[0] == 'P';
    assert "X-Frame-Options"[2] == 'F' && "X-Content-Type-Options"[2] == 'C';
  }

  /** The iframe headers are present exactly for an authorised iframe request, the referrer header carrying the referrer. */
  lemma IframeHeadersOnlyWhenAuthorized(referrer: Option<string>, embed: Option<string>)
    ensures var h := PolicyHeaders(referrer, embed);
            && ("X-Iframe-Allowed" in h <==> IsAuthorizedIframe(referrer))
            && ("X-Iframe-Referrer" in h <==> IsAuthorizedIframe(referrer))
            && ("X-Iframe-Allowed" in h ==> h["X-Iframe-Allowed"] == "true")
            && ("X-Iframe-Referrer" in h ==> referrer.Some? && h["X-Iframe-Referrer"] == referrer.value)
  {
    HeaderNames(referrer, embed);
    IframeHeaderNamesAreNew();
  }

  /**
   * `X-Portfolio-Embed` is present exactly for an authorised iframe request
   * whose referrer names the portfolio host or whose `embed` parameter is
   * `portfolio`.
   */
  lemma PortfolioEmbedHeader(referrer: Option<string>, embed: Option<string>)
    ensures var h := PolicyHeaders(referrer, embed);
            && ("X-Portfolio-Embed" in h <==>
                  IsAuthorizedIframe(referrer) && (Includes(referrer.value, "carter-portfolio.fyi") || embed == Some("portfolio")))
            && ("X-Portfolio-Embed" in h ==> h["X-Portfolio-Embed"] == "true")
  {
    HeaderNames(referrer, embed);
    IframeHeaderNamesAreNew();
  }

  /** `embed=portfolio` alone, without an authorised referrer, never marks a portfolio embedding. */
  lemma EmbedParameterAloneIsIgnored(referrer: Option<string>)
    requires !IsAuthorizedIframe(referrer)
    ensures "X-Portfolio-Embed" !in PolicyHeaders(referrer, Some("portfolio"))
  {
    HeaderNames(referrer, Some("portfolio"));
    IframeHeaderNamesAreNew();
  }

  /** No other header is set: five for any request, up to three more for an authorised iframe request. */
  lemma HeaderNames(referrer: Option<string>, embed: Option<string>)
    ensures var h := PolicyHeaders(referrer, embed);
            && (!IsAuthorizedIframe(referrer) ==> h.Keys == SecurityHeaderNames)
            && (IsAuthorizedIframe(referrer) ==>
                  && h.Keys == SecurityHeaderNames + {"X-Iframe-Allowed", "X-Iframe-Referrer"}
                               + (if IsPortfolioEmbed(referrer.value, embed) then {"X-Portfolio-Embed"} else {})
                  && h["X-Iframe-Allowed"] == "true" && h["X-Iframe-Referrer"] == referrer.value
                  && (IsPortfolioEmbed(referrer.value, embed) ==> h["X-Portfolio-Embed"] == "true"))
  {
    var authorized := IsAuthorizedIframe(referrer);
    var h := SetAll(map[], SecurityHeaders(ContentSecurityPolicy(FrameAncestors(authorized)), FrameOptions(authorized)));
    SecurityHeaderValues(ContentSecurityPolicy(FrameAncestors(authorized)), FrameOptions(authorized));
    if authorized {
      IframeHeaderValues(h, referrer.value, IsPortfolioEmbed(referrer.value, embed));
    }
  }
}

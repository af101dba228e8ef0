/**
  The heuristic feature extractor (backend/app/safe_feature_extraction.py):
  the 22 detectors in the order `extract_all_features` runs them, each
  mapping the address, its urlparse result and the fetched page to -1, 0 or
  1. The page is not parsed here: a `Document` lists, per tag kind, the
  attribute values BeautifulSoup would find, together with the full response
  text and the length of the redirect history; `None` is the failed fetch
  that leaves `response` and `soup` at `""`. Each regular expression of the
  source is written out as the predicate it decides.
*/
module Features {
  import opened Wrappers
  import opened StrUtil
  import PyUrl

  /** The parts of a fetched page the detectors read. */
  datatype Document = Document(
    headLinkHrefs: seq<string>,   // `href` of every `link` inside a `head`
    imgSrcs: seq<string>,
    audioSrcs: seq<string>,
    embedSrcs: seq<string>,
    iframeSrcs: seq<string>,
    anchorHrefs: seq<string>,     // `href` of every `a`
    linkHrefs: seq<string>,       // `href` of every `link`
    scriptSrcs: seq<string>,
    formActions: seq<string>,     // `action` of every `form` that has one
    text: string,                 // `response.text`, not truncated
    redirects: nat)               // `len(response.history)`

  /** What the constructor leaves in the object before the detectors run: `parsed` is `None` when
      urlparse raised (then `self.urlparse` stays the falsy `""`), and `domain` is the netloc or `""`. */
  datatype Page = Page(url: string, parsed: Option<PyUrl.SplitUrl>, domain: string, response: Option<Document>)

  function PageOf(url: string, response: Option<Document>): (p: Page)
    ensures p.url == url && p.response == response && p.parsed == PyUrl.UrlSplit(url)
    ensures p.parsed.Some? ==> p.domain == p.parsed.value.netloc
    ensures p.parsed.None? ==> p.domain == ""
  {
    var parsed := PyUrl.UrlSplit(url);
    Page(url, parsed, if parsed.Some? then parsed.value.netloc else "", response)
  }

  predicate Ternary(v: int)
  {
    v == -1 || v == 0 || v == 1
  }

  // ---------------------------------------------------------------------
  // UsingIp

  /** One alternative of the octet group `25[0-5]|2[0-4][0-9]|[01]?[0-9][0-9]?`: one to three
      digits of value at most 255. */
  predicate IsOctet(s: string)
  {
    1 <= |s| <= 3 && AllDigits(s) && DigitsValue(s) <= 255
  }

  predicate OctetAt(h: string, i: nat, l: nat)
  {
    i + l <= |h| && IsOctet(h[i..i + l])
  }

  /** `k` octets separated by dots start at `i`: the last one by itself, the others followed by `.` */
  predicate OctetsFrom(h: string, i: nat, k: nat)
    decreases k, 1
  {
    k > 0 && (OctetThen(h, i, 1, k) || OctetThen(h, i, 2, k) || OctetThen(h, i, 3, k))
  }

  predicate OctetThen(h: string, i: nat, l: nat, k: nat)
    requires k > 0
    decreases k, 0
  {
    OctetAt(h, i, l) && (k == 1 || (i + l < |h| && h[i + l] == '.' && OctetsFrom(h, i + l + 1, k - 1)))
  }

  /** `re.search(ip_pattern, h)`: a dotted quad occurs somewhere in `h`. */
  predicate HasDottedQuad(h: string)
  {
    exists i | 0 <= i <= |h| :: OctetsFrom(h, i, 4)
  }

  /** `UsingIp`: the netloc is searched when urlparse succeeded, the whole address otherwise. */
  function UsingIp(url: string, parsed: Option<PyUrl.SplitUrl>): (r: int)
    ensures r == -1 || r == 1
    ensures r == -1 <==> var h := if parsed.Some? then parsed.value.netloc else url; HasDottedQuad(h)
  {
    var hostname := if parsed.Some? then parsed.value.netloc else url;
    if hostname != "" && HasDottedQuad(hostname) then -1 else 1
  }

  /** The length of the first octet of dotted octets found at `i`. */
  function OctetLength(h: string, i: nat, k: nat): (l: nat)
    requires OctetsFrom(h, i, k)
    ensures 1 <= l <= 3 && k > 0 && OctetThen(h, i, l, k)
  {
    if OctetThen(h, i, 1, k) then 1 else if OctetThen(h, i, 2, k) then 2 else 3
  }

  lemma OctetsNeedDot(h: string, i: nat, k: nat)
    requires k > 1 && OctetsFrom(h, i, k)
    ensures '.' in h
  {
    var l := OctetLength(h, i, k);
    assert h[i + l] == '.';
  }

  /** A host without a dot is never taken for an address literal. */
  lemma NoDotNoAddress(h: string)
    requires '.' !in h
    ensures !HasDottedQuad(h)
  {
    if HasDottedQuad(h) {
      var i :| 0 <= i <= |h| && OctetsFrom(h, i, 4);
      OctetsNeedDot(h, i, 4);
    }
  }

  lemma OctetsFromOf(a: string, rest: string, k: nat)
    requires k > 1 && IsOctet(a) && OctetsFrom(rest, 0, k - 1)
    ensures OctetsFrom(a + "." + rest, 0, k)
  {
    var h := a + "." + rest;
    assert h[..|a|] == a;
    assert h[|a|] == '.';
    OctetsShift(rest, "" + a + ".", 0, k - 1);
    assert "" + a + "." + rest == h;
    assert OctetThen(h, 0, |a|, k);
  }

  /** Dotted octets are found again after any prefix. */
  lemma {:induction false} OctetsShift(h: string, p: string, i: nat, k: nat)
    requires OctetsFrom(h, i, k)
    ensures OctetsFrom(p + h, |p| + i, k)
    decreases k
  {
    var s := p + h;
    var l := OctetLength(h, i, k);
    assert s[|p| + i..|p| + i + l] == h[i..i + l];
    if k > 1 {
      assert s[|p| + i + l] == h[i + l];
      OctetsShift(h, p, i + l + 1, k - 1);
    }
    assert OctetThen(s, |p| + i, l, k);
  }

  /** Four octets joined by dots make `UsingIp` report an address literal, wherever they stand. */
  lemma DottedQuadFound(pre: string, a: string, b: string, c: string, d: string, post: string)
    requires IsOctet(a) && IsOctet(b) && IsOctet(c) && IsOctet(d)
    ensures HasDottedQuad(pre + (a + "." + (b + "." + (c + "." + d))) + post)
  {
    var q := a + "." + (b + "." + (c + "." + d));
    assert OctetThen(d, 0, |d|, 1) by {
      assert d[0..|d|] == d;
    }
    OctetsFromOf(c, d, 2);
    OctetsFromOf(b, c + "." + d, 3);
    OctetsFromOf(a, b + "." + (c + "." + d), 4);
    OctetsExtend(q, post, 0, 4);
    assert (q + post) == q + post;
    OctetsShift(q + post, pre, 0, 4);
    assert pre + (q + post) == pre + q + post;
  }

  /** Dotted octets are found again after any suffix. */
  lemma {:induction false} OctetsExtend(h: string, post: string, i: nat, k: nat)
    requires OctetsFrom(h, i, k)
    ensures OctetsFrom(h + post, i, k)
    decreases k
  {
    var s := h + post;
    var l := OctetLength(h, i, k);
    assert s[i..i + l] == h[i..i + l];
    if k > 1 {
      assert s[i + l] == h[i + l];
      OctetsExtend(h, post, i + l + 1, k - 1);
    }
    assert OctetThen(s, i, l, k);
  }

  // ---------------------------------------------------------------------
  // LongUrl, ShortUrl, Symbol, Redirecting, PrefixSuffix, SubDomains, Hppts

  /** `LongUrl` */
  function LongUrl(url: string): (r: int)
    ensures r == 1 <==> |url| < 54
    ensures r == 0 <==> 54 <= |url| <= 75
    ensures r == -1 <==> |url| > 75
  {
    if |url| < 54 then 1 else if |url| <= 75 then 0 else -1
  }

  /** The alternatives of `shortening_services`, line by line as the source writes them, with its
      repetitions. */
  const ShortenersLine1: seq<string> :=
    ["bit.ly", "goo.gl", "shorte.st", "go2l.ink", "x.co", "ow.ly", "t.co", "tinyurl", "tr.im", "is.gd", "cli.gs"]
  const ShortenersLine2: seq<string> :=
    ["yfrog.com", "migre.me", "ff.im", "tiny.cc", "url4.eu", "twit.ac", "su.pr", "twurl.nl", "snipurl.com"]
  const ShortenersLine3: seq<string> :=
    ["short.to", "BudURL.com", "ping.fm", "post.ly", "Just.as", "bkite.com", "snipr.com", "fic.kr", "loopt.us"]
  const ShortenersLine4: seq<string> :=
    ["doiop.com", "short.ie", "kl.am", "wp.me", "rubyurl.com", "om.ly", "to.ly", "bit.do", "t.co", "lnkd.in", "db.tt"]
  const ShortenersLine5: seq<string> :=
    ["qr.ae", "adf.ly", "goo.gl", "bitly.com", "cur.lv", "tinyurl.com", "ow.ly", "bit.ly", "ity.im", "q.gs", "is.gd"]
  const ShortenersLine6: seq<string> :=
    ["po.st", "bc.vc", "twitthis.com", "u.to", "j.mp", "buzurl.com", "cutt.us", "u.bb", "yourls.org", "x.co"]
  const ShortenersLine7: seq<string> :=
    ["prettylinkpro.com", "scrnch.me", "filoops.info", "vzturl.com", "qr.net", "1url.com", "tweez.me", "v.gd"]
  const ShortenersLine8: seq<string> := ["tr.im", "link.zip.net"]

  const Shorteners: seq<string> :=
    ShortenersLine1 + ShortenersLine2 + ShortenersLine3 + ShortenersLine4 + ShortenersLine5 + ShortenersLine6
    + ShortenersLine7 + ShortenersLine8

  /** `ShortUrl`: a case-sensitive search for any alternative anywhere in the address. */
  function ShortUrl(url: string): (r: int)
    ensures r == -1 || r == 1
    ensures r == -1 <==> exists i | 0 <= i < |Shorteners| :: Contains(url, Shorteners[i])
  {
    if exists i | 0 <= i < |Shorteners| :: Contains(url, Shorteners[i]) then -1 else 1
  }

  /** Any address holding `t.co`, such as every `http://...t.com/...`, counts as shortened. */
  lemma ShortenerAnywhere(url: string, a: string, b: string)
    requires url == a + "t.co" + b
    ensures ShortUrl(url) == -1
  {
    assert Shorteners[6] == "t.co";
    assert OccursAt(url, "t.co", |a|);
  }

  /** `Symbol` */
  function Symbol(url: string): (r: int)
    ensures r == -1 || r == 1
    ensures r == -1 <==> '@' in url
  {
    if '@' in url then -1 else 1
  }

  /** `Redirecting`: a `//` that starts after index 6. */
  function Redirecting(url: string): (r: int)
    ensures r == -1 || r == 1
    ensures r == -1 <==> exists i | 6 < i <= |url| - 2 :: OccursAt(url, "//", i)
  {
    var k := RFind(url, "//");
    if k > 6 then
      assert OccursAt(url, "//", k);
      -1
    else 1
  }

  /** `PrefixSuffix` */
  function PrefixSuffix(domain: string): (r: int)
    ensures r == -1 || r == 1
    ensures r == -1 <==> '-' in domain
  {
    if domain != "" && '-' in domain then -1 else 1
  }

  /** `SubDomains`: the dots of the whole address. */
  function SubDomains(url: string): (r: int)
    ensures r == 1 <==> CountChar(url, '.') == 1
    ensures r == 0 <==> CountChar(url, '.') == 2
    ensures r == -1 <==> CountChar(url, '.') != 1 && CountChar(url, '.') != 2
  {
    var dots := CountChar(url, '.');
    if dots == 1 then 1 else if dots == 2 then 0 else -1
  }

  /** `Hppts`: `https` occurs in the scheme of a successful parse. */
  function Hppts(parsed: Option<PyUrl.SplitUrl>): (r: int)
    ensures r == -1 || r == 1
    ensures r == 1 <==> parsed.Some? && Contains(parsed.value.scheme, "https")
  {
    if parsed.Some? && Contains(parsed.value.scheme, "https") then 1 else -1
  }

  // ---------------------------------------------------------------------
  // Favicon, NonStdPort, HTTPSDomainURL

  /** The self-reference test of `Favicon`, `RequestURL` and `LinksInScriptTags`: the reference holds
      the address or the domain, or exactly one dot. */
  predicate SelfReferencing(s: string, url: string, domain: string)
  {
    Contains(s, url) || Contains(s, domain) || CountChar(s, '.') == 1
  }

  /** `Favicon`: 0 without a page; 1 when some link in a head is self-referencing, -1 otherwise. */
  function Favicon(url: string, domain: string, response: Option<Document>): (r: int)
    ensures r == 0 <==> response.None?
    ensures r == 1 <==>
      response.Some? && exists k | 0 <= k < |response.value.headLinkHrefs| :: SelfReferencing(response.value.headLinkHrefs[k], url, domain)
  {
    match response
    case None => 0
    case Some(d) =>
      if exists k | 0 <= k < |d.headLinkHrefs| :: SelfReferencing(d.headLinkHrefs[k], url, domain) then 1 else -1
  }

  /** `NonStdPort`: -1 only for a readable, nonzero port other than 80 and 443; a port that makes
      the `port` property raise counts as standard. */
  function NonStdPort(parsed: Option<PyUrl.SplitUrl>): (r: int)
    ensures r == -1 || r == 1
    ensures r == -1 <==> parsed.Some? && var p := PyUrl.Port(parsed.value.netloc);
      p.PortNumber? && p.n != 0 && p.n != 80 && p.n != 443
  {
    if parsed.Some? then
      match PyUrl.Port(parsed.value.netloc)
      case PortNumber(n) => if n != 0 && n != 80 && n != 443 then -1 else 1
      case _ => 1
    else 1
  }

  /** `HTTPSDomainURL` */
  function HttpsDomainUrl(domain: string): (r: int)
    ensures r == -1 || r == 1
    ensures r == -1 <==> Contains(domain, "https")
  {
    if domain != "" && Contains(domain, "https") then -1 else 1
  }

  // ---------------------------------------------------------------------
  // The ratio detectors: RequestURL, AnchorURL, LinksInScriptTags

  /** The percentage bands: `part / total * 100` below `lo` gives 1, below `hi` gives 0, else -1;
      `none` stands for the ZeroDivisionError of an empty page. Compared exactly, by
      cross-multiplication, where the source compares floats. */
  function Band(part: nat, total: nat, lo: nat, hi: nat, none: int): (r: int)
    requires lo <= hi
    ensures total == 0 ==> r == none
    ensures total > 0 ==> (r == 1 <==> part * 100 < lo * total)
    ensures total > 0 ==> (r == 0 <==> lo * total <= part * 100 < hi * total)
    ensures total > 0 ==> (r == -1 <==> hi * total <= part * 100)
  {
    if total == 0 then none
    else if part * 100 < lo * total then 1
    else if part * 100 < hi * total then 0
    else -1
  }

  /** More counted references never give a better band. */
  lemma BandMonotone(part: nat, more: nat, total: nat, lo: nat, hi: nat, none: int)
    requires part <= more && lo <= hi
    ensures total > 0 ==> Band(more, total, lo, hi, none) <= Band(part, total, lo, hi, none)
  {
    if total > 0 {
      assert part * 100 <= more * 100;
    }
  }

  /** When every reference counts, the share is 100% and the band is -1 (both cut points lie below
      100). */
  lemma BandOfAll(total: nat, lo: nat, hi: nat, none: int)
    requires total > 0 && lo <= hi <= 100
    ensures Band(total, total, lo, hi, none) == -1
  {
    assert hi * total <= 100 * total;
  }

  /** How many references are self-referencing (the `success` counter). */
  function SelfRefCount(refs: seq<string>, url: string, domain: string): (n: nat)
    ensures n <= |refs|
  {
    if |refs| == 0 then 0
    else SelfRefCount(refs[..|refs| - 1], url, domain) + (if SelfReferencing(refs[|refs| - 1], url, domain) then 1 else 0)
  }

  /** An empty domain occurs in every reference, so every reference is self-referencing. */
  lemma {:induction false} EmptyDomainCountsAll(refs: seq<string>, url: string)
    ensures SelfRefCount(refs, url, "") == |refs|
  {
    if |refs| > 0 {
      ContainsEmpty(refs[|refs| - 1]);
      EmptyDomainCountsAll(refs[..|refs| - 1], url);
    }
  }

  /** The unsafe-anchor test of `AnchorURL`. */
  predicate UnsafeAnchor(href: string, url: string, domain: string)
  {
    '#' in href || Contains(Lower(href), "javascript") || Contains(Lower(href), "mailto")
    || !(Contains(href, url) || Contains(href, domain))
  }

  /** How many anchors are unsafe (the `unsafe` counter). */
  function UnsafeCount(hrefs: seq<string>, url: string, domain: string): (n: nat)
    ensures n <= |hrefs|
  {
    if |hrefs| == 0 then 0
    else UnsafeCount(hrefs[..|hrefs| - 1], url, domain) + (if UnsafeAnchor(hrefs[|hrefs| - 1], url, domain) then 1 else 0)
  }

  /** The number of resources `RequestURL` visits. */
  function ResourceCount(d: Document): nat
  {
    |d.imgSrcs| + |d.audioSrcs| + |d.embedSrcs| + |d.iframeSrcs|
  }

  /** The self-referencing resources `RequestURL` counts. */
  function ResourceSelfRefs(d: Document, url: string, domain: string): (n: nat)
    ensures n <= ResourceCount(d)
  {
    SelfRefCount(d.imgSrcs, url, domain) + SelfRefCount(d.audioSrcs, url, domain)
      + SelfRefCount(d.embedSrcs, url, domain) + SelfRefCount(d.iframeSrcs, url, domain)
  }

  /** `RequestURL`: -1 without a page (`find_all` on the string `""` raises), 0 for a page with no
      resources, else the 22/61 bands of the self-referencing share. */
  function RequestUrlScore(url: string, domain: string, response: Option<Document>): (r: int)
    ensures Ternary(r)
    ensures response.None? ==> r == -1
    ensures response.Some? && ResourceCount(response.value) == 0 ==> r == 0
  {
    match response
    case None => -1
    case Some(d) => Band(ResourceSelfRefs(d, url, domain), ResourceCount(d), 22, 61, 0)
  }

  /** `AnchorURL`: -1 without a page and for a page without anchors, else the 31/67 bands of the
      unsafe share. */
  function AnchorUrlScore(url: string, domain: string, response: Option<Document>): (r: int)
    ensures Ternary(r)
    ensures response.None? || |response.value.anchorHrefs| == 0 ==> r == -1
  {
    match response
    case None => -1
    case Some(d) => Band(UnsafeCount(d.anchorHrefs, url, domain), |d.anchorHrefs|, 31, 67, -1)
  }

  /** `LinksInScriptTags`: -1 without a page, 0 for a page without links or scripts, else the
      17/81 bands of the self-referencing share. */
  function LinksInScriptTagsScore(url: string, domain: string, response: Option<Document>): (r: int)
    ensures Ternary(r)
    ensures response.None? ==> r == -1
    ensures response.Some? && |response.value.linkHrefs| + |response.value.scriptSrcs| == 0 ==> r == 0
  {
    match response
    case None => -1
    case Some(d) =>
      Band(SelfRefCount(d.linkHrefs, url, domain) + SelfRefCount(d.scriptSrcs, url, domain),
           |d.linkHrefs| + |d.scriptSrcs|, 17, 81, 0)
  }

  /** Without a domain every resource and every link counts as self-referencing, so any page that has
      some scores -1 on both detectors. */
  lemma EmptyDomainScores(url: string, d: Document)
    ensures ResourceCount(d) > 0 ==> RequestUrlScore(url, "", Some(d)) == -1
    ensures |d.linkHrefs| + |d.scriptSrcs| > 0 ==> LinksInScriptTagsScore(url, "", Some(d)) == -1
  {
    EmptyDomainCountsAll(d.imgSrcs, url);
    EmptyDomainCountsAll(d.audioSrcs, url);
    EmptyDomainCountsAll(d.embedSrcs, url);
    EmptyDomainCountsAll(d.iframeSrcs, url);
    EmptyDomainCountsAll(d.linkHrefs, url);
    EmptyDomainCountsAll(d.scriptSrcs, url);
    if ResourceCount(d) > 0 {
      BandOfAll(ResourceCount(d), 22, 61, 0);
    }
    if |d.linkHrefs| + |d.scriptSrcs| > 0 {
      BandOfAll(|d.linkHrefs| + |d.scriptSrcs|, 17, 81, 0);
    }
  }

  /** Without a domain an anchor is unsafe only for a `#`, `javascript` or `mailto`. */
  lemma EmptyDomainAnchor(href: string, url: string)
    ensures UnsafeAnchor(href, url, "") <==>
      '#' in href || Contains(Lower(href), "javascript") || Contains(Lower(href), "mailto")
  {
    ContainsEmpty(href);
  }

  // ---------------------------------------------------------------------
  // ServerFormHandler and WebsiteForwarding

  /** `ServerFormHandler`: only the first form with an action decides. */
  function ServerFormHandler(url: string, domain: string, response: Option<Document>): (r: int)
    ensures Ternary(r)
    ensures response.None? ==> r == -1
    ensures response.Some? && |response.value.formActions| == 0 ==> r == 1
    ensures response.Some? && |response.value.formActions| > 0 ==>
      var a := response.value.formActions[0];
      (r == -1 <==> a == "" || a == "about:blank")
      && (r == 0 <==> a != "" && a != "about:blank" && !Contains(a, url) && !Contains(a, domain))
  {
    match response
    case None => -1
    case Some(d) =>
      if |d.formActions| == 0 then 1
      else
        var a := d.formActions[0];
        if a == "" || a == "about:blank" then -1
        else if !Contains(a, url) && !Contains(a, domain) then 0
        else 1
  }

  /** Without a domain the "foreign action" answer 0 never occurs. */
  lemma EmptyDomainFormNeverForeign(url: string, response: Option<Document>)
    ensures ServerFormHandler(url, "", response) != 0
  {
    if response.Some? && |response.value.formActions| > 0 {
      ContainsEmpty(response.value.formActions[0]);
    }
  }

  /** `WebsiteForwarding` */
  function WebsiteForwarding(response: Option<Document>): (r: int)
    ensures Ternary(r)
    ensures response.None? ==> r == -1
    ensures response.Some? ==> var n := response.value.redirects;
      (r == 1 <==> n <= 1) && (r == 0 <==> 2 <= n <= 4) && (r == -1 <==> n > 4)
  {
    match response
    case None => -1
    case Some(d) => if d.redirects <= 1 then 1 else if d.redirects <= 4 then 0 else -1
  }

  // ---------------------------------------------------------------------
  // The detectors on the response text

  /** The character class `[mail\(\)|mailto:?]`. */
  predicate MailClassChar(c: char)
  {
    c == 'm' || c == 'a' || c == 'i' || c == 'l' || c == '(' || c == ')' || c == '|' || c == 't'
    || c == 'o' || c == ':' || c == '?'
  }

  /** `InfoEmail`: -1 as soon as one character of the class occurs. */
  function InfoEmail(response: Option<Document>): (r: int)
    ensures r == -1 || r == 1
    ensures r == 1 <==> response.Some? && forall k | 0 <= k < |response.value.text| :: !MailClassChar(response.value.text[k])
  {
    match response
    case None => -1
    case Some(d) => if exists k | 0 <= k < |d.text| :: MailClassChar(d.text[k]) then -1 else 1
  }

  /** `<script>.+onmouseover.+</script>` matched from `i`, with `onmouseover` at `j` and `</script>` at
      `k`; `.` does not match a line feed. */
  predicate MouseOverScriptAt(t: string, i: int, j: int, k: int)
  {
    OccursAt(t, "<script>", i) && i + 8 < j && OccursAt(t, "onmouseover", j) && j + 11 < k
    && OccursAt(t, "</script>", k) && forall m | i <= m < k :: t[m] != '\n'
  }

  predicate HasMouseOverScript(t: string)
  {
    exists i, j, k | 0 <= i < j < k <= |t| :: MouseOverScriptAt(t, i, j, k)
  }

  /** `StatusBarCust` */
  function StatusBarCust(response: Option<Document>): (r: int)
    ensures r == -1 || r == 1
    ensures r == 1 <==> response.Some? && HasMouseOverScript(response.value.text)
  {
    match response
    case None => -1
    case Some(d) => if HasMouseOverScript(d.text) then 1 else -1
  }

  /** The tail ` ?== ?2` of the right-click pattern, at `j`. */
  predicate EqualsTwoAt(t: string, j: int)
  {
    OccursAt(t, "==2", j) || OccursAt(t, "== 2", j) || OccursAt(t, " ==2", j) || OccursAt(t, " == 2", j)
  }

  /** `event.button ?== ?2` matched from `i`. */
  predicate RightClickTestAt(t: string, i: int)
  {
    OccursAt(t, "event", i) && i + 5 < |t| && t[i + 5] != '\n' && OccursAt(t, "button", i + 6)
    && EqualsTwoAt(t, i + 12)
  }

  /** `DisableRightClick` */
  function DisableRightClick(response: Option<Document>): (r: int)
    ensures r == -1 || r == 1
    ensures r == 1 <==> response.Some? && exists i | 0 <= i < |response.value.text| :: RightClickTestAt(response.value.text, i)
  {
    match response
    case None => -1
    case Some(d) => if exists i | 0 <= i < |d.text| :: RightClickTestAt(d.text, i) then 1 else -1
  }

  /** `UsingPopupWindow` */
  function UsingPopupWindow(response: Option<Document>): (r: int)
    ensures r == -1 || r == 1
    ensures r == 1 <==> response.Some? && Contains(response.value.text, "alert(")
  {
    match response
    case None => -1
    case Some(d) => if Contains(d.text, "alert(") then 1 else -1
  }

  /** The character class `[<iframe>|<frameBorder>]`. */
  predicate FrameClassChar(c: char)
  {
    c == '<' || c == 'i' || c == 'f' || c == 'r' || c == 'a' || c == 'm' || c == 'e' || c == '>'
    || c == '|' || c == 'B' || c == 'o' || c == 'd'
  }

  /** `IframeRedirection`: 1 as soon as one character of the class occurs. */
  function IframeRedirection(response: Option<Document>): (r: int)
    ensures r == -1 || r == 1
    ensures r == 1 <==> response.Some? && exists k | 0 <= k < |response.value.text| :: FrameClassChar(response.value.text[k])
  {
    match response
    case None => -1
    case Some(d) => if exists k | 0 <= k < |d.text| :: FrameClassChar(d.text[k]) then 1 else -1
  }

  /** The character classes are single characters, not the words they spell: any text holding an
      `m`, an `a` or an `o` (every HTML page has `<html>` or `<a`) is flagged by `InfoEmail` and
      marked as using frames. */
  lemma ClassesMatchLetters(d: Document, k: nat)
    requires k < |d.text| && (d.text[k] == 'm' || d.text[k] == 'a' || d.text[k] == 'o')
    ensures InfoEmail(Some(d)) == -1 && IframeRedirection(Some(d)) == 1
  {
    assert MailClassChar(d.text[k]) && FrameClassChar(d.text[k]);
  }

  /** `LinksPointingToPage`: the non-overlapping occurrences of `<a href=`. */
  function LinksPointingToPage(response: Option<Document>): (r: int)
    ensures Ternary(r)
    ensures response.None? ==> r == -1
    ensures response.Some? ==>
      (r == 1 <==> !Contains(response.value.text, "<a href="))
      && (r == 0 <==> var n := CountOccurrences(response.value.text, "<a href="); 1 <= n <= 2)
  {
    match response
    case None => -1
    case Some(d) =>
      var n := CountOccurrences(d.text, "<a href=");
      CountOccurrencesZero(d.text, "<a href=");
      if n == 0 then 1 else if n <= 2 then 0 else -1
  }

  // ---------------------------------------------------------------------
  // extract_all_features

  /** The detector in slot `k` of `feature_methods`. */
  function Detector(p: Page, k: nat): (r: int)
    requires k < 22
    ensures Ternary(r)
  {
    match k
    case 0 => UsingIp(p.url, p.parsed)
    case 1 => LongUrl(p.url)
    case 2 => ShortUrl(p.url)
    case 3 => Symbol(p.url)
    case 4 => Redirecting(p.url)
    case 5 => PrefixSuffix(p.domain)
    case 6 => SubDomains(p.url)
    case 7 => Hppts(p.parsed)
    case 8 => Favicon(p.url, p.domain, p.response)
    case 9 => NonStdPort(p.parsed)
    case 10 => HttpsDomainUrl(p.domain)
    case 11 => RequestUrlScore(p.url, p.domain, p.response)
    case 12 => AnchorUrlScore(p.url, p.domain, p.response)
    case 13 => LinksInScriptTagsScore(p.url, p.domain, p.response)
    case 14 => ServerFormHandler(p.url, p.domain, p.response)
    case 15 => InfoEmail(p.response)
    case 16 => WebsiteForwarding(p.response)
    case 17 => StatusBarCust(p.response)
    case 18 => DisableRightClick(p.response)
    case 19 => UsingPopupWindow(p.response)
    case 20 => IframeRedirection(p.response)
    case 21 => LinksPointingToPage(p.response)
  }

  /** The feature vector `extract_all_features` builds: one value per detector, in order. */
  function FeatureVector(p: Page): (v: seq<int>)
    ensures |v| == 22
    ensures forall k :: 0 <= k < 22 ==> Ternary(v[k]) && v[k] == Detector(p, k)
  {
    seq(22, k requires 0 <= k < 22 => Detector(p, k))
  }

  /** The detectors that read only the address give -1 or 1, never 0. */
  lemma AddressDetectorsAreBinary(p: Page)
    ensures var v := FeatureVector(p);
      forall k :: k in {0, 2, 3, 4, 5, 7, 9, 10} ==> v[k] == -1 || v[k] == 1
  {
  }

  /** A page that could not be fetched: `Favicon` gives 0 and every detector from `RequestURL` on
      gives -1. */
  lemma NoDocumentDefaults(p: Page)
    requires p.response.None?
    ensures var v := FeatureVector(p);
      v[8] == 0 && forall k :: 11 <= k < 22 ==> v[k] == -1
  {
  }

  /** The address detectors do not depend on the page. */
  lemma AddressFeaturesIgnorePage(p: Page, q: Page)
    requires p.url == q.url && p.parsed == q.parsed && p.domain == q.domain
    ensures var v, w := FeatureVector(p), FeatureVector(q);
      v[..8] == w[..8] && v[9..11] == w[9..11]
  {
  }

  /** `SafeFeatureExtraction`: the object the runner builds for one address. */
  class SafeFeatureExtraction {
    var features: seq<int>
    var url: string
    var domain: string
    var parsed: Option<PyUrl.SplitUrl>
    var response: Option<Document>

    function State(): Page
      reads this`url, this`parsed, this`domain, this`response
    {
      Page(url, parsed, domain, response)
    }

    /** `__init__(url)`, with `fetched` the outcome of the `session.get`. */
    constructor (url: string, fetched: Option<Document>)
      ensures State() == PageOf(url, fetched)
      ensures features == FeatureVector(PageOf(url, fetched))
    {
      var page := PageOf(url, fetched);
      this.features := [];
      this.url := page.url;
      this.parsed := page.parsed;
      this.domain := page.domain;
      this.response := page.response;
      new;
      assert State() == page;
      ExtractAllFeatures();
      assert features == [] + FeatureVector(page);
    }

    /** `extract_all_features()`: one value per detector, appended in order. */
    method ExtractAllFeatures()
      modifies this`features
      ensures features == old(features) + FeatureVector(State())
    {
      ghost var start := features;
      ghost var v := FeatureVector(State());
      for k := 0 to 22
        invariant features == start + v[..k]
      {
        var value;
        if k == 11 {
          value := RequestURL();
        } else if k == 12 {
          value := AnchorURL();
        } else if k == 13 {
          value := LinksInScriptTags();
        } else {
          value := Detector(State(), k);
        }
        features := features + [value];
        assert v[..k + 1] == v[..k] + [v[k]];
      }
    }

    /** One counting loop over the references of one tag kind. */
    method TallySelfReferencing(refs: seq<string>, i0: nat, success0: nat) returns (i: nat, success: nat)
      ensures i == i0 + |refs|
      ensures success == success0 + SelfRefCount(refs, url, domain)
    {
      i, success := i0, success0;
      for j := 0 to |refs|
        invariant i == i0 + j
        invariant success == success0 + SelfRefCount(refs[..j], url, domain)
      {
        assert refs[..j + 1][..j] == refs[..j];
        if Contains(refs[j], url) || Contains(refs[j], domain) || CountChar(refs[j], '.') == 1 {
          success := success + 1;
        }
        i := i + 1;
      }
      assert refs[..|refs|] == refs;
    }

    /** `RequestURL()` */
    method RequestURL() returns (r: int)
      ensures r == RequestUrlScore(url, domain, response)
    {
      if response.None? {
        return -1;
      }
      var d := response.value;
      var i, success := 0, 0;
      i, success := TallySelfReferencing(d.imgSrcs, i, success);
      i, success := TallySelfReferencing(d.audioSrcs, i, success);
      i, success := TallySelfReferencing(d.embedSrcs, i, success);
      i, success := TallySelfReferencing(d.iframeSrcs, i, success);
      if i == 0 {
        return 0;
      }
      if success * 100 < 22 * i {
        r := 1;
      } else if success * 100 < 61 * i {
        r := 0;
      } else {
        r := -1;
      }
    }

    /** `AnchorURL()` */
    method AnchorURL() returns (r: int)
      ensures r == AnchorUrlScore(url, domain, response)
    {
      if response.None? {
        return -1;
      }
      var hrefs := response.value.anchorHrefs;
      var i, unsafe := 0, 0;
      for j := 0 to |hrefs|
        invariant i == j
        invariant unsafe == UnsafeCount(hrefs[..j], url, domain)
      {
        assert hrefs[..j + 1][..j] == hrefs[..j];
        var a := hrefs[j];
        if '#' in a || Contains(Lower(a), "javascript") || Contains(Lower(a), "mailto")
           || !(Contains(a, url) || Contains(a, domain)) {
          unsafe := unsafe + 1;
        }
        i := i + 1;
      }
      assert hrefs[..|hrefs|] == hrefs;
      if i == 0 {
        return -1;
      }
      if unsafe * 100 < 31 * i {
        r := 1;
      } else if unsafe * 100 < 67 * i {
        r := 0;
      } else {
        r := -1;
      }
    }

    /** `LinksInScriptTags()` */
    method LinksInScriptTags() returns (r: int)
      ensures r == LinksInScriptTagsScore(url, domain, response)
    {
      if response.None? {
        return -1;
      }
      var d := response.value;
      var i, success := 0, 0;
      i, success := TallySelfReferencing(d.linkHrefs, i, success);
      i, success := TallySelfReferencing(d.scriptSrcs, i, success);
      if i == 0 {
        return 0;
      }
      if success * 100 < 17 * i {
        r := 1;
      } else if success * 100 < 81 * i {
        r := 0;
      } else {
        r := -1;
      }
    }
  }
}

/**
  The backend's `/check` logic (backend/app/main.py): the address
  normalisers `extract_domain` and `extract_domain_from_db_url`, the
  blacklist/whitelist entry match, and the two-tier decision. The two
  MongoDB collections are passed in as the sequences of their `url` values.
*/
module Server {
  import opened Wrappers
  import opened StrUtil
  import opened PyUrl

  // ---------------------------------------------------------------------
  // Normalisation

  /** The case-insensitive `startswith(("http://", "https://"))` test */
  predicate HasHttpScheme(u: string)
  {
    StartsWith(Lower(u), "http://") || StartsWith(Lower(u), "https://")
  }

  /** extract_domain prepends `http://` to anything without an http(s) scheme. */
  function WithDefaultScheme(u: string): string
  {
    if HasHttpScheme(u) then u else "http://" + u
  }

  /** `host[:port]` from the `hostname` and `port` properties of a netloc; `None` when reading
      `port` raises. A port of 0 is dropped, as `if parsed.port:` is false for it. */
  function NetlocKey(netloc: string): Option<string>
  {
    var host := match Hostname(netloc) case None => "" case Some(h) => Lower(h);
    match Port(netloc)
    case BadPort => None
    case NoPort => Some(host)
    case PortNumber(n) => Some(if n == 0 then host else host + ":" + DecimalString(n))
  }

  /** The `try` block both normalisers share: the key of `urlparse(u)`, or `u.lower()` when
      urlparse or the `port` property raises. */
  function DomainOf(u: string): string
  {
    match UrlSplit(u)
    case None => Lower(u)
    case Some(p) =>
      match NetlocKey(p.netloc)
      case None => Lower(u)
      case Some(k) => k
  }

  /** `extract_domain(url)` */
  function ExtractDomain(url: string): string
  {
    var u := Strip(url);
    if u == "" then u else DomainOf(WithDefaultScheme(u))
  }

  /** `extract_domain_from_db_url(db_url)` */
  function ExtractDomainFromDbUrl(dbUrl: string): string
  {
    var u := Strip(dbUrl);
    if u == "" then u
    else if HasHttpScheme(u) then DomainOf(u)
    else Lower(u)
  }

  // ---------------------------------------------------------------------
  // What the normaliser reports

  /** An empty or whitespace-only address normalises to the empty key, under both normalisers. */
  lemma BlankHasNoDomain(x: string)
    requires forall i :: 0 <= i < |x| ==> IsPyWhitespace(x[i])
    ensures ExtractDomain(x) == "" && ExtractDomainFromDbUrl(x) == ""
  {
    assert TrimLeft(x) == "";
  }

  /** A stripped, non-empty input with an http(s) scheme goes to urlparse as it is ... */
  lemma ExtractDomainOfSchemed(u: string)
    requires u != "" && Trimmed(u) && HasHttpScheme(u)
    ensures ExtractDomain(u) == DomainOf(u)
  {
    StripTrimmed(u);
  }

  /** ... and one without gets `http://` in front. */
  lemma ExtractDomainOfBare(u: string)
    requires u != "" && Trimmed(u) && !HasHttpScheme(u)
    ensures ExtractDomain(u) == DomainOf("http://" + u)
  {
    StripTrimmed(u);
  }

  /** The host part of a netloc's key is the raw host, lower-cased throughout (`hostname` keeps
      a `%` zone's case, the later `.lower()` does not). */
  lemma ReportedHost(netloc: string)
    ensures (match Hostname(netloc) case None => "" case Some(h) => Lower(h)) == Lower(HostAndPortText(netloc).0)
  {
    var h := HostAndPortText(netloc).0;
    if h != "" {
      var z := IndexOf(h, '%');
      if z >= 0 {
        assert h == h[..z] + h[z..];
        LowerConcat(Lower(h[..z]), h[z..]);
        LowerConcat(h[..z], h[z..]);
        LowerIdempotent(h[..z]);
      } else {
        LowerIdempotent(h);
      }
    }
  }

  /** `host`, or `host:port` for a non-zero port: the shape of a key. */
  function KeyText(host: string, port: nat): string
  {
    if port == 0 then host else host + ":" + DecimalString(port)
  }

  /** The port a key keeps: the number, or 0 when absent. */
  function PortOrZero(p: PortValue): nat
  {
    match p
    case PortNumber(n) => n
    case _ => 0
  }

  /** A netloc's key is the lower-cased raw host with the port, unless the port cannot be read. */
  lemma NetlocKeyIs(netloc: string)
    ensures NetlocKey(netloc).None? <==> Port(netloc) == BadPort
    ensures NetlocKey(netloc).Some? ==>
      NetlocKey(netloc).value == KeyText(Lower(HostAndPortText(netloc).0), PortOrZero(Port(netloc)))
  {
    ReportedHost(netloc);
  }

  lemma KeyLower(host: string, port: nat)
    requires Lower(host) == host
    ensures Lower(KeyText(host, port)) == KeyText(host, port)
  {
    if port != 0 {
      LowerNoUpper(DecimalString(port));
      LowerConcat(host + ":", DecimalString(port));
      LowerConcat(host, ":");
    }
  }

  /** A character that may stand in a plain (unbracketed) host urlsplit has cut out. */
  predicate IsHostChar(c: char)
  {
    !IsNetlocDelimiter(c) && !IsUnsafeByte(c) && c != '@' && c != ':' && c != '[' && c != ']'
  }

  predicate PlainHost(h: string)
  {
    forall i :: 0 <= i < |h| ==> IsHostChar(h[i])
  }

  /** A host as the normaliser reports it: plain characters, already lower-case. */
  predicate CanonicalHost(h: string)
  {
    PlainHost(h) && Lower(h) == h
  }

  lemma HostCharLower(c: char)
    ensures IsHostChar(LowerChar(c)) == IsHostChar(c)
  {
  }

  lemma NoSlashNoScheme(k: string)
    requires forall i :: 0 <= i < |k| ==> !IsNetlocDelimiter(k[i])
    ensures !HasHttpScheme(k)
  {
    assert '/' !in k;
    CharInLower(k, '/');
    if HasHttpScheme(k) {
      SchemeHasSlash(Lower(k));
    }
  }

  lemma SchemeHasSlash(l: string)
    requires StartsWith(l, "http://") || StartsWith(l, "https://")
    ensures '/' in l
  {
    if StartsWith(l, "http://") {
      assert l[5] == l[..7][5];
    } else {
      assert l[6] == l[..8][6];
    }
  }

  lemma KeyChars(host: string, port: nat)
    requires PlainHost(host)
    ensures var k := KeyText(host, port);
      forall i :: 0 <= i < |k| ==> !IsNetlocDelimiter(k[i]) && !IsUnsafeByte(k[i]) && k[i] != '[' && k[i] != ']'
  {
    if port != 0 {
      var d := DecimalString(port);
      var k := host + ":" + d;
      forall i | 0 <= i < |k|
        ensures !IsNetlocDelimiter(k[i]) && !IsUnsafeByte(k[i]) && k[i] != '[' && k[i] != ']'
      {
        if i > |host| {
          assert k[i] == d[i - |host| - 1];
        }
      }
    }
  }

  lemma NetlocKeyOfKey(host: string, port: nat)
    requires PlainHost(host) && port <= 65535
    ensures NetlocKey(KeyText(host, port)) == Some(KeyText(Lower(host), port))
  {
    var k := KeyText(host, port);
    var portText := if port == 0 then "" else DecimalString(port);
    HostAndPortOfPlain(host, portText);
    assert HostAndPortText(k) == (host, portText);
    if port != 0 {
      DecimalRoundTrip(port);
    }
    assert Port(k) == (if port == 0 then NoPort else PortNumber(port));
    NetlocKeyIs(k);
  }

  lemma SchemeLetters(scheme: string)
    requires Lower(scheme) == "http" || Lower(scheme) == "https"
    ensures |scheme| > 0 && IsAsciiLetter(scheme[0])
    ensures forall k :: 0 <= k < |scheme| ==> IsSchemeChar(scheme[k])
  {
    forall k | 0 <= k < |scheme| ensures IsAsciiLetter(scheme[k]) {
      assert 'a' <= Lower(scheme)[k] <= 'z';
    }
  }

  lemma SchemePrefix(url: string, scheme: string, tail: string)
    requires url == scheme + "://" + tail
    requires Lower(scheme) == "http" || Lower(scheme) == "https"
    ensures HasHttpScheme(url)
  {
    LowerConcat(scheme, "://" + tail);
    LowerNoUpper("://");
    LowerConcat("://", tail);
    var l := Lower(url);
    assert l == Lower(scheme) + "://" + Lower(tail);
    assert l[..|scheme| + 3] == Lower(scheme) + "://";
  }

  /** urlparse and the key of an address `scheme://host[:port]path` with a plain host and a
      readable port. */
  lemma DomainOfAddress(url: string, scheme: string, host: string, port: nat, path: string)
    requires url == scheme + "://" + KeyText(host, port) + path
    requires |scheme| > 0 && IsAsciiLetter(scheme[0])
    requires forall k :: 0 <= k < |scheme| ==> IsSchemeChar(scheme[k])
    requires PlainHost(host) && port <= 65535
    requires path == "" || IsNetlocDelimiter(path[0])
    requires forall c :: c in path ==> !IsUnsafeByte(c)
    ensures DomainOf(url) == KeyText(Lower(host), port)
  {
    var k := KeyText(host, port);
    KeyChars(host, port);
    assert forall i :: 0 <= i < |path| ==> path[i] in path;
    UrlSplitOfParts(url, scheme, k, path);
    NetlocKeyOfKey(host, port);
  }

  /** An address `scheme://host[:port]path` with an http(s) scheme in any case, a plain host and
      a readable port normalises to the lower-cased host with the port (dropped when 0). */
  lemma AddressKey(url: string, scheme: string, host: string, port: nat, path: string)
    requires url == scheme + "://" + KeyText(host, port) + path
    requires Lower(scheme) == "http" || Lower(scheme) == "https"
    requires PlainHost(host) && port <= 65535
    requires path == "" || IsNetlocDelimiter(path[0])
    requires forall c :: c in path ==> !IsUnsafeByte(c)
    requires Trimmed(url)
    ensures ExtractDomain(url) == KeyText(Lower(host), port)
  {
    SchemePrefix(url, scheme, KeyText(host, port) + path);
    SchemeLetters(scheme);
    ExtractDomainOfSchemed(url);
    DomainOfAddress(url, scheme, host, port, path);
  }

  /** Every key the normaliser can report is its own normal form. */
  lemma KeyIsFixed(host: string, port: nat)
    requires CanonicalHost(host) && port <= 65535
    requires Trimmed(KeyText(host, port))
    ensures ExtractDomain(KeyText(host, port)) == KeyText(host, port)
  {
    var k := KeyText(host, port);
    if k != "" {
      KeyChars(host, port);
      NoSlashNoScheme(k);
      ExtractDomainOfBare(k);
      DomainOfHttpKey(host, port);
    }
  }

  /** `http://` in front of a key with a plain host is read back as that key, lower-cased. */
  lemma DomainOfHttpKey(host: string, port: nat)
    requires PlainHost(host) && port <= 65535
    ensures DomainOf("http://" + KeyText(host, port)) == KeyText(Lower(host), port)
  {
    var url := "http://" + KeyText(host, port);
    assert url == "http" + "://" + KeyText(host, port) + "";
    DomainOfAddress(url, "http", host, port, "");
  }

  /** The raw host of a netloc without delimiters, line breaks or brackets is canonical once
      lower-cased. */
  lemma PlainNetlocHost(netloc: string)
    requires forall k :: 0 <= k < |netloc| ==> !IsNetlocDelimiter(netloc[k]) && !IsUnsafeByte(netloc[k])
    requires '[' !in netloc && ']' !in netloc
    ensures CanonicalHost(Lower(HostAndPortText(netloc).0))
  {
    var hi := HostInfo(netloc);
    IndexOfIs(hi, '[', -1);
    var raw := BeforeFirst(hi, ':');
    assert HostAndPortText(netloc).0 == raw;
    forall i | 0 <= i < |raw| ensures IsHostChar(raw[i]) {
      assert raw[i] in hi;
      assert raw[i] in netloc;
    }
    var host := Lower(raw);
    forall i | 0 <= i < |host| ensures IsHostChar(host[i]) {
      HostCharLower(raw[i]);
    }
    LowerIdempotent(raw);
  }

  /** When urlsplit succeeds on a netloc without `[` and its port can be read, the normaliser
      reports the lower-cased raw host and the port, and that host is canonical. */
  lemma DomainOfPlain(w: string)
    requires UrlSplit(w).Some?
    requires '[' !in UrlSplit(w).value.netloc
    requires Port(UrlSplit(w).value.netloc) != BadPort
    ensures var netloc := UrlSplit(w).value.netloc;
      var host := Lower(HostAndPortText(netloc).0);
      CanonicalHost(host) && DomainOf(w) == KeyText(host, PortOrZero(Port(netloc)))
  {
    var netloc := UrlSplit(w).value.netloc;
    UrlSplitNetloc(w);
    PlainNetlocKey(netloc);
    DomainOfSplit(w);
  }

  lemma PlainNetlocKey(netloc: string)
    requires forall k :: 0 <= k < |netloc| ==> !IsNetlocDelimiter(netloc[k]) && !IsUnsafeByte(netloc[k])
    requires '[' !in netloc && ']' !in netloc
    requires Port(netloc) != BadPort
    ensures var host := Lower(HostAndPortText(netloc).0);
      CanonicalHost(host) && NetlocKey(netloc) == Some(KeyText(host, PortOrZero(Port(netloc))))
  {
    PlainNetlocHost(netloc);
    NetlocKeyIs(netloc);
  }

  /** DomainOf of an address urlsplit accepts is its netloc's key, when there is one. */
  lemma DomainOfSplit(w: string)
    requires UrlSplit(w).Some?
    ensures var k := NetlocKey(UrlSplit(w).value.netloc); k.Some? ==> DomainOf(w) == k.value
  {
  }

  /** Lower-casing a netloc does not change its key. */
  lemma NetlocKeyLower(netloc: string)
    ensures NetlocKey(Lower(netloc)) == NetlocKey(netloc)
  {
    PortLower(netloc);
    HostAndPortTextLower(netloc);
    LowerIdempotent(HostAndPortText(netloc).0);
    NetlocKeyIs(netloc);
    NetlocKeyIs(Lower(netloc));
  }

  /** Lower-casing an address does not change what DomainOf reports for it. */
  lemma DomainOfLower(w: string)
    ensures DomainOf(Lower(w)) == DomainOf(w)
  {
    UrlSplitLower(w);
    LowerIdempotent(w);
    if UrlSplit(w).Some? {
      NetlocKeyLower(UrlSplit(w).value.netloc);
    }
  }

  /** Upper- and lower-case spellings of an address normalise alike. */
  lemma ExtractDomainIgnoresCase(x: string)
    ensures ExtractDomain(Lower(x)) == ExtractDomain(x)
  {
    var u := Strip(x);
    StripLower(x);
    if u != "" {
      WithDefaultSchemeLower(u);
      DomainOfLower(WithDefaultScheme(u));
    }
  }

  lemma WithDefaultSchemeLower(u: string)
    ensures WithDefaultScheme(Lower(u)) == Lower(WithDefaultScheme(u))
  {
    LowerIdempotent(u);
    assert HasHttpScheme(Lower(u)) == HasHttpScheme(u);
    if !HasHttpScheme(u) {
      LowerConcat("http://", u);
      LowerNoUpper("http://");
    }
  }

  /** The normal form never holds an upper-case ASCII letter. */
  lemma ExtractDomainIsLowerCase(x: string)
    ensures Lower(ExtractDomain(x)) == ExtractDomain(x)
  {
    var u := Strip(x);
    if u != "" {
      var w := WithDefaultScheme(u);
      LowerIdempotent(w);
      if UrlSplit(w).Some? {
        var netloc := UrlSplit(w).value.netloc;
        NetlocKeyIs(netloc);
        LowerIdempotent(HostAndPortText(netloc).0);
        KeyLower(Lower(HostAndPortText(netloc).0), PortOrZero(Port(netloc)));
      }
    }
  }

  /** urlsplit failed, or the port could not be read: the normaliser falls back to `u.lower()`. */
  predicate FallsBack(w: string)
  {
    UrlSplit(w).None? || Port(UrlSplit(w).value.netloc) == BadPort
  }

  /** The address extract_domain hands to urlparse is stripped and has an http(s) scheme. */
  lemma DefaultSchemeFacts(x: string)
    requires Strip(x) != ""
    ensures var w := WithDefaultScheme(Strip(x)); w != "" && Trimmed(w) && HasHttpScheme(w)
  {
    StripTrimmed(x);
    var u := Strip(x);
    if !HasHttpScheme(u) {
      DefaultSchemeAdded(u);
    }
  }

  lemma DefaultSchemeAdded(u: string)
    requires u != "" && Trimmed(u)
    ensures Trimmed("http://" + u) && HasHttpScheme("http://" + u)
  {
    var w := "http://" + u;
    HttpPrefix(u);
    assert w[|w| - 1] == u[|u| - 1];
  }

  lemma HttpPrefix(u: string)
    ensures HasHttpScheme("http://" + u)
  {
    var w := "http://" + u;
    LowerNoUpper("http://");
    LowerConcat("http://", u);
    assert Lower(w)[..7] == "http://";
  }

  /** A lower-cased address with an http(s) scheme reaches urlparse unchanged. */
  lemma LowerSchemedGoesStraight(w: string)
    requires w != "" && Trimmed(w) && HasHttpScheme(w)
    ensures ExtractDomain(Lower(w)) == DomainOf(Lower(w))
  {
    StripTrimmed(w);
    StripLower(w);
    StripTrimmed(Lower(w));
    LowerIdempotent(w);
    ExtractDomainOfSchemed(Lower(w));
  }

  /** A lower-cased fallback is normalised to itself. */
  lemma FallbackIsFixed(x: string)
    requires Strip(x) != ""
    requires FallsBack(WithDefaultScheme(Strip(x)))
    ensures ExtractDomain(x) == Lower(WithDefaultScheme(Strip(x)))
    ensures ExtractDomain(ExtractDomain(x)) == ExtractDomain(x)
  {
    var w := WithDefaultScheme(Strip(x));
    if UrlSplit(w).Some? {
      NetlocKeyIs(UrlSplit(w).value.netloc);
    }
    assert ExtractDomain(x) == Lower(w);
    DefaultSchemeFacts(x);
    LowerSchemedGoesStraight(w);
    DomainOfLower(w);
  }

  /** Whether the netloc urlsplit finds in the stripped address, after the default scheme is put
      in front, holds a `[`. */
  predicate BracketInNetloc(x: string)
  {
    var u := Strip(x);
    u != "" && UrlSplit(WithDefaultScheme(u)).Some? && '[' in UrlSplit(WithDefaultScheme(u)).value.netloc
  }

  /** Normalising twice gives what normalising once gives, for an address without `[` in its
      netloc (a `[` in the path, query or fragment is allowed) whose normal form has no whitespace
      at its ends. */
  lemma ExtractDomainIdempotent(x: string)
    requires !BracketInNetloc(x)
    requires Trimmed(ExtractDomain(x))
    ensures ExtractDomain(ExtractDomain(x)) == ExtractDomain(x)
  {
    var u := Strip(x);
    if u != "" {
      var w := WithDefaultScheme(u);
      if FallsBack(w) {
        FallbackIsFixed(x);
      } else {
        var netloc := UrlSplit(w).value.netloc;
        DomainOfPlain(w);
        KeyIsFixed(Lower(HostAndPortText(netloc).0), PortOrZero(Port(netloc)));
      }
    }
  }

  /** A `[` after the netloc does not break idempotence: `http://host/[...` gives `host`, which
      normalises to itself. */
  lemma BracketInPathIsFixed(url: string, host: string, path: string)
    requires url == "http://" + host + path
    requires CanonicalHost(host) && Trimmed(host)
    requires |path| > 0 && path[0] == '/' && '[' in path
    requires forall c :: c in path ==> !IsUnsafeByte(c)
    requires Trimmed(url)
    ensures ExtractDomain(url) == host
    ensures ExtractDomain(ExtractDomain(url)) == host
  {
    assert url == "http" + "://" + KeyText(host, 0) + path;
    LowerNoUpper("http");
    AddressKey(url, "http", host, 0, path);
    KeyIsFixed(host, 0);
  }

  /** An address without any `[` has none in its netloc either. */
  lemma NoBracketInNetloc(x: string)
    requires '[' !in x
    ensures !BracketInNetloc(x)
  {
    var u := Strip(x);
    if u != "" && UrlSplit(WithDefaultScheme(u)).Some? {
      StripChars(x);
      NoBracketAdded(u);
      UrlSplitNetloc(WithDefaultScheme(u));
    }
  }

  lemma NoBracketAdded(u: string)
    requires '[' !in u
    ensures '[' !in WithDefaultScheme(u)
  {
  }

  /** The text between brackets is reported as the host, without its brackets. */
  lemma BracketsDropped(url: string, h: string)
    requires url == "http://[" + h + "]"
    requires forall i :: 0 <= i < |h| ==> !IsNetlocDelimiter(h[i]) && !IsUnsafeByte(h[i])
    requires '@' !in h && '[' !in h && ']' !in h
    ensures ExtractDomain(url) == Lower(h)
  {
    var n := "[" + h + "]";
    BracketedChars(h);
    assert url == "http://" + n;
    DefaultSchemeAdded(n);
    ExtractDomainOfSchemed(url);
    DomainOfBracketed(url, n, h);
  }

  lemma DomainOfBracketed(url: string, n: string, h: string)
    requires n == "[" + h + "]" && url == "http://" + n
    requires forall i :: 0 <= i < |n| ==> !IsNetlocDelimiter(n[i]) && !IsUnsafeByte(n[i])
    requires '@' !in h && '[' !in h && ']' !in h
    ensures DomainOf(url) == Lower(h)
  {
    BracketedHost(n, h);
    NoPortKey(n);
    assert url == "http://" + n + "";
    UrlSplitOfHttp(url, n, "");
  }

  /** A netloc without port text is keyed by its lower-cased raw host alone. */
  lemma NoPortKey(n: string)
    requires HostAndPortText(n).1 == ""
    ensures NetlocKey(n) == Some(Lower(HostAndPortText(n).0))
  {
    NetlocKeyIs(n);
  }

  lemma BracketedHost(n: string, h: string)
    requires n == "[" + h + "]"
    requires '@' !in h && '[' !in h && ']' !in h
    ensures BracketedNetlocOk(n) && '[' in n && ']' in n
    ensures HostAndPortText(n).0 == h && HostAndPortText(n).1 == ""
  {
    OpeningBracket(n, h);
    ClosingBracket(n[1..], h);
    BracketedOk(n);
    BracketedHostText(n);
    BracketedPortText(n);
  }

  lemma BracketedOk(n: string)
    requires HostInfo(n) == n && IndexOf(n, '[') == 0 && |n| > 0
    requires AfterFirst(n[1..], ']') == ""
    ensures BracketedNetlocOk(n)
  {
  }

  lemma BracketedHostText(n: string)
    requires HostInfo(n) == n && IndexOf(n, '[') == 0 && |n| > 0
    ensures HostAndPortText(n).0 == BeforeFirst(n[1..], ']')
  {
  }

  lemma BracketedPortText(n: string)
    requires HostInfo(n) == n && IndexOf(n, '[') == 0 && |n| > 0
    requires AfterFirst(n[1..], ']') == ""
    ensures HostAndPortText(n).1 == ""
  {
  }

  lemma OpeningBracket(n: string, h: string)
    requires n == "[" + h + "]"
    requires '@' !in h
    ensures HostInfo(n) == n && IndexOf(n, '[') == 0 && n[1..] == h + "]"
    ensures '[' in n && ']' in n
  {
    assert n[0] == '[' && n[|n| - 1] == ']';
    LastIndexOfAbsent(n, '@');
    IndexOfIs(n, '[', 0);
  }

  lemma ClosingBracket(t: string, h: string)
    requires t == h + "]" && ']' !in h
    ensures BeforeFirst(t, ']') == h && AfterFirst(t, ']') == ""
  {
    IndexOfIs(t, ']', |h|);
    assert t[..|h|] == h;
  }

  lemma BracketedChars(h: string)
    requires forall i :: 0 <= i < |h| ==> !IsNetlocDelimiter(h[i]) && !IsUnsafeByte(h[i])
    ensures var n := "[" + h + "]";
      forall i :: 0 <= i < |n| ==> !IsNetlocDelimiter(n[i]) && !IsUnsafeByte(n[i])
    ensures Trimmed("[" + h + "]")
  {
    var n := "[" + h + "]";
    forall i | 0 <= i < |n| ensures !IsNetlocDelimiter(n[i]) && !IsUnsafeByte(n[i]) {
      if 0 < i < |n| - 1 {
        assert n[i] == h[i - 1];
      }
    }
  }

  /** A key whose text after its first `:` is not a number cannot be read back: its port raises,
      and the normaliser falls back to the address with `http://` in front. */
  lemma UnreadablePortFallsBack(k: string, a: string, b: string)
    requires k == a + ":" + b && ':' !in a && b != "" && !AllDigits(b)
    requires forall i :: 0 <= i < |k| ==> !IsNetlocDelimiter(k[i]) && !IsUnsafeByte(k[i])
    requires '@' !in k && '[' !in k && ']' !in k
    requires Lower(k) == k && Trimmed(k)
    ensures ExtractDomain(k) == "http://" + k
  {
    NoSlashNoScheme(k);
    ExtractDomainOfBare(k);
    UnreadablePort(k, a, b);
    HttpLower(k);
    DomainOfUnreadable("http://" + k, k);
  }

  /** An address whose netloc has no readable key falls back to the lower-cased address. */
  lemma DomainOfUnreadable(url: string, k: string)
    requires url == "http://" + k
    requires forall i :: 0 <= i < |k| ==> !IsNetlocDelimiter(k[i]) && !IsUnsafeByte(k[i])
    requires '[' !in k && ']' !in k
    requires NetlocKey(k) == None
    ensures DomainOf(url) == Lower(url)
  {
    assert url == "http://" + k + "";
    UrlSplitOfHttp(url, k, "");
  }

  lemma UnreadablePort(k: string, a: string, b: string)
    requires k == a + ":" + b && ':' !in a && b != "" && !AllDigits(b)
    requires '@' !in k && '[' !in k
    ensures NetlocKey(k) == None
  {
    LastIndexOfAbsent(k, '@');
    IndexOfIs(k, '[', -1);
    IndexOfIs(k, ':', |a|);
    assert k[|a| + 1..] == b;
    assert Port(k) == BadPort;
    NetlocKeyIs(k);
  }

  lemma HttpLower(k: string)
    requires Lower(k) == k
    ensures Lower("http://" + k) == "http://" + k
  {
    LowerNoUpper("http://");
    LowerConcat("http://", k);
  }

  /** Normalising is not idempotent in general: the IPv6 literal `[::1]`, which `urlsplit` accepts,
      loses its brackets, and the bare `::1` then reads as host `""` with the unreadable port `:1`. */
  lemma BracketedHostNotIdempotent(url: string, h: string)
    requires h == "::1" && url == "http://[" + h + "]"
    ensures ExtractDomain(url) == h
    ensures ExtractDomain(ExtractDomain(url)) == "http://" + h != h
  {
    LoopbackText(h);
    BracketsDropped(url, h);
    UnreadablePortFallsBack(h, "", ":1");
  }

  /** The character facts about `::1` the two normalisations rely on. */
  lemma LoopbackText(h: string)
    requires h == "::1"
    ensures h == "" + ":" + ":1" && !AllDigits(":1")
    ensures forall i :: 0 <= i < |h| ==> !IsNetlocDelimiter(h[i]) && !IsUnsafeByte(h[i])
    ensures '@' !in h && '[' !in h && ']' !in h
    ensures Lower(h) == h && Trimmed(h)
  {
    assert !IsDigit(":1"[0]);
    assert forall i :: 0 <= i < |h| ==> h[i] in {':', '1'};
    LowerNoUpper(h);
  }

  /** Nor for a host preceded by a space: the space survives once and is stripped the next time. */
  lemma LeadingSpaceNotIdempotent(url: string, host: string)
    requires url == "http:// " + host
    requires CanonicalHost(host) && host != "" && Trimmed(host)
    ensures ExtractDomain(url) == " " + host
    ensures ExtractDomain(ExtractDomain(url)) == host
  {
    var spaced := " " + host;
    SpacedKey(url, host);
    SpacedStrip(host);
    StripAgain(spaced);
    KeyIsFixed(host, 0);
  }

  lemma SpacedKey(url: string, host: string)
    requires url == "http:// " + host
    requires CanonicalHost(host) && host != "" && Trimmed(host)
    ensures ExtractDomain(url) == " " + host
  {
    SpacedAddress(url, host);
    ExtractDomainOfSchemed(url);
    DomainOfHttpKey(" " + host, 0);
    SpacedLower(host);
  }

  lemma SpacedLower(host: string)
    requires Lower(host) == host
    ensures Lower(" " + host) == " " + host
  {
    LowerConcat(" ", host);
  }

  lemma SpacedAddress(url: string, host: string)
    requires url == "http:// " + host
    requires CanonicalHost(host) && host != "" && Trimmed(host)
    ensures PlainHost(" " + host) && url == "http://" + KeyText(" " + host, 0)
    ensures url != "" && Trimmed(url) && HasHttpScheme(url)
  {
    var spaced := " " + host;
    forall i | 0 <= i < |spaced| ensures IsHostChar(spaced[i]) {
      if i > 0 {
        assert spaced[i] == host[i - 1];
      }
    }
    assert url[|url| - 1] == host[|host| - 1];
    HttpPrefix(spaced);
  }

  lemma SpacedStrip(host: string)
    requires host != "" && Trimmed(host)
    ensures Strip(" " + host) == host
  {
    StripTrimmed(host);
    assert TrimLeft(" " + host) == host;
  }

  /** extract_domain only looks at the stripped input. */
  lemma StripAgain(x: string)
    ensures ExtractDomain(x) == ExtractDomain(Strip(x))
  {
    StripTrimmed(x);
    StripTrimmed(Strip(x));
  }

  /** extract_domain_from_db_url agrees with extract_domain on stored addresses with an http(s)
      scheme, and lower-cases every other stored value verbatim. */
  lemma DbUrlNormalisation(dbUrl: string)
    ensures HasHttpScheme(Strip(dbUrl)) ==> ExtractDomainFromDbUrl(dbUrl) == ExtractDomain(dbUrl)
    ensures !HasHttpScheme(Strip(dbUrl)) ==> ExtractDomainFromDbUrl(dbUrl) == Lower(Strip(dbUrl))
  {
  }

  // ---------------------------------------------------------------------
  // Matching a stored entry

  /** `(/.*)?$` under PCRE rules: `.` stops at a line feed, and `$` also matches just before a
      final line feed. */
  predicate TailMatches(t: string)
  {
    var body := if |t| > 0 && t[|t| - 1] == '\n' then t[..|t| - 1] else t;
    body == "" || (body[0] == '/' && '\n' !in body)
  }

  /** The pattern with one of its two scheme alternatives fixed, matched without regard to case. */
  predicate MatchesWithScheme(entry: string, scheme: string, key: string)
  {
    |scheme| + |key| <= |entry|
    && Lower(entry[..|scheme|]) == scheme
    && Lower(entry[|scheme|..|scheme| + |key|]) == Lower(key)
    && TailMatches(entry[|scheme| + |key|..])
  }

  /** `{"$regex": "^https?://KEY(/.*)?$", "$options": "i"}`, the key read literally. */
  predicate PatternMatches(entry: string, key: string)
  {
    MatchesWithScheme(entry, "http://", key) || MatchesWithScheme(entry, "https://", key)
  }

  /** One `$or` query: the exact value, or the pattern. */
  predicate EntryMatches(entry: string, key: string)
  {
    entry == key || PatternMatches(entry, key)
  }

  /** `find_one(...) is not None` on a collection holding these `url` values. */
  predicate InStore(store: seq<string>, key: string)
  {
    exists i | 0 <= i < |store| :: EntryMatches(store[i], key)
  }

  /** A stored address `scheme://host path` matches the key exactly when its host spells the key,
      case aside; a longer host (such as a sub-domain or a look-alike) never does. */
  lemma {:induction false} StoredAddressMatches(scheme: string, host: string, path: string, key: string)
    requires Lower(scheme) == "http://" || Lower(scheme) == "https://"
    requires '/' !in host && '\n' !in host && '/' !in key
    requires path == "" || (path[0] == '/' && '\n' !in path)
    ensures PatternMatches(scheme + host + path, key) <==> Lower(host) == Lower(key)
  {
    var e := scheme + host + path;
    var other := if Lower(scheme) == "http://" then "https://" else "http://";
    assert Lower(e[..|scheme|]) == Lower(scheme) by {
      assert e[..|scheme|] == scheme;
    }
    assert !MatchesWithScheme(e, other, key) by {
      if |other| <= |e| {
        LowerSlice(e, 0, |other|);
        LowerSlice(e, 0, |scheme|);
        assert Lower(e)[4] == Lower(scheme)[4];
        assert Lower(e[..|other|])[4] == Lower(e)[4];
      }
    }
    var s := |scheme|;
    if Lower(host) == Lower(key) {
      assert |host| == |key|;
      assert e[s..s + |key|] == host;
      assert e[s + |key|..] == path;
      assert MatchesWithScheme(e, Lower(scheme), key);
    }
    if |key| < |host| {
      ShorterKeyFails(scheme, host, path, key, Lower(scheme));
    } else if |key| > |host| {
      LongerKeyFails(scheme, host, path, key, Lower(scheme));
    } else if MatchesWithScheme(e, Lower(scheme), key) {
      assert e[s..s + |key|] == host;
    }
  }

  /** A key shorter than the stored host leaves host text where the pattern wants `/` or the end. */
  lemma ShorterKeyFails(scheme: string, host: string, path: string, key: string, ls: string)
    requires |ls| == |scheme| && |key| < |host|
    requires '/' !in host && '\n' !in host
    ensures !MatchesWithScheme(scheme + host + path, ls, key)
  {
    var e := scheme + host + path;
    var t := e[|ls| + |key|..];
    assert t == host[|key|..] + path;
    assert t[0] == host[|key|];
    assert host[|key|] in host;
  }

  /** A key longer than the stored host would have to spell the `/` that starts the path. */
  lemma LongerKeyFails(scheme: string, host: string, path: string, key: string, ls: string)
    requires |ls| == |scheme| && |key| > |host|
    requires '/' !in key
    requires path == "" || path[0] == '/'
    ensures !MatchesWithScheme(scheme + host + path, ls, key)
  {
    var e := scheme + host + path;
    if |ls| + |key| <= |e| {
      var seg := e[|ls|..|ls| + |key|];
      assert seg[|host|] == path[0];
      assert Lower(seg)[|host|] == '/';
      assert key[|host|] in key;
      assert Lower(key)[|host|] == LowerChar(key[|host|]);
    }
  }

  // ---------------------------------------------------------------------
  // The /check endpoint

  /** The JSON body of a `/check` answer; `elapsed_ms` is not modelled. */
  datatype CheckResponse = CheckResponse(
    url: string, normalized: string, inBlacklist: bool, inWhitelist: bool, result: string, source: string)

  /** `check(url)` against the blacklist and whitelist values; `Err(400)` is the "Missing url" answer. */
  function Check(url: string, blacklist: seq<string>, whitelist: seq<string>): (r: Result<CheckResponse, nat>)
    ensures r.Err? <==> url == ""
    ensures r.Err? ==> r.error == 400
    ensures r.Ok? ==> r.value.url == url && r.value.normalized == ExtractDomain(url)
  {
    if url == "" then Err(400)
    else
      var key := ExtractDomain(url);
      var inBlack := InStore(blacklist, key);
      var inWhite := InStore(whitelist, key);
      var (result, source) :=
        if inBlack then ("phishing", "blacklist")
        else if inWhite then ("safe", "whitelist")
        else ("unknown", "none");
      Ok(CheckResponse(url, key, inBlack, inWhite, result, source))
  }

  /** The verdict: phishing exactly when blacklisted, whatever the whitelist says; safe exactly when
      only whitelisted; unknown otherwise; and the source names the list that decided. */
  lemma CheckVerdict(url: string, blacklist: seq<string>, whitelist: seq<string>)
    requires url != ""
    ensures var r := Check(url, blacklist, whitelist).value;
      var key := ExtractDomain(url);
      r.inBlacklist == InStore(blacklist, key) && r.inWhitelist == InStore(whitelist, key)
      && (r.result == "phishing" <==> InStore(blacklist, key))
      && (r.result == "safe" <==> !InStore(blacklist, key) && InStore(whitelist, key))
      && (r.result == "unknown" <==> !InStore(blacklist, key) && !InStore(whitelist, key))
      && (r.source == "blacklist" <==> r.result == "phishing")
      && (r.source == "whitelist" <==> r.result == "safe")
      && (r.source == "none" <==> r.result == "unknown")
  {
  }

  /** A blacklisted bare domain is reported as phishing, even when it is also whitelisted. */
  lemma StoredDomainIsFound(url: string, blacklist: seq<string>, whitelist: seq<string>, i: nat)
    requires url != "" && i < |blacklist| && blacklist[i] == ExtractDomain(url)
    ensures Check(url, blacklist, whitelist).value.result == "phishing"
  {
    assert EntryMatches(blacklist[i], ExtractDomain(url));
  }

  /** A blacklisted full address whose host is the normalised key is found too. */
  lemma StoredAddressIsFound(url: string, blacklist: seq<string>, whitelist: seq<string>, i: nat,
                             scheme: string, host: string, path: string)
    requires url != "" && i < |blacklist| && blacklist[i] == scheme + host + path
    requires Lower(scheme) == "http://" || Lower(scheme) == "https://"
    requires '/' !in host && '\n' !in host && '/' !in ExtractDomain(url)
    requires path == "" || (path[0] == '/' && '\n' !in path)
    requires Lower(host) == ExtractDomain(url)
    ensures Check(url, blacklist, whitelist).value.result == "phishing"
  {
    ExtractDomainIsLowerCase(url);
    StoredAddressMatches(scheme, host, path, ExtractDomain(url));
    assert EntryMatches(blacklist[i], ExtractDomain(url));
  }

  /** Checking an address and its lower-cased spelling gives the same answer. */
  lemma CheckIgnoresCase(url: string, blacklist: seq<string>, whitelist: seq<string>)
    requires url != ""
    ensures Lower(url) != ""
    ensures var r, l := Check(url, blacklist, whitelist).value, Check(Lower(url), blacklist, whitelist).value;
      l.normalized == r.normalized && l.inBlacklist == r.inBlacklist && l.inWhitelist == r.inWhitelist
      && l.result == r.result && l.source == r.source
  {
    ExtractDomainIgnoresCase(url);
  }
}

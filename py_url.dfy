/**
  The part of Python 3.12's `urllib.parse` that the backend relies on:
  `urlsplit` (which `urlparse` calls first) down to the scheme and the
  authority ("netloc"), and the `hostname` and `port` properties of its
  result. A `None` result stands for the `ValueError` urlsplit raises.
*/
module PyUrl {
  import opened Wrappers
  import opened StrUtil

  /** What urlsplit yields: the lower-cased scheme, the netloc, and everything after the netloc. */
  datatype SplitUrl = SplitUrl(scheme: string, netloc: string, rest: string)

  /** `_WHATWG_C0_CONTROL_OR_SPACE`: U+0000 to U+0020, stripped from the front of the input. */
  predicate IsC0OrSpace(c: char)
  {
    c <= ' '
  }

  function LStripC0(s: string): (r: string)
    ensures r == "" || !IsC0OrSpace(r[0])
    ensures |r| <= |s| && r == s[|s| - |r|..]
  {
    if |s| > 0 && IsC0OrSpace(s[0]) then LStripC0(s[1..]) else s
  }

  /** `_UNSAFE_URL_BYTES_TO_REMOVE`: tab, carriage return and line feed, removed everywhere. */
  predicate IsUnsafeByte(c: char)
  {
    c == '\t' || c == '\r' || c == '\n'
  }

  function RemoveUnsafe(s: string): (r: string)
    ensures forall i :: 0 <= i < |r| ==> !IsUnsafeByte(r[i]) && r[i] in s
  {
    if |s| == 0 then ""
    else (if IsUnsafeByte(s[0]) then "" else [s[0]]) + RemoveUnsafe(s[1..])
  }

  predicate IsAsciiLetter(c: char)
  {
    'a' <= c <= 'z' || 'A' <= c <= 'Z'
  }

  /** `scheme_chars`: ASCII letters, digits, `+`, `-` and `.` */
  predicate IsSchemeChar(c: char)
  {
    IsAsciiLetter(c) || IsDigit(c) || c == '+' || c == '-' || c == '.'
  }

  /** The scheme test of urlsplit: text before the first `:`, when it starts with an ASCII letter
      and holds only scheme characters, is the scheme (lower-cased) and is cut off with the `:`. */
  function SplitScheme(s: string): (string, string)
  {
    var i := IndexOf(s, ':');
    if i > 0 && IsAsciiLetter(s[0]) && forall k | 0 <= k < i :: IsSchemeChar(s[k]) then
      (Lower(s[..i]), s[i + 1..])
    else
      ("", s)
  }

  predicate IsNetlocDelimiter(c: char)
  {
    c == '/' || c == '?' || c == '#'
  }

  /** `_splitnetloc`: the first index at or after `start` holding `/`, `?` or `#`, else the length. */
  function NetlocEnd(s: string, start: nat): (r: nat)
    requires start <= |s|
    ensures start <= r <= |s|
    ensures forall k :: start <= k < r ==> !IsNetlocDelimiter(s[k])
    ensures r < |s| ==> IsNetlocDelimiter(s[r])
    decreases |s| - start
  {
    if start == |s| || IsNetlocDelimiter(s[start]) then start else NetlocEnd(s, start + 1)
  }

  /** The part of a netloc after its last `@` (the userinfo is dropped). */
  function HostInfo(netloc: string): (r: string)
    ensures '@' !in r
  {
    AfterLast(netloc, '@')
  }

  /** `_check_bracketed_netloc` without the address validation of the bracketed host: nothing
      may precede the `[`, and what follows the `]` must be empty or start with `:`. */
  predicate BracketedNetlocOk(netloc: string)
  {
    var hostinfo := HostInfo(netloc);
    var b := IndexOf(hostinfo, '[');
    b < 0 || (b == 0 && var after := AfterFirst(hostinfo[1..], ']'); after == "" || after[0] == ':')
  }

  /** `urlsplit(url)`; `None` is the `ValueError("Invalid IPv6 URL")` it raises. */
  function UrlSplit(url: string): (r: Option<SplitUrl>)
  {
    var s := RemoveUnsafe(LStripC0(url));
    var (scheme, afterScheme) := SplitScheme(s);
    SplitAuthority(scheme, afterScheme)
  }

  /** The netloc step of urlsplit, applied to what follows the scheme. */
  function SplitAuthority(scheme: string, afterScheme: string): (r: Option<SplitUrl>)
  {
    if StartsWith(afterScheme, "//") then
      var e := NetlocEnd(afterScheme, 2);
      var netloc := afterScheme[2..e];
      var open, close := '[' in netloc, ']' in netloc;
      if open != close then None
      else if open && !BracketedNetlocOk(netloc) then None
      else Some(SplitUrl(scheme, netloc, afterScheme[e..]))
    else
      Some(SplitUrl(scheme, "", afterScheme))
  }

  /** `_hostinfo`: the raw host and the raw port text (empty when there is no port). */
  function HostAndPortText(netloc: string): (string, string)
  {
    var hostinfo := HostInfo(netloc);
    var b := IndexOf(hostinfo, '[');
    if b >= 0 then
      var bracketed := hostinfo[b + 1..];
      (BeforeFirst(bracketed, ']'), AfterFirst(AfterFirst(bracketed, ']'), ':'))
    else
      (BeforeFirst(hostinfo, ':'), AfterFirst(hostinfo, ':'))
  }

  /** The `hostname` property: `None` for an empty host; the host lower-cased up to a `%` zone. */
  function Hostname(netloc: string): Option<string>
  {
    var h := HostAndPortText(netloc).0;
    if h == "" then None
    else
      var z := IndexOf(h, '%');
      Some(if z < 0 then Lower(h) else Lower(h[..z]) + h[z..])
  }

  /** What reading the `port` property gives: no port, a number, or a `ValueError`. */
  datatype PortValue = NoPort | PortNumber(n: nat) | BadPort

  /** The `port` property: ASCII digits whose value is at most 65535, else `ValueError`. */
  function Port(netloc: string): (r: PortValue)
    ensures r.PortNumber? ==> r.n <= 65535
  {
    var p := HostAndPortText(netloc).1;
    if p == "" then NoPort
    else if !AllDigits(p) then BadPort
    else if DigitsValue(p) <= 65535 then PortNumber(DigitsValue(p))
    else BadPort
  }

  // ---------------------------------------------------------------------
  // How urlsplit reads an address built from its parts

  lemma RemoveUnsafeKeeps(s: string)
    requires forall i :: 0 <= i < |s| ==> !IsUnsafeByte(s[i])
    ensures RemoveUnsafe(s) == s
  {
    if |s| > 0 {
      RemoveUnsafeKeeps(s[1..]);
      assert s == [s[0]] + s[1..];
    }
  }

  lemma PrepareKeeps(url: string)
    requires |url| > 0 && !IsC0OrSpace(url[0])
    requires forall i :: 0 <= i < |url| ==> !IsUnsafeByte(url[i])
    ensures RemoveUnsafe(LStripC0(url)) == url
  {
    RemoveUnsafeKeeps(url);
  }

  lemma SplitSchemeOf(scheme: string, tail: string)
    requires |scheme| > 0 && IsAsciiLetter(scheme[0])
    requires forall k :: 0 <= k < |scheme| ==> IsSchemeChar(scheme[k])
    ensures SplitScheme(scheme + ":" + tail) == (Lower(scheme), tail)
  {
    var s := scheme + ":" + tail;
    assert s[..|scheme|] == scheme;
    assert s[|scheme| + 1..] == tail;
    assert s[0] == scheme[0];
    assert ':' !in scheme;
    IndexOfIs(s, ':', |scheme|);
  }

  lemma {:induction false} NetlocEndOf(netloc: string, rest: string)
    requires forall k :: 0 <= k < |netloc| ==> !IsNetlocDelimiter(netloc[k])
    requires rest == "" || IsNetlocDelimiter(rest[0])
    ensures NetlocEnd("//" + netloc + rest, 2) == 2 + |netloc|
  {
    var after := "//" + netloc + rest;
    assert forall k :: 2 <= k < 2 + |netloc| ==> after[k] == netloc[k - 2];
    assert rest != "" ==> after[2 + |netloc|] == rest[0];
  }

  /** An address `scheme://netloc rest` whose netloc holds no delimiter splits into exactly
      that netloc and rest (the scheme, lower-cased, is given by SplitSchemeOf). */
  lemma UrlSplitOfParts(url: string, scheme: string, netloc: string, rest: string)
    requires url == scheme + "://" + netloc + rest
    requires |scheme| > 0 && IsAsciiLetter(scheme[0])
    requires forall k :: 0 <= k < |scheme| ==> IsSchemeChar(scheme[k])
    requires forall k :: 0 <= k < |netloc| ==> !IsNetlocDelimiter(netloc[k])
    requires rest == "" || IsNetlocDelimiter(rest[0])
    requires forall k :: 0 <= k < |netloc| ==> !IsUnsafeByte(netloc[k])
    requires forall k :: 0 <= k < |rest| ==> !IsUnsafeByte(rest[k])
    requires ('[' in netloc) == (']' in netloc)
    requires '[' in netloc ==> BracketedNetlocOk(netloc)
    ensures UrlSplit(url).Some? && UrlSplit(url).value.netloc == netloc && UrlSplit(url).value.rest == rest
  {
    var after := "//" + netloc + rest;
    assert url == scheme + ":" + after;
    NoUnsafeInParts(scheme, netloc, rest, url);
    PrepareKeeps(url);
    SplitSchemeOf(scheme, after);
    SplitAuthorityOf(Lower(scheme), netloc, rest);
  }

  lemma SplitAuthorityOf(scheme: string, netloc: string, rest: string)
    requires forall k :: 0 <= k < |netloc| ==> !IsNetlocDelimiter(netloc[k])
    requires rest == "" || IsNetlocDelimiter(rest[0])
    requires ('[' in netloc) == (']' in netloc)
    requires '[' in netloc ==> BracketedNetlocOk(netloc)
    ensures SplitAuthority(scheme, "//" + netloc + rest) == Some(SplitUrl(scheme, netloc, rest))
  {
    var after := "//" + netloc + rest;
    NetlocEndOf(netloc, rest);
    assert StartsWith(after, "//");
    assert after[2..2 + |netloc|] == netloc;
    assert after[2 + |netloc|..] == rest;
  }

  /** The same for an `http://` address. */
  lemma UrlSplitOfHttp(url: string, netloc: string, rest: string)
    requires url == "http://" + netloc + rest
    requires forall k :: 0 <= k < |netloc| ==> !IsNetlocDelimiter(netloc[k])
    requires rest == "" || IsNetlocDelimiter(rest[0])
    requires forall k :: 0 <= k < |netloc| ==> !IsUnsafeByte(netloc[k])
    requires forall k :: 0 <= k < |rest| ==> !IsUnsafeByte(rest[k])
    requires ('[' in netloc) == (']' in netloc)
    requires '[' in netloc ==> BracketedNetlocOk(netloc)
    ensures UrlSplit(url).Some? && UrlSplit(url).value.netloc == netloc && UrlSplit(url).value.rest == rest
  {
    assert url == "http" + "://" + netloc + rest;
    UrlSplitOfParts(url, "http", netloc, rest);
  }

  lemma NoUnsafeInParts(scheme: string, netloc: string, rest: string, url: string)
    requires url == scheme + "://" + netloc + rest
    requires forall k :: 0 <= k < |scheme| ==> IsSchemeChar(scheme[k])
    requires forall k :: 0 <= k < |netloc| ==> !IsUnsafeByte(netloc[k])
    requires forall k :: 0 <= k < |rest| ==> !IsUnsafeByte(rest[k])
    ensures forall i :: 0 <= i < |url| ==> !IsUnsafeByte(url[i])
  {
    forall i | 0 <= i < |url| ensures !IsUnsafeByte(url[i]) {
      if i < |scheme| {
        assert url[i] == scheme[i];
      } else if |scheme| + 3 <= i < |scheme| + 3 + |netloc| {
        assert url[i] == netloc[i - |scheme| - 3];
      } else if i >= |scheme| + 3 + |netloc| {
        assert url[i] == rest[i - |scheme| - 3 - |netloc|];
      }
    }
  }

  lemma SplitAuthorityNetloc(scheme: string, after: string)
    requires SplitAuthority(scheme, after).Some?
    ensures var n := SplitAuthority(scheme, after).value.netloc;
      (forall k :: 0 <= k < |n| ==> !IsNetlocDelimiter(n[k]) && n[k] in after)
      && ('[' in n) == (']' in n)
  {
    if StartsWith(after, "//") {
      var e := NetlocEnd(after, 2);
      var n := after[2..e];
      assert forall k :: 0 <= k < |n| ==> n[k] == after[k + 2];
    }
  }

  lemma SplitSchemeChars(s: string)
    ensures forall c :: c in SplitScheme(s).1 ==> c in s
  {
    var i := IndexOf(s, ':');
    if i > 0 {
      var t := s[i + 1..];
      assert forall k :: 0 <= k < |t| ==> t[k] == s[k + i + 1];
    }
  }

  /** What urlsplit can place in a netloc: characters of the address, no delimiter, no tab or
      line break, and either both brackets or neither. */
  lemma {:induction false} UrlSplitNetloc(url: string)
    requires UrlSplit(url).Some?
    ensures var n := UrlSplit(url).value.netloc;
      (forall k :: 0 <= k < |n| ==> !IsNetlocDelimiter(n[k]) && !IsUnsafeByte(n[k]) && n[k] in url)
      && ('[' in n) == (']' in n)
  {
    var l := LStripC0(url);
    var s := RemoveUnsafe(l);
    assert forall c :: c in l ==> c in url;
    var (scheme, after) := SplitScheme(s);
    SplitSchemeChars(s);
    SplitAuthorityNetloc(scheme, after);
  }

  /** A netloc `host` or `host:port` whose host holds no `@`, `[` or `:`. */
  lemma HostAndPortOfPlain(host: string, portText: string)
    requires '@' !in host && '[' !in host && ':' !in host
    requires '@' !in portText && '[' !in portText
    ensures HostAndPortText(host) == (host, "")
    ensures portText != "" ==> HostAndPortText(host + ":" + portText) == (host, portText)
  {
    LastIndexOfAbsent(host, '@');
    IndexOfIs(host, '[', -1);
    IndexOfIs(host, ':', -1);
    if portText != "" {
      var n := host + ":" + portText;
      assert '@' !in n;
      LastIndexOfAbsent(n, '@');
      assert '[' !in n;
      IndexOfIs(n, '[', -1);
      assert n[..|host|] == host;
      IndexOfIs(n, ':', |host|);
      assert n[|host| + 1..] == portText;
    }
  }

  // ---------------------------------------------------------------------
  // Lower-casing an address does not change how urlsplit cuts it

  lemma IndexOfLower(s: string, c: char)
    requires !('A' <= c <= 'Z') && !('a' <= c <= 'z')
    ensures IndexOf(Lower(s), c) == IndexOf(s, c)
  {
    var k := IndexOf(s, c);
    assert forall x :: LowerChar(x) == c <==> x == c;
    if k >= 0 {
      assert Lower(s)[..k] == Lower(s[..k]);
    }
    IndexOfIs(Lower(s), c, k);
  }

  lemma LastIndexOfLower(s: string, c: char)
    requires !('A' <= c <= 'Z') && !('a' <= c <= 'z')
    ensures LastIndexOf(Lower(s), c) == LastIndexOf(s, c)
  {
    assert forall x :: LowerChar(x) == c <==> x == c;
    if |s| > 0 && s[|s| - 1] != c {
      assert Lower(s)[..|s| - 1] == Lower(s[..|s| - 1]);
      LastIndexOfLower(s[..|s| - 1], c);
    }
  }

  lemma CharInLower(s: string, c: char)
    requires !('A' <= c <= 'Z') && !('a' <= c <= 'z')
    ensures (c in Lower(s)) == (c in s)
  {
    IndexOfLower(s, c);
  }

  lemma {:induction false} LStripC0Lower(s: string)
    ensures LStripC0(Lower(s)) == Lower(LStripC0(s))
  {
    if |s| > 0 {
      var l := Lower(s);
      LowerSlice(s, 1, |s|);
      assert l[1..] == Lower(s[1..]);
      assert IsC0OrSpace(l[0]) == IsC0OrSpace(s[0]);
      LStripC0Lower(s[1..]);
    }
  }

  lemma RemoveUnsafeLower(s: string)
    ensures RemoveUnsafe(Lower(s)) == Lower(RemoveUnsafe(s))
  {
    if |s| > 0 {
      assert Lower(s)[1..] == Lower(s[1..]);
      RemoveUnsafeLower(s[1..]);
      LowerConcat(if IsUnsafeByte(s[0]) then "" else [s[0]], RemoveUnsafe(s[1..]));
    }
  }

  lemma NetlocEndLower(s: string, start: nat)
    requires start <= |s|
    ensures NetlocEnd(Lower(s), start) == NetlocEnd(s, start)
    decreases |s| - start
  {
    if start < |s| {
      NetlocEndLower(s, start + 1);
    }
  }

  lemma SchemeCharLower(c: char)
    ensures IsSchemeChar(LowerChar(c)) == IsSchemeChar(c)
    ensures IsAsciiLetter(LowerChar(c)) == IsAsciiLetter(c)
  {
  }

  lemma {:induction false} SplitSchemeLower(s: string)
    ensures SplitScheme(Lower(s)) == (Lower(SplitScheme(s).0), Lower(SplitScheme(s).1))
  {
    var l := Lower(s);
    var i := IndexOf(s, ':');
    IndexOfLower(s, ':');
    assert IndexOf(l, ':') == i;
    if i > 0 {
      SchemeCharLower(s[0]);
      forall k | 0 <= k < i ensures IsSchemeChar(l[k]) == IsSchemeChar(s[k]) {
        SchemeCharLower(s[k]);
      }
      var ok := IsAsciiLetter(s[0]) && forall k | 0 <= k < i :: IsSchemeChar(s[k]);
      var okL := IsAsciiLetter(l[0]) && forall k | 0 <= k < i :: IsSchemeChar(l[k]);
      assert ok == okL;
      LowerSlice(s, 0, i);
      LowerSlice(s, i + 1, |s|);
      LowerIdempotent(s[..i]);
      assert l[..i] == Lower(s[..i]);
      assert l[i + 1..] == Lower(s[i + 1..]);
    }
  }

  lemma AfterFirstLower(s: string, c: char)
    requires !('A' <= c <= 'Z') && !('a' <= c <= 'z')
    ensures AfterFirst(Lower(s), c) == Lower(AfterFirst(s, c))
    ensures BeforeFirst(Lower(s), c) == Lower(BeforeFirst(s, c))
  {
    IndexOfLower(s, c);
  }

  lemma HostInfoLower(netloc: string)
    ensures HostInfo(Lower(netloc)) == Lower(HostInfo(netloc))
  {
    LastIndexOfLower(netloc, '@');
  }

  lemma BracketedNetlocOkLower(netloc: string)
    ensures BracketedNetlocOk(Lower(netloc)) == BracketedNetlocOk(netloc)
  {
    var h := HostInfo(netloc);
    HostInfoLower(netloc);
    IndexOfLower(h, '[');
    if IndexOf(h, '[') == 0 {
      assert Lower(h)[1..] == Lower(h[1..]);
      AfterFirstLower(h[1..], ']');
    }
  }

  lemma {:induction false} SplitAuthorityLower(scheme: string, after: string)
    ensures SplitAuthority(Lower(scheme), Lower(after)).None? == SplitAuthority(scheme, after).None?
    ensures SplitAuthority(scheme, after).Some? ==>
      SplitAuthority(Lower(scheme), Lower(after)).value.netloc == Lower(SplitAuthority(scheme, after).value.netloc)
  {
    var l := Lower(after);
    if |after| >= 2 {
      LowerSlice(after, 0, 2);
      assert l[..2] == Lower(after[..2]);
      assert StartsWith(l, "//") == StartsWith(after, "//");
    }
    if StartsWith(after, "//") {
      var e := NetlocEnd(after, 2);
      NetlocEndLower(after, 2);
      var netloc := after[2..e];
      LowerSlice(after, 2, e);
      assert l[2..e] == Lower(netloc);
      CharInLower(netloc, '[');
      CharInLower(netloc, ']');
      BracketedNetlocOkLower(netloc);
    }
  }

  /** urlsplit of the lower-cased address is the lower-cased urlsplit: same success or failure,
      same cut points. */
  lemma {:induction false} UrlSplitLower(url: string)
    ensures UrlSplit(Lower(url)).None? == UrlSplit(url).None?
    ensures UrlSplit(url).Some? ==> UrlSplit(Lower(url)).value.netloc == Lower(UrlSplit(url).value.netloc)
  {
    var s := RemoveUnsafe(LStripC0(url));
    LStripC0Lower(url);
    RemoveUnsafeLower(LStripC0(url));
    assert RemoveUnsafe(LStripC0(Lower(url))) == Lower(s);
    SplitSchemeLower(s);
    var (scheme, after) := SplitScheme(s);
    assert SplitScheme(Lower(s)) == (Lower(scheme), Lower(after));
    SplitAuthorityLower(scheme, after);
  }

  lemma {:induction false} HostAndPortTextLower(netloc: string)
    ensures HostAndPortText(Lower(netloc)) == (Lower(HostAndPortText(netloc).0), Lower(HostAndPortText(netloc).1))
  {
    var h := HostInfo(netloc);
    HostInfoLower(netloc);
    IndexOfLower(h, '[');
    var b := IndexOf(h, '[');
    if b >= 0 {
      LowerSlice(h, b + 1, |h|);
      assert Lower(h)[b + 1..] == Lower(h[b + 1..]);
      AfterFirstLower(h[b + 1..], ']');
      AfterFirstLower(AfterFirst(h[b + 1..], ']'), ':');
    } else {
      AfterFirstLower(h, ':');
    }
  }

  /** Lower-casing a netloc does not change its port, nor whether reading it raises. */
  lemma {:induction false} PortLower(netloc: string)
    ensures Port(Lower(netloc)) == Port(netloc)
  {
    var p := HostAndPortText(netloc).1;
    HostAndPortTextLower(netloc);
    assert HostAndPortText(Lower(netloc)).1 == Lower(p);
    if AllDigits(p) {
      LowerNoUpper(p);
    } else {
      var i :| 0 <= i < |p| && !IsDigit(p[i]);
      assert !IsDigit(Lower(p)[i]);
    }
  }
}

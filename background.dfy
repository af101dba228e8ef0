/**
  The extension's service worker (extension/background.js): the two expiring
  maps `allowOverrides` (host to expiry time) and `resultCache` (address to
  verdict and expiry time), the cached, fail-open backend query of
  `isPhishing`, the `allowHost` message handler and the main-frame
  navigation gate. Every `Date.now()` reading is a parameter, the WHATWG URL
  parser is the parameter `urlHost` (the hostname, or `None` where `new URL`
  throws), and the backend's answer is the parameter `answer`.
*/
module Background {
  import opened Wrappers
  import opened StrUtil
  import Server

  /** `CACHE_TTL_MS` */
  const CacheTtlMs := 30 * 1000

  /** The `allowHost` expiry used when the message carries no numeric `ttlMs`. */
  const DefaultAllowTtlMs := 5 * 60 * 1000

  // ---------------------------------------------------------------------
  // normalizeForHost

  /** `normalizeForHost(input)`: the lower-cased hostname, or `""` when the address does not parse. */
  function NormalizeForHost(input: string, urlHost: string -> Option<string>): (r: string)
    ensures urlHost(input).None? ==> r == ""
    ensures urlHost(input).Some? ==>
      |r| == |urlHost(input).value| && forall i :: 0 <= i < |r| ==> r[i] == LowerChar(urlHost(input).value[i])
  {
    match urlHost(input)
    case Some(h) => Lower(h)
    case None => ""
  }

  lemma LowerCharIsNotUpper(c: char)
    ensures !('A' <= LowerChar(c) <= 'Z')
  {
  }

  /** A normalised host holds no upper-case letter, so an allowed host spelled with one never
      matches a navigation. */
  lemma NormalizedHostHasNoUpper(input: string, urlHost: string -> Option<string>, h: string, k: nat)
    requires k < |h| && 'A' <= h[k] <= 'Z'
    ensures NormalizeForHost(input, urlHost) != h
  {
    var r := NormalizeForHost(input, urlHost);
    if |r| == |h| && urlHost(input).Some? {
      LowerCharIsNotUpper(urlHost(input).value[k]);
      assert r[k] != h[k];
    }
  }

  // ---------------------------------------------------------------------
  // pruneAllow and pruneCache

  /** What `pruneAllow` leaves: the overrides whose expiry is still ahead of `now`. */
  function UnexpiredAllow(m: map<string, int>, now: int): (r: map<string, int>)
    ensures forall h :: h in r <==> h in m && m[h] > now
    ensures forall h :: h in r ==> r[h] == m[h]
  {
    map h | h in m && m[h] > now :: m[h]
  }

  /** A cached verdict. */
  datatype CacheEntry = CacheEntry(phishing: bool, exp: int)

  /** What `pruneCache` leaves: the entries whose expiry is still ahead of `now`. */
  function UnexpiredCache(m: map<string, CacheEntry>, now: int): (r: map<string, CacheEntry>)
    ensures forall u :: u in r <==> u in m && m[u].exp > now
    ensures forall u :: u in r ==> r[u] == m[u]
  {
    map u | u in m && m[u].exp > now :: m[u]
  }

  /** Pruning at a later time subsumes pruning at an earlier one. */
  lemma PruneAllowLater(m: map<string, int>, a: int, b: int)
    requires a <= b
    ensures UnexpiredAllow(UnexpiredAllow(m, a), b) == UnexpiredAllow(m, b)
  {
    var l, r := UnexpiredAllow(UnexpiredAllow(m, a), b), UnexpiredAllow(m, b);
    assert forall h :: h in l <==> h in r;
  }

  /** Pruning at a later time subsumes pruning at an earlier one. */
  lemma PruneCacheLater(m: map<string, CacheEntry>, a: int, b: int)
    requires a <= b
    ensures UnexpiredCache(UnexpiredCache(m, a), b) == UnexpiredCache(m, b)
  {
    var l, r := UnexpiredCache(UnexpiredCache(m, a), b), UnexpiredCache(m, b);
    assert forall u :: u in l <==> u in r;
  }

  // ---------------------------------------------------------------------
  // isPhishing

  /** How the `fetch` of `/check` ends: it throws (also when the body is not JSON), the response is
      not ok, or the body's `phishing` field has the given truthiness. */
  datatype Answer = FetchFailed | NotOk | OkBody(phishingTruthy: bool)

  /** `phishing` after the `try` block: fail open. */
  function Verdict(answer: Answer): (p: bool)
    ensures p <==> answer.OkBody? && answer.phishingTruthy
  {
    match answer
    case OkBody(t) => t
    case _ => false
  }

  /** The answer the extension reads from this repository's backend: a 400 is not ok, and an ok body
      has no `phishing` field, whose value `undefined` is falsy. */
  function AnswerOf(r: Result<Server.CheckResponse, nat>): (a: Answer)
    ensures r.Err? <==> a == NotOk
    ensures r.Ok? <==> a == OkBody(false)
  {
    match r
    case Ok(_) => OkBody(false)
    case Err(_) => NotOk
  }

  /** Hence the backend's answers never make the extension see a phishing verdict, even for a
      blacklisted address. */
  lemma BackendNeverFlags(url: string, blacklist: seq<string>, whitelist: seq<string>)
    ensures !Verdict(AnswerOf(Server.Check(url, blacklist, whitelist)))
  {
    var r := Server.Check(url, blacklist, whitelist);
    assert AnswerOf(r).OkBody? ==> !AnswerOf(r).phishingTruthy;
  }

  /** The verdict `isPhishing` returns, whether it asked the backend, and the cache it leaves. */
  datatype LookUpOutcome = LookUpOutcome(phishing: bool, fetched: bool, cache: map<string, CacheEntry>)

  /** `isPhishing(url)`, with `pruneNow`, `hitNow` and `storeNow` the three readings of the clock. */
  function LookUp(cache: map<string, CacheEntry>, url: string, pruneNow: int, hitNow: int, storeNow: int,
                  answer: Answer): (o: LookUpOutcome)
    ensures var pruned := UnexpiredCache(cache, pruneNow);
      (!o.fetched <==> url in pruned && pruned[url].exp > hitNow)
      && (!o.fetched ==> o.phishing == cache[url].phishing && o.cache == pruned)
      && (o.fetched ==> o.phishing == Verdict(answer)
                        && o.cache == pruned[url := CacheEntry(o.phishing, storeNow + CacheTtlMs)])
  {
    var pruned := UnexpiredCache(cache, pruneNow);
    if url in pruned && pruned[url].exp > hitNow then
      LookUpOutcome(pruned[url].phishing, false, pruned)
    else
      var p := Verdict(answer);
      LookUpOutcome(p, true, pruned[url := CacheEntry(p, storeNow + CacheTtlMs)])
  }

  /** A failed or refused query is cached as `false` like any other verdict. */
  lemma FailureIsCached(cache: map<string, CacheEntry>, url: string, pruneNow: int, hitNow: int, storeNow: int,
                        answer: Answer)
    requires answer == FetchFailed || answer == NotOk
    requires !(url in cache && cache[url].exp > pruneNow && cache[url].exp > hitNow)
    ensures var o := LookUp(cache, url, pruneNow, hitNow, storeNow, answer);
      o.fetched && !o.phishing && url in o.cache && o.cache[url] == CacheEntry(false, storeNow + CacheTtlMs)
  {
  }

  /** A verdict stored at `storeNow` answers every query for the same address made within the next
      30 seconds, without asking the backend again and whatever it would answer. */
  lemma StoredVerdictIsReused(cache: map<string, CacheEntry>, url: string, pruneNow: int, hitNow: int,
                              storeNow: int, answer: Answer, pruneAgain: int, hitAgain: int,
                              storeAgain: int, answerAgain: Answer)
    requires pruneAgain < storeNow + CacheTtlMs && hitAgain < storeNow + CacheTtlMs
    ensures var first := LookUp(cache, url, pruneNow, hitNow, storeNow, answer);
      var again := LookUp(first.cache, url, pruneAgain, hitAgain, storeAgain, answerAgain);
      first.fetched ==> !again.fetched && again.phishing == first.phishing
  {
    var first := LookUp(cache, url, pruneNow, hitNow, storeNow, answer);
    if first.fetched {
      var pruned := UnexpiredCache(first.cache, pruneAgain);
      assert url in pruned && pruned[url].exp == storeNow + CacheTtlMs;
    }
  }

  /** Other addresses' entries are only pruned, never rewritten. */
  lemma OtherEntriesKept(cache: map<string, CacheEntry>, url: string, other: string, pruneNow: int,
                         hitNow: int, storeNow: int, answer: Answer)
    requires other != url && other in cache && cache[other].exp > pruneNow
    ensures var o := LookUp(cache, url, pruneNow, hitNow, storeNow, answer);
      other in o.cache && o.cache[other] == cache[other]
  {
  }

  // ---------------------------------------------------------------------
  // The allowHost handler

  /** A runtime message: its `type`, its `host` when that is a truthy string, and its `ttlMs` when
      that is a number (an integer here). */
  datatype Message = Message(msgType: Option<string>, host: Option<string>, ttlMs: Option<int>)

  /** The messages the handler answers with `{ ok: true }`. */
  predicate Handles(msg: Message)
  {
    msg.msgType == Some("allowHost") && msg.host.Some? && msg.host.value != ""
  }

  /** The override a handled message installs, expiring `ttlMs` (default five minutes) after `now`. */
  function AllowAfter(allow: map<string, int>, msg: Message, now: int): (r: map<string, int>)
    ensures !Handles(msg) ==> r == allow
    ensures Handles(msg) ==> msg.host.value in r && r.Keys == allow.Keys + {msg.host.value}
    ensures Handles(msg) ==> r[msg.host.value] == now + (if msg.ttlMs.Some? then msg.ttlMs.value else DefaultAllowTtlMs)
    ensures forall h :: h in allow && (!Handles(msg) || h != msg.host.value) ==> h in r && r[h] == allow[h]
  {
    if Handles(msg) then
      var ttl := match msg.ttlMs case Some(t) => t case None => DefaultAllowTtlMs;
      allow[msg.host.value := now + ttl]
    else allow
  }

  // ---------------------------------------------------------------------
  // onBeforeNavigate

  /** The clock readings of one navigation, in the order the listener takes them: in `pruneAllow`,
      in `pruneCache`, at the cache hit test and when the verdict is stored. */
  datatype Clocks = Clocks(allow: int, prune: int, hit: int, store: int)

  /** Whether the tab is sent to the blocked page, whether the backend verdict was consulted, and the
      two maps afterwards. */
  datatype NavOutcome =
    NavOutcome(redirect: bool, checked: bool, allow: map<string, int>, cache: map<string, CacheEntry>)

  /** The `onBeforeNavigate` listener. */
  function Navigation(allow: map<string, int>, cache: map<string, CacheEntry>, tabId: int, url: string,
                      frameId: int, urlHost: string -> Option<string>, clocks: Clocks,
                      answer: Answer): (o: NavOutcome)
    ensures frameId != 0 || tabId == -1 ==> o == NavOutcome(false, false, allow, cache)
    ensures frameId == 0 && tabId != -1 ==> o.allow == UnexpiredAllow(allow, clocks.allow)
    ensures o.checked <==>
      frameId == 0 && tabId != -1 && NormalizeForHost(url, urlHost) !in UnexpiredAllow(allow, clocks.allow)
    ensures !o.checked ==> !o.redirect && o.cache == cache
    ensures o.checked ==> var l := LookUp(cache, url, clocks.prune, clocks.hit, clocks.store, answer);
      o.redirect == l.phishing && o.cache == l.cache
  {
    if frameId != 0 || tabId == -1 then NavOutcome(false, false, allow, cache)
    else
      var host := NormalizeForHost(url, urlHost);
      var pruned := UnexpiredAllow(allow, clocks.allow);
      if host in pruned then NavOutcome(false, false, pruned, cache)
      else
        var l := LookUp(cache, url, clocks.prune, clocks.hit, clocks.store, answer);
        NavOutcome(l.phishing, true, pruned, l.cache)
  }

  /** An address whose host cannot be read is never exempt, since no override is ever stored for the
      empty host. */
  lemma UnparseableIsChecked(allow: map<string, int>, cache: map<string, CacheEntry>, tabId: int, url: string,
                             urlHost: string -> Option<string>, clocks: Clocks, answer: Answer)
    requires "" !in allow && tabId != -1 && urlHost(url).None?
    ensures Navigation(allow, cache, tabId, url, 0, urlHost, clocks, answer).checked
  {
  }

  /** A host allowed at `now` is let through by every main-frame navigation to it before the override
      expires, whatever the backend would say. */
  lemma AllowedHostPasses(allow: map<string, int>, cache: map<string, CacheEntry>, msg: Message, now: int,
                          tabId: int, url: string, urlHost: string -> Option<string>, clocks: Clocks,
                          answer: Answer)
    requires Handles(msg) && NormalizeForHost(url, urlHost) == msg.host.value
    requires clocks.allow < now + (if msg.ttlMs.Some? then msg.ttlMs.value else DefaultAllowTtlMs)
    ensures var o := Navigation(AllowAfter(allow, msg, now), cache, tabId, url, 0, urlHost, clocks, answer);
      !o.redirect && !o.checked
  {
    var after := AllowAfter(allow, msg, now);
    var h := msg.host.value;
    assert h in UnexpiredAllow(after, clocks.allow);
  }

  /** With this repository's backend behind it, no navigation is ever redirected (the verdict of a
      fresh query is false, and so is every verdict it has cached). */
  lemma NoRedirectFromBackend(allow: map<string, int>, cache: map<string, CacheEntry>, tabId: int, url: string,
                              frameId: int, urlHost: string -> Option<string>, clocks: Clocks,
                              blacklist: seq<string>, whitelist: seq<string>)
    requires forall u :: u in cache ==> !cache[u].phishing
    ensures var o := Navigation(allow, cache, tabId, url, frameId, urlHost, clocks,
                                AnswerOf(Server.Check(url, blacklist, whitelist)));
      !o.redirect && forall u :: u in o.cache ==> !o.cache[u].phishing
  {
    BackendNeverFlags(url, blacklist, whitelist);
  }

  // ---------------------------------------------------------------------
  // The worker's state

  class Extension {
    /** `allowOverrides`: host to expiry time. */
    var allowOverrides: map<string, int>
    /** `resultCache`: address to cached verdict. */
    var resultCache: map<string, CacheEntry>

    /** Only handled messages write an override, and they carry a non-empty host. */
    ghost predicate Valid()
      reads this
    {
      "" !in allowOverrides
    }

    constructor ()
      ensures Valid() && allowOverrides == map[] && resultCache == map[]
    {
      allowOverrides := map[];
      resultCache := map[];
    }

    /** `pruneAllow()` at `now`: deletes, entry by entry, every override whose expiry has passed. */
    method PruneAllow(now: int)
      requires Valid()
      modifies this
      ensures Valid()
      ensures allowOverrides == UnexpiredAllow(old(allowOverrides), now)
      ensures resultCache == old(resultCache)
    {
      ghost var before := allowOverrides;
      var pending := allowOverrides.Keys;
      while pending != {}
        invariant pending <= before.Keys
        invariant forall h :: h in allowOverrides <==> h in before && (h in pending || before[h] > now)
        invariant forall h :: h in allowOverrides ==> allowOverrides[h] == before[h]
        invariant resultCache == old(resultCache)
        decreases pending
      {
        var h :| h in pending;
        if allowOverrides[h] <= now {
          allowOverrides := allowOverrides - {h};
        }
        pending := pending - {h};
      }
      assert allowOverrides.Keys == UnexpiredAllow(before, now).Keys;
    }

    /** `pruneCache()` at `now`: deletes, entry by entry, every cached verdict whose expiry has passed. */
    method PruneCache(now: int)
      requires Valid()
      modifies this
      ensures Valid()
      ensures resultCache == UnexpiredCache(old(resultCache), now)
      ensures allowOverrides == old(allowOverrides)
    {
      ghost var before := resultCache;
      var pending := resultCache.Keys;
      while pending != {}
        invariant pending <= before.Keys
        invariant forall u :: u in resultCache <==> u in before && (u in pending || before[u].exp > now)
        invariant forall u :: u in resultCache ==> resultCache[u] == before[u]
        invariant allowOverrides == old(allowOverrides)
        decreases pending
      {
        var u :| u in pending;
        if resultCache[u].exp <= now {
          resultCache := resultCache - {u};
        }
        pending := pending - {u};
      }
      assert resultCache.Keys == UnexpiredCache(before, now).Keys;
    }

    /** `isPhishing(url)`: `fetched` says whether the backend was asked. */
    method IsPhishing(url: string, pruneNow: int, hitNow: int, storeNow: int, answer: Answer)
      returns (phishing: bool, fetched: bool)
      requires Valid()
      modifies this
      ensures Valid() && allowOverrides == old(allowOverrides)
      ensures var o := LookUp(old(resultCache), url, pruneNow, hitNow, storeNow, answer);
        phishing == o.phishing && fetched == o.fetched && resultCache == o.cache
    {
      PruneCache(pruneNow);
      if url in resultCache && resultCache[url].exp > hitNow {
        return resultCache[url].phishing, false;
      }
      phishing := false;
      match answer {
        case OkBody(t) => phishing := t;
        case _ =>
      }
      resultCache := resultCache[url := CacheEntry(phishing, storeNow + CacheTtlMs)];
      fetched := true;
    }

    /** The `allowHost` message handler; `handled` is the `{ ok: true }` reply. */
    method AllowHost(msg: Message, now: int) returns (handled: bool)
      requires Valid()
      modifies this
      ensures Valid() && resultCache == old(resultCache)
      ensures handled == Handles(msg)
      ensures allowOverrides == AllowAfter(old(allowOverrides), msg, now)
    {
      if msg.msgType == Some("allowHost") && msg.host.Some? && msg.host.value != "" {
        var ttl := if msg.ttlMs.Some? then msg.ttlMs.value else DefaultAllowTtlMs;
        allowOverrides := allowOverrides[msg.host.value := now + ttl];
        return true;
      }
      return false;
    }

    /** The `onBeforeNavigate` listener: `redirect` is the `chrome.tabs.update` to the blocked page. */
    method OnBeforeNavigate(tabId: int, url: string, frameId: int, urlHost: string -> Option<string>,
                            clocks: Clocks, answer: Answer) returns (redirect: bool, checked: bool)
      requires Valid()
      modifies this
      ensures Valid()
      ensures var o := Navigation(old(allowOverrides), old(resultCache), tabId, url, frameId, urlHost, clocks, answer);
        redirect == o.redirect && checked == o.checked && allowOverrides == o.allow && resultCache == o.cache
      ensures frameId == 0 && tabId != -1 && urlHost(url).None? ==> checked
    {
      if frameId == 0 && tabId != -1 && urlHost(url).None? {
        UnparseableIsChecked(allowOverrides, resultCache, tabId, url, urlHost, clocks, answer);
      }
      if frameId != 0 || tabId == -1 {
        return false, false;
      }
      var host := NormalizeForHost(url, urlHost);
      PruneAllow(clocks.allow);
      if host in allowOverrides {
        return false, false;
      }
      var fetched;
      redirect, fetched := IsPhishing(url, clocks.prune, clocks.hit, clocks.store, answer);
      checked := true;
    }
  }
}

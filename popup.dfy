/**
  The decisions of the extension's popup (extension/popup.js): which tab
  addresses are not sent for checking, the label shown for a result's
  source, which status view a backend answer selects, and which kind of
  special page an unchecked address is said to be. DOM writes are replaced
  by the enumerations below.
*/
module Popup {
  import opened Wrappers
  import opened StrUtil
  import Server
  import Background

  // ---------------------------------------------------------------------
  // shouldSkipUrl

  /** `skipSchemes` */
  const SkipSchemes: seq<string> :=
    ["chrome://", "chrome-extension://", "edge://", "moz-extension://", "about:", "data:", "javascript:", "file://"]

  /** `skipUrls` */
  const SkipUrls: seq<string> :=
    ["chrome://new-tab-page/", "chrome://newtab/", "chrome://startpageshared/", "about:blank", "about:newtab"]

  predicate StartsWithAny(s: string, prefixes: seq<string>)
  {
    exists i | 0 <= i < |prefixes| :: StartsWith(s, prefixes[i])
  }

  /** `skipUrls.some(skipUrl => urlLower === skipUrl || urlLower.startsWith(skipUrl))` */
  predicate MatchesSkipUrl(s: string)
  {
    exists i | 0 <= i < |SkipUrls| :: s == SkipUrls[i] || StartsWith(s, SkipUrls[i])
  }

  /** `shouldSkipUrl(url)`: `None` is a missing address. */
  predicate ShouldSkipUrl(url: Option<string>)
  {
    match url
    case None => true
    case Some(u) =>
      u == "" || StartsWithAny(Lower(u), SkipSchemes) || MatchesSkipUrl(Lower(u))
  }

  lemma PrefixOfPrefix(s: string, p: string, q: string)
    requires StartsWith(s, p) && StartsWith(p, q)
    ensures StartsWith(s, q)
  {
    assert s[..|q|] == s[..|p|][..|q|];
  }

  /** Every entry of `skipUrls` already starts with a skip scheme. */
  lemma SkipUrlsHaveSkipSchemes()
    ensures forall i :: 0 <= i < |SkipUrls| ==> StartsWithAny(SkipUrls[i], SkipSchemes)
  {
    assert StartsWith(SkipUrls[0], SkipSchemes[0]);
    assert StartsWith(SkipUrls[1], SkipSchemes[0]);
    assert StartsWith(SkipUrls[2], SkipSchemes[0]);
    assert StartsWith(SkipUrls[3], SkipSchemes[4]);
    assert StartsWith(SkipUrls[4], SkipSchemes[4]);
  }

  /** Hence the `skipUrls` test adds nothing: an address is skipped exactly when it is missing or
      empty or its lower-cased text starts with a skip scheme. */
  lemma ShouldSkipBySchemeOnly(url: Option<string>)
    ensures ShouldSkipUrl(url) <==>
      url == None || url == Some("") || StartsWithAny(Lower(url.value), SkipSchemes)
  {
    if url.Some? && MatchesSkipUrl(Lower(url.value)) {
      var s := Lower(url.value);
      var i :| 0 <= i < |SkipUrls| && (s == SkipUrls[i] || StartsWith(s, SkipUrls[i]));
      SkipUrlsHaveSkipSchemes();
      var k :| 0 <= k < |SkipSchemes| && StartsWith(SkipUrls[i], SkipSchemes[k]);
      PrefixOfPrefix(s, SkipUrls[i], SkipSchemes[k]);
    }
  }

  /** No skip scheme starts with `h`. */
  lemma HttpIsNoSkipScheme(s: string)
    requires |s| > 0 && s[0] == 'h'
    ensures !StartsWithAny(s, SkipSchemes)
  {
    assert forall i :: 0 <= i < |SkipSchemes| ==> SkipSchemes[i][0] != 'h';
    forall i | 0 <= i < |SkipSchemes| ensures !StartsWith(s, SkipSchemes[i]) {
      var p := SkipSchemes[i];
      if |p| <= |s| {
        assert s[..|p|][0] == s[0];
      }
    }
  }

  /** `http://` and `https://` addresses are always checked, in whatever case they are spelled. */
  lemma WebAddressIsChecked(u: string)
    requires Server.HasHttpScheme(u)
    ensures !ShouldSkipUrl(Some(u))
  {
    var l := Lower(u);
    assert l[0] == 'h' by {
      if StartsWith(l, "http://") {
        assert l[0] == l[..7][0];
      } else {
        assert l[0] == l[..8][0];
      }
    }
    HttpIsNoSkipScheme(l);
    ShouldSkipBySchemeOnly(Some(u));
  }

  // ---------------------------------------------------------------------
  // getSourceText

  const DatabaseLabel := "Cơ sở dữ liệu"
  const ModelLabel := "Mô hình AI"
  const ErrorLabel := "Lỗi kiểm tra"
  const UnknownSourceLabel := "Không xác định"

  /** `getSourceText(source)`; `None` is a missing source, which is falsy like `""`. */
  function SourceText(source: Option<string>): (r: string)
    ensures r != ""
    ensures source == Some("database") ==> r == DatabaseLabel
    ensures source == Some("model") ==> r == ModelLabel
    ensures source == Some("error") ==> r == ErrorLabel
    ensures source.Some? && source.value !in {"database", "model", "error", ""} ==> r == source.value
    ensures source == None || source == Some("") ==> r == UnknownSourceLabel
  {
    match source
    case Some("database") => DatabaseLabel
    case Some("model") => ModelLabel
    case Some("error") => ErrorLabel
    case Some(s) => if s == "" then UnknownSourceLabel else s
    case None => UnknownSourceLabel
  }

  /** The backend's sources are shown verbatim. */
  lemma BackendSourceShownVerbatim(url: string, blacklist: seq<string>, whitelist: seq<string>)
    requires url != ""
    ensures var s := Server.Check(url, blacklist, whitelist).value.source;
      SourceText(Some(s)) == s
  {
    Server.CheckVerdict(url, blacklist, whitelist);
  }

  // ---------------------------------------------------------------------
  // displayResult, showSafeStatus, showDangerStatus

  /** What `result.confidence !== null` sees: an absent field is not `null`. */
  datatype Confidence = Absent | Null | Number(value: real)

  /** The three messages of the safe and the danger view. */
  datatype Message = Plain | Percentage | Generic

  datatype View = SafeView(message: Message) | DangerView(message: Message) | UnknownView

  /** The branch both `showSafeStatus` and `showDangerStatus` take. */
  function MessageFor(source: Option<string>, confidence: Confidence): (m: Message)
    ensures m == Plain <==> source == Some("database")
    ensures m == Percentage <==> source == Some("model") && confidence != Null
  {
    if source == Some("database") then Plain
    else if source == Some("model") && confidence != Null then Percentage
    else Generic
  }

  /** The `switch (result.result)` of `displayResult`. */
  function ViewFor(result: Option<string>, source: Option<string>, confidence: Confidence): (v: View)
    ensures v.SafeView? <==> result == Some("legitimate")
    ensures v.DangerView? <==> result == Some("phishing")
    ensures !v.UnknownView? ==> v.message == MessageFor(source, confidence)
  {
    match result
    case Some("legitimate") => SafeView(MessageFor(source, confidence))
    case Some("phishing") => DangerView(MessageFor(source, confidence))
    case _ => UnknownView
  }

  /** An answer of the backend's `/check`, if one were delivered to the popup, would never be shown
      as safe: its `safe` verdict falls to the unknown view, and its sources select the generic
      message. No such answer is delivered (`CheckUrlShowsError`). */
  lemma BackendAnswerView(url: string, blacklist: seq<string>, whitelist: seq<string>, confidence: Confidence)
    requires url != ""
    ensures var r := Server.Check(url, blacklist, whitelist).value;
      var v := ViewFor(Some(r.result), Some(r.source), confidence);
      (v == DangerView(Generic) <==> r.result == "phishing") && (v == UnknownView <==> r.result != "phishing")
  {
    Server.CheckVerdict(url, blacklist, whitelist);
  }

  // ---------------------------------------------------------------------
  // checkCurrentUrl

  /** The popup's request `{ type: 'checkUrl', url }`: it has no `host` and no `ttlMs`. */
  function CheckRequest(u: string): (msg: Background.Message)
    ensures msg.msgType == Some("checkUrl")
  {
    Background.Message(Some("checkUrl"), None, None)
  }

  /** What `await chrome.runtime.sendMessage(...)` gives the popup: the fields of a reply it reads
      (an absent or non-text field is `None`), `undefined` when no listener responded, or a
      rejection. */
  datatype Delivery =
    | Replied(url: Option<string>, result: Option<string>, source: Option<string>, confidence: Confidence)
    | NoReply
    | Rejected

  /** The reply of the extension's only runtime listener, the `allowHost` handler: `{ ok: true }`,
      which has none of the fields the popup reads, for a handled message and nothing otherwise. */
  function ListenerReply(msg: Background.Message): (d: Delivery)
    ensures d.Replied? <==> Background.Handles(msg)
    ensures d.Replied? ==> d.url == None
    ensures !d.Replied? ==> d == NoReply
  {
    if Background.Handles(msg) then Replied(None, None, None, Absent) else NoReply
  }

  /** The screen `checkCurrentUrl` ends on after its loading view. */
  datatype Screen = ResultScreen(view: View) | ErrorScreen

  /** `if (result && result.url) displayResult(result) else showError(...)`, with the `catch` of a
      rejection also showing an error. */
  function AfterCheck(d: Delivery): (s: Screen)
    ensures s.ResultScreen? <==> d.Replied? && d.url.Some? && d.url.value != ""
    ensures s.ResultScreen? ==> s.view == ViewFor(d.result, d.source, d.confidence)
  {
    match d
    case Replied(url, result, source, confidence) =>
      if url.Some? && url.value != "" then ResultScreen(ViewFor(result, source, confidence)) else ErrorScreen
    case NoReply => ErrorScreen
    case Rejected => ErrorScreen
  }

  /** The `checkUrl` request is not one the listener handles, and whether the missing reply arrives
      as `undefined` or as a rejection, the popup shows its error view: no `/check` answer ever
      reaches `displayResult`. */
  lemma CheckUrlShowsError(u: string)
    ensures !Background.Handles(CheckRequest(u))
    ensures ListenerReply(CheckRequest(u)) == NoReply
    ensures AfterCheck(ListenerReply(CheckRequest(u))) == ErrorScreen
    ensures AfterCheck(Rejected) == ErrorScreen
  {
  }

  /** More generally, no reply the extension's listener can give carries a `url`, so whatever the
      popup sends, it never reaches the result screen. */
  lemma NoMessageReachesResult(msg: Background.Message)
    ensures AfterCheck(ListenerReply(msg)) == ErrorScreen
  {
  }

  // ---------------------------------------------------------------------
  // showSpecialPage

  datatype PageType = NewTab | ChromePage | AboutPage | ExtensionPage | SystemPage

  /** The page-type test of `showSpecialPage`, on the address as it is (not lower-cased). */
  function PageTypeOf(u: string): (t: PageType)
    ensures t == NewTab <==> Contains(u, "new-tab") || Contains(u, "newtab")
    ensures t == ChromePage <==> !Contains(u, "new-tab") && !Contains(u, "newtab") && StartsWith(u, "chrome://")
    ensures t == AboutPage <==>
      !Contains(u, "new-tab") && !Contains(u, "newtab") && !StartsWith(u, "chrome://") && StartsWith(u, "about:")
    ensures t == ExtensionPage <==>
      !Contains(u, "new-tab") && !Contains(u, "newtab") && !StartsWith(u, "chrome://") && !StartsWith(u, "about:")
      && StartsWith(u, "chrome-extension://")
  {
    if Contains(u, "new-tab") || Contains(u, "newtab") then NewTab
    else if StartsWith(u, "chrome://") then ChromePage
    else if StartsWith(u, "about:") then AboutPage
    else if StartsWith(u, "chrome-extension://") then ExtensionPage
    else SystemPage
  }

  /** `chrome://` and `chrome-extension://` exclude each other, so the extension test is reached
      for every extension page that does not mention a new tab. */
  lemma ExtensionPageReached(u: string)
    requires StartsWith(u, "chrome-extension://")
    requires !Contains(u, "new-tab") && !Contains(u, "newtab")
    ensures PageTypeOf(u) == ExtensionPage
  {
    assert u[0] == 'c' && u[6] == '-' by {
      assert u[0] == u[..19][0] && u[6] == u[..19][6];
    }
    assert !StartsWith(u, "chrome://") by {
      assert u[..9][6] == u[6];
    }
    assert !StartsWith(u, "about:") by {
      assert u[..6][0] == u[0];
    }
  }

  /** Every address mentioning a new tab is a new tab, whatever its scheme. */
  lemma NewTabFirst(u: string, p: string, q: string)
    requires u == p + "newtab" + q
    ensures PageTypeOf(u) == NewTab
  {
    assert OccursAt(u, "newtab", |p|);
  }
}

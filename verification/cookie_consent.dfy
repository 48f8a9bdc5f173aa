/**
 * The cookie-consent banner: a flag kept in `localStorage` under one key and the
 * banner's visibility, which follows it.
 */
module CookieConsent {

  const StorageKey: string := "cookieConsentAccepted"
  const Accepted: string := "true"

  /** The banner's inline `style.display`: unset, "block" or "none". */
  datatype BarDisplay = Unstyled | Shown | Hidden

  /** `localStorage`, which elements the page has, the banner's state, and whether
      `init` installed the click and key listeners. */
  datatype Consent = Consent(
    storage: map<string, string>,
    hasBar: bool,
    hasButton: bool,
    display: BarDisplay,
    fadeIn: bool,
    listening: bool)

  /** `hasConsent()`: the stored value is exactly the string "true". */
  predicate HasConsent(c: Consent) {
    StorageKey in c.storage && c.storage[StorageKey] == Accepted
  }

  function HideBar(c: Consent): (r: Consent)
    ensures r.storage == c.storage && r.listening == c.listening
    ensures r.display == (if c.hasBar then Hidden else c.display)
  {
    if c.hasBar then c.(display := Hidden) else c
  }

  /** `showCookieBar()`; adding the fade-in class twice is adding it once. */
  function ShowBar(c: Consent): (r: Consent)
    ensures r.storage == c.storage && r.listening == c.listening
    ensures r.display == (if c.hasBar then Shown else c.display)
    ensures c.hasBar ==> r.fadeIn
  {
    if c.hasBar then c.(display := Shown, fadeIn := true) else c
  }

  /** `checkConsentStatus()`: the banner is hidden exactly when consent is stored. */
  function CheckConsentStatus(c: Consent): (r: Consent)
    ensures r.storage == c.storage
    ensures c.hasBar ==> (r.display == Hidden <==> HasConsent(c))
    ensures c.hasBar ==> (r.display == Shown <==> !HasConsent(c))
    ensures !c.hasBar ==> r == c
  {
    if StorageKey in c.storage && c.storage[StorageKey] == Accepted then HideBar(c) else ShowBar(c)
  }

  /** The instance `new CookieConsent()` makes: `init` only acts when both the banner
      and the accept button exist. */
  function Init(storage: map<string, string>, hasBar: bool, hasButton: bool): (r: Consent)
    ensures r.storage == storage
    ensures r.listening <==> hasBar && hasButton
    ensures !(hasBar && hasButton) ==> r.display == Unstyled && !r.fadeIn
    ensures hasBar && hasButton ==> (r.display == Hidden <==> HasConsent(r))
    ensures hasBar && hasButton ==> (r.display == Shown <==> !HasConsent(r))
  {
    var c := Consent(storage, hasBar, hasButton, Unstyled, false, false);
    if hasBar && hasButton then CheckConsentStatus(c).(listening := true) else c
  }

  /** `acceptCookies()`; the custom event and the analytics call are left out. */
  function AcceptCookies(c: Consent): (r: Consent)
    ensures HasConsent(r)
    ensures forall k :: k in c.storage && k != StorageKey ==> k in r.storage && r.storage[k] == c.storage[k]
    ensures r.storage.Keys == c.storage.Keys + {StorageKey}
    ensures c.hasBar ==> r.display == Hidden
  {
    HideBar(c.(storage := c.storage[StorageKey := Accepted]))
  }

  /** `clearConsent()`. */
  function ClearConsent(c: Consent): (r: Consent)
    ensures !HasConsent(r)
    ensures r.storage.Keys == c.storage.Keys - {StorageKey}
    ensures forall k :: k in r.storage ==> r.storage[k] == c.storage[k]
    ensures c.hasBar ==> r.display == Shown
  {
    ShowBar(c.(storage := c.storage - {StorageKey}))
  }

  /** Accepting a second time changes nothing. */
  lemma AcceptIdempotent(c: Consent)
    ensures AcceptCookies(AcceptCookies(c)) == AcceptCookies(c)
  {
  }

  /** Clearing undoes accepting, as far as `hasConsent` can tell. */
  lemma ClearAfterAccept(c: Consent)
    ensures HasConsent(AcceptCookies(c)) && !HasConsent(ClearConsent(AcceptCookies(c)))
  {
  }

  /** What can happen to the banner once the page is up: a click on the accept
      button, a key press with the focus on the button or elsewhere, and the two
      public methods other scripts may call. */
  datatype Event =
    | AcceptClick
    | KeyDown(key: string, onButton: bool)
    | Clear
    | Query

  /** One event; the click and key listeners exist only when `init` installed them. */
  function Step(c: Consent, e: Event): Consent {
    match e
    case AcceptClick => if c.listening then AcceptCookies(c) else c
    case KeyDown(key, onButton) =>
      if c.listening && key == "Enter" && onButton then AcceptCookies(c) else c
    case Clear => ClearConsent(c)
    case Query => c
  }

  /** Enter accepts only with the focus on the accept button: any other key, or
      Enter elsewhere, leaves everything as it was. */
  lemma EnterOnlyOnButton(c: Consent, key: string, onButton: bool)
    ensures Step(c, KeyDown(key, onButton)) != c ==> key == "Enter" && onButton && c.listening
  {
  }

  /** The banner shows exactly while consent is missing. */
  predicate BannerFollowsConsent(c: Consent) {
    c.hasBar && c.listening ==>
      && (c.display == Hidden <==> HasConsent(c))
      && (c.display == Shown <==> !HasConsent(c))
  }

  /** Every event keeps the banner in step with the stored flag. */
  lemma StepKeepsBanner(c: Consent, e: Event)
    requires BannerFollowsConsent(c)
    ensures BannerFollowsConsent(Step(c, e))
  {
  }

  function Run(c: Consent, events: seq<Event>): (r: Consent)
    ensures r.hasBar == c.hasBar && r.listening == c.listening
    decreases |events|
  {
    if events == [] then c else Run(Step(c, events[0]), events[1..])
  }

  /** From the page as loaded on, whatever happens, the banner is hidden exactly when
      consent is stored -- as long as nothing else writes the storage key. */
  lemma {:induction false} BannerAlwaysFollowsConsent(storage: map<string, string>, hasBar: bool,
                                                      hasButton: bool, events: seq<Event>)
    ensures BannerFollowsConsent(Run(Init(storage, hasBar, hasButton), events))
  {
    RunKeepsBanner(Init(storage, hasBar, hasButton), events);
  }

  lemma {:induction false} RunKeepsBanner(c: Consent, events: seq<Event>)
    requires BannerFollowsConsent(c)
    ensures BannerFollowsConsent(Run(c, events))
    decreases |events|
  {
    if events != [] {
      StepKeepsBanner(c, events[0]);
      RunKeepsBanner(Step(c, events[0]), events[1..]);
    }
  }
}

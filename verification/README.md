# Skill Arena Legends front-end logic, modelled in Dafny

The site is a static set of pages. Its shared parts (header, footer, home-page sections)
are HTML fragments fetched at run time and injected into placeholders. This project
models the logic of its scripts that can be stated precisely:

- **Fragment loading** (`Loader`, `Scripts`).
  - `ComponentBuilder.loadComponent` keeps a path-to-markup cache and shows an error block
    when a load fails.
  - `GameWebsite.loadComponent` keeps no cache and is silent on failure.
  - Both copy the inert `<script>` elements that `innerHTML` creates into running
    scripts. The builder copies every one to the head. The main script means to
    activate a script only once per `src` or per inline text.
  - The document is a map from placeholder id to markup, plus a sequence of script
    records. Each record has a `src`, a text, a `processed` flag and a location: the head,
    the static body, or inside a placeholder.
  - `fetch` is a total function returning a status and body, or a transport error. The
    HTML parser is a total function from markup to the script tags it contains. A request
    log makes "no request was made" observable.
- **String predicates and transforms** (`Text`, `ContactForm`, `SiteData`, `Routing`,
  `News`).
  - the name and e-mail validators, and the order in which the contact-form handler
    checks its fields;
  - the dotted-path lookup `getData` over JSON-like values, and the built-in fallback
    content;
  - page detection from the URL path, and page names derived from links;
  - extraction of an article's text from an `openModal('…', '…'` attribute.

  Whitespace is the ECMAScript WhiteSpace and LineTerminator set, which `trim` and `\s`
  share.
- **Small state machines** (`News`, `CookieConsent`, `MobileMenu`).
  - the news modal and the page's scroll lock;
  - the cookie-consent flag in `localStorage` and the banner's visibility;
  - the mobile menu's three CSS flags and the listeners that drive them.

`Common` holds `Option`.

## Model

| member | source | states |
|---|---|---|
| Loader.LoadComponent | js/builder.js:28-62 | If the placeholder is missing, nothing changes and no request is made. A cache hit makes no request and shows the cached markup. A miss makes exactly one request. On success the body is cached and shown. On failure (non-ok status or transport error) the cache is unchanged and the placeholder shows the error block, which names the path and leaves the head alone. Other placeholders never change. |
| Loader.ErrorBlock | js/builder.js:280-287 | The error markup always contains the path that failed. |
| Loader.ShowError | js/builder.js:280-287 | The error block replaces the placeholder's content and removes its scripts. No head script is added or removed. |
| Loader.ShowComponent | js/builder.js:37-39 | The placeholder's markup is replaced and none of its scripts stays inside it after processing. |
| Loader.PreloadComponent | js/builder.js:425-434 | Always one request. Any response body is cached, whatever the status. A transport error leaves the cache unchanged. |
| Loader.ClearCache | js/builder.js:421-423 | The cache becomes empty and nothing else changes. |
| Loader.CacheHitAfterSuccess | js/builder.js:37-54 | After a successful or cached load, loading the same path again makes no request and shows the same markup. |
| Loader.ClearCacheForcesRequest | js/builder.js:421-423 | After `clearCache`, the next load requests the path again. |
| Loader.PreloadedErrorPageIsShown | js/builder.js:37-41 | A preloaded error page (non-ok status) is served from the cache as if it were the component. No error block and no new request. |
| Loader.LoadComponentKeepsCacheFaithful | js/builder.js:43-54 | Invariant kept by every load: the cache holds only successful bodies, every successfully fetched path is cached, and each successful path is requested at most once. |
| Loader.SuccessfulPathsFetchedOnce | js/builder.js:37-54 | Over any sequence of loads, a path whose fetch succeeds is requested at most once. |
| Loader.FreshBuilderCacheFaithful | js/builder.js:28-62 | A new builder, with an empty cache and no requests, satisfies the cache invariant. |
| Loader.OccurrencesPositive | js/builder.js:37-54 | A path was requested a positive number of times exactly when it is in the request log. |
| Loader.BuilderRunsScriptsTwice | js/builder.js:83-100 | Showing a cached fragment in two placeholders adds two head copies of each of its scripts: the builder's copier does not deduplicate. |
| Loader.LoadUncached | js/main.js:198-214 | A missing placeholder is a no-op. Otherwise there is exactly one request (no cache). A failed load leaves the document as it was, with no error block. A successful one sets the placeholder's markup to the body. |
| Loader.LoadUncachedCovers | js/main.js:198-214 | With the corrected copier: after a successful load, every script of the fragment has a script of the same identity outside the placeholder. |
| Loader.LoadUncachedKeepsHeadUnique | js/main.js:198-214 | With the corrected copier: an uncached load never puts a second head copy of an identity in the document. |
| Loader.SecondLoadActivatesNothing | js/main.js:198-256 | With the corrected copier: loading the same fragment a second time, into the same placeholder or another, requests it again but adds nothing to the head. |
| Loader.FragmentCovered | js/main.js:216-256 | After the corrected copier runs over an injected fragment, every tag of the fragment has its identity outside the mount. |
| Loader.LoadHomePageContent | js/main.js:258-271 | With the corrected copier: with all six placeholders present, the six sections are requested once each, in order: banner, advantages, handbook, worldmap, community, story. In every case at most six requests are made, the placeholders are kept, and no identity ends up twice in the head if none was there twice before. |
| Loader.LoadSections | js/main.js:268-270 | The sections load one after the other. The request log grows by the paths of the sections whose placeholder exists, in order. |
| Loader.AllMountedPaths | js/main.js:259-270 | When every section's placeholder exists, every section's path is requested, in order. |
| Scripts.InjectPartition | js/main.js:206 | Scripts outside the mount are kept. The mount's scripts become exactly the fragment's inert, unprocessed copies. |
| Scripts.InjectKeepsHead | js/builder.js:38 | Injecting markup never changes how many head scripts an identity has. |
| Scripts.CopyScriptsToHead | js/builder.js:83-100 | Every script leaves the mount, and one head copy per original is appended in order: the `src` if there is one, otherwise the text. |
| Scripts.CopyScriptsToHeadAddsEveryCopy | js/builder.js:83-100 | Each identity's head count grows by the number of mount scripts with that identity, whatever the head already held. |
| Scripts.ExecuteScriptsAsWritten | js/main.js:216-256 | As written, the copier marks every visited mount script processed and appends nothing. This holds for inline scripts, and for external scripts under the verbatim-`src` abstraction (see Left out). |
| Scripts.AsWrittenNeverActivates | js/main.js:224-246 | As written, no injected script ever reaches the head. The duplicate check finds the inert copy `innerHTML` put in the mount. This holds for inline scripts, and for external scripts whose `src` attribute is already absolute (see Left out). |
| Scripts.ExecuteScripts | js/main.js:216-256 | Corrected copier. Every mount script ends processed, and processed ones are skipped. A pending script gets a head copy exactly when no script outside the mount has its identity. Appended copies have pairwise distinct identities, and each comes from a pending script. |
| Scripts.Run | js/main.js:217-255 | The loop over the mount's scripts, position by position, keeps the originals-marked, new-copies and coverage invariants. |
| Scripts.NothingNewNothingActivated | js/main.js:230-244 | When every pending script's identity is already outside the mount, nothing is appended. |
| Scripts.ExecuteScriptsKeepsHeadUnique | js/main.js:226-254 | If no identity is in the head twice before the copier runs, none is afterwards. |
| Scripts.HeadCountVisited | js/main.js:231 | Marking scripts processed does not change any head count. |
| Text.Trim | js/main.js:136 | `trim` returns an infix of the input, with only whitespace cut on either side, that neither starts nor ends with whitespace. |
| Text.TrimEmptyIff | js/main.js:122 | A string trims to empty exactly when it is all whitespace. |
| Text.TrimIdempotent | js/main.js:136 | Trimming twice is trimming once. |
| Text.IndexOf | js/builder.js:182 | The leftmost occurrence, or none exactly when the pattern does not occur. |
| Text.ReplaceFirst | js/builder.js:182 | A string pattern replaces only its leftmost occurrence. Without an occurrence the string is unchanged. |
| Text.Split | js/main.js:307 | `split('.')` yields at least one piece, and no piece contains the separator. |
| Text.JoinSplit | js/main.js:307 | Joining the pieces with the separator gives back the original string. |
| Text.SplitAtSeparator | js/main.js:307 | Splitting `a + "." + b` is splitting `a` and `b` separately. |
| ContactForm.MatchName | js/main.js:135-137 | A one-pass matcher that accepts exactly the language of `^[A-Za-z\s]+$`. It is not code of the site (which calls `RegExp.test`); it shows that the pattern is decided by one left-to-right scan. |
| ContactForm.MatchEmail | js/main.js:139-142 | A two-pass matcher that accepts exactly the language of `^[^\s@]+@[^\s@]+\.[^\s@]+$`. It is not code of the site (which calls `RegExp.test`); it shows that the pattern is decided by scans without backtracking. |
| ContactForm.AcceptedNameHasLetterEnds | js/main.js:135-137 | An accepted name, once trimmed, starts and ends with an ASCII letter. |
| ContactForm.AcceptedEmailHasOneAt | js/main.js:139-142 | An accepted address contains exactly one '@'. |
| ContactForm.ValidatorsIgnoreOuterWhitespace | js/main.js:135-142 | Both validators give the same answer on a field and on its trimmed form. |
| ContactForm.HandleContactForm | js/main.js:97-133 | Name, then e-mail, then a non-blank message are checked. Only the first failure is reported, each case in both directions. The form is reset exactly when all three pass. The text shown is read from the content by a direct chain `contact.form.validation.<field>Required` or `contact.form.success`, and is absent when that chain throws. |
| ContactForm.FallbackContentShowsNothing | js/main.js:106-132 | With the fallback content every submission throws before showing a text; an accepted form has still been reset. |
| ContactForm.ContactTextsShown | js/main.js:106-132 | When every section on the way is present, the text shown is what `getData` reads at the same path. |
| ContactForm.BlankMessageRejected | js/main.js:122-128 | An all-whitespace message is never accepted, and the form is not reset, whatever the content. |
| SiteData.Step | js/main.js:307 | `obj && obj[key]` passes a falsy value through unchanged. On an object it reads the own property, or `undefined` when the property is missing. |
| SiteData.ArrayIndex | js/main.js:307 | A key names an element position exactly when it is a non-empty string of decimal digits with no leading zero (other than "0" itself), and the position is the key's decimal value. |
| SiteData.FalsyAbsorbs | js/main.js:307 | Once the lookup reaches a falsy value (a missing key included), the rest of the path leaves it unchanged. |
| SiteData.GetDataCompose | js/main.js:306-308 | Looking up "a.b" is looking up "b" in the result of looking up "a". |
| SiteData.MissingStaysMissing | js/main.js:306-308 | If path "a" is missing, every longer path "a.b" is missing. |
| SiteData.GetDataSingleKey | js/main.js:306-308 | A path without a dot is a single property read. |
| SiteData.FallbackNavigationLabels | js/main.js:34-51 | The fallback content has every navigation label under "navigation.<key>", and each is non-empty. |
| SiteData.FallbackHasNoContactTexts | js/main.js:34-51 | The fallback content has no `contact` section, so every "contact.…" path is missing. |
| SiteData.Access | js/main.js:109 | A direct property read throws exactly on `undefined` and `null`; on a truthy value it reads what the guarded `getData` step reads. |
| SiteData.AccessAfterMissing | js/main.js:306-308 | Where `getData` gives `undefined` for a path, a direct chain reading one more property through it throws. |
| SiteData.AccessAgreesWhenTruthy | js/main.js:306-308 | Along a path whose every intermediate value is truthy, the direct chain does not throw and reads what `getData` reads. |
| SiteData.ChainThroughMissingSection | js/main.js:109 | A direct chain through a section an object lacks throws. |
| SiteData.FallbackContactChainThrows | js/main.js:34-51 | On the fallback content every chain `this.data.contact.…` throws. |
| Routing.GetCurrentPage | js/builder.js:315-323 | "home" exactly when no page marker occurs in the path. Otherwise the result is the first page, in the order news, contacts, privacy, cookies, disclaimer, whose marker occurs. |
| Routing.NewsMarkerWins | js/builder.js:317 | A path containing "tung-news" is the news page, whatever else it contains. |
| Routing.NavigateToPage | js/builder.js:181-196 | No navigation exactly when the stripped name is "index" or empty. Otherwise the stripped name is returned, for recording in `window.gameWebsite.currentPage` when that object exists, and the original, unstripped link is loaded. |
| Routing.PageOfRelativeLink | js/builder.js:182 | Stripping "./name.html" gives "name" for a dot-free name. |
| Routing.NavigateRelativeLink | js/builder.js:181-196 | "./index.html" and "./.html" stay put, and any other "./name.html" navigates to itself. |
| Routing.OnNavLinkClick | js/builder.js:104-113 | A click is routed through `navigateToPage` exactly when the `href` exists and starts with "./". |
| News.QuoteFrom | js/news.js:80 | `[^']+` stops at the first quote at or after the start, or at the end. |
| Text.SkipWhitespace | js/news.js:80 | `\s*` stops at the first non-whitespace character at or after the start, or at the end. |
| News.MatchAt | js/news.js:80 | A match at a position starts with the call `openModal(` there. Both captured groups are non-empty and quote-free. |
| News.MatchAtSound | js/news.js:80 | Every match is the pattern spelled out at its position: opener, first group, `',`, whitespace, quote, second group, quote. |
| News.MatchAtComplete | js/news.js:80 | Wherever the pattern is spelled out with well-formed parts, the match there captures exactly those parts. |
| News.FirstMatchFrom | js/news.js:80 | The leftmost position at or after the start where the pattern matches, or none when it matches nowhere. |
| News.Match | js/news.js:79-81 | A match exists exactly when the pattern matches at some position, and then the source contains `openModal(`. The text group is non-empty and quote-free. |
| News.UnescapeWithoutQuote | js/news.js:82 | The `\'` replacement is the identity on quote-free text, such as a captured group. |
| News.ContentSource | js/news.js:73-74 | The source is `data-content` when it is non-empty, otherwise `onclick`. |
| News.FullContent | js/news.js:78-84 | Non-empty exactly when the source exists and matches. It is then the second group, which has no quote. |
| News.ReadMore | js/news.js:67-93 | The title is always the item's title, and the image comes from the button. The text is the extracted one, or the item's own content when extraction fails. |
| News.PlainDataContentNeverShown | js/news.js:73-93 | A non-empty `data-content` without the pattern is never displayed: the item's content is. |
| News.SpelledOutTextShown | js/news.js:73-93 | When the leftmost match spells out `openModal('x', 'y'`, the modal shows `y`. |
| News.OpenModal | js/news.js:11-33 | With the modal, title, content and image elements present: the texts are set, the modal is shown, scrolling is locked, and the image is shown exactly when its URL is truthy. With the image element missing, only the texts are set: the handler throws on the image before showing the modal, so display and scrolling are unchanged. Without the modal, title or content element nothing changes. |
| News.CloseModal | js/news.js:36-41 | The modal is hidden and overflow set to auto, or nothing changes when the modal is missing. |
| News.EscapeOnlyClosesShown | js/news.js:58-62 | Escape on a modal that is not shown changes nothing. |
| News.OpenThenEscape | js/news.js:11-62 | Escape right after opening hides the modal and unlocks scrolling. |
| News.StepKeepsScrollLock | js/news.js:11-62 | Every event keeps "modal shown" and "scrolling locked" in step. |
| News.EventsKeepScrollLock | js/news.js:11-62 | From the page as loaded, "shown" and "locked" agree after any sequence of events. |
| CookieConsent.CheckConsentStatus | js/cookie-consent.js:17-25 | With a banner, it is hidden exactly when the stored value is "true" and shown otherwise. Storage is untouched. |
| CookieConsent.Init | js/cookie-consent.js:10-15 | Listeners are installed only when both the banner and the button exist. Otherwise the banner is not touched. |
| CookieConsent.AcceptCookies | js/cookie-consent.js:42-54 | Stores "true" under the key and keeps every other stored entry. Consent then holds, and the banner is hidden. |
| CookieConsent.ClearConsent | js/cookie-consent.js:94-97 | Removes only the key, so consent no longer holds, and shows the banner. |
| CookieConsent.HideBar | js/cookie-consent.js:56-60 | Sets display none when the banner exists. Storage is untouched. |
| CookieConsent.ShowBar | js/cookie-consent.js:62-67 | Sets display block and adds the fade-in class when the banner exists. |
| CookieConsent.AcceptIdempotent | js/cookie-consent.js:42-47 | Accepting twice is accepting once. |
| CookieConsent.ClearAfterAccept | js/cookie-consent.js:90-97 | Consent holds after accepting and no longer holds after a subsequent clear. |
| CookieConsent.EnterOnlyOnButton | js/cookie-consent.js:35-39 | A key press changes the state only if it is Enter, with the focus on the accept button and listeners installed. |
| CookieConsent.StepKeepsBanner | js/cookie-consent.js:17-97 | Every event keeps the banner in step with the stored flag. |
| CookieConsent.BannerAlwaysFollowsConsent | js/cookie-consent.js:10-97 | From `init` on, after any events, the banner is hidden exactly when consent holds. |
| MobileMenu.Toggle | js/mobile-menu.js:69-73 | Each of the three flags flips. |
| MobileMenu.Close | js/mobile-menu.js:75-79 | All three flags are cleared. |
| MobileMenu.Open | js/mobile-menu.js:81-85 | All three flags are set. |
| MobileMenu.OperationsKeepAgreement | js/mobile-menu.js:69-85 | If the three flags agree before toggle, close or open, they agree after it. |
| MobileMenu.ToggleInvolution | js/mobile-menu.js:69-79 | Toggling twice restores the state. Closing is idempotent. On agreeing flags, toggling closes an open menu and opens a closed one. |
| MobileMenu.CloseTriggersClose | js/mobile-menu.js:43-66 | A nav-link click, an outside click or Escape leaves the menu closed once at least one listener set is installed. |
| MobileMenu.ButtonClickParity | js/builder.js:372-377 | A button click toggles once per installed listener set, so an even number of sets cancels out. |
| MobileMenu.NewInstance | js/mobile-menu.js:15-31 | A new instance is initialized, and installs its listeners, exactly when both the button and the nav exist. |
| MobileMenu.Poll | js/mobile-menu.js:16-27 | A still-polling instance initializes once both elements exist. Otherwise nothing changes. |
| MobileMenu.SetupBasic | js/builder.js:365-418 | The fallback installs its listener set only when both elements exist. |
| MobileMenu.InitializeMobileMenuAsWritten | js/builder.js:350-363 | As written, it returns early only when the current instance is initialized. Otherwise, with the header present, it installs one more listener set. |
| MobileMenu.AsWrittenButtonNeverOpens | js/builder.js:350-363 | As written, once the header arrives two listener sets are installed, so a button click leaves the menu as it was. |
| MobileMenu.InitializeMobileMenu | js/builder.js:350-363 | Corrected: an existing instance, initialized or still polling, is left to finish. Otherwise one listener set is installed when the header is present. |
| MobileMenu.ButtonOpensMenu | js/builder.js:350-363 | Corrected: exactly one listener set is installed, the instance is initialized, and a click opens a closed menu. |
| MobileMenu.CloseButtonUnderEachGuard | js/mobile-menu.js:33-66 | The corrected guard leaves the close button without a listener: the instance never listens on it and ignores clicks inside the nav, so a click there changes nothing. As written, without the class on `window`, the fallback's listener closes the menu. |

## Left out

- URL resolution of `script.src`: the property is absolute while the attribute may be relative. `src` is an opaque string, and the `script[src="…"]` selector compares it verbatim.
- `replaceDataPlaceholders`, `setupComponentEvents` (other than the link-click routing), `initializeComponentAnimations`, smooth scrolling, parallax and the animation delays. They are DOM plumbing or floating-point formatting.
- `processComponent` of the builder raising an exception after the markup is in place (its `catch` would then show the error block). The processing is modelled as not failing.
- `loadComponents`, `loadPageSpecificComponents` and the page-specific loaders. They only log or call the modelled loaders.
- Timers (`setTimeout` polling, the news delay, message timers), `gtag`, `CustomEvent` dispatch, `areCookiesEnabled`, and focus management (`focus()`). These are foreign calls or presentation. Polling is modelled as explicit `Poll` steps.
- Reading the response body failing after an ok status. It is folded into the transport error.
- A Read-More button outside any `.news-item`, or an item without a `.news-item-title` or `.news-item-content`. The source would throw on `closest` or on `.textContent` of null; the model always has an item with both parts.
- Writers of `localStorage` other than the consent script.
- Storage access that throws (storage disabled or full). `getItem`, `setItem` and `removeItem` are treated as never throwing; the storage is a total map.
- ContactForm.HandleContactForm: a form without a `name`, `email` or `message` field, for which `formData.get` gives `null` and the `trim()` call throws. The form's fields are always strings.
- MobileMenu.InitializeMobileMenu: the corrected guard does not wire the close button, because the `MobileMenu` class never listens on it. A complete fix would also add that listener to the class; `CloseButtonUnderEachGuard` states the gap.
- JavaScript strings index by UTF-16 code unit, while the model indexes by code point. Indexing a string that holds characters outside the Basic Multilingual Plane (`getData` on a string, in `SiteData.Member`) is not modelled as the browser does it.
- Interleavings of overlapping asynchronous loads. Each load is atomic.
- Loader.LoadHomePageContent: the order of requests is stated only when all six placeholders exist. With some missing, only the bound and the kept placeholders are stated. `LoadSections` gives the exact log in every case.
- Scripts.ExecuteScriptsAsWritten: for external scripts the result rests on `src` being compared verbatim. The `script.src` property is the resolved absolute URL, while the `script[src="…"]` selector matches the attribute text, so a script with a relative `src` does not match its own inert copy and would be copied to the head.
- Scripts.AsWrittenNeverActivates: proved for inline scripts and for external scripts whose `src` attribute is already absolute. A relative `src` does not match its resolved property, so such a script is copied to the head by the code as written.
- SiteData.Step: members inherited through the prototype (`length`, `constructor`, `toString` and the like) read as `undefined`, so `getData("site.title.length")` is `undefined` in the model. Numbers are integers only.
- ContactForm.HandleContactForm: a text that is present but not a string is handed on as it is; how `textContent` renders it is not modelled.
- Scripts.ExecuteScripts: its duplicate check looks only outside the mount being processed. This is the evidently intended behaviour, not the code as written (see Findings). The uncached loader uses this corrected copier.

## Findings

| source | as written | input that shows it | evidently intended | confidence | as-written member | corrected member |
|---|---|---|---|---|---|---|
| js/main.js:224-246 | The duplicate check of `executeScripts` searches the whole document, and the placeholder is already filled by `innerHTML`. So every script finds its own inert copy and returns early. | Any fragment with an inline script (or an external one whose `src` attribute is absolute), e.g. one `<script>` with text `t` loaded into a placeholder of a page with no other script: the copy with text `t` inside the placeholder matches itself, and nothing is run | Activate a script unless an equivalent one exists outside the fragment being processed | high; not executed | Scripts.AsWrittenNeverActivates | Scripts.ExecuteScripts |
| js/builder.js:350-363, js/mobile-menu.js:15-31 | `initializeMobileMenu` returns early only if `window.mobileMenu.isInitialized`. `window.MobileMenu` is never set, because a class declaration does not create a window property. So while the page's instance is still polling for the header, the fallback installs a second toggle listener on the button. | The page loads with both scripts. The header fragment arrives after `DOMContentLoaded`. The builder's fallback installs one toggle, and the instance's next poll installs another. A click toggles twice and the menu never opens | Leave an existing instance (even one still polling) to set the menu up, so that exactly one toggle listener exists. The guard fix alone swaps the double toggle for an unwired close button (the class never listens on it), so the class needs the close-button listener too; `MobileMenu.CloseButtonUnderEachGuard` states this | medium; assumes the page includes both scripts; not executed | MobileMenu.AsWrittenButtonNeverOpens | MobileMenu.ButtonOpensMenu |

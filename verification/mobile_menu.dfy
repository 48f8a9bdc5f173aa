/**
 * The mobile menu: three class flags that move together, the events that open and
 * close it, and how its click handlers get installed -- by a `MobileMenu` instance
 * polling for the header, or by the component builder's fallback.
 */
module MobileMenu {

  /** `mobile-nav` has class "active", `mobile-menu-btn` has class "active", and the
      body has class "mobile-menu-open". */
  datatype Menu = Menu(navActive: bool, buttonActive: bool, bodyOpen: bool)

  const Closed: Menu := Menu(false, false, false)
  const Opened: Menu := Menu(true, true, true)

  /** The three flags say the same thing. */
  predicate Agrees(m: Menu) {
    m.navActive == m.buttonActive == m.bodyOpen
  }

  /** `toggleMobileMenu()`: each flag flips on its own. */
  function Toggle(m: Menu): (r: Menu)
    ensures r.navActive != m.navActive && r.buttonActive != m.buttonActive && r.bodyOpen != m.bodyOpen
  {
    Menu(!m.navActive, !m.buttonActive, !m.bodyOpen)
  }

  /** `closeMobileMenu()`. */
  function Close(m: Menu): (r: Menu)
    ensures !r.navActive && !r.buttonActive && !r.bodyOpen
  {
    Closed
  }

  /** `openMobileMenu()`. */
  function Open(m: Menu): (r: Menu)
    ensures r.navActive && r.buttonActive && r.bodyOpen
  {
    Opened
  }

  /** Flags that agree keep agreeing, whatever is done to them. */
  lemma OperationsKeepAgreement(m: Menu)
    requires Agrees(m)
    ensures Agrees(Toggle(m)) && Agrees(Close(m)) && Agrees(Open(m))
  {
  }

  /** Toggling twice restores the menu; closing twice is closing once; toggling an
      agreeing menu opens it exactly when it was closed. */
  lemma ToggleInvolution(m: Menu)
    ensures Toggle(Toggle(m)) == m
    ensures Close(Close(m)) == Close(m)
    ensures Agrees(m) ==> Toggle(m) == (if m.navActive then Closed else Opened)
  {
  }

  // ---------------------------------------------------------------------------
  // Handlers and events
  // ---------------------------------------------------------------------------

  /** A set of listeners, installed either by `MobileMenu.setupMobileMenu` or by the
      builder's `setupBasicMobileMenu`; only the latter listens on the close button. */
  datatype Handlers = Full | Basic

  /** A click on the menu button (its propagation is stopped), on a link of the nav,
      on the nav's close button, anywhere outside button and nav, or Escape. */
  datatype Event = ButtonClick | LinkClick | CloseButtonClick | OutsideClick | Escape

  /** What one set of listeners does with an event. */
  function React(m: Menu, h: Handlers, hasCloseButton: bool, e: Event): Menu {
    match e
    case ButtonClick => Toggle(m)
    case LinkClick => Close(m)
    case OutsideClick => Close(m)
    case Escape => Close(m)
    case CloseButtonClick => if h == Basic && hasCloseButton then Close(m) else m
  }

  /** Every installed set of listeners reacts, in installation order. */
  function Dispatch(m: Menu, hs: seq<Handlers>, hasCloseButton: bool, e: Event): Menu
    decreases |hs|
  {
    if hs == [] then m else Dispatch(React(m, hs[0], hasCloseButton, e), hs[1..], hasCloseButton, e)
  }

  /** A link click, a click outside, or Escape closes the menu as soon as any
      listeners are installed, whatever state it was in. */
  lemma {:induction false} CloseTriggersClose(m: Menu, hs: seq<Handlers>, hasCloseButton: bool, e: Event)
    requires hs != [] && (e == LinkClick || e == OutsideClick || e == Escape)
    ensures Dispatch(m, hs, hasCloseButton, e) == Closed
    decreases |hs|
  {
    if |hs| > 1 {
      CloseTriggersClose(React(m, hs[0], hasCloseButton, e), hs[1..], hasCloseButton, e);
    }
  }

  /** A button click toggles once per installed set of listeners: with an even number
      of them it changes nothing. */
  lemma {:induction false} ButtonClickParity(m: Menu, hs: seq<Handlers>, hasCloseButton: bool)
    ensures Dispatch(m, hs, hasCloseButton, ButtonClick) == (if |hs| % 2 == 0 then m else Toggle(m))
    decreases |hs|
  {
    if hs != [] {
      ButtonClickParity(Toggle(m), hs[1..], hasCloseButton);
    }
  }

  // ---------------------------------------------------------------------------
  // Installation
  // ---------------------------------------------------------------------------

  /** The page as the menu code sees it: which elements exist, whether the class is
      reachable as `window.MobileMenu`, the `isInitialized` flag of every
      `MobileMenu` instance made so far, which of them `window.mobileMenu` holds, and
      the listeners installed. */
  datatype Page = Page(
    menu: Menu,
    hasButton: bool,
    hasNav: bool,
    hasCloseButton: bool,
    classOnWindow: bool,
    instances: seq<bool>,
    current: nat,
    hasCurrent: bool,
    handlers: seq<Handlers>)

  predicate Found(p: Page) {
    p.hasButton && p.hasNav
  }

  /** `window.mobileMenu`, when it holds an instance: that instance's `isInitialized`. */
  predicate CurrentInitialized(p: Page) {
    p.hasCurrent && p.current < |p.instances| && p.instances[p.current]
  }

  /** `window.mobileMenu = new MobileMenu()`: the constructor checks for the header at
      once; it installs its listeners and sets `isInitialized` only when both the
      button and the nav are there, and otherwise keeps polling. */
  function NewInstance(p: Page): (r: Page)
    ensures r.hasCurrent && r.current == |p.instances| && |r.instances| == |p.instances| + 1
    ensures r.instances[r.current] <==> Found(p)
    ensures r.handlers == p.handlers + (if Found(p) then [Full] else [])
  {
    Page(p.menu, p.hasButton, p.hasNav, p.hasCloseButton, p.classOnWindow,
         p.instances + [Found(p)], |p.instances|, true,
         p.handlers + (if Found(p) then [Full] else []))
  }

  /** A polling instance checks again: once both elements are there, it installs its
      listeners and sets `isInitialized`; an instance already set up has stopped. */
  function Poll(p: Page, i: nat): (r: Page)
    ensures |r.instances| == |p.instances| && r.current == p.current && r.hasCurrent == p.hasCurrent
    ensures i < |p.instances| && !p.instances[i] && Found(p) ==>
              r.instances == p.instances[i := true] && r.handlers == p.handlers + [Full]
    ensures !(i < |p.instances| && !p.instances[i] && Found(p)) ==> r == p
  {
    if i < |p.instances| && !p.instances[i] && Found(p) then
      p.(instances := p.instances[i := true], handlers := p.handlers + [Full])
    else p
  }

  /** The builder's `setupBasicMobileMenu()`. */
  function SetupBasic(p: Page): (r: Page)
    ensures r.handlers == p.handlers + (if Found(p) then [Basic] else [])
    ensures r.instances == p.instances && r.current == p.current && r.hasCurrent == p.hasCurrent
  {
    if Found(p) then p.(handlers := p.handlers + [Basic]) else p
  }

  /** The builder's `initializeMobileMenu()`, AS WRITTEN: it stands back only for an
      instance that has already found the header, and otherwise installs a second
      set of listeners even though an instance is still polling. */
  function InitializeMobileMenuAsWritten(p: Page): (r: Page)
    ensures CurrentInitialized(p) ==> r == p
    ensures !CurrentInitialized(p) && Found(p) ==> |r.handlers| == |p.handlers| + 1
  {
    if CurrentInitialized(p) then p
    else if p.classOnWindow then NewInstance(p)
    else SetupBasic(p)
  }

  /** `initializeMobileMenu()` as evidently intended: it stands back for any instance,
      since an instance that has not found the header yet is still polling for it. */
  function InitializeMobileMenu(p: Page): (r: Page)
    ensures p.hasCurrent ==> r == p
    ensures !p.hasCurrent && Found(p) ==> |r.handlers| == |p.handlers| + 1
  {
    if p.hasCurrent then p
    else if p.classOnWindow then NewInstance(p)
    else SetupBasic(p)
  }

  /** The page when its own `DOMContentLoaded` listener has made the `MobileMenu`
      instance and the header has not arrived yet: the instance is polling. */
  function BeforeHeader(classOnWindow: bool, hasCloseButton: bool): (p: Page)
    ensures !Found(p) && p.handlers == []
  {
    NewInstance(Page(Closed, false, false, hasCloseButton, classOnWindow, [], 0, false, []))
  }

  /** The header arrives with the button and the nav in it; the builder runs
      `initializeMobileMenu` in the same task, and the polling instance's next check
      then finds the elements. */
  function AfterHeaderAsWritten(classOnWindow: bool, hasCloseButton: bool): Page {
    var p := BeforeHeader(classOnWindow, hasCloseButton).(hasButton := true, hasNav := true);
    Poll(InitializeMobileMenuAsWritten(p), 0)
  }

  function AfterHeader(classOnWindow: bool, hasCloseButton: bool): Page {
    var p := BeforeHeader(classOnWindow, hasCloseButton).(hasButton := true, hasNav := true);
    Poll(InitializeMobileMenu(p), 0)
  }

  /** As written, two sets of listeners end up on the button, so a click toggles the
      menu twice: the menu button never opens the menu. */
  lemma AsWrittenButtonNeverOpens(classOnWindow: bool, hasCloseButton: bool, m: Menu)
    ensures var p := AfterHeaderAsWritten(classOnWindow, hasCloseButton);
            |p.handlers| == 2 && Dispatch(m, p.handlers, hasCloseButton, ButtonClick) == m
  {
    var p := AfterHeaderAsWritten(classOnWindow, hasCloseButton);
    ButtonClickParity(m, p.handlers, hasCloseButton);
  }

  /** With the guard on any instance, only the polling instance installs listeners,
      the instance is initialized, and a click on the closed menu opens it. */
  lemma ButtonOpensMenu(classOnWindow: bool, hasCloseButton: bool)
    ensures var p := AfterHeader(classOnWindow, hasCloseButton);
            && p.handlers == [Full]
            && CurrentInitialized(p)
            && Dispatch(Closed, p.handlers, hasCloseButton, ButtonClick) == Opened
  {
    var p := AfterHeader(classOnWindow, hasCloseButton);
    ButtonClickParity(Closed, p.handlers, hasCloseButton);
  }

  /** The close button under each guard. `MobileMenu.setupMobileMenu` never listens on
      it and its document listener ignores clicks inside the nav, so with the guard on
      any instance the close button does nothing. As written, without the class on
      `window`, it is the fallback's listener that closes the menu. */
  lemma CloseButtonUnderEachGuard(classOnWindow: bool, m: Menu)
    ensures Dispatch(m, AfterHeader(classOnWindow, true).handlers, true, CloseButtonClick) == m
    ensures Dispatch(m, AfterHeaderAsWritten(false, true).handlers, true, CloseButtonClick) == Closed
  {
    ButtonOpensMenu(classOnWindow, true);
    var q := AfterHeaderAsWritten(false, true);
    assert q.handlers == [Basic, Full];
  }
}

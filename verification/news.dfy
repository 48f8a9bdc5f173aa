/**
 * The news page: where a "Read More" button takes the article text from, the
 * `openModal('title', 'text'` pattern that text is extracted with, and the modal
 * dialog's visibility as a small state machine.
 */
module News {
  import opened Common
  import opened Text

  // ---------------------------------------------------------------------------
  // The pattern openModal\('([^']+)',\s*'([^']+)'
  // ---------------------------------------------------------------------------

  const Quote: char := '\''
  /** What `includes` looks for before the pattern is tried. */
  const Call: string := "openModal("
  const Opener: string := Call + [Quote]

  /** The first quote at or after `i`, or the end of `s` when there is none. */
  function QuoteFrom(s: string, i: nat): (r: nat)
    requires i <= |s|
    ensures i <= r <= |s|
    ensures forall k :: i <= k < r ==> s[k] != Quote
    ensures r < |s| ==> s[r] == Quote
    decreases |s| - i
  {
    if i == |s| || s[i] == Quote then i else QuoteFrom(s, i + 1)
  }

  /** The two captured groups of a match. */
  datatype Captures = Captures(first: string, second: string)

  /** Whether the pattern matches starting exactly at `p`, and what it captures. Both
      groups are greedy runs of non-quote characters that must end at a quote, and the
      whitespace run must end at a quote, so at most one match starts at `p`. */
  function MatchAt(s: string, p: nat): (r: Option<Captures>)
    ensures r.Some? ==> |r.value.first| > 0 && |r.value.second| > 0
    ensures r.Some? ==> Quote !in r.value.first && Quote !in r.value.second
    ensures r.Some? ==> OccursAt(s, Call, p)
  {
    if !OccursAt(s, Opener, p) then None
    else
      assert s[p..p + |Call|] == s[p..p + |Opener|][..|Call|];
      GroupsFrom(s, p + |Opener|)
  }

  /** The rest of the pattern, `([^']+)',\s*'([^']+)'`, from position `a` on. */
  function GroupsFrom(s: string, a: nat): (r: Option<Captures>)
    requires a <= |s|
    ensures r.Some? ==> |r.value.first| > 0 && |r.value.second| > 0
    ensures r.Some? ==> Quote !in r.value.first && Quote !in r.value.second
  {
    var e1 := QuoteFrom(s, a);
    if e1 == a || e1 == |s| || e1 + 1 == |s| || s[e1 + 1] != ',' then None
    else
      var b := SkipWhitespace(s, e1 + 2);
      if b == |s| || s[b] != Quote then None
      else
        var e2 := QuoteFrom(s, b + 1);
        if e2 == b + 1 || e2 == |s| then None
        else Some(Captures(s[a..e1], s[b + 1..e2]))
  }

  /** The text a match spells out, group by group. */
  function Rendered(x: string, w: string, y: string): string {
    Opener + x + [Quote, ','] + w + [Quote] + y + [Quote]
  }

  /** What the character classes of the pattern allow in each part. */
  predicate WellFormed(x: string, w: string, y: string) {
    |x| > 0 && |y| > 0 && Quote !in x && Quote !in y && AllWhitespace(w)
  }

  lemma SliceConcat(s: string, i: nat, j: nat, k: nat)
    requires i <= j <= k <= |s|
    ensures s[i..j] + s[j..k] == s[i..k]
  {
  }

  /** A match found at `p` is the pattern spelled out there. */
  lemma MatchAtSound(s: string, p: nat)
    requires MatchAt(s, p).Some?
    ensures var c := MatchAt(s, p).value;
            exists w :: WellFormed(c.first, w, c.second) && OccursAt(s, Rendered(c.first, w, c.second), p)
  {
    var a := p + |Opener|;
    var e1 := QuoteFrom(s, a);
    var b := SkipWhitespace(s, e1 + 2);
    var e2 := QuoteFrom(s, b + 1);
    var x, w, y := s[a..e1], s[e1 + 2..b], s[b + 1..e2];
    assert MatchAt(s, p) == GroupsFrom(s, a) == Some(Captures(x, y));
    WhitespaceSlice(s, e1 + 2, b);
    Assemble(s, p, e1, b, e2);
    assert WellFormed(x, w, y) && OccursAt(s, Rendered(x, w, y), p);
  }

  lemma WhitespaceSlice(s: string, i: nat, j: nat)
    requires i <= j <= |s| && forall k :: i <= k < j ==> IsWhitespace(s[k])
    ensures AllWhitespace(s[i..j])
  {
  }

  /** The text between the found positions spells the pattern out. */
  lemma Assemble(s: string, p: nat, e1: nat, b: nat, e2: nat)
    requires p + |Opener| <= e1 && e1 + 2 <= b && b + 1 <= e2 < |s|
    requires OccursAt(s, Opener, p)
    requires s[e1] == Quote && s[e1 + 1] == ',' && s[b] == Quote && s[e2] == Quote
    ensures s[p..e2 + 1] == Rendered(s[p + |Opener|..e1], s[e1 + 2..b], s[b + 1..e2])
  {
    var a := p + |Opener|;
    var x, w, y := s[a..e1], s[e1 + 2..b], s[b + 1..e2];
    assert s[e1..e1 + 2] == [Quote, ','];
    assert s[b..b + 1] == [Quote];
    assert s[e2..e2 + 1] == [Quote];
    SliceConcat(s, p, a, e1);
    assert s[p..e1] == Opener + x;
    SliceConcat(s, p, e1, e1 + 2);
    assert s[p..e1 + 2] == Opener + x + [Quote, ','];
    SliceConcat(s, p, e1 + 2, b);
    assert s[p..b] == Opener + x + [Quote, ','] + w;
    SliceConcat(s, p, b, b + 1);
    assert s[p..b + 1] == Opener + x + [Quote, ','] + w + [Quote];
    SliceConcat(s, p, b + 1, e2);
    assert s[p..e2] == Opener + x + [Quote, ','] + w + [Quote] + y;
    SliceConcat(s, p, e2, e2 + 1);
  }

  /** The parts of a spelled-out pattern, read back from the text. */
  lemma SpelledOut(s: string, p: nat, x: string, w: string, y: string)
    requires OccursAt(s, Rendered(x, w, y), p)
    ensures var a := p + |Opener|;
            var e1 := a + |x|;
            var b := e1 + 2 + |w|;
            && b + |y| + 2 <= |s|
            && s[p..a] == Opener && s[a..e1] == x
            && s[e1] == Quote && s[e1 + 1] == ','
            && s[e1 + 2..b] == w
            && s[b] == Quote && s[b + 1..b + 1 + |y|] == y && s[b + 1 + |y|] == Quote
  {
    var a := p + |Opener|;
    var e1 := a + |x|;
    var b := e1 + 2 + |w|;
    var e2 := b + 1 + |y|;
    var r2 := Opener + x;
    var r3 := r2 + [Quote, ','];
    var r4 := r3 + w;
    var r5 := r4 + [Quote];
    var r6 := r5 + y;
    assert s[p..e2 + 1] == r6 + [Quote];
    Peel(s, p, e2 + 1, r6, [Quote]);
    Peel(s, p, e2, r5, y);
    Peel(s, p, b + 1, r4, [Quote]);
    Peel(s, p, b, r3, w);
    Peel(s, p, e1 + 2, r2, [Quote, ',']);
    Peel(s, p, e1, Opener, x);
    assert s[e1..e1 + 2][0] == s[e1] && s[e1..e1 + 2][1] == s[e1 + 1];
    assert s[b..b + 1][0] == s[b];
    assert s[e2..e2 + 1][0] == s[e2];
  }

  lemma Peel(s: string, i: nat, j: nat, u: string, v: string)
    requires i <= j <= |s| && s[i..j] == u + v
    ensures j - |v| >= i && s[i..j - |v|] == u && s[j - |v|..j] == v
  {
    assert s[i..j - |v|] == s[i..j][..|u|];
    assert s[j - |v|..j] == s[i..j][|u|..];
  }

  /** Wherever the pattern is spelled out, the match at that position captures exactly
      its two groups. */
  lemma MatchAtComplete(s: string, p: nat, x: string, w: string, y: string)
    requires WellFormed(x, w, y) && OccursAt(s, Rendered(x, w, y), p)
    ensures MatchAt(s, p) == Some(Captures(x, y))
  {
    SpelledOut(s, p, x, w, y);
    var a := p + |Opener|;
    var e1 := a + |x|;
    var b := e1 + 2 + |w|;
    QuoteFreeSlice(s, a, x);
    QuoteFromFirst(s, a, e1);
    WhitespaceRun(s, e1 + 2, w);
    SkipWhitespaceFirst(s, e1 + 2, b);
    QuoteFreeSlice(s, b + 1, y);
    QuoteFromFirst(s, b + 1, b + 1 + |y|);
    GroupsFromAt(s, a, e1, b, b + 1 + |y|);
    assert OccursAt(s, Opener, p);
  }

  /** The groups read off once the positions the scan stops at are known. */
  lemma GroupsFromAt(s: string, a: nat, e1: nat, b: nat, e2: nat)
    requires a < e1 && e1 + 1 < |s| && s[e1 + 1] == ',' && QuoteFrom(s, a) == e1
    requires b < |s| && s[b] == Quote && SkipWhitespace(s, e1 + 2) == b
    requires b + 1 < e2 < |s| && QuoteFrom(s, b + 1) == e2
    ensures GroupsFrom(s, a) == Some(Captures(s[a..e1], s[b + 1..e2]))
  {
  }

  lemma QuoteFreeSlice(s: string, i: nat, x: string)
    requires i + |x| <= |s| && s[i..i + |x|] == x && Quote !in x
    ensures forall k :: i <= k < i + |x| ==> s[k] != Quote
  {
    forall k | i <= k < i + |x| ensures s[k] != Quote {
      assert s[k] == x[k - i] && x[k - i] in x;
    }
  }

  lemma WhitespaceRun(s: string, i: nat, w: string)
    requires i + |w| <= |s| && s[i..i + |w|] == w && AllWhitespace(w)
    ensures forall k :: i <= k < i + |w| ==> IsWhitespace(s[k])
  {
    forall k | i <= k < i + |w| ensures IsWhitespace(s[k]) {
      assert s[k] == w[k - i];
    }
  }

  lemma QuoteFromFirst(s: string, i: nat, j: nat)
    requires i <= j < |s| && s[j] == Quote && forall k :: i <= k < j ==> s[k] != Quote
    ensures QuoteFrom(s, i) == j
  {
  }

  lemma SkipWhitespaceFirst(s: string, i: nat, j: nat)
    requires i <= j < |s| && !IsWhitespace(s[j]) && forall k :: i <= k < j ==> IsWhitespace(s[k])
    ensures SkipWhitespace(s, i) == j
  {
  }

  /** Where the leftmost match at or after `p` starts, as `String.prototype.match`
      without the global flag finds it. */
  function FirstMatchFrom(s: string, p: nat): (r: Option<nat>)
    ensures r.Some? ==> p <= r.value <= |s| && MatchAt(s, r.value).Some?
    ensures r.Some? ==> forall k :: p <= k < r.value ==> MatchAt(s, k).None?
    ensures r.None? ==> forall k :: p <= k <= |s| ==> MatchAt(s, k).None?
    decreases |s| + 1 - p
  {
    if p > |s| then None
    else if MatchAt(s, p).Some? then Some(p)
    else FirstMatchFrom(s, p + 1)
  }

  /** `source.match(pattern)`: the groups of the leftmost match. */
  function Match(s: string): (r: Option<Captures>)
    ensures r.Some? ==> |r.value.second| > 0 && Quote !in r.value.second
    ensures r.Some? ==> exists p :: 0 <= p <= |s| && OccursAt(s, Call, p)
    ensures r.None? <==> forall p :: 0 <= p <= |s| ==> MatchAt(s, p).None?
  {
    match FirstMatchFrom(s, 0)
    case None => None
    case Some(p) => MatchAt(s, p)
  }

  /** `.replace(/\\'/g, "'")`: every backslash-quote pair becomes a quote. */
  function Unescape(t: string): (r: string)
    ensures |r| <= |t|
    decreases |t|
  {
    if |t| >= 2 && t[0] == '\\' && t[1] == Quote then [Quote] + Unescape(t[2..])
    else if t == [] then []
    else [t[0]] + Unescape(t[1..])
  }

  /** A captured group has no quote, so the unescaping leaves it as it is. */
  lemma {:induction false} UnescapeWithoutQuote(t: string)
    requires Quote !in t
    ensures Unescape(t) == t
    decreases |t|
  {
    if t != [] {
      assert t[1..] == t[1..];
      assert forall k :: 1 <= k < |t| ==> t[k] in t;
      assert Quote !in t[1..];
      UnescapeWithoutQuote(t[1..]);
    }
  }

  // ---------------------------------------------------------------------------
  // The "Read More" button
  // ---------------------------------------------------------------------------

  /** The attributes of a "Read More" button (`getAttribute` gives null for a
      missing one). */
  datatype Button = Button(dataContent: Option<string>, onclick: Option<string>, dataImage: Option<string>)

  /** The enclosing `.news-item`: the text of its title and of its content element. */
  datatype Item = Item(title: string, content: string)

  /** A JavaScript string value that is neither null nor empty. */
  predicate Truthy(v: Option<string>) {
    v.Some? && v.value != []
  }

  /** `data-content || onclick`. */
  function ContentSource(b: Button): (r: Option<string>)
    ensures Truthy(b.dataContent) ==> r == b.dataContent
    ensures !Truthy(b.dataContent) ==> r == b.onclick
  {
    if Truthy(b.dataContent) then b.dataContent else b.onclick
  }

  /** `fullContent`: the second group of the pattern, unescaped, or "" when the
      source is missing, lacks `openModal(` or does not match. */
  function FullContent(source: Option<string>): (r: string)
    ensures r != [] <==> source.Some? && Match(source.value).Some?
    ensures r != [] ==> r == Match(source.value).value.second && Quote !in r
  {
    match source
    case None => []
    case Some(c) =>
      if !Contains(c, "openModal(") then []
      else match Match(c)
        case None => []
        case Some(m) => UnescapeWithoutQuote(m.second); Unescape(m.second)
  }

  /** What the click handler passes to `openModal`: the title, the text, the image. */
  datatype Request = Request(title: string, text: string, image: Option<string>)

  function ReadMore(item: Item, b: Button): (r: Request)
    // the title always comes from the item, and the image from the button
    ensures r.title == item.title && r.image == b.dataImage
    // the extracted text when there is one, the item's own text otherwise
    ensures var src := ContentSource(b);
            if src.Some? && Match(src.value).Some? then r.text == Match(src.value).value.second
            else r.text == item.content
  {
    var full := FullContent(ContentSource(b));
    if full != [] then Request(item.title, full, b.dataImage)
    else Request(item.title, item.content, b.dataImage)
  }

  /** A plain-text `data-content` -- one the pattern does not match -- hides the
      `onclick` attribute and is never shown itself: the item's text is. */
  lemma PlainDataContentNeverShown(item: Item, b: Button)
    requires Truthy(b.dataContent) && Match(b.dataContent.value).None?
    ensures ReadMore(item, b).text == item.content
  {
  }

  /** A source that spells out the pattern at its leftmost match shows its second
      group, exactly as written there. */
  lemma SpelledOutTextShown(item: Item, b: Button, p: nat, x: string, w: string, y: string)
    requires ContentSource(b).Some?
    requires WellFormed(x, w, y) && OccursAt(ContentSource(b).value, Rendered(x, w, y), p)
    requires forall k :: 0 <= k < p ==> MatchAt(ContentSource(b).value, k).None?
    ensures ReadMore(item, b).text == y
  {
    var s := ContentSource(b).value;
    MatchAtComplete(s, p, x, w, y);
    var q := FirstMatchFrom(s, 0);
    assert q == Some(p);
  }

  // ---------------------------------------------------------------------------
  // The modal
  // ---------------------------------------------------------------------------

  /** An inline `style.display`: unset, "block" or "none". */
  datatype Display = Unset | Block | NoDisplay

  /** The body's inline `style.overflow`: unset, "hidden" or "auto". */
  datatype Overflow = Default | HiddenOverflow | Auto

  /** Which of the modal's elements the page has. */
  datatype Elements = Elements(modal: bool, title: bool, content: bool, image: bool, close: bool)

  datatype Modal = Modal(
    has: Elements,
    display: Display,
    overflow: Overflow,
    title: string,
    content: string,
    imageDisplay: Display,
    imageSrc: string)

  /** The page as loaded: nothing set yet. */
  function Initial(has: Elements): (m: Modal)
    ensures m.display == Unset && m.overflow == Default
  {
    Modal(has, Unset, Default, [], [], Unset, [])
  }

  /** `openModal(title, content, imageUrl)`. When the modal, title or content element
      is missing only an error is logged. A missing image element makes the handler
      throw after the texts are set, so the modal is not shown. */
  function OpenModal(m: Modal, title: string, content: string, image: Option<string>): (r: Modal)
    ensures r.has == m.has
    ensures !(m.has.modal && m.has.title && m.has.content) ==> r == m
    ensures m.has.modal && m.has.title && m.has.content ==> r.title == title && r.content == content
    ensures m.has.modal && m.has.title && m.has.content && m.has.image ==>
              && r.display == Block && r.overflow == HiddenOverflow
              && (r.imageDisplay == Block <==> Truthy(image))
              && (Truthy(image) ==> r.imageSrc == image.value)
              && (!Truthy(image) ==> r.imageSrc == m.imageSrc)
    ensures !m.has.image ==> r.display == m.display && r.overflow == m.overflow
  {
    if !(m.has.modal && m.has.title && m.has.content) then m
    else
      var texts := m.(title := title, content := content);
      if !m.has.image then texts
      else
        var pictured :=
          if Truthy(image) then texts.(imageSrc := image.value, imageDisplay := Block)
          else texts.(imageDisplay := NoDisplay);
        pictured.(display := Block, overflow := HiddenOverflow)
  }

  /** `closeModal()`. */
  function CloseModal(m: Modal): (r: Modal)
    ensures m.has.modal ==> r == m.(display := NoDisplay, overflow := Auto)
    ensures !m.has.modal ==> r == m
  {
    if m.has.modal then m.(display := NoDisplay, overflow := Auto) else m
  }

  /** The events the page reacts to. */
  datatype Event =
    | ReadMoreClick(item: Item, button: Button)
    | CloseClick
    | WindowClick(onModal: bool)
    | KeyDown(key: string)

  /** One event. The close button's handler and the window's click handler are only
      installed when their element exists; Escape closes only a shown modal. */
  function Step(m: Modal, e: Event): Modal {
    match e
    case ReadMoreClick(item, b) =>
      var q := ReadMore(item, b);
      OpenModal(m, q.title, q.text, q.image)
    case CloseClick => if m.has.close then CloseModal(m) else m
    case WindowClick(onModal) => if m.has.modal && onModal then CloseModal(m) else m
    case KeyDown(key) => if key == "Escape" && m.has.modal && m.display == Block then CloseModal(m) else m
  }

  /** Escape on a modal that is not shown changes nothing. */
  lemma EscapeOnlyClosesShown(m: Modal)
    requires m.display != Block
    ensures Step(m, KeyDown("Escape")) == m
  {
  }

  /** With every element present, opening then pressing Escape leaves the modal closed
      and the page scrollable. */
  lemma OpenThenEscape(m: Modal, title: string, content: string, image: Option<string>)
    requires m.has.modal && m.has.title && m.has.content && m.has.image
    ensures var r := Step(OpenModal(m, title, content, image), KeyDown("Escape"));
            r.display == NoDisplay && r.overflow == Auto
  {
  }

  /** The page is scroll-locked exactly while the modal is shown. */
  predicate ScrollLockedWhileShown(m: Modal) {
    (m.display == Block) <==> (m.overflow == HiddenOverflow)
  }

  /** Every event keeps the scroll lock in step with the modal, from the page as loaded
      on. */
  lemma {:induction false} EventsKeepScrollLock(has: Elements, events: seq<Event>)
    ensures ScrollLockedWhileShown(Run(Initial(has), events))
    decreases |events|
  {
    if events != [] {
      EventsKeepScrollLockFrom(Initial(has), events);
    }
  }

  function Run(m: Modal, events: seq<Event>): (r: Modal)
    ensures r.has == m.has
    decreases |events|
  {
    if events == [] then m else Run(Step(m, events[0]), events[1..])
  }

  lemma {:induction false} EventsKeepScrollLockFrom(m: Modal, events: seq<Event>)
    requires ScrollLockedWhileShown(m)
    ensures ScrollLockedWhileShown(Run(m, events))
    decreases |events|
  {
    if events != [] {
      StepKeepsScrollLock(m, events[0]);
      EventsKeepScrollLockFrom(Step(m, events[0]), events[1..]);
    }
  }

  lemma StepKeepsScrollLock(m: Modal, e: Event)
    requires ScrollLockedWhileShown(m)
    ensures ScrollLockedWhileShown(Step(m, e))
  {
  }
}

/**
 * The contact-form validation of the site's main script: the name and e-mail
 * validators (regular expressions applied to the trimmed field) and the order
 * in which the submit handler checks the three fields.
 */
module ContactForm {
  import opened Common
  import opened Text
  import SiteData

  predicate IsAsciiLetter(c: char) {
    'A' <= c <= 'Z' || 'a' <= c <= 'z'
  }

  /** The language of `/^[A-Za-z\s]+$/`: one or more ASCII letters or whitespace. */
  predicate NamePattern(t: string) {
    |t| > 0 && forall i :: 0 <= i < |t| ==> IsAsciiLetter(t[i]) || IsWhitespace(t[i])
  }

  /** `validateName`: the pattern is tested against the trimmed name. */
  predicate ValidName(name: string) {
    NamePattern(Trim(name))
  }

  /** A character the class `[^\s@]` accepts. */
  predicate Plain(c: char) {
    !IsWhitespace(c) && c != '@'
  }

  /** `t` matches `^[^\s@]+@[^\s@]+\.[^\s@]+$` with the '@' at `at` and the separating dot at `dot`. */
  predicate EmailSplitAt(t: string, at: int, dot: int) {
    && 0 < at && at + 1 < dot && dot + 1 < |t|
    && t[at] == '@' && t[dot] == '.'
    && forall j :: 0 <= j < |t| && j != at ==> Plain(t[j])
  }

  /** The language of `/^[^\s@]+@[^\s@]+\.[^\s@]+$/`. */
  predicate EmailPattern(t: string) {
    exists at, dot | 0 <= at < |t| && 0 <= dot < |t| :: EmailSplitAt(t, at, dot)
  }

  /** `validateEmail`: the pattern is tested against the trimmed address. */
  predicate ValidEmail(email: string) {
    EmailPattern(Trim(email))
  }

  /** A one-pass matcher for the name pattern. The site hands the pattern to the
      browser's regular-expression engine; this method is not code of the site but
      shows that the pattern is decided by a single left-to-right scan. */
  method MatchName(t: string) returns (ok: bool)
    ensures ok <==> NamePattern(t)
  {
    if |t| == 0 {
      return false;
    }
    var i := 0;
    while i < |t|
      invariant 0 <= i <= |t|
      invariant forall j :: 0 <= j < i ==> IsAsciiLetter(t[j]) || IsWhitespace(t[j])
    {
      if !(IsAsciiLetter(t[i]) || IsWhitespace(t[i])) {
        return false;
      }
      i := i + 1;
    }
    return true;
  }

  /** A two-pass matcher for the e-mail pattern: locate the only '@', then a dot
      with at least one character on each side inside the domain. Like MatchName it
      is not code of the site; it shows that the pattern is decided by left-to-right
      scans without backtracking. */
  method MatchEmail(t: string) returns (ok: bool)
    ensures ok <==> EmailPattern(t)
  {
    var at: int := -1;
    var i := 0;
    while i < |t|
      invariant 0 <= i <= |t|
      invariant -1 <= at < i
      invariant at >= 0 ==> t[at] == '@'
      invariant forall j :: 0 <= j < i && j != at ==> Plain(t[j])
    {
      if IsWhitespace(t[i]) {
        assert forall a, d :: EmailSplitAt(t, a, d) ==> a != i;
        return false;
      }
      if t[i] == '@' {
        if at >= 0 {
          assert forall a, d :: EmailSplitAt(t, a, d) ==> a == at && a == i;
          return false;
        }
        at := i;
      }
      i := i + 1;
    }
    if at <= 0 {
      assert forall a, d :: EmailSplitAt(t, a, d) ==> a == at;
      return false;
    }
    var k := at + 2;
    while k < |t| - 1
      invariant at + 2 <= k
      invariant forall j :: at + 2 <= j < k && j < |t| ==> t[j] != '.'
    {
      if t[k] == '.' {
        assert EmailSplitAt(t, at, k);
        return true;
      }
      k := k + 1;
    }
    assert forall a, d :: EmailSplitAt(t, a, d) ==> a == at && at + 2 <= d < k;
    return false;
  }

  /** An accepted name, once trimmed, begins and ends with a letter. */
  lemma AcceptedNameHasLetterEnds(name: string)
    requires ValidName(name)
    ensures IsAsciiLetter(Trim(name)[0]) && IsAsciiLetter(Trim(name)[|Trim(name)| - 1])
  {
  }

  /** The validators only ever see the trimmed field. */
  lemma ValidatorsIgnoreOuterWhitespace(s: string)
    ensures ValidName(Trim(s)) == ValidName(s)
    ensures ValidEmail(Trim(s)) == ValidEmail(s)
  {
    TrimIdempotent(s);
  }

  lemma {:induction false} CountCharAppend(a: string, b: string, c: char)
    ensures CountChar(a + b, c) == CountChar(a, c) + CountChar(b, c)
    decreases |a|
  {
    if a == [] {
      assert a + b == b;
    } else {
      assert (a + b)[0] == a[0];
      assert (a + b)[1..] == a[1..] + b;
      CountCharAppend(a[1..], b, c);
    }
  }

  /** An accepted address contains exactly one '@'. */
  lemma AcceptedEmailHasOneAt(t: string)
    requires EmailPattern(t)
    ensures CountChar(t, '@') == 1
  {
    var at, dot :| 0 <= at < |t| && 0 <= dot < |t| && EmailSplitAt(t, at, dot);
    assert t == t[..at] + [t[at]] + t[at + 1..];
    assert forall j :: 0 <= j < |t| && j != at ==> t[j] != '@';
    assert '@' !in t[..at];
    assert '@' !in t[at + 1..];
    CountCharAppend(t[..at] + [t[at]], t[at + 1..], '@');
    CountCharAppend(t[..at], [t[at]], '@');
  }

  /** The fields of the contact form. */
  datatype Field = Name | Email | Message

  datatype Form = Form(name: string, email: string, message: string)

  /** Which check decided a submission: an error next to one field, or success. */
  datatype Submission = Rejected(field: Field) | Accepted

  /** The outcome, the form afterwards, and the text handed to `showFormError` or
      `showSuccessMessage`: None when reading that text threw a TypeError, so that
      nothing was shown. */
  datatype FormResult = FormResult(outcome: Submission, form: Form, shown: Option<SiteData.Value>)

  /** The form after `reset()`: every field back to its empty default. */
  const EmptyForm := Form("", "", "")

  /** The message check: something other than whitespace was written. */
  predicate MessageGiven(message: string) {
    Trim(message) != []
  }

  /** The property chain under `this.data` that the handler reads for each outcome. */
  function TextKeys(s: Submission): (keys: seq<string>)
    ensures |keys| >= 3 && keys[0] == "contact" && keys[1] == "form"
  {
    match s
    case Rejected(Name) => ["contact", "form", "validation", "nameRequired"]
    case Rejected(Email) => ["contact", "form", "validation", "emailRequired"]
    case Rejected(Message) => ["contact", "form", "validation", "messageRequired"]
    case Accepted => ["contact", "form", "success"]
  }

  /** `handleContactForm` on the content `data`: the checks run in the order name,
      e-mail, message; only the first failure is reported, and the form is reset only
      when all three pass. The text to show is read by direct property access, after
      the reset on success. */
  function HandleContactForm(data: SiteData.Value, f: Form): (r: FormResult)
    ensures r.outcome == Rejected(Name) <==> !ValidName(f.name)
    ensures r.outcome == Rejected(Email) <==> ValidName(f.name) && !ValidEmail(f.email)
    ensures r.outcome == Rejected(Message) <==>
              ValidName(f.name) && ValidEmail(f.email) && !MessageGiven(f.message)
    ensures r.outcome == Accepted <==>
              ValidName(f.name) && ValidEmail(f.email) && MessageGiven(f.message)
    ensures r.form == if r.outcome == Accepted then EmptyForm else f
    ensures r.shown == SiteData.AccessPath(data, TextKeys(r.outcome))
  {
    var outcome :=
      if !ValidName(f.name) then Rejected(Name)
      else if !ValidEmail(f.email) then Rejected(Email)
      else if !MessageGiven(f.message) then Rejected(Message)
      else Accepted;
    FormResult(outcome, if outcome == Accepted then EmptyForm else f,
               SiteData.AccessPath(data, TextKeys(outcome)))
  }

  /** A blank message is never sent, whatever the other fields hold. */
  lemma BlankMessageRejected(data: SiteData.Value, f: Form)
    requires AllWhitespace(f.message)
    ensures HandleContactForm(data, f).outcome.Rejected?
    ensures HandleContactForm(data, f).form == f
  {
    TrimEmptyIff(f.message);
  }

  /** The built-in fallback content has no `contact` section, so every submission
      throws before any text is shown; an accepted form has still been reset. */
  lemma FallbackContentShowsNothing(f: Form)
    ensures HandleContactForm(SiteData.FallbackData, f).shown == None
    ensures HandleContactForm(SiteData.FallbackData, f).outcome == Accepted ==>
              HandleContactForm(SiteData.FallbackData, f).form == EmptyForm
  {
    SiteData.FallbackContactChainThrows(TextKeys(HandleContactForm(SiteData.FallbackData, f).outcome));
  }

  /** When every section on the way is present (not falsy), the text shown is exactly
      what `getData` reads at the same path. */
  lemma ContactTextsShown(data: SiteData.Value, f: Form)
    requires var keys := TextKeys(HandleContactForm(data, f).outcome);
             forall k :: 0 <= k < |keys| ==> !SiteData.Falsy(SiteData.Walk(data, keys[..k]))
    ensures HandleContactForm(data, f).shown ==
              Some(SiteData.Walk(data, TextKeys(HandleContactForm(data, f).outcome)))
  {
    SiteData.AccessAgreesWhenTruthy(data, TextKeys(HandleContactForm(data, f).outcome));
  }
}

/**
 * The document as the fragment loaders see it, and the two ways the site turns
 * the inert `<script>` elements that `innerHTML` inserts into running scripts:
 * the component builder's copier, which moves every script to the head, and
 * the main script's copier, which activates a script only when no equivalent
 * script is in the document yet.
 */
module Scripts {
  import opened Common

  /** Where a script element sits: in the head, elsewhere in the static page, or
      inside the mount point (placeholder) with the given id. */
  datatype Location = Head | Body | Within(mount: string)

  /** A `<script>` element: its `src` attribute if it has one, its text, whether
      `data-processed` is set, and where it sits. */
  datatype Script = Script(src: Option<string>, text: string, processed: bool, loc: Location)

  /** A script tag as it appears in fragment markup. */
  datatype Tag = Tag(src: Option<string>, text: string)

  /** The document: the markup of every mount point, by id, and every script element. */
  datatype Doc = Doc(mounts: map<string, string>, scripts: seq<Script>)

  /** What makes two scripts the same script: the `src` of an external one, the
      text of an inline one. */
  datatype Identity = External(url: string) | Inline(code: string)

  function IdentityOf(s: Script): Identity {
    match s.src
    case Some(u) => External(u)
    case None => Inline(s.text)
  }

  predicate InMount(s: Script, id: string) {
    s.loc == Within(id)
  }

  /** A script of the mount point that has not been marked processed. */
  predicate Pending(s: Script, id: string) {
    InMount(s, id) && !s.processed
  }

  /** The new element `document.createElement("script")` yields once its `src` or its
      text is copied from a script of the given identity, appended to the head. */
  function Activation(x: Identity): (r: Script)
    ensures IdentityOf(r) == x && r.loc == Head && !r.processed
  {
    match x
    case External(u) => Script(Some(u), "", false, Head)
    case Inline(t) => Script(None, t, false, Head)
  }

  /** The scripts that are not inside mount `id`, in order. */
  function Outside(ss: seq<Script>, id: string): (r: seq<Script>)
    ensures |r| <= |ss|
    ensures forall k :: 0 <= k < |r| ==> !InMount(r[k], id)
    ensures forall k :: 0 <= k < |ss| && !InMount(ss[k], id) ==> ss[k] in r
    ensures forall s :: s in r ==> s in ss
    decreases |ss|
  {
    if ss == [] then []
    else if InMount(ss[0], id) then Outside(ss[1..], id)
    else [ss[0]] + Outside(ss[1..], id)
  }

  /** The scripts inside mount `id`, in order. */
  function Inside(ss: seq<Script>, id: string): (r: seq<Script>)
    ensures |r| <= |ss|
    ensures forall k :: 0 <= k < |r| ==> InMount(r[k], id)
    ensures forall k :: 0 <= k < |ss| && InMount(ss[k], id) ==> ss[k] in r
    ensures forall s :: s in r ==> s in ss
    decreases |ss|
  {
    if ss == [] then []
    else if InMount(ss[0], id) then [ss[0]] + Inside(ss[1..], id)
    else Inside(ss[1..], id)
  }

  /** The inert script elements `innerHTML` creates for the tags of a fragment. */
  function Fresh(tags: seq<Tag>, id: string): (r: seq<Script>)
    ensures |r| == |tags|
    ensures forall k :: 0 <= k < |r| ==>
              Pending(r[k], id) && r[k].src == tags[k].src && r[k].text == tags[k].text
  {
    seq(|tags|, k requires 0 <= k < |tags| => Script(tags[k].src, tags[k].text, false, Within(id)))
  }

  /** `placeholder.innerHTML = html`: the mount's markup is replaced and so are the
      script elements inside it; nothing else in the document changes. */
  function Inject(d: Doc, id: string, html: string, tags: seq<Tag>): (r: Doc)
    requires id in d.mounts
    ensures r.mounts == d.mounts[id := html]
    ensures r.mounts.Keys == d.mounts.Keys
  {
    Doc(d.mounts[id := html], Outside(d.scripts, id) + Fresh(tags, id))
  }

  /** An injection keeps the scripts outside the mount and replaces those inside it
      by the fragment's. */
  lemma InjectPartition(d: Doc, id: string, html: string, tags: seq<Tag>)
    requires id in d.mounts
    ensures Outside(Inject(d, id, html, tags).scripts, id) == Outside(d.scripts, id)
    ensures Inside(Inject(d, id, html, tags).scripts, id) == Fresh(tags, id)
  {
    var outs := Outside(d.scripts, id);
    var created := Fresh(tags, id);
    OutsideAppend(outs, created, id);
    InsideAppend(outs, created, id);
    NoneInMount(outs, id);
    AllInMount(created, id);
  }

  /** The scripts after an injection: those outside the mount, then the fragment's. */
  lemma InjectScripts(d: Doc, id: string, html: string, tags: seq<Tag>)
    requires id in d.mounts
    ensures Inject(d, id, html, tags).scripts == Outside(d.scripts, id) + Fresh(tags, id)
  {
  }

  lemma {:induction false} OutsideAppend(a: seq<Script>, b: seq<Script>, id: string)
    ensures Outside(a + b, id) == Outside(a, id) + Outside(b, id)
    decreases |a|
  {
    if a == [] {
      assert a + b == b;
    } else {
      assert (a + b)[0] == a[0] && (a + b)[1..] == a[1..] + b;
      OutsideAppend(a[1..], b, id);
    }
  }

  lemma {:induction false} InsideAppend(a: seq<Script>, b: seq<Script>, id: string)
    ensures Inside(a + b, id) == Inside(a, id) + Inside(b, id)
    decreases |a|
  {
    if a == [] {
      assert a + b == b;
    } else {
      assert (a + b)[0] == a[0] && (a + b)[1..] == a[1..] + b;
      InsideAppend(a[1..], b, id);
    }
  }

  /** Filtering a run that has no script of the mount. */
  lemma {:induction false} NoneInMount(ss: seq<Script>, id: string)
    requires forall k :: 0 <= k < |ss| ==> !InMount(ss[k], id)
    ensures Outside(ss, id) == ss && Inside(ss, id) == []
    decreases |ss|
  {
    if ss != [] {
      NoneInMount(ss[1..], id);
    }
  }

  /** Filtering a run made only of scripts of the mount. */
  lemma {:induction false} AllInMount(ss: seq<Script>, id: string)
    requires forall k :: 0 <= k < |ss| ==> InMount(ss[k], id)
    ensures Inside(ss, id) == ss && Outside(ss, id) == []
    decreases |ss|
  {
    if ss != [] {
      AllInMount(ss[1..], id);
    }
  }

  // ---------------------------------------------------------------------------
  // The component builder's copier (`ComponentBuilder.executeScripts`)
  // ---------------------------------------------------------------------------

  /** The head elements created for a run of scripts, one each, in the same order. */
  function Activations(ss: seq<Script>): (r: seq<Script>)
    ensures |r| == |ss|
    ensures forall k :: 0 <= k < |r| ==> r[k] == Activation(IdentityOf(ss[k]))
  {
    seq(|ss|, k requires 0 <= k < |ss| => Activation(IdentityOf(ss[k])))
  }

  /** Every script of the mount is removed and a copy carrying its `src` (or, without
      one, its text) is appended to the head; nothing is deduplicated. */
  function CopyScriptsToHead(d: Doc, id: string): (r: Doc)
    ensures r.mounts == d.mounts
    ensures |r.scripts| == |d.scripts|
    ensures Inside(r.scripts, id) == []
    ensures Outside(r.scripts, id) == Outside(d.scripts, id) + Activations(Inside(d.scripts, id))
  {
    var ins := Inside(d.scripts, id);
    var outs := Outside(d.scripts, id);
    var r := Doc(d.mounts, outs + Activations(ins));
    OutsideAppend(outs, Activations(ins), id);
    InsideAppend(outs, Activations(ins), id);
    NoneInMount(outs, id);
    NoneInMount(Activations(ins), id);
    PartitionSize(d.scripts, id);
    r
  }

  lemma {:induction false} PartitionSize(ss: seq<Script>, id: string)
    ensures |Inside(ss, id)| + |Outside(ss, id)| == |ss|
    decreases |ss|
  {
    if ss != [] {
      PartitionSize(ss[1..], id);
    }
  }

  /** How many head scripts have identity `x`. */
  function HeadCount(ss: seq<Script>, x: Identity): nat
    decreases |ss|
  {
    if ss == [] then 0
    else (if ss[0].loc == Head && IdentityOf(ss[0]) == x then 1 else 0) + HeadCount(ss[1..], x)
  }

  /** How many scripts of a run have identity `x`. */
  function IdentityCount(ss: seq<Script>, x: Identity): nat
    decreases |ss|
  {
    if ss == [] then 0
    else (if IdentityOf(ss[0]) == x then 1 else 0) + IdentityCount(ss[1..], x)
  }

  lemma {:induction false} HeadCountAppend(a: seq<Script>, b: seq<Script>, x: Identity)
    ensures HeadCount(a + b, x) == HeadCount(a, x) + HeadCount(b, x)
    decreases |a|
  {
    if a == [] {
      assert a + b == b;
    } else {
      assert (a + b)[0] == a[0] && (a + b)[1..] == a[1..] + b;
      HeadCountAppend(a[1..], b, x);
    }
  }

  lemma {:induction false} HeadCountPartition(ss: seq<Script>, id: string, x: Identity)
    ensures HeadCount(ss, x) == HeadCount(Outside(ss, id), x)
    decreases |ss|
  {
    if ss != [] {
      HeadCountPartition(ss[1..], id, x);
    }
  }

  lemma {:induction false} HeadCountActivations(ss: seq<Script>, x: Identity)
    ensures HeadCount(Activations(ss), x) == IdentityCount(ss, x)
    decreases |ss|
  {
    if ss != [] {
      assert Activations(ss)[1..] == Activations(ss[1..]);
      HeadCountActivations(ss[1..], x);
    }
  }

  /** The builder's copier adds, for every identity, as many head scripts as the mount
      held scripts of that identity, whatever the head already contains: loading the
      same fragment twice runs each of its scripts twice. */
  lemma CopyScriptsToHeadAddsEveryCopy(d: Doc, id: string, x: Identity)
    ensures HeadCount(CopyScriptsToHead(d, id).scripts, x)
              == HeadCount(d.scripts, x) + IdentityCount(Inside(d.scripts, id), x)
  {
    var r := CopyScriptsToHead(d, id);
    HeadCountPartition(r.scripts, id, x);
    HeadCountAppend(Outside(d.scripts, id), Activations(Inside(d.scripts, id)), x);
    HeadCountActivations(Inside(d.scripts, id), x);
    HeadCountPartition(d.scripts, id, x);
  }

  // ---------------------------------------------------------------------------
  // The main script's deduplicating copier (`GameWebsite.executeScripts`)
  // ---------------------------------------------------------------------------

  /** The identities of all scripts in the document. */
  function Ids(ss: seq<Script>): set<Identity> {
    set k | 0 <= k < |ss| :: IdentityOf(ss[k])
  }

  /** The identities of the scripts outside mount `id`. */
  function IdsOutside(ss: seq<Script>, id: string): set<Identity> {
    set k | 0 <= k < |ss| && !InMount(ss[k], id) :: IdentityOf(ss[k])
  }

  /** A script after the copier has visited it: the mount's scripts end up processed. */
  function Visited(s: Script, id: string): Script {
    if InMount(s, id) then s.(processed := true) else s
  }

  /** One iteration of the copier, AS WRITTEN, at position `i`: a processed script is
      skipped; otherwise the script is marked processed, and a copy is appended to the
      head unless some script of the whole document -- the script itself included --
      already has its identity. */
  function VisitAsWritten(ss: seq<Script>, id: string, i: nat): (r: seq<Script>)
    requires i < |ss|
  {
    var s := ss[i];
    var marked := ss[i := s.(processed := true)];
    if !InMount(s, id) || s.processed then ss
    else if IdentityOf(s) in Ids(ss) then marked
    else marked + [Activation(IdentityOf(s))]
  }

  /** The copier AS WRITTEN over positions `i` up to `n`. Every visited script is left
      marked processed and nothing is ever appended: each script finds itself. */
  function RunAsWritten(ss: seq<Script>, id: string, n: nat, i: nat): (r: seq<Script>)
    requires i <= n <= |ss|
    ensures |r| == |ss|
    ensures forall j :: 0 <= j < |ss| ==> r[j] == (if i <= j < n then Visited(ss[j], id) else ss[j])
    decreases n - i
  {
    if i == n then ss
    else
      assert IdentityOf(ss[i]) in Ids(ss);
      RunAsWritten(VisitAsWritten(ss, id, i), id, n, i + 1)
  }

  /** `executeScripts(placeholder)` of the main script, as written. */
  function ExecuteScriptsAsWritten(d: Doc, id: string): (r: Doc)
    ensures r.mounts == d.mounts
    ensures r.scripts == seq(|d.scripts|, j requires 0 <= j < |d.scripts| => Visited(d.scripts[j], id))
  {
    Doc(d.mounts, RunAsWritten(d.scripts, id, |d.scripts|, 0))
  }

  /** The discrepancy: as written, the copier never activates anything -- the inert
      copy `innerHTML` put in the mount is itself "a script with the same content". */
  lemma AsWrittenNeverActivates(d: Doc, id: string, tags: seq<Tag>, html: string)
    requires id in d.mounts
    ensures var r := ExecuteScriptsAsWritten(Inject(d, id, html, tags), id);
            |r.scripts| == |Inject(d, id, html, tags).scripts|
            && forall k :: 0 <= k < |r.scripts| ==> r.scripts[k].loc != Head || r.scripts[k] in d.scripts
  {
    var d1 := Inject(d, id, html, tags);
    assert forall s :: s in Outside(d.scripts, id) ==> s in d.scripts;
    assert d1.scripts == Outside(d.scripts, id) + Fresh(tags, id);
  }

  /** One iteration of the copier as evidently intended: a script is activated unless a
      script OUTSIDE the mount being processed already has its identity. */
  function Visit(ss: seq<Script>, id: string, i: nat): (r: seq<Script>)
    requires i < |ss|
  {
    var s := ss[i];
    var marked := ss[i := s.(processed := true)];
    if !InMount(s, id) || s.processed then ss
    else if IdentityOf(s) in IdsOutside(ss, id) then marked
    else marked + [Activation(IdentityOf(s))]
  }

  /** The identities of the scripts appended after position `n`. */
  function AddedIds(ss: seq<Script>, n: nat): set<Identity> {
    set k | n <= k < |ss| :: IdentityOf(ss[k])
  }

  lemma IdsOutsideUpdate(ss: seq<Script>, id: string, i: nat, s: Script)
    requires i < |ss| && s.loc == ss[i].loc && IdentityOf(s) == IdentityOf(ss[i])
    ensures IdsOutside(ss[i := s], id) == IdsOutside(ss, id)
  {
    var t := ss[i := s];
    forall x | x in IdsOutside(t, id) ensures x in IdsOutside(ss, id) {
      var k :| 0 <= k < |t| && !InMount(t[k], id) && IdentityOf(t[k]) == x;
      assert IdentityOf(ss[k]) == x && !InMount(ss[k], id);
    }
    forall x | x in IdsOutside(ss, id) ensures x in IdsOutside(t, id) {
      var k :| 0 <= k < |ss| && !InMount(ss[k], id) && IdentityOf(ss[k]) == x;
      assert IdentityOf(t[k]) == x && !InMount(t[k], id);
    }
  }

  lemma IdsOutsideAppendHead(ss: seq<Script>, id: string, s: Script)
    requires s.loc == Head
    ensures IdsOutside(ss + [s], id) == IdsOutside(ss, id) + {IdentityOf(s)}
  {
    var t := ss + [s];
    forall x | x in IdsOutside(t, id) ensures x in IdsOutside(ss, id) + {IdentityOf(s)} {
      var k :| 0 <= k < |t| && !InMount(t[k], id) && IdentityOf(t[k]) == x;
      if k < |ss| {
        assert t[k] == ss[k];
      }
    }
    forall x | x in IdsOutside(ss, id) ensures x in IdsOutside(t, id) {
      var k :| 0 <= k < |ss| && !InMount(ss[k], id) && IdentityOf(ss[k]) == x;
      assert t[k] == ss[k];
    }
    assert !InMount(t[|ss|], id);
  }

  /** The effect of one iteration on the identities found outside the mount. */
  lemma VisitEffect(ss: seq<Script>, id: string, i: nat)
    requires i < |ss|
    ensures var r := Visit(ss, id, i);
            && |r| >= |ss|
            && r[..|ss|] == ss[i := Visited(ss[i], id)]
            && (Pending(ss[i], id) && IdentityOf(ss[i]) !in IdsOutside(ss, id) ==>
                  r == ss[i := Visited(ss[i], id)] + [Activation(IdentityOf(ss[i]))])
            && (!(Pending(ss[i], id) && IdentityOf(ss[i]) !in IdsOutside(ss, id)) ==>
                  r == ss[i := Visited(ss[i], id)])
            && IdsOutside(r, id) == IdsOutside(ss, id) + (if Pending(ss[i], id) then {IdentityOf(ss[i])} else {})
  {
    var s := ss[i];
    var marked := ss[i := Visited(s, id)];
    IdsOutsideUpdate(ss, id, i, Visited(s, id));
    if !InMount(s, id) || s.processed {
      assert marked == ss;
    } else if IdentityOf(s) !in IdsOutside(ss, id) {
      IdsOutsideAppendHead(marked, id, Activation(IdentityOf(s)));
    }
  }

  /** The original elements after a run over positions `i` up to `n`: the visited ones
      marked, the others untouched. */
  ghost predicate KeepsOriginals(ss: seq<Script>, id: string, n: nat, i: nat, r: seq<Script>) {
    && |r| >= |ss|
    && forall j :: 0 <= j < |ss| ==> r[j] == (if i <= j < n then Visited(ss[j], id) else ss[j])
  }

  /** The elements a run over positions `i` up to `n` appends: head copies, one per
      identity, of pending scripts of those positions not found outside the mount. */
  ghost predicate AppendsNewCopies(ss: seq<Script>, id: string, n: nat, i: nat, r: seq<Script>)
    requires |r| >= |ss| && n <= |ss|
  {
    && (forall k :: |ss| <= k < |r| ==> r[k] == Activation(IdentityOf(r[k])))
    && (forall k :: |ss| <= k < |r| ==> IdentityOf(r[k]) !in IdsOutside(ss, id))
    && (forall k :: |ss| <= k < |r| ==>
          exists j :: i <= j < n && Pending(ss[j], id) && IdentityOf(ss[j]) == IdentityOf(r[k]))
    && (forall k, k' :: |ss| <= k < k' < |r| ==> IdentityOf(r[k]) != IdentityOf(r[k']))
  }

  /** After a run over positions `i` up to `n`, the identities outside the mount are the
      old ones plus the appended ones, and they cover every pending script visited. */
  ghost predicate CoversPending(ss: seq<Script>, id: string, n: nat, i: nat, r: seq<Script>)
    requires n <= |ss|
  {
    && (forall j :: i <= j < n && Pending(ss[j], id) ==> IdentityOf(ss[j]) in IdsOutside(r, id))
    && IdsOutside(r, id) == IdsOutside(ss, id) + AddedIds(r, |ss|)
  }

  /** The copier as evidently intended over positions `i` up to `n`. */
  function Run(ss: seq<Script>, id: string, n: nat, i: nat): (r: seq<Script>)
    requires i <= n <= |ss|
    ensures KeepsOriginals(ss, id, n, i, r)
    ensures AppendsNewCopies(ss, id, n, i, r)
    ensures CoversPending(ss, id, n, i, r)
    decreases n - i
  {
    if i == n then
      assert AddedIds(ss, |ss|) == {};
      ss
    else
      var t := Visit(ss, id, i);
      VisitEffect(ss, id, i);
      var r := Run(t, id, n, i + 1);
      RunStepKeeps(ss, id, n, i, t, r);
      RunStepAppends(ss, id, n, i, t, r);
      RunStepCovers(ss, id, n, i, t, r);
      r
  }

  lemma RunStepKeeps(ss: seq<Script>, id: string, n: nat, i: nat, t: seq<Script>, r: seq<Script>)
    requires i < n <= |ss| && t == Visit(ss, id, i)
    requires KeepsOriginals(t, id, n, i + 1, r)
    ensures KeepsOriginals(ss, id, n, i, r)
  {
    VisitEffect(ss, id, i);
    forall j | 0 <= j < |ss|
      ensures r[j] == (if i <= j < n then Visited(ss[j], id) else ss[j])
    {
      assert t[j] == t[..|ss|][j];
    }
  }

  lemma RunStepAppends(ss: seq<Script>, id: string, n: nat, i: nat, t: seq<Script>, r: seq<Script>)
    requires i < n <= |ss| && t == Visit(ss, id, i)
    requires KeepsOriginals(t, id, n, i + 1, r)
    requires AppendsNewCopies(t, id, n, i + 1, r)
    requires CoversPending(t, id, n, i + 1, r)
    ensures |r| >= |ss|
    ensures AppendsNewCopies(ss, id, n, i, r)
  {
    VisitEffect(ss, id, i);
    assert IdsOutside(ss, id) <= IdsOutside(t, id);
    forall k | |ss| <= k < |r|
      ensures r[k] == Activation(IdentityOf(r[k]))
      ensures IdentityOf(r[k]) !in IdsOutside(ss, id)
      ensures exists j :: i <= j < n && Pending(ss[j], id) && IdentityOf(ss[j]) == IdentityOf(r[k])
    {
      assert k < |r|;
      if k < |t| {
        assert r[k] == t[k] == Activation(IdentityOf(ss[i]));
        assert Pending(ss[i], id) && IdentityOf(ss[i]) == IdentityOf(r[k]);
      } else {
        var j :| i + 1 <= j < n && Pending(t[j], id) && IdentityOf(t[j]) == IdentityOf(r[k]);
        assert t[j] == t[..|ss|][j] == ss[j];
        assert i <= j < n && Pending(ss[j], id) && IdentityOf(ss[j]) == IdentityOf(r[k]);
      }
    }
    assert forall k :: |ss| <= k < |r| ==>
             exists j :: i <= j < n && Pending(ss[j], id) && IdentityOf(ss[j]) == IdentityOf(r[k]);
    forall k, k' | |ss| <= k < k' < |r| ensures IdentityOf(r[k]) != IdentityOf(r[k']) {
      if k < |t| {
        assert r[k] == t[k];
        assert IdentityOf(t[k]) in IdsOutside(t, id) by {
          assert !InMount(t[k], id);
        }
      }
    }
  }

  lemma RunStepCovers(ss: seq<Script>, id: string, n: nat, i: nat, t: seq<Script>, r: seq<Script>)
    requires i < n <= |ss| && t == Visit(ss, id, i)
    requires KeepsOriginals(t, id, n, i + 1, r)
    requires CoversPending(t, id, n, i + 1, r)
    ensures CoversPending(ss, id, n, i, r)
  {
    VisitEffect(ss, id, i);
    forall j | i <= j < n && Pending(ss[j], id) ensures IdentityOf(ss[j]) in IdsOutside(r, id) {
      if j > i {
        assert t[j] == t[..|ss|][j] == ss[j];
      }
    }
    assert AddedIds(r, |ss|) == AddedIds(t, |ss|) + AddedIds(r, |t|) by {
      forall x | x in AddedIds(r, |ss|) ensures x in AddedIds(t, |ss|) + AddedIds(r, |t|) {
        var k :| |ss| <= k < |r| && IdentityOf(r[k]) == x;
        if k < |t| {
          assert r[k] == t[k];
        }
      }
      forall x | x in AddedIds(t, |ss|) ensures x in AddedIds(r, |ss|) {
        var k :| |ss| <= k < |t| && IdentityOf(t[k]) == x;
        assert r[k] == t[k];
      }
    }
    if |t| > |ss| {
      assert t[|ss|] == Activation(IdentityOf(ss[i]));
      assert AddedIds(t, |ss|) == {IdentityOf(ss[i])};
    } else {
      assert AddedIds(t, |ss|) == {};
    }
  }

  /** `executeScripts(placeholder)` of the main script, as evidently intended: every
      script of the mount ends processed; a pending script is activated (one head copy
      appended) exactly when no script outside the mount has its identity; and no
      identity is activated twice. */
  function ExecuteScripts(d: Doc, id: string): (r: Doc)
    ensures r.mounts == d.mounts
    ensures |r.scripts| >= |d.scripts|
    ensures forall j :: 0 <= j < |d.scripts| ==> r.scripts[j] == Visited(d.scripts[j], id)
    ensures forall k :: |d.scripts| <= k < |r.scripts| ==> r.scripts[k] == Activation(IdentityOf(r.scripts[k]))
    ensures forall j :: 0 <= j < |d.scripts| && Pending(d.scripts[j], id) ==>
              ((IdentityOf(d.scripts[j]) in AddedIds(r.scripts, |d.scripts|))
                 <==> (IdentityOf(d.scripts[j]) !in IdsOutside(d.scripts, id)))
    ensures forall k :: |d.scripts| <= k < |r.scripts| ==>
              exists j :: 0 <= j < |d.scripts| && Pending(d.scripts[j], id)
                          && IdentityOf(d.scripts[j]) == IdentityOf(r.scripts[k])
    ensures forall k, k' :: |d.scripts| <= k < k' < |r.scripts| ==>
              IdentityOf(r.scripts[k]) != IdentityOf(r.scripts[k'])
    ensures IdsOutside(r.scripts, id) == IdsOutside(d.scripts, id) + AddedIds(r.scripts, |d.scripts|)
  {
    var ss := Run(d.scripts, id, |d.scripts|, 0);
    forall j | 0 <= j < |d.scripts| && Pending(d.scripts[j], id)
      ensures (IdentityOf(d.scripts[j]) in AddedIds(ss, |d.scripts|))
                <==> (IdentityOf(d.scripts[j]) !in IdsOutside(d.scripts, id))
    {
      var x := IdentityOf(d.scripts[j]);
      if x in AddedIds(ss, |d.scripts|) {
        var k :| |d.scripts| <= k < |ss| && IdentityOf(ss[k]) == x;
      }
    }
    Doc(d.mounts, ss)
  }

  lemma FirstAddedId(ss: seq<Script>, n: nat)
    ensures n < |ss| ==> IdentityOf(ss[n]) in AddedIds(ss, n)
  {
  }

  /** When every pending script of the mount already has its identity outside the
      mount, the copier only marks them: nothing is activated. */
  lemma NothingNewNothingActivated(d: Doc, id: string)
    requires forall j :: 0 <= j < |d.scripts| && Pending(d.scripts[j], id) ==>
               IdentityOf(d.scripts[j]) in IdsOutside(d.scripts, id)
    ensures |ExecuteScripts(d, id).scripts| == |d.scripts|
  {
    var r := ExecuteScripts(d, id);
    if |r.scripts| > |d.scripts| {
      FirstAddedId(r.scripts, |d.scripts|);
      assert false;
    }
  }

  /** No identity occurs twice among the head scripts. */
  ghost predicate HeadUnique(ss: seq<Script>) {
    forall x :: HeadCount(ss, x) <= 1
  }

  lemma {:induction false} HeadCountedIsOutside(ss: seq<Script>, id: string, x: Identity)
    requires HeadCount(ss, x) > 0
    ensures x in IdsOutside(ss, id)
    decreases |ss|
  {
    if ss[0].loc == Head && IdentityOf(ss[0]) == x {
      assert !InMount(ss[0], id);
    } else {
      HeadCountedIsOutside(ss[1..], id, x);
      var k :| 0 <= k < |ss[1..]| && !InMount(ss[1..][k], id) && IdentityOf(ss[1..][k]) == x;
      assert ss[1..][k] == ss[k + 1];
    }
  }

  lemma {:induction false} HeadCountDistinct(ss: seq<Script>, x: Identity)
    requires forall k, k' :: 0 <= k < k' < |ss| ==> IdentityOf(ss[k]) != IdentityOf(ss[k'])
    ensures HeadCount(ss, x) <= 1
    ensures HeadCount(ss, x) == 1 ==> exists k :: 0 <= k < |ss| && IdentityOf(ss[k]) == x
    decreases |ss|
  {
    if ss != [] {
      HeadCountDistinct(ss[1..], x);
      if HeadCount(ss[1..], x) == 1 {
        var k :| 0 <= k < |ss[1..]| && IdentityOf(ss[1..][k]) == x;
        assert IdentityOf(ss[k + 1]) == x;
      }
    }
  }

  lemma {:induction false} HeadCountVisited(a: seq<Script>, b: seq<Script>, id: string, x: Identity)
    requires |a| == |b| && forall j :: 0 <= j < |a| ==> b[j] == Visited(a[j], id)
    ensures HeadCount(b, x) == HeadCount(a, x)
    decreases |a|
  {
    if a != [] {
      HeadCountVisited(a[1..], b[1..], id, x);
    }
  }

  lemma {:induction false} HeadCountFresh(tags: seq<Tag>, id: string, x: Identity)
    ensures HeadCount(Fresh(tags, id), x) == 0
    decreases |tags|
  {
    if tags != [] {
      assert Fresh(tags, id)[1..] == Fresh(tags[1..], id);
      HeadCountFresh(tags[1..], id, x);
    }
  }

  /** Injecting a fragment leaves the head alone. */
  lemma InjectKeepsHead(d: Doc, id: string, html: string, tags: seq<Tag>, x: Identity)
    requires id in d.mounts
    ensures HeadCount(Inject(d, id, html, tags).scripts, x) == HeadCount(d.scripts, x)
  {
    var r := Inject(d, id, html, tags);
    HeadCountAppend(Outside(d.scripts, id), Fresh(tags, id), x);
    HeadCountFresh(tags, id, x);
    HeadCountPartition(d.scripts, id, x);
  }

  /** The deduplicating copier never puts a second script of the same identity in the
      head: a head that starts without duplicates stays without them. */
  lemma ExecuteScriptsKeepsHeadUnique(d: Doc, id: string)
    requires HeadUnique(d.scripts)
    ensures HeadUnique(ExecuteScripts(d, id).scripts)
  {
    var r := ExecuteScripts(d, id).scripts;
    AppendedAreNew(d, id);
    forall x ensures HeadCount(r, x) <= 1 {
      HeadCountAfterCopy(d.scripts, r, id, x);
    }
  }

  /** The copier appends only identities that were nowhere outside the mount. */
  lemma AppendedAreNew(d: Doc, id: string)
    ensures var r := ExecuteScripts(d, id).scripts;
            forall k :: |d.scripts| <= k < |r| ==> IdentityOf(r[k]) !in IdsOutside(d.scripts, id)
  {
    var r := ExecuteScripts(d, id).scripts;
    var n := |d.scripts|;
    forall k | n <= k < |r| ensures IdentityOf(r[k]) !in IdsOutside(d.scripts, id) {
      var j :| 0 <= j < n && Pending(d.scripts[j], id) && IdentityOf(d.scripts[j]) == IdentityOf(r[k]);
      assert IdentityOf(r[k]) in AddedIds(r, n);
    }
  }

  /** One identity's head count after a copy that visits the originals and appends
      distinct identities that were nowhere outside the mount. */
  lemma HeadCountAfterCopy(ss: seq<Script>, r: seq<Script>, id: string, x: Identity)
    requires HeadCount(ss, x) <= 1
    requires |r| >= |ss| && forall j :: 0 <= j < |ss| ==> r[j] == Visited(ss[j], id)
    requires forall k :: |ss| <= k < |r| ==> IdentityOf(r[k]) !in IdsOutside(ss, id)
    requires forall k, k' :: |ss| <= k < k' < |r| ==> IdentityOf(r[k]) != IdentityOf(r[k'])
    ensures HeadCount(r, x) <= 1
  {
    var n := |ss|;
    assert r == r[..n] + r[n..];
    HeadCountAppend(r[..n], r[n..], x);
    HeadCountVisited(ss, r[..n], id, x);
    HeadCountDistinct(r[n..], x);
    if HeadCount(r[n..], x) == 1 && HeadCount(ss, x) == 1 {
      var k :| 0 <= k < |r[n..]| && IdentityOf(r[n..][k]) == x;
      assert IdentityOf(r[n + k]) == x;
      HeadCountedIsOutside(ss, id, x);
    }
  }
}

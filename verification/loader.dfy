/**
 * The two fragment loaders. The component builder's `loadComponent` keeps a
 * path-to-markup cache, shows an error block when a load fails and moves the
 * fragment's scripts to the head; the main script's `loadComponent` has no cache
 * and no error block and activates scripts through the deduplicating copier,
 * modelled here with the corrected copier (the copier as written is in Scripts).
 * The network is a total function from path to response, and the scripts a
 * fragment's markup contains are a total function from markup to tags; every
 * request is recorded in a log, so "no fetch" is observable.
 */
module Loader {
  import opened Common
  import opened Text
  import opened Scripts

  /** What `fetch(path)` yields: a response with its status and body text, or a
      failure to get one (a network error, or a body that could not be read). */
  datatype Response = Response(status: int, body: string) | TransportError

  /** `response.ok`. */
  predicate IsOk(resp: Response) {
    resp.Response? && 200 <= resp.status <= 299
  }

  /** The markup `showComponentError` puts in a placeholder whose load failed, on
      either side of the path. */
  const ErrorOpen: string := "\n            <div class=\"component-error\">\n                <p>Failed to load component: "
  const ErrorClose: string := "</p>\n                <button onclick=\"location.reload()\" class=\"btn\">Retry</button>\n            </div>\n        "

  function ErrorBlock(path: string): (r: string)
    ensures Contains(r, path)
  {
    var r := ErrorOpen + path + ErrorClose;
    assert r[|ErrorOpen|..|ErrorOpen| + |path|] == path;
    assert OccursAt(r, path, |ErrorOpen|);
    r
  }

  // ---------------------------------------------------------------------------
  // ComponentBuilder
  // ---------------------------------------------------------------------------

  /** The component builder's state: its cache, the document, and the requests made. */
  datatype Builder = Builder(cache: map<string, string>, doc: Doc, fetched: seq<string>)

  /** Put `html` into placeholder `id` and run `processComponent` on it, of which only
      the script copying is modelled. */
  function ShowComponent(d: Doc, id: string, html: string, parse: string -> seq<Tag>): (r: Doc)
    requires id in d.mounts
    ensures r.mounts == d.mounts[id := html]
    ensures Inside(r.scripts, id) == []
  {
    CopyScriptsToHead(Inject(d, id, html, parse(html)), id)
  }

  /** `showComponentError`: the error block replaces the placeholder's content. */
  function ShowError(d: Doc, id: string, path: string): (r: Doc)
    requires id in d.mounts
    ensures r.mounts == d.mounts[id := ErrorBlock(path)]
    ensures Inside(r.scripts, id) == []
    ensures forall x :: HeadCount(r.scripts, x) == HeadCount(d.scripts, x)
  {
    var html := ErrorBlock(path);
    InjectMarkupOnly(d, id, html);
    // The error markup carries no script: its only variable part is the path, and
    // every caller passes a literal path.
    Inject(d, id, html, [])
  }

  /** Markup without scripts leaves the mount without scripts and the head alone. */
  lemma InjectMarkupOnly(d: Doc, id: string, html: string)
    requires id in d.mounts
    ensures Inside(Inject(d, id, html, []).scripts, id) == []
    ensures forall x :: HeadCount(Inject(d, id, html, []).scripts, x) == HeadCount(d.scripts, x)
  {
    InjectPartition(d, id, html, []);
    assert Fresh([], id) == [];
    forall x {
      InjectKeepsHead(d, id, html, [], x);
    }
  }

  /** `ComponentBuilder.loadComponent(id, path)`. */
  function LoadComponent(b: Builder, id: string, path: string,
                         fetch: string -> Response, parse: string -> seq<Tag>): (r: Builder)
    // a missing placeholder: nothing happens, in particular no request
    ensures id !in b.doc.mounts ==> r == b
    // only the placeholder's content changes
    ensures r.doc.mounts.Keys == b.doc.mounts.Keys
    ensures forall k :: k in b.doc.mounts && k != id ==> r.doc.mounts[k] == b.doc.mounts[k]
    ensures id in b.doc.mounts ==> Inside(r.doc.scripts, id) == []
    // a cache hit: no request, the cached markup is shown
    ensures id in b.doc.mounts && path in b.cache ==>
              r.cache == b.cache && r.fetched == b.fetched && r.doc.mounts[id] == b.cache[path]
    // a cache miss: exactly one request
    ensures id in b.doc.mounts && path !in b.cache ==> r.fetched == b.fetched + [path]
    // ... which, when it succeeds, is cached and shown
    ensures id in b.doc.mounts && path !in b.cache && IsOk(fetch(path)) ==>
              r.cache == b.cache[path := fetch(path).body] && r.doc.mounts[id] == fetch(path).body
    // ... and otherwise leaves the cache alone and shows the error block naming the path
    ensures id in b.doc.mounts && path !in b.cache && !IsOk(fetch(path)) ==>
              && r.cache == b.cache
              && r.doc.mounts[id] == ErrorBlock(path)
              && Contains(r.doc.mounts[id], path)
              && forall x :: HeadCount(r.doc.scripts, x) == HeadCount(b.doc.scripts, x)
  {
    if id !in b.doc.mounts then b
    else if path in b.cache then
      b.(doc := ShowComponent(b.doc, id, b.cache[path], parse))
    else
      var resp := fetch(path);
      var log := b.fetched + [path];
      if IsOk(resp) then
        Builder(b.cache[path := resp.body], ShowComponent(b.doc, id, resp.body, parse), log)
      else
        Builder(b.cache, ShowError(b.doc, id, path), log)
  }

  /** `preloadComponent(path)`: always requests, and caches whatever body comes back,
      whatever its status; a failed request changes nothing else. */
  function PreloadComponent(b: Builder, path: string, fetch: string -> Response): (r: Builder)
    ensures r.doc == b.doc
    ensures r.fetched == b.fetched + [path]
    ensures fetch(path).Response? ==> r.cache == b.cache[path := fetch(path).body]
    ensures fetch(path).TransportError? ==> r.cache == b.cache
  {
    var log := b.fetched + [path];
    match fetch(path)
    case Response(_, body) => Builder(b.cache[path := body], b.doc, log)
    case TransportError => b.(fetched := log)
  }

  /** `clearCache()`. */
  function ClearCache(b: Builder): (r: Builder)
    ensures r.cache == map[] && r.doc == b.doc && r.fetched == b.fetched
  {
    b.(cache := map[])
  }

  /** Once a path has loaded successfully, loading it again -- into any placeholder --
      makes no request and shows the same markup. */
  lemma CacheHitAfterSuccess(b: Builder, id1: string, id2: string, path: string,
                             fetch: string -> Response, parse: string -> seq<Tag>)
    requires id1 in b.doc.mounts && id2 in b.doc.mounts
    requires path in b.cache || IsOk(fetch(path))
    ensures var b1 := LoadComponent(b, id1, path, fetch, parse);
            var b2 := LoadComponent(b1, id2, path, fetch, parse);
            b2.fetched == b1.fetched && b2.doc.mounts[id2] == b1.doc.mounts[id1] && b2.cache == b1.cache
  {
  }

  /** After `clearCache`, the next load of a path requests it again. */
  lemma ClearCacheForcesRequest(b: Builder, id: string, path: string,
                                fetch: string -> Response, parse: string -> seq<Tag>)
    requires id in b.doc.mounts
    ensures LoadComponent(ClearCache(b), id, path, fetch, parse).fetched == b.fetched + [path]
  {
  }

  /** A preloaded error page is cached like a component, and a later load shows it as
      the component: neither a request nor the error block. */
  lemma PreloadedErrorPageIsShown(b: Builder, id: string, path: string,
                                  fetch: string -> Response, parse: string -> seq<Tag>)
    requires id in b.doc.mounts
    requires fetch(path).Response? && !IsOk(fetch(path))
    ensures var b1 := PreloadComponent(b, path, fetch);
            var b2 := LoadComponent(b1, id, path, fetch, parse);
            b2.fetched == b1.fetched && b2.doc.mounts[id] == fetch(path).body
  {
  }

  /** How often `p` was requested. */
  function Occurrences(log: seq<string>, p: string): nat
    decreases |log|
  {
    if log == [] then 0 else (if log[0] == p then 1 else 0) + Occurrences(log[1..], p)
  }

  lemma {:induction false} OccurrencesAppend(log: seq<string>, q: string, p: string)
    ensures Occurrences(log + [q], p) == Occurrences(log, p) + (if q == p then 1 else 0)
    decreases |log|
  {
    if log == [] {
      assert log + [q] == [q];
    } else {
      assert (log + [q])[1..] == log[1..] + [q];
      OccurrencesAppend(log[1..], q, p);
    }
  }

  lemma {:induction false} OccurrencesPositive(log: seq<string>, p: string)
    ensures Occurrences(log, p) > 0 <==> p in log
    decreases |log|
  {
    if log != [] {
      OccurrencesPositive(log[1..], p);
    }
  }

  /** The builder's cache holds exactly the successfully fetched bodies, and no path that
      was fetched successfully has been requested more than once. */
  ghost predicate CacheFaithful(b: Builder, fetch: string -> Response) {
    && (forall p :: p in b.cache ==> IsOk(fetch(p)) && b.cache[p] == fetch(p).body)
    && (forall p :: p in b.fetched && IsOk(fetch(p)) ==> p in b.cache)
    && (forall p :: IsOk(fetch(p)) ==> Occurrences(b.fetched, p) <= 1)
  }

  /** Every `loadComponent` keeps the cache faithful. */
  lemma LoadComponentKeepsCacheFaithful(b: Builder, id: string, path: string,
                                        fetch: string -> Response, parse: string -> seq<Tag>)
    requires CacheFaithful(b, fetch)
    ensures CacheFaithful(LoadComponent(b, id, path, fetch, parse), fetch)
  {
    var r := LoadComponent(b, id, path, fetch, parse);
    if id in b.doc.mounts && path !in b.cache {
      forall p | IsOk(fetch(p)) ensures Occurrences(r.fetched, p) <= 1 {
        OccurrencesAppend(b.fetched, path, p);
        if p == path {
          OccurrencesPositive(b.fetched, p);
        }
      }
    }
  }

  /** A run of `loadComponent` calls, each given as (placeholder id, path). */
  function LoadAll(b: Builder, requests: seq<(string, string)>,
                   fetch: string -> Response, parse: string -> seq<Tag>): Builder
    decreases |requests|
  {
    if requests == [] then b
    else LoadAll(LoadComponent(b, requests[0].0, requests[0].1, fetch, parse), requests[1..], fetch, parse)
  }

  /** Starting from an empty cache, whatever placeholders and paths are loaded in
      whatever order, a path that loads successfully is requested at most once. */
  lemma {:induction false} SuccessfulPathsFetchedOnce(b: Builder, requests: seq<(string, string)>,
                                                      fetch: string -> Response, parse: string -> seq<Tag>)
    requires CacheFaithful(b, fetch)
    ensures CacheFaithful(LoadAll(b, requests, fetch, parse), fetch)
    ensures forall p :: IsOk(fetch(p)) ==> Occurrences(LoadAll(b, requests, fetch, parse).fetched, p) <= 1
    decreases |requests|
  {
    if requests != [] {
      LoadComponentKeepsCacheFaithful(b, requests[0].0, requests[0].1, fetch, parse);
      SuccessfulPathsFetchedOnce(LoadComponent(b, requests[0].0, requests[0].1, fetch, parse),
                                 requests[1..], fetch, parse);
    }
  }

  /** A fresh builder (`new ComponentBuilder()`) satisfies the cache invariant. */
  lemma FreshBuilderCacheFaithful(d: Doc, fetch: string -> Response)
    ensures CacheFaithful(Builder(map[], d, []), fetch)
  {
    forall p ensures Occurrences([], p) == 0 {
    }
  }

  /** The builder's copier does not deduplicate: showing the same cached fragment in
      two placeholders puts two head copies of each of its scripts in the document. */
  lemma BuilderRunsScriptsTwice(b: Builder, id1: string, id2: string, path: string,
                                fetch: string -> Response, parse: string -> seq<Tag>, x: Identity)
    requires id1 in b.doc.mounts && id2 in b.doc.mounts && path in b.cache
    ensures var b2 := LoadComponent(LoadComponent(b, id1, path, fetch, parse), id2, path, fetch, parse);
            HeadCount(b2.doc.scripts, x)
              == HeadCount(b.doc.scripts, x) + 2 * IdentityCount(Fresh(parse(b.cache[path]), id1), x)
  {
    var html := b.cache[path];
    var tags := parse(html);
    var d1 := Inject(b.doc, id1, html, tags);
    InjectPartition(b.doc, id1, html, tags);
    CopyScriptsToHeadAddsEveryCopy(d1, id1, x);
    InjectKeepsHead(b.doc, id1, html, tags, x);
    var e1 := CopyScriptsToHead(d1, id1);
    var d2 := Inject(e1, id2, html, tags);
    InjectPartition(e1, id2, html, tags);
    CopyScriptsToHeadAddsEveryCopy(d2, id2, x);
    InjectKeepsHead(e1, id2, html, tags, x);
    FreshIdentityCount(tags, id1, id2, x);
  }

  lemma {:induction false} FreshIdentityCount(tags: seq<Tag>, id1: string, id2: string, x: Identity)
    ensures IdentityCount(Fresh(tags, id1), x) == IdentityCount(Fresh(tags, id2), x)
    decreases |tags|
  {
    if tags != [] {
      assert Fresh(tags, id1)[1..] == Fresh(tags[1..], id1);
      assert Fresh(tags, id2)[1..] == Fresh(tags[1..], id2);
      FreshIdentityCount(tags[1..], id1, id2, x);
    }
  }

  // ---------------------------------------------------------------------------
  // GameWebsite
  // ---------------------------------------------------------------------------

  /** The main script's view: the document and the requests made. */
  datatype Site = Site(doc: Doc, fetched: seq<string>)

  /** The identity of the script element a tag of the fragment becomes. */
  function TagIdentity(t: Tag): Identity {
    match t.src
    case Some(u) => External(u)
    case None => Inline(t.text)
  }

  /** `GameWebsite.loadComponent(id, path)`: no cache; on success the markup replaces
      the placeholder's content and the deduplicating copier runs over it; a failure
      is only logged to the console, so the document is left as it was. What the
      copier leaves behind is stated by `LoadUncachedCovers` and
      `LoadUncachedKeepsHeadUnique`. */
  function LoadUncached(s: Site, id: string, path: string,
                        fetch: string -> Response, parse: string -> seq<Tag>): (r: Site)
    ensures id !in s.doc.mounts ==> r == s
    ensures id in s.doc.mounts ==> r.fetched == s.fetched + [path]
    ensures r.doc.mounts.Keys == s.doc.mounts.Keys
    ensures id in s.doc.mounts && !IsOk(fetch(path)) ==> r.doc == s.doc
    ensures id in s.doc.mounts && IsOk(fetch(path)) ==>
              r.doc.mounts == s.doc.mounts[id := fetch(path).body]
  {
    if id !in s.doc.mounts then s
    else
      var log := s.fetched + [path];
      var resp := fetch(path);
      if !IsOk(resp) then Site(s.doc, log)
      else Site(ExecuteScripts(Inject(s.doc, id, resp.body, parse(resp.body)), id), log)
  }

  /** The document a successful uncached load produces. */
  lemma LoadUncachedDoc(s: Site, id: string, path: string,
                        fetch: string -> Response, parse: string -> seq<Tag>)
    requires id in s.doc.mounts && IsOk(fetch(path))
    ensures LoadUncached(s, id, path, fetch, parse).doc
            == ExecuteScripts(Inject(s.doc, id, fetch(path).body, parse(fetch(path).body)), id)
  {
  }

  /** After a successful uncached load every script of the fragment has a script of
      the same identity outside the placeholder: it was activated or already known. */
  lemma LoadUncachedCovers(s: Site, id: string, path: string,
                           fetch: string -> Response, parse: string -> seq<Tag>)
    requires id in s.doc.mounts && IsOk(fetch(path))
    ensures var r := LoadUncached(s, id, path, fetch, parse);
            forall t :: t in parse(fetch(path).body) ==> TagIdentity(t) in IdsOutside(r.doc.scripts, id)
  {
    LoadUncachedDoc(s, id, path, fetch, parse);
    FragmentCovered(s.doc, id, fetch(path).body, parse(fetch(path).body));
  }

  /** An uncached load never puts a second copy of an identity in the head. */
  lemma LoadUncachedKeepsHeadUnique(s: Site, id: string, path: string,
                                    fetch: string -> Response, parse: string -> seq<Tag>)
    ensures HeadUnique(s.doc.scripts) ==> HeadUnique(LoadUncached(s, id, path, fetch, parse).doc.scripts)
  {
    if id in s.doc.mounts && IsOk(fetch(path)) {
      LoadUncachedDoc(s, id, path, fetch, parse);
      LoadKeepsHeadUnique(s.doc, id, fetch(path).body, parse(fetch(path).body));
    }
  }

  /** Injecting a fragment and running the copier over it keeps the head free of
      duplicates. */
  lemma LoadKeepsHeadUnique(d: Doc, id: string, html: string, tags: seq<Tag>)
    requires id in d.mounts
    ensures HeadUnique(d.scripts) ==> HeadUnique(ExecuteScripts(Inject(d, id, html, tags), id).scripts)
  {
    var d1 := Inject(d, id, html, tags);
    if HeadUnique(d.scripts) {
      forall x ensures HeadCount(d1.scripts, x) <= 1 {
        InjectKeepsHead(d, id, html, tags, x);
      }
      ExecuteScriptsKeepsHeadUnique(d1, id);
    }
  }

  /** After the copier has run over a fragment, every script of the fragment has a
      script of the same identity outside the mount. */
  lemma FragmentCovered(d: Doc, id: string, html: string, tags: seq<Tag>)
    requires id in d.mounts
    ensures forall t :: t in tags ==>
              TagIdentity(t) in IdsOutside(ExecuteScripts(Inject(d, id, html, tags), id).scripts, id)
  {
    var d1 := Inject(d, id, html, tags);
    var n0 := |Outside(d.scripts, id)|;
    InjectedPending(d, id, html, tags);
    PendingCovered(d1, id);
    forall t | t in tags ensures TagIdentity(t) in IdsOutside(ExecuteScripts(d1, id).scripts, id) {
      var k :| 0 <= k < |tags| && tags[k] == t;
      assert IdentityOf(d1.scripts[n0 + k]) == TagIdentity(tags[k]);
    }
  }

  /** The injected copies sit after the scripts outside the mount, pending, in the
      fragment's order. */
  lemma InjectedPending(d: Doc, id: string, html: string, tags: seq<Tag>)
    requires id in d.mounts
    ensures var d1 := Inject(d, id, html, tags);
            var n0 := |Outside(d.scripts, id)|;
            && n0 + |tags| == |d1.scripts|
            && forall j :: n0 <= j < |d1.scripts| ==>
                 Pending(d1.scripts[j], id) && IdentityOf(d1.scripts[j]) == TagIdentity(tags[j - n0])
  {
    InjectScripts(d, id, html, tags);
    FreshAfter(Outside(d.scripts, id), tags, id);
  }

  /** The copies of a fragment appended after `o`, one per tag. */
  lemma FreshAfter(o: seq<Script>, tags: seq<Tag>, id: string)
    ensures var f := o + Fresh(tags, id);
            && |f| == |o| + |tags|
            && forall j :: |o| <= j < |f| ==>
                 Pending(f[j], id) && IdentityOf(f[j]) == TagIdentity(tags[j - |o|])
  {
    var f := o + Fresh(tags, id);
    forall j | |o| <= j < |f|
      ensures Pending(f[j], id) && IdentityOf(f[j]) == TagIdentity(tags[j - |o|])
    {
      assert f[j] == Fresh(tags, id)[j - |o|];
    }
  }

  /** The copier leaves every pending script's identity outside the mount. */
  lemma PendingCovered(d: Doc, id: string)
    ensures var r := ExecuteScripts(d, id);
            forall j :: 0 <= j < |d.scripts| && Pending(d.scripts[j], id) ==>
              IdentityOf(d.scripts[j]) in IdsOutside(r.scripts, id)
  {
  }

  /** The identities outside a mount are those of the scripts `Outside` keeps. */
  lemma IdsOutsideOfOutside(ss: seq<Script>, id: string)
    ensures IdsOutside(ss, id) == Ids(Outside(ss, id))
  {
    var o := Outside(ss, id);
    forall x | x in IdsOutside(ss, id) ensures x in Ids(o) {
      var k :| 0 <= k < |ss| && !InMount(ss[k], id) && IdentityOf(ss[k]) == x;
      assert ss[k] in o;
      var m :| 0 <= m < |o| && o[m] == ss[k];
    }
    forall x | x in Ids(o) ensures x in IdsOutside(ss, id) {
      var m :| 0 <= m < |o| && IdentityOf(o[m]) == x;
      assert o[m] in ss;
      var k :| 0 <= k < |ss| && ss[k] == o[m];
      assert !InMount(ss[k], id);
    }
  }

  /** Loading a fragment a second time -- into the same placeholder or another one --
      requests it again but puts nothing more in the head: each of its scripts runs
      once. */
  lemma SecondLoadActivatesNothing(s: Site, a: string, b: string, path: string,
                                   fetch: string -> Response, parse: string -> seq<Tag>)
    requires a in s.doc.mounts && b in s.doc.mounts && IsOk(fetch(path))
    ensures var s1 := LoadUncached(s, a, path, fetch, parse);
            var s2 := LoadUncached(s1, b, path, fetch, parse);
            && s2.fetched == s1.fetched + [path]
            && forall x :: HeadCount(s2.doc.scripts, x) == HeadCount(s1.doc.scripts, x)
  {
    var html := fetch(path).body;
    var tags := parse(html);
    var s1 := LoadUncached(s, a, path, fetch, parse);
    var r1 := ExecuteScripts(Inject(s.doc, a, html, tags), a);
    LoadUncachedDoc(s, a, path, fetch, parse);
    assert s1.doc == r1;
    forall k | 0 <= k < |tags|
      ensures TagIdentity(tags[k]) in IdsOutside(Inject(r1, b, html, tags).scripts, b)
    {
      AlreadyOutside(s.doc, r1, a, b, html, tags, k);
    }
    SecondInjectAllKnown(r1, b, html, tags);
    ReinjectKeepsHead(r1, b, html, tags);
    LoadUncachedDoc(s1, b, path, fetch, parse);
  }

  /** Every pending script of a second injection already has its identity outside the
      placeholder when every script of the fragment does. */
  lemma SecondInjectAllKnown(r1: Doc, b: string, html: string, tags: seq<Tag>)
    requires b in r1.mounts
    requires forall k :: 0 <= k < |tags| ==>
               TagIdentity(tags[k]) in IdsOutside(Inject(r1, b, html, tags).scripts, b)
    ensures var d2 := Inject(r1, b, html, tags);
            forall j :: 0 <= j < |d2.scripts| && Pending(d2.scripts[j], b) ==>
              IdentityOf(d2.scripts[j]) in IdsOutside(d2.scripts, b)
  {
    var d2 := Inject(r1, b, html, tags);
    forall j | 0 <= j < |d2.scripts| && Pending(d2.scripts[j], b)
      ensures IdentityOf(d2.scripts[j]) in IdsOutside(d2.scripts, b)
    {
      assert d2.scripts[j] in Inside(d2.scripts, b);
      var k :| 0 <= k < |tags| && Fresh(tags, b)[k] == d2.scripts[j];
    }
  }

  /** When the copier then activates nothing, the head is as the first load left it. */
  lemma ReinjectKeepsHead(r1: Doc, b: string, html: string, tags: seq<Tag>)
    requires b in r1.mounts
    requires var d2 := Inject(r1, b, html, tags);
             forall j :: 0 <= j < |d2.scripts| && Pending(d2.scripts[j], b) ==>
               IdentityOf(d2.scripts[j]) in IdsOutside(d2.scripts, b)
    ensures forall x :: HeadCount(ExecuteScripts(Inject(r1, b, html, tags), b).scripts, x) == HeadCount(r1.scripts, x)
  {
    var d2 := Inject(r1, b, html, tags);
    NothingNewNothingActivated(d2, b);
    var r2 := ExecuteScripts(d2, b);
    forall x ensures HeadCount(r2.scripts, x) == HeadCount(r1.scripts, x) {
      HeadCountVisited(d2.scripts, r2.scripts, b, x);
      InjectKeepsHead(r1, b, html, tags, x);
    }
  }

  /** After a fragment has been loaded into `a`, each of its scripts has an identity
      outside any placeholder `b` once the fragment is injected there too. */
  lemma AlreadyOutside(d: Doc, r1: Doc, a: string, b: string, html: string, tags: seq<Tag>, k: nat)
    requires a in d.mounts && b in d.mounts && k < |tags|
    requires r1 == ExecuteScripts(Inject(d, a, html, tags), a)
    ensures TagIdentity(tags[k]) in IdsOutside(Inject(r1, b, html, tags).scripts, b)
  {
    var d2 := Inject(r1, b, html, tags);
    InjectPartition(r1, b, html, tags);
    IdsOutsideOfOutside(d2.scripts, b);
    IdsOutsideOfOutside(r1.scripts, b);
    assert IdsOutside(d2.scripts, b) == IdsOutside(r1.scripts, b);
    if a == b {
      FragmentCovered(d, a, html, tags);
      assert tags[k] in tags;
    } else {
      OutsideOtherMount(d, r1, a, b, html, tags, k);
    }
  }

  /** The copies injected into `a` stay there, outside any other placeholder `b`. */
  lemma OutsideOtherMount(d: Doc, r1: Doc, a: string, b: string, html: string, tags: seq<Tag>, k: nat)
    requires a in d.mounts && a != b && k < |tags|
    requires r1 == ExecuteScripts(Inject(d, a, html, tags), a)
    ensures TagIdentity(tags[k]) in IdsOutside(r1.scripts, b)
  {
    var d1 := Inject(d, a, html, tags);
    var n0 := |Outside(d.scripts, a)|;
    assert d1.scripts == Outside(d.scripts, a) + Fresh(tags, a);
    assert d1.scripts[n0 + k] == Fresh(tags, a)[k];
    var j := n0 + k;
    assert r1.scripts[j] == Visited(d1.scripts[j], a);
    assert !InMount(r1.scripts[j], b);
    assert IdentityOf(r1.scripts[j]) == TagIdentity(tags[k]);
  }

  /** The six sections of the home page, in the order they are loaded. */
  const HomeSections: seq<(string, string)> := [
    ("banner-placeholder", "./parts/banner.html"),
    ("advantages-placeholder", "./parts/advantages.html"),
    ("handbook-placeholder", "./parts/handbook.html"),
    ("worldmap-placeholder", "./parts/worldmap.html"),
    ("community-placeholder", "./parts/community.html"),
    ("story-placeholder", "./parts/story.html")
  ]

  /** The paths of the sections whose placeholder exists, in order. */
  function MountedPaths(keys: set<string>, sections: seq<(string, string)>): (r: seq<string>)
    ensures |r| <= |sections|
    decreases |sections|
  {
    if sections == [] then []
    else (if sections[0].0 in keys then [sections[0].1] else []) + MountedPaths(keys, sections[1..])
  }

  /** When every placeholder exists, every section's path is requested, in order. */
  lemma {:induction false} AllMountedPaths(keys: set<string>, sections: seq<(string, string)>)
    requires forall k :: 0 <= k < |sections| ==> sections[k].0 in keys
    ensures var r := MountedPaths(keys, sections);
            |r| == |sections| && forall k :: 0 <= k < |r| ==> r[k] == sections[k].1
    decreases |sections|
  {
    if sections != [] {
      AllMountedPaths(keys, sections[1..]);
    }
  }

  /** Load the sections one after the other, each awaited before the next. */
  function LoadSections(s: Site, sections: seq<(string, string)>,
                        fetch: string -> Response, parse: string -> seq<Tag>): (r: Site)
    ensures r.doc.mounts.Keys == s.doc.mounts.Keys
    ensures r.fetched == s.fetched + MountedPaths(s.doc.mounts.Keys, sections)
    ensures HeadUnique(s.doc.scripts) ==> HeadUnique(r.doc.scripts)
    decreases |sections|
  {
    if sections == [] then s
    else
      var s1 := LoadSection(s, sections[0], fetch, parse);
      var r := LoadSections(s1, sections[1..], fetch, parse);
      LoadSectionsStep(s, s1, r, sections);
      r
  }

  /** The request log of one step of the loop, joined to the log of the rest. */
  lemma LoadSectionsStep(s: Site, s1: Site, r: Site, sections: seq<(string, string)>)
    requires sections != []
    requires s1.doc.mounts.Keys == s.doc.mounts.Keys
    requires s1.fetched == s.fetched + (if sections[0].0 in s.doc.mounts.Keys then [sections[0].1] else [])
    requires r.fetched == s1.fetched + MountedPaths(s1.doc.mounts.Keys, sections[1..])
    ensures r.fetched == s.fetched + MountedPaths(s.doc.mounts.Keys, sections)
  {
    var keys := s.doc.mounts.Keys;
    var head := if sections[0].0 in keys then [sections[0].1] else [];
    var rest := MountedPaths(keys, sections[1..]);
    assert MountedPaths(s1.doc.mounts.Keys, sections[1..]) == rest;
    MountedPathsStep(keys, sections);
    AppendAssoc(s.fetched, head, rest);
  }

  lemma MountedPathsStep(keys: set<string>, sections: seq<(string, string)>)
    requires sections != []
    ensures MountedPaths(keys, sections)
            == (if sections[0].0 in keys then [sections[0].1] else []) + MountedPaths(keys, sections[1..])
  {
  }

  lemma AppendAssoc(a: seq<string>, b: seq<string>, c: seq<string>)
    ensures a + b + c == a + (b + c)
  {
  }

  /** One awaited section load, with what the loop over the sections relies on. */
  function LoadSection(s: Site, section: (string, string),
                       fetch: string -> Response, parse: string -> seq<Tag>): (r: Site)
    ensures r.doc.mounts.Keys == s.doc.mounts.Keys
    ensures r.fetched == s.fetched + (if section.0 in s.doc.mounts.Keys then [section.1] else [])
    ensures HeadUnique(s.doc.scripts) ==> HeadUnique(r.doc.scripts)
  {
    LoadUncachedLog(s, section.0, section.1, fetch, parse);
    LoadUncachedKeepsHeadUnique(s, section.0, section.1, fetch, parse);
    LoadUncached(s, section.0, section.1, fetch, parse)
  }

  lemma LoadUncachedLog(s: Site, id: string, path: string,
                        fetch: string -> Response, parse: string -> seq<Tag>)
    ensures LoadUncached(s, id, path, fetch, parse).fetched
            == s.fetched + (if id in s.doc.mounts.Keys then [path] else [])
  {
  }

  /** The paths of the six sections, in order. */
  const HomePaths: seq<string> := [
    "./parts/banner.html", "./parts/advantages.html", "./parts/handbook.html",
    "./parts/worldmap.html", "./parts/community.html", "./parts/story.html"
  ]

  /** `loadHomePageContent()`: with all six placeholders present, the six sections are
      requested once each, in the order of `HomeSections`; a missing placeholder only
      drops its own request. */
  function LoadHomePageContent(s: Site, fetch: string -> Response, parse: string -> seq<Tag>): (r: Site)
    ensures r.doc.mounts.Keys == s.doc.mounts.Keys
    ensures (forall k :: 0 <= k < |HomeSections| ==> HomeSections[k].0 in s.doc.mounts) ==>
              r.fetched == s.fetched + HomePaths
    ensures |s.fetched| <= |r.fetched| <= |s.fetched| + |HomeSections|
    ensures HeadUnique(s.doc.scripts) ==> HeadUnique(r.doc.scripts)
  {
    HomeSectionPaths(s.doc.mounts.Keys);
    LoadSections(s, HomeSections, fetch, parse)
  }

  lemma HomeSectionPaths(keys: set<string>)
    ensures (forall k :: 0 <= k < |HomeSections| ==> HomeSections[k].0 in keys) ==>
              MountedPaths(keys, HomeSections) == HomePaths
  {
    var m := MountedPaths(keys, HomeSections);
    if forall k :: 0 <= k < |HomeSections| ==> HomeSections[k].0 in keys {
      AllMountedPaths(keys, HomeSections);
      forall k | 0 <= k < 6 ensures m[k] == HomePaths[k] {
        assert m[k] == HomeSections[k].1;
      }
    }
  }
}

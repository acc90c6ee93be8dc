/**
 * The offline cache: three strategies over shared Cache Storage.  Lookups, network answers and cache
 * writes are separate steps, and a write is not awaited, so any step of any other request may come
 * between.
 */
module ServiceWorker {
  import opened Text

  // ---- Requests and routing -----------------------------------------------------------------

  datatype Url = Url(origin: string, pathname: string, search: string)

  datatype Request = Request(isGet: bool, isNavigation: bool, url: Url)

  /** `fetchedFor` records which URL the network answered with this response. */
  datatype Response = Response(ok: bool, body: string, fetchedFor: Url, cachedAt: Option<int>)

  const PRECACHE_PATHS := ["/manifest.json", "/offline.html", "/messages/en.json", "/messages/ar.json"]
  const PAGE_PREFIXES := [
    "/en/scheduling", "/ar/scheduling", "/en/classes", "/ar/classes", "/en/communications", "/ar/communications"]
  const API_PREFIXES := ["/api/v1/schedules/timetable", "/api/v1/classes", "/api/v1/announcements"]
  const NEVER_PREFIXES := ["/api/v1/auth", "/api/v1/pdf"]
  const BUILD_PREFIX := "/_next/static/"
  const OFFLINE_PATH := "/offline.html"
  const API_STALE_MAX_AGE_MS := 300_000

  predicate StartsWithAny(path: string, prefixes: seq<string>) {
    exists i :: 0 <= i < |prefixes| && prefixes[i] <= path
  }

  predicate NeverCached(path: string) { StartsWithAny(path, NEVER_PREFIXES) }

  predicate CacheableApi(path: string) { StartsWithAny(path, API_PREFIXES) }

  predicate CacheablePage(path: string) { StartsWithAny(path, PAGE_PREFIXES) }

  datatype Route = PassThrough | NetworkFirst | StaleWhileRevalidate | CacheFirst | OfflineFallback

  function RouteOf(r: Request): Route {
    if !r.isGet || NeverCached(r.url.pathname) then PassThrough
    else if "/api/" <= r.url.pathname && CacheableApi(r.url.pathname) then NetworkFirst
    else if r.isNavigation && CacheablePage(r.url.pathname) then StaleWhileRevalidate
    else if BUILD_PREFIX <= r.url.pathname then CacheFirst
    else if r.isNavigation then OfflineFallback
    else PassThrough
  }

  // ---- Cache Storage ------------------------------------------------------------------------

  datatype CacheName = StaticCache | ApiCache | PagesCache | Other(name: string)

  type Cache = map<Url, Response>

  /** The caches in the order of their creation, which is the order `caches.match` searches them in. */
  datatype Storage = Storage(order: seq<CacheName>, caches: map<CacheName, Cache>) {

    ghost predicate Valid() { forall n :: n in order <==> n in caches }

    function Lookup(name: CacheName, url: Url): Option<Response> {
      if name in caches && url in caches[name] then Some(caches[name][url]) else None
    }

    function Open(name: CacheName): Storage {
      if name in caches then this else Storage(order + [name], caches[name := map[]])
    }

    function Put(name: CacheName, url: Url, response: Response): Storage {
      var s := Open(name);
      s.(caches := s.caches[name := s.caches[name][url := response]])
    }

    function MatchIn(names: seq<CacheName>, url: Url): Option<Response> {
      if names == [] then None
      else if Lookup(names[0], url).Some? then Lookup(names[0], url)
      else MatchIn(names[1..], url)
    }

    /** `caches.match(url)` */
    function Match(url: Url): Option<Response> { MatchIn(order, url) }

    function KeepOnly(names: seq<CacheName>, keep: set<CacheName>): seq<CacheName> {
      if names == [] then []
      else (if names[0] in keep then [names[0]] else []) + KeepOnly(names[1..], keep)
    }

    /** The activation handler. */
    function Activate(): Storage {
      var keep := {StaticCache, ApiCache, PagesCache};
      Storage(KeepOnly(order, keep), map n | n in caches && n in keep :: caches[n])
    }
  }

  /** The install handler: `addAll` stores one OK response per precached path, or nothing at all. */
  function Install(s: Storage, origin: string, fetched: seq<Response>, count: nat): Storage
    requires count <= |fetched| == |PRECACHE_PATHS|
  {
    if count == 0 then s.Open(StaticCache)
    else
      var url := Url(origin, PRECACHE_PATHS[count - 1], "");
      Install(s, origin, fetched, count - 1).Put(StaticCache, url, fetched[count - 1])
  }

  // ---- Steps --------------------------------------------------------------------------------

  datatype Stage = Looking | Fetching | Revalidating | FallingBack

  datatype Task = Task(request: Request, stage: Stage)

  datatype PendingPut = PendingPut(cache: CacheName, url: Url, response: Response)

  datatype Answer = Network(response: Response) | Cached(response: Response) | OfflinePage(response: Response)
                  | Offline503 | Unanswered

  datatype Reply = Reply(id: nat, request: Request, answer: Answer)

  datatype State = State(
    origin: string,
    storage: Storage,
    tasks: map<nat, Task>,
    puts: map<nat, PendingPut>,
    answers: seq<Reply>)

  datatype Event =
    | Arrive(id: nat, request: Request)
    | Look(id: nat, now: int)
    | Answered(id: nat, response: Response, putId: nat, now: int)
    | Failed(id: nat)
    | Land(putId: nat)
    | Lose(putId: nat)
    | Reinstall(fetched: seq<Response>)  // a later edit of the worker installs beside the running one
    | Reactivate

  predicate Precached(origin: string, fetched: seq<Response>) {
    && |fetched| == |PRECACHE_PATHS|
    && forall i :: 0 <= i < |fetched| ==> fetched[i].ok && fetched[i].fetchedFor == Url(origin, PRECACHE_PATHS[i], "")
  }

  predicate Enabled(s: State, e: Event) {
    match e
    case Arrive(id, _) => id !in s.tasks
    case Look(id, _) => id in s.tasks && s.tasks[id].stage in {Looking, FallingBack}
    case Answered(id, response, putId, _) =>
      && id in s.tasks && s.tasks[id].stage in {Fetching, Revalidating}
      && response.fetchedFor == s.tasks[id].request.url && putId !in s.puts
    case Failed(id) => id in s.tasks && s.tasks[id].stage in {Fetching, Revalidating}
    case Land(putId) => putId in s.puts
    case Lose(putId) => putId in s.puts
    case Reinstall(fetched) => Precached(s.origin, fetched)
    case Reactivate => true
  }

  function Deliver(s: State, id: nat, a: Answer): State
    requires id in s.tasks
  {
    s.(answers := s.answers + [Reply(id, s.tasks[id].request, a)])
  }

  function End(s: State, id: nat): State { s.(tasks := s.tasks - {id}) }

  function Move(s: State, id: nat, stage: Stage): State
    requires id in s.tasks
  {
    s.(tasks := s.tasks[id := s.tasks[id].(stage := stage)])
  }

  function OfflineAnswer(s: State): Answer {
    match s.storage.Match(Url(s.origin, OFFLINE_PATH, ""))
    case Some(page) => OfflinePage(page)
    case None => Unanswered
  }

  /** Both branches return the entry: five minutes is the limit of freshness, not of use. */
  function StaleFallback(cached: Response, now: int): Response {
    if now - (if cached.cachedAt.Some? then cached.cachedAt.value else 0) < API_STALE_MAX_AGE_MS then cached else cached
  }

  function CacheOf(route: Route): CacheName {
    match route
    case NetworkFirst => ApiCache
    case StaleWhileRevalidate => PagesCache
    case _ => StaticCache
  }

  function LookStep(s: State, id: nat, now: int): State
    requires id in s.tasks
  {
    var r := s.tasks[id].request;
    match RouteOf(r)
    case CacheFirst =>
      (match s.storage.Match(r.url)
       case Some(hit) => End(Deliver(s, id, Cached(hit)), id)
       case None => Move(s, id, Fetching))
    case StaleWhileRevalidate =>
      (match s.storage.Lookup(PagesCache, r.url)
       case Some(hit) => Move(Deliver(s, id, Cached(hit)), id, Revalidating)
       case None => Move(s, id, Fetching))
    case NetworkFirst =>
      (match s.storage.Lookup(ApiCache, r.url)
       case Some(hit) => End(Deliver(s, id, Cached(StaleFallback(hit, now))), id)
       case None => End(Deliver(s, id, Offline503), id))
    case _ => s
  }

  function AnsweredStep(s: State, id: nat, response: Response, putId: nat, now: int): State
    requires id in s.tasks
  {
    var r := s.tasks[id].request;
    var replied := if s.tasks[id].stage == Revalidating then s else Deliver(s, id, Network(response));
    var done := End(replied, id);
    var route := RouteOf(r);
    if !response.ok || route == OfflineFallback then done
    else
      var stored := if route == NetworkFirst then response.(cachedAt := Some(now)) else response;
      done.(puts := done.puts[putId := PendingPut(CacheOf(route), r.url, stored)])
  }

  function FailedStep(s: State, id: nat): State
    requires id in s.tasks
  {
    var r := s.tasks[id].request;
    match RouteOf(r)
    case CacheFirst => End(Deliver(s, id, Offline503), id)
    case NetworkFirst => Move(s, id, FallingBack)
    case _ => End(if s.tasks[id].stage == Revalidating then s else Deliver(s, id, OfflineAnswer(s)), id)
  }

  function Step(s: State, e: Event): State
    requires Enabled(s, e)
  {
    match e
    case Arrive(id, r) =>
      (match RouteOf(r)
       case PassThrough => s
       case CacheFirst => s.(tasks := s.tasks[id := Task(r, Looking)])
       case StaleWhileRevalidate => s.(storage := s.storage.Open(PagesCache), tasks := s.tasks[id := Task(r, Looking)])
       case NetworkFirst => s.(storage := s.storage.Open(ApiCache), tasks := s.tasks[id := Task(r, Fetching)])
       case OfflineFallback => s.(tasks := s.tasks[id := Task(r, Fetching)]))
    case Look(id, now) => LookStep(s, id, now)
    case Answered(id, response, putId, now) => AnsweredStep(s, id, response, putId, now)
    case Failed(id) => FailedStep(s, id)
    case Land(putId) =>
      var p := s.puts[putId];
      s.(storage := s.storage.Put(p.cache, p.url, p.response), puts := s.puts - {putId})
    case Lose(putId) => s.(puts := s.puts - {putId})
    case Reinstall(fetched) => s.(storage := Install(s.storage, s.origin, fetched, |PRECACHE_PATHS|))
    case Reactivate => s.(storage := s.storage.Activate())
  }

  // ---- What each cache may hold -------------------------------------------------------------

  /** The URLs that belong in a cache. */
  predicate InFamily(origin: string, name: CacheName, url: Url) {
    match name
    case StaticCache =>
      BUILD_PREFIX <= url.pathname || (url.pathname in PRECACHE_PATHS && url == Url(origin, url.pathname, ""))
    case ApiCache => CacheableApi(url.pathname) && !NeverCached(url.pathname)
    case PagesCache => CacheablePage(url.pathname) && !NeverCached(url.pathname)
    case Other(_) => false
  }

  predicate GoodEntry(origin: string, name: CacheName, url: Url, response: Response) {
    && InFamily(origin, name, url)
    && response.ok && response.fetchedFor == url
    && (name == ApiCache ==> response.cachedAt.Some?)
  }

  ghost predicate GoodStorage(origin: string, s: Storage) {
    && s.Valid()
    && (forall n :: n in s.caches ==> !n.Other?)
    && forall n, u :: n in s.caches && u in s.caches[n] ==> GoodEntry(origin, n, u, s.caches[n][u])
  }

  predicate GoodTask(t: Task) {
    match t.stage
    case Looking => RouteOf(t.request) in {CacheFirst, StaleWhileRevalidate}
    case Fetching => RouteOf(t.request) != PassThrough
    case Revalidating => RouteOf(t.request) == StaleWhileRevalidate
    case FallingBack => RouteOf(t.request) == NetworkFirst
  }

  /** No request is ever answered with what was fetched for another one, the offline page excepted. */
  predicate GoodAnswer(origin: string, r: Request, a: Answer) {
    && RouteOf(r) != PassThrough
    && match a
       case Network(response) => response.fetchedFor == r.url
       case Cached(response) => response.ok && response.fetchedFor == r.url && RouteOf(r) != OfflineFallback
       case OfflinePage(response) =>
         && response.ok && response.fetchedFor == Url(origin, OFFLINE_PATH, "")
         && r.isNavigation && RouteOf(r) != NetworkFirst
       case Offline503 => RouteOf(r) in {CacheFirst, NetworkFirst}
       case Unanswered => r.isNavigation && RouteOf(r) != NetworkFirst
  }

  ghost predicate Inv(s: State) {
    && GoodStorage(s.origin, s.storage)
    && (forall id :: id in s.tasks ==> GoodTask(s.tasks[id]))
    && (forall p :: p in s.puts ==> GoodEntry(s.origin, s.puts[p].cache, s.puts[p].url, s.puts[p].response))
    && (forall i :: 0 <= i < |s.answers| ==> GoodAnswer(s.origin, s.answers[i].request, s.answers[i].answer))
  }

  // ---- Key families are disjoint ------------------------------------------------------------

  lemma {:induction false} ApiPathShape(path: string)
    requires CacheableApi(path)
    ensures |path| > 2 && path[1] == 'a' && path[2] == 'p' && "/api/" <= path
  {
    var i :| 0 <= i < |API_PREFIXES| && API_PREFIXES[i] <= path;
    var prefix := API_PREFIXES[i];
    assert |prefix| > 5 && prefix[..5] == "/api/";
    assert path[..5] == prefix[..5];
    assert path[1] == prefix[1] && path[2] == prefix[2];
  }

  lemma {:induction false} PagePathShape(path: string)
    requires CacheablePage(path)
    ensures |path| > 2 && (path[1] == 'e' || (path[1] == 'a' && path[2] == 'r'))
  {
    var i :| 0 <= i < |PAGE_PREFIXES| && PAGE_PREFIXES[i] <= path;
    assert PAGE_PREFIXES[i][1] == path[1] && PAGE_PREFIXES[i][2] == path[2];
  }

  lemma {:induction false} StaticPathShape(path: string)
    requires BUILD_PREFIX <= path || path in PRECACHE_PATHS
    ensures |path| > 2 && (path[1] == '_' || path[1] == 'm' || path[1] == 'o')
  {
    if BUILD_PREFIX <= path {
      assert BUILD_PREFIX[1] == path[1];
    }
  }

  lemma {:induction false} FamiliesAreDisjoint(origin: string, m: CacheName, n: CacheName, url: Url)
    requires InFamily(origin, m, url) && InFamily(origin, n, url)
    ensures m == n
  {
    if CacheableApi(url.pathname) { ApiPathShape(url.pathname); }
    if CacheablePage(url.pathname) { PagePathShape(url.pathname); }
    if BUILD_PREFIX <= url.pathname || url.pathname in PRECACHE_PATHS { StaticPathShape(url.pathname); }
  }

  /** The search through all caches finds an entry exactly when some cache has it, and then that entry. */
  lemma {:induction false} MatchFindsGoodEntry(s: Storage, origin: string, names: seq<CacheName>, url: Url)
    requires GoodStorage(origin, s) && forall i :: 0 <= i < |names| ==> names[i] in s.caches
    ensures s.MatchIn(names, url).Some? ==> exists n :: n in names && s.Lookup(n, url) == s.MatchIn(names, url)
    ensures s.MatchIn(names, url).None? ==> forall n :: n in names ==> s.Lookup(n, url).None?
  {
    if names != [] {
      MatchFindsGoodEntry(s, origin, names[1..], url);
    }
  }

  /** For a static asset or the offline page, the global search equals a lookup in the static cache alone. */
  lemma {:induction false} GlobalMatchIsStaticLookup(s: State, url: Url)
    requires Inv(s) && InFamily(s.origin, StaticCache, url)
    ensures s.storage.Match(url) == s.storage.Lookup(StaticCache, url)
  {
    MatchFindsGoodEntry(s.storage, s.origin, s.storage.order, url);
    if s.storage.Match(url).Some? {
      var n :| n in s.storage.order && s.storage.Lookup(n, url) == s.storage.Match(url);
      FamiliesAreDisjoint(s.origin, n, StaticCache, url);
    } else if StaticCache in s.storage.caches {
      assert StaticCache in s.storage.order;
    }
  }

  // ---- Installation and activation ----------------------------------------------------------

  /** Caches of other versions may hold anything; those of this version, if any, only what belongs there. */
  ghost predicate Admissible(origin: string, before: Storage) {
    && before.Valid()
    && forall n, u :: n in before.caches && !n.Other? && u in before.caches[n] ==>
         GoodEntry(origin, n, u, before.caches[n][u])
  }

  /** What is stored once the first `count` responses of an installation are in. */
  ghost predicate Installed(origin: string, s: Storage, count: nat)
    requires count <= |PRECACHE_PATHS|
  {
    && Admissible(origin, s) && StaticCache in s.caches
    && (forall k :: 0 <= k < count ==> Url(origin, PRECACHE_PATHS[k], "") in s.caches[StaticCache])
  }

  lemma {:induction false} InstallOne(origin: string, s: Storage, count: nat, response: Response)
    requires count < |PRECACHE_PATHS| && Installed(origin, s, count)
    requires response.ok && response.fetchedFor == Url(origin, PRECACHE_PATHS[count], "")
    ensures Installed(origin, s.Put(StaticCache, Url(origin, PRECACHE_PATHS[count], ""), response), count + 1)
  {
    hide StartsWithAny;
    var url := Url(origin, PRECACHE_PATHS[count], "");
    assert GoodEntry(origin, StaticCache, url, response) by {
      assert PRECACHE_PATHS[count] in PRECACHE_PATHS;
    }
    hide GoodEntry;
  }

  lemma {:induction false} InstalledEntries(origin: string, before: Storage, fetched: seq<Response>, count: nat)
    requires Precached(origin, fetched) && Admissible(origin, before) && count <= |fetched|
    ensures Installed(origin, Install(before, origin, fetched, count), count)
  {
    hide GoodEntry, Storage.Put;
    if count > 0 {
      hide Installed;
      InstalledEntries(origin, before, fetched, count - 1);
      InstallOne(origin, Install(before, origin, fetched, count - 1), count - 1, fetched[count - 1]);
    }
  }

  /** Installing over caches of this version only replaces the precached entries. */
  lemma {:induction false} InstallKeepsEntries(
    s: Storage, origin: string, fetched: seq<Response>, count: nat, name: CacheName, url: Url)
    requires count <= |fetched| == |PRECACHE_PATHS| && s.Lookup(name, url).Some?
    ensures Install(s, origin, fetched, count).Lookup(name, url).Some?
  {
    if count > 0 {
      InstallKeepsEntries(s, origin, fetched, count - 1, name, url);
    }
  }

  lemma {:induction false} InstallBringsNoOthers(s: Storage, origin: string, fetched: seq<Response>, count: nat)
    requires count <= |fetched| == |PRECACHE_PATHS| && forall n :: n in s.caches ==> !n.Other?
    ensures forall n :: n in Install(s, origin, fetched, count).caches ==> !n.Other?
  {
    if count > 0 {
      InstallBringsNoOthers(s, origin, fetched, count - 1);
    }
  }

  lemma {:induction false} KeepOnlyKeeps(s: Storage, names: seq<CacheName>, keep: set<CacheName>, n: CacheName)
    ensures n in s.KeepOnly(names, keep) <==> n in names && n in keep
  {
    if names != [] {
      KeepOnlyKeeps(s, names[1..], keep, n);
    }
  }

  /** Activation deletes the caches of other versions and keeps those of this one as they are. */
  lemma {:induction false} ActivationKeeps(origin: string, s: Storage)
    requires Admissible(origin, s)
    ensures GoodStorage(origin, s.Activate())
    ensures forall n: CacheName :: !n.Other? && n in s.caches ==>
      n in s.Activate().caches && s.Activate().caches[n] == s.caches[n]
  {
    hide GoodEntry;
    forall n {
      KeepOnlyKeeps(s, s.order, {StaticCache, ApiCache, PagesCache}, n);
    }
  }

  // ---- The invariant ------------------------------------------------------------------------

  lemma {:induction false} OpenKeepsGood(origin: string, s: Storage, name: CacheName)
    requires GoodStorage(origin, s) && !name.Other?
    ensures GoodStorage(origin, s.Open(name))
  {
  }

  lemma {:induction false} PutKeepsGood(origin: string, s: Storage, name: CacheName, url: Url, response: Response)
    requires GoodStorage(origin, s) && GoodEntry(origin, name, url, response)
    ensures GoodStorage(origin, s.Put(name, url, response))
  {
    OpenKeepsGood(origin, s, name);
  }

  lemma {:induction false} MatchIsGood(s: State, url: Url)
    requires Inv(s) && s.storage.Match(url).Some?
    ensures s.storage.Match(url).value.ok && s.storage.Match(url).value.fetchedFor == url
  {
    MatchFindsGoodEntry(s.storage, s.origin, s.storage.order, url);
  }

  lemma {:induction false} LookupIsGood(s: State, name: CacheName, url: Url)
    requires Inv(s)
    ensures s.storage.Lookup(name, url).Some? ==>
      s.storage.Lookup(name, url).value.ok && s.storage.Lookup(name, url).value.fetchedFor == url
  {
  }

  lemma {:induction false} LookKeepsInv(s: State, id: nat, now: int)
    requires Inv(s) && Enabled(s, Look(id, now))
    ensures Inv(LookStep(s, id, now))
  {
    hide InFamily, RouteOf, GoodStorage, GoodEntry, Storage.Match, Storage.Lookup;
    var r := s.tasks[id].request;
    LookupIsGood(s, ApiCache, r.url);
    LookupIsGood(s, PagesCache, r.url);
    if s.storage.Match(r.url).Some? {
      MatchIsGood(s, r.url);
    }
  }

  lemma {:induction false} AnsweredKeepsInv(s: State, id: nat, response: Response, putId: nat, now: int)
    requires Inv(s) && Enabled(s, Answered(id, response, putId, now))
    ensures Inv(AnsweredStep(s, id, response, putId, now))
  {
    hide StartsWithAny;
    if CacheableApi(s.tasks[id].request.url.pathname) {
      ApiPathShape(s.tasks[id].request.url.pathname);
    }
  }

  lemma {:induction false} FailedKeepsInv(s: State, id: nat)
    requires Inv(s) && Enabled(s, Failed(id))
    ensures Inv(FailedStep(s, id))
  {
    hide GoodStorage, GoodEntry, Storage.Match, StartsWithAny;
    var offline := Url(s.origin, OFFLINE_PATH, "");
    if s.storage.Match(offline).Some? {
      MatchIsGood(s, offline);
    }
  }

  lemma {:induction false} StorageStepKeepsInv(s: State, storage: Storage)
    requires Inv(s) && GoodStorage(s.origin, storage)
    ensures Inv(s.(storage := storage))
  {
    hide GoodStorage, GoodEntry, GoodAnswer, GoodTask;
  }

  lemma {:induction false} ArriveKeepsInv(s: State, id: nat, r: Request)
    requires Inv(s) && Enabled(s, Arrive(id, r))
    ensures Inv(Step(s, Arrive(id, r)))
  {
    hide GoodStorage, GoodEntry, GoodAnswer, RouteOf, Storage.Open;
    OpenKeepsGood(s.origin, s.storage, PagesCache);
    OpenKeepsGood(s.origin, s.storage, ApiCache);
  }

  lemma {:induction false} LandKeepsInv(s: State, putId: nat)
    requires Inv(s) && Enabled(s, Land(putId))
    ensures Inv(Step(s, Land(putId)))
  {
    hide GoodStorage, GoodEntry, GoodAnswer, GoodTask, Storage.Put;
    PutKeepsGood(s.origin, s.storage, s.puts[putId].cache, s.puts[putId].url, s.puts[putId].response);
  }

  lemma {:induction false} InstallKeepsGood(origin: string, s: Storage, fetched: seq<Response>)
    requires GoodStorage(origin, s) && Precached(origin, fetched)
    ensures GoodStorage(origin, Install(s, origin, fetched, |PRECACHE_PATHS|))
  {
    hide GoodEntry;
    InstalledEntries(origin, s, fetched, |PRECACHE_PATHS|);
    InstallBringsNoOthers(s, origin, fetched, |PRECACHE_PATHS|);
  }

  lemma {:induction false} StepKeepsInv(s: State, e: Event)
    requires Inv(s) && Enabled(s, e)
    ensures Inv(Step(s, e))
  {
    hide GoodStorage, GoodEntry, GoodAnswer, GoodTask, LookStep, AnsweredStep, FailedStep, Install, Storage.Activate;
    match e
    case Arrive(id, r) => ArriveKeepsInv(s, id, r);
    case Look(id, now) => LookKeepsInv(s, id, now);
    case Answered(id, response, putId, now) => AnsweredKeepsInv(s, id, response, putId, now);
    case Failed(id) => FailedKeepsInv(s, id);
    case Land(putId) => LandKeepsInv(s, putId);
    case Lose(putId) =>
    case Reinstall(fetched) =>
      InstallKeepsGood(s.origin, s.storage, fetched);
      StorageStepKeepsInv(s, Step(s, e).storage);
    case Reactivate =>
      GoodIsAdmissible(s.origin, s.storage);
      ActivationKeeps(s.origin, s.storage);
      StorageStepKeepsInv(s, Step(s, e).storage);
  }

  lemma {:induction false} GoodIsAdmissible(origin: string, s: Storage)
    requires GoodStorage(origin, s)
    ensures Admissible(origin, s)
  {
    hide GoodEntry;
  }

  // ---- Runs ---------------------------------------------------------------------------------

  function Start(origin: string, before: Storage, fetched: seq<Response>): State
    requires |fetched| == |PRECACHE_PATHS|
  {
    State(origin, Install(before, origin, fetched, |PRECACHE_PATHS|).Activate(), map[], map[], [])
  }

  /** Any number of events after activation. */
  datatype Run = Run(origin: string, before: Storage, fetched: seq<Response>, states: seq<State>, events: seq<Event>) {
    ghost predicate Valid() {
      && Precached(origin, fetched) && Admissible(origin, before)
      && |states| == |events| + 1
      && states[0] == Start(origin, before, fetched)
      && forall i :: 0 <= i < |events| ==> Enabled(states[i], events[i]) && states[i + 1] == Step(states[i], events[i])
    }
  }

  /** After activation every cache of another version is gone and the precached entries are there. */
  lemma {:induction false} StartIsGood(origin: string, before: Storage, fetched: seq<Response>)
    requires Precached(origin, fetched) && Admissible(origin, before)
    ensures Inv(Start(origin, before, fetched))
    ensures forall path :: path in PRECACHE_PATHS ==>
      Start(origin, before, fetched).storage.Lookup(StaticCache, Url(origin, path, "")).Some?
    ensures forall n: CacheName, u :: !n.Other? && before.Lookup(n, u).Some? ==>
      Start(origin, before, fetched).storage.Lookup(n, u).Some?
  {
    hide GoodEntry, Install, Storage.KeepOnly, Storage.Activate;
    var installed := Install(before, origin, fetched, |PRECACHE_PATHS|);
    InstalledEntries(origin, before, fetched, |PRECACHE_PATHS|);
    ActivationKeeps(origin, installed);
    forall n: CacheName, u | !n.Other? && before.Lookup(n, u).Some? ensures installed.Lookup(n, u).Some? {
      InstallKeepsEntries(before, origin, fetched, |PRECACHE_PATHS|, n, u);
    }
    forall path | path in PRECACHE_PATHS
      ensures Url(origin, path, "") in installed.caches[StaticCache]
    {
      var k :| 0 <= k < |PRECACHE_PATHS| && PRECACHE_PATHS[k] == path;
    }
  }

  /** What a run leaves in the caches is a place where the next version of the worker can be installed. */
  lemma {:induction false} NextGenerationIsAdmissible(run: Run, i: nat)
    requires run.Valid() && i < |run.states|
    ensures Admissible(run.origin, run.states[i].storage)
  {
    RunKeepsInv(run, i);
    OriginStays(run, i);
  }

  /** In every interleaving, every state has good caches, good pending writes and good answers. */
  lemma {:induction false} RunKeepsInv(run: Run, i: nat)
    requires run.Valid() && i < |run.states|
    ensures Inv(run.states[i])
  {
    if i == 0 {
      StartIsGood(run.origin, run.before, run.fetched);
    } else {
      RunKeepsInv(run, i - 1);
      StepKeepsInv(run.states[i - 1], run.events[i - 1]);
    }
  }

  /** Neither an authentication path nor a PDF path is ever the key of an API or page entry. */
  lemma {:induction false} NeverCachedIsNeverKey(s: State, name: CacheName, url: Url)
    requires Inv(s) && NeverCached(url.pathname)
    ensures s.storage.Lookup(name, url).None?
  {
    if s.storage.Lookup(name, url).Some? {
      assert GoodEntry(s.origin, name, url, s.storage.caches[name][url]);
      var i :| 0 <= i < |NEVER_PREFIXES| && NEVER_PREFIXES[i] <= url.pathname;
      assert NEVER_PREFIXES[i][1] == url.pathname[1];
      StaticPathShape(url.pathname);
      assert false;
    }
  }

  lemma {:induction false} StepKeepsEntries(s: State, e: Event, name: CacheName, url: Url)
    requires Enabled(s, e) && Inv(s) && s.storage.Lookup(name, url).Some?
    ensures Step(s, e).storage.Lookup(name, url).Some?
  {
    hide GoodEntry, GoodTask, GoodAnswer, RouteOf, Install, Storage.Match, Storage.KeepOnly;
    match e
    case Reinstall(fetched) =>
      InstallKeepsEntries(s.storage, s.origin, fetched, |PRECACHE_PATHS|, name, url);
    case Reactivate => ActivationKeeps(s.origin, s.storage);
    case _ =>
  }

  lemma {:induction false} EntriesNeverVanish(run: Run, name: CacheName, url: Url, i: nat, j: nat)
    requires run.Valid() && i <= j < |run.states|
    requires run.states[i].storage.Lookup(name, url).Some?
    ensures run.states[j].storage.Lookup(name, url).Some?
    decreases j
  {
    if i < j {
      hide Step, Inv, Storage.Lookup;
      EntriesNeverVanish(run, name, url, i, j - 1);
      RunKeepsInv(run, j - 1);
      StepKeepsEntries(run.states[j - 1], run.events[j - 1], name, url);
    }
  }

  /**
   * Once an API response has been stored, every later read of it whose fetch fails is answered from
   * the cache, with the entry then present and whatever its age.
   */
  lemma {:induction false} OfflineReadIsServed(run: Run, i: nat, j: nat, id: nat, now: int)
    requires run.Valid() && i <= j < |run.events|
    requires run.events[j] == Look(id, now) && run.states[j].tasks[id].stage == FallingBack
    requires run.states[i].storage.Lookup(ApiCache, run.states[j].tasks[id].request.url).Some?
    ensures var r := run.states[j].tasks[id].request;
            var stored := run.states[j].storage.Lookup(ApiCache, r.url);
            && stored.Some?
            && run.states[j + 1].answers == run.states[j].answers + [Reply(id, r, Cached(stored.value))]
  {
    RunKeepsInv(run, j);
    EntriesNeverVanish(run, ApiCache, run.states[j].tasks[id].request.url, i, j);
  }

  /** The offline page is always at hand. */
  lemma {:induction false} OfflinePageIsAlwaysFound(run: Run, i: nat)
    requires run.Valid() && i < |run.states|
    ensures OfflineAnswer(run.states[i]).OfflinePage?
  {
    var offline := Url(run.origin, OFFLINE_PATH, "");
    assert OFFLINE_PATH in PRECACHE_PATHS by { assert PRECACHE_PATHS[1] == OFFLINE_PATH; }
    StartIsGood(run.origin, run.before, run.fetched);
    RunKeepsInv(run, i);
    OriginStays(run, i);
    EntriesNeverVanish(run, StaticCache, offline, 0, i);
    GlobalMatchIsStaticLookup(run.states[i], offline);
  }

  lemma {:induction false} OriginStays(run: Run, i: nat)
    requires run.Valid() && i < |run.states|
    ensures run.states[i].origin == run.origin
  {
    if i > 0 {
      hide Start, Precached, Admissible, RouteOf, Install, Storage.Open, Storage.Put, Storage.Activate, OfflineAnswer;
      OriginStays(run, i - 1);
    }
  }

  // ---- What each strategy does --------------------------------------------------------------

  predicate ApiRead(r: Request) { r.isGet && CacheableApi(r.url.pathname) && !NeverCached(r.url.pathname) }

  predicate PageVisit(r: Request) { r.isGet && r.isNavigation && CacheablePage(r.url.pathname) }

  predicate BuildAsset(r: Request) { r.isGet && BUILD_PREFIX <= r.url.pathname }

  predicate OtherVisit(r: Request) {
    r.isGet && r.isNavigation && !NeverCached(r.url.pathname) && !ApiRead(r) && !PageVisit(r) && !BuildAsset(r)
  }

  /** The order in which the handler asks does not matter: each strategy has requests of its own. */
  lemma {:induction false} RoutesByFamily(r: Request)
    ensures RouteOf(r) == NetworkFirst <==> ApiRead(r)
    ensures RouteOf(r) == StaleWhileRevalidate <==> PageVisit(r)
    ensures RouteOf(r) == CacheFirst <==> BuildAsset(r)
    ensures RouteOf(r) == OfflineFallback <==> OtherVisit(r)
  {
    var path := r.url.pathname;
    if CacheableApi(path) { ApiPathShape(path); }
    if CacheablePage(path) { PagePathShape(path); }
    if BUILD_PREFIX <= path { StaticPathShape(path); }
    if NeverCached(path) {
      var i :| 0 <= i < |NEVER_PREFIXES| && NEVER_PREFIXES[i] <= path;
      assert NEVER_PREFIXES[i][1] == path[1] && NEVER_PREFIXES[i][2] == path[2];
    }
  }

  /** Page visits and build assets look in the caches first, everything else that is handled goes to the network. */
  lemma {:induction false} ArrivalStarts(s: State, id: nat, r: Request)
    requires Enabled(s, Arrive(id, r))
    ensures var s' := Step(s, Arrive(id, r));
            && s'.answers == s.answers && s'.puts == s.puts
            && s'.tasks == if PageVisit(r) || BuildAsset(r) then s.tasks[id := Task(r, Looking)]
                           else if ApiRead(r) || OtherVisit(r) then s.tasks[id := Task(r, Fetching)]
                           else s.tasks
  {
    RoutesByFamily(r);
    hide RouteOf, Storage.Open, ApiRead, PageVisit, BuildAsset, OtherVisit;
  }

  /**
   * A look: a build asset found is answered and done with; a page found is answered and revalidated; an
   * API read comes here offline only, and gets the entry whatever its age.  What is not found is fetched,
   * except offline.
   */
  lemma {:induction false} LookAnswers(s: State, id: nat, now: int)
    requires Inv(s) && Enabled(s, Look(id, now))
    ensures var r, s' := s.tasks[id].request, Step(s, Look(id, now));
            var asset, page, api := s.storage.Lookup(StaticCache, r.url), s.storage.Lookup(PagesCache, r.url),
                                     s.storage.Lookup(ApiCache, r.url);
            && s'.storage == s.storage && s'.puts == s.puts
            && (BuildAsset(r) && asset.Some? ==>
                  s'.tasks == s.tasks - {id} && s'.answers == s.answers + [Reply(id, r, Cached(asset.value))])
            && (PageVisit(r) && page.Some? ==>
                  && s'.tasks == s.tasks[id := Task(r, Revalidating)]
                  && s'.answers == s.answers + [Reply(id, r, Cached(page.value))])
            && (ApiRead(r) && api.Some? ==>
                  s'.tasks == s.tasks - {id} && s'.answers == s.answers + [Reply(id, r, Cached(api.value))])
            && (ApiRead(r) && api.None? ==>
                  s'.tasks == s.tasks - {id} && s'.answers == s.answers + [Reply(id, r, Offline503)])
            && ((BuildAsset(r) && asset.None?) || (PageVisit(r) && page.None?) ==>
                  s'.tasks == s.tasks[id := Task(r, Fetching)] && s'.answers == s.answers)
  {
    var r := s.tasks[id].request;
    RoutesByFamily(r);
    if BuildAsset(r) {
      GlobalMatchIsStaticLookup(s, r.url);
    }
    hide RouteOf, Storage.Match, Storage.Lookup, ApiRead, PageVisit, BuildAsset, Inv;
  }

  /** The cache in which an OK answer to a request is kept. */
  function KeptIn(r: Request): CacheName {
    if ApiRead(r) then ApiCache else if PageVisit(r) then PagesCache else StaticCache
  }

  /**
   * An answer from the network ends the task, and is given unless the page has been answered already.  An
   * OK answer to an API read, a page visit or a build asset leaves exactly one new pending write of that
   * response, an API response with the time of its arrival.
   */
  lemma {:induction false} NetworkAnswerIsKept(s: State, id: nat, response: Response, putId: nat, now: int)
    requires Enabled(s, Answered(id, response, putId, now)) && GoodTask(s.tasks[id])
    ensures var r, s' := s.tasks[id].request, Step(s, Answered(id, response, putId, now));
            && s'.tasks == s.tasks - {id} && s'.storage == s.storage
            && s'.answers == s.answers +
                 (if s.tasks[id].stage == Revalidating then [] else [Reply(id, r, Network(response))])
            && s'.puts == if response.ok && (ApiRead(r) || PageVisit(r) || BuildAsset(r))
                          then s.puts[putId := PendingPut(KeptIn(r), r.url, Kept(r, response, now))] else s.puts
  {
    RoutesByFamily(s.tasks[id].request);
    hide RouteOf, ApiRead, PageVisit, BuildAsset;
    assert s.answers + [] == s.answers;
  }

  /** What is kept of an OK response. */
  function Kept(r: Request, response: Response, now: int): Response {
    if ApiRead(r) then response.(cachedAt := Some(now)) else response
  }

  /**
   * A failed API read turns to the cache; without the network a build asset is refused, and a visit gets
   * the offline page.
   */
  lemma {:induction false} FailureAnswers(s: State, id: nat)
    requires Inv(s) && Enabled(s, Failed(id))
    ensures var r, s' := s.tasks[id].request, Step(s, Failed(id));
            var offline := s.storage.Lookup(StaticCache, Url(s.origin, "/offline.html", ""));
            && s'.storage == s.storage && s'.puts == s.puts
            && (ApiRead(r) ==> s'.tasks == s.tasks[id := Task(r, FallingBack)] && s'.answers == s.answers)
            && (!ApiRead(r) ==> s'.tasks == s.tasks - {id})
            && (BuildAsset(r) ==> s'.answers == s.answers + [Reply(id, r, Offline503)])
            && (s.tasks[id].stage == Revalidating ==> s'.answers == s.answers)
            && (PageVisit(r) && s.tasks[id].stage == Fetching && offline.Some? ==>
                  s'.answers == s.answers + [Reply(id, r, OfflinePage(offline.value))])
            && (OtherVisit(r) && offline.Some? ==>
                  s'.answers == s.answers + [Reply(id, r, OfflinePage(offline.value))])
  {
    RoutesByFamily(s.tasks[id].request);
    var offline := Url(s.origin, OFFLINE_PATH, "");
    assert OFFLINE_PATH in PRECACHE_PATHS by { assert PRECACHE_PATHS[1] == OFFLINE_PATH; }
    GlobalMatchIsStaticLookup(s, offline);
    assert GoodTask(s.tasks[id]);
    hide RouteOf, Storage.Match, Storage.Lookup, ApiRead, PageVisit, BuildAsset, OtherVisit, Inv;
  }

  /** A write that lands is what is found from then on; one that is lost changes nothing. */
  lemma {:induction false} LandedIsFound(s: State, putId: nat, name: CacheName, url: Url)
    requires putId in s.puts
    ensures var p, landed := s.puts[putId], Step(s, Land(putId));
            && landed.puts == s.puts - {putId} && landed.tasks == s.tasks && landed.answers == s.answers
            && landed.storage.Lookup(name, url)
               == if name == p.cache && url == p.url then Some(p.response) else s.storage.Lookup(name, url)
    ensures Step(s, Lose(putId)) == s.(puts := s.puts - {putId})
  {
  }

  // ---- Read online, then read offline -------------------------------------------------------

  predicate Settles(e: Event, putId: nat) { e == Land(putId) || e == Lose(putId) }

  lemma {:induction false} StepKeepsPut(s: State, e: Event, putId: nat)
    requires Enabled(s, e) && putId in s.puts && !Settles(e, putId)
    ensures putId in Step(s, e).puts && Step(s, e).puts[putId] == s.puts[putId]
  {
    hide RouteOf, Install, Storage.Open, Storage.Put, Storage.Activate, Storage.Match, Storage.Lookup, OfflineAnswer;
  }

  /** A pending write waits unchanged until it lands or is lost. */
  lemma {:induction false} PutWaits(run: Run, i: nat, j: nat, putId: nat)
    requires run.Valid() && i <= j < |run.states| && putId in run.states[i].puts
    requires forall k :: i <= k < j ==> !Settles(run.events[k], putId)
    ensures putId in run.states[j].puts && run.states[j].puts[putId] == run.states[i].puts[putId]
    decreases j
  {
    if i < j {
      hide Step, Settles, Start, Precached, Admissible;
      PutWaits(run, i, j - 1, putId);
      StepKeepsPut(run.states[j - 1], run.events[j - 1], putId);
    }
  }

  /** A write to this entry lands, or an installation puts another in its place. */
  predicate Overwrites(s: State, e: Event, name: CacheName, url: Url) {
    || (e.Land? && e.putId in s.puts && s.puts[e.putId].cache == name && s.puts[e.putId].url == url)
    || (e.Reinstall? && name == StaticCache)
  }

  lemma {:induction false} InstallWritesStaticOnly(
    s: Storage, origin: string, fetched: seq<Response>, count: nat, name: CacheName, url: Url)
    requires count <= |fetched| == |PRECACHE_PATHS| && name != StaticCache
    ensures Install(s, origin, fetched, count).Lookup(name, url) == s.Lookup(name, url)
  {
    if count > 0 {
      InstallWritesStaticOnly(s, origin, fetched, count - 1, name, url);
    }
  }

  lemma {:induction false} StepKeepsEntry(s: State, e: Event, name: CacheName, url: Url)
    requires Enabled(s, e) && Inv(s) && s.storage.Lookup(name, url).Some? && !Overwrites(s, e, name, url)
    ensures Step(s, e).storage.Lookup(name, url) == s.storage.Lookup(name, url)
  {
    hide GoodEntry, GoodTask, GoodAnswer, RouteOf, Install, Storage.Match, Storage.KeepOnly, OfflineAnswer;
    match e
    case Reinstall(fetched) =>
      InstallWritesStaticOnly(s.storage, s.origin, fetched, |PRECACHE_PATHS|, name, url);
    case Reactivate => ActivationKeeps(s.origin, s.storage);
    case _ =>
  }

  lemma {:induction false} EntryStays(run: Run, name: CacheName, url: Url, i: nat, j: nat)
    requires run.Valid() && i <= j < |run.states| && run.states[i].storage.Lookup(name, url).Some?
    requires forall k :: i <= k < j ==> !Overwrites(run.states[k], run.events[k], name, url)
    ensures run.states[j].storage.Lookup(name, url) == run.states[i].storage.Lookup(name, url)
    decreases j
  {
    if i < j {
      hide Step, Inv, Storage.Lookup, Overwrites, Start, Precached, Admissible;
      EntryStays(run, name, url, i, j - 1);
      RunKeepsInv(run, j - 1);
      StepKeepsEntry(run.states[j - 1], run.events[j - 1], name, url);
    }
  }

  /** An OK answer from the network, written to its cache some time later. */
  ghost predicate StoredBetween(run: Run, i: nat, k: nat)
    requires run.Valid()
  {
    && i < k < |run.events| && run.events[i].Answered? && run.events[i].response.ok
    && run.events[k] == Land(run.events[i].putId)
    && forall m :: i < m < k ==> !Settles(run.events[m], run.events[i].putId)
  }

  lemma {:induction false} AnsweredIsStored(run: Run, i: nat, k: nat)
    requires run.Valid() && StoredBetween(run, i, k)
    requires var r := run.states[i].tasks[run.events[i].id].request; ApiRead(r) || PageVisit(r) || BuildAsset(r)
    ensures var e := run.events[i];
            var r := run.states[i].tasks[e.id].request;
            run.states[k + 1].storage.Lookup(KeptIn(r), r.url) == Some(Kept(r, e.response, e.now))
  {
    var e := run.events[i];
    var r := run.states[i].tasks[e.id].request;
    hide Step, Inv, ApiRead, PageVisit, BuildAsset, Settles, Kept, KeptIn, Start, Precached, Admissible, Storage.Lookup;
    TaskIsGood(run, i, e.id);
    NetworkAnswerIsKept(run.states[i], e.id, e.response, e.putId, e.now);
    PutWaits(run, i + 1, k, e.putId);
    LandedIsFound(run.states[k], e.putId, KeptIn(r), r.url);
  }

  lemma {:induction false} TaskIsGood(run: Run, i: nat, id: nat)
    requires run.Valid() && i < |run.states| && id in run.states[i].tasks
    ensures GoodTask(run.states[i].tasks[id])
  {
    RunKeepsInv(run, i);
  }

  /**
   * What was read online can be read offline: once an OK answer to an API read has been written, every
   * later read of that URL whose fetch fails is answered from the cache, and with that very response
   * unless another write to the entry has landed since.
   */
  lemma {:induction false} ReadOnlineReadOffline(run: Run, i: nat, k: nat, j: nat, id: nat, now: int)
    requires run.Valid() && StoredBetween(run, i, k) && k < j < |run.events|
    requires ApiRead(run.states[i].tasks[run.events[i].id].request)
    requires run.events[j] == Look(id, now) && run.states[j].tasks[id].stage == FallingBack
    requires run.states[j].tasks[id].request.url == run.states[i].tasks[run.events[i].id].request.url
    ensures var r := run.states[j].tasks[id].request;
            exists cached ::
              && run.states[j + 1].answers == run.states[j].answers + [Reply(id, r, Cached(cached))]
              && cached.ok && cached.fetchedFor == r.url
              && ((forall m :: k < m < j ==> !Overwrites(run.states[m], run.events[m], ApiCache, r.url)) ==>
                    cached == run.events[i].response.(cachedAt := Some(run.events[i].now)))
  {
    var url := run.states[j].tasks[id].request.url;
    AnsweredIsStored(run, i, k);
    OfflineReadIsServed(run, k + 1, j, id, now);
    var cached := run.states[j].storage.Lookup(ApiCache, url).value;
    StoredIsGood(run, j, ApiCache, url);
    if forall m :: k < m < j ==> !Overwrites(run.states[m], run.events[m], ApiCache, url) {
      EntryStays(run, ApiCache, url, k + 1, j);
    }
  }

  lemma {:induction false} StoredIsGood(run: Run, i: nat, name: CacheName, url: Url)
    requires run.Valid() && i < |run.states| && run.states[i].storage.Lookup(name, url).Some?
    ensures var stored := run.states[i].storage.Lookup(name, url).value; stored.ok && stored.fetchedFor == url
  {
    RunKeepsInv(run, i);
    LookupIsGood(run.states[i], name, url);
  }

  // ---- Every handled request is answered once -----------------------------------------------

  function One(b: bool): nat { if b then 1 else 0 }

  /** How often request `r`, arrived as `id`, was answered. */
  function Answers(answers: seq<Reply>, id: nat, r: Request): nat {
    if answers == [] then 0
    else
      var last := answers[|answers| - 1];
      Answers(answers[..|answers| - 1], id, r) + One(last.id == id && last.request == r)
  }

  /** How often request `r` arrived as `id` to be handled. */
  function Handled(events: seq<Event>, id: nat, r: Request): nat {
    if events == [] then 0
    else Handled(events[..|events| - 1], id, r) + One(Handles(events[|events| - 1], id, r))
  }

  predicate Handles(e: Event, id: nat, r: Request) { e == Arrive(id, r) && RouteOf(r) != PassThrough }

  /** The request is still to be answered; while it is only being revalidated it has been. */
  predicate Waits(s: State, id: nat, r: Request) {
    id in s.tasks && s.tasks[id].request == r && s.tasks[id].stage != Revalidating
  }

  /** A step of a task concerns that task only, and answers its request exactly when that ends its waiting. */
  lemma {:induction false} TaskStepShape(s: State, e: Event)
    requires Enabled(s, e) && (e.Look? || e.Answered? || e.Failed?) && GoodTask(s.tasks[e.id])
    ensures var s', r := Step(s, e), s.tasks[e.id].request;
            && s'.tasks - {e.id} == s.tasks - {e.id}
            && (e.id in s'.tasks ==> s'.tasks[e.id].request == r)
            && if Waits(s, e.id, r) && !Waits(s', e.id, r)
               then exists a :: s'.answers == s.answers + [Reply(e.id, r, a)]
               else s'.answers == s.answers && Waits(s', e.id, r) == Waits(s, e.id, r)
  {
    hide RouteOf, Storage.Match, Storage.MatchIn, Storage.Lookup, OfflineAnswer;
    match e
    case Look(id, now) =>
    case Answered(id, response, putId, now) =>
    case Failed(id) =>
  }

  lemma {:induction false} StepAnswersOnce(s: State, e: Event, id: nat, r: Request)
    requires Inv(s) && Enabled(s, e)
    ensures Answers(Step(s, e).answers, id, r) + One(Waits(Step(s, e), id, r))
         == Answers(s.answers, id, r) + One(Waits(s, id, r)) + One(Handles(e, id, r))
  {
    hide GoodStorage, GoodEntry, GoodAnswer, GoodTask, RouteOf, Install, Storage.Open, Storage.Put, Storage.Activate;
    if e.Look? || e.Answered? || e.Failed? {
      TaskStepShape(s, e);
      hide Step;
      assert id != e.id ==> (id in Step(s, e).tasks - {e.id} <==> id in s.tasks - {e.id});
    }
  }

  lemma {:induction false} RunStepAnswersOnce(run: Run, i: nat, id: nat, r: Request)
    requires run.Valid() && i < |run.events|
    ensures Answers(run.states[i + 1].answers, id, r) + One(Waits(run.states[i + 1], id, r))
         == Answers(run.states[i].answers, id, r) + One(Waits(run.states[i], id, r))
            + One(Handles(run.events[i], id, r))
  {
    hide Step, Inv, Waits, Answers, Start, Precached, Admissible, Handles;
    RunKeepsInv(run, i);
    StepAnswersOnce(run.states[i], run.events[i], id, r);
  }

  lemma {:induction false} HandledStep(events: seq<Event>, i: nat, id: nat, r: Request)
    requires i < |events|
    ensures Handled(events[..i + 1], id, r) == Handled(events[..i], id, r) + One(Handles(events[i], id, r))
  {
    hide Handles;
    assert events[..i + 1][..i] == events[..i];
  }

  lemma {:induction false} NothingHandledYet(run: Run, id: nat, r: Request)
    requires run.Valid()
    ensures Handled(run.events[..0], id, r) == Answers(run.states[0].answers, id, r) + One(Waits(run.states[0], id, r))
  {
    hide Install, Storage.Activate, Precached, Admissible, Step;
  }

  /**
   * Each arrival of a handled request has been answered exactly once, or is waiting and has not been;
   * several arrivals under one id come one after the other.
   */
  lemma {:induction false} HandledRequestsAreAnsweredOnce(run: Run, i: nat, id: nat, r: Request)
    requires run.Valid() && i < |run.states|
    ensures Handled(run.events[..i], id, r) == Answers(run.states[i].answers, id, r) + One(Waits(run.states[i], id, r))
  {
    hide Step, Enabled, Waits, Answers, Handled, Handles, Start, Precached, Admissible;
    if i == 0 {
      NothingHandledYet(run, id, r);
    } else {
      HandledRequestsAreAnsweredOnce(run, i - 1, id, r);
      RunStepAnswersOnce(run, i - 1, id, r);
      HandledStep(run.events, i - 1, id, r);
    }
  }

  ghost predicate AllAnswered(answers: seq<Reply>) {
    forall k :: 0 <= k < |answers| ==> !answers[k].answer.Unanswered?
  }

  lemma {:induction false} StepAnswersSomething(s: State, e: Event)
    requires Enabled(s, e) && OfflineAnswer(s).OfflinePage? && AllAnswered(s.answers)
    ensures AllAnswered(Step(s, e).answers)
  {
    hide RouteOf, OfflineAnswer, Install, Storage.Open, Storage.Put, Storage.Activate, Storage.Match, Storage.Lookup;
    match e
    case Failed(id) =>
    case Look(id, now) =>
    case _ =>
  }

  /** No navigation that the worker handles is ever left with nothing at all. */
  lemma {:induction false} NothingIsLeftUnanswered(run: Run, i: nat)
    requires run.Valid() && i < |run.states|
    ensures AllAnswered(run.states[i].answers)
  {
    if i > 0 {
      NothingIsLeftUnanswered(run, i - 1);
      OfflinePageIsAlwaysFound(run, i - 1);
      StepAnswersSomething(run.states[i - 1], run.events[i - 1]);
    }
  }
}

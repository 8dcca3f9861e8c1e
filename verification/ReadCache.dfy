/** The generation-guarded GET cache of the LiteLLM client (internal/litellm/readcache.go and
    makeRequest in restclient.go): the class with its three locked operations, and the
    interleavings of any number of GETs and writes through them. */
module ReadCache {
  import opened Strings

  type Path = string

  /** The generation counter is a uint64. */
  const WORD: nat := 0x1_0000_0000_0000_0000

  datatype CachedBody<B> = CachedBody(body: B, at: int)

  datatype Cache<B> = Cache(gen: nat, m: map<Path, CachedBody<B>>)

  function Lookup<B>(c: Cache<B>, path: Path, now: int, ttl: int): (r: Option<B>) {
    if path in c.m && now - c.m[path].at < ttl then Some(c.m[path].body) else None
  }

  function Put<B>(c: Cache<B>, path: Path, gen: nat, body: B, now: int): (r: Cache<B>) {
    if gen == c.gen then c.(m := c.m[path := CachedBody(body, now)]) else c
  }

  function Drop<B>(c: Cache<B>): (r: Cache<B>) {
    Cache((c.gen + 1) % WORD, map[])
  }

  /** The locked operations and the request path of one client, with the upstream answer as a
      parameter. */
  class ReadCache<B> {
    const ttl: int
    var gen: nat
    var m: map<Path, CachedBody<B>>

    constructor (ttl: int)
      ensures this.ttl == ttl && gen == 0 && m == map[]
    {
      this.ttl := ttl;
      gen, m := 0, map[];
    }

    ghost function Contents(): (c: Cache<B>)
      reads this
    {
      Cache(gen, m)
    }

    /** The body kept for the path, unless it is ttl old or older, and the generation. */
    method Get(path: Path, now: int) returns (body: Option<B>, g: nat)
      ensures body.Some? <==> path in m && now < m[path].at + ttl
      ensures body.Some? ==> body.value == m[path].body
      ensures g == gen && body == Lookup(Contents(), path, now, ttl)
    {
      g := gen;
      body := if path in m && now - m[path].at < ttl then Some(m[path].body) else None;
    }

    method Store(path: Path, g: nat, body: B, now: int)
      modifies this`m
      ensures g == gen ==> m == old(m)[path := CachedBody(body, now)]
      ensures g != gen ==> m == old(m)
      ensures Contents() == Put(old(Contents()), path, g, body, now)
    {
      if g == gen {
        m := m[path := CachedBody(body, now)];
      }
    }

    method Clear()
      modifies this
      ensures m == map[] && gen == (old(gen) + 1) % 0x1_0000_0000_0000_0000
      ensures Contents() == Drop(old(Contents()))
    {
      gen := (gen + 1) % WORD;
      m := map[];
    }

    /** makeRequest with the cache enabled and nothing else running. A fresh hit never reaches
        upstream, a good GET answer is kept, a failed one is not, and every write empties the
        cache even when it failed. */
    method MakeRequest(isGet: bool, path: Path, upstream: Result<B, string>, now: int, later: int)
      returns (r: Result<B, string>)
      modifies this
      ensures
        var hit := isGet && path in old(m) && now < old(m)[path].at + ttl;
        && (hit ==> r == Ok(old(m)[path].body) && m == old(m) && gen == old(gen))
        && (!hit ==> r == upstream)
        && (!hit && isGet ==> gen == old(gen))
        && (!hit && isGet && upstream.Ok? ==> m == old(m)[path := CachedBody(upstream.value, later)])
        && (!hit && isGet && upstream.Err? ==> m == old(m))
      ensures !isGet && path == "/tag/info" ==> m == old(m) && gen == old(gen)
      ensures !isGet && path != "/tag/info" ==> m == map[] && gen == (old(gen) + 1) % 0x1_0000_0000_0000_0000
    {
      if isGet {
        var cached, g := Get(path, now);
        if cached.Some? {
          return Ok(cached.value);
        }
        r := upstream;
        if r.Ok? {
          Store(path, g, r.value, later);
        }
        return;
      }
      r := upstream;
      if path != "/tag/info" {
        Clear();
      }
    }
  }

  // ----- Interleavings

  /** A body, known by when the upstream call that fetched it began, in steps of the run. */
  datatype Body = Body(path: Path, begun: nat)

  /** One request. `seen` is the generation a missing GET read and `drops` how many drops had
      happened by then; `finished` is when a write's upstream call ended. */
  datatype Pc =
    | Missed(path: Path, seen: nat, drops: nat)
    | Fetching(path: Path, seen: nat, drops: nat, begun: nat)
    | Fetched(body: Body, seen: nat, drops: nat)
    | Got(path: Path, body: Body)
    | GetFailed
    | Writing(path: Path)
    | WriteDone(path: Path, finished: nat)
    | WriteReturned(finished: nat)

  datatype State = State(step: nat, now: int, drops: nat, cache: Cache<Body>, reqs: map<nat, Pc>)

  datatype Step =
    | Tick(dt: nat)
    | BeginGet(r: nat, path: Path)
    | Fetch(r: nat) | FetchEnds(r: nat, ok: bool) | StoreBody(r: nat)
    | BeginWrite(r: nat, path: Path) | WriteEnds(r: nat) | DropAll(r: nat)

  predicate Enabled(s: State, e: Step) {
    match e
    case Tick(_) => true
    case BeginGet(r, _) => r !in s.reqs
    case Fetch(r) => r in s.reqs && s.reqs[r].Missed?
    case FetchEnds(r, _) => r in s.reqs && s.reqs[r].Fetching?
    case StoreBody(r) => r in s.reqs && s.reqs[r].Fetched?
    case BeginWrite(r, path) => r !in s.reqs && path != "/tag/info"
    case WriteEnds(r) => r in s.reqs && s.reqs[r].Writing?
    case DropAll(r) => r in s.reqs && s.reqs[r].WriteDone?
  }

  function With(s: State, r: nat, pc: Pc): (s': State) {
    s.(reqs := s.reqs[r := pc])
  }

  function Effect(ttl: int, s: State, e: Step): (s': State)
    requires Enabled(s, e)
  {
    match e
    case Tick(dt) => s.(now := s.now + dt)
    case BeginGet(r, path) =>
      var hit := Lookup(s.cache, path, s.now, ttl);
      With(s, r, if hit.Some? then Got(path, hit.value) else Missed(path, s.cache.gen, s.drops))
    case Fetch(r) => With(s, r, Fetching(s.reqs[r].path, s.reqs[r].seen, s.reqs[r].drops, s.step))
    case FetchEnds(r, ok) =>
      var Fetching(path, seen, drops, begun) := s.reqs[r];
      With(s, r, if ok then Fetched(Body(path, begun), seen, drops) else GetFailed)
    case StoreBody(r) =>
      var Fetched(body, seen, _) := s.reqs[r];
      With(s.(cache := Put(s.cache, body.path, seen, body, s.now)), r, Got(body.path, body))
    case BeginWrite(r, path) => With(s, r, Writing(path))
    case WriteEnds(r) => With(s, r, WriteDone(s.reqs[r].path, s.step))
    case DropAll(r) =>
      With(s.(cache := Drop(s.cache), drops := s.drops + 1), r, WriteReturned(s.reqs[r].finished))
  }

  function Apply(ttl: int, s: State, e: Step): (s': State)
    requires Enabled(s, e)
  {
    Effect(ttl, s, e).(step := s.step + 1)
  }

  ghost predicate Next(ttl: int, s: State, s': State) {
    exists e :: Enabled(s, e) && s' == Apply(ttl, s, e)
  }

  ghost predicate NextAt(ttl: int, tr: seq<State>, i: int)
    requires 0 <= i < |tr| - 1
  {
    Next(ttl, tr[i], tr[i + 1])
  }

  ghost predicate Behaviour(ttl: int, tr: seq<State>) {
    && tr != []
    && tr[0].step == 0 && tr[0].drops == 0 && tr[0].cache == Cache(0, map[]) && tr[0].reqs == map[]
    && forall i :: 0 <= i < |tr| - 1 ==> NextAt(ttl, tr, i)
  }

  // ----- Read after write

  /** No returned write's upstream call ended after step t. */
  ghost predicate SettledBy(s: State, t: nat) {
    forall w | w in s.reqs && s.reqs[w].WriteReturned? :: s.reqs[w].finished <= t
  }

  /** The generation a GET read has come round to the current one although, since its fetch began,
      some write has ended upstream and returned. */
  ghost predicate Wrapped(s: State, r: nat) {
    && r in s.reqs && s.reqs[r].Fetched? && s.reqs[r].seen == s.cache.gen
    && !SettledBy(s, s.reqs[r].body.begun)
  }

  /** Fewer than 2^64 drops during any GET, up to its answer. */
  ghost predicate FewDrops(tr: seq<State>) {
    forall i | 0 <= i < |tr| :: forall r | r in tr[i].reqs && tr[i].reqs[r].Fetched? ::
      tr[i].drops < tr[i].reqs[r].drops + WORD
  }

  predicate Recorded(s: State, pc: Pc) {
    match pc
    case Missed(_, seen, drops) => drops <= s.drops && seen == drops % WORD
    case Fetching(_, seen, drops, _) => drops <= s.drops && seen == drops % WORD
    case Fetched(_, seen, drops) => drops <= s.drops && seen == drops % WORD
    case WriteDone(_, finished) => finished <= s.step
    case WriteReturned(finished) => finished <= s.step
    case Got(path, body) => body.path == path
    case GetFailed => true
    case Writing(_) => true
  }

  /** A fetch that no drop has overtaken began after every returned write had landed. */
  ghost predicate Current(s: State, pc: Pc) {
    match pc
    case Fetching(_, _, drops, begun) => drops == s.drops ==> SettledBy(s, begun)
    case Fetched(body, _, drops) => drops == s.drops ==> SettledBy(s, body.begun)
    case _ => true
  }

  /** What every run keeps: generations count drops modulo 2^64, and each request knows how many
      there had been. */
  ghost predicate Guarded(s: State) {
    && s.cache.gen == s.drops % WORD
    && (forall r | r in s.reqs :: Recorded(s, s.reqs[r]))
    && (forall r | r in s.reqs :: Current(s, s.reqs[r]))
    && (forall p | p in s.cache.m :: s.cache.m[p].body.path == p)
  }

  /** The fetch of every cached body began after every returned write had landed. */
  ghost predicate Settled(s: State) {
    forall p | p in s.cache.m :: SettledBy(s, s.cache.m[p].body.begun)
  }

  ghost predicate Inv(s: State) {
    Guarded(s) && Settled(s)
  }

  /** Steps that return no write leave the set of returned writes alone. */
  lemma SettledKept(s: State, s': State, t: nat)
    requires forall w | w in s'.reqs && s'.reqs[w].WriteReturned? :: w in s.reqs && s.reqs[w] == s'.reqs[w]
    requires SettledBy(s, t)
    ensures SettledBy(s', t)
  {
  }

  lemma RequestMoves(s: State, r: nat, pc: Pc)
    requires Guarded(s) && !pc.WriteReturned? && Recorded(s, pc) && Current(s, pc)
    requires r in s.reqs ==> !s.reqs[r].WriteReturned?
    ensures Guarded(With(s, r, pc))
  {
  }

  lemma DropKeeps(s: State, r: nat)
    requires Guarded(s) && r in s.reqs && s.reqs[r].WriteDone?
    ensures Guarded(With(s.(cache := Drop(s.cache), drops := s.drops + 1), r, WriteReturned(s.reqs[r].finished)))
  {
  }

  lemma EffectGuarded(ttl: int, s: State, e: Step)
    requires Guarded(s) && Enabled(s, e)
    ensures Guarded(Effect(ttl, s, e))
  {
    match e {
      case Tick(dt) =>
        var s' := s.(now := s.now + dt);
        forall t: nat | SettledBy(s, t) ensures SettledBy(s', t) { SettledKept(s, s', t); }
      case StoreBody(r) =>
        var Fetched(body, seen, _) := s.reqs[r];
        RequestMoves(s.(cache := Put(s.cache, body.path, seen, body, s.now)), r, Got(body.path, body));
      case DropAll(r) => DropKeeps(s, r);
      case Fetch(r) =>
        assert Recorded(s, s.reqs[r]);
        assert SettledBy(s, s.step) by {
          forall w | w in s.reqs && s.reqs[w].WriteReturned? ensures s.reqs[w].finished <= s.step {
            assert Recorded(s, s.reqs[w]);
          }
        }
        RequestMoves(s, r, Fetching(s.reqs[r].path, s.reqs[r].seen, s.reqs[r].drops, s.step));
      case BeginGet(r, _) => RequestMoves(s, r, Effect(ttl, s, e).reqs[r]);
      case FetchEnds(r, _) =>
        assert Recorded(s, s.reqs[r]) && Current(s, s.reqs[r]);
        RequestMoves(s, r, Effect(ttl, s, e).reqs[r]);
      case BeginWrite(r, path) => RequestMoves(s, r, Writing(path));
      case WriteEnds(r) => RequestMoves(s, r, WriteDone(s.reqs[r].path, s.step));
    }
  }

  lemma ApplyGuarded(ttl: int, s: State, e: Step)
    requires Guarded(s) && Enabled(s, e)
    ensures Guarded(Apply(ttl, s, e))
  {
    EffectGuarded(ttl, s, e);
    var m := Effect(ttl, s, e);
    var s' := m.(step := s.step + 1);
    forall t: nat | SettledBy(m, t) ensures SettledBy(s', t) { SettledKept(m, s', t); }
    forall r | r in s'.reqs ensures Recorded(s', s'.reqs[r]) { assert Recorded(m, m.reqs[r]); }
  }

  lemma SameWord(a: nat, b: nat)
    requires a < b && a % WORD == b % WORD
    ensures b >= a + WORD
  {
  }

  /** The guard: only 2^64 drops let an overtaken fetch pass for a current one. */
  lemma GuardHolds(s: State, r: nat)
    requires Guarded(s) && Wrapped(s, r)
    ensures s.drops >= s.reqs[r].drops + WORD
  {
    assert Recorded(s, s.reqs[r]) && Current(s, s.reqs[r]);
    SameWord(s.reqs[r].drops, s.drops);
  }

  /** A GET that stores does so before 2^64 drops have overtaken it. */
  predicate InTime(s: State, e: Step)
    requires Enabled(s, e)
  {
    e.StoreBody? ==> s.drops < s.reqs[e.r].drops + WORD
  }

  lemma ApplySettled(ttl: int, s: State, e: Step)
    requires Inv(s) && Enabled(s, e) && InTime(s, e)
    ensures Settled(Apply(ttl, s, e))
  {
    var s' := Apply(ttl, s, e);
    if !e.DropAll? {
      forall p | p in s'.cache.m ensures SettledBy(s', s'.cache.m[p].body.begun) {
        assert SettledBy(s, s'.cache.m[p].body.begun) by {
          if e.StoreBody? && Wrapped(s, e.r) {
            GuardHolds(s, e.r);
          }
        }
        SettledKept(s, s', s'.cache.m[p].body.begun);
      }
    }
  }

  /** Every step in time keeps the invariant. */
  lemma ApplyKeeps(ttl: int, s: State, e: Step)
    requires Inv(s) && Enabled(s, e) && InTime(s, e)
    ensures Inv(Apply(ttl, s, e))
  {
    ApplyGuarded(ttl, s, e);
    ApplySettled(ttl, s, e);
  }

  lemma {:induction false} BehaviourGuarded(ttl: int, tr: seq<State>, i: nat)
    requires Behaviour(ttl, tr) && i < |tr|
    ensures Guarded(tr[i])
  {
    if i > 0 {
      BehaviourGuarded(ttl, tr, i - 1);
      assert NextAt(ttl, tr, i - 1);
      var e :| Enabled(tr[i - 1], e) && tr[i] == Apply(ttl, tr[i - 1], e);
      ApplyGuarded(ttl, tr[i - 1], e);
    }
  }

  lemma {:induction false} BehaviourKeeps(ttl: int, tr: seq<State>, i: nat)
    requires Behaviour(ttl, tr) && FewDrops(tr) && i < |tr|
    ensures Inv(tr[i])
  {
    if i > 0 {
      BehaviourKeeps(ttl, tr, i - 1);
      assert NextAt(ttl, tr, i - 1);
      var e :| Enabled(tr[i - 1], e) && tr[i] == Apply(ttl, tr[i - 1], e);
      ApplyKeeps(ttl, tr[i - 1], e);
    }
  }

  /** Every body request that was not there `before` holds or returns was fetched from step t on. */
  ghost predicate FreshSince(s: State, t: nat, before: set<nat>) {
    forall r | r in s.reqs && r !in before ::
      match s.reqs[r]
      case Fetching(_, _, _, begun) => t <= begun
      case Fetched(body, _, _) => t <= body.begun
      case Got(_, body) => t <= body.begun
      case _ => true
  }

  lemma FreshStep(ttl: int, s: State, e: Step, w: nat, before: set<nat>)
    requires Inv(s) && Enabled(s, e) && w in s.reqs && s.reqs[w].WriteReturned?
    requires FreshSince(s, s.reqs[w].finished, before) && before <= s.reqs.Keys
    ensures
      var s' := Apply(ttl, s, e);
      && w in s'.reqs && s'.reqs[w] == s.reqs[w] && before <= s'.reqs.Keys
      && FreshSince(s', s.reqs[w].finished, before)
  {
  }

  lemma {:induction false} FreshRun(ttl: int, tr: seq<State>, i: nat, j: nat, w: nat)
    requires Behaviour(ttl, tr) && FewDrops(tr) && i <= j < |tr|
    requires w in tr[i].reqs && tr[i].reqs[w].WriteReturned?
    ensures w in tr[j].reqs && tr[j].reqs[w] == tr[i].reqs[w] && tr[i].reqs.Keys <= tr[j].reqs.Keys
    ensures FreshSince(tr[j], tr[i].reqs[w].finished, tr[i].reqs.Keys)
    decreases j - i
  {
    if i < j {
      FreshRun(ttl, tr, i, j - 1, w);
      BehaviourKeeps(ttl, tr, j - 1);
      assert NextAt(ttl, tr, j - 1);
      var e :| Enabled(tr[j - 1], e) && tr[j] == Apply(ttl, tr[j - 1], e);
      FreshStep(ttl, tr[j - 1], e, w, tr[i].reqs.Keys);
    }
  }

  /** In every interleaving in which fewer than 2^64 drops overtake any one GET, a GET that begins after
      a write has returned yields no body whose fetch began before that write's upstream call ended,
      and only a body of its own path. */
  lemma ReadAfterWrite(ttl: int, tr: seq<State>, i: nat, j: nat, w: nat, r: nat)
    requires Behaviour(ttl, tr) && FewDrops(tr) && i <= j < |tr|
    requires w in tr[i].reqs && tr[i].reqs[w].WriteReturned?
    requires r !in tr[i].reqs && r in tr[j].reqs && tr[j].reqs[r].Got?
    ensures tr[i].reqs[w].finished <= tr[j].reqs[r].body.begun
    ensures tr[j].reqs[r].body.path == tr[j].reqs[r].path
  {
    FreshRun(ttl, tr, i, j, w);
    BehaviourKeeps(ttl, tr, j);
    assert Recorded(tr[j], tr[j].reqs[r]);
  }

  // ----- What a GET is answered with

  /** The step from state k stores `body` in the cache. */
  ghost predicate StoresAt(ttl: int, tr: seq<State>, k: nat, body: Body)
    requires k + 1 < |tr|
  {
    exists r :: && r in tr[k].reqs && tr[k].reqs[r].Fetched? && tr[k].reqs[r].body == body
                && tr[k].reqs[r].seen == tr[k].cache.gen && tr[k + 1] == Apply(ttl, tr[k], StoreBody(r))
  }

  /** Stored in state k, not dropped since. */
  ghost predicate KeptSince(ttl: int, tr: seq<State>, i: nat, k: nat, body: Body)
    requires i < |tr|
  {
    k < i && StoresAt(ttl, tr, k, body) && tr[k].drops == tr[i].drops
  }

  ghost predicate Provenance(ttl: int, tr: seq<State>, i: nat, p: Path, c: CachedBody<Body>)
    requires i < |tr|
  {
    c.body.path == p && exists k: nat :: KeptSince(ttl, tr, i, k, c.body) && tr[k].now == c.at
  }

  lemma DropsGrow(ttl: int, s: State, e: Step)
    requires Enabled(s, e)
    ensures s.drops <= Apply(ttl, s, e).drops && s.now <= Apply(ttl, s, e).now
    ensures Apply(ttl, s, e).drops == s.drops ==> s.cache.m.Keys <= Apply(ttl, s, e).cache.m.Keys
  {
  }

  lemma ProvenanceStep(ttl: int, tr: seq<State>, i: nat, e: Step, p: Path)
    requires i + 1 < |tr| && Enabled(tr[i], e) && tr[i + 1] == Apply(ttl, tr[i], e) && p in tr[i + 1].cache.m
    requires forall q | q in tr[i].cache.m :: Provenance(ttl, tr, i, q, tr[i].cache.m[q])
    ensures Provenance(ttl, tr, i + 1, p, tr[i + 1].cache.m[p])
  {
    var s, c := tr[i], tr[i + 1].cache.m[p];
    if p in s.cache.m && s.cache.m[p] == c {
      assert Provenance(ttl, tr, i, p, s.cache.m[p]);
      var k: nat :| KeptSince(ttl, tr, i, k, c.body) && tr[k].now == c.at;
      assert KeptSince(ttl, tr, i + 1, k, c.body);
    } else {
      assert s.reqs[e.r].body == c.body;
      assert KeptSince(ttl, tr, i + 1, i, c.body);
    }
  }

  lemma {:induction false} EveryBodyWasStored(ttl: int, tr: seq<State>, i: nat)
    requires Behaviour(ttl, tr) && i < |tr|
    ensures forall p | p in tr[i].cache.m :: Provenance(ttl, tr, i, p, tr[i].cache.m[p])
  {
    if i > 0 {
      EveryBodyWasStored(ttl, tr, i - 1);
      assert NextAt(ttl, tr, i - 1);
      var e :| Enabled(tr[i - 1], e) && tr[i] == Apply(ttl, tr[i - 1], e);
      forall p | p in tr[i].cache.m ensures Provenance(ttl, tr, i, p, tr[i].cache.m[p]) {
        ProvenanceStep(ttl, tr, i - 1, e, p);
      }
    }
  }

  /** The cache holds a body for the path no older than time t. */
  predicate HoldsSince(s: State, p: Path, t: int) {
    p in s.cache.m && t <= s.cache.m[p].at
  }

  lemma HoldsStep(ttl: int, s: State, e: Step, p: Path, t: int)
    requires Enabled(s, e) && HoldsSince(s, p, t) && t <= s.now && Apply(ttl, s, e).drops == s.drops
    ensures HoldsSince(Apply(ttl, s, e), p, t) && t <= Apply(ttl, s, e).now
  {
  }

  /** What was stored and not dropped is there, or something newer is. */
  lemma {:induction false} StoredStays(ttl: int, tr: seq<State>, k: nat, i: nat, body: Body)
    requires Behaviour(ttl, tr) && k < i < |tr| && StoresAt(ttl, tr, k, body)
    ensures tr[k].drops <= tr[i].drops && tr[k].now <= tr[i].now
    ensures tr[k].drops == tr[i].drops ==> HoldsSince(tr[i], body.path, tr[k].now)
  {
    if k + 1 < i {
      StoredStays(ttl, tr, k, i - 1, body);
      assert NextAt(ttl, tr, i - 1);
      var e :| Enabled(tr[i - 1], e) && tr[i] == Apply(ttl, tr[i - 1], e);
      DropsGrow(ttl, tr[i - 1], e);
      if tr[k].drops == tr[i].drops {
        HoldsStep(ttl, tr[i - 1], e, body.path, tr[k].now);
      }
    }
  }

  /** Stored less than ttl ago and not dropped since. */
  ghost predicate Available(ttl: int, tr: seq<State>, i: nat, body: Body)
    requires i < |tr|
  {
    exists k: nat :: KeptSince(ttl, tr, i, k, body) && tr[i].now < tr[k].now + ttl
  }

  /** In every run a GET is answered without a fetch of its own exactly when some body of its path was
      stored less than ttl ago and no drop has come since, and then with such a body. */
  lemma AnsweredIffAvailable(ttl: int, tr: seq<State>, i: nat, r: nat, path: Path)
    requires Behaviour(ttl, tr) && i + 1 < |tr|
    requires r !in tr[i].reqs && tr[i + 1] == Apply(ttl, tr[i], BeginGet(r, path))
    ensures tr[i + 1].reqs[r].Got? <==> exists body :: Available(ttl, tr, i, body) && body.path == path
    ensures tr[i + 1].reqs[r].Got? ==>
              && tr[i + 1].reqs[r].path == path == tr[i + 1].reqs[r].body.path
              && Available(ttl, tr, i, tr[i + 1].reqs[r].body)
    ensures !tr[i + 1].reqs[r].Got? ==> tr[i + 1].reqs[r] == Missed(path, tr[i].cache.gen, tr[i].drops)
  {
    var s := tr[i];
    if tr[i + 1].reqs[r].Got? {
      EveryBodyWasStored(ttl, tr, i);
      assert Provenance(ttl, tr, i, path, s.cache.m[path]);
      var k: nat :| KeptSince(ttl, tr, i, k, s.cache.m[path].body) && tr[k].now == s.cache.m[path].at;
      assert Available(ttl, tr, i, s.cache.m[path].body);
    }
    if body :| Available(ttl, tr, i, body) && body.path == path {
      var k: nat :| KeptSince(ttl, tr, i, k, body) && tr[i].now < tr[k].now + ttl;
      StoredStays(ttl, tr, k, i, body);
    }
  }

  /** A GET whose fetch failed is never answered and stores nothing. */
  lemma {:induction false} FailedStays(ttl: int, tr: seq<State>, i: nat, j: nat, r: nat)
    requires Behaviour(ttl, tr) && i < j < |tr| && r in tr[i].reqs && tr[i].reqs[r].Fetching?
    requires tr[i + 1] == Apply(ttl, tr[i], FetchEnds(r, false))
    ensures r in tr[j].reqs && tr[j].reqs[r].GetFailed?
    ensures tr[i + 1].cache == tr[i].cache
    decreases j
  {
    if i + 1 < j {
      FailedStays(ttl, tr, i, j - 1, r);
      assert NextAt(ttl, tr, j - 1);
    }
  }

  // ----- When the generation comes round

  /** In every run, that takes at least 2^64 drops during one GET. */
  lemma WrapTakesAWord(ttl: int, tr: seq<State>, i: nat, r: nat)
    requires Behaviour(ttl, tr) && i < |tr| && Wrapped(tr[i], r)
    ensures tr[i].drops >= tr[i].reqs[r].drops + WORD
  {
    BehaviourGuarded(ttl, tr, i);
    GuardHolds(tr[i], r);
  }

  lemma Extend(ttl: int, tr: seq<State>, e: Step) returns (tr': seq<State>)
    requires Behaviour(ttl, tr) && Enabled(tr[|tr| - 1], e)
    ensures Behaviour(ttl, tr') && tr' == tr + [Apply(ttl, tr[|tr| - 1], e)]
  {
    var s := tr[|tr| - 1];
    tr' := tr + [Apply(ttl, s, e)];
    forall i | 0 <= i < |tr'| - 1 ensures NextAt(ttl, tr', i) {
      if i < |tr| - 1 {
        assert NextAt(ttl, tr, i);
      } else {
        assert Enabled(s, e) && tr'[i + 1] == Apply(ttl, s, e);
      }
    }
  }

  /** A write w had returned by state i, and GET r, begun later, got a body fetched before w ended. */
  ghost predicate ReadsStale(tr: seq<State>, i: nat, j: nat, w: nat, r: nat) {
    && i <= j < |tr| && w in tr[i].reqs && tr[i].reqs[w].WriteReturned?
    && r !in tr[i].reqs && r in tr[j].reqs && tr[j].reqs[r].Got?
    && tr[j].reqs[r].body.begun < tr[i].reqs[w].finished
  }

  /** And then the store goes through and the next GET of that path reads stale. */
  lemma WrapReadsStale(ttl: int, tr: seq<State>, r: nat, again: nat) returns (tr': seq<State>, w: nat)
    requires ttl > 0 && Behaviour(ttl, tr) && Wrapped(tr[|tr| - 1], r) && again !in tr[|tr| - 1].reqs
    ensures Behaviour(ttl, tr') && tr <= tr' && ReadsStale(tr', |tr| - 1, |tr'| - 1, w, again)
  {
    var s := tr[|tr| - 1];
    w :| w in s.reqs && s.reqs[w].WriteReturned? && s.reqs[w].finished > s.reqs[r].body.begun;
    tr' := Extend(ttl, tr, StoreBody(r));
    tr' := Extend(ttl, tr', BeginGet(again, s.reqs[r].body.path));
  }

  /** After n writes, one at a time, GET 0 still holds the body it fetched before them. */
  ghost predicate Overtaken(s: State, n: nat) {
    && s.drops == n && s.cache.gen == n % WORD
    && 0 in s.reqs && s.reqs[0] == Fetched(Body("/keys", 1), 0, 0) && s.step > 1
    && (forall k | k > n :: k !in s.reqs)
    && (n > 0 ==> n in s.reqs && s.reqs[n].WriteReturned? && s.reqs[n].finished > 1)
  }

  lemma FetchedFirst(ttl: int) returns (tr: seq<State>)
    ensures Behaviour(ttl, tr) && Overtaken(tr[|tr| - 1], 0)
  {
    tr := [State(0, 0, 0, Cache(0, map[]), map[])];
    tr := Extend(ttl, tr, BeginGet(0, "/keys"));
    tr := Extend(ttl, tr, Fetch(0));
    tr := Extend(ttl, tr, FetchEnds(0, true));
  }

  lemma NextWord(n: nat)
    ensures (n % WORD + 1) % WORD == (n + 1) % WORD
  {
  }

  lemma OneMoreWrite(ttl: int, tr: seq<State>, n: nat) returns (tr': seq<State>)
    requires Behaviour(ttl, tr) && Overtaken(tr[|tr| - 1], n)
    ensures Behaviour(ttl, tr') && Overtaken(tr'[|tr'| - 1], n + 1)
  {
    NextWord(n);
    tr' := Extend(ttl, tr, BeginWrite(n + 1, "/keys"));
    tr' := Extend(ttl, tr', WriteEnds(n + 1));
    tr' := Extend(ttl, tr', DropAll(n + 1));
  }

  lemma {:induction false} ManyWrites(ttl: int, n: nat) returns (tr: seq<State>)
    ensures Behaviour(ttl, tr) && Overtaken(tr[|tr| - 1], n)
  {
    if n == 0 {
      tr := FetchedFirst(ttl);
    } else {
      tr := ManyWrites(ttl, n - 1);
      tr := OneMoreWrite(ttl, tr, n - 1);
    }
  }

  /** So the condition is needed: with 2^64 writes during one GET some run reads stale. */
  lemma ReadsStaleAfterAWord(ttl: int) returns (tr: seq<State>, i: nat, w: nat)
    requires ttl > 0
    ensures Behaviour(ttl, tr) && ReadsStale(tr, i, |tr| - 1, w, WORD + 1)
  {
    tr := ManyWrites(ttl, WORD);
    i := |tr| - 1;
    tr, w := WrapReadsStale(ttl, tr, 0, WORD + 1);
  }
}

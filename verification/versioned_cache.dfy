/**
 The retrieval and answer caches in Redis, under one version counter that ingestion increments.
 First the module's operations one at a time, then turns, ingests and expiries interleaved at the
 granularity of single Redis commands.
 */
module VersionedCache {
  import opened Wrappers
  import opened Text
  import opened CacheKey

  /** Serialized chunks or a serialized answer; the empty string stands for nothing worth storing. */
  type Payload = string

  /** The caches refuse a blank question to the answer cache. */
  predicate Cacheable(ask: Ask) { ask.Answer? ==> Strip(ask.query) != "" }

  /** The key-value server, up or down, as `get`, `set` and `bump_version` use it. */
  class Redis {
    var up: bool
    var version: nat
    var entries: map<string, Payload>

    constructor ()
      ensures up && version == 0 && entries == map[]
    {
      up, version, entries := true, 0, map[];
    }

    /** Fails open: 0 when the server is down. */
    method Version() returns (v: nat)
      ensures v == if up then version else 0
    {
      v := if up then version else 0;
    }

    method Get(a: Alphabet, ask: Ask) returns (hit: Option<Payload>)
      ensures hit.Some? <==>
                up && Cacheable(ask) && Key(a, ask, version) in entries && entries[Key(a, ask, version)] != ""
      ensures hit.Some? ==> hit.value == entries[Key(a, ask, version)]
    {
      if !Cacheable(ask) || !up {
        return None;
      }
      var v := Version();
      var key := Key(a, ask, v);
      if key !in entries || entries[key] == "" {
        return None;
      }
      return Some(entries[key]);
    }

    method Set(a: Alphabet, ask: Ask, payload: Payload)
      modifies `entries
      ensures entries ==
                if up && Cacheable(ask) && payload != "" then old(entries)[Key(a, ask, version) := payload]
                else old(entries)
    {
      if !Cacheable(ask) || payload == "" || !up {
        return;
      }
      var v := Version();
      entries := entries[Key(a, ask, v) := payload];
    }

    method BumpVersion()
      modifies `version
      ensures version == old(version) + if up then 1 else 0
    {
      if up {
        version := version + 1;
      }
    }
  }

  // ---- Interleaving ----

  /**
   One retrieval from the index: what it gave, the corpus it ran against, and the version at that
   moment. Kept for the record, as `Write` is.
   */
  datatype Retrieval = Retrieval(ask: Ask, payload: Payload, at: nat, seen: nat)

  /** A read of the version counter when it stood at `now`; a read that fails gives 0. */
  datatype Read = Read(ok: bool, now: nat) {
    function Version(): nat { if ok then now else 0 }
  }

  /** A store: the payload, the retrievals behind it, and the version read for its key. */
  datatype Write = Write(ask: Ask, payload: Payload, sources: set<Retrieval>, read: Read)

  /**
   A turn between Redis commands. A turn that asks for chunks retrieves them once; one that asks for
   an answer runs an agent, whose searches are turns of their own, through the retrieval cache.
   */
  datatype Turn =
    | Asked(ask: Ask)
    | Looking(ask: Ask, read: Read)
    | Hit(ask: Ask, read: Read, write: Write)
    | Missed(ask: Ask, sources: set<Retrieval>)
    | Ready(ask: Ask, payload: Payload, sources: set<Retrieval>)
    | Storing(write: Write)
    | Done(ask: Ask, sources: set<Retrieval>)

  /**
   `corpus` counts the changes to the index and `born[v]` is the corpus at the bump to version `v`.
   An entry is the store that made it, of which only the payload is in the server; `owner` is the
   turn whose agent began a search.
   */
  datatype System = System(
    corpus: nat, born: seq<nat>, entries: map<string, Write>, turns: map<nat, Turn>, owner: map<nat, nat>,
    retrievals: set<Retrieval>, writes: set<Write>)

  const START := System(0, [0], map[], map[], map[], {}, {})

  /** `ok` is whether the command succeeds; what the index and the agent return may be anything. */
  datatype Event =
    | Begin(p: nat, ask: Ask)
    | ReadVersion(p: nat, ok: bool)
    | LookUp(p: nat, ok: bool)
    | Retrieve(p: nat, payload: Payload)
    | Search(p: nat, q: nat, ask: Ask)
    | Take(p: nat, q: nat)
    | Conclude(p: nat, payload: Payload)
    | ReadVersionAgain(p: nat, ok: bool)
    | Store(p: nat, ok: bool)
    | Change
    | Bump
    | Expire(key: string)

  predicate Initialized(s: System) { s.born != [] }

  function Current(s: System): nat
    requires Initialized(s)
  {
    |s.born| - 1
  }

  /** The search `q` of turn `p`'s agent has its result. */
  predicate HasResult(s: System, p: nat, q: nat) {
    q in s.owner && s.owner[q] == p && q in s.turns && (s.turns[q].Hit? || s.turns[q].Done?)
  }

  function Behind(t: Turn): set<Retrieval>
    requires t.Hit? || t.Done?
  {
    if t.Hit? then t.write.sources else t.sources
  }

  predicate Serves(a: Alphabet, entries: map<string, Write>, ask: Ask, read: Read) {
    Cacheable(ask) && Key(a, ask, read.Version()) in entries && entries[Key(a, ask, read.Version())].payload != ""
  }

  /** What a look-up that goes through finds for a request. */
  function LooksUp(a: Alphabet, entries: map<string, Write>, ask: Ask, read: Read): Turn {
    if Serves(a, entries, ask, read) then Hit(ask, read, entries[Key(a, ask, read.Version())]) else Missed(ask, {})
  }

  function StepTurn(a: Alphabet, s: System, t: Turn, e: Event): Turn
    requires Initialized(s)
  {
    match e
    case ReadVersion(_, ok) => if t.Asked? then Looking(t.ask, Read(ok, Current(s))) else t
    case LookUp(_, ok) =>
      if !t.Looking? then t else if ok then LooksUp(a, s.entries, t.ask, t.read) else Missed(t.ask, {})
    case Retrieve(_, payload) =>
      if t.Missed? && t.ask.Chunks?
      then Ready(t.ask, payload, {Retrieval(t.ask, payload, s.corpus, Current(s))})
      else t
    case Take(p, q) =>
      if t.Missed? && t.ask.Answer? && HasResult(s, p, q)
      then Missed(t.ask, t.sources + Behind(s.turns[q]))
      else t
    case Conclude(_, payload) => if t.Missed? && t.ask.Answer? then Ready(t.ask, payload, t.sources) else t
    case ReadVersionAgain(_, ok) =>
      if !t.Ready? then t
      else if t.payload == "" || !Cacheable(t.ask) then Done(t.ask, t.sources)
      else Storing(Write(t.ask, t.payload, t.sources, Read(ok, Current(s))))
    case Store(_, _) => if t.Storing? then Done(t.write.ask, t.write.sources) else t
    case _ => t
  }

  /** What a step of turn `t` leaves beside the turn itself. */
  function Effect(a: Alphabet, s: System, t: Turn, e: Event): System
    requires Initialized(s)
  {
    if e.Retrieve? && t.Missed? && t.ask.Chunks? then
      s.(retrievals := s.retrievals + {Retrieval(t.ask, e.payload, s.corpus, Current(s))})
    else if e.Store? && e.ok && t.Storing? then
      s.(entries := s.entries[Key(a, t.write.ask, t.write.read.Version()) := t.write], writes := s.writes + {t.write})
    else s
  }

  function Step(a: Alphabet, s: System, e: Event): System
    requires Initialized(s)
  {
    match e
    case Begin(p, ask) => if p in s.turns then s else s.(turns := s.turns[p := Asked(ask)])
    case Search(p, q, ask) =>
      if p in s.turns && s.turns[p].Missed? && s.turns[p].ask.Answer? && ask.Chunks? && q !in s.turns
      then s.(turns := s.turns[q := Asked(ask)], owner := s.owner[q := p])
      else s
    case Change => s.(corpus := s.corpus + 1)
    case Bump => s.(born := s.born + [s.corpus])
    case Expire(key) => s.(entries := s.entries - {key})
    case _ =>
      if e.p !in s.turns then s
      else Effect(a, s, s.turns[e.p], e).(turns := s.turns[e.p := StepTurn(a, s, s.turns[e.p], e)])
  }

  function RunFrom(a: Alphabet, s: System, events: seq<Event>): (s': System)
    requires Initialized(s)
    ensures Initialized(s')
    decreases |events|
  {
    if events == [] then s else RunFrom(a, Step(a, s, events[0]), events[1..])
  }

  function Run(a: Alphabet, events: seq<Event>): System { RunFrom(a, START, events) }

  // ---- Invariants ----

  /** A retrieval's corpus lies between the bumps around it. */
  ghost predicate Dated(s: System, r: Retrieval) {
    && r.seen < |s.born| && s.born[r.seen] <= r.at <= s.corpus
    && forall v :: r.seen < v < |s.born| ==> r.at <= s.born[v]
  }

  /** Chunks are what a retrieval for the same request gave. */
  ghost predicate Own(ask: Ask, payload: Payload, sources: set<Retrieval>) {
    ask.Chunks? ==> sources != {} && forall r :: r in sources ==> r.ask == ask && r.payload == payload
  }

  ghost predicate WriteInv(s: System, w: Write) {
    && w.payload != "" && (w.ask.Answer? ==> Strip(w.ask.query) != "")
    && w.sources <= s.retrievals && w.read.now < |s.born| && Own(w.ask, w.payload, w.sources)
    && forall r :: r in w.sources ==> r.seen <= w.read.now
  }

  ghost predicate TurnInv(a: Alphabet, s: System, t: Turn) {
    match t
    case Asked(_) => true
    case Looking(_, read) => read.now < |s.born|
    case Hit(ask, read, w) =>
      read.now < |s.born| && w in s.writes && Key(a, w.ask, w.read.Version()) == Key(a, ask, read.Version())
    case Missed(_, sources) => sources <= s.retrievals
    case Ready(ask, payload, sources) => sources <= s.retrievals && Own(ask, payload, sources)
    case Storing(w) => WriteInv(s, w)
    case Done(_, sources) => sources <= s.retrievals
  }

  ghost predicate EntryInv(a: Alphabet, s: System, key: string)
    requires key in s.entries
  {
    s.entries[key] in s.writes && Key(a, s.entries[key].ask, s.entries[key].read.Version()) == key
  }

  ghost predicate Inv(a: Alphabet, s: System) {
    && Initialized(s)
    && (forall u, v :: 0 <= u <= v < |s.born| ==> s.born[u] <= s.born[v] <= s.corpus)
    && (forall r :: r in s.retrievals ==> Dated(s, r))
    && (forall w :: w in s.writes ==> WriteInv(s, w))
    && (forall key :: key in s.entries ==> EntryInv(a, s, key))
    && (forall p :: p in s.turns ==> TurnInv(a, s, s.turns[p]))
  }

  /** Later systems: more versions, retrievals and writes. */
  ghost predicate Grows(s: System, t: System) {
    s.born <= t.born && s.retrievals <= t.retrievals && s.writes <= t.writes
  }

  lemma TurnKeeps(a: Alphabet, s: System, s': System, t: Turn)
    requires Grows(s, s') && TurnInv(a, s, t)
    ensures TurnInv(a, s', t)
  {
  }

  lemma TurnsKeep(a: Alphabet, s: System, s': System)
    requires Inv(a, s) && Grows(s, s')
    ensures forall p :: p in s.turns ==> TurnInv(a, s', s.turns[p])
  {
    forall p | p in s.turns ensures TurnInv(a, s', s.turns[p]) {
      TurnKeeps(a, s, s', s.turns[p]);
    }
  }

  lemma WritesKeep(a: Alphabet, s: System, s': System)
    requires Inv(a, s) && Grows(s, s')
    ensures forall w :: w in s.writes ==> WriteInv(s', w)
  {
    forall w | w in s.writes ensures WriteInv(s', w) {
      assert WriteInv(s, w);
    }
  }

  lemma ChangeKeeps(a: Alphabet, s: System)
    requires Inv(a, s)
    ensures Inv(a, s.(corpus := s.corpus + 1))
  {
    var s' := s.(corpus := s.corpus + 1);
    TurnsKeep(a, s, s');
    WritesKeep(a, s, s');
    forall r | r in s'.retrievals ensures Dated(s', r) {
      assert Dated(s, r);
    }
    forall key | key in s'.entries ensures EntryInv(a, s', key) {
      assert EntryInv(a, s, key);
    }
  }

  lemma ExpireKeeps(a: Alphabet, s: System, expired: string)
    requires Inv(a, s)
    ensures Inv(a, s.(entries := s.entries - {expired}))
  {
    var s' := s.(entries := s.entries - {expired});
    TurnsKeep(a, s, s');
    WritesKeep(a, s, s');
    forall r | r in s'.retrievals ensures Dated(s', r) {
      assert Dated(s, r);
    }
    forall key | key in s'.entries ensures EntryInv(a, s', key) {
      assert EntryInv(a, s, key);
    }
  }

  lemma BumpKeeps(a: Alphabet, s: System)
    requires Inv(a, s)
    ensures Inv(a, s.(born := s.born + [s.corpus]))
  {
    var s' := s.(born := s.born + [s.corpus]);
    TurnsKeep(a, s, s');
    WritesKeep(a, s, s');
    forall r | r in s'.retrievals ensures Dated(s', r) {
      BumpDated(s, r);
    }
    forall key | key in s'.entries ensures EntryInv(a, s', key) {
      assert EntryInv(a, s, key);
    }
  }

  lemma BumpDated(s: System, r: Retrieval)
    requires Dated(s, r)
    ensures Dated(s.(born := s.born + [s.corpus]), r)
  {
  }

  lemma EffectKeeps(a: Alphabet, s: System, t: Turn, e: Event)
    requires Inv(a, s) && TurnInv(a, s, t)
    ensures Inv(a, Effect(a, s, t, e)) && Grows(s, Effect(a, s, t, e))
  {
    var s' := Effect(a, s, t, e);
    if e.Retrieve? && t.Missed? && t.ask.Chunks? {
      RetrievalKeeps(a, s, Retrieval(t.ask, e.payload, s.corpus, Current(s)));
    } else if e.Store? && e.ok && t.Storing? {
      WriteKeeps(a, s, t.write);
    }
  }

  lemma RetrievalKeeps(a: Alphabet, s: System, r: Retrieval)
    requires Inv(a, s) && r.at == s.corpus && r.seen == Current(s)
    ensures Inv(a, s.(retrievals := s.retrievals + {r}))
  {
    var s' := s.(retrievals := s.retrievals + {r});
    TurnsKeep(a, s, s');
    WritesKeep(a, s, s');
    forall x | x in s'.retrievals ensures Dated(s', x) {
      assert x != r ==> Dated(s, x);
    }
    forall key | key in s'.entries ensures EntryInv(a, s', key) {
      assert EntryInv(a, s, key);
    }
  }

  lemma WriteKeeps(a: Alphabet, s: System, w: Write)
    requires Inv(a, s) && WriteInv(s, w)
    ensures Inv(a, s.(entries := s.entries[Key(a, w.ask, w.read.Version()) := w], writes := s.writes + {w}))
  {
    var s' := s.(entries := s.entries[Key(a, w.ask, w.read.Version()) := w], writes := s.writes + {w});
    TurnsKeep(a, s, s');
    WritesKeep(a, s, s');
    EntriesKeep(a, s, w);
    forall r | r in s'.retrievals ensures Dated(s', r) {
      assert Dated(s, r);
    }
  }

  lemma EntriesKeep(a: Alphabet, s: System, w: Write)
    requires Inv(a, s)
    ensures var s' := s.(entries := s.entries[Key(a, w.ask, w.read.Version()) := w], writes := s.writes + {w});
            forall key :: key in s'.entries ==> EntryInv(a, s', key)
  {
    var s' := s.(entries := s.entries[Key(a, w.ask, w.read.Version()) := w], writes := s.writes + {w});
    forall key | key in s'.entries ensures EntryInv(a, s', key) {
      assert key != Key(a, w.ask, w.read.Version()) ==> EntryInv(a, s, key);
    }
  }

  /** A turn takes its place in the table. */
  lemma MoveKeeps(a: Alphabet, s: System, p: nat, t: Turn, owner: map<nat, nat>)
    requires Inv(a, s) && TurnInv(a, s, t)
    ensures Inv(a, s.(turns := s.turns[p := t], owner := owner))
  {
    var s' := s.(turns := s.turns[p := t], owner := owner);
    TurnsKeep(a, s, s');
    TurnKeeps(a, s, s', t);
    WritesKeep(a, s, s');
    forall r | r in s'.retrievals ensures Dated(s', r) {
      assert Dated(s, r);
    }
    forall key | key in s'.entries ensures EntryInv(a, s', key) {
      assert EntryInv(a, s, key);
    }
  }

  lemma SourcesSeen(a: Alphabet, s: System, t: Turn)
    requires Inv(a, s) && TurnInv(a, s, t) && t.Ready?
    ensures forall r :: r in t.sources ==> r.seen <= Current(s)
  {
    forall r | r in t.sources ensures r.seen <= Current(s) {
      assert Dated(s, r);
    }
  }

  lemma BehindRecorded(a: Alphabet, s: System, p: nat, q: nat)
    requires Inv(a, s) && HasResult(s, p, q)
    ensures Behind(s.turns[q]) <= s.retrievals
  {
    assert TurnInv(a, s, s.turns[q]);
    if s.turns[q].Hit? {
      assert WriteInv(s, s.turns[q].write);
    }
  }

  lemma StepTurnKeeps(a: Alphabet, s: System, t: Turn, e: Event)
    requires Inv(a, s) && TurnInv(a, s, t)
    ensures TurnInv(a, Effect(a, s, t, e), StepTurn(a, s, t, e))
  {
    EffectKeeps(a, s, t, e);
    if e.Take? && t.Missed? && HasResult(s, e.p, e.q) {
      BehindRecorded(a, s, e.p, e.q);
    } else if e.ReadVersionAgain? && t.Ready? {
      SourcesSeen(a, s, t);
    } else if e.LookUp? && t.Looking? && Serves(a, s.entries, t.ask, t.read) {
      assert EntryInv(a, s, Key(a, t.ask, t.read.Version()));
    } else {
      TurnKeeps(a, s, Effect(a, s, t, e), t);
    }
  }

  lemma TurnStepKeeps(a: Alphabet, s: System, p: nat, e: Event)
    requires Inv(a, s) && p in s.turns
    ensures Inv(a, Effect(a, s, s.turns[p], e).(turns := s.turns[p := StepTurn(a, s, s.turns[p], e)]))
  {
    var t := s.turns[p];
    assert TurnInv(a, s, t);
    EffectKeeps(a, s, t, e);
    StepTurnKeeps(a, s, t, e);
    MoveKeeps(a, Effect(a, s, t, e), p, StepTurn(a, s, t, e), s.owner);
  }

  lemma StepKeeps(a: Alphabet, s: System, e: Event)
    requires Inv(a, s)
    ensures Inv(a, Step(a, s, e))
  {
    match e
    case Begin(p, ask) => MoveKeeps(a, s, p, Asked(ask), s.owner);
    case Search(p, q, ask) => MoveKeeps(a, s, q, Asked(ask), s.owner[q := p]);
    case Change => ChangeKeeps(a, s);
    case Bump => BumpKeeps(a, s);
    case Expire(key) => ExpireKeeps(a, s, key);
    case _ =>
      if e.p in s.turns {
        TurnStepKeeps(a, s, e.p, e);
      }
  }

  lemma {:induction false} RunFromKeeps(a: Alphabet, s: System, events: seq<Event>)
    requires Inv(a, s)
    ensures Inv(a, RunFrom(a, s, events))
    decreases |events|
  {
    if events != [] {
      StepKeeps(a, s, events[0]);
      RunFromKeeps(a, Step(a, s, events[0]), events[1..]);
    }
  }

  lemma RunKeeps(a: Alphabet, events: seq<Event>)
    ensures Inv(a, Run(a, events))
  {
    assert Inv(a, START);
    RunFromKeeps(a, START, events);
  }

  // ---- What a bump orphans ----

  /** Nothing behind the payload is older than the bump to version `v`. */
  predicate IsFresh(s: System, sources: set<Retrieval>, v: nat)
    requires v < |s.born|
  {
    forall r :: r in sources ==> s.born[v] <= r.at
  }

  /**
   No bump up to the one to version `v` came after a retrieval behind it, or the last of them came
   without the corpus having changed since.
   */
  predicate NotOvertaken(s: System, sources: set<Retrieval>, v: nat)
    requires v < |s.born|
  {
    forall r :: r in sources ==> v <= r.seen || s.born[v] == r.at
  }

  lemma FreshExactlyWhen(a: Alphabet, s: System, sources: set<Retrieval>, v: nat)
    requires Inv(a, s) && sources <= s.retrievals && v < |s.born|
    ensures IsFresh(s, sources, v) <==> NotOvertaken(s, sources, v)
  {
    forall r | r in sources ensures s.born[v] <= r.at <==> v <= r.seen || s.born[v] == r.at {
      assert Dated(s, r);
    }
  }

  /**
   A bump does not orphan everything computed before it. In every interleaving, with any commands
   failing, what a turn stores is no older than the version it read for its key exactly when for every
   retrieval behind it, by itself or by an earlier turn whose chunks its agent was given, no bump came
   between that retrieval and this read, or the corpus did not change between the retrieval and the
   last such bump.
   */
  lemma StoreFreshExactlyWhen(a: Alphabet, events: seq<Event>, w: Write)
    requires w in Run(a, events).writes
    ensures var s := Run(a, events);
            && w.read.Version() < |s.born| && w.sources <= s.retrievals
            && (IsFresh(s, w.sources, w.read.Version()) <==> NotOvertaken(s, w.sources, w.read.Version()))
  {
    RunKeeps(a, events);
    assert WriteInv(Run(a, events), w);
    FreshExactlyWhen(a, Run(a, events), w.sources, w.read.Version());
  }

  /** The write behind a hit; chunks are what a retrieval for that request gave. */
  ghost predicate Answers(a: Alphabet, s: System, w: Write, t: Turn)
    requires t.Hit?
  {
    && w in s.writes && w.payload != "" && w.sources <= s.retrievals && Own(w.ask, w.payload, w.sources)
    && SameAsk(a, w.ask, t.ask) && w.read.Version() == t.read.Version()
  }

  /**
   In every interleaving, with any commands failing, a hit is a payload stored earlier for the same
   request (normalized query, scope, limit) under the version the lookup read, and is no older than
   the version at the time of that read under the same condition as a store. Two reads that succeed
   read the same version; one that fails can be served what was stored under the first version, or
   after a read that failed too.
   */
  lemma HitsAreEarlierStores(a: Alphabet, events: seq<Event>, p: nat) returns (w: Write)
    requires Sound(a)
    requires p in Run(a, events).turns && Run(a, events).turns[p].Hit?
    ensures var s := Run(a, events);
            var t := s.turns[p];
            && w == t.write && Answers(a, s, w, t) && t.read.now < |s.born|
            && (IsFresh(s, w.sources, t.read.now) <==> NotOvertaken(s, w.sources, t.read.now))
            && (if t.read.ok && w.read.ok then t.read.now == w.read.now
                else (t.read.ok ==> t.read.now == 0) && (w.read.ok ==> w.read.now == 0))
  {
    RunKeeps(a, events);
    w := HitAnswers(a, Run(a, events), p);
    FreshExactlyWhen(a, Run(a, events), w.sources, Run(a, events).turns[p].read.now);
  }

  lemma HitAnswers(a: Alphabet, s: System, p: nat) returns (w: Write)
    requires Sound(a) && Inv(a, s) && p in s.turns && s.turns[p].Hit?
    ensures w == s.turns[p].write && Answers(a, s, w, s.turns[p]) && s.turns[p].read.now < |s.born|
  {
    var t := s.turns[p];
    assert TurnInv(a, s, t);
    w := t.write;
    assert WriteInv(s, w);
    SameKeyExactlyWhen(a, w.ask, w.read.Version(), t.ask, t.read.Version());
  }

  // ---- Interleavings ----

  lemma {:induction false} RunJoin(a: Alphabet, s: System, es: seq<Event>, fs: seq<Event>)
    requires Initialized(s)
    ensures RunFrom(a, s, es + fs) == RunFrom(a, RunFrom(a, s, es), fs)
    decreases |es|
  {
    if es == [] {
      assert [] + fs == fs;
    } else {
      assert (es + fs)[1..] == es[1..] + fs;
      RunJoin(a, Step(a, s, es[0]), es[1..], fs);
    }
  }

  lemma RunJoinTwice(a: Alphabet, s: System, es: seq<Event>, fs: seq<Event>, gs: seq<Event>)
    requires Initialized(s)
    ensures RunFrom(a, s, es + fs + gs) == RunFrom(a, RunFrom(a, RunFrom(a, s, es), fs), gs)
  {
    RunJoin(a, s, es, fs);
    RunJoin(a, s, es + fs, gs);
  }

  lemma OneStep(a: Alphabet, s: System, e: Event)
    requires Initialized(s)
    ensures RunFrom(a, s, [e]) == Step(a, s, e)
  {
    assert [e][1..] == [];
  }

  lemma TwoSteps(a: Alphabet, s: System, e: Event, f: Event)
    requires Initialized(s)
    ensures RunFrom(a, s, [e, f]) == Step(a, Step(a, s, e), f)
  {
    assert [e, f][1..] == [f];
    OneStep(a, Step(a, s, e), f);
  }

  lemma ThreeSteps(a: Alphabet, s: System, e: Event, f: Event, g: Event)
    requires Initialized(s)
    ensures RunFrom(a, s, [e, f, g]) == Step(a, Step(a, Step(a, s, e), f), g)
  {
    assert [e, f, g][1..] == [f, g];
    TwoSteps(a, Step(a, s, e), f, g);
  }

  function Asks(p: nat, ask: Ask, ok: bool): seq<Event> { [Begin(p, ask), ReadVersion(p, ok), LookUp(p, true)] }

  function Searches(p: nat, q: nat, ask: Ask): seq<Event> {
    [Search(p, q, ask), ReadVersion(q, true), LookUp(q, true)]
  }

  function Stores(p: nat): seq<Event> { [ReadVersionAgain(p, true), Store(p, true)] }

  lemma Asking(a: Alphabet, s: System, p: nat, ask: Ask, ok: bool)
    requires Initialized(s) && p !in s.turns
    ensures RunFrom(a, s, Asks(p, ask, ok)) ==
              s.(turns := s.turns[p := LooksUp(a, s.entries, ask, Read(ok, Current(s)))])
  {
    ThreeSteps(a, s, Begin(p, ask), ReadVersion(p, ok), LookUp(p, true));
    LookingUp(a, s, p, ask, ok);
  }

  lemma LookingUp(a: Alphabet, s: System, p: nat, ask: Ask, ok: bool)
    requires Initialized(s)
    ensures Step(a, Step(a, s.(turns := s.turns[p := Asked(ask)]), ReadVersion(p, ok)), LookUp(p, true)) ==
              s.(turns := s.turns[p := LooksUp(a, s.entries, ask, Read(ok, Current(s)))])
  {
    ReadsVersion(a, s, p, ask, ok);
    LooksAtKey(a, s, p, ask, Read(ok, Current(s)));
  }

  lemma ReadsVersion(a: Alphabet, s: System, p: nat, ask: Ask, ok: bool)
    requires Initialized(s)
    ensures Step(a, s.(turns := s.turns[p := Asked(ask)]), ReadVersion(p, ok)) ==
              s.(turns := s.turns[p := Looking(ask, Read(ok, Current(s)))])
  {
    var t := Looking(ask, Read(ok, Current(s)));
    assert s.turns[p := Asked(ask)][p := t] == s.turns[p := t];
  }

  lemma LooksAtKey(a: Alphabet, s: System, p: nat, ask: Ask, read: Read)
    requires Initialized(s)
    ensures Step(a, s.(turns := s.turns[p := Looking(ask, read)]), LookUp(p, true)) ==
              s.(turns := s.turns[p := LooksUp(a, s.entries, ask, read)])
  {
    var t := LooksUp(a, s.entries, ask, read);
    assert s.turns[p := Looking(ask, read)][p := t] == s.turns[p := t];
  }

  lemma Searching(a: Alphabet, s: System, p: nat, q: nat, ask: Ask)
    requires Initialized(s) && p in s.turns && s.turns[p].Missed? && s.turns[p].ask.Answer?
    requires q !in s.turns && ask.Chunks?
    ensures RunFrom(a, s, Searches(p, q, ask)) ==
              s.(turns := s.turns[q := LooksUp(a, s.entries, ask, Read(true, Current(s)))], owner := s.owner[q := p])
  {
    ThreeSteps(a, s, Search(p, q, ask), ReadVersion(q, true), LookUp(q, true));
    LookingUp(a, s.(owner := s.owner[q := p]), q, ask, true);
  }

  lemma StoringIt(a: Alphabet, s: System, p: nat, ask: Ask, payload: Payload, sources: set<Retrieval>)
    requires Initialized(s) && p in s.turns && s.turns[p] == Ready(ask, payload, sources)
    requires payload != "" && Cacheable(ask)
    ensures var w := Write(ask, payload, sources, Read(true, Current(s)));
            RunFrom(a, s, Stores(p)) ==
              s.(turns := s.turns[p := Done(ask, sources)], entries := s.entries[Key(a, ask, Current(s)) := w],
                 writes := s.writes + {w})
  {
    TwoSteps(a, s, ReadVersionAgain(p, true), Store(p, true));
    var w := Write(ask, payload, sources, Read(true, Current(s)));
    var storing := s.(turns := s.turns[p := Storing(w)]);
    assert Step(a, s, ReadVersionAgain(p, true)) == storing;
    assert Step(a, storing, Store(p, true)).turns == s.turns[p := Done(ask, sources)];
  }

  /** A turn retrieves, is overtaken by an ingest, then stores. */
  function Overtaken(ask: Ask, payload: Payload): seq<Event> {
    Asks(0, ask, true) + [Retrieve(0, payload), Change, Bump] + Stores(0)
  }

  lemma OvertakenStores(a: Alphabet, ask: Ask, payload: Payload)
    requires ask.Chunks? && payload != ""
    ensures var r := Retrieval(ask, payload, 0, 0);
            var w := Write(ask, payload, {r}, Read(true, 1));
            Run(a, Overtaken(ask, payload)) ==
              System(1, [0, 1], map[Key(a, ask, 1) := w], map[0 := Done(ask, {r})], map[], {r}, {w})
  {
    var r := Retrieval(ask, payload, 0, 0);
    var asked := System(0, [0], map[], map[0 := Missed(ask, {})], map[], {}, {});
    var ready := System(1, [0, 1], map[], map[0 := Ready(ask, payload, {r})], map[], {r}, {});
    Asking(a, START, 0, ask, true);
    RunJoin(a, START, Asks(0, ask, true), [Retrieve(0, payload), Change, Bump]);
    ThreeSteps(a, asked, Retrieve(0, payload), Change, Bump);
    RetrievedAndBumped(a, ask, payload);
    RunJoin(a, START, Asks(0, ask, true) + [Retrieve(0, payload), Change, Bump], Stores(0));
    StoringIt(a, ready, 0, ask, payload, {r});
  }

  lemma RetrievedAndBumped(a: Alphabet, ask: Ask, payload: Payload)
    requires ask.Chunks?
    ensures var s := System(0, [0], map[], map[0 := Missed(ask, {})], map[], {}, {});
            var r := Retrieval(ask, payload, 0, 0);
            Step(a, Step(a, Step(a, s, Retrieve(0, payload)), Change), Bump) ==
              System(1, [0, 1], map[], map[0 := Ready(ask, payload, {r})], map[], {r}, {})
  {
    var s := System(0, [0], map[], map[0 := Missed(ask, {})], map[], {}, {});
    var r := Retrieval(ask, payload, 0, 0);
    assert Step(a, s, Retrieve(0, payload)) ==
           System(0, [0], map[], map[0 := Ready(ask, payload, {r})], map[], {r}, {});
  }

  /** Such a store is not fresh, and the next turn to ask gets it. */
  lemma OvertakenStoreSurvivesBump(a: Alphabet, ask: Ask, payload: Payload)
    requires ask.Chunks? && payload != ""
    ensures var s := Run(a, Overtaken(ask, payload) + Asks(1, ask, true));
            && s.corpus == 1 && s.born == [0, 1] && 1 in s.turns && s.turns[1].Hit?
            && s.turns[1].write.payload == payload && s.turns[1].read == Read(true, 1)
            && !IsFresh(s, s.turns[1].write.sources, 1)
  {
    OvertakenStores(a, ask, payload);
    RunJoin(a, START, Overtaken(ask, payload), Asks(1, ask, true));
    Asking(a, Run(a, Overtaken(ask, payload)), 1, ask, true);
    assert Retrieval(ask, payload, 0, 0) in Write(ask, payload, {Retrieval(ask, payload, 0, 0)}, Read(true, 1)).sources;
  }

  /** An agent's one search, its conclusion and the store of it. */
  function AnswersOnce(ask: Ask, search: Ask, text: Payload): seq<Event> {
    Asks(1, ask, true) + Searches(1, 2, search) + [Take(1, 2), Conclude(1, text)] + Stores(1)
  }

  /**
   An answer begun, retrieved for and stored after a bump, with no other near it, can be older than
   that bump: its agent's search is served what an overtaken turn stored.
   */
  lemma AnswerOutlivesBump(a: Alphabet, search: Ask, chunks: Payload, ask: Ask, text: Payload)
    requires Sound(a) && search.Chunks? && chunks != "" && ask.Answer? && Cacheable(ask) && text != ""
    ensures var s := Run(a, Overtaken(search, chunks) + AnswersOnce(ask, search, text));
            var w := Write(ask, text, {Retrieval(search, chunks, 0, 0)}, Read(true, 1));
            s.born == [0, 1] && w in s.writes && !IsFresh(s, w.sources, 1)
  {
    var s := Run(a, Overtaken(search, chunks));
    OvertakenStores(a, search, chunks);
    RunJoin(a, START, Overtaken(search, chunks), AnswersOnce(ask, search, text));
    SameKeyExactlyWhen(a, ask, 1, search, 1);
    AnswersFrom(a, s, search, ask, text);
    assert Retrieval(search, chunks, 0, 0) in {Retrieval(search, chunks, 0, 0)};
  }

  /** The agent's search hits. */
  lemma SearchHits(a: Alphabet, s: System, search: Ask, ask: Ask, es: seq<Event>) returns (hit: System)
    requires es == Asks(1, ask, true) + Searches(1, 2, search)
    requires Initialized(s) && 1 !in s.turns && 2 !in s.turns && search.Chunks? && ask.Answer?
    requires Serves(a, s.entries, search, Read(true, Current(s)))
    requires !Serves(a, s.entries, ask, Read(true, Current(s)))
    ensures RunFrom(a, s, es) == hit
    ensures Initialized(hit) && hit.born == s.born && 1 in hit.turns && hit.turns[1] == Missed(ask, {})
    ensures HasResult(hit, 1, 2) && Behind(hit.turns[2]) == s.entries[Key(a, search, Current(s))].sources
  {
    Asking(a, s, 1, ask, true);
    var missed := s.(turns := s.turns[1 := Missed(ask, {})]);
    RunJoin(a, s, Asks(1, ask, true), Searches(1, 2, search));
    Searching(a, missed, 1, 2, search);
    hit := RunFrom(a, s, es);
  }

  /** The answer is stored with what was behind the chunks in the cache. */
  lemma AnswersFrom(a: Alphabet, s: System, search: Ask, ask: Ask, text: Payload)
    requires Initialized(s) && 1 !in s.turns && 2 !in s.turns
    requires search.Chunks? && ask.Answer? && Cacheable(ask) && text != ""
    requires Serves(a, s.entries, search, Read(true, Current(s)))
    requires !Serves(a, s.entries, ask, Read(true, Current(s)))
    ensures var s' := RunFrom(a, s, AnswersOnce(ask, search, text));
            var found := s.entries[Key(a, search, Current(s))];
            s'.born == s.born && Write(ask, text, found.sources, Read(true, Current(s))) in s'.writes
  {
    var es := Asks(1, ask, true) + Searches(1, 2, search);
    var hit := SearchHits(a, s, search, ask, es);
    ConcludesAndStores(a, s, es, hit, ask, text);
  }

  lemma ConcludesAndStores(a: Alphabet, s: System, es: seq<Event>, hit: System, ask: Ask, text: Payload)
    requires Initialized(s) && hit == RunFrom(a, s, es)
    requires 1 in hit.turns && hit.turns[1] == Missed(ask, {}) && ask.Answer?
    requires HasResult(hit, 1, 2) && text != "" && Cacheable(ask)
    ensures var s' := RunFrom(a, s, es + [Take(1, 2), Conclude(1, text)] + Stores(1));
            && s'.born == hit.born
            && Write(ask, text, Behind(hit.turns[2]), Read(true, Current(hit))) in s'.writes
  {
    var sources := Behind(hit.turns[2]);
    RunJoinTwice(a, s, es, [Take(1, 2), Conclude(1, text)], Stores(1));
    Concluding(a, hit, ask, text);
    StoringIt(a, hit.(turns := hit.turns[1 := Ready(ask, text, sources)]), 1, ask, text, sources);
  }

  lemma Concluding(a: Alphabet, s: System, ask: Ask, text: Payload)
    requires Initialized(s) && 1 in s.turns && s.turns[1] == Missed(ask, {}) && ask.Answer?
    requires HasResult(s, 1, 2)
    ensures RunFrom(a, s, [Take(1, 2), Conclude(1, text)]) ==
              s.(turns := s.turns[1 := Ready(ask, text, Behind(s.turns[2]))])
  {
    var sources := Behind(s.turns[2]);
    TwoSteps(a, s, Take(1, 2), Conclude(1, text));
    assert {} + sources == sources;
    var taken := s.(turns := s.turns[1 := Missed(ask, sources)]);
    assert Step(a, s, Take(1, 2)) == taken;
    assert Step(a, taken, Conclude(1, text)).turns == s.turns[1 := Ready(ask, text, sources)];
  }

  /** A turn retrieves and stores under the first version; then the corpus changes and is bumped. */
  function Undisturbed(ask: Ask, payload: Payload): seq<Event> {
    Asks(0, ask, true) + [Retrieve(0, payload)] + Stores(0) + [Change, Bump]
  }

  lemma UndisturbedReady(a: Alphabet, ask: Ask, payload: Payload)
    requires ask.Chunks?
    ensures var r := Retrieval(ask, payload, 0, 0);
            Run(a, Asks(0, ask, true) + [Retrieve(0, payload)]) ==
              System(0, [0], map[], map[0 := Ready(ask, payload, {r})], map[], {r}, {})
  {
    Asking(a, START, 0, ask, true);
    RunJoin(a, START, Asks(0, ask, true), [Retrieve(0, payload)]);
    OneStep(a, System(0, [0], map[], map[0 := Missed(ask, {})], map[], {}, {}), Retrieve(0, payload));
  }

  lemma UndisturbedSaved(a: Alphabet, ask: Ask, payload: Payload)
    requires ask.Chunks? && payload != ""
    ensures var r := Retrieval(ask, payload, 0, 0);
            var w := Write(ask, payload, {r}, Read(true, 0));
            Run(a, Asks(0, ask, true) + [Retrieve(0, payload)] + Stores(0)) ==
              System(0, [0], map[Key(a, ask, 0) := w], map[0 := Done(ask, {r})], map[], {r}, {w})
  {
    var r := Retrieval(ask, payload, 0, 0);
    var ready := System(0, [0], map[], map[0 := Ready(ask, payload, {r})], map[], {r}, {});
    UndisturbedReady(a, ask, payload);
    RunJoin(a, START, Asks(0, ask, true) + [Retrieve(0, payload)], Stores(0));
    StoringIt(a, ready, 0, ask, payload, {r});
    assert ready.turns[0 := Done(ask, {r})] == map[0 := Done(ask, {r})];
  }

  lemma ChangeAndBump(a: Alphabet, s: System)
    requires Initialized(s)
    ensures RunFrom(a, s, [Change, Bump]) == s.(corpus := s.corpus + 1, born := s.born + [s.corpus + 1])
  {
    TwoSteps(a, s, Change, Bump);
  }

  lemma UndisturbedStores(a: Alphabet, ask: Ask, payload: Payload)
    requires ask.Chunks? && payload != ""
    ensures var r := Retrieval(ask, payload, 0, 0);
            var w := Write(ask, payload, {r}, Read(true, 0));
            Run(a, Undisturbed(ask, payload)) ==
              System(1, [0, 1], map[Key(a, ask, 0) := w], map[0 := Done(ask, {r})], map[], {r}, {w})
  {
    var es := Asks(0, ask, true) + [Retrieve(0, payload)] + Stores(0);
    UndisturbedSaved(a, ask, payload);
    RunJoin(a, START, es, [Change, Bump]);
    ChangeAndBump(a, Run(a, es));
  }

  /** A turn whose version read fails is served what was stored before every bump. */
  lemma FailedReadIsServed(a: Alphabet, ask: Ask, payload: Payload)
    requires ask.Chunks? && payload != ""
    ensures var s := Run(a, Undisturbed(ask, payload) + Asks(1, ask, false));
            && s.born == [0, 1] && 1 in s.turns && s.turns[1].Hit? && s.turns[1].write.payload == payload
            && s.turns[1].read == Read(false, 1) && !IsFresh(s, s.turns[1].write.sources, 1)
  {
    UndisturbedStores(a, ask, payload);
    RunJoin(a, START, Undisturbed(ask, payload), Asks(1, ask, false));
    Asking(a, Run(a, Undisturbed(ask, payload)), 1, ask, false);
    assert Retrieval(ask, payload, 0, 0) in {Retrieval(ask, payload, 0, 0)};
  }
}

/** What the three handlers answer, remember and cache, in terms of what the agent, its searches and the judge say. */
module AgentReplies {
  import opened Wrappers
  import opened Text
  import opened CacheKey
  import opened Citations
  import opened AnswerGate
  import opened AgentTurns
  import VersionedCache

  // ---- What becomes of an answer after a search ----

  /** Some chunk reaches the threshold; with none at hand, a threshold that is not positive is reached. */
  ghost predicate IsConfident(p: Policy, chunks: seq<Retrieved>) {
    (exists c :: c in chunks && c.similarity.GetOr(0.0) >= p.threshold) || (chunks == [] && p.threshold <= 0.0)
  }

  lemma ConfidentMeaning(p: Policy, chunks: seq<Retrieved>)
    ensures IsLowConfidence(p, chunks) <==> !IsConfident(p, chunks)
  {
    MaxCosineReached(chunks);
  }

  /** It cites a number out of range, or should cite and does not. */
  ghost predicate FailsCitations(a: Alphabet, answer: string, n: nat) {
    || !CitesWithin(a, answer, n)
    || (n > 0 && !Cites(a, answer) && !LooksLikeAbstention(a, answer) && |Words(a, answer)| >= 12)
  }

  /** It cites, or reads like an answer with nothing to cite. */
  ghost predicate IsAnswer(a: Alphabet, answer: string, n: nat) {
    Cites(a, answer) || (n == 0 && !LooksLikeAbstention(a, answer) && |Words(a, answer)| >= 12)
  }

  /** The text shown for the agent's answer: judged only if it cites. */
  ghost predicate Becomes(p: Policy, a: Alphabet, answer: string, n: nat, j: Judging, text: string) {
    if FailsCitations(a, answer, n) then text == ABSTAIN_MESSAGE
    else if !(Cites(a, answer) && IsRejected(p, a, answer, n, j)) then text == answer
    else text == if Salvages(p, a, n, j) then Strip(j.judge.value.corrected) else ABSTAIN_MESSAGE
  }

  /** And whether it may be cached: not if the judge was asked and failed, or rejected it for good. */
  ghost predicate MayBeCached(p: Policy, a: Alphabet, answer: string, n: nat, j: Judging) {
    CitesWithin(a, answer, n) && IsAnswer(a, answer, n) && Approves(p, a, answer, n, j)
  }

  lemma CheckedExactly(p: Policy, a: Alphabet, run: AgentRun, j: Judging)
    ensures Becomes(p, a, run.response, |run.chunks|, j, CheckSources(p, a, run, j).0)
    ensures CheckSources(p, a, run, j).1 <==> MayBeCached(p, a, run.response, |run.chunks|, j)
  {
    ValidExactlyWhen(a, run.response, |run.chunks|);
    GroundedExactlyWhen(p, a, run.response, |run.chunks|, j);
  }

  // ---- What the agent leaves behind ----

  ghost predicate IsBlockedText(check: InputCheck, text: string)
    requires check.Blocked?
  {
    if check.reply.Some? && check.reply.value != "" then text == check.reply.value else text == BLOCKED
  }

  /** The agent's own words: guarded, or an apology if it raised. */
  function Said(r: Replies): string {
    if r.outcome.reply.Some? then r.guard(r.outcome.reply.value) else AGENT_ERROR
  }

  /** What the chat handler shows when nothing ends the turn early. */
  ghost predicate IsChatText(p: Policy, a: Alphabet, r: Replies, text: string) {
    if r.check.Blocked? then
      if p.threshold > 0.0 then text == ESCALATION else IsBlockedText(r.check, text)
    else if !IsConfident(p, r.outcome.chunks) then
      text == ESCALATION
    else if !r.outcome.tool.HybridSearch? then
      text == Said(r)
    else
      Becomes(p, a, Said(r), |r.outcome.chunks|, r.judging, text)
  }

  /** The entry that serves a question, if any. */
  ghost predicate Serves(a: Alphabet, s: Answers, query: string, user: Option<string>, text: string) {
    var key := Key(a, Answer(query, user), s.version);
    s.up && Strip(query) != "" && key in s.entries && s.entries[key] == text != ""
  }

  /** What comes before the agent in the HTTP handlers; None is the internal error. */
  ghost predicate EndsEarly(a: Alphabet, s: Answers, req: Request, r: Replies, reply: Option<string>) {
    if r.raisesEarly then reply == None
    else if !req.admin && exists text :: Serves(a, s, r.canonical, req.user, text) then
      reply.Some? && Serves(a, s, r.canonical, req.user, reply.value)
    else if r.raisesAtScope then reply == None
    else r.outOfScope && reply == Some(r.decline)
  }

  /** The question is answered by what ends the turn early. */
  ghost predicate IsOver(a: Alphabet, s: Answers, req: Request, r: Replies) {
    exists early :: EndsEarly(a, s, req, r, early)
  }

  lemma FoundMeaning(a: Alphabet, s: Answers, req: Request, r: Replies)
    ensures var found := Found(a, s, Question(req, r));
            && (found.Some? <==> exists text :: Serves(a, s, r.canonical, req.user, text))
            && (found.Some? ==> Serves(a, s, r.canonical, req.user, found.value))
  {
    var found := Found(a, s, Question(req, r));
    if found.Some? {
      assert Serves(a, s, r.canonical, req.user, found.value);
    }
  }

  lemma EarlyExactly(a: Alphabet, s: Answers, req: Request, r: Replies)
    ensures PassesScope(a, s, req, r) <==> !IsOver(a, s, req, r)
    ensures !PassesScope(a, s, req, r) ==> EndsEarly(a, s, req, r, EarlyReply(a, s, req, r))
  {
    FoundMeaning(a, s, req, r);
    if !PassesScope(a, s, req, r) {
      assert EndsEarly(a, s, req, r, EarlyReply(a, s, req, r));
    }
  }

  lemma ChatGate(p: Policy, a: Alphabet, r: Replies)
    ensures IsChatText(p, a, r, Gate(p, a, Execute(r), r.judging).0)
  {
    ConfidentMeaning(p, Execute(r).chunks);
    CheckedExactly(p, a, Execute(r), r.judging);
  }

  /**
   The chat handler answers what ends the turn early, if anything does; nothing but an error if it raises
   later; and else the escalation text unless retrieval is confident, the agent's words if they are not
   from the document search, and what the citations and the judge make of them if they are.
   */
  lemma ChatReplyExactly(p: Policy, a: Alphabet, s: Answers, req: Request, r: Replies)
    ensures var reply := ChatReply(p, a, s, req, r);
            if IsOver(a, s, req, r) then EndsEarly(a, s, req, r, reply)
            else if r.raisesLate then reply == None
            else reply.Some? && IsChatText(p, a, r, reply.value)
  {
    EarlyExactly(a, s, req, r);
    ChatGate(p, a, r);
  }

  /** The reply is stored for the question, if it is to be cached and the cache takes it; nothing else changes. */
  ghost predicate StoresReply(
    a: Alphabet, s: Answers, req: Request, r: Replies, cached: bool, reply: Option<string>, after: map<string, string>)
  {
    after == if cached && reply.Some? && reply.value != "" && s.up && Strip(r.canonical) != ""
             then s.entries[Key(a, Answer(r.canonical, req.user), s.version) := reply.value]
             else s.entries
  }

  /** The turn searched with confidence, and its answer may be cached. */
  ghost predicate ChatCaches(p: Policy, a: Alphabet, r: Replies) {
    && r.check.Allowed? && IsConfident(p, r.outcome.chunks) && r.outcome.tool.HybridSearch?
    && MayBeCached(p, a, Said(r), |r.outcome.chunks|, r.judging)
  }

  /** What the chat handler caches is its reply, never for an administrator. */
  lemma ChatEntriesExactly(p: Policy, a: Alphabet, s: Answers, req: Request, r: Replies)
    ensures StoresReply(a, s, req, r, !IsOver(a, s, req, r) && !r.raisesLate && !req.admin && ChatCaches(p, a, r),
              ChatReply(p, a, s, req, r), ChatEntries(p, a, s, req, r))
  {
    EarlyExactly(a, s, req, r);
    ChatCachesMeaning(p, a, r);
  }

  lemma GateCaches(p: Policy, a: Alphabet, run: AgentRun, j: Judging)
    ensures Gate(p, a, run, j).1 <==>
              && IsConfident(p, run.chunks) && run.tool.HybridSearch?
              && MayBeCached(p, a, run.response, |run.chunks|, j)
  {
    ConfidentMeaning(p, run.chunks);
    CheckedExactly(p, a, run, j);
  }

  lemma ChatCachesMeaning(p: Policy, a: Alphabet, r: Replies)
    ensures Gate(p, a, Execute(r), r.judging).1 <==> ChatCaches(p, a, r)
  {
    GateCaches(p, a, Execute(r), r.judging);
    if r.check.Allowed? {
      assert Execute(r) == AgentRun(Said(r), r.outcome.chunks, r.outcome.tool);
    }
  }

  /**
   The session is told a cached answer, or the agent's words before the gate, even if the turn then
   raises; a question that ends early otherwise is forgotten.
   */
  lemma ChatRemembersExactly(a: Alphabet, s: Answers, req: Request, r: Replies)
    ensures var said := ChatRemembers(a, s, req, r);
            if IsOver(a, s, req, r) then RemembersHit(a, s, req, r, said)
            else said.Some? && if r.check.Blocked? then IsBlockedText(r.check, said.value) else said.value == Said(r)
  {
    EarlyExactly(a, s, req, r);
    EarlyMemory(a, s, req, r);
  }

  ghost predicate RemembersHit(a: Alphabet, s: Answers, req: Request, r: Replies, said: Option<string>) {
    if !r.raisesEarly && !req.admin && exists text :: Serves(a, s, r.canonical, req.user, text)
    then said.Some? && Serves(a, s, r.canonical, req.user, said.value)
    else said == None
  }

  lemma EarlyMemory(a: Alphabet, s: Answers, req: Request, r: Replies)
    ensures RemembersHit(a, s, req, r, EarlyRemembers(a, s, req, r))
  {
    FoundMeaning(a, s, req, r);
  }

  // ---- The streaming handler ----

  /** Judged by a search of its own; only another tool's answer escapes the checks. */
  ghost predicate IsStreamText(p: Policy, a: Alphabet, r: Replies, text: string)
    requires r.outcome.reply.Some?
  {
    var said := r.guard(r.outcome.reply.value);
    if r.outcome.tool.OtherTool? then text == said
    else Becomes(p, a, said, |r.outcome.chunks|, r.judging, text)
  }

  lemma StreamReplyExactly(p: Policy, a: Alphabet, s: Answers, req: Request, r: Replies)
    ensures var reply := StreamReply(p, a, s, req, r);
            if IsOver(a, s, req, r) then EndsEarly(a, s, req, r, reply)
            else if !IsConfident(p, r.precheck) then reply == if r.raisesLate then None else Some(ESCALATION)
            else if r.check.Blocked? then reply.Some? && IsBlockedText(r.check, reply.value)
            else if r.outcome.reply.None? || r.raisesLate then reply == None
            else reply.Some? && IsStreamText(p, a, r, reply.value)
  {
    EarlyExactly(a, s, req, r);
    ConfidentMeaning(p, r.precheck);
    if r.outcome.reply.Some? {
      CheckedExactly(p, a, Streamed(r), r.judging);
    }
  }

  ghost predicate StreamCaches(p: Policy, a: Alphabet, r: Replies) {
    && IsConfident(p, r.precheck) && r.check.Allowed? && r.outcome.reply.Some? && !r.raisesLate
    && !r.outcome.tool.OtherTool?
    && MayBeCached(p, a, r.guard(r.outcome.reply.value), |r.outcome.chunks|, r.judging)
  }

  lemma StreamEntriesExactly(p: Policy, a: Alphabet, s: Answers, req: Request, r: Replies)
    ensures StoresReply(a, s, req, r, !IsOver(a, s, req, r) && !req.admin && StreamCaches(p, a, r),
              StreamReply(p, a, s, req, r), StreamEntries(p, a, s, req, r))
  {
    EarlyExactly(a, s, req, r);
    ConfidentMeaning(p, r.precheck);
    if r.outcome.reply.Some? {
      CheckedExactly(p, a, Streamed(r), r.judging);
    }
  }

  /** The session is told what is shown, except for the escalation text. */
  lemma StreamRemembersExactly(p: Policy, a: Alphabet, s: Answers, req: Request, r: Replies)
    ensures var said := StreamRemembers(p, a, s, req, r);
            if IsOver(a, s, req, r) then RemembersHit(a, s, req, r, said)
            else said == if IsConfident(p, r.precheck) then StreamReply(p, a, s, req, r) else None
  {
    EarlyExactly(a, s, req, r);
    EarlyMemory(a, s, req, r);
    ConfidentMeaning(p, r.precheck);
  }

  // ---- The turn outside the HTTP layer ----

  /** The text before the output guardrail. */
  ghost predicate IsTurnText(p: Policy, a: Alphabet, r: Replies, text: string)
    requires r.outcome.reply.Some?
  {
    if !r.outcome.tool.HybridSearch? then text == r.outcome.reply.value
    else if !IsConfident(p, r.outcome.chunks) then text == ABSTAIN_MESSAGE
    else Becomes(p, a, r.outcome.reply.value, |r.outcome.chunks|, r.judging, text)
  }

  lemma TurnGateExactly(p: Policy, a: Alphabet, r: Replies)
    requires r.outcome.reply.Some?
    ensures IsTurnText(p, a, r, TurnGate(p, a, Answered(r), r.judging).0)
    ensures TurnGate(p, a, Answered(r), r.judging).1 <==>
              && r.outcome.tool.HybridSearch? && IsConfident(p, r.outcome.chunks)
              && MayBeCached(p, a, r.outcome.reply.value, |r.outcome.chunks|, r.judging)
  {
    ConfidentMeaning(p, r.outcome.chunks);
    CheckedExactly(p, a, Answered(r), r.judging);
  }

  lemma TurnReplyExactly(p: Policy, a: Alphabet, s: Answers, req: Request, r: Replies)
    ensures var reply := TurnReply(p, a, s, req, r);
            if r.check.Blocked? then IsBlockedText(r.check, reply)
            else if r.raisesEarly then reply == TURN_ERROR
            else if exists text :: Serves(a, s, r.canonical, req.user, text) then
              Serves(a, s, r.canonical, req.user, reply)
            else if r.outcome.reply.None? || r.raisesLate then reply == TURN_ERROR
            else exists text :: IsTurnText(p, a, r, text) && reply == r.guard(text)
  {
    FoundMeaning(a, s, req, r);
    if r.outcome.reply.Some? {
      TurnGateExactly(p, a, r);
    }
  }

  ghost predicate TurnCaches(p: Policy, a: Alphabet, s: Answers, req: Request, r: Replies) {
    && r.check.Allowed? && !r.raisesEarly && !(exists text :: Serves(a, s, r.canonical, req.user, text))
    && r.outcome.reply.Some? && !r.raisesLate && r.outcome.tool.HybridSearch? && IsConfident(p, r.outcome.chunks)
    && MayBeCached(p, a, r.outcome.reply.value, |r.outcome.chunks|, r.judging)
  }

  lemma TurnEntriesExactly(p: Policy, a: Alphabet, s: Answers, req: Request, r: Replies)
    ensures StoresReply(a, s, req, r, TurnCaches(p, a, s, req, r), Some(TurnReply(p, a, s, req, r)),
              TurnEntries(p, a, s, req, r))
  {
    FoundMeaning(a, s, req, r);
    if r.outcome.reply.Some? {
      TurnGateExactly(p, a, r);
    }
  }

  // ---- Runs ----

  /** The turn's reply goes into the cache under this key. */
  ghost predicate Puts(p: Policy, a: Alphabet, s: Answers, e: Event, key: string, answer: string) {
    match e
    case Chatted(req, r) =>
      && !IsOver(a, s, req, r) && !r.raisesLate && !req.admin && ChatCaches(p, a, r)
      && ChatReply(p, a, s, req, r) == Some(answer) && Takes(a, s, req, r, key, answer)
    case Turned(req, r) =>
      TurnCaches(p, a, s, req, r) && TurnReply(p, a, s, req, r) == answer && Takes(a, s, req, r, key, answer)
    case Streaming(req, r) =>
      && !IsOver(a, s, req, r) && !req.admin && StreamCaches(p, a, r)
      && StreamReply(p, a, s, req, r) == Some(answer) && Takes(a, s, req, r, key, answer)
    case _ => false
  }

  predicate Takes(a: Alphabet, s: Answers, req: Request, r: Replies, key: string, answer: string) {
    answer != "" && s.up && Strip(r.canonical) != "" && key == Key(a, Answer(r.canonical, req.user), s.version)
  }

  /** The event replaces the entry, or it expires. */
  ghost predicate Ousts(p: Policy, a: Alphabet, s: Answers, e: Event, key: string) {
    e == Expired(key) || exists answer :: Puts(p, a, s, e, key, answer)
  }

  predicate Has(s: Answers, key: string, answer: string) { key in s.entries && s.entries[key] == answer }

  lemma ChatStep(p: Policy, a: Alphabet, s: Answers, e: Event, key: string, answer: string)
    requires e.Chatted?
    ensures Has(Step(p, a, s, e), key, answer) <==>
              Puts(p, a, s, e, key, answer) || (Has(s, key, answer) && !Ousts(p, a, s, e, key))
  {
    ChatEntriesExactly(p, a, s, e.req, e.r);
    EarlyExactly(a, s, e.req, e.r);
    var reply := ChatReply(p, a, s, e.req, e.r);
    if reply.Some? {
      assert Puts(p, a, s, e, key, reply.value) <==> exists text :: Puts(p, a, s, e, key, text);
    }
  }

  lemma TurnStep(p: Policy, a: Alphabet, s: Answers, e: Event, key: string, answer: string)
    requires e.Turned?
    ensures Has(Step(p, a, s, e), key, answer) <==>
              Puts(p, a, s, e, key, answer) || (Has(s, key, answer) && !Ousts(p, a, s, e, key))
  {
    TurnEntriesExactly(p, a, s, e.req, e.r);
    var reply := TurnReply(p, a, s, e.req, e.r);
    assert Puts(p, a, s, e, key, reply) <==> exists text :: Puts(p, a, s, e, key, text);
  }

  lemma StreamStep(p: Policy, a: Alphabet, s: Answers, e: Event, key: string, answer: string)
    requires e.Streaming?
    ensures Has(Step(p, a, s, e), key, answer) <==>
              Puts(p, a, s, e, key, answer) || (Has(s, key, answer) && !Ousts(p, a, s, e, key))
  {
    StreamEntriesExactly(p, a, s, e.req, e.r);
    EarlyExactly(a, s, e.req, e.r);
    var reply := StreamReply(p, a, s, e.req, e.r);
    if reply.Some? {
      assert Puts(p, a, s, e, key, reply.value) <==> exists text :: Puts(p, a, s, e, key, text);
    }
  }

  lemma StepEntry(p: Policy, a: Alphabet, s: Answers, e: Event, key: string, answer: string)
    ensures Has(Step(p, a, s, e), key, answer) <==>
              Puts(p, a, s, e, key, answer) || (Has(s, key, answer) && !Ousts(p, a, s, e, key))
  {
    if e.Chatted? {
      ChatStep(p, a, s, e, key, answer);
    } else if e.Turned? {
      TurnStep(p, a, s, e, key, answer);
    } else if e.Streaming? {
      StreamStep(p, a, s, e, key, answer);
    }
  }

  ghost predicate PutAt(p: Policy, a: Alphabet, es: seq<Event>, i: int, key: string, answer: string) {
    0 <= i < |es| && Puts(p, a, After(p, a, es[..i]), es[i], key, answer)
  }

  ghost predicate OustedAt(p: Policy, a: Alphabet, es: seq<Event>, j: int, key: string) {
    0 <= j < |es| && Ousts(p, a, After(p, a, es[..j]), es[j], key)
  }

  /** The entry was put there at `i` and nothing has replaced it since. */
  ghost predicate HeldSince(p: Policy, a: Alphabet, es: seq<Event>, i: int, key: string, answer: string) {
    PutAt(p, a, es, i, key, answer) && forall j :: i < j < |es| ==> !OustedAt(p, a, es, j, key)
  }

  lemma HeldLonger(p: Policy, a: Alphabet, es: seq<Event>, e: Event, i: int, key: string, answer: string)
    requires 0 <= i < |es|
    ensures HeldSince(p, a, es + [e], i, key, answer) <==>
              HeldSince(p, a, es, i, key, answer) && !Ousts(p, a, After(p, a, es), e, key)
  {
    var all := es + [e];
    assert all[..|es|] == es && forall j :: 0 <= j < |es| ==> all[..j] == es[..j] && all[j] == es[j];
    assert OustedAt(p, a, all, |es|, key) <==> Ousts(p, a, After(p, a, es), e, key);
    assert forall j :: 0 <= j < |es| ==> (OustedAt(p, a, all, j, key) <==> OustedAt(p, a, es, j, key));
    assert PutAt(p, a, all, i, key, answer) <==> PutAt(p, a, es, i, key, answer);
  }

  /**
   In every run the cache holds an answer under a key exactly when an earlier turn put it there and
   nothing has replaced it since; version bumps remove nothing.
   */
  lemma {:induction false} EntryExactlyWhen(p: Policy, a: Alphabet, es: seq<Event>, key: string, answer: string)
    ensures Has(After(p, a, es), key, answer) <==> exists i :: HeldSince(p, a, es, i, key, answer)
  {
    if |es| > 0 {
      var init, e := es[..|es| - 1], es[|es| - 1];
      assert es == init + [e];
      EntryExactlyWhen(p, a, init, key, answer);
      StepEntry(p, a, After(p, a, init), e, key, answer);
      if Puts(p, a, After(p, a, init), e, key, answer) {
        assert HeldSince(p, a, es, |init|, key, answer);
      } else if i :| HeldSince(p, a, es, i, key, answer) {
        assert i < |init|;
        HeldLonger(p, a, init, e, i, key, answer);
      } else if Has(After(p, a, init), key, answer) {
        var i :| HeldSince(p, a, init, i, key, answer);
        HeldLonger(p, a, init, e, i, key, answer);
      }
    }
  }

  /** Whether the server is up after a run. */
  function IsUp(es: seq<Event>): bool {
    if |es| == 0 then true
    else if es[|es| - 1].Outage? then es[|es| - 1].up
    else IsUp(es[..|es| - 1])
  }

  /** How many bumps of a run reach the server. */
  function Bumps(es: seq<Event>): nat {
    if |es| == 0 then 0
    else Bumps(es[..|es| - 1]) + if es[|es| - 1].Bumped? && IsUp(es[..|es| - 1]) then 1 else 0
  }

  lemma {:induction false} VersionIsBumps(p: Policy, a: Alphabet, es: seq<Event>)
    ensures After(p, a, es).version == Bumps(es) && After(p, a, es).up == IsUp(es)
  {
    if |es| > 0 {
      VersionIsBumps(p, a, es[..|es| - 1]);
    }
  }

  /** The answer was put there at `i` for the same question, with no bump since. */
  ghost predicate IsKept(p: Policy, a: Alphabet, es: seq<Event>, asked: Ask, answer: string, i: int) {
    && HeldSince(p, a, es, i, Key(a, asked, Bumps(es)), answer) && answer != ""
    && Bumps(es[..i]) == Bumps(es) && SameAsk(a, Question(es[i].req, es[i].r), asked)
  }

  /**
   In every run a question is answered from the cache exactly when the server is up, the question is
   not blank and an earlier turn for the same words and caller, with no bump since, put an answer there
   that nothing has replaced.
   */
  lemma FoundExactlyWhen(p: Policy, a: Alphabet, es: seq<Event>, asked: Ask, answer: string)
    requires Sound(a)
    ensures Found(a, After(p, a, es), asked) == Some(answer) <==>
              IsUp(es) && VersionedCache.Cacheable(asked) && exists i :: IsKept(p, a, es, asked, answer, i)
  {
    var key := Key(a, asked, Bumps(es));
    VersionIsBumps(p, a, es);
    EntryExactlyWhen(p, a, es, key, answer);
    if Has(After(p, a, es), key, answer) && answer != "" {
      var i :| HeldSince(p, a, es, i, key, answer);
      VersionIsBumps(p, a, es[..i]);
      SameKeyExactlyWhen(a, Question(es[i].req, es[i].r), Bumps(es[..i]), asked, Bumps(es));
      assert IsKept(p, a, es, asked, answer, i);
    }
  }
}

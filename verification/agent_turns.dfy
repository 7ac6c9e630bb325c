/**
 Whole turns: the chat handler, the streaming one and the turn outside the HTTP layer, over one
 session memory and one answer cache. The agent, the rewriter, the scope classifier, the judge and
 the guardrails may answer anything.
 */
module AgentTurns {
  import opened Wrappers
  import opened CacheKey
  import opened Citations
  import opened AnswerGate
  import opened SessionMemory
  import opened VersionedCache

  /** The input guardrail's verdict; a blocked message may come with a text for the user. */
  datatype InputCheck = Blocked(reply: Option<string>) | Allowed

  /** The agent's run: None for a step that raised, after whatever was retrieved by then. */
  datatype Outcome = Outcome(reply: Option<string>, chunks: seq<Retrieved>, tool: Tool)

  datatype Request = Request(session: string, message: string, user: Option<string>, admin: bool)

  /**
   What everything outside says in one turn. `raisesEarly`, `raisesAtScope` and `raisesLate` are
   exceptions before the cache is asked, before the agent is, and after it has answered or while an
   administrator is alerted instead; `guard` is the output guardrail and `precheck` what the streaming
   handler's own search finds.
   */
  datatype Replies = Replies(
    canonical: string, outOfScope: bool, decline: string, check: InputCheck, outcome: Outcome,
    precheck: seq<Retrieved>, judging: Judging, guard: string -> string,
    raisesEarly: bool, raisesAtScope: bool, raisesLate: bool, ping: bool)

  const BLOCKED: string := "Sorry, I can't answer that question."
  const AGENT_ERROR: string := "Sorry \U{2014} there was a problem processing your request. Please try again."
  const TURN_ERROR: string := "Sorry \U{2014} there was a problem processing your message. Please try again."

  function OrElse(text: Option<string>, default: string): string {
    if text.GetOr("") == "" then default else text.value
  }

  /** The agent's own answer, and what it has retrieved for it. */
  function Answered(r: Replies): AgentRun
    requires r.outcome.reply.Some?
  {
    AgentRun(r.outcome.reply.value, r.outcome.chunks, r.outcome.tool)
  }

  /** `execute_agent`: the answer after the output guardrail, or a standing message. */
  function Execute(r: Replies): AgentRun {
    match r.check
    case Blocked(text) => AgentRun(OrElse(text, BLOCKED), [], NoTool)
    case Allowed =>
      match r.outcome.reply
      case None => AgentRun(AGENT_ERROR, r.outcome.chunks, r.outcome.tool)
      case Some(text) => Answered(r).(response := r.guard(text))
  }

  // ---- The answer cache ----

  datatype Answers = Answers(up: bool, version: nat, entries: map<string, Payload>)

  const EMPTY := Answers(true, 0, map[])

  function Found(a: Alphabet, s: Answers, ask: Ask): Option<Payload> {
    var key := Key(a, ask, s.version);
    if s.up && Cacheable(ask) && key in s.entries && s.entries[key] != "" then Some(s.entries[key]) else None
  }

  function Saved(a: Alphabet, s: Answers, ask: Ask, payload: Payload): map<string, Payload> {
    if s.up && Cacheable(ask) && payload != "" then s.entries[Key(a, ask, s.version) := payload] else s.entries
  }

  function Question(req: Request, r: Replies): Ask { Answer(r.canonical, req.user) }

  // ---- The chat handler ----

  /** Administrators never read the cache. */
  function ChatCached(a: Alphabet, s: Answers, req: Request, r: Replies): Option<Payload> {
    if req.admin then None else Found(a, s, Question(req, r))
  }

  /** Nothing raises and nothing is cached before the scope is checked, and the question is in scope. */
  predicate PassesScope(a: Alphabet, s: Answers, req: Request, r: Replies) {
    !r.raisesEarly && ChatCached(a, s, req, r).None? && !r.raisesAtScope && !r.outOfScope
  }

  /** What a turn that does not get that far answers; None is the internal error. */
  function EarlyReply(a: Alphabet, s: Answers, req: Request, r: Replies): Option<string> {
    if r.raisesEarly then None
    else match ChatCached(a, s, req, r)
      case Some(hit) => Some(hit)
      case None => if r.raisesAtScope then None else Some(r.decline)
  }

  /** Only a cached answer is saved in the session then. */
  function EarlyRemembers(a: Alphabet, s: Answers, req: Request, r: Replies): Option<string> {
    if r.raisesEarly then None else ChatCached(a, s, req, r)
  }

  /** The response; None is the internal error. */
  function ChatReply(p: Policy, a: Alphabet, s: Answers, req: Request, r: Replies): Option<string> {
    if !PassesScope(a, s, req, r) then EarlyReply(a, s, req, r)
    else if r.raisesLate then None
    else Some(Gate(p, a, Execute(r), r.judging).0)
  }

  /**
   What the session is told was answered: the agent's response before the gate, and nothing for a
   declined question.
   */
  function ChatRemembers(a: Alphabet, s: Answers, req: Request, r: Replies): Option<string> {
    if !PassesScope(a, s, req, r) then EarlyRemembers(a, s, req, r) else Some(Execute(r).response)
  }

  function ChatEntries(p: Policy, a: Alphabet, s: Answers, req: Request, r: Replies): map<string, Payload> {
    var (response, cacheable) := Gate(p, a, Execute(r), r.judging);
    if PassesScope(a, s, req, r) && !r.raisesLate && cacheable && !req.admin then
      Saved(a, s, Question(req, r), response)
    else
      s.entries
  }

  // ---- The streaming handler ----

  /** The agent's streamed text after the output guardrail. */
  function Streamed(r: Replies): AgentRun
    requires r.outcome.reply.Some?
  {
    Answered(r).(response := r.guard(r.outcome.reply.value))
  }

  predicate Finishes(r: Replies) { r.check.Allowed? && r.outcome.reply.Some? && !r.raisesLate }

  function StreamReply(p: Policy, a: Alphabet, s: Answers, req: Request, r: Replies): Option<string> {
    if !PassesScope(a, s, req, r) then EarlyReply(a, s, req, r)
    else if IsLowConfidence(p, r.precheck) then (if r.raisesLate then None else Some(ESCALATION))
    else if r.check.Blocked? then Some(OrElse(r.check.reply, BLOCKED))
    else if !Finishes(r) then None
    else Some(StreamGate(p, a, Streamed(r), r.precheck, r.judging).0)
  }

  /** The session is told what was shown, except for a declined or an escalated question. */
  function StreamRemembers(p: Policy, a: Alphabet, s: Answers, req: Request, r: Replies): Option<string> {
    if !PassesScope(a, s, req, r) then EarlyRemembers(a, s, req, r)
    else if IsLowConfidence(p, r.precheck) then None
    else StreamReply(p, a, s, req, r)
  }

  function StreamEntries(p: Policy, a: Alphabet, s: Answers, req: Request, r: Replies): map<string, Payload> {
    if PassesScope(a, s, req, r) && Finishes(r) && !req.admin && StreamGate(p, a, Streamed(r), r.precheck, r.judging).1
    then Saved(a, s, Question(req, r), StreamGate(p, a, Streamed(r), r.precheck, r.judging).0)
    else s.entries
  }

  // ---- The turn outside the HTTP layer ----

  /** A miss goes on to the agent, the tiers and then the output guardrail. */
  function TurnReply(p: Policy, a: Alphabet, s: Answers, req: Request, r: Replies): string {
    if r.check.Blocked? then OrElse(r.check.reply, BLOCKED)
    else if r.raisesEarly then TURN_ERROR
    else match Found(a, s, Question(req, r))
      case Some(hit) => hit
      case None =>
        if r.outcome.reply.None? || r.raisesLate then TURN_ERROR
        else r.guard(TurnGate(p, a, Answered(r), r.judging).0)
  }

  function TurnEntries(p: Policy, a: Alphabet, s: Answers, req: Request, r: Replies): map<string, Payload> {
    if r.check.Allowed? && !r.raisesEarly && Found(a, s, Question(req, r)).None? && r.outcome.reply.Some?
       && !r.raisesLate && TurnGate(p, a, Answered(r), r.judging).1
    then Saved(a, s, Question(req, r), r.guard(TurnGate(p, a, Answered(r), r.judging).0))
    else s.entries
  }

  // ---- The three, step by step ----

  function Remember(
    log: map<string, seq<Message>>, session: string, message: string, reply: string): map<string, seq<Message>>
  {
    log[session := Of(log, session) + [Human(message), Ai(reply)]]
  }

  class Assistant {
    const policy: Policy
    const alphabet: Alphabet
    const memory: Manager
    const cache: Redis

    function Held(): Answers
      reads cache
    {
      Answers(cache.up, cache.version, cache.entries)
    }

    constructor (policy: Policy, alphabet: Alphabet, memory: Manager, cache: Redis)
      ensures this.policy == policy && this.alphabet == alphabet && this.memory == memory && this.cache == cache
    {
      this.policy, this.alphabet, this.memory, this.cache := policy, alphabet, memory, cache;
    }

    /** Every path saves exactly one turn, with the text returned. */
    method ExecuteAgent(req: Request, r: Replies) returns (run: AgentRun)
      requires memory.Valid()
      modifies memory
      ensures memory.Valid() && run == Execute(r)
      ensures memory.log == Remember(old(memory.log), req.session, req.message, run.response)
    {
      if r.check.Blocked? {
        var blocked := OrElse(r.check.reply, BLOCKED);
        memory.AddTurn(req.session, req.message, blocked, r.ping);
        return AgentRun(blocked, [], NoTool);
      }
      var history := memory.GetContextString(req.session, r.ping);
      var response := AGENT_ERROR;
      if r.outcome.reply.Some? {
        response := r.guard(r.outcome.reply.value);
      }
      memory.AddTurn(req.session, req.message, response, r.ping);
      return AgentRun(response, r.outcome.chunks, r.outcome.tool);
    }

    method Chat(req: Request, r: Replies) returns (reply: Option<string>)
      requires memory.Valid()
      modifies memory, cache`entries
      ensures memory.Valid() && reply == ChatReply(policy, alphabet, old(Held()), req, r)
      ensures cache.entries == ChatEntries(policy, alphabet, old(Held()), req, r)
      ensures memory.log == match ChatRemembers(alphabet, old(Held()), req, r)
        case None => old(memory.log)
        case Some(said) => Remember(old(memory.log), req.session, req.message, said)
    {
      var done: bool;
      reply, done := Open(req, r);
      if done {
        return;
      }
      var run := ExecuteAgent(req, r);
      if r.raisesLate {
        return None;
      }
      var response := FinishChat(req, r, run);
      return Some(response);
    }

    /**
     The session, the rewritten question, the cache and tier 1, the same for both handlers; `done` if
     the turn ends here.
     */
    method Open(req: Request, r: Replies) returns (reply: Option<string>, done: bool)
      requires memory.Valid()
      modifies memory
      ensures memory.Valid() && (done <==> !PassesScope(alphabet, old(Held()), req, r))
      ensures done ==> reply == EarlyReply(alphabet, old(Held()), req, r)
      ensures memory.log == match (if done then EarlyRemembers(alphabet, old(Held()), req, r) else None)
        case None => old(memory.log)
        case Some(said) => Remember(old(memory.log), req.session, req.message, said)
    {
      memory.CreateSession(req.session, r.ping);
      if r.raisesEarly {
        return None, true;
      }
      var history := memory.GetContextString(req.session, r.ping);
      var cached := None;
      if !req.admin {
        cached := cache.Get(alphabet, Question(req, r));
      }
      if cached.Some? {
        memory.AddTurn(req.session, req.message, cached.value, r.ping);
        return cached, true;
      }
      if r.raisesAtScope {
        return None, true;
      }
      return Some(r.decline), r.outOfScope;
    }

    /** What was streamed to the client, or replaced it at the end; None is an error event. */
    method Stream(req: Request, r: Replies) returns (reply: Option<string>)
      requires memory.Valid()
      modifies memory, cache`entries
      ensures memory.Valid() && reply == StreamReply(policy, alphabet, old(Held()), req, r)
      ensures cache.entries == StreamEntries(policy, alphabet, old(Held()), req, r)
      ensures memory.log == match StreamRemembers(policy, alphabet, old(Held()), req, r)
        case None => old(memory.log)
        case Some(said) => Remember(old(memory.log), req.session, req.message, said)
    {
      var done: bool;
      reply, done := Open(req, r);
      if done {
        return;
      }
      if IsLowConfidence(policy, r.precheck) {
        return if r.raisesLate then None else Some(ESCALATION);
      }
      if r.check.Blocked? {
        var blocked := OrElse(r.check.reply, BLOCKED);
        memory.AddTurn(req.session, req.message, blocked, r.ping);
        return Some(blocked);
      }
      if r.outcome.reply.None? || r.raisesLate {
        return None;
      }
      var guarded := FinishStream(req, r);
      return Some(guarded);
    }

    /** Tiers 3 and 4; the turn is saved before the answer is cached. */
    method FinishStream(req: Request, r: Replies) returns (guarded: string)
      requires memory.Valid() && Finishes(r) && !IsLowConfidence(policy, r.precheck)
      modifies memory, cache`entries
      ensures memory.Valid() && guarded == StreamGate(policy, alphabet, Streamed(r), r.precheck, r.judging).0
      ensures memory.log == Remember(old(memory.log), req.session, req.message, guarded)
      ensures cache.entries == if StreamGate(policy, alphabet, Streamed(r), r.precheck, r.judging).1 && !req.admin
                               then Saved(alphabet, old(Held()), Question(req, r), guarded)
                               else old(cache.entries)
    {
      var run := Streamed(r);
      var cacheable := false;
      guarded := run.response;
      if !run.tool.OtherTool? {
        var (checked, good) := CheckSources(policy, alphabet, run, r.judging);
        guarded, cacheable := checked, good;
      }
      memory.AddTurn(req.session, req.message, guarded, r.ping);
      if cacheable && !req.admin {
        cache.Set(alphabet, Question(req, r), guarded);
      }
    }

    /** Tiers 2 to 4 and the cache write; administrators never write the cache either. */
    method FinishChat(req: Request, r: Replies, run: AgentRun) returns (response: string)
      modifies cache`entries
      ensures response == Gate(policy, alphabet, run, r.judging).0
      ensures cache.entries == if Gate(policy, alphabet, run, r.judging).1 && !req.admin
                               then Saved(alphabet, old(Held()), Question(req, r), response)
                               else old(cache.entries)
    {
      var cacheable := false;
      response := run.response;
      if IsLowConfidence(policy, run.chunks) {
        response := ESCALATION;
      } else if run.tool.HybridSearch? {
        var (checked, good) := CheckSources(policy, alphabet, run, r.judging);
        response, cacheable := checked, good;
      }
      if cacheable && !req.admin {
        cache.Set(alphabet, Question(req, r), response);
      }
    }

    /** Every path appends exactly one turn, and what it appends is what it returns. */
    method RunAgentTurn(req: Request, r: Replies) returns (reply: string)
      requires memory.Valid()
      modifies memory, cache`entries
      ensures memory.Valid() && reply == TurnReply(policy, alphabet, old(Held()), req, r)
      ensures memory.log == Remember(old(memory.log), req.session, req.message, reply)
      ensures cache.entries == TurnEntries(policy, alphabet, old(Held()), req, r)
    {
      memory.CreateSession(req.session, r.ping);
      if r.check.Blocked? {
        reply := OrElse(r.check.reply, BLOCKED);
        memory.AddTurn(req.session, req.message, reply, r.ping);
        return;
      }
      var attempt := TryTurn(req, r);
      if attempt.Some? {
        return attempt.value;
      }
      reply := TURN_ERROR;
      memory.AddTurn(req.session, req.message, reply, r.ping);
    }

    /** The guarded part; None is an exception, raised before the session learns of the turn. */
    method TryTurn(req: Request, r: Replies) returns (attempt: Option<string>)
      requires memory.Valid() && r.check.Allowed?
      modifies memory, cache`entries
      ensures memory.Valid() && TurnReply(policy, alphabet, old(Held()), req, r) == attempt.GetOr(TURN_ERROR)
      ensures memory.log == if attempt.None? then old(memory.log)
                            else Remember(old(memory.log), req.session, req.message, attempt.value)
      ensures cache.entries == TurnEntries(policy, alphabet, old(Held()), req, r)
    {
      var history := memory.GetContextString(req.session, r.ping);
      if r.raisesEarly {
        return None;
      }
      var cached := cache.Get(alphabet, Question(req, r));
      if cached.Some? {
        memory.AddTurn(req.session, req.message, cached.value, r.ping);
        return cached;
      }
      if r.outcome.reply.None? || r.raisesLate {
        return None;
      }
      var reply := FinishTurn(req, r);
      memory.AddTurn(req.session, req.message, reply, r.ping);
      return Some(reply);
    }

    /** The tiers, the output guardrail and the cache write. */
    method FinishTurn(req: Request, r: Replies) returns (reply: string)
      requires r.check.Allowed? && r.outcome.reply.Some?
      modifies cache`entries
      ensures reply == r.guard(TurnGate(policy, alphabet, Answered(r), r.judging).0)
      ensures cache.entries == if TurnGate(policy, alphabet, Answered(r), r.judging).1
                               then Saved(alphabet, old(Held()), Question(req, r), reply)
                               else old(cache.entries)
    {
      var run := Answered(r);
      var response, cacheable := run.response, false;
      if run.tool.HybridSearch? {
        if IsLowConfidence(policy, run.chunks) {
          response := ABSTAIN_MESSAGE;
        } else {
          var (checked, good) := CheckSources(policy, alphabet, run, r.judging);
          response, cacheable := checked, good;
        }
      }
      reply := r.guard(response);
      if cacheable {
        cache.Set(alphabet, Question(req, r), reply);
      }
    }
  }

  // ---- The sessions of a run ----

  /** A turn asked for, with all that is said from outside in it. */
  datatype Asked = Asked(req: Request, r: Replies)

  /** The messages and replies of one session, among all of them. */
  function SessionOf(session: string, asked: seq<Asked>, replies: seq<string>): seq<Exchange>
    requires |asked| == |replies|
  {
    if |asked| == 0 then []
    else
      var n := |asked| - 1;
      SessionOf(session, asked[..n], replies[..n])
      + if asked[n].req.session == session then [Exchange(asked[n].req.message, replies[n])] else []
  }

  /** Every session's log is its messages and the replies returned for them. */
  ghost predicate Logged(log: map<string, seq<Message>>, asked: seq<Asked>, replies: seq<string>)
    requires |asked| == |replies|
  {
    forall session :: Of(log, session) == Transcript(SessionOf(session, asked, replies))
  }

  lemma LoggedMore(log: map<string, seq<Message>>, asked: seq<Asked>, replies: seq<string>, next: Asked, reply: string)
    requires |asked| == |replies| && Logged(log, asked, replies)
    ensures Logged(Remember(log, next.req.session, next.req.message, reply), asked + [next], replies + [reply])
  {
    var log' := Remember(log, next.req.session, next.req.message, reply);
    var asked', replies' := asked + [next], replies + [reply];
    assert asked'[..|asked|] == asked && replies'[..|asked|] == replies;
    forall session ensures Of(log', session) == Transcript(SessionOf(session, asked', replies')) {
      var before := SessionOf(session, asked, replies);
      assert Of(log, session) == Transcript(before);
      if next.req.session == session {
        TranscriptSnoc(before, next.req.message, reply);
      } else {
        assert before + [] == before;
      }
    }
  }

  lemma TranscriptSnoc(turns: seq<Exchange>, message: string, reply: string)
    ensures Transcript(turns + [Exchange(message, reply)]) == Transcript(turns) + [Human(message), Ai(reply)]
  {
    assert (turns + [Exchange(message, reply)])[..|turns|] == turns;
  }

  /** Turns one after the other, on any sessions, from an empty memory. */
  method RunTurns(assistant: Assistant, asked: seq<Asked>) returns (replies: seq<string>)
    requires assistant.memory.Valid() && assistant.memory.log == map[]
    modifies assistant.memory, assistant.cache`entries
    ensures assistant.memory.Valid() && |replies| == |asked| && Logged(assistant.memory.log, asked, replies)
  {
    replies := [];
    for i := 0 to |asked|
      invariant assistant.memory.Valid() && |replies| == i && Logged(assistant.memory.log, asked[..i], replies)
    {
      assert asked[..i + 1] == asked[..i] + [asked[i]];
      ghost var log := assistant.memory.log;
      var reply := assistant.RunAgentTurn(asked[i].req, asked[i].r);
      LoggedMore(log, asked[..i], replies, asked[i], reply);
      replies := replies + [reply];
    }
    assert asked[..|asked|] == asked;
  }

  /**
   After such a run, what a session shows is its own last messages and the replies returned for them,
   as many as the window.
   */
  method HistoryAfter(assistant: Assistant, asked: seq<Asked>, session: string, ping: bool)
    returns (replies: seq<string>, messages: seq<Message>)
    requires assistant.memory.Valid() && assistant.memory.log == map[] && assistant.memory.windowSize >= 1
    modifies assistant.memory, assistant.cache`entries
    ensures |replies| == |asked|
    ensures messages == Transcript(LastTurns(assistant.memory.windowSize, SessionOf(session, asked, replies)))
  {
    replies := RunTurns(assistant, asked);
    messages := assistant.memory.GetMessages(session, ping);
    WindowIsLastTurns(assistant.memory.windowSize, SessionOf(session, asked, replies));
  }

  // ---- Runs ----

  datatype Event =
    | Chatted(req: Request, r: Replies) | Turned(req: Request, r: Replies) | Streaming(req: Request, r: Replies)
    | Bumped | Expired(key: string) | Outage(up: bool)

  function Step(p: Policy, a: Alphabet, s: Answers, e: Event): Answers {
    match e
    case Chatted(req, r) => s.(entries := ChatEntries(p, a, s, req, r))
    case Turned(req, r) => s.(entries := TurnEntries(p, a, s, req, r))
    case Streaming(req, r) => s.(entries := StreamEntries(p, a, s, req, r))
    case Bumped => if s.up then s.(version := s.version + 1) else s
    case Expired(key) => s.(entries := s.entries - {key})
    case Outage(up) => s.(up := up)
  }

  function After(p: Policy, a: Alphabet, es: seq<Event>): Answers {
    if |es| == 0 then EMPTY else Step(p, a, After(p, a, es[..|es| - 1]), es[|es| - 1])
  }

  /**
   The turn's answer is fit for the cache; outside the HTTP layer, fit until the output guardrail
   rewrote it; streamed, only traceable, after a confident search.
   */
  ghost predicate Wrote(p: Policy, a: Alphabet, e: Event, answer: string) {
    match e
    case Chatted(req, r) =>
      && !req.admin && answer == Gate(p, a, Execute(r), r.judging).0
      && Fit(p, a, answer, Execute(r).chunks)
    case Turned(req, r) =>
      && r.outcome.reply.Some?
      && answer == r.guard(TurnGate(p, a, Answered(r), r.judging).0)
      && Fit(p, a, TurnGate(p, a, Answered(r), r.judging).0, r.outcome.chunks)
    case Streaming(req, r) =>
      && !req.admin && r.outcome.reply.Some? && answer == StreamGate(p, a, Streamed(r), r.precheck, r.judging).0
      && !IsLowConfidence(p, r.precheck) && Traceable(a, answer, |r.outcome.chunks|)
    case _ => false
  }

  /** The entry was written by the event at `i` under the version of that time. */
  ghost predicate Vouched(p: Policy, a: Alphabet, es: seq<Event>, key: string, answer: string, i: int) {
    && 0 <= i < |es| && Wrote(p, a, es[i], answer)
    && key == Key(a, Question(es[i].req, es[i].r), After(p, a, es[..i]).version)
  }

  lemma StepWrites(p: Policy, a: Alphabet, s: Answers, e: Event, key: string)
    requires p.threshold > 0.0 && key in Step(p, a, s, e).entries
    ensures var answer := Step(p, a, s, e).entries[key];
            (key in s.entries && s.entries[key] == answer)
            || (Wrote(p, a, e, answer) && key == Key(a, Question(e.req, e.r), s.version))
  {
    if e.Chatted? {
      GatedIsFit(p, a, Execute(e.r), e.r.judging);
    } else if e.Turned? && e.r.outcome.reply.Some? {
      GatedIsFit(p, a, Answered(e.r), e.r.judging);
    } else if e.Streaming? && e.r.outcome.reply.Some? && StreamGate(p, a, Streamed(e.r), e.r.precheck, e.r.judging).1 {
      StreamedIsTraceable(p, a, Streamed(e.r), e.r.precheck, e.r.judging);
    }
  }

  lemma VouchedLater(p: Policy, a: Alphabet, es: seq<Event>, e: Event, key: string, answer: string, i: int)
    requires Vouched(p, a, es, key, answer, i)
    ensures Vouched(p, a, es + [e], key, answer, i)
  {
    assert (es + [e])[..i] == es[..i];
  }

  /**
   In every run of turns, version bumps, expiries and outages, with a positive threshold and whatever
   the agent and the judge return: every answer in the cache was written there by an earlier turn,
   after a confident search, and cites nothing that was not retrieved; unless it was streamed, it
   does cite, and what it was drawn from was retrieved with confidence.
   */
  lemma {:induction false} CachedAnswersAreFit(p: Policy, a: Alphabet, es: seq<Event>, key: string)
    requires p.threshold > 0.0 && key in After(p, a, es).entries
    ensures exists i :: Vouched(p, a, es, key, After(p, a, es).entries[key], i)
  {
    if |es| > 0 {
      var before, e := es[..|es| - 1], es[|es| - 1];
      assert es == before + [e];
      var answer := After(p, a, es).entries[key];
      StepWrites(p, a, After(p, a, before), e, key);
      if key in After(p, a, before).entries && After(p, a, before).entries[key] == answer {
        CachedAnswersAreFit(p, a, before, key);
        var i :| Vouched(p, a, before, key, answer, i);
        VouchedLater(p, a, before, e, key, answer, i);
      } else {
        assert Vouched(p, a, es, key, answer, |es| - 1);
      }
    }
  }

  /**
   What a turn may serve: an answer written by the event at `i`, for the same words, the same scope
   and the same version.
   */
  ghost predicate Served(p: Policy, a: Alphabet, es: seq<Event>, asked: Ask, answer: string, i: int) {
    && 0 <= i < |es| && Wrote(p, a, es[i], answer)
    && SameAsk(a, Question(es[i].req, es[i].r), asked)
    && After(p, a, es[..i]).version == After(p, a, es).version
  }

  lemma VouchedServed(p: Policy, a: Alphabet, es: seq<Event>, asked: Ask, answer: string, i: int)
    requires Sound(a) && Vouched(p, a, es, Key(a, asked, After(p, a, es).version), answer, i)
    ensures Served(p, a, es, asked, answer, i)
  {
    SameKeyExactlyWhen(a, Question(es[i].req, es[i].r), After(p, a, es[..i]).version, asked, After(p, a, es).version);
  }

  /** A reply served from the cache was written there by such an earlier turn. */
  lemma HitsAreFit(p: Policy, a: Alphabet, es: seq<Event>, asked: Ask)
    requires Sound(a) && p.threshold > 0.0
    ensures var found := Found(a, After(p, a, es), asked);
            found.Some? ==> exists i :: Served(p, a, es, asked, found.value, i)
  {
    var s := After(p, a, es);
    var key := Key(a, asked, s.version);
    if Found(a, s, asked).Some? {
      CachedAnswersAreFit(p, a, es, key);
      var i :| Vouched(p, a, es, key, s.entries[key], i);
      VouchedServed(p, a, es, asked, s.entries[key], i);
    }
  }
}

/**
 The tiers between the agent's answer and the answer cache: confidence, citations, groundedness.
 The agent, the judge, the rewriter and the scope classifier may answer anything.
 */
module AnswerGate {
  import opened Wrappers
  import opened Text
  import opened CacheKey
  import opened Citations

  // ---- Groundedness ----

  datatype Policy = Policy(enabled: bool, remediation: bool, reverify: bool, minWords: int, threshold: real)

  /** The judge's reply; `corrected` is its edited answer. */
  datatype Judgement = Judgement(grounded: bool, reason: string, corrected: string)

  datatype Verdict = Verdict(grounded: bool, reason: string, corrected: string)

  datatype Status = Grounded | Remediated | Abstained | Skipped | ErrorFailOpen

  const SKIPPED: string := "skipped"
  const ERROR: string := "error_failopen"

  function Clip(s: string, n: nat): string { if |s| <= n then s else s[..n] }

  /** `assess`: no judge call for a trivial answer, and a failed call (None) passes. */
  function Assess(p: Policy, a: Alphabet, answer: string, n: nat, judge: Option<Judgement>): Verdict {
    if !(p.enabled && n > 0 && IsSubstantive(a, answer, p.minWords)) then Verdict(true, SKIPPED, "")
    else match judge
      case None => Verdict(true, ERROR, "")
      case Some(j) =>
        var reason := Clip(j.reason, 200);
        Verdict(j.grounded, if reason == "" then "grounded" else reason, Strip(j.corrected))
  }

  function PassedStatus(reason: string): Status {
    if reason == SKIPPED then Skipped else if reason == ERROR then ErrorFailOpen else Grounded
  }

  /** `enforce`; `recheck` is the judge's reply to the corrected answer. */
  function Ground(
    p: Policy, a: Alphabet, answer: string, n: nat, judge: Option<Judgement>, recheck: Option<Judgement>)
    : (string, Status)
  {
    var verdict := Assess(p, a, answer, n, judge);
    if verdict.grounded then (answer, PassedStatus(verdict.reason))
    else
      var corrected := Strip(verdict.corrected);
      if p.remediation && corrected != "" && Validate(a, corrected, n).1 == Valid && !LooksLikeAbstention(a, corrected)
         && (p.reverify ==> Assess(p, a, corrected, n, recheck).grounded)
      then (corrected, Remediated)
      else (ABSTAIN_MESSAGE, Abstained)
  }

  predicate IsCacheable(s: Status) { s == Grounded || s == Remediated || s == Skipped }

  // ---- Confidence ----

  datatype Retrieved = Retrieved(id: string, similarity: Option<real>)

  function MaxCosine(chunks: seq<Retrieved>): real {
    if chunks == [] then 0.0
    else
      var last := chunks[|chunks| - 1].similarity.GetOr(0.0);
      if |chunks| == 1 then last
      else
        var rest := MaxCosine(chunks[..|chunks| - 1]);
        if rest < last then last else rest
  }

  predicate IsLowConfidence(p: Policy, chunks: seq<Retrieved>) { MaxCosine(chunks) < p.threshold }

  /** With a positive threshold, retrieval is confident exactly when some chunk's similarity reaches it. */
  lemma ConfidentExactlyWhen(p: Policy, chunks: seq<Retrieved>)
    requires p.threshold > 0.0
    ensures !IsLowConfidence(p, chunks) <==> exists c :: c in chunks && c.similarity.GetOr(0.0) >= p.threshold
  {
    MaxCosineReached(chunks);
  }

  /** No similarity is above the maximum, and it is that of some chunk unless there is none. */
  lemma {:induction false} MaxCosineReached(chunks: seq<Retrieved>)
    ensures forall c :: c in chunks ==> c.similarity.GetOr(0.0) <= MaxCosine(chunks)
    ensures chunks != [] ==> exists c :: c in chunks && c.similarity.GetOr(0.0) == MaxCosine(chunks)
  {
    if chunks != [] {
      var init, last := chunks[..|chunks| - 1], chunks[|chunks| - 1];
      MaxCosineReached(init);
      assert chunks == init + [last];
      assert last in chunks;
    }
  }

  const ESCALATION_OPENING: string :=
    "Sorry, I couldn't find a " + "reliable answer to your question " + "in the knowledge base. "
  const ESCALATION_CLOSING: string := "I've alerted an admin, " + "who will help you shortly."
  const ESCALATION: string := ESCALATION_OPENING + ESCALATION_CLOSING

  // ---- The tiers ----

  /** The retrieval tool on record for a turn: the document search whenever it was used. */
  datatype Tool = NoTool | HybridSearch | OtherTool

  /** What one turn of the agent leaves behind. */
  datatype AgentRun = AgentRun(response: string, chunks: seq<Retrieved>, tool: Tool)

  /** What the judge says of the response and of its own correction, if asked. */
  datatype Judging = Judging(judge: Option<Judgement>, recheck: Option<Judgement>)

  /** Citations, then groundedness: the response, and whether it may be cached. */
  function CheckSources(p: Policy, a: Alphabet, run: AgentRun, j: Judging): (string, bool) {
    var (text, reason) := Enforce(a, run.response, |run.chunks|);
    if reason != Valid then (text, false)
    else
      var (grounded, status) := Ground(p, a, text, |run.chunks|, j.judge, j.recheck);
      (grounded, IsCacheable(status))
  }

  /** The chat handler's tiers 2 to 4. */
  function Gate(p: Policy, a: Alphabet, run: AgentRun, j: Judging): (string, bool) {
    if IsLowConfidence(p, run.chunks) then (ESCALATION, false)
    else if !run.tool.HybridSearch? then (run.response, false)
    else CheckSources(p, a, run, j)
  }

  /** The same tiers in a turn outside the HTTP layer: weak retrieval abstains, and only after a search. */
  function TurnGate(p: Policy, a: Alphabet, run: AgentRun, j: Judging): (string, bool) {
    if !run.tool.HybridSearch? then (run.response, false)
    else if IsLowConfidence(p, run.chunks) then (ABSTAIN_MESSAGE, false)
    else CheckSources(p, a, run, j)
  }

  /**
   The streaming handler's: confidence is that of a search of its own, `precheck`, and no tool counts
   as the document search.
   */
  function StreamGate(p: Policy, a: Alphabet, run: AgentRun, precheck: seq<Retrieved>, j: Judging): (string, bool) {
    if IsLowConfidence(p, precheck) then (ESCALATION, false)
    else if run.tool.OtherTool? then (run.response, false)
    else CheckSources(p, a, run, j)
  }

  /** An answer fit for the cache: drawn from confident retrieval, citing it and nothing else. */
  ghost predicate Fit(p: Policy, a: Alphabet, answer: string, chunks: seq<Retrieved>) {
    && chunks != [] && MaxCosine(chunks) >= p.threshold
    && Cites(a, answer) && CitesWithin(a, answer, |chunks|)
    && answer != ABSTAIN_MESSAGE && answer != ESCALATION
  }

  lemma NoBracket(a: Alphabet, text: string)
    requires '[' !in text
    ensures !Cites(a, text)
  {
  }

  lemma AbstentionOpens()
    ensures '[' !in ABSTAIN_OPENING
  {
    assert '[' !in "I don't have enough grounded ";
    assert '[' !in "information in the knowledge ";
    assert '[' !in "base to answer that accurately. ";
  }

  lemma AbstentionCloses()
    ensures '[' !in ABSTAIN_CLOSING
  {
    assert '[' !in "Please rephrase, or reach out ";
    assert '[' !in "to the relevant team for ";
    assert '[' !in "the most reliable answer.";
  }

  lemma EscalationOpens()
    ensures '[' !in ESCALATION_OPENING
  {
    assert '[' !in "Sorry, I couldn't find a ";
    assert '[' !in "reliable answer to your question ";
    assert '[' !in "in the knowledge base. ";
  }

  lemma EscalationCloses()
    ensures '[' !in ESCALATION_CLOSING
  {
    assert '[' !in "I've alerted an admin, ";
    assert '[' !in "who will help you shortly.";
  }

  lemma MessagesCiteNothing(a: Alphabet)
    ensures !Cites(a, ABSTAIN_MESSAGE) && !Cites(a, ESCALATION)
  {
    AbstentionOpens();
    AbstentionCloses();
    EscalationOpens();
    EscalationCloses();
    Apart(a, ABSTAIN_OPENING, ABSTAIN_CLOSING);
    Apart(a, ESCALATION_OPENING, ESCALATION_CLOSING);
  }

  lemma Apart(a: Alphabet, s: string, t: string)
    requires '[' !in s && '[' !in t
    ensures !Cites(a, s + t)
  {
    NoBracket(a, s + t);
  }

  /** Whatever the agent and the judge say, what passes the source checks cites, and cites only what was retrieved. */
  lemma CheckedCites(p: Policy, a: Alphabet, run: AgentRun, j: Judging)
    requires CheckSources(p, a, run, j).1 && run.chunks != []
    ensures Cites(a, CheckSources(p, a, run, j).0) && CitesWithin(a, CheckSources(p, a, run, j).0, |run.chunks|)
  {
    ValidExactlyWhen(a, run.response, |run.chunks|);
    ValidExactlyWhen(a, CheckSources(p, a, run, j).0, |run.chunks|);
  }

  /**
   With a positive threshold, whatever the agent and the judge say, what either gate lets into the
   cache is fit for it.
   */
  lemma GatedIsFit(p: Policy, a: Alphabet, run: AgentRun, j: Judging)
    requires p.threshold > 0.0
    ensures Gate(p, a, run, j).1 ==> Fit(p, a, Gate(p, a, run, j).0, run.chunks)
    ensures TurnGate(p, a, run, j).1 ==> Fit(p, a, TurnGate(p, a, run, j).0, run.chunks)
  {
    if !IsLowConfidence(p, run.chunks) && CheckSources(p, a, run, j).1 {
      CheckedCites(p, a, run, j);
      MessagesCiteNothing(a);
    }
  }

  /** Whether the judge is asked about an answer to a question with `n` chunks. */
  predicate IsJudged(p: Policy, a: Alphabet, answer: string, n: nat) {
    p.enabled && n > 0 && IsSubstantive(a, answer, p.minWords)
  }

  /**
   The judge's correction still cites, only what was retrieved, does not abstain, and passes the
   second judgement if one is asked for.
   */
  ghost predicate Salvages(p: Policy, a: Alphabet, n: nat, j: Judging)
    requires j.judge.Some?
  {
    var corrected := Strip(j.judge.value.corrected);
    && p.remediation && Cites(a, corrected) && CitesWithin(a, corrected, n) && !LooksLikeAbstention(a, corrected)
    && (p.reverify && IsJudged(p, a, corrected, n) && j.recheck.Some? ==> j.recheck.value.grounded)
  }

  /** What the judging, if any, makes of a response that cites correctly. */
  ghost predicate Approves(p: Policy, a: Alphabet, answer: string, n: nat, j: Judging) {
    IsJudged(p, a, answer, n) ==>
      j.judge.Some? && if j.judge.value.grounded then Clip(j.judge.value.reason, 200) != ERROR else Salvages(p, a, n, j)
  }

  /** The judge is asked and does not find the answer grounded. */
  predicate IsRejected(p: Policy, a: Alphabet, answer: string, n: nat, j: Judging) {
    IsJudged(p, a, answer, n) && j.judge.Some? && !j.judge.value.grounded
  }

  function Corrected(p: Policy, a: Alphabet, answer: string, n: nat, j: Judging): string {
    if IsRejected(p, a, answer, n, j) then Strip(j.judge.value.corrected) else answer
  }

  /** A rejected answer is replaced by its correction or by the abstain message; any other stays. */
  lemma GroundedExactlyWhen(p: Policy, a: Alphabet, answer: string, n: nat, j: Judging)
    ensures IsCacheable(Ground(p, a, answer, n, j.judge, j.recheck).1) <==> Approves(p, a, answer, n, j)
    ensures Ground(p, a, answer, n, j.judge, j.recheck).0 ==
              if IsRejected(p, a, answer, n, j) && !Salvages(p, a, n, j) then ABSTAIN_MESSAGE
              else Corrected(p, a, answer, n, j)
  {
    if j.judge.Some? {
      StripTwice(j.judge.value.corrected);
      ValidExactlyWhen(a, Strip(j.judge.value.corrected), n);
    }
  }

  /**
   Exactly which answers are cached, and as what: confident, correctly cited, and either not worth
   judging, or judged grounded, or corrected. When the judge does not answer, the response is let
   through but not cached.
   */
  lemma CachedExactlyWhen(p: Policy, a: Alphabet, run: AgentRun, j: Judging)
    requires p.threshold > 0.0
    ensures Gate(p, a, run, j).1 <==>
              && !IsLowConfidence(p, run.chunks) && run.tool.HybridSearch?
              && Cites(a, run.response) && CitesWithin(a, run.response, |run.chunks|)
              && Approves(p, a, run.response, |run.chunks|, j)
    ensures Gate(p, a, run, j).1 ==> Gate(p, a, run, j).0 == Corrected(p, a, run.response, |run.chunks|, j)
  {
    if !IsLowConfidence(p, run.chunks) {
      ValidExactlyWhen(a, run.response, |run.chunks|);
      GroundedExactlyWhen(p, a, run.response, |run.chunks|, j);
    }
  }

  /** After a search, no reply of either gate cites a number beyond all that was retrieved, cached or not. */
  lemma RepliesCiteWithin(p: Policy, a: Alphabet, run: AgentRun, j: Judging)
    requires run.tool.HybridSearch?
    ensures CitesWithin(a, Gate(p, a, run, j).0, |run.chunks|) && CitesWithin(a, TurnGate(p, a, run, j).0, |run.chunks|)
  {
    MessagesCiteNothing(a);
    ValidExactlyWhen(a, run.response, |run.chunks|);
    ValidExactlyWhen(a, CheckSources(p, a, run, j).0, |run.chunks|);
  }

  // ---- What the agent was shown ----

  /** The agent's searches of a turn, one after the other: what their results gather to. */
  function Gathered(searches: seq<seq<Retrieved>>): seq<Retrieved> {
    if searches == [] then [] else Gathered(searches[..|searches| - 1]) + searches[|searches| - 1]
  }

  /** Each search numbers its own results from 1. */
  predicate WasShown(searches: seq<seq<Retrieved>>, n: nat) { exists s :: s in searches && 1 <= n <= |s| }

  ghost predicate CitesShown(a: Alphabet, text: string, searches: seq<seq<Retrieved>>) {
    forall i, j :: IsCitation(a, text, i, j) ==> WasShown(searches, Value(a, text[i + 1..j]))
  }

  predicate AtMostOneFinds(searches: seq<seq<Retrieved>>) {
    forall i, j :: 0 <= i < j < |searches| ==> searches[i] == [] || searches[j] == []
  }

  lemma {:induction false} OneIsAll(searches: seq<seq<Retrieved>>, n: nat)
    requires AtMostOneFinds(searches) && 1 <= n <= |Gathered(searches)|
    ensures WasShown(searches, n)
  {
    var init, last := searches[..|searches| - 1], searches[|searches| - 1];
    assert last in searches;
    if |last| == 0 {
      OneIsAll(init, n);
      var s :| s in init && 1 <= n <= |s|;
      assert s in searches;
    } else {
      NoneIsNothing(init);
    }
  }

  lemma {:induction false} NoneIsNothing(searches: seq<seq<Retrieved>>)
    requires forall i :: 0 <= i < |searches| ==> searches[i] == []
    ensures Gathered(searches) == []
  {
    if searches != [] {
      NoneIsNothing(searches[..|searches| - 1]);
    }
  }

  lemma {:induction false} GatheredAtLeast(searches: seq<seq<Retrieved>>, i: nat)
    requires i < |searches|
    ensures |searches[i]| <= |Gathered(searches)|
    ensures forall j :: i < j < |searches| ==> |searches[i]| + |searches[j]| <= |Gathered(searches)|
  {
    var n := |searches| - 1;
    if i < n {
      GatheredAtLeast(searches[..n], i);
    }
  }

  /** The last number is none that was shown if two searches find something. */
  lemma LastIsNotShown(searches: seq<seq<Retrieved>>)
    requires !AtMostOneFinds(searches)
    ensures |Gathered(searches)| > 0 && !WasShown(searches, |Gathered(searches)|)
  {
    var i, j :| 0 <= i < j < |searches| && searches[i] != [] && searches[j] != [];
    forall k | 0 <= k < |searches| ensures |searches[k]| < |Gathered(searches)| {
      GatheredAtLeast(searches, i);
      GatheredAtLeast(searches, k);
      GatheredAtLeast(searches, j);
    }
  }

  function Marker(n: nat): string { "" + ("[" + Decimal(n) + "]") + "" }

  /** A lone marker is cited, and is all that is. */
  lemma MarkerAlone(a: Alphabet, n: nat)
    requires ReadsDigits(a)
    ensures Cites(a, Marker(n))
    ensures forall i, j :: IsCitation(a, Marker(n), i, j) ==> Value(a, Marker(n)[i + 1..j]) == n
  {
    var text, end := Marker(n), |Decimal(n)| + 1;
    ValueOfDecimal(a, n);
    DecimalParts(n);
    assert forall k :: 0 < k < end ==> text[k] == Decimal(n)[k - 1];
    assert IsCitation(a, text, 0, end);
    forall i, j | IsCitation(a, text, i, j) ensures Value(a, text[i + 1..j]) == n {
      assert i == 0 && j == end;
      assert text[1..end] == Decimal(n);
    }
  }

  const AGREEING := Judging(Some(Judgement(true, "", "")), None)

  /** With a judge that agrees, a lone marker in range is the reply of either gate. */
  lemma MarkerPasses(p: Policy, a: Alphabet, chunks: seq<Retrieved>, n: nat)
    requires ReadsDigits(a) && 1 <= n <= |chunks| && !IsLowConfidence(p, chunks)
    ensures var run := AgentRun(Marker(n), chunks, HybridSearch);
            Gate(p, a, run, AGREEING).0 == TurnGate(p, a, run, AGREEING).0 == Marker(n)
  {
    MarkerAlone(a, n);
    ValidExactlyWhen(a, Marker(n), |chunks|);
  }

  lemma RepliesCiteShown(p: Policy, a: Alphabet, searches: seq<seq<Retrieved>>, run: AgentRun, j: Judging)
    requires run.tool.HybridSearch? && run.chunks == Gathered(searches)
    requires AtMostOneFinds(searches) || IsLowConfidence(p, run.chunks)
    ensures CitesShown(a, Gate(p, a, run, j).0, searches) && CitesShown(a, TurnGate(p, a, run, j).0, searches)
  {
    RepliesCiteWithin(p, a, run, j);
    if IsLowConfidence(p, run.chunks) {
      MessagesCiteNothing(a);
    } else {
      WithinIsShown(a, Gate(p, a, run, j).0, searches);
      WithinIsShown(a, TurnGate(p, a, run, j).0, searches);
    }
  }

  lemma WithinIsShown(a: Alphabet, text: string, searches: seq<seq<Retrieved>>)
    requires AtMostOneFinds(searches) && CitesWithin(a, text, |Gathered(searches)|)
    ensures CitesShown(a, text, searches)
  {
    forall i, j | IsCitation(a, text, i, j) ensures WasShown(searches, Value(a, text[i + 1..j])) {
      OneIsAll(searches, Value(a, text[i + 1..j]));
    }
  }

  /** Whatever the agent answers to these searches and the judge says, either gate's reply cites what was shown. */
  ghost predicate NothingMadeUp(p: Policy, a: Alphabet, searches: seq<seq<Retrieved>>) {
    forall run: AgentRun, j: Judging :: run.tool.HybridSearch? && run.chunks == Gathered(searches) ==>
      CitesShown(a, Gate(p, a, run, j).0, searches) && CitesShown(a, TurnGate(p, a, run, j).0, searches)
  }

  /**
   The gates count all results of a turn together, so a number no search has shown can pass: none can
   exactly when at most one search found anything, or what they found is not confident.
   */
  lemma NothingMadeUpExactlyWhen(p: Policy, a: Alphabet, searches: seq<seq<Retrieved>>)
    requires ReadsDigits(a)
    ensures NothingMadeUp(p, a, searches) <==> AtMostOneFinds(searches) || IsLowConfidence(p, Gathered(searches))
  {
    if AtMostOneFinds(searches) || IsLowConfidence(p, Gathered(searches)) {
      forall run: AgentRun, j: Judging | run.tool.HybridSearch? && run.chunks == Gathered(searches)
        ensures CitesShown(a, Gate(p, a, run, j).0, searches) && CitesShown(a, TurnGate(p, a, run, j).0, searches)
      {
        RepliesCiteShown(p, a, searches, run, j);
      }
    } else {
      var n := |Gathered(searches)|;
      LastIsNotShown(searches);
      MarkerPasses(p, a, Gathered(searches), n);
      MarkerAlone(a, n);
      var run := AgentRun(Marker(n), Gathered(searches), HybridSearch);
      assert !CitesShown(a, Gate(p, a, run, AGREEING).0, searches);
    }
  }

  // ---- What the cache can hold ----

  /**
   Not every cached answer is free of abstaining phrases: only a corrected answer is checked for them.
   The judge can let one in exactly when the agent's own response, confident and correctly cited, has one.
   */
  lemma AbstentionCachedExactlyWhen(p: Policy, a: Alphabet, run: AgentRun)
    requires p.threshold > 0.0
    ensures (exists j :: Gate(p, a, run, j).1 && LooksLikeAbstention(a, Gate(p, a, run, j).0)) <==>
              && !IsLowConfidence(p, run.chunks) && run.tool.HybridSearch?
              && Cites(a, run.response) && CitesWithin(a, run.response, |run.chunks|)
              && LooksLikeAbstention(a, run.response)
  {
    ValidExactlyWhen(a, run.response, |run.chunks|);
    var agreeing := Judging(Some(Judgement(true, "", "")), None);
    assert Ground(p, a, run.response, |run.chunks|, agreeing.judge, agreeing.recheck).1 in {Grounded, Skipped};
    assert !IsLowConfidence(p, run.chunks) && run.tool.HybridSearch?
      && Validate(a, run.response, |run.chunks|).1 == Valid
      ==> Gate(p, a, run, agreeing) == (run.response, true);
  }

  // ---- What streaming lets in ----

  /**
   An answer the streaming handler caches is fit exactly when the agent itself retrieved chunks and
   with confidence, which its gate does not ask.
   */
  lemma StreamedIsFitExactlyWhen(p: Policy, a: Alphabet, run: AgentRun, precheck: seq<Retrieved>, j: Judging)
    requires p.threshold > 0.0 && StreamGate(p, a, run, precheck, j).1
    ensures Fit(p, a, StreamGate(p, a, run, precheck, j).0, run.chunks) <==>
              run.chunks != [] && !IsLowConfidence(p, run.chunks)
  {
    if run.chunks != [] {
      CheckedCites(p, a, run, j);
      MessagesCiteNothing(a);
    }
  }

  /** What it does keep to: no source that was not retrieved is cited, and if any was, some is. */
  ghost predicate Traceable(a: Alphabet, answer: string, n: nat) {
    CitesWithin(a, answer, n) && (n > 0 ==> Cites(a, answer))
  }

  lemma StreamedIsTraceable(p: Policy, a: Alphabet, run: AgentRun, precheck: seq<Retrieved>, j: Judging)
    requires StreamGate(p, a, run, precheck, j).1
    ensures Traceable(a, StreamGate(p, a, run, precheck, j).0, |run.chunks|)
  {
    if run.chunks != [] {
      CheckedCites(p, a, run, j);
    } else {
      ValidExactlyWhen(a, run.response, 0);
    }
  }

  /**
   An agent that retrieved nothing has its response cached as it is exactly when it cites nothing and
   reads like an answer.
   */
  lemma StreamedUncitedExactlyWhen(p: Policy, a: Alphabet, run: AgentRun, precheck: seq<Retrieved>, j: Judging)
    requires run.chunks == []
    ensures StreamGate(p, a, run, precheck, j).1 <==>
              && !IsLowConfidence(p, precheck) && !run.tool.OtherTool?
              && !Cites(a, run.response) && !LooksLikeAbstention(a, run.response) && IsSubstantive(a, run.response, 12)
    ensures StreamGate(p, a, run, precheck, j).1 ==> StreamGate(p, a, run, precheck, j).0 == run.response
  {
    ValidExactlyWhen(a, run.response, 0);
    NothingWithinNone(a, run.response);
  }

  lemma NothingWithinNone(a: Alphabet, text: string)
    ensures CitesWithin(a, text, 0) <==> !Cites(a, text)
  {
    if Cites(a, text) {
      var i, j :| IsCitation(a, text, i, j);
      assert !(1 <= Value(a, text[i + 1..j]) <= 0);
    }
  }

  // ---- Concrete turns ----

  const ASCII: Alphabet := Alphabet(
    (c: char) => c, (c: char) => 'a' <= c <= 'z',
    (c: char) => if '0' <= c <= '9' then c as int - '0' as int else -1)

  lemma {:induction false} LowerAscii(s: string)
    ensures Lower(ASCII, s) == s
  {
    if s != "" {
      LowerAscii(s[1..]);
    }
  }

  const PHRASE: string := "no information"

  /** With any policy whose threshold is positive, an abstaining answer that cites is cached as it is. */
  lemma AbstentionIsCached(p: Policy)
    requires p.threshold > 0.0
    ensures var run := AgentRun(PHRASE + "[1]", [Retrieved("chunk", Some(p.threshold))], HybridSearch);
            Gate(p, ASCII, run, AGREEING) == (run.response, true) && LooksLikeAbstention(ASCII, run.response)
  {
    var text := PHRASE + "[1]";
    LowerAscii(text);
    assert OccursAt(text, PHRASE, 0);
    FindsFirst(text, PHRASE, 0);
    assert MARKERS[4] == PHRASE;
    PhraseCites();
    ValidExactlyWhen(ASCII, text, 1);
  }

  lemma PhraseBrackets(i: int)
    requires 0 <= i < |PHRASE + "[1]"|
    ensures var text := PHRASE + "[1]";
            (text[i] == '[' <==> i == 14) && (text[i] == ']' <==> i == 16) && text[15..16] == "1"
  {
    var text := PHRASE + "[1]";
    assert |text| == 17 && text[15] == '1';
  }

  lemma PhraseCites()
    ensures Cites(ASCII, PHRASE + "[1]") && CitesWithin(ASCII, PHRASE + "[1]", 1)
  {
    var text := PHRASE + "[1]";
    assert Value(ASCII, "") == 0;
    PhraseBrackets(14);
    PhraseBrackets(16);
    assert text[15] == text[15..16][0] && text[15..16][..0] == "";
    assert IsCitation(ASCII, text, 14, 16);
    forall i, j | IsCitation(ASCII, text, i, j) ensures Value(ASCII, text[i + 1..j]) == 1 {
      PhraseBrackets(i);
      PhraseBrackets(j);
    }
  }

  /** Twelve words. */
  const CHATTER: string := Spaced(seq(12, _ => "a"))

  lemma {:induction false} SpacedAs(n: nat)
    ensures var s := Spaced(seq(n, _ => "a")); forall i :: 0 <= i < |s| ==> s[i] == 'a' || s[i] == ' '
  {
    if n > 0 {
      SpacedAs(n - 1);
      SpacedCons("a", seq(n - 1, _ => "a"));
      assert seq(n, _ => "a") == ["a"] + seq(n - 1, _ => "a");
    }
  }

  /** Every abstaining phrase has an `o`. */
  lemma MarkersHaveO(k: nat)
    requires k < |MARKERS|
    ensures 'o' in MARKERS[k]
  {
    assert MARKERS[0][1] == 'o' && MARKERS[1][1] == 'o' && MARKERS[2][1] == 'o' && MARKERS[3][1] == 'o';
    assert MARKERS[4][1] == 'o' && MARKERS[5][1] == 'o' && MARKERS[6][0] == 'o' && MARKERS[7][0] == 'o';
    assert MARKERS[8][4] == 'o' && MARKERS[9][6] == 'o' && MARKERS[10][1] == 'o';
  }

  lemma ChatterIsNoAbstention()
    ensures !LooksLikeAbstention(ASCII, CHATTER)
  {
    LowerAscii(CHATTER);
    SpacedAs(12);
    forall k | 0 <= k < |MARKERS| ensures Find(CHATTER, MARKERS[k], 0) == -1 {
      MarkersHaveO(k);
      FindsFirst(CHATTER, MARKERS[k], 0);
    }
  }

  /** An agent that retrieved nothing, and says this much, has it cached by the streaming handler. */
  lemma ChatterIsCached(p: Policy, precheck: seq<Retrieved>, j: Judging)
    requires !IsLowConfidence(p, precheck)
    ensures StreamGate(p, ASCII, AgentRun(CHATTER, [], NoTool), precheck, j) == (CHATTER, true)
  {
    SpacedAs(12);
    NoBracket(ASCII, CHATTER);
    ChatterIsNoAbstention();
    WordsOfSpaced(ASCII, seq(12, _ => "a"));
    StreamedUncitedExactlyWhen(p, ASCII, AgentRun(CHATTER, [], NoTool), precheck, j);
  }
}

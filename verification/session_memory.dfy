/**
 Session memory: a sliding window of turns for each session, in Redis lists or, if Redis does not
 answer the first time it is needed, in a dictionary of this process from then on.
 */
module SessionMemory {
  import opened Text

  datatype Message = Human(content: string) | Ai(content: string)

  // ---- The two ways of trimming ----

  /** `messages[-k:]` */
  function SliceFrom(messages: seq<Message>, k: int): seq<Message> {
    var n := |messages|;
    var start := -k;
    var lo := if start < 0 then (if start + n < 0 then 0 else start + n) else if start > n then n else start;
    messages[lo..]
  }

  /** The in-process trim. */
  function TrimList(window: int, messages: seq<Message>): seq<Message> {
    if |messages| > window * 2 then SliceFrom(messages, window * 2) else messages
  }

  /** `LTRIM key start stop`: negative positions count from the end, an empty range empties the list. */
  function LTrim(messages: seq<Message>, start: int, stop: int): seq<Message> {
    var n := |messages|;
    var lo := if start < 0 then (if start + n < 0 then 0 else start + n) else start;
    var hi := if stop < 0 then stop + n else if stop >= n then n - 1 else stop;
    if lo > hi || lo >= n then [] else messages[lo..hi + 1]
  }

  /** The last `window` turns of a log; all of it for 0, nothing for a negative window. */
  function Window(window: int, log: seq<Message>): seq<Message> {
    if window < 0 then []
    else if window == 0 || |log| <= 2 * window then log
    else log[|log| - 2 * window..]
  }

  /** Both trims agree on a list that ends with a turn just added, for every window. */
  lemma TrimsAgree(window: int, messages: seq<Message>)
    requires 2 <= |messages|
    ensures TrimList(window, messages) == LTrim(messages, -window * 2, -1)
  {
  }

  /** Trimming after every turn keeps the window over the whole log. */
  lemma TrimKeepsWindow(window: int, log: seq<Message>, u: Message, a: Message)
    ensures TrimList(window, Window(window, log) + [u, a]) == Window(window, log + [u, a])
  {
  }

  /** A log of whole turns, each a user's message and the reply. */
  ghost predicate Turns(log: seq<Message>) {
    |log| % 2 == 0 && forall i :: 0 <= i < |log| ==> (log[i].Human? <==> i % 2 == 0)
  }

  // ---- A session's turns ----

  datatype Exchange = Exchange(message: string, reply: string)

  function Transcript(turns: seq<Exchange>): seq<Message> {
    if turns == [] then []
    else
      var last := turns[|turns| - 1];
      Transcript(turns[..|turns| - 1]) + [Human(last.message), Ai(last.reply)]
  }

  lemma {:induction false} TranscriptAt(turns: seq<Exchange>, i: nat)
    requires i < |turns|
    ensures |Transcript(turns)| == 2 * |turns|
    ensures Transcript(turns)[2 * i] == Human(turns[i].message) && Transcript(turns)[2 * i + 1] == Ai(turns[i].reply)
  {
    var rest := turns[..|turns| - 1];
    if |rest| > 0 {
      TranscriptAt(rest, if i < |rest| then i else 0);
    }
  }

  function LastTurns(window: nat, turns: seq<Exchange>): seq<Exchange> {
    if |turns| <= window then turns else turns[|turns| - window..]
  }

  lemma {:induction false} TranscriptFrom(turns: seq<Exchange>, k: nat)
    requires k <= |turns|
    ensures |Transcript(turns)| == 2 * |turns| && Transcript(turns)[2 * k..] == Transcript(turns[k..])
  {
    if turns != [] {
      var n := |turns| - 1;
      if k == |turns| {
        TranscriptFrom(turns[..n], n);
      } else {
        TranscriptFrom(turns[..n], k);
        assert turns[k..][..n - k] == turns[..n][k..];
      }
    }
  }

  /** With a window of at least one turn, the history is the last turns' messages and replies, and no more. */
  lemma WindowIsLastTurns(window: int, turns: seq<Exchange>)
    requires window >= 1
    ensures Window(window, Transcript(turns)) == Transcript(LastTurns(window, turns))
  {
    TranscriptFrom(turns, if |turns| <= window then 0 else |turns| - window);
  }

  /** What the in-process backend keeps when the turns are added and trimmed one by one. */
  function KeptInProcess(window: int, turns: seq<Exchange>): seq<Message> {
    if turns == [] then []
    else
      var last := turns[|turns| - 1];
      TrimList(window, KeptInProcess(window, turns[..|turns| - 1]) + [Human(last.message)] + [Ai(last.reply)])
  }

  /** What the Redis backend keeps. */
  function KeptInRedis(window: int, turns: seq<Exchange>): seq<Message> {
    if turns == [] then []
    else
      var last := turns[|turns| - 1];
      LTrim(KeptInRedis(window, turns[..|turns| - 1]) + [Human(last.message)] + [Ai(last.reply)], -window * 2, -1)
  }

  /** Both keep the window over the whole log, for every window. */
  lemma {:induction false} BackendsAgree(window: int, turns: seq<Exchange>)
    ensures KeptInProcess(window, turns) == Window(window, Transcript(turns)) == KeptInRedis(window, turns)
  {
    if turns != [] {
      var init, last := turns[..|turns| - 1], turns[|turns| - 1];
      BackendsAgree(window, init);
      var kept := Window(window, Transcript(init));
      TwoAppends(kept, Human(last.message), Ai(last.reply));
      TrimsAgree(window, kept + [Human(last.message), Ai(last.reply)]);
      TrimKeepsWindow(window, Transcript(init), Human(last.message), Ai(last.reply));
    }
  }

  /**
   The window is not a bound in every configuration: with 0 both ways of trimming keep everything.
   However many turns are added, either keeps at most `2 * window` messages (none for a negative
   window) exactly when the window is not 0.
   */
  lemma WindowBoundsExactlyWhen(window: int)
    ensures (forall turns :: |KeptInProcess(window, turns)| <= if window < 0 then 0 else 2 * window) <==> window != 0
    ensures (forall turns :: |KeptInRedis(window, turns)| <= if window < 0 then 0 else 2 * window) <==> window != 0
  {
    if window == 0 {
      var once := [Exchange("", "")];
      BackendsAgree(0, once);
      TranscriptAt(once, 0);
      assert |KeptInProcess(0, once)| > 0 && |KeptInRedis(0, once)| > 0;
    } else {
      forall turns ensures |Window(window, Transcript(turns))| <= (if window < 0 then 0 else 2 * window)
        && KeptInProcess(window, turns) == Window(window, Transcript(turns)) == KeptInRedis(window, turns)
      {
        BackendsAgree(window, turns);
      }
    }
  }

  /** A window over whole turns is whole turns: it begins with a user's message. */
  lemma WindowAligned(window: int, log: seq<Message>)
    requires Turns(log)
    ensures Turns(Window(window, log))
  {
  }

  function Line(m: Message): string { (if m.Human? then "User" else "Assistant") + ": " + m.content }

  function Lines(messages: seq<Message>): seq<string> {
    seq(|messages|, i requires 0 <= i < |messages| => Line(messages[i]))
  }

  function ContextString(messages: seq<Message>): string {
    Join("\n", Lines(messages))
  }

  lemma RendersMessage(messages: seq<Message>, m: Message, text: string)
    requires text == (if m.Human? then "User: " else "Assistant: ") + m.content
    ensures ContextString(messages + [m]) == if messages == [] then text else ContextString(messages) + "\n" + text
  {
    assert "User" + ": " == "User: " && "Assistant" + ": " == "Assistant: ";
    assert Line(m) == text;
    assert Lines(messages + [m]) == Lines(messages) + [text];
    JoinSnoc("\n", Lines(messages), text);
  }

  /** A turn adds two lines to the rendered history: who asked what, and who answered what. */
  lemma RendersTurn(turns: seq<Exchange>, x: Exchange)
    ensures ContextString(Transcript(turns + [x])) ==
              (if turns == [] then "" else ContextString(Transcript(turns)) + "\n")
              + ("User: " + x.message) + "\n" + ("Assistant: " + x.reply)
    ensures ContextString([]) == ""
  {
    var before := Transcript(turns);
    assert (turns + [x])[..|turns|] == turns;
    TwoAppends(before, Human(x.message), Ai(x.reply));
    RendersMessage(before, Human(x.message), "User: " + x.message);
    RendersMessage(before + [Human(x.message)], Ai(x.reply), "Assistant: " + x.reply);
    if turns != [] {
      TranscriptAt(turns, 0);
    }
  }

  /** A session that is not there has an empty history. */
  function Of(m: map<string, seq<Message>>, session: string): seq<Message> {
    if session in m then m[session] else []
  }

  ghost predicate Windows(window: int, log: map<string, seq<Message>>, store: map<string, seq<Message>>) {
    forall s :: Of(store, s) == Window(window, Of(log, s))
  }

  ghost predicate AllTurns(log: map<string, seq<Message>>) {
    forall s :: Turns(Of(log, s))
  }

  lemma TurnsMore(log: map<string, seq<Message>>, s: string, u: string, a: string)
    requires AllTurns(log)
    ensures AllTurns(log[s := Of(log, s) + [Human(u), Ai(a)]])
  {
    var log' := log[s := Of(log, s) + [Human(u), Ai(a)]];
    forall t ensures Turns(Of(log', t)) {
      assert Turns(Of(log, t)) && Turns(Of(log, s));
    }
  }

  /** Trimming one session's list after a turn keeps all the windows. */
  lemma WindowsMore(
    window: int, log: map<string, seq<Message>>, store: map<string, seq<Message>>, s: string, u: Message, a: Message)
    requires Windows(window, log, store)
    ensures Windows(window, log[s := Of(log, s) + [u, a]], store[s := TrimList(window, Of(store, s) + [u, a])])
  {
    TrimKeepsWindow(window, Of(log, s), u, a);
    var log', store' := log[s := Of(log, s) + [u, a]], store[s := TrimList(window, Of(store, s) + [u, a])];
    forall t ensures Of(store', t) == Window(window, Of(log', t)) {
      assert Of(store, t) == Window(window, Of(log, t));
    }
  }

  lemma TwoAppends(messages: seq<Message>, u: Message, a: Message)
    ensures messages + [u] + [a] == messages + [u, a]
  {
  }

  datatype Backend = RedisBackend | MemoryBackend

  class Manager {
    const windowSize: int
    var backend: Backend
    var redisChecked: bool
    /** In-process histories. */
    var histories: map<string, seq<Message>>
    /** The lists in Redis; a list that is not there is empty. */
    var lists: map<string, seq<Message>>
    /** Every turn of a session since it was last cleared or expired. */
    ghost var log: map<string, seq<Message>>

    /** The store of the backend in use holds the window over each session's log. */
    ghost predicate Valid()
      reads this
    {
      && AllTurns(log)
      && Windows(windowSize, log, if backend.RedisBackend? then lists else histories)
      && (backend.RedisBackend? ==> histories == map[])
      && (backend.RedisBackend? && !redisChecked ==> log == map[])
    }

    constructor (windowSize: int, backend: Backend)
      ensures Valid() && this.windowSize == windowSize && log == map[]
    {
      this.windowSize, this.backend, redisChecked := windowSize, backend, false;
      histories, lists, log := map[], map[], map[];
    }

    /** Whether Redis is in use; `ping` is the answer to the first ping, a failed one is never retried. */
    method UseRedis(ping: bool) returns (redis: bool)
      requires Valid()
      modifies `backend, `redisChecked
      ensures Valid() && redis == backend.RedisBackend? && (redis ==> redisChecked)
      ensures old(backend.MemoryBackend?) || old(redisChecked) ==> backend == old(backend)
    {
      if backend.MemoryBackend? {
        return false;
      }
      if !redisChecked {
        redisChecked := true;
        if !ping {
          backend := MemoryBackend;
        }
      }
      return backend.RedisBackend?;
    }

    method CreateSession(session: string, ping: bool)
      requires Valid()
      modifies this
      ensures Valid() && log == old(log)
    {
      var redis := UseRedis(ping);
      if !redis && session !in histories {
        histories := histories[session := []];
      }
    }

    method AddTurn(session: string, user: string, ai: string, ping: bool)
      requires Valid()
      modifies this
      ensures Valid() && log == old(log)[session := Of(old(log), session) + [Human(user), Ai(ai)]]
    {
      var redis := UseRedis(ping);
      TurnsMore(log, session, user, ai);
      if redis {
        WindowsMore(windowSize, log, lists, session, Human(user), Ai(ai));
        var list := Of(lists, session) + [Human(user)] + [Ai(ai)];
        TwoAppends(Of(lists, session), Human(user), Ai(ai));
        TrimsAgree(windowSize, list);
        lists := lists[session := LTrim(list, -windowSize * 2, -1)];
      } else {
        WindowsMore(windowSize, log, histories, session, Human(user), Ai(ai));
        var history := Of(histories, session) + [Human(user)] + [Ai(ai)];
        TwoAppends(Of(histories, session), Human(user), Ai(ai));
        histories := histories[session := TrimList(windowSize, history)];
      }
      log := log[session := Of(log, session) + [Human(user), Ai(ai)]];
    }

    /** Either backend returns the window over the session's log. */
    method GetMessages(session: string, ping: bool) returns (messages: seq<Message>)
      requires Valid()
      modifies this
      ensures Valid() && log == old(log)
      ensures messages == Window(windowSize, Of(log, session)) && Turns(messages)
    {
      WindowAligned(windowSize, Of(log, session));
      var redis := UseRedis(ping);
      if redis {
        return Of(lists, session);
      }
      if session !in histories {
        histories := histories[session := []];
      }
      return histories[session];
    }

    method GetContextString(session: string, ping: bool) returns (context: string)
      requires Valid()
      modifies this
      ensures Valid() && log == old(log) && context == ContextString(Window(windowSize, Of(log, session)))
    {
      var messages := GetMessages(session, ping);
      context := ContextString(messages);
    }

    /** The time to live of a session's list in Redis runs out; the histories of the process have none. */
    method Expire(session: string)
      requires Valid()
      modifies this
      ensures Valid() && backend == old(backend)
      ensures log == if backend.RedisBackend? then old(log) - {session} else old(log)
    {
      if backend.RedisBackend? {
        lists := lists - {session};
        log := log - {session};
      }
    }

    method ClearSession(session: string, ping: bool)
      requires Valid()
      modifies this
      ensures Valid() && log == old(log) - {session}
    {
      var redis := UseRedis(ping);
      if redis {
        lists := lists - {session};
      } else {
        histories := histories - {session};
      }
      log := log - {session};
    }
  }
}

/**
 Embedding with retries. The API's answer depends on the number of the call and on the texts sent,
 so any pattern of failures and any number of vectors in an answer is covered.
 */
module Embedder {
  import opened Basics
  import opened Text

  type Vector = seq<real>

  datatype Response = Vectors(vectors: seq<Vector>) | RateLimited | ApiError | OtherError

  type Api = (nat, seq<string>) -> Response

  datatype Outcome<T> = Returned(value: T) | ReturnedNone | Raised

  datatype Chunk = Chunk(content: string, index: nat, startChar: nat, endChar: nat, tokenCount: nat)
  datatype Embedded = Embedded(chunk: Chunk, vector: Vector)

  function Pow2(n: nat): nat { if n == 0 then 1 else 2 * Pow2(n - 1) }

  /** The most one call sleeps: every attempt but the last rate-limited. */
  function MaxSleep(delay: real, retries: int): real {
    if retries <= 0 then 0.0 else delay * (Pow2(retries - 1) - 1) as real
  }

  lemma {:induction false} Pow2Positive(n: nat)
    ensures 1 <= Pow2(n)
  {
    if n > 0 {
      Pow2Positive(n - 1);
    }
  }

  class Generator {
    const api: Api
    /** The longest text sent, in characters; longer ones are cut. */
    const limit: nat
    const batchSize: int
    const maxRetries: int
    const retryDelay: real
    const dimensions: nat
    var calls: nat
    var slept: real
    /** Number of vectors received and number of texts sent, for each answered batch call. */
    ghost var answered: seq<(nat, nat)>

    constructor (api: Api, limit: nat, batchSize: int, maxRetries: int, retryDelay: real, dimensions: nat)
      ensures this.api == api && this.limit == limit && this.batchSize == batchSize && this.maxRetries == maxRetries
      ensures this.retryDelay == retryDelay && this.dimensions == dimensions
      ensures calls == 0 && slept == 0.0 && answered == []
    {
      this.api, this.limit, this.batchSize, this.maxRetries := api, limit, batchSize, maxRetries;
      this.retryDelay, this.dimensions := retryDelay, dimensions;
      calls, slept, answered := 0, 0.0, [];
    }

    function Zero(): Vector { seq(dimensions, _ => 0.0) }

    function Attempts(): nat { if maxRetries < 0 then 0 else maxRetries }

    function Clip(text: string): string { if |text| > limit then text[..limit] else text }

    /** What a batch call sends: blank texts emptied, long ones cut. */
    function Processed(texts: seq<string>): seq<string> {
      seq(|texts|, i requires 0 <= i < |texts| => if Strip(texts[i]) == "" then "" else Clip(texts[i]))
    }

    /** The `k`-th call, for one text, answers with a vector to take. */
    predicate Answers(k: nat, text: string, v: Vector) {
      var response := api(k, [Clip(text)]);
      response.Vectors? && response.vectors != [] && response.vectors[0] == v
    }

    predicate Usable(k: nat, text: string) {
      var response := api(k, [Clip(text)]);
      response.Vectors? && response.vectors != []
    }

    /** The `k`-th call, for a batch, answers with these vectors. */
    predicate AnswersBatch(k: int, texts: seq<string>, vs: seq<Vector>) {
      0 <= k && api(k, Processed(texts)) == Vectors(vs)
    }

    predicate IsRateLimited(k: int, texts: seq<string>) { 0 <= k && api(k, Processed(texts)).RateLimited? }

    /** What is slept after `n` calls for these texts in vain: twice as long each time if told to slow down. */
    function Backoff(start: nat, texts: seq<string>, n: nat): real {
      if n == 0 then 0.0
      else
        Backoff(start, texts, n - 1)
        + if api(start + n - 1, texts).RateLimited? then retryDelay * Pow2(n - 1) as real else retryDelay
    }

    lemma {:induction false} BackoffGrows(start: nat, texts: seq<string>, n: nat)
      requires 0.0 <= retryDelay && n < maxRetries
      ensures 0.0 <= Backoff(start, texts, n) <= retryDelay * (Pow2(n) - 1) as real
    {
      if n > 0 {
        BackoffGrows(start, texts, n - 1);
        SleepsAddUp(retryDelay, n - 1, maxRetries);
      }
    }

    lemma SleepsBounded(start: nat, texts: seq<string>, n: nat)
      requires 0.0 <= retryDelay && n < maxRetries
      ensures 0.0 <= Backoff(start, texts, n) <= MaxSleep(retryDelay, maxRetries)
    {
      BackoffGrows(start, texts, n);
      SleepsAddUp(retryDelay, n, maxRetries);
    }

    /** A whole round of attempts for one text, from call `start` on, without a vector to take. */
    ghost predicate SingleFails(start: nat, text: string) {
      forall k :: start <= k < start + Attempts() ==> !Usable(k, text)
    }

    /** A whole round of attempts for a batch without an answer. */
    ghost predicate BatchFails(start: nat, texts: seq<string>) {
      forall k :: start <= k < start + Attempts() ==> !api(k, Processed(texts)).Vectors?
    }

    /** The vector for a text sent alone: from an answer to it, or zero if it is blank or a whole round failed. */
    ghost predicate SingleSourced(text: string, v: Vector, from: nat, to: nat) {
      || (exists k :: from <= k < to && Answers(k, text, v))
      || (v == Zero() && Strip(text) == "")
      || (v == Zero() && exists start :: from <= start && start + Attempts() <= to && SingleFails(start, text))
    }

    /**
     The vector for the `i`-th text of a batch: its own from an answer to the batch; or, if a whole
     round for the batch failed, zero after a rate limit and else as for a text sent alone.
     */
    ghost predicate Sourced(texts: seq<string>, i: int, v: Vector, from: nat, to: nat)
      requires 0 <= i < |texts|
    {
      || (exists k, vs :: from <= k < to && AnswersBatch(k, texts, vs) && i < |vs| && v == vs[i])
      || (exists start :: from <= start && start + Attempts() <= to && BatchFails(start, texts)
                          && if maxRetries <= 0 || IsRateLimited(start + Attempts() - 1, texts) then v == Zero()
                             else SingleSourced(Processed(texts)[i], v, from, to))
    }

    /** The vector of every chunk that came back is one for its text in its own batch. */
    ghost predicate AllSourced(chunks: seq<Chunk>, embedded: seq<Embedded>, indices: seq<nat>, from: nat, to: nat)
      requires 1 <= batchSize
    {
      |indices| == |embedded| && forall j :: 0 <= j < |indices| ==>
        ChunkSourced(chunks, indices[j], embedded[j].vector, from, to)
    }

    ghost predicate ChunkSourced(chunks: seq<Chunk>, i: nat, v: Vector, from: nat, to: nat)
      requires 1 <= batchSize
    {
      i < |chunks| && Sourced(BatchTexts(chunks, i - i % batchSize), i % batchSize, v, from, to)
    }

    /** The texts of the batch that begins at chunk `lo`. */
    function BatchTexts(chunks: seq<Chunk>, lo: nat): seq<string>
      requires 1 <= batchSize && lo < |chunks|
    {
      Contents(chunks[lo..Min(lo + batchSize, |chunks|)])
    }

    // ---- An API with one vector per text ----

    /** Every answer has a vector for every text. */
    ghost predicate AnswersAll() {
      forall k: nat, texts: seq<string> :: api(k, texts).Vectors? ==> |texts| <= |api(k, texts).vectors|
    }

    /** Every answer has, for each text, the vector that `v` gives it. */
    ghost predicate AnswersWith(v: string -> Vector) {
      forall k: nat, texts: seq<string> :: api(k, texts).Vectors? ==>
        && |api(k, texts).vectors| == |texts|
        && forall i :: 0 <= i < |texts| ==> api(k, texts).vectors[i] == v(texts[i])
    }

    /** What stands for a text: the empty one if it is blank, and its first characters if it is too long. */
    predicate StandsFor(sent: string, text: string) {
      if Strip(text) == "" then sent == "" else if |text| <= limit then sent == text else sent == text[..limit]
    }

    predicate IsZero(vector: Vector) { |vector| == dimensions && forall i :: 0 <= i < dimensions ==> vector[i] == 0.0 }

    /** A whole round of calls for texts among which is this one, none of them answered. */
    ghost predicate RoundFails(sent: string, from: nat, to: nat) {
      exists start: nat, texts: seq<string> ::
        from <= start && start + maxRetries <= to && NoneAnswers(start, texts, sent)
    }

    ghost predicate NoneAnswers(start: nat, texts: seq<string>, sent: string) {
      sent in texts && forall k: nat :: start <= k < start + maxRetries ==> !api(k, texts).Vectors?
    }

    /** The text's own vector, or zero after a whole failed round. */
    ghost predicate OwnOrZero(text: string, vector: Vector, v: string -> Vector, from: nat, to: nat) {
      exists sent :: StandsFor(sent, text) && (vector == v(sent) || (IsZero(vector) && RoundFails(sent, from, to)))
    }

    lemma SingleIsOwn(sent: string, text: string, vector: Vector, v: string -> Vector, from: nat, to: nat)
      requires AnswersWith(v) && StandsFor(sent, text) && SingleSourced(sent, vector, from, to)
      requires Strip(sent) == "" ==> RoundFails(sent, from, to)
      ensures OwnOrZero(text, vector, v, from, to)
    {
      assert Clip(sent) == sent;
      if k :| from <= k < to && Answers(k, sent, vector) {
        assert [sent][0] == sent;
        assert vector == v(sent);
      } else if Strip(sent) != "" {
        var start :| from <= start && start + Attempts() <= to && SingleFails(start, sent);
        forall k | start <= k < start + Attempts() ensures !api(k, [sent]).Vectors? {
          assert !Usable(k, sent);
        }
        assert NoneAnswers(start, [sent], sent);
      }
    }

    lemma SourcedIsOwn(
      texts: seq<string>, i: nat, vector: Vector, v: string -> Vector, from: nat, to: nat)
      requires AnswersWith(v) && i < |texts| && Sourced(texts, i, vector, from, to)
      ensures OwnOrZero(texts[i], vector, v, from, to)
    {
      var sent := Processed(texts)[i];
      assert StandsFor(sent, texts[i]);
      if k, vs :| from <= k < to && AnswersBatch(k, texts, vs) && i < |vs| && vector == vs[i] {
        assert vector == v(sent);
      } else {
        var start :| from <= start && start + Attempts() <= to && BatchFails(start, texts)
          && if maxRetries <= 0 || IsRateLimited(start + Attempts() - 1, texts) then vector == Zero()
             else SingleSourced(Processed(texts)[i], vector, from, to);
        assert NoneAnswers(start, Processed(texts), sent);
        if !(maxRetries <= 0 || IsRateLimited(start + Attempts() - 1, texts)) {
          SingleIsOwn(sent, texts[i], vector, v, from, to);
        }
      }
    }

    /** With such an API, every chunk that comes back has its own vector, or zero after a failed round. */
    ghost predicate AllOwn(embedded: seq<Embedded>, v: string -> Vector, from: nat, to: nat) {
      forall j :: 0 <= j < |embedded| ==> OwnOrZero(embedded[j].chunk.content, embedded[j].vector, v, from, to)
    }

    lemma ChunksHaveOwn(
      chunks: seq<Chunk>, embedded: seq<Embedded>, indices: seq<nat>, v: string -> Vector, from: nat, to: nat)
      requires 1 <= batchSize && AnswersWith(v)
      requires Picks(chunks, embedded, indices) && AllSourced(chunks, embedded, indices, from, to)
      ensures AllOwn(embedded, v, from, to)
    {
      forall j | 0 <= j < |embedded|
        ensures OwnOrZero(embedded[j].chunk.content, embedded[j].vector, v, from, to)
      {
        ChunkHasOwn(chunks, indices[j], embedded[j].vector, v, from, to);
      }
    }

    lemma ChunkHasOwn(chunks: seq<Chunk>, i: nat, vector: Vector, v: string -> Vector, from: nat, to: nat)
      requires 1 <= batchSize && i < |chunks| && AnswersWith(v) && ChunkSourced(chunks, i, vector, from, to)
      ensures OwnOrZero(chunks[i].content, vector, v, from, to)
    {
      RemainderBounds(i, batchSize);
      OwnInBatch(chunks, i, i % batchSize, vector, v, from, to);
    }

    lemma OwnInBatch(chunks: seq<Chunk>, i: nat, k: nat, vector: Vector, v: string -> Vector, from: nat, to: nat)
      requires 1 <= batchSize && i < |chunks| && k <= i && k < batchSize && AnswersWith(v)
      requires k < |BatchTexts(chunks, i - k)| && Sourced(BatchTexts(chunks, i - k), k, vector, from, to)
      ensures OwnOrZero(chunks[i].content, vector, v, from, to)
    {
      PlaceInBatch(chunks, i, k);
      SourcedIsOwn(BatchTexts(chunks, i - k), k, vector, v, from, to);
    }

    lemma PlaceInBatch(chunks: seq<Chunk>, i: nat, k: nat)
      requires 1 <= batchSize && i < |chunks| && k <= i && k < batchSize
      ensures k < |BatchTexts(chunks, i - k)| && BatchTexts(chunks, i - k)[k] == chunks[i].content
    {
    }

    lemma LaterSourced(chunks: seq<Chunk>, i: nat, v: Vector, from: nat, to: nat, to': nat)
      requires 1 <= batchSize && to <= to' && ChunkSourced(chunks, i, v, from, to)
      ensures ChunkSourced(chunks, i, v, from, to')
    {
    }

    lemma EarlierSourced(texts: seq<string>, i: nat, v: Vector, from: nat, from': nat, to: nat)
      requires from' <= from && i < |texts| && Sourced(texts, i, v, from, to)
      ensures Sourced(texts, i, v, from', to)
    {
    }

    lemma InBatch(n: nat, k: nat)
      requires 1 <= batchSize && k < batchSize
      ensures (n * batchSize + k) % batchSize == k
    {
      Remainder(n * batchSize + k, n, k, batchSize);
    }

    lemma SourcedMore(
      chunks: seq<Chunk>, embedded: seq<Embedded>, indices: seq<nat>, from: nat, mid: nat, to: nat, n: nat,
        batch: seq<Embedded>)
      requires 1 <= batchSize && from <= mid <= to && AllSourced(chunks, embedded, indices, from, mid)
      requires n * batchSize < |chunks| && |batch| <= Min(n * batchSize + batchSize, |chunks|) - n * batchSize
      requires forall k :: 0 <= k < |batch| ==> Sourced(BatchTexts(chunks, n * batchSize), k, batch[k].vector, mid, to)
      ensures AllSourced(chunks, embedded + batch, indices + Positions(n * batchSize, |batch|), from, to)
    {
      var all, places := embedded + batch, indices + Positions(n * batchSize, |batch|);
      forall j | 0 <= j < |places| ensures ChunkSourced(chunks, places[j], all[j].vector, from, to) {
        if j < |indices| {
          LaterSourced(chunks, indices[j], embedded[j].vector, from, mid, to);
        } else {
          var k := j - |indices|;
          InBatch(n, k);
          EarlierSourced(BatchTexts(chunks, n * batchSize), k, batch[k].vector, mid, from, to);
        }
      }
    }

    /**
     One text: the first usable answer within the allowed attempts, else the last error raised; every
     call in vain but the last is slept after, at most `retryDelay * (2^(maxRetries-1) - 1)` in all.
     */
    method GenerateEmbedding(text: string) returns (r: Outcome<Vector>)
      requires 0.0 <= retryDelay
      modifies `calls, `slept
      ensures old(calls) <= calls <= old(calls) + Attempts()
      ensures old(slept) <= slept <= old(slept) + MaxSleep(retryDelay, maxRetries)
      ensures maxRetries > 0 ==>
                calls > old(calls) && slept == old(slept) + Backoff(old(calls), [Clip(text)], calls - old(calls) - 1)
      ensures r.ReturnedNone? <==> maxRetries <= 0
      ensures r.Returned? ==>
                && old(calls) < calls && Answers(calls - 1, text, r.value)
                && forall k :: old(calls) <= k < calls - 1 ==> !Usable(k, text)
      ensures r.Raised? ==> calls == old(calls) + maxRetries && forall k :: old(calls) <= k < calls ==> !Usable(k, text)
    {
      var attempt := 0;
      while attempt < maxRetries
        invariant 0 <= attempt && (attempt == 0 || attempt < maxRetries)
        invariant calls == old(calls) + attempt && forall k :: old(calls) <= k < calls ==> !Usable(k, text)
        invariant slept == old(slept) + Backoff(old(calls), [Clip(text)], attempt)
      {
        SleepsBounded(old(calls), [Clip(text)], attempt);
        var response := api(calls, [Clip(text)]);
        calls := calls + 1;
        if response.Vectors? && response.vectors != [] {
          return Returned(response.vectors[0]);
        }
        if attempt == maxRetries - 1 {
          return Raised;
        }
        slept := slept + if response.RateLimited? then retryDelay * Pow2(attempt) as real else retryDelay;
        attempt := attempt + 1;
      }
      return ReturnedNone;
    }

    /** One by one, a zero vector standing in for a blank text or an error: as many vectors as texts. */
    method ProcessIndividually(texts: seq<string>) returns (vectors: seq<Vector>)
      requires 0.0 <= retryDelay && 1 <= maxRetries
      modifies `calls, `slept
      ensures |vectors| == |texts|
      ensures old(calls) <= calls <= old(calls) + |texts| * maxRetries
      ensures forall i :: 0 <= i < |texts| ==> SingleSourced(texts[i], vectors[i], old(calls), calls)
    {
      vectors := [];
      for i := 0 to |texts|
        invariant |vectors| == i && old(calls) <= calls <= old(calls) + i * maxRetries
        invariant forall j :: 0 <= j < i ==> SingleSourced(texts[j], vectors[j], old(calls), calls)
      {
        ProductStep(i, maxRetries);
        if Strip(texts[i]) == "" {
          vectors := vectors + [Zero()];
          continue;
        }
        ghost var start := calls;
        var r := GenerateEmbedding(texts[i]);
        assert r.Raised? ==> SingleFails(start, texts[i]);
        if r.Returned? {
          vectors := vectors + [r.value];
          slept := slept + 0.1;
        } else {
          vectors := vectors + [Zero()];
        }
      }
    }

    /**
     A batch: the first answer, however many vectors it has. Without one, the last error decides: a
     rate limit is raised, anything else sends the texts one by one.
     */
    method GenerateBatch(texts: seq<string>) returns (r: Outcome<seq<Vector>>)
      requires 0.0 <= retryDelay
      modifies `calls, `slept, `answered
      ensures old(calls) <= calls <= old(calls) + Attempts() + |texts| * Attempts()
      ensures r.ReturnedNone? <==> maxRetries <= 0
      ensures answered == old(answered) ==> old(calls) + Attempts() <= calls && BatchFails(old(calls), texts)
      ensures r.Raised? ==> answered == old(answered) && IsRateLimited(old(calls) + maxRetries - 1, texts)
      ensures r.Returned? && answered == old(answered) ==>
                && |r.value| == |texts| && !IsRateLimited(old(calls) + maxRetries - 1, texts)
                && forall i :: 0 <= i < |texts| ==> SingleSourced(Processed(texts)[i], r.value[i], old(calls), calls)
      ensures answered != old(answered) ==>
                && r.Returned? && answered == old(answered) + [(|r.value|, |texts|)]
                && old(calls) < calls && AnswersBatch(calls - 1, texts, r.value)
      ensures maxRetries > 0 && (answered != old(answered) || r.Raised?) ==>
                && calls > old(calls)
                && slept == old(slept) + Backoff(old(calls), Processed(texts), calls - old(calls) - 1)
      ensures AnswersAll() && r.Returned? ==> |texts| <= |r.value|
    {
      var attempt := 0;
      while attempt < maxRetries
        invariant 0 <= attempt && (attempt == 0 || attempt < maxRetries)
        invariant calls == old(calls) + attempt && answered == old(answered)
        invariant slept == old(slept) + Backoff(old(calls), Processed(texts), attempt)
        invariant forall k :: old(calls) <= k < calls ==> !api(k, Processed(texts)).Vectors?
      {
        ProductNonNegative(|texts|, maxRetries);
        var response := api(calls, Processed(texts));
        calls := calls + 1;
        if response.Vectors? {
          answered := answered + [(|response.vectors|, |texts|)];
          return Returned(response.vectors);
        }
        if attempt == maxRetries - 1 {
          if response.RateLimited? {
            return Raised;
          }
          var vectors := ProcessIndividually(Processed(texts));
          return Returned(vectors);
        }
        slept := slept + if response.RateLimited? then retryDelay * Pow2(attempt) as real else retryDelay;
        attempt := attempt + 1;
      }
      return ReturnedNone;
    }

    /**
     One batch: `zip` stops at the shorter of chunks and vectors; a raised or missing result gives
     every chunk a zero vector.
     */
    method EmbedBatch(batch: seq<Chunk>) returns (embedded: seq<Embedded>)
      requires 0.0 <= retryDelay
      modifies `calls, `slept, `answered
      ensures old(calls) <= calls <= old(calls) + Attempts() + |batch| * Attempts()
      ensures |embedded| <= |batch| && forall k :: 0 <= k < |embedded| ==> embedded[k].chunk == batch[k]
      ensures forall k :: 0 <= k < |embedded| ==> Sourced(Contents(batch), k, embedded[k].vector, old(calls), calls)
      ensures old(answered) <= answered
      ensures |embedded| == |batch| <==> Enough(answered[|old(answered)|..])
      ensures AnswersAll() ==> |embedded| == |batch|
    {
      var outcome := GenerateBatch(Contents(batch));
      if outcome.Returned? {
        var n := Min(|batch|, |outcome.value|);
        embedded := seq(n, k requires 0 <= k < n => Embedded(batch[k], outcome.value[k]));
      } else {
        embedded := seq(|batch|, k requires 0 <= k < |batch| => Embedded(batch[k], Zero()));
      }
      ghost var latest := answered[|old(answered)|..];
      assert answered == old(answered) ==> latest == [];
      if answered != old(answered) {
        assert latest == [(|outcome.value|, |batch|)];
        EnoughOne((|outcome.value|, |batch|));
      }
    }

    /**
     All the chunks. What comes back is in order, with content and positions intact and a vector
     each; nothing is lost exactly when every answered batch call returned at least one vector per
     text. The number of API calls is bounded for any pattern of failures.
     */
    method EmbedChunks(chunks: seq<Chunk>) returns (r: Outcome<seq<Embedded>>, ghost indices: seq<nat>)
      requires 0.0 <= retryDelay
      modifies `calls, `slept, `answered
      ensures r.Raised? <==> batchSize == 0 && chunks != []
      ensures chunks == [] || batchSize < 0 ==> r == Returned([])
      ensures 1 <= batchSize ==>
                && r.Returned? && Picks(chunks, r.value, indices) && old(calls) <= calls
                && AllSourced(chunks, r.value, indices, old(calls), calls)
                && calls <= old(calls) + CallBound(|chunks|, batchSize, Attempts())
                && old(answered) <= answered
                && (|r.value| == |chunks| <==> Enough(answered[|old(answered)|..]))
                && (AnswersAll() ==> |r.value| == |chunks|)
                && forall v :: AnswersWith(v) ==> AllOwn(r.value, v, old(calls), calls)
    {
      if chunks == [] {
        return Returned([]), [];
      }
      if batchSize == 0 {
        return Raised, [];
      }
      if batchSize < 0 {
        return Returned([]), [];
      }
      var embedded, i, batches, places := EmbedBatches(chunks);
      BatchCount(|chunks|, batches, batchSize, Attempts());
      forall v | AnswersWith(v) ensures AllOwn(embedded, v, old(calls), calls) {
        ChunksHaveOwn(chunks, embedded, places, v, old(calls), calls);
      }
      return Returned(embedded), places;
    }

    /** The state of the loop below at chunk `i`, between calls `from` and `to`. */
    ghost predicate Done(
      chunks: seq<Chunk>, i: nat, batches: nat, embedded: seq<Embedded>, indices: seq<nat>, from: nat, to: nat,
      latest: seq<(nat, nat)>)
      requires 1 <= batchSize
    {
      && from <= to && AllSourced(chunks, embedded, indices, from, to)
      && (AnswersAll() ==> |embedded| == Min(i, |chunks|))
      && Progress(chunks, i, batches, embedded, indices, to - from, latest, batchSize, Attempts())
    }

    lemma DoneNext(
      chunks: seq<Chunk>, i: nat, batches: nat, embedded: seq<Embedded>, indices: seq<nat>, from: nat, mid: nat,
      to: nat, before: seq<(nat, nat)>, latest: seq<(nat, nat)>, part: seq<Chunk>, batch: seq<Embedded>)
      requires 1 <= batchSize && i < |chunks| && mid <= to && part == chunks[i..Min(i + batchSize, |chunks|)]
      requires Done(chunks, i, batches, embedded, indices, from, mid, before)
      requires |batch| <= |part| && forall k :: 0 <= k < |batch| ==> batch[k].chunk == part[k]
      requires to <= mid + Attempts() + |part| * Attempts()
      requires (|batch| == |part| <==> Enough(latest)) && (AnswersAll() ==> |batch| == |part|)
      requires forall k :: 0 <= k < |batch| ==> Sourced(Contents(part), k, batch[k].vector, mid, to)
      ensures Done(chunks, i + batchSize, batches + 1, embedded + batch, indices + Positions(i, |batch|), from, to,
                before + latest)
    {
      NextBatch(chunks, i, batches, embedded, indices, mid - from, before, batchSize, Attempts(), batch, to - mid,
                latest);
      SourcedMore(chunks, embedded, indices, from, mid, to, batches, batch);
    }

    /** Its loop over the batches. */
    method EmbedBatches(chunks: seq<Chunk>)
      returns (embedded: seq<Embedded>, i: nat, ghost batches: nat, ghost indices: seq<nat>)
      requires 0.0 <= retryDelay && 1 <= batchSize
      modifies `calls, `slept, `answered
      ensures old(answered) <= answered && |chunks| <= i < |chunks| + batchSize
      ensures Done(chunks, i, batches, embedded, indices, old(calls), calls, answered[|old(answered)|..])
    {
      i, batches, embedded, indices := 0, 0, [], [];
      while i < |chunks|
        invariant i < |chunks| + batchSize && old(answered) <= answered
        invariant Done(chunks, i, batches, embedded, indices, old(calls), calls, answered[|old(answered)|..])
      {
        var hi := Min(i + batchSize, |chunks|);
        ghost var before, mid := answered, calls;
        var part := chunks[i..hi];
        var batch := EmbedBatch(part);
        Suffixes(old(answered), before, answered);
        DoneNext(chunks, i, batches, embedded, indices, old(calls), mid, calls, before[|old(answered)|..],
                 answered[|before|..], part, batch);
        embedded, indices := embedded + batch, indices + Positions(i, |batch|);
        i := i + batchSize;
        batches := batches + 1;
      }
    }
  }

  lemma Suffixes<T>(a: seq<T>, b: seq<T>, c: seq<T>)
    requires a <= b <= c
    ensures a <= c && c[|a|..] == b[|a|..] + c[|b|..]
  {
  }

  function Positions(i: nat, n: nat): seq<nat> { seq(n, k requires 0 <= k < n => i + k) }

  /** The state of the batch loop at chunk `i`. */
  ghost predicate Progress(
    chunks: seq<Chunk>, i: nat, batches: nat, embedded: seq<Embedded>, indices: seq<nat>, spent: int,
    answered: seq<(nat, nat)>, b: int, m: nat)
  {
    var done := Min(i, |chunks|);
    && i == batches * b
    && spent <= batches * m + done * m
    && |embedded| <= done && (|embedded| == done <==> Enough(answered))
    && Picks(chunks, embedded, indices) && forall j :: 0 <= j < |indices| ==> indices[j] < i
  }

  lemma NextBatch(
    chunks: seq<Chunk>, i: nat, batches: nat, embedded: seq<Embedded>, indices: seq<nat>, spent: int,
    answered: seq<(nat, nat)>, b: int, m: nat, batch: seq<Embedded>, more: int, latest: seq<(nat, nat)>)
    requires 1 <= b && i < |chunks| && Progress(chunks, i, batches, embedded, indices, spent, answered, b, m)
    requires var n := Min(i + b, |chunks|) - i;
             && |batch| <= n && (forall k :: 0 <= k < |batch| ==> batch[k].chunk == chunks[i + k])
             && more <= m + n * m && (|batch| == n <==> Enough(latest))
    ensures Progress(chunks, i + b, batches + 1, embedded + batch, indices + Positions(i, |batch|), spent + more,
              answered + latest, b, m)
  {
    EnoughConcat(answered, latest);
    BatchArithmetic(batches, i, Min(i + b, |chunks|), b, m);
    PicksMore(chunks, embedded, indices, i, batch, Positions(i, |batch|));
  }

  /** `ceil(n / b) * m + n * m`. */
  function CallBound(n: nat, b: int, m: nat): int
    requires 1 <= b
  {
    (n + b - 1) / b * m + n * m
  }

  /** `embedded[j]` is made of `chunks[indices[j]]`, for increasing indices. */
  ghost predicate Picks(chunks: seq<Chunk>, embedded: seq<Embedded>, indices: seq<nat>) {
    && |indices| == |embedded|
    && (forall j :: 0 <= j < |indices| ==> indices[j] < |chunks| && embedded[j].chunk == chunks[indices[j]])
    && (forall j, k :: 0 <= j < k < |indices| ==> indices[j] < indices[k])
  }

  lemma PicksMore(
    chunks: seq<Chunk>, embedded: seq<Embedded>, indices: seq<nat>, i: nat, batch: seq<Embedded>, more: seq<nat>)
    requires Picks(chunks, embedded, indices) && (forall j :: 0 <= j < |indices| ==> indices[j] < i)
    requires i + |batch| <= |chunks| && |more| == |batch|
    requires forall k :: 0 <= k < |batch| ==> more[k] == i + k && batch[k].chunk == chunks[i + k]
    ensures Picks(chunks, embedded + batch, indices + more)
  {
  }

  /** When nothing is lost, the chunks come back one for one. */
  lemma AllInOrder(chunks: seq<Chunk>, embedded: seq<Embedded>, indices: seq<nat>, i: nat)
    requires Picks(chunks, embedded, indices) && |embedded| == |chunks| && i < |chunks|
    ensures indices[i] == i && embedded[i].chunk == chunks[i]
  {
    IndexIsPosition(indices, |chunks|, i);
  }

  lemma IndexIsPosition(indices: seq<nat>, n: nat, i: nat)
    requires |indices| == n && i < n && (forall j :: 0 <= j < n ==> indices[j] < n)
    requires forall j, k :: 0 <= j < k < n ==> indices[j] < indices[k]
    ensures indices[i] == i
  {
    AtLeastPosition(indices, i);
    RoomAfter(indices, n, i);
  }

  lemma {:induction false} AtLeastPosition(indices: seq<nat>, i: nat)
    requires i < |indices| && forall j, k :: 0 <= j < k < |indices| ==> indices[j] < indices[k]
    ensures i <= indices[i]
  {
    if i > 0 {
      AtLeastPosition(indices, i - 1);
    }
  }

  lemma {:induction false} RoomAfter(indices: seq<nat>, n: nat, i: nat)
    requires i < |indices| == n && (forall j :: 0 <= j < n ==> indices[j] < n)
    requires forall j, k :: 0 <= j < k < n ==> indices[j] < indices[k]
    ensures indices[i] <= i
    decreases n - i
  {
    if i + 1 < n {
      RoomAfter(indices, n, i + 1);
    }
  }

  lemma EnoughOne(e: (nat, nat))
    ensures Enough([e]) <==> e.1 <= e.0
  {
    assert [e][0] == e;
  }

  lemma EnoughConcat(a: seq<(nat, nat)>, b: seq<(nat, nat)>)
    ensures Enough(a + b) <==> Enough(a) && Enough(b)
  {
    forall i | 0 <= i < |b| ensures b[i] == (a + b)[|a| + i] {
    }
    assert forall i :: 0 <= i < |a| ==> a[i] == (a + b)[i];
  }

  lemma BatchArithmetic(batches: nat, i: nat, hi: nat, b: nat, m: nat)
    requires i <= hi && i == batches * b
    ensures batches * m + i * m + (m + (hi - i) * m) == (batches + 1) * m + hi * m
    ensures i + b == (batches + 1) * b
  {
  }

  lemma BatchCount(n: nat, batches: nat, b: nat, m: nat)
    requires 1 <= b && n <= batches * b < n + b
    ensures batches * m + n * m == CallBound(n, b, m)
  {
    assert (n + b - 1) / b == batches by {
      var x := n + b - 1;
      assert batches * b <= x < batches * b + b;
      Quotient(x, batches, b);
    }
  }

  lemma RemainderBounds(x: nat, b: nat)
    requires 1 <= b
    ensures 0 <= x % b <= x && x % b < b
  {
    Quotient(x, x / b, b);
    assert x == x / b * b + x % b;
  }

  lemma Remainder(x: nat, q: nat, k: nat, b: nat)
    requires k < b && x == q * b + k
    ensures x % b == k
  {
    Quotient(x, q, b);
    assert x == x / b * b + x % b;
  }

  lemma Quotient(x: nat, q: nat, b: nat)
    requires 1 <= b && q * b <= x < q * b + b
    ensures x / b == q
  {
    var r := x / b;
    assert x == r * b + x % b;
    assert r < q ==> (r + 1) * b <= q * b;
    assert r > q ==> (q + 1) * b <= r * b;
  }

  function Contents(chunks: seq<Chunk>): seq<string> {
    seq(|chunks|, i requires 0 <= i < |chunks| => chunks[i].content)
  }

  ghost predicate Enough(answered: seq<(nat, nat)>) {
    forall i :: 0 <= i < |answered| ==> answered[i].1 <= answered[i].0
  }

  lemma ProductStep(n: nat, k: nat)
    ensures (n + 1) * k == n * k + k
  {
  }

  lemma ProductNonNegative(n: nat, k: nat)
    ensures 0 <= n * k
  {
  }

  lemma SleepsAddUp(delay: real, attempt: nat, retries: int)
    requires 0.0 <= delay && attempt < retries
    ensures delay * (Pow2(attempt) - 1) as real + delay * Pow2(attempt) as real ==
              delay * (Pow2(attempt + 1) - 1) as real
    ensures delay <= delay * Pow2(attempt) as real
    ensures delay * (Pow2(attempt) - 1) as real <= MaxSleep(delay, retries)
  {
    Pow2Positive(attempt);
    Pow2Grows(attempt, retries - 1);
  }

  lemma {:induction false} Pow2Grows(m: nat, n: nat)
    requires m <= n
    ensures Pow2(m) <= Pow2(n)
  {
    if m < n {
      Pow2Grows(m, n - 1);
    }
  }
}

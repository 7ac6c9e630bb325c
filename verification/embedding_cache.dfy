/**
 The embedding cache: least recently used eviction over two dictionaries, around a generator that
 may raise. Texts stand for their digests.
 */
module EmbeddingCache {
  import opened Wrappers

  type Vector = seq<real>

  // ---- The policy on recency lists, most recent first ----

  /** The position of `t`, or the length if it is absent. */
  function Index(order: seq<string>, t: string): (k: nat)
    ensures k <= |order| && (k < |order| ==> order[k] == t)
  {
    if order == [] || order[0] == t then 0 else 1 + Index(order[1..], t)
  }

  lemma {:induction false} IndexIn(order: seq<string>, t: string)
    ensures t in order <==> Index(order, t) < |order|
    ensures t !in order[..Index(order, t)]
  {
    if order != [] && order[0] != t {
      IndexIn(order[1..], t);
      assert order == [order[0]] + order[1..];
      assert order[..Index(order, t)] == [order[0]] + order[1..][..Index(order[1..], t)];
    }
  }

  function Without(order: seq<string>, t: string): seq<string> {
    if order == [] then []
    else if order[0] == t then order[1..]
    else [order[0]] + Without(order[1..], t)
  }

  function Touch(order: seq<string>, t: string): seq<string> { [t] + Without(order, t) }

  function Evict(cap: int, order: seq<string>): seq<string> {
    if |order| >= cap && order != [] then order[..|order| - 1] else order
  }

  ghost predicate Distinct(order: seq<string>) {
    order == [] || (order[0] !in order[1..] && Distinct(order[1..]))
  }

  lemma {:induction false} WithoutMeaning(order: seq<string>, t: string)
    requires Distinct(order)
    ensures forall x :: x in Without(order, t) <==> x in order && x != t
    ensures Distinct(Without(order, t))
    ensures |Without(order, t)| == |order| - if t in order then 1 else 0
  {
    if order != [] {
      var head, rest := order[0], order[1..];
      assert order == [head] + rest;
      WithoutMeaning(rest, t);
      assert ([head] + Without(rest, t))[1..] == Without(rest, t);
    }
  }

  lemma {:induction false} DropLast(order: seq<string>)
    requires Distinct(order) && order != []
    ensures var rest, last := order[..|order| - 1], order[|order| - 1];
            Distinct(rest) && forall t :: t in rest <==> t in order && t != last
  {
    var rest, last := order[..|order| - 1], order[|order| - 1];
    assert order == rest + [last];
    if rest != [] {
      DropLast(order[1..]);
      assert rest[1..] == order[1..][..|order| - 2];
      assert rest == [order[0]] + rest[1..];
      assert last in order[1..];
    }
  }

  /** A call of the caching generator: the text, and whether the underlying generator would return. */
  datatype Call = Call(text: string, ok: bool)

  function Access(cap: int, order: seq<string>, call: Call): seq<string> {
    if call.text in order then Touch(order, call.text)
    else if call.ok then Touch(Evict(cap, order), call.text)
    else order
  }

  /** The recency list after a trace of calls. */
  function After(cap: int, calls: seq<Call>): seq<string> {
    if calls == [] then [] else Access(cap, After(cap, calls[..|calls| - 1]), calls[|calls| - 1])
  }

  // ---- The cache ----

  /** The dictionaries have the same keys, and `order` lists them from the latest access to the earliest. */
  ghost predicate Consistent(order: seq<string>, keys: set<string>, times: map<string, int>, cap: nat) {
    && Distinct(order) && |order| <= cap
    && (forall t :: t in keys <==> t in order) && (forall t :: t in times <==> t in order)
    && Descending(order, times)
  }

  /** An access at a time later than all before it. */
  lemma TouchConsistent(order: seq<string>, keys: set<string>, times: map<string, int>, cap: nat, t: string, now: int)
    requires Consistent(order, keys, times, cap) && (t in order || |order| < cap)
    requires forall x :: x in times ==> times[x] < now
    ensures Consistent(Touch(order, t), keys + {t}, times[t := now], cap)
  {
    WithoutMeaning(order, t);
    TouchDescending(order, times, t, now);
  }

  class Cache {
    const maxSize: int
    var cache: map<string, Vector>
    var accessTimes: map<string, int>
    ghost var order: seq<string>

    ghost predicate Valid()
      reads this
    {
      Consistent(order, cache.Keys, accessTimes, Room())
    }

    function Room(): nat { if maxSize < 0 then 0 else maxSize }

    /** The clock has moved on since every access. */
    ghost predicate Later(now: int)
      reads this
    {
      forall t :: t in accessTimes ==> accessTimes[t] < now
    }

    constructor (maxSize: int)
      ensures Valid() && this.maxSize == maxSize && order == [] && cache == map[]
    {
      this.maxSize := maxSize;
      cache, accessTimes, order := map[], map[], [];
    }

    method Get(text: string, now: int) returns (hit: Option<Vector>)
      requires Valid() && Later(now)
      modifies this
      ensures Valid() && Later(now + 1) && cache == old(cache)
      ensures order == if text in old(order) then Touch(old(order), text) else old(order)
      ensures hit == if text in old(cache) then Some(old(cache[text])) else None
    {
      if text in cache {
        TouchConsistent(order, cache.Keys, accessTimes, Room(), text, now);
        assert cache.Keys + {text} == cache.Keys;
        accessTimes := accessTimes[text := now];
        order := Touch(order, text);
        return Some(cache[text]);
      }
      return None;
    }

    /** `min(access_times, key=...)` */
    method Oldest() returns (key: string)
      requires Valid() && order != []
      ensures key == order[|order| - 1]
    {
      var keys := accessTimes.Keys;
      assert order[0] in keys;
      key :| key in keys;
      var todo := keys - {key};
      while todo != {}
        invariant todo <= keys && key in keys
        invariant forall k :: k in keys && k !in todo ==> accessTimes[key] <= accessTimes[k]
      {
        var k :| k in todo;
        todo := todo - {k};
        if accessTimes[k] < accessTimes[key] {
          key := k;
        }
      }
      assert order[|order| - 1] in keys;
      LastIsOldest(order, accessTimes, key);
    }

    /** `del cache[oldest_key]`, in both dictionaries. */
    method RemoveOldest()
      requires Valid() && order != []
      modifies this
      ensures Valid() && order == old(order)[..|old(order)| - 1] && Kept(old(cache), old(accessTimes))
    {
      var oldest := Oldest();
      DropLast(order);
      DropLastDescending(order, accessTimes);
      cache := cache - {oldest};
      accessTimes := accessTimes - {oldest};
      order := order[..|order| - 1];
    }

    /** What is still there is unchanged. */
    ghost predicate Kept(vectors: map<string, Vector>, times: map<string, int>)
      reads this
    {
      && (forall t :: t in cache ==> t in vectors && cache[t] == vectors[t])
      && (forall t :: t in accessTimes ==> t in times && accessTimes[t] == times[t])
    }

    /** Make room. With room for nothing there is nothing to evict, and taking the minimum raises. */
    method EvictOldest() returns (raised: bool)
      requires Valid()
      modifies this
      ensures Valid() && (raised <==> maxSize <= 0) && (!raised ==> |order| < maxSize)
      ensures order == if raised then old(order) else Evict(maxSize, old(order))
      ensures Kept(old(cache), old(accessTimes))
    {
      KeysSize(order, cache.Keys);
      if |cache| < maxSize {
        return false;
      }
      assert order != [] ==> order[0] in accessTimes;
      if accessTimes == map[] {
        return true;
      }
      ghost var t :| t in accessTimes;
      RemoveOldest();
      return false;
    }

    /** `put`; storing again what is present evicts all the same. */
    method Put(text: string, embedding: Vector, now: int) returns (raised: bool)
      requires Valid() && Later(now)
      modifies this
      ensures Valid() && Later(now + 1) && (raised <==> maxSize <= 0)
      ensures order == if raised then old(order) else Touch(Evict(maxSize, old(order)), text)
      ensures !raised ==> text in cache && cache[text] == embedding
      ensures forall t :: t in cache && (raised || t != text) ==> t in old(cache) && cache[t] == old(cache)[t]
    {
      raised := EvictOldest();
      if raised {
        return;
      }
      TouchConsistent(order, cache.Keys, accessTimes, Room(), text, now);
      cache := cache[text := embedding];
      accessTimes := accessTimes[text := now];
      order := Touch(order, text);
    }

    /**
     The caching generator. `outcome` is what the underlying generator would give, None if it raises.
     For a deterministic generator the caller cannot tell a hit from a miss.
     */
    method CachedGenerate(text: string, outcome: Option<Vector>, now: int, ghost generate: string -> Vector)
      returns (r: Option<Vector>)
      requires Valid() && 1 <= maxSize && Later(now)
      requires outcome.Some? ==> outcome.value == generate(text)
      requires forall t :: t in cache ==> cache[t] == generate(t)
      modifies this
      ensures Valid() && Later(now + 2) && order == Access(maxSize, old(order), Call(text, outcome.Some?))
      ensures forall t :: t in cache ==> cache[t] == generate(t)
      ensures r == if outcome.Some? || text in old(order) then Some(generate(text)) else None
    {
      r := Get(text, now);
      if r.Some? || outcome.None? {
        return;
      }
      var raised := Put(text, outcome.value, now + 1);
      r := outcome;
    }

    /** A whole trace of calls on an empty cache, at times `now` and later. */
    method GenerateAll(calls: seq<Call>, generate: string -> Vector, now: int) returns (results: seq<Option<Vector>>)
      requires Valid() && 1 <= maxSize && Later(now) && order == []
      modifies this
      ensures Valid() && order == After(maxSize, calls) && (forall t :: t in cache <==> t in After(maxSize, calls))
      ensures forall t :: t in cache ==> cache[t] == generate(t)
      ensures results == Results(maxSize, calls, generate)
    {
      results := [];
      for i := 0 to |calls|
        invariant Valid() && Later(now + 2 * i) && order == After(maxSize, calls[..i])
        invariant forall t :: t in cache ==> cache[t] == generate(t)
        invariant results == Results(maxSize, calls[..i], generate)
      {
        AfterSnoc(maxSize, calls, i, generate);
        var call := calls[i];
        var r := CachedGenerate(call.text, if call.ok then Some(generate(call.text)) else None, now + 2 * i, generate);
        results := results + [r];
      }
      assert calls[..|calls|] == calls;
    }
  }

  /** The vector of each call's text, and None for the calls that raise. */
  function Results(cap: int, calls: seq<Call>, generate: string -> Vector): seq<Option<Vector>> {
    if calls == [] then []
    else
      var init, call := calls[..|calls| - 1], calls[|calls| - 1];
      Results(cap, init, generate)
        + [if call.ok || call.text in After(cap, init) then Some(generate(call.text)) else None]
  }

  lemma AfterSnoc(cap: int, calls: seq<Call>, i: nat, generate: string -> Vector)
    requires i < |calls|
    ensures After(cap, calls[..i + 1]) == Access(cap, After(cap, calls[..i]), calls[i])
    ensures Results(cap, calls[..i + 1], generate) ==
              Results(cap, calls[..i], generate)
              + [if calls[i].ok || calls[i].text in After(cap, calls[..i]) then Some(generate(calls[i].text)) else None]
  {
    assert calls[..i + 1][..i] == calls[..i];
  }

  lemma {:induction false} KeysSize(order: seq<string>, keys: set<string>)
    requires Distinct(order) && forall t :: t in keys <==> t in order
    ensures |keys| == |order|
  {
    if order == [] {
      assert keys == {};
    } else {
      KeysSize(order[1..], keys - {order[0]});
    }
  }

  /** Later in the list is earlier in time. */
  ghost predicate Descending(order: seq<string>, times: map<string, int>) {
    order == []
    || (order[0] in times && (forall x :: x in order[1..] ==> x in times && times[x] < times[order[0]])
        && Descending(order[1..], times))
  }

  lemma {:induction false} WithoutDescending(order: seq<string>, times: map<string, int>, t: string)
    requires Distinct(order) && Descending(order, times)
    ensures Descending(Without(order, t), times)
  {
    if order != [] {
      var head, rest := order[0], order[1..];
      WithoutDescending(rest, times, t);
      WithoutMeaning(rest, t);
      assert ([head] + Without(rest, t))[1..] == Without(rest, t);
    }
  }

  lemma {:induction false} LastIsOldest(order: seq<string>, times: map<string, int>, x: string)
    requires Descending(order, times) && x in order
    ensures order[|order| - 1] in times && x in times && times[order[|order| - 1]] <= times[x]
    ensures times[order[|order| - 1]] == times[x] ==> x == order[|order| - 1]
  {
    if |order| > 1 {
      var last := order[|order| - 1];
      assert order[1..][|order| - 2] == last;
      LastIsOldest(order[1..], times, if x in order[1..] then x else last);
    }
  }

  lemma {:induction false} DropLastDescending(order: seq<string>, times: map<string, int>)
    requires Distinct(order) && Descending(order, times) && order != []
    ensures Descending(order[..|order| - 1], times - {order[|order| - 1]})
  {
    var rest, last := order[..|order| - 1], order[|order| - 1];
    if rest != [] {
      DropLastDescending(order[1..], times);
      assert rest[1..] == order[1..][..|order| - 2];
      assert last in order[1..];
      DropLast(order[1..]);
    }
  }

  lemma {:induction false} SameDescending(order: seq<string>, times: map<string, int>, t: string, now: int)
    requires Descending(order, times) && t !in order
    ensures Descending(order, times[t := now])
  {
    if order != [] {
      SameDescending(order[1..], times, t, now);
    }
  }

  lemma TouchDescending(order: seq<string>, times: map<string, int>, t: string, now: int)
    requires Distinct(order) && Descending(order, times) && forall x :: x in order ==> x in times && times[x] < now
    ensures Descending(Touch(order, t), times[t := now])
  {
    WithoutMeaning(order, t);
    WithoutDescending(order, times, t);
    SameDescending(Without(order, t), times, t, now);
    assert Touch(order, t)[1..] == Without(order, t);
  }

  // ---- What is kept ----

  lemma {:induction false} AfterWellFormed(cap: int, calls: seq<Call>)
    requires 1 <= cap
    ensures Distinct(After(cap, calls)) && |After(cap, calls)| <= cap
  {
    if calls != [] {
      var order, call := After(cap, calls[..|calls| - 1]), calls[|calls| - 1];
      AfterWellFormed(cap, calls[..|calls| - 1]);
      WithoutMeaning(order, call.text);
      if order != [] {
        DropLast(order);
      }
      WithoutMeaning(Evict(cap, order), call.text);
    }
  }

  /** The texts called, by last use, most recent first. */
  function Recent(calls: seq<Call>): seq<string> {
    if calls == [] then [] else Touch(Recent(calls[..|calls| - 1]), calls[|calls| - 1].text)
  }

  function Take(cap: nat, order: seq<string>): seq<string> { if |order| <= cap then order else order[..cap] }

  /** `Recent` lists each text called, once. */
  lemma {:induction false} RecentMeaning(calls: seq<Call>)
    ensures Distinct(Recent(calls))
    ensures forall t :: t in Recent(calls) <==> t in Called(calls)
  {
    if calls != [] {
      var init, last := calls[..|calls| - 1], calls[|calls| - 1].text;
      RecentMeaning(init);
      WithoutMeaning(Recent(init), last);
      assert calls == init + [calls[|calls| - 1]];
      assert Called(calls) == Called(init) + {last};
    }
  }

  function Called(calls: seq<Call>): set<string> { set c | c in calls :: c.text }

  /** Removing a text from a prefix, and from the whole. */
  lemma {:induction false} WithoutPrefix(order: seq<string>, n: nat, t: string)
    requires n <= |order|
    ensures |Without(order, t)| == |order| - if Index(order, t) < |order| then 1 else 0
    ensures Index(order, t) < n ==> Without(order[..n], t) == Without(order, t)[..n - 1]
    ensures Index(order, t) >= n ==> Without(order[..n], t) == order[..n]
    ensures Index(order, t) >= n && n <= |Without(order, t)| ==> Without(order, t)[..n] == order[..n]
  {
    if order != [] {
      var rest := order[1..];
      if n > 0 {
        assert order[..n][1..] == rest[..n - 1];
      }
      WithoutPrefix(rest, if n == 0 then 0 else n - 1, t);
    }
  }

  /** Touching within the first `cap`, and evicting then touching beyond them, both keep the first `cap`. */
  lemma TouchTake(cap: nat, order: seq<string>, t: string)
    requires 1 <= cap
    ensures Access(cap, Take(cap, order), Call(t, true)) == Take(cap, Touch(order, t))
  {
    var n := if |order| <= cap then |order| else cap;
    var kept := Take(cap, order);
    assert kept == order[..n];
    IndexIn(kept, t);
    WithoutPrefix(order, n, t);
    IndexOfTake(order, n, t);
    if Index(order, t) >= n {
      var m := |Evict(cap, kept)|;
      assert Evict(cap, kept) == order[..m];
      WithoutPrefix(order, m, t);
      assert Touch(order, t)[..m + 1] == [t] + Without(order, t)[..m];
    }
  }

  lemma {:induction false} IndexOfTake(order: seq<string>, n: nat, t: string)
    requires n <= |order|
    ensures Index(order[..n], t) == if Index(order, t) < n then Index(order, t) else n
  {
    if n > 0 && order[0] != t {
      assert order[..n][1..] == order[1..][..n - 1];
      IndexOfTake(order[1..], n - 1, t);
    }
  }

  /** The calls that return a vector, from the cache or from the generator; the others raise. */
  function Returning(cap: int, calls: seq<Call>): seq<Call> {
    if calls == [] then []
    else
      var init, call := calls[..|calls| - 1], calls[|calls| - 1];
      Returning(cap, init) + if call.text in After(cap, init) || call.ok then [call] else []
  }

  lemma RecentSnoc(calls: seq<Call>, call: Call)
    ensures Recent(calls + [call]) == Touch(Recent(calls), call.text)
  {
    assert (calls + [call])[..|calls|] == calls;
  }

  /**
   After any calls, whichever of them raise, the cache holds exactly the `cap` texts most recently
   returned, or all of them if there are fewer, in order of last use.
   */
  lemma {:induction false} HoldsMostRecent(cap: nat, calls: seq<Call>)
    requires 1 <= cap
    ensures After(cap, calls) == Take(cap, Recent(Returning(cap, calls)))
  {
    if calls != [] {
      var init, call := calls[..|calls| - 1], calls[|calls| - 1];
      var returned := Returning(cap, init);
      HoldsMostRecent(cap, init);
      if call.text in After(cap, init) || call.ok {
        TouchTake(cap, Recent(returned), call.text);
        RecentSnoc(returned, call);
      } else {
        assert returned + [] == returned;
      }
    }
  }

  // ---- Larger caches hold more ----

  predicate Before(order: seq<string>, x: string, y: string) {
    Index(order, x) < Index(order, y) < |order|
  }

  /** The smaller cache's texts are in the larger one, in the same order; if it is not full it holds them all. */
  ghost predicate Included(cap: int, small: seq<string>, big: seq<string>) {
    && Distinct(small) && Distinct(big) && |small| <= cap
    && (forall t :: t in small ==> t in big)
    && (forall x, y :: Before(small, x, y) ==> Before(big, x, y))
    && (|small| < cap ==> forall t :: t in big ==> t in small)
  }

  lemma {:induction false} IndexOfMember(order: seq<string>, i: nat)
    requires Distinct(order) && i < |order|
    ensures Index(order, order[i]) == i
  {
    if i > 0 {
      assert order[1..][i - 1] == order[i];
      IndexOfMember(order[1..], i - 1);
    }
  }

  /** Touching puts `t` before everything and keeps the order of the rest. */
  lemma BeforeTouch(order: seq<string>, t: string, x: string, y: string)
    requires Distinct(order)
    ensures Before(Touch(order, t), x, y) <==>
              if x == t then y in order && y != t else y != t && Before(order, x, y)
  {
    IndexTouch(order, t, x);
    IndexTouch(order, t, y);
    IndexIn(order, y);
  }

  lemma IndexTouch(order: seq<string>, t: string, x: string)
    requires Distinct(order)
    ensures Index(Touch(order, t), x) ==
              if x == t then 0 else 1 + Index(order, x) - if Index(order, t) < Index(order, x) then 1 else 0
    ensures |Touch(order, t)| == 1 + |order| - if Index(order, t) < |order| then 1 else 0
  {
    IndexWithout(order, t, x);
    assert Touch(order, t)[1..] == Without(order, t);
  }

  lemma {:induction false} IndexWithout(order: seq<string>, t: string, x: string)
    requires Distinct(order)
    ensures x != t ==>
              Index(Without(order, t), x) == Index(order, x) - if Index(order, t) < Index(order, x) then 1 else 0
    ensures |Without(order, t)| == |order| - if Index(order, t) < |order| then 1 else 0
  {
    if order != [] && order[0] != t {
      IndexWithout(order[1..], t, x);
      assert Without(order, t)[1..] == Without(order[1..], t);
    }
  }

  lemma BeforePrefix(order: seq<string>, n: nat, x: string, y: string)
    requires n <= |order|
    ensures Before(order[..n], x, y) <==> Before(order, x, y) && Index(order, y) < n
  {
    IndexOfTake(order, n, x);
    IndexOfTake(order, n, y);
  }

  lemma TouchIncluded(cap: int, small: seq<string>, big: seq<string>, t: string)
    requires Distinct(small) && Distinct(big) && (forall x :: x in small ==> x in big)
    requires forall x, y :: Before(small, x, y) ==> Before(big, x, y)
    ensures var small', big' := Touch(small, t), Touch(big, t);
            && Distinct(small') && Distinct(big') && (forall x :: x in small' ==> x in big')
            && (forall x, y :: Before(small', x, y) ==> Before(big', x, y))
  {
    WithoutMeaning(small, t);
    WithoutMeaning(big, t);
    forall x, y | Before(Touch(small, t), x, y) ensures Before(Touch(big, t), x, y) {
      BeforeTouch(small, t, x, y);
      BeforeTouch(big, t, x, y);
    }
  }

  /** The last of the smaller cache comes no earlier than anything of it that is last in the larger one. */
  lemma LastTogether(small: seq<string>, big: seq<string>)
    requires small != [] && Index(small, small[|small| - 1]) == |small| - 1
    requires big != [] && Index(big, big[|big| - 1]) == |big| - 1
    requires Before(small, big[|big| - 1], small[|small| - 1]) ==> Before(big, big[|big| - 1], small[|small| - 1])
    ensures big[|big| - 1] in small ==> small[|small| - 1] == big[|big| - 1]
  {
    IndexIn(small, big[|big| - 1]);
  }

  /** Evicting where needed, before a text in neither cache is stored, keeps the smaller within the larger. */
  lemma EvictIncluded(c1: int, c2: int, small: seq<string>, big: seq<string>)
    requires 1 <= c1 <= c2 && Included(c1, small, big) && |big| <= c2
    ensures var small', big' := Evict(c1, small), Evict(c2, big);
            && Distinct(small') && Distinct(big') && (forall x :: x in small' ==> x in big')
            && (forall x, y :: Before(small', x, y) ==> Before(big', x, y))
            && (|small| < c1 ==> small' == small && big' == big)
  {
    var small', big' := Evict(c1, small), Evict(c2, big);
    if |small| < c1 {
      SameSize(small, big);
    } else {
      DropLast(small);
      if |big| >= c2 {
        DropLast(big);
        IndexOfMember(big, |big| - 1);
        IndexOfMember(small, |small| - 1);
        LastTogether(small, big);
      }
    }
    forall x, y | Before(small', x, y) ensures Before(big', x, y) {
      BeforePrefix(small, |small'|, x, y);
      BeforePrefix(big, |big'|, x, y);
      assert small' == small[..|small'|] && big' == big[..|big'|];
      assert y in small' && y in big';
      IndexIn(big', y);
      IndexOfTake(big, |big'|, y);
    }
  }

  lemma SameSize(small: seq<string>, big: seq<string>)
    requires Distinct(small) && Distinct(big) && forall t :: t in small <==> t in big
    ensures |small| == |big|
  {
    var keys := set t | t in small;
    KeysSize(small, keys);
    KeysSize(big, keys);
  }

  lemma AccessIncluded(c1: int, c2: int, small: seq<string>, big: seq<string>, call: Call)
    requires 1 <= c1 <= c2 && Included(c1, small, big) && |big| <= c2
    ensures Included(c1, Access(c1, small, call), Access(c2, big, call))
  {
    var t := call.text;
    if t in small {
      TouchIncluded(c1, small, big, t);
      WithoutMeaning(small, t);
      WithoutMeaning(big, t);
    } else if t in big {
      if call.ok {
        StoreIncluded(c1, small, big, t);
      } else {
        TouchOnlyBig(c1, small, big, t);
      }
    } else if call.ok {
      EvictIncluded(c1, c2, small, big);
      TouchIncluded(c1, Evict(c1, small), Evict(c2, big), t);
      WithoutMeaning(Evict(c1, small), t);
      WithoutMeaning(Evict(c2, big), t);
    }
  }

  /** A miss in the full smaller cache that is a hit in the larger one. */
  lemma StoreIncluded(c1: int, small: seq<string>, big: seq<string>, t: string)
    requires 1 <= c1 && Included(c1, small, big) && t !in small && t in big
    ensures Included(c1, Touch(Evict(c1, small), t), Touch(big, t))
  {
    var small' := Evict(c1, small);
    DropLast(small);
    forall x, y | Before(small', x, y) ensures Before(big, x, y) {
      BeforePrefix(small, |small'|, x, y);
    }
    TouchIncluded(c1, small', big, t);
    WithoutMeaning(small', t);
  }

  /** The same when the generator raises: only the larger cache has it. */
  lemma TouchOnlyBig(c1: int, small: seq<string>, big: seq<string>, t: string)
    requires Included(c1, small, big) && t !in small && t in big
    ensures Included(c1, small, Touch(big, t))
  {
    WithoutMeaning(big, t);
    forall x, y | Before(small, x, y) ensures Before(Touch(big, t), x, y) {
      IndexIn(small, x);
      IndexIn(small, y);
      BeforeTouch(big, t, x, y);
    }
  }

  /** On the same trace, whichever calls raise, a larger cache always holds everything a smaller one does. */
  lemma {:induction false} LargerHoldsMore(c1: int, c2: int, calls: seq<Call>)
    requires 1 <= c1 <= c2
    ensures Included(c1, After(c1, calls), After(c2, calls))
  {
    if calls != [] {
      var init := calls[..|calls| - 1];
      LargerHoldsMore(c1, c2, init);
      AfterWellFormed(c2, init);
      AccessIncluded(c1, c2, After(c1, init), After(c2, init), calls[|calls| - 1]);
    }
  }

  function Misses(cap: int, calls: seq<Call>): nat {
    if calls == [] then 0
    else
      var init := calls[..|calls| - 1];
      Misses(cap, init) + if calls[|calls| - 1].text in After(cap, init) then 0 else 1
  }

  /** So it never misses more. */
  lemma {:induction false} LargerMissesNoMore(c1: int, c2: int, calls: seq<Call>)
    requires 1 <= c1 <= c2
    ensures Misses(c2, calls) <= Misses(c1, calls)
  {
    if calls != [] {
      LargerMissesNoMore(c1, c2, calls[..|calls| - 1]);
      LargerHoldsMore(c1, c2, calls[..|calls| - 1]);
    }
  }
}

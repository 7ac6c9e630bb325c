/** What the caches hold, and what a look-up finds, in every interleaving. */
module CacheEntries {
  import opened CacheKey
  import opened VersionedCache

  function KeyOf(a: Alphabet, w: Write): string { Key(a, w.ask, w.read.Version()) }

  /** The event stores `w`. */
  predicate Puts(s: System, e: Event, w: Write) {
    e.Store? && e.ok && e.p in s.turns && s.turns[e.p] == Storing(w)
  }

  /** The entry under the key expires, or the event stores another under it. */
  predicate Ousts(a: Alphabet, s: System, e: Event, key: string) {
    || e == Expire(key)
    || (e.Store? && e.ok && e.p in s.turns && s.turns[e.p].Storing? && KeyOf(a, s.turns[e.p].write) == key)
  }

  predicate Has(s: System, key: string, w: Write) { key in s.entries && s.entries[key] == w }

  lemma StepEntry(a: Alphabet, s: System, e: Event, w: Write)
    requires Initialized(s)
    ensures Has(Step(a, s, e), KeyOf(a, w), w) <==>
              Puts(s, e, w) || (Has(s, KeyOf(a, w), w) && !Ousts(a, s, e, KeyOf(a, w)))
  {
  }

  ghost predicate PutAt(a: Alphabet, es: seq<Event>, i: int, w: Write) {
    0 <= i < |es| && Puts(VersionedCache.Run(a, es[..i]), es[i], w)
  }

  ghost predicate OustedAt(a: Alphabet, es: seq<Event>, j: int, key: string) {
    0 <= j < |es| && Ousts(a, VersionedCache.Run(a, es[..j]), es[j], key)
  }

  /** It was stored at `i` and nothing has replaced it since. */
  ghost predicate HeldSince(a: Alphabet, es: seq<Event>, i: int, w: Write) {
    PutAt(a, es, i, w) && forall j :: i < j < |es| ==> !OustedAt(a, es, j, KeyOf(a, w))
  }

  lemma HeldLonger(a: Alphabet, es: seq<Event>, e: Event, i: int, w: Write)
    requires 0 <= i < |es|
    ensures HeldSince(a, es + [e], i, w) <==>
              HeldSince(a, es, i, w) && !Ousts(a, VersionedCache.Run(a, es), e, KeyOf(a, w))
  {
    var all, key := es + [e], KeyOf(a, w);
    assert all[..|es|] == es && forall j :: 0 <= j < |es| ==> all[..j] == es[..j] && all[j] == es[j];
    assert OustedAt(a, all, |es|, key) <==> Ousts(a, VersionedCache.Run(a, es), e, key);
    assert forall j :: 0 <= j < |es| ==> (OustedAt(a, all, j, key) <==> OustedAt(a, es, j, key));
    assert PutAt(a, all, i, w) <==> PutAt(a, es, i, w);
  }

  lemma RunSnoc(a: Alphabet, es: seq<Event>, e: Event)
    ensures VersionedCache.Run(a, es + [e]) == Step(a, VersionedCache.Run(a, es), e)
  {
    RunJoin(a, START, es, [e]);
    OneStep(a, VersionedCache.Run(a, es), e);
  }

  /** In every interleaving the server holds a store exactly when it went through and nothing has replaced it since. */
  lemma {:induction false} HeldExactlyWhen(a: Alphabet, es: seq<Event>, w: Write)
    ensures Has(VersionedCache.Run(a, es), KeyOf(a, w), w) <==> exists i :: HeldSince(a, es, i, w)
  {
    if |es| > 0 {
      var init, e := es[..|es| - 1], es[|es| - 1];
      assert es == init + [e];
      HeldExactlyWhen(a, init, w);
      RunSnoc(a, init, e);
      StepEntry(a, VersionedCache.Run(a, init), e, w);
      if Puts(VersionedCache.Run(a, init), e, w) {
        assert HeldSince(a, es, |init|, w);
      } else if i :| HeldSince(a, es, i, w) {
        assert i < |init|;
        HeldLonger(a, init, e, i, w);
      } else if Has(VersionedCache.Run(a, init), KeyOf(a, w), w) {
        var i :| HeldSince(a, init, i, w);
        HeldLonger(a, init, e, i, w);
      }
    }
  }

  /** A store for the same request under the version read, made at `i` and not replaced since. */
  ghost predicate IsKept(a: Alphabet, es: seq<Event>, ask: Ask, read: Read, w: Write, i: int) {
    HeldSince(a, es, i, w) && SameAsk(a, w.ask, ask) && w.read.Version() == read.Version()
  }

  lemma ServesExactlyWhen(a: Alphabet, es: seq<Event>, ask: Ask, read: Read, w: Write)
    requires Sound(a)
    ensures var entries := VersionedCache.Run(a, es).entries;
            Serves(a, entries, ask, read) && entries[Key(a, ask, read.Version())] == w <==>
              Cacheable(ask) && exists i :: IsKept(a, es, ask, read, w, i)
  {
    var s, key := VersionedCache.Run(a, es), Key(a, ask, read.Version());
    HeldExactlyWhen(a, es, w);
    SameKeyExactlyWhen(a, w.ask, w.read.Version(), ask, read.Version());
    RunKeeps(a, es);
    if key in s.entries {
      assert EntryInv(a, s, key);
      assert WriteInv(s, s.entries[key]);
    }
    if i :| HeldSince(a, es, i, w) {
      assert IsKept(a, es, ask, read, w, i) <==> KeyOf(a, w) == key;
    }
  }

  /**
   In every interleaving a look-up is a hit exactly when it goes through, the request is not a blank
   question and there is such a store: it is then given what that stored. Otherwise it is a miss.
   */
  lemma HitExactlyWhen(a: Alphabet, es: seq<Event>, p: nat, ok: bool, w: Write)
    requires Sound(a) && p in VersionedCache.Run(a, es).turns && VersionedCache.Run(a, es).turns[p].Looking?
    ensures var t, next := VersionedCache.Run(a, es).turns[p], VersionedCache.Run(a, es + [LookUp(p, ok)]).turns;
            && p in next
            && (next[p] == Hit(t.ask, t.read, w) <==>
                 ok && Cacheable(t.ask) && exists i :: IsKept(a, es, t.ask, t.read, w, i))
            && (next[p].Hit? || next[p] == Missed(t.ask, {}))
  {
    var s := VersionedCache.Run(a, es);
    var t := s.turns[p];
    RunSnoc(a, es, LookUp(p, ok));
    ServesExactlyWhen(a, es, t.ask, t.read, w);
  }
}

/**
  The TTL cache of `cached(ttl)(f)`: one dictionary per decorated function,
  from key to (insertion time, result). A call is served from the dictionary
  when an entry exists for its key and is younger than `ttl`; otherwise `f`
  runs and, if it returns, its result is stored under the key with the time
  read before the lookup. Nothing is ever removed.

  Time is an integer clock reading `now`, and what `f` does on this call is
  given as `outcome`: Returned(r) when it returns r, Raised(e) when it raises e.
  The dictionary is generic in its key type K. Step is the specification of
  one call; DictAfter and ReplyAt extend it to a sequence of calls.
  CachedFunction is the dictionary as an object; Wrapper is the source's
  wrapper, keyed by the flat tuple FlatKey, and SeparatedWrapper the same
  wrapper keyed by DeriveKey, which keeps positional and keyword parts apart.
*/
module TtlCache {
  import opened CacheKeys

  /** The pair `(t, r)` stored for a key. */
  datatype Entry<R> = Entry(insertedAt: int, value: R)

  /** What one call of the underlying function does. */
  datatype Outcome<R, E> = Returned(value: R) | Raised(error: E)

  /** After one call: the new dictionary, what the caller gets, and whether
      the underlying function was invoked. */
  datatype Reply<K(==), R, E> = Reply(entries: map<K, Entry<R>>, result: Outcome<R, E>, invoked: bool)

  /** The hit test: an entry exists and `now - insertedAt < ttl`. */
  predicate IsFresh<K(==), R>(entries: map<K, Entry<R>>, ttl: int, k: K, now: int) {
    k in entries && now - entries[k].insertedAt < ttl
  }

  /** One call of the wrapper for key k at time now. */
  function Step<K(==), R, E>(entries: map<K, Entry<R>>, ttl: int, k: K, now: int, outcome: Outcome<R, E>): Reply<K, R, E> {
    if IsFresh(entries, ttl, k, now) then
      Reply(entries, Returned(entries[k].value), false)
    else if outcome.Returned? then
      Reply(entries[k := Entry(now, outcome.value)], outcome, true)
    else
      Reply(entries, outcome, true)
  }

  /** A hit returns the stored value, does not invoke f and changes nothing. */
  lemma HitRule<K, R, E>(entries: map<K, Entry<R>>, ttl: int, k: K, now: int, outcome: Outcome<R, E>)
    requires k in entries && now - entries[k].insertedAt < ttl
    ensures Step(entries, ttl, k, now, outcome) == Reply(entries, Returned(entries[k].value), false)
  {
  }

  /** A missing entry, or one whose age is ttl or more, invokes f and passes
      on its outcome; a returned value is stored with the time `now`. */
  lemma MissRule<K, R, E>(entries: map<K, Entry<R>>, ttl: int, k: K, now: int, outcome: Outcome<R, E>)
    requires k !in entries || now - entries[k].insertedAt >= ttl
    ensures Step(entries, ttl, k, now, outcome).invoked
    ensures Step(entries, ttl, k, now, outcome).result == outcome
    ensures outcome.Returned? ==>
      Step(entries, ttl, k, now, outcome).entries == entries[k := Entry(now, outcome.value)]
  {
  }

  /** A raising f leaves the dictionary exactly as it was, stale entry
      included, and the caller sees the exception. */
  lemma FailureNotCached<K, R, E>(entries: map<K, Entry<R>>, ttl: int, k: K, now: int, outcome: Outcome<R, E>)
    requires outcome.Raised?
    ensures Step(entries, ttl, k, now, outcome).entries == entries
    ensures Step(entries, ttl, k, now, outcome).invoked ==> Step(entries, ttl, k, now, outcome).result == outcome
  {
  }

  /** One call touches at most the entry of its own key, and never removes one. */
  lemma StepFrame<K, R, E>(entries: map<K, Entry<R>>, ttl: int, k: K, now: int, outcome: Outcome<R, E>)
    ensures entries.Keys <= Step(entries, ttl, k, now, outcome).entries.Keys <= entries.Keys + {k}
    ensures forall k' :: k' in entries && k' != k ==> Step(entries, ttl, k, now, outcome).entries[k'] == entries[k']
  {
  }

  /** After a call that invoked f and got r at time t, the same key at any t2
      with t <= t2 < t + ttl is a hit that returns r. */
  lemma MemoisedWithinTtl<K, R, E>(entries: map<K, Entry<R>>, ttl: int, k: K, t: int, outcome: Outcome<R, E>,
                            t2: int, outcome2: Outcome<R, E>)
    requires Step(entries, ttl, k, t, outcome).invoked && outcome.Returned?
    requires t <= t2 < t + ttl
    ensures var after := Step(entries, ttl, k, t, outcome).entries;
      Step(after, ttl, k, t2, outcome2) == Reply(after, Returned(outcome.value), false)
  {
  }

  /** The same call at t2 >= t + ttl is a miss: the boundary counts as expired. */
  lemma ExpiredFromTtl<K, R, E>(entries: map<K, Entry<R>>, ttl: int, k: K, t: int, outcome: Outcome<R, E>,
                         t2: int, outcome2: Outcome<R, E>)
    requires Step(entries, ttl, k, t, outcome).invoked && outcome.Returned?
    requires t2 >= t + ttl
    ensures Step(Step(entries, ttl, k, t, outcome).entries, ttl, k, t2, outcome2).invoked
  {
  }

  /** After f raised for a key, the next call for that key is decided by the
      dictionary as it was before: with no usable entry, f runs again. */
  lemma FailureRetried<K, R, E>(entries: map<K, Entry<R>>, ttl: int, k: K, t: int, outcome: Outcome<R, E>,
                         t2: int, outcome2: Outcome<R, E>)
    requires outcome.Raised?
    ensures Step(Step(entries, ttl, k, t, outcome).entries, ttl, k, t2, outcome2).invoked
        <==> !IsFresh(entries, ttl, k, t2)
  {
  }

  // ---------------------------------------------------------------------
  // Sequences of calls

  /** One call of the decorated function: the key derived from its
      arguments, the clock reading, and what f does if invoked. */
  datatype Invocation<K, R, E> = Invocation(key: K, now: int, outcome: Outcome<R, E>)

  predicate ClockNonDecreasing<K, R, E>(calls: seq<Invocation<K, R, E>>) {
    forall a, b :: 0 <= a < b < |calls| ==> calls[a].now <= calls[b].now
  }

  /** The dictionary after the first n of the calls, made one after another
      against the starting dictionary `entries`. */
  function DictAfter<K(==), R, E>(entries: map<K, Entry<R>>, ttl: int, calls: seq<Invocation<K, R, E>>, n: nat): map<K, Entry<R>>
    requires n <= |calls|
    decreases n, 0
  {
    if n == 0 then entries else ReplyAt(entries, ttl, calls, n - 1).entries
  }

  /** The reply to call j: one Step on the dictionary the calls before it left. */
  function ReplyAt<K(==), R, E>(entries: map<K, Entry<R>>, ttl: int, calls: seq<Invocation<K, R, E>>, j: nat): Reply<K, R, E>
    requires j < |calls|
    decreases j, 1
  {
    Step(DictAfter(entries, ttl, calls, j), ttl, calls[j].key, calls[j].now, calls[j].outcome)
  }

  /** Over a run the set of keys only grows: entries are never removed. */
  lemma {:induction false} DictKeysGrow<K, R, E>(entries: map<K, Entry<R>>, ttl: int, calls: seq<Invocation<K, R, E>>, n: nat)
    requires n <= |calls|
    ensures entries.Keys <= DictAfter(entries, ttl, calls, n).Keys
  {
    if n > 0 {
      var c := calls[n - 1];
      DictKeysGrow(entries, ttl, calls, n - 1);
      StepFrame(DictAfter(entries, ttl, calls, n - 1), ttl, c.key, c.now, c.outcome);
    }
  }

  /** The entry for k holds the value v stored at time t, or one stored at
      least ttl after t; either way it was stored no later than `latest`. */
  ghost predicate KeepsEntry<K, R>(e: map<K, Entry<R>>, ttl: int, k: K, t: int, v: R, latest: int) {
    && k in e
    && t <= e[k].insertedAt <= latest
    && (e[k] == Entry(t, v) || e[k].insertedAt >= t + ttl)
  }

  /** A later call, at a time no earlier than the latest, keeps KeepsEntry:
      it replaces the entry only on a miss, i.e. at least ttl after it. */
  lemma KeepsEntryStep<K, R, E>(e: map<K, Entry<R>>, ttl: int, k: K, t: int, v: R, latest: int, c: Invocation<K, R, E>)
    requires KeepsEntry(e, ttl, k, t, v, latest) && latest <= c.now
    ensures KeepsEntry(Step(e, ttl, c.key, c.now, c.outcome).entries, ttl, k, t, v, c.now)
  {
  }

  /** With a non-decreasing clock, the entry stored by a successful call i is
      still present after any later prefix of the run: its time lies between
      call i and the latest call, and it has been replaced, if at all, only by
      an entry at least ttl younger. */
  lemma {:induction false} EntryPersists<K, R, E>(entries: map<K, Entry<R>>, ttl: int, calls: seq<Invocation<K, R, E>>, i: nat, n: nat)
    requires ClockNonDecreasing(calls)
    requires i < n <= |calls|
    requires ReplyAt(entries, ttl, calls, i).invoked && calls[i].outcome.Returned?
    ensures KeepsEntry(DictAfter(entries, ttl, calls, n), ttl, calls[i].key, calls[i].now, calls[i].outcome.value, calls[n - 1].now)
  {
    if n > i + 1 {
      EntryPersists(entries, ttl, calls, i, n - 1);
      KeepsEntryStep(DictAfter(entries, ttl, calls, n - 1), ttl, calls[i].key, calls[i].now, calls[i].outcome.value,
                     calls[n - 2].now, calls[n - 1]);
    }
  }

  /** Within ttl of a call that ran f and got r, every later call with the same
      key (clock non-decreasing) is a hit that returns r: f runs at most once
      per key in any window shorter than ttl. */
  lemma MemoisedAcrossRun<K, R, E>(entries: map<K, Entry<R>>, ttl: int, calls: seq<Invocation<K, R, E>>, i: nat, j: nat)
    requires ClockNonDecreasing(calls)
    requires i < j < |calls|
    requires calls[i].key == calls[j].key
    requires ReplyAt(entries, ttl, calls, i).invoked && calls[i].outcome.Returned?
    requires calls[j].now - calls[i].now < ttl
    ensures !ReplyAt(entries, ttl, calls, j).invoked
    ensures ReplyAt(entries, ttl, calls, j).result == Returned(calls[i].outcome.value)
  {
    EntryPersists(entries, ttl, calls, i, j);
  }

  /** Every stored time is at most t when the starting dictionary's are and
      none of the first n calls reads a later time. */
  lemma {:induction false} DictTimesBounded<K, R, E>(entries: map<K, Entry<R>>, ttl: int, calls: seq<Invocation<K, R, E>>, n: nat, t: int)
    requires n <= |calls|
    requires forall k :: k in entries ==> entries[k].insertedAt <= t
    requires forall a :: 0 <= a < n ==> calls[a].now <= t
    ensures forall k :: k in DictAfter(entries, ttl, calls, n) ==> DictAfter(entries, ttl, calls, n)[k].insertedAt <= t
  {
    if n > 0 {
      var c := calls[n - 1];
      DictTimesBounded(entries, ttl, calls, n - 1, t);
      StepFrame(DictAfter(entries, ttl, calls, n - 1), ttl, c.key, c.now, c.outcome);
    }
  }

  /** With ttl <= 0, a non-decreasing clock and no entry stored in the future,
      every call invokes f: the cache is a pass-through. */
  lemma NonPositiveTtlAlwaysMisses<K, R, E>(entries: map<K, Entry<R>>, ttl: int, calls: seq<Invocation<K, R, E>>)
    requires ttl <= 0
    requires ClockNonDecreasing(calls)
    requires forall k, c :: k in entries && c in calls ==> entries[k].insertedAt <= c.now
    ensures forall j :: 0 <= j < |calls| ==> ReplyAt(entries, ttl, calls, j).invoked
  {
    forall j | 0 <= j < |calls|
      ensures ReplyAt(entries, ttl, calls, j).invoked
    {
      assert calls[j] in calls;
      NonPositiveTtlMissAt(entries, ttl, calls, j);
    }
  }

  lemma NonPositiveTtlMissAt<K, R, E>(entries: map<K, Entry<R>>, ttl: int, calls: seq<Invocation<K, R, E>>, j: nat)
    requires ttl <= 0
    requires ClockNonDecreasing(calls)
    requires j < |calls|
    requires forall k :: k in entries ==> entries[k].insertedAt <= calls[j].now
    ensures ReplyAt(entries, ttl, calls, j).invoked
  {
    var c := calls[j];
    DictTimesBounded(entries, ttl, calls, j, c.now);
    var before := DictAfter(entries, ttl, calls, j);
    assert !IsFresh(before, ttl, c.key, c.now) by {
      if c.key in before {
        assert before[c.key].insertedAt <= c.now;
      }
    }
  }

  // ---------------------------------------------------------------------
  // The decorated function and its dictionary

  /** The dictionary `cache` that `cached(ttl)(f)` captures: created empty when
      the decorator is applied, and updated in place by every miss whose f
      returns. */
  class CachedFunction<K(==), R> {
    const ttl: int
    var entries: map<K, Entry<R>>

    constructor (ttl: int)
      ensures this.ttl == ttl && entries == map[]
    {
      this.ttl := ttl;
      entries := map[];
    }

    /** One call of the wrapper once its key k is derived, at clock reading
        `now`; `outcome` is what f does if it is invoked. */
    method CallWithKey<E>(k: K, now: int, outcome: Outcome<R, E>) returns (result: Outcome<R, E>, invoked: bool)
      modifies this
      ensures Reply(entries, result, invoked) == Step(old(entries), ttl, k, now, outcome)
      ensures invoked <==> !(k in old(entries) && now - old(entries)[k].insertedAt < ttl)
      ensures !invoked ==> result == Returned(old(entries)[k].value) && entries == old(entries)
      ensures invoked ==> result == outcome
      ensures invoked && outcome.Returned? ==> entries == old(entries)[k := Entry(now, outcome.value)]
      ensures outcome.Raised? ==> entries == old(entries)
    {
      if k in entries && now - entries[k].insertedAt < ttl {
        return Returned(entries[k].value), false;
      }
      result, invoked := outcome, true;
      if outcome.Returned? {
        entries := entries[k := Entry(now, outcome.value)];
      }
    }
  }

  /** The source's wrapper: the key is the flat tuple of the positional values
      followed by the sorted keyword pairs. */
  method Wrapper<R, E>(cf: CachedFunction<seq<Value>, R>, args: seq<Value>, kwargs: seq<Kwarg>, now: int, outcome: Outcome<R, E>)
    returns (result: Outcome<R, E>, invoked: bool)
    modifies cf
    ensures Reply(cf.entries, result, invoked) == Step(old(cf.entries), cf.ttl, FlatKey(args, kwargs), now, outcome)
  {
    result, invoked := cf.CallWithKey(FlatKey(args, kwargs), now, outcome);
  }

  /** The wrapper with the key kept in two parts, positional and keyword. */
  method SeparatedWrapper<R, E>(cf: CachedFunction<Key, R>, args: seq<Value>, kwargs: seq<Kwarg>, now: int, outcome: Outcome<R, E>)
    returns (result: Outcome<R, E>, invoked: bool)
    modifies cf
    ensures Reply(cf.entries, result, invoked) == Step(old(cf.entries), cf.ttl, DeriveKey(args, kwargs), now, outcome)
  {
    result, invoked := cf.CallWithKey(DeriveKey(args, kwargs), now, outcome);
  }

  // ---------------------------------------------------------------------
  // What the flat key does to the cache

  /** In the source, once `f((name, v))` has run and returned r at t, the
      different call `f(name=v)` at any t2 in [t, t + ttl) is a hit that
      returns r without running f. */
  lemma FlatKeySharesEntry<R, E>(entries: map<seq<Value>, Entry<R>>, ttl: int, name: string, v: Value,
                                 t: int, outcome: Outcome<R, E>, t2: int, outcome2: Outcome<R, E>)
    requires Step(entries, ttl, FlatKey([PairValue((name, v))], []), t, outcome).invoked && outcome.Returned?
    requires t <= t2 < t + ttl
    ensures var after := Step(entries, ttl, FlatKey([PairValue((name, v))], []), t, outcome).entries;
      Step(after, ttl, FlatKey([], [(name, v)]), t2, outcome2) == Reply(after, Returned(outcome.value), false)
  {
    FlatKeyCollision(name, v);
  }

  /** With separated keys, whatever `f((name, v))` stores, the call
      `f(name=v)` is decided by the dictionary as it was before: it runs f
      unless that call already had a fresh entry of its own. */
  lemma SeparatedKeysDoNotShare<R, E>(entries: map<Key, Entry<R>>, ttl: int, name: string, v: Value,
                                      t: int, outcome: Outcome<R, E>, t2: int, outcome2: Outcome<R, E>)
    ensures var after := Step(entries, ttl, DeriveKey([PairValue((name, v))], []), t, outcome).entries;
      var k := DeriveKey([], [(name, v)]);
      && (Step(after, ttl, k, t2, outcome2).invoked <==> !IsFresh(entries, ttl, k, t2))
      && (k in entries ==> k in after && after[k] == entries[k])
  {
    FlatKeyCollision(name, v);
    StepFrame(entries, ttl, DeriveKey([PairValue((name, v))], []), t, outcome);
  }

  /** The source's cache, driven through its wrapper: `f(("x", 1))` at time 7
      returns 1, then `f(x=1)` at time 8 is served that 1 without running f. */
  method FlatKeyCollisionDemo() returns (second: Outcome<int, string>, invoked: bool)
    ensures !invoked && second == Returned(1)
  {
    var cf := new CachedFunction<seq<Value>, int>(5);
    var returnsOne: Outcome<int, string> := Returned(1);
    var first, ran := Wrapper(cf, [PairValue(("x", Int(1)))], [], 7, returnsOne);
    FlatKeyCollision("x", Int(1));
    var wouldRaise: Outcome<int, string> := Raised("f would run");
    second, invoked := Wrapper(cf, [], [("x", Int(1))], 8, wouldRaise);
  }
}

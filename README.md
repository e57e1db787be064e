# func-cache: the `cached(ttl)` memoisation decorator, modelled in Dafny

`cached(ttl)` wraps a function `f` in a memoising wrapper. Each decorated
function has its own dictionary. The dictionary maps a key derived from the
call's arguments to the pair (time of insertion, result).

A call first derives its key. The key is the positional arguments, in order,
followed by the keyword arguments as `(name, value)` pairs sorted by name. The
call then reads the clock once. It is a hit when an entry exists for the key
and the entry is younger than `ttl` (strictly: `now - insertedAt < ttl`); a
hit returns the stored result without running `f`. Otherwise `f` runs. If `f`
returns `r`, the entry becomes `(now, r)`, using the clock reading taken
before the lookup, and `r` is returned. If `f` raises, the exception reaches
the caller and the dictionary is untouched. No entry is ever removed.

The project has three modules:

- `Names` (`names.dfy`): Python's ordering of `str` values, used by `sorted`,
  proved to be a strict total order.
- `CacheKeys` (`keys.dfy`): key derivation. This includes the source's flat
  key `FlatKey` and a key with separate positional and keyword parts,
  `DeriveKey`; see "## Findings".
  Sorting is an insertion sort by name. It is proved to be a permutation, to
  be strictly sorted, and to be the same for any ordering of the keyword
  arguments.
- `TtlCache` (`cache.dfy`):
  - `Step` specifies one call. `DictAfter` and `ReplyAt` specify a sequence
    of calls: the dictionary after the first n calls, and the reply to call j.
  - The lemmas state the hit, miss, failure, frame and expiry rules, and
    memoisation across a whole run.
  - Everything above is generic in the key type, so the same rules hold for
    both kinds of key.
  - `CachedFunction` is the dictionary as a class. Its constructor models
    applying the decorator, and its `CallWithKey` method models the lookup
    and store, proved to implement `Step`.
  - `Wrapper` is the source's wrapper: it derives the key with `FlatKey` and
    calls `CallWithKey`. `SeparatedWrapper` is the same wrapper keyed by
    `DeriveKey`.

The clock is an integer parameter `now`. What `f` does on a call is a
parameter `outcome`: `Returned(r)` or `Raised(e)`. The `invoked` result says
whether `f` ran.

The synchronous `wrapper` (lines 15-22) and the `async_wrapper` (lines 25-32)
run the same cache logic, so the model has it once.

The code accepts any `ttl`, including negative ones, and never rejects one.
The code has no locking and no coalescing of concurrent misses.

## Model

| member | source | states |
|---|---|---|
| Names.NameLt | func_cache/cached.py:16 | Python's `<` on `str`, which `sorted` uses; no contract of its own, NameLtIrreflexive, NameLtTransitive, NameLtAsymmetric and NameLtTotal show it is a strict total order |
| CacheKeys.SortByName | func_cache/cached.py:16 | sorting the keyword pairs yields exactly the same pairs (as a multiset) as the call supplied |
| CacheKeys.SortByNameSorted | func_cache/cached.py:16 | with distinct keyword names, the sorted pairs are in strictly increasing name order |
| CacheKeys.SortedByNameUnique | func_cache/cached.py:16 | two name-sorted arrangements of the same pairs are identical, so the sorted order is unique |
| CacheKeys.SortByNameOrderIrrelevant | func_cache/cached.py:16 | keyword arguments given in any order, with the same names and values, sort to the same sequence |
| CacheKeys.FlatKey | func_cache/cached.py:16 | the key as the source writes it; no contract of its own, FlatKeyLayout characterises it |
| CacheKeys.FlatKeyLayout | func_cache/cached.py:16 | the source's key has one element per argument: the positional values first, in their given order, then one `(name, value)` tuple per keyword argument, sorted by name and a permutation of the keyword arguments |
| CacheKeys.FlatKeyKeywordOrderIrrelevant | func_cache/cached.py:16 | the source's key is the same for any order of the same keyword arguments |
| CacheKeys.FlatKeyCollision | func_cache/cached.py:16 | the source's key for a positional 2-tuple `(name, v)` equals its key for the keyword argument `name=v`, although the two argument lists differ |
| CacheKeys.DeriveKey | func_cache/cached.py:16 | the corrected key, positional and keyword parts kept apart; no contract of its own, DeriveKeyLayout and DeriveKeyEqualIff characterise it |
| CacheKeys.DeriveKeyLayout | func_cache/cached.py:16 | the key holds the positional arguments unchanged and exactly the keyword pairs, strictly sorted by name |
| CacheKeys.DeriveKeyEqualIff | func_cache/cached.py:16 | two calls get the same key if and only if their positional arguments are equal in order and their keyword pairs are equal up to order |
| CacheKeys.PositionalSwapChangesKey | func_cache/cached.py:16 | exchanging two different positional values changes the key |
| TtlCache.IsFresh | func_cache/cached.py:18 | the hit test: an entry exists and `now - insertedAt < ttl`, strictly; no contract of its own, HitRule, MissRule and ExpiredFromTtl state its consequences |
| TtlCache.Step | func_cache/cached.py:17-22 | one call of the wrapper for a derived key; no contract of its own, HitRule, MissRule, FailureNotCached and StepFrame characterise it |
| TtlCache.HitRule | func_cache/cached.py:17-19 | when an entry exists and `now - insertedAt < ttl`, the call returns the stored value, does not invoke `f` and leaves the dictionary unchanged |
| TtlCache.MissRule | func_cache/cached.py:18-22 | when there is no entry or `now - insertedAt >= ttl`, `f` is invoked, its outcome is what the caller gets, and a returned `r` is stored as exactly `(now, r)` under the key |
| TtlCache.FailureNotCached | func_cache/cached.py:20-21 | when `f` raises, the dictionary stays exactly as it was (any stale entry included) and the exception reaches the caller |
| TtlCache.StepFrame | func_cache/cached.py:21 | a call changes at most the entry of its own key; every other entry is unchanged and no key is removed |
| TtlCache.MemoisedWithinTtl | func_cache/cached.py:17-21 | after a call that ran `f` at `t` and got `r`, the same key at any `t2` with `t <= t2 < t + ttl` is a hit that returns `r` and changes nothing |
| TtlCache.ExpiredFromTtl | func_cache/cached.py:18 | after a successful miss at `t`, the same key at `t2 >= t + ttl` invokes `f` again: the boundary counts as expired |
| TtlCache.FailureRetried | func_cache/cached.py:18-21 | after `f` raised for a key, the next call for that key invokes `f` exactly when the dictionary held no fresh entry for it before the failure |
| TtlCache.DictKeysGrow | func_cache/cached.py:12-22 | over any prefix of a sequence of calls the dictionary's key set only grows: no entry is ever removed |
| TtlCache.KeepsEntryStep | func_cache/cached.py:18-21 | a later call keeps an entry stored at `t` or replaces it only with one stored at least `ttl` after `t`, since it overwrites only on a miss |
| TtlCache.EntryPersists | func_cache/cached.py:18-21 | with a non-decreasing clock, the entry stored by a successful call stays present; it is replaced only by an entry stored at least `ttl` later |
| TtlCache.MemoisedAcrossRun | func_cache/cached.py:12-22 | with a non-decreasing clock, every later call with the same key less than `ttl` after a successful miss is a hit returning that miss's result, so `f` runs at most once per key in such a window |
| TtlCache.DictTimesBounded | func_cache/cached.py:17-21 | stored times never exceed a bound that the initial entries and every clock reading respect, since each stored time is the reading taken before the lookup |
| TtlCache.NonPositiveTtlAlwaysMisses | func_cache/cached.py:18 | with `ttl <= 0`, a non-decreasing clock and no entry stored in the future, every call of a run invokes `f` |
| TtlCache.NonPositiveTtlMissAt | func_cache/cached.py:18 | the same for one given call of a run |
| TtlCache.CachedFunction.constructor | func_cache/cached.py:11-12 | applying the decorator fixes `ttl` and starts with an empty dictionary |
| TtlCache.CachedFunction.CallWithKey | func_cache/cached.py:17-22 | the lookup and store for a derived key behave as `Step`: `f` is invoked exactly on a miss, a hit returns the stored value and changes nothing, `f` returning `r` stores exactly `(now, r)`, and `f` raising leaves the dictionary unchanged |
| TtlCache.Wrapper | func_cache/cached.py:15-22 | the source's wrapper: keys the call by the flat tuple `FlatKey` and then behaves as `Step` |
| TtlCache.SeparatedWrapper | func_cache/cached.py:15-22 | the corrected wrapper: keys the call by `DeriveKey` and then behaves as `Step` |
| TtlCache.FlatKeySharesEntry | func_cache/cached.py:16-21 | in the source, after `f((name, v))` ran at `t` and returned `r`, the call `f(name=v)` at any `t2` with `t <= t2 < t + ttl` is a hit returning `r` without running `f` |
| TtlCache.SeparatedKeysDoNotShare | func_cache/cached.py:16-21 | with separated keys, whatever `f((name, v))` stores, whether `f(name=v)` runs depends only on its own entry from before, which stays as it was |
| TtlCache.FlatKeyCollisionDemo | func_cache/cached.py:11-22 | on a fresh cache with `ttl` 5, `f(("x", 1))` at 7 returning 1 makes `f(x=1)` at 8 return 1 without running `f` |

## Left out

- Async dispatch: the `asyncio.iscoroutinefunction` choice (line 34) and the `await` (line 30) are not modelled. The async wrapper's cache logic is the one `Wrapper` models.
- Concurrency: the source has no synchronisation, so racing misses, coalescing and in-flight markers are not modelled. Calls are sequential.
- Clock: `time.time()` returns a float. It becomes an integer parameter, assumed non-decreasing only where a lemma about a sequence of calls says so.
- `functools.wraps` (lines 14 and 24) copies function metadata and is not modelled.
- Argument values: only hashable integers, strings and tuples are modelled. Python's cross-type equality (`1 == True == 1.0`) is not modelled. An unhashable argument makes the dictionary lookup raise `TypeError` before `f` runs; the model does not have that path.
- CacheKeys.SortByName: orders by name only, while `sorted` on pairs compares the name and then the value. The two agree because keyword names in one call are always distinct, and every lemma that needs this requires `DistinctNames`.
- Re-entrant calls: `f` may call the decorated function itself (memoised recursion). Those nested calls run between the lookup (line 18) and the store (line 21). Line 21 then writes `(t, r)` with the outer call's older `t`, which can replace a newer entry that a nested call stored for the same key. The model treats `f` as one atomic outcome, so `CallWithKey` and `Wrapper` do not model nesting. A run with nesting has its nested calls timestamped after the outer call's `t` but stored first, so it never satisfies `ClockNonDecreasing`, and `EntryPersists` and `MemoisedAcrossRun` say nothing about it.
- Eviction and TTL validation: the source has neither, so neither is modelled.

## Findings

| source | as written | input that shows it | evidently intended | confidence | as-written member | corrected member |
|---|---|---|---|---|---|---|
| func_cache/cached.py:16 | the sorted keyword pairs are appended to the positional-argument tuple with nothing marking where the keywords start | `f(("x", 1))` and `f(x=1)` both derive the key `(("x", 1),)`, so the second call returns the first call's cached result | different argument lists derive different keys (positional and keyword parts kept apart) | high; not executed | TtlCache.FlatKeySharesEntry | TtlCache.SeparatedKeysDoNotShare |

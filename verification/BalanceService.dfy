/** The balance operations of the admin service, working on its fields. While one of them waits for
    the upstream, others run. */
module BalanceService {
  import opened Text
  import opened BalanceCache
  import opened BalanceRuns
  import opened QuotaSweep

  const BALANCE_CACHE_TTL_SECS: real := 300.0

  /** `out` files every credential of `seen` under its key, and nothing else. */
  ghost predicate IsIndex(pool: Pool, seen: set<Id>, out: map<Key, set<Id>>) {
    && (forall id :: id in seen ==> KeyOf(pool, id) in out && id in out[KeyOf(pool, id)])
    && (forall k, id :: k in out && id in out[k] ==> id in seen && KeyOf(pool, id) == k)
    && (forall k :: k in out ==> out[k] != {})
  }

  lemma IndexIsSharers(pool: Pool, out: map<Key, set<Id>>, k: Key)
    requires IsIndex(pool, pool.Keys, out)
    ensures (k in out <==> Sharers(pool, k) != {}) && (k in out ==> out[k] == Sharers(pool, k))
  {
    if k in out {
      assert forall id :: id in out[k] <==> id in Sharers(pool, k);
      var id :| id in out[k];
      assert id in Sharers(pool, k);
    }
  }

  lemma IndexIsWhole(pool: Pool, out: map<Key, set<Id>>)
    requires IsIndex(pool, pool.Keys, out)
    ensures forall k :: k in out <==> Sharers(pool, k) != {}
    ensures forall k :: k in out ==> out[k] == Sharers(pool, k)
  {
    forall k { IndexIsSharers(pool, out, k); }
  }

  /** One id more under its key. */
  function WithId(out: map<Key, set<Id>>, k: Key, id: Id): map<Key, set<Id>> {
    out[k := (if k in out then out[k] else {}) + {id}]
  }

  lemma IndexStep(pool: Pool, seen: set<Id>, out: map<Key, set<Id>>, id: Id, more: set<Id>)
    requires IsIndex(pool, seen, out) && more == seen + {id}
    ensures IsIndex(pool, more, WithId(out, KeyOf(pool, id), id))
  {
  }

  /** How the upstream answers a balance request. */
  datatype Answer = Arrived(balance: Balance) | Refused | TimedOut

  datatype Shown = Given(balance: Balance) | NoBalance

  function Received(a: Answer): Option<Balance> { if a.Arrived? then Some(a.balance) else None }

  /** The cached balance of `id`, fresh enough to be given without asking. */
  predicate IsFresh(b: Books, id: Id, now: real) {
    KeyOf(b.pool, id) in b.cache && now - b.cache[KeyOf(b.pool, id)].cachedAt < BALANCE_CACHE_TTL_SECS
  }

  /** What `get_balance` returns once it has asked: on a time-out the cached value, marked stale. */
  function Outcome(b: Books, id: Id, a: Answer): Shown {
    match a
    case Arrived(balance) => Given(balance)
    case Refused => NoBalance
    case TimedOut =>
      var k := KeyOf(b.pool, id);
      if k in b.cache then Given(b.cache[k].data.(stale := true)) else NoBalance
  }

  /** The same operation; only the order the cache is listed in may differ. */
  predicate SameBut(a: Step, b: Step) {
    match a
    case Arrive(c, reading, now, _) => b.Arrive? && b.c == c && b.reading == reading && b.now == now
    case RePush(_) => b.RePush?
    case _ => b == a
  }

  ghost predicate AllSameBut(xs: seq<Step>, ys: seq<Step>) {
    |xs| == |ys| && forall i :: 0 <= i < |xs| ==> SameBut(xs[i], ys[i])
  }

  ghost predicate SameProbe(p: Probe, q: Probe) {
    AllSameBut(p.before, q.before) && AllSameBut(p.during, q.during) && q.reading == p.reading && q.now == p.now
  }

  lemma SameAround(begin: Step, during: seq<Step>, done: seq<Step>, arrive: Step, arrived: Step)
    requires AllSameBut(during, done) && SameBut(begin, begin) && SameBut(arrive, arrived)
    ensures AllSameBut([begin] + during + [arrive], [begin] + done + [arrived])
  {
  }

  lemma RunSnoc(s: State, steps: seq<Step>, step: Step)
    ensures Run(s, steps + [step]) == Apply(Run(s, steps), step)
  {
    RunAppend(s, steps, [step]);
    RunOne(Run(s, steps), step);
  }

  lemma RequestRun(s: State, begin: Step, during: seq<Step>, arrive: Step)
    ensures Run(s, [begin] + during + [arrive]) == Apply(Run(Apply(s, begin), during), arrive)
  {
    RunOne(s, begin);
    RunAppend(s, [begin], during);
    RunAppend(s, [begin] + during, [arrive]);
    RunOne(Run(Apply(s, begin), during), arrive);
  }

  /** Of the entries `claims`, listed so far, each id has what the last one listed gives it. */
  ghost predicate IsSpread(pool: Pool, cache: Cache, claims: set<Key>, odd: set<Id>, out: map<Id, Item>) {
    && claims <= cache.Keys
    && (forall id :: id in out <==> Winner(pool, claims, odd, id).Some?)
    && (forall id :: id in out ==>
          var e := cache[Winner(pool, claims, odd, id).value]; out[id] == Item(e.data, e.cachedAt))
  }

  lemma SpreadOne(pool: Pool, cache: Cache, claims: set<Key>, odd: set<Id>, out: map<Id, Item>, k: Key, ids: set<Id>)
    requires IsSpread(pool, cache, claims, odd, out) && k in cache && ids == IdsOf(pool, k)
    ensures IsSpread(pool, cache, claims + {k}, Later(pool, odd, k),
                     out + map id | id in ids :: Item(cache[k].data, cache[k].cachedAt))
  {
    forall id { WinnerStep(pool, claims, odd, k, id); }
  }

  /** The first `i` probes of a sweep are done, as `done` says, with `count` positive readings. */
  ghost predicate IsSwept(start: State, now: State, c: CallId, due: seq<Id>, probes: seq<Probe>, done: seq<Probe>,
                          i: nat, count: nat)
  {
    && |probes| == |due| == |done| && i <= |due|
    && (forall j :: 0 <= j < i ==> SameProbe(probes[j], done[j]))
    && now == Run(start, SweepSteps(c, due, done, i)) && count == CountPositive(start, c, due, done, i)
  }

  lemma SweptNone(start: State, c: CallId, due: seq<Id>, probes: seq<Probe>)
    requires |probes| == |due|
    ensures IsSwept(start, start, c, due, probes, probes, 0, 0)
  {
  }

  lemma SweptOneMore(start: State, mid: State, now: State, c: CallId, due: seq<Id>, probes: seq<Probe>,
                     done: seq<Probe>, i: nat, count: nat, q: Probe, reading: Reading)
    requires IsSwept(start, mid, c, due, probes, done, i, count) && i < |due| && SameProbe(probes[i], q)
    requires now == Run(mid, ProbeSteps(c, due[i], q)) && reading == ReadingOf(mid, due[i], q)
    ensures IsSwept(start, now, c, due, probes, done[i := q], i + 1,
                    count + if Classify(reading).FreshPositive? then 1 else 0)
  {
    var more := done[i := q];
    SweepLocal(start, c, due, done, more, i);
    SweepRun(start, c, due, more, i);
  }

  class AdminBalances {
    var pool: Pool
    var used: Spending
    var cache: Cache
    var snaps: Snapshots
    var bin: map<Id, Binned>
    var flights: map<CallId, Flight>
    var nextId: Id

    function Current(): State
      reads this
    {
      State(Books(pool, used, cache, snaps), bin, flights, nextId)
    }

    ghost predicate Valid()
      reads this
    {
      Inv(Current())
    }

    constructor (pool: Pool, used: Spending, bin: map<Id, Binned>, cache: Cache, nextId: Id)
      requires Inv(State(Books(pool, used, cache, map[]), bin, map[], nextId))
      ensures Valid() && Current() == State(Books(pool, used, cache, map[]), bin, map[], nextId)
    {
      this.pool := pool;
      this.used := used;
      this.bin := bin;
      this.cache := cache;
      this.nextId := nextId;
      snaps := map[];
      flights := map[];
    }

    // ---------- the snapshot table ----------

    /** `balance_key_to_ids`. */
    method BalanceKeyToIds() returns (out: map<Key, set<Id>>)
      ensures forall k :: k in out <==> Sharers(pool, k) != {}
      ensures forall k :: k in out ==> out[k] == Sharers(pool, k)
    {
      out := map[];
      var live := pool;
      var todo := live.Keys;
      ghost var seen: set<Id> := {};
      while todo != {}
        invariant todo + seen == live.Keys && IsIndex(live, seen, out)
        decreases |todo|
      {
        var id :| id in todo;
        todo := todo - {id};
        IndexStep(live, seen, out, id, seen + {id});
        out, seen := WithId(out, KeyOf(live, id), id), seen + {id};
      }
      IndexIsWhole(live, out);
    }

    method SnapshotsOfEntry(keyToIds: map<Key, set<Id>>, k: Key, renewed: set<Key>) returns (one: Snapshots)
      requires k in cache && (k in keyToIds <==> Sharers(pool, k) != {})
      requires k in keyToIds ==> keyToIds[k] == Sharers(pool, k)
      ensures one == map id | id in IdsOf(pool, k) :: SnapshotOf(used, cache[k], snaps, k in renewed, id)
    {
      var ids := if k in keyToIds then keyToIds[k] else if k.ById? then {k.id} else {};
      one := map id | id in ids :: SnapshotOf(used, cache[k], snaps, k in renewed, id);
    }

    /** `push_balance_snapshots_to_scheduler`: the table is rebuilt entry by entry, in whatever
        order the cache lists them; `odd` tells which. */
    method PushBalanceSnapshots(renewed: set<Key>) returns (ghost odd: set<Id>)
      modifies this`snaps
      ensures snaps == Pushed(old(Current()).books, renewed, odd)
    {
      var keyToIds := BalanceKeyToIds();
      var out: Snapshots := map[];
      var todo := cache.Keys;
      ghost var b := Current().books;
      odd := {};
      while todo != {}
        invariant todo <= cache.Keys && out == PushOf(b, renewed, cache.Keys - todo, odd)
        invariant Current().books == b
        decreases |todo|
      {
        var k :| k in todo;
        assert cache.Keys - todo + {k} == cache.Keys - (todo - {k});
        if EffectiveLimit(cache[k].data) > 0.0 {
          var one := SnapshotsOfEntry(keyToIds, k, renewed);
          PushOneKey(b, renewed, cache.Keys - todo, odd, k, one);
          out := out + one;
          odd := Later(pool, odd, k);
        } else {
          PushNoKey(b, renewed, cache.Keys - todo, odd, k);
        }
        todo := todo - {k};
      }
      assert cache.Keys - todo == cache.Keys;
      snaps := out;
    }

    /** `commit_fresh_balance`: value and baselines change together, whether or not a live
        credential has the key. */
    method CommitFreshBalance(key: Key, balance: Balance, now: real) returns (ghost odd: set<Id>)
      modifies this`cache, this`snaps
      ensures Current() == old(Current()).(books := Committed(old(Current()).books, key, balance, now, odd))
    {
      cache := cache[key := Entry(now, balance)];
      odd := PushBalanceSnapshots({key});
    }

    // ---------- credentials ----------

    /** `add_credits`. */
    method AddCredits(id: Id, credits: real)
      modifies this`used
      ensures Current() == Apply(old(Current()), Spend(id, credits))
    {
      if !(credits > 0.0) || id !in used { return; }
      used := used[id := used[id] + credits];
    }

    /** A credential enters the pool under the next id. */
    method AddCredential(apiKey: Option<string>)
      modifies this`pool, this`used, this`nextId
      ensures Current() == Apply(old(Current()), Add(apiKey))
    {
      pool, used, nextId := pool[nextId := apiKey], used[nextId := 0.0], nextId + 1;
    }

    /** `prune_balance_cache_for_deleted`: the entry goes with its last credential. */
    method PruneForDeleted(key: Key)
      modifies this`cache
      ensures cache == if Sharers(pool, key) != {} then old(cache) else old(cache) - {key}
    {
      var keyToIds := BalanceKeyToIds();
      if key in keyToIds { return; }
      cache := cache - {key};
    }

    /** `delete_credential_forced`: the key is worked out before the credential goes into the bin. If
        then the pool file cannot be written, the call fails before it prunes. */
    method DeleteCredential(id: Id, saved: bool)
      modifies this`pool, this`used, this`cache, this`bin
      ensures Current() == Apply(old(Current()), if saved then Delete(id) else DeleteUnsaved(id))
    {
      if id !in pool { return; }
      var key := KeyOf(pool, id);
      bin := bin[id := Binned(pool[id], UsedNow(used, id))];
      pool, used := pool - {id}, used - {id};
      if !saved { return; }
      PruneForDeleted(key);
    }

    /** `restore_credential`: a clone comes back only if forced, and anything with its old key and
        spend; no cache entry is looked at. */
    method RestoreCredential(id: Id, force: bool) returns (ok: bool)
      requires Valid()
      modifies this`pool, this`used, this`bin
      ensures ok <==> id in old(bin) && (force || old(bin)[id].apiKey.None? || old(bin)[id].apiKey !in old(pool).Values)
      ensures Current() == if ok then Apply(old(Current()), Restore(id)) else old(Current())
    {
      if id !in bin { return false; }
      if !force && bin[id].apiKey.Some? && bin[id].apiKey in pool.Values { return false; }
      pool, used := pool[id := bin[id].apiKey], used[id := bin[id].used];
      bin := bin - {id};
      return true;
    }

    /** `purge_credential`, of a deleted credential: by now its key is its id. It too prunes only if
        the file of the bin could be written. */
    method PurgeCredential(id: Id, saved: bool)
      requires Valid()
      modifies this`cache, this`bin
      ensures Current() == Apply(old(Current()), if saved then Purge(id) else Forget({id}))
    {
      if id !in bin {
        assert bin - {id} == bin;
        return;
      }
      bin := bin - {id};
      if !saved { return; }
      assert Sharers(pool, ById(id)) == {};
      PruneForDeleted(KeyOf(pool, id));
    }

    /** `purge_trash_batch`, `purge_all_trash` and `purge_expired_trash`: the bin alone. */
    method ForgetDeleted(ids: set<Id>)
      modifies this`bin
      ensures Current() == Apply(old(Current()), Forget(ids))
    {
      bin := bin - ids;
    }

    // ---------- requests ----------

    /** A request goes out. */
    method BeginRequest(c: CallId, id: Id, early: bool)
      modifies this`flights
      ensures Current() == Apply(old(Current()), Begin(c, id, early))
    {
      if id !in pool || c in flights { return; }
      flights := flights[c := if early then Early(id, KeyOf(pool, id)) else Late(id)];
    }

    /** Its answer comes. */
    method EndRequest(c: CallId, reading: Option<Balance>, now: real) returns (ghost odd: set<Id>)
      modifies this`flights, this`cache, this`snaps
      ensures Current() == Apply(old(Current()), Arrive(c, reading, now, odd))
    {
      odd := {};
      if c in flights && reading.Some? {
        odd := CommitFreshBalance(KeyAt(pool, flights[c]), reading.value, now);
      }
      flights := flights - {c};
    }

    /** Any one operation. */
    method Perform(step: Step) returns (ghost done: Step)
      requires Valid()
      modifies this
      ensures Valid() && SameBut(step, done) && Current() == Apply(old(Current()), done)
    {
      done := step;
      match step {
        case Spend(id, credits) => AddCredits(id, credits);
        case Add(apiKey) => AddCredential(apiKey);
        case Begin(c, id, early) => BeginRequest(c, id, early);
        case Arrive(c, reading, now, _) =>
          ghost var odd := EndRequest(c, reading, now);
          done := Arrive(c, reading, now, odd);
        case RePush(_) =>
          ghost var odd := PushBalanceSnapshots({});
          done := RePush(odd);
        case Delete(id) => DeleteCredential(id, true);
        case DeleteUnsaved(id) => DeleteCredential(id, false);
        case Restore(id) => var ok := RestoreCredential(id, true);
        case Purge(id) => PurgeCredential(id, true);
        case Forget(ids) => ForgetDeleted(ids);
      }
      StepKeepsInv(old(Current()), done);
    }

    /** What others do while an operation waits. */
    method Await(steps: seq<Step>) returns (ghost done: seq<Step>)
      requires Valid()
      modifies this
      ensures Valid() && AllSameBut(steps, done) && Current() == Run(old(Current()), done)
    {
      ghost var start := Current();
      done := [];
      for i := 0 to |steps|
        invariant Valid() && AllSameBut(steps[..i], done) && Current() == Run(start, done)
      {
        ghost var one := Perform(steps[i]);
        RunSnoc(start, done, one);
        done := done + [one];
      }
      assert steps[..|steps|] == steps;
    }

    /** `get_balance`: a fresh cached value without asking; otherwise the answer, committed under
        the key worked out before the wait. */
    method GetBalance(c: CallId, id: Id, force: bool, asked: real, during: seq<Step>, answer: Answer, answered: real)
      returns (r: Shown, ghost done: seq<Step>)
      requires Valid() && c !in flights && Avoids(during, c)
      modifies this
      ensures Valid() && Current() == Run(old(Current()), done)
      ensures var b := old(Current()).books;
              if !force && IsFresh(b, id, asked) then r == Given(b.cache[KeyOf(b.pool, id)].data) && done == []
              else if id !in b.pool then r == NoBalance && done == []
              else
                && r == Outcome(b, id, answer)
                && AllSameBut([Begin(c, id, true)] + during + [Arrive(c, Received(answer), answered, {})], done)
    {
      done := [];
      var cacheKey := KeyOf(pool, id);
      var fallback: Option<Balance> := None;
      if cacheKey in cache {
        var cached := cache[cacheKey];
        if !force && asked - cached.cachedAt < BALANCE_CACHE_TTL_SECS { return Given(cached.data), []; }
        fallback := Some(cached.data);
      }
      if id !in pool { return NoBalance, []; }
      ghost var start := Current();
      ghost var begun := Perform(Begin(c, id, true));
      ghost var others := Await(during);
      ghost var arrived := Perform(Arrive(c, Received(answer), answered, {}));
      RequestRun(start, begun, others, arrived);
      SameAround(begun, during, others, Arrive(c, Received(answer), answered, {}), arrived);
      done := [begun] + others + [arrived];
      match answer {
        case Arrived(balance) => r := Given(balance);
        case Refused => r := NoBalance;
        case TimedOut => r := if fallback.Some? then Given(fallback.value.(stale := true)) else NoBalance;
      }
    }

    /** `get_cached_balances`: every entry young enough is spread over its ids, in the order of the
        cache, and every item is corrected by the spend of its own id. */
    method GetCachedBalances(now: real) returns (out: map<Id, Item>, ghost odd: set<Id>)
      ensures forall id :: id in out <==> Figure(Current().books, now, odd, id).Some?
      ensures forall id :: id in out ==> Figure(Current().books, now, odd, id) == Some(out[id])
    {
      var keyToIds := BalanceKeyToIds();
      out, odd := map[], {};
      var todo := cache.Keys;
      ghost var claims: set<Key> := {};
      while todo != {}
        invariant todo <= cache.Keys && claims == Young(cache, now) - todo
        invariant IsSpread(pool, cache, claims, odd, out)
        decreases |todo|
      {
        var k :| k in todo;
        todo := todo - {k};
        var e := cache[k];
        if IsYoung(e, now) {
          var ids := if k in keyToIds then keyToIds[k] else if k.ById? then {k.id} else {};
          SpreadOne(pool, cache, claims, odd, out, k, ids);
          out := out + map id | id in ids :: Item(e.data, e.cachedAt);
          claims, odd := claims + {k}, Later(pool, odd, k);
        }
      }
      assert claims == Young(cache, now);
      out := map id | id in out :: out[id].(balance := Corrected(out[id].balance, Delta(used, snaps, id)));
    }

    // ---------- the quota sweep ----------

    /** One probe: it fails at once if its credential is gone. */
    method ProbeOne(c: CallId, id: Id, p: Probe) returns (reading: Reading, ghost q: Probe)
      requires Valid()
      modifies this
      ensures Valid() && SameProbe(p, q) && Current() == Run(old(Current()), ProbeSteps(c, id, q))
      ensures reading == ReadingOf(old(Current()), id, q)
    {
      ghost var start := Current();
      ghost var before := Await(p.before);
      reading := if id in pool then p.reading else Failed;
      ghost var begun := Perform(Begin(c, id, false));
      ghost var during := Await(p.during);
      ghost var arrived := Perform(Arrive(c, Kept(p.reading), p.now, {}));
      q := Probe(before, during, p.reading, p.now, arrived.odd);
      ProbeRun(start, c, id, q);
    }

    method ProbeAll(c: CallId, due: seq<Id>, probes: seq<Probe>) returns (freshPositive: nat, ghost done: seq<Probe>)
      requires Valid() && |probes| == |due|
      modifies this
      ensures Valid() && IsSwept(old(Current()), Current(), c, due, probes, done, |due|, freshPositive)
    {
      freshPositive, done := 0, probes;
      ghost var start := Current();
      SweptNone(start, c, due, probes);
      for i := 0 to |due|
        invariant Valid() && IsSwept(start, Current(), c, due, probes, done, i, freshPositive)
      {
        ghost var mid := Current();
        var reading;
        ghost var q;
        reading, q := ProbeOne(c, due[i], probes[i]);
        SweptOneMore(start, mid, Current(), c, due, probes, done, i, freshPositive, q, reading);
        done := done[i := q];
        // Nothing left was filed with the probe, and an unresolved one counts for nothing.
        freshPositive := freshPositive + if Classify(reading).FreshPositive? then 1 else 0;
      }
    }

    /** `sweep_quota_reset_recovery`: probe every credential that is due, keep what came back
        empty, and ask for recovery once, if at all. */
    method SweepQuotaResetRecovery(c: CallId, due: seq<Id>, probes: seq<Probe>)
      returns (freshPositive: nat, recoveries: nat, ghost done: seq<Probe>)
      requires Valid() && |probes| == |due|
      modifies this
      ensures Valid() && IsSwept(old(Current()), Current(), c, due, probes, done, |due|, freshPositive)
      ensures recoveries == if due == [] || freshPositive > 0 then 1 else 0
    {
      freshPositive, done := ProbeAll(c, due, probes);
      recoveries := if due == [] then 1 else if freshPositive == 0 then 0 else 1;
    }
  }
}

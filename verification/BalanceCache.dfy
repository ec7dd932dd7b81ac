/** Balances: one cache entry per upstream account, shared by all credentials of the account,
    and one spend baseline per credential. Amounts are exact. */
module BalanceCache {
  import opened Text

  type Id = nat

  const DISPLAY_MAX_AGE_SECS: real := 604800.0

  /** The hash of an API key, or the decimal id of a credential without one. */
  datatype Key = Account(apiKey: string) | ById(id: Id)

  /** The live credentials: the API key, if any, of each. */
  type Pool = map<Id, Option<string>>

  /** The credits each live credential has spent so far. */
  type Spending = map<Id, real>

  datatype Balance = Balance(currentUsage: real, usageLimit: real, remaining: real, usagePercentage: real,
                             nextResetAt: Option<real>, effectiveLimit: real, stale: bool, optimistic: bool)

  datatype Entry = Entry(cachedAt: real, data: Balance)

  datatype Snapshot = Snapshot(remainingAtCache: real, effectiveLimit: real, creditsUsedAtCache: real,
                               nextResetAt: Option<real>, fetchedAt: real)

  type Cache = map<Key, Entry>
  type Snapshots = map<Id, Snapshot>

  /** `balance_cache_key`. */
  function KeyOf(pool: Pool, id: Id): Key {
    if id in pool && pool[id].Some? then Account(pool[id].value) else ById(id)
  }

  /** No entry is filed under the id of a live credential that has an API key. */
  ghost predicate Proper(pool: Pool, cache: Cache) {
    forall n :: ById(n) in cache && n in pool ==> pool[n].None?
  }

  function Sharers(pool: Pool, k: Key): set<Id> { set id | id in pool && KeyOf(pool, id) == k }

  /** The ids an entry is spread over: its live credentials, or the id it is filed under. */
  function IdsOf(pool: Pool, k: Key): set<Id> {
    if Sharers(pool, k) != {} then Sharers(pool, k) else if k.ById? then {k.id} else {}
  }

  /** Two entries can be spread over an id: the one of its key and the one filed under it. */
  lemma IdsOfSpec(pool: Pool, k: Key, id: Id)
    ensures id in IdsOf(pool, k) <==> k == KeyOf(pool, id) || k == ById(id)
  {
    if id in pool && KeyOf(pool, id) == k { assert id in Sharers(pool, k); }
    if k == ById(id) {
      forall other | other in Sharers(pool, k) ensures other == id { }
      if Sharers(pool, k) != {} { var other :| other in Sharers(pool, k); }
    }
  }

  // ---------- which entry governs an id ----------

  /** The entry an id gets when those of `claims` are spread one after the other. If both are
      listed, the later one wins; `odd` are the ids filed entries come later for. */
  function Winner(pool: Pool, claims: set<Key>, odd: set<Id>, id: Id): (w: Option<Key>)
    ensures w.Some? ==> w.value in claims && (w.value == KeyOf(pool, id) || w.value == ById(id))
  {
    var own, filed := KeyOf(pool, id), ById(id);
    if own in claims && (filed == own || filed !in claims || id !in odd) then Some(own)
    else if filed in claims then Some(filed)
    else None
  }

  /** The later ids once the entry `k` has been spread. */
  function Later(pool: Pool, odd: set<Id>, k: Key): set<Id> { if k.ById? then odd + {k.id} else odd - Sharers(pool, k) }

  lemma WinnerStep(pool: Pool, claims: set<Key>, odd: set<Id>, k: Key, id: Id)
    ensures Winner(pool, claims + {k}, Later(pool, odd, k), id)
         == if id in IdsOf(pool, k) then Some(k) else Winner(pool, claims, odd, id)
  {
    IdsOfSpec(pool, k, id);
  }

  /** An entry that is not spread changes nothing but, perhaps, who is listed later. */
  lemma WinnerSkips(pool: Pool, claims: set<Key>, odd: set<Id>, id: Id)
    requires KeyOf(pool, id) == ById(id) || ById(id) !in claims
    ensures Winner(pool, claims, odd, id) == if KeyOf(pool, id) in claims then Some(KeyOf(pool, id)) else None
  {
  }

  // ---------- the snapshot table ----------

  function EffectiveLimit(b: Balance): real { if b.effectiveLimit > 0.0 then b.effectiveLimit else b.usageLimit }

  function UsedNow(used: Spending, id: Id): real { if id in used then used[id] else 0.0 }

  /** The baseline of a pushed snapshot: the present spend for a freshly fetched account or a
      new entry, otherwise the old baseline. */
  function Baseline(used: Spending, prev: Snapshots, renewed: bool, id: Id): real {
    if renewed then UsedNow(used, id) else if id in prev then prev[id].creditsUsedAtCache else UsedNow(used, id)
  }

  function SnapshotOf(used: Spending, e: Entry, prev: Snapshots, renewed: bool, id: Id): Snapshot {
    Snapshot(e.data.remaining, EffectiveLimit(e.data), Baseline(used, prev, renewed, id), e.data.nextResetAt,
             e.cachedAt)
  }

  /** Credentials, spending, cache and snapshot table. */
  datatype Books = Books(pool: Pool, used: Spending, cache: Cache, snaps: Snapshots)

  /** The ids an entry can be spread over. */
  function Candidates(b: Books): set<Id> {
    b.pool.Keys + set k | k in b.cache && k.ById? :: k.id
  }

  /** The entries a push spreads: those with a limit. */
  function Pushing(cache: Cache, keys: set<Key>): set<Key> {
    set k | k in keys && k in cache && EffectiveLimit(cache[k].data) > 0.0
  }

  lemma WinnerIsCandidate(b: Books, claims: set<Key>, odd: set<Id>, id: Id)
    requires claims <= b.cache.Keys && Winner(b.pool, claims, odd, id).Some?
    ensures id in Candidates(b)
  {
    if id !in b.pool { assert ById(id) in b.cache && ById(id).id == id; }
  }

  /** What the entries in `keys` contribute to a push. */
  function PushOf(b: Books, renewed: set<Key>, keys: set<Key>, odd: set<Id>): Snapshots {
    map id | id in Candidates(b) && Winner(b.pool, Pushing(b.cache, keys), odd, id).Some?
      :: var k := Winner(b.pool, Pushing(b.cache, keys), odd, id).value;
         SnapshotOf(b.used, b.cache[k], b.snaps, k in renewed, id)
  }

  /** The table a push leaves. */
  function Pushed(b: Books, renewed: set<Key>, odd: set<Id>): Snapshots {
    PushOf(b, renewed, b.cache.Keys, odd)
  }

  lemma PushOfSpec(b: Books, renewed: set<Key>, keys: set<Key>, odd: set<Id>, id: Id)
    ensures var w := Winner(b.pool, Pushing(b.cache, keys), odd, id); var p := PushOf(b, renewed, keys, odd);
            && (id in p <==> w.Some?)
            && (w.Some? ==> p[id] == SnapshotOf(b.used, b.cache[w.value], b.snaps, w.value in renewed, id))
  {
    if Winner(b.pool, Pushing(b.cache, keys), odd, id).Some? {
      WinnerIsCandidate(b, Pushing(b.cache, keys), odd, id);
    }
  }

  /** An id with one entry: it has a snapshot exactly if that entry has a limit, and its baseline
      is the present spend for a renewed or new one, else the old baseline. */
  lemma PushedSpec(b: Books, renewed: set<Key>, odd: set<Id>, id: Id)
    requires KeyOf(b.pool, id) == ById(id) || ById(id) !in b.cache
    ensures var k := KeyOf(b.pool, id); var p := Pushed(b, renewed, odd);
            && (id in p <==> k in b.cache && EffectiveLimit(b.cache[k].data) > 0.0)
            && (id in p ==> p[id] == SnapshotOf(b.used, b.cache[k], b.snaps, k in renewed, id))
  {
    PushOfSpec(b, renewed, b.cache.Keys, odd, id);
  }

  /** One entry more, listed last. */
  lemma PushOneKey(b: Books, renewed: set<Key>, keys: set<Key>, odd: set<Id>, k: Key, one: Snapshots)
    requires k in b.cache && EffectiveLimit(b.cache[k].data) > 0.0
    requires one == map id | id in IdsOf(b.pool, k) :: SnapshotOf(b.used, b.cache[k], b.snaps, k in renewed, id)
    ensures PushOf(b, renewed, keys, odd) + one == PushOf(b, renewed, keys + {k}, Later(b.pool, odd, k))
  {
    var before := PushOf(b, renewed, keys, odd) + one;
    var after := PushOf(b, renewed, keys + {k}, Later(b.pool, odd, k));
    assert Pushing(b.cache, keys + {k}) == Pushing(b.cache, keys) + {k};
    forall id ensures id in before <==> id in after
      ensures id in before ==> before[id] == after[id]
    {
      WinnerStep(b.pool, Pushing(b.cache, keys), odd, k, id);
      PushOfSpec(b, renewed, keys, odd, id);
      PushOfSpec(b, renewed, keys + {k}, Later(b.pool, odd, k), id);
    }
    assert before.Keys == after.Keys;
  }

  /** An entry without a limit is passed over. */
  lemma PushNoKey(b: Books, renewed: set<Key>, keys: set<Key>, odd: set<Id>, k: Key)
    requires k in b.cache && EffectiveLimit(b.cache[k].data) <= 0.0
    ensures PushOf(b, renewed, keys + {k}, odd) == PushOf(b, renewed, keys, odd)
  {
    assert Pushing(b.cache, keys + {k}) == Pushing(b.cache, keys);
  }

  // ---------- the display ----------

  function Min(a: real, b: real): real { if a <= b then a else b }
  function Max(a: real, b: real): real { if a >= b then a else b }

  datatype Item = Item(balance: Balance, cachedAt: real)

  /** The optimistic correction: only forwards, and never below nothing. */
  function Corrected(b: Balance, delta: real): Balance {
    if delta <= 0.0 then b
    else
      var usage := b.currentUsage + delta;
      b.(currentUsage := usage, remaining := Max(b.remaining - delta, 0.0),
         usagePercentage := if b.effectiveLimit > 0.0 then Min(usage / b.effectiveLimit * 100.0, 100.0)
                            else b.usagePercentage,
         optimistic := true)
  }

  function Delta(used: Spending, snaps: Snapshots, id: Id): real {
    if id in used && id in snaps then used[id] - snaps[id].creditsUsedAtCache else 0.0
  }

  predicate IsYoung(e: Entry, now: real) { now - e.cachedAt < DISPLAY_MAX_AGE_SECS }

  function Young(cache: Cache, now: real): set<Key> { set k | k in cache && IsYoung(cache[k], now) }

  /** What the panel shows for one id; `odd` as in `Winner`. */
  function Figure(b: Books, now: real, odd: set<Id>, id: Id): Option<Item> {
    match Winner(b.pool, Young(b.cache, now), odd, id)
    case None => None
    case Some(k) => Some(Item(Corrected(b.cache[k].data, Delta(b.used, b.snaps, id)), b.cache[k].cachedAt))
  }

  // ---------- what the operations do ----------

  /** `add_credits`: only positive amounts count, and only on live credentials. */
  function Charged(used: Spending, id: Id, credits: real): Spending {
    if credits > 0.0 && id in used then used[id := used[id] + credits] else used
  }

  /** `commit_fresh_balance`: it does not ask whether anybody still has the key. */
  function Committed(b: Books, k: Key, balance: Balance, now: real, odd: set<Id>): Books {
    var c := b.(cache := b.cache[k := Entry(now, balance)]);
    c.(snaps := Pushed(c, {k}, odd))
  }

  /** `delete_credential_forced`: the entry goes with the last credential that shares it. */
  function Deleted(b: Books, id: Id): Books {
    var k := KeyOf(b.pool, id);
    var pool := b.pool - {id};
    Books(pool, b.used - {id}, if Sharers(pool, k) != {} then b.cache else b.cache - {k}, b.snaps)
  }

  // ---------- the saved file ----------

  /** The key an entry of the file is moved to: entries saved under an id move to the account. */
  function Target(pool: Pool, k: Key): Key { if k.ById? then KeyOf(pool, k.id) else k }

  /** The young entries of the file that belong under `t`. */
  function Sources(pool: Pool, file: Cache, now: real, t: Key): set<Key> {
    set k | k in file && IsYoung(file[k], now) && Target(pool, k) == t
  }

  /** `e` is the most recent of the entries `ks`, or one of those. */
  ghost predicate IsLatest(file: Cache, ks: set<Key>, e: Entry) {
    && (exists k :: k in ks && k in file && file[k] == e)
    && (forall k :: k in ks && k in file ==> file[k].cachedAt <= e.cachedAt)
  }

  /** `out` is the file with each account's entries merged into the most recent one. */
  ghost predicate IsMigration(pool: Pool, file: Cache, now: real, out: Cache) {
    && (forall t :: t in out <==> Sources(pool, file, now, t) != {})
    && (forall t :: t in out ==> IsLatest(file, Sources(pool, file, now, t), out[t]))
  }

  /** `load_balance_cache_from`: the file may be listed in any order. */
  method LoadBalanceCacheFrom(file: Cache, pool: Pool, now: real) returns (migrated: Cache)
    ensures IsMigration(pool, file, now, migrated)
  {
    migrated := map[];
    var todo := file.Keys;
    ghost var done: Cache := map[];
    while todo != {}
      invariant todo <= file.Keys && done == map k | k in file.Keys - todo :: file[k]
      invariant IsMigration(pool, done, now, migrated)
      decreases |todo|
    {
      var key :| key in todo;
      var v := file[key];
      todo := todo - {key};
      ghost var before := migrated;
      if IsYoung(v, now) {
        var target := Target(pool, key);
        if !(target in migrated && migrated[target].cachedAt >= v.cachedAt) {
          migrated := migrated[target := v];
        }
      }
      OneEntry(pool, done, now, before, key, v, migrated);
      done := done[key := v];
      assert done == map k | k in file.Keys - todo :: file[k];
    }
    assert done == file;
  }

  lemma SourcesOf(pool: Pool, file: Cache, now: real, key: Key, v: Entry, t: Key)
    requires key !in file
    ensures Sources(pool, file[key := v], now, t) ==
            Sources(pool, file, now, t) + if IsYoung(v, now) && Target(pool, key) == t then {key} else {}
  {
  }

  lemma LatestOfMore(file: Cache, ks: set<Key>, e: Entry, key: Key, v: Entry)
    requires key !in file && ks <= file.Keys && IsLatest(file, ks, e)
    ensures IsLatest(file[key := v], ks, e)
    ensures e.cachedAt >= v.cachedAt ==> IsLatest(file[key := v], ks + {key}, e)
    ensures e.cachedAt <= v.cachedAt ==> IsLatest(file[key := v], ks + {key}, v)
  {
    var more := file[key := v];
    var k :| k in ks && k in file && file[k] == e;
    assert k in more && more[k] == e;
    assert key in more && more[key] == v && key in ks + {key};
  }

  /** One more entry of the file. */
  lemma OneEntry(pool: Pool, done: Cache, now: real, before: Cache, key: Key, v: Entry, after: Cache)
    requires IsMigration(pool, done, now, before) && key !in done
    requires var target := Target(pool, key);
             after == if !IsYoung(v, now) || (target in before && before[target].cachedAt >= v.cachedAt)
                      then before else before[target := v]
    ensures IsMigration(pool, done[key := v], now, after)
  {
    forall t { OneEntryAt(pool, done, now, before, key, v, after, t); }
  }

  lemma OneEntryAt(pool: Pool, done: Cache, now: real, before: Cache, key: Key, v: Entry, after: Cache, t: Key)
    requires key !in done && (t in before <==> Sources(pool, done, now, t) != {})
    requires t in before ==> IsLatest(done, Sources(pool, done, now, t), before[t])
    requires var target := Target(pool, key);
             after == if !IsYoung(v, now) || (target in before && before[target].cachedAt >= v.cachedAt)
                      then before else before[target := v]
    ensures t in after <==> Sources(pool, done[key := v], now, t) != {}
    ensures t in after ==> IsLatest(done[key := v], Sources(pool, done[key := v], now, t), after[t])
  {
    var ks, file := Sources(pool, done, now, t), done[key := v];
    SourcesOf(pool, done, now, key, v, t);
    if t in before {
      LatestOfMore(done, ks, before[t], key, v);
      assert ks + {} == ks;
    } else if t in after {
      assert ks + {key} == {key};
      assert key in file && file[key] == v;
    }
  }

  /** The migrated file can be used at once: nothing is filed under the id of a live credential
      that has an API key, and nothing is too old to be shown. */
  lemma MigrationIsProper(pool: Pool, file: Cache, now: real, out: Cache)
    requires IsMigration(pool, file, now, out)
    ensures Proper(pool, out)
    ensures forall t :: t in out ==> IsYoung(out[t], now) && Target(pool, t) == t
  {
    forall t | t in out ensures IsYoung(out[t], now) && Target(pool, t) == t {
      var ks := Sources(pool, file, now, t);
      assert IsLatest(file, ks, out[t]);
      var k :| k in ks && k in file && file[k] == out[t];
    }
    forall n | ById(n) in out && n in pool ensures pool[n].None? {
      assert Target(pool, ById(n)) == ById(n);
    }
  }

  /** Loading a file that was already migrated changes nothing, whatever its order. */
  lemma MigrationIsStable(pool: Pool, file: Cache, now: real, out: Cache, again: Cache)
    requires IsMigration(pool, file, now, out) && IsMigration(pool, out, now, again)
    ensures again == out
  {
    MigrationIsProper(pool, file, now, out);
    SettledIsStable(pool, out, now, again);
  }

  lemma SettledIsStable(pool: Pool, out: Cache, now: real, again: Cache)
    requires forall k :: k in out ==> IsYoung(out[k], now) && Target(pool, k) == k
    requires IsMigration(pool, out, now, again)
    ensures again == out
  {
    forall t { StableAt(pool, out, now, again, t); }
    assert again.Keys == out.Keys;
  }

  lemma StableAt(pool: Pool, out: Cache, now: real, again: Cache, t: Key)
    requires forall k :: k in out ==> IsYoung(out[k], now) && Target(pool, k) == k
    requires IsMigration(pool, out, now, again)
    ensures (t in again <==> t in out) && (t in out ==> again[t] == out[t])
  {
    assert Sources(pool, out, now, t) == if t in out then {t} else {};
    if t in out { assert IsLatest(out, {t}, again[t]); }
  }

  /** Two orders can differ only between entries of the same age. */
  lemma MigrationOrder(pool: Pool, file: Cache, now: real, out: Cache, other: Cache)
    requires IsMigration(pool, file, now, out) && IsMigration(pool, file, now, other)
    ensures out.Keys == other.Keys && forall t :: t in out ==> out[t].cachedAt == other[t].cachedAt
  {
    forall t | t in out && t in other ensures out[t].cachedAt == other[t].cachedAt {
      var ks := Sources(pool, file, now, t);
      assert IsLatest(file, ks, out[t]) && IsLatest(file, ks, other[t]);
    }
  }
}

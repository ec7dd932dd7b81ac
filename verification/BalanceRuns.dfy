/** Runs of the balance books: spends, additions, balance requests, re-pushes and deletions, in any
    order. A request is two steps, since the upstream answer takes its time: other steps happen
    between its beginning and its commit. */
module BalanceRuns {
  import opened Text
  import opened BalanceCache

  type CallId = nat

  /** A request under way. The panel's request works out its key before it waits, the background
      refresh and the sweep after. */
  datatype Flight = Early(id: Id, key: Key) | Late(id: Id)

  /** A deleted credential in the recycle bin. */
  datatype Binned = Binned(apiKey: Option<string>, used: real)

  /** While the service runs, ids are handed out in order and never again. */
  datatype State = State(books: Books, bin: map<Id, Binned>, flights: map<CallId, Flight>, nextId: Id)

  /** `odd` is the order the cache happens to be listed in, as far as it matters. Refused
      operations are no steps. */
  datatype Step =
    | Spend(id: Id, credits: real)
    | Add(apiKey: Option<string>)
    | Begin(c: CallId, id: Id, early: bool)
    | Arrive(c: CallId, reading: Option<Balance>, now: real, odd: set<Id>)
    | RePush(odd: set<Id>)
    | Delete(id: Id)
    | DeleteUnsaved(id: Id)
    | Restore(id: Id)
    | Purge(id: Id)
    | Forget(ids: set<Id>)

  /** The key an answer is committed under when it arrives. */
  function KeyAt(pool: Pool, f: Flight): Key {
    match f
    case Early(_, key) => key
    case Late(id) => KeyOf(pool, id)
  }

  /** The key a step commits a true reading under, if it does. */
  function Landing(s: State, step: Step): Option<Key> {
    if step.Arrive? && step.c in s.flights && step.reading.Some?
    then Some(KeyAt(s.books.pool, s.flights[step.c])) else None
  }

  /** A request begins for a live credential only, and ends whether or not there still is one. A
      deleted credential goes into the bin with its spend and comes back with it. If the pool file
      cannot be written, it is gone all the same, but nothing is pruned. A single purge takes the
      entry filed under the id along, by which time that is its key; clearing the bin takes none. */
  function Apply(s: State, step: Step): State {
    var b := s.books;
    match step
    case Spend(id, credits) => s.(books := b.(used := Charged(b.used, id, credits)))
    case Add(apiKey) =>
      s.(books := b.(pool := b.pool[s.nextId := apiKey], used := b.used[s.nextId := 0.0]), nextId := s.nextId + 1)
    case Begin(c, id, early) =>
      if id !in b.pool || c in s.flights then s
      else s.(flights := s.flights[c := if early then Early(id, KeyOf(b.pool, id)) else Late(id)])
    case Arrive(c, reading, now, odd) =>
      var landing := Landing(s, step);
      s.(flights := s.flights - {c},
         books := if landing.Some? then Committed(b, landing.value, reading.value, now, odd) else b)
    case RePush(odd) => s.(books := b.(snaps := Pushed(b, {}, odd)))
    case Delete(id) =>
      if id !in b.pool then s
      else s.(books := Deleted(b, id), bin := s.bin[id := Binned(b.pool[id], UsedNow(b.used, id))])
    case DeleteUnsaved(id) =>
      if id !in b.pool then s
      else
        s.(books := b.(pool := b.pool - {id}, used := b.used - {id}),
           bin := s.bin[id := Binned(b.pool[id], UsedNow(b.used, id))])
    case Restore(id) =>
      if id !in s.bin || id in b.pool then s
      else
        s.(books := b.(pool := b.pool[id := s.bin[id].apiKey], used := b.used[id := s.bin[id].used]),
           bin := s.bin - {id})
    case Purge(id) =>
      if id !in s.bin || id in b.pool then s
      else s.(books := b.(cache := b.cache - {ById(id)}), bin := s.bin - {id})
    case Forget(ids) => s.(bin := s.bin - ids)
  }

  /** The step takes the credential out of the pool. */
  predicate Removes(step: Step, id: Id) { step == Delete(id) || step == DeleteUnsaved(id) }

  ghost predicate Keeps(steps: seq<Step>, id: Id) {
    steps == [] || (!Removes(steps[0], id) && Keeps(steps[1..], id))
  }

  function Run(s: State, steps: seq<Step>): State
    decreases |steps|
  {
    if steps == [] then s else Run(Apply(s, steps[0]), steps[1..])
  }

  lemma {:induction false} RunAppend(s: State, left: seq<Step>, right: seq<Step>)
    ensures Run(s, left + right) == Run(Run(s, left), right)
    decreases |left|
  {
    if left == [] {
      assert left + right == right;
    } else {
      assert (left + right)[0] == left[0] && (left + right)[1..] == left[1..] + right;
      RunAppend(Apply(s, left[0]), left[1..], right);
    }
  }

  lemma RunOne(s: State, step: Step)
    ensures Run(s, [step]) == Apply(s, step)
  {
    assert [step][1..] == [];
    assert Run(Apply(s, step), []) == Apply(s, step);
  }

  // ---------- the invariant ----------

  /** Two entries are spread over the credential: its account's, and one filed under its id. */
  predicate IsDoubled(b: Books, id: Id) {
    id in b.pool && b.pool[id].Some? && ById(id) in b.cache
  }

  lemma SingleMeansProper(b: Books)
    ensures Proper(b.pool, b.cache) <==> forall id :: id in b.pool ==> !IsDoubled(b, id)
  {
  }

  /** The snapshot of `id`, if it is of the entry `k`, shows the value of that entry, and there is
      one only if the account has a limit. */
  ghost predicate Fits(b: Books, k: Key, id: Id) {
    id in b.snaps && k in b.cache && (k == ById(id) || ById(id) !in b.cache) ==>
      var data := b.cache[k].data;
      && EffectiveLimit(data) > 0.0
      && b.snaps[id].effectiveLimit == EffectiveLimit(data)
      && b.snaps[id].remainingAtCache == data.remaining
  }

  /** The key of a live credential, or the one a deleted credential comes back with. */
  function OwnKey(s: State, id: Id): Key {
    if id !in s.books.pool && id in s.bin && s.bin[id].apiKey.Some? then Account(s.bin[id].apiKey.value)
    else KeyOf(s.books.pool, id)
  }

  predicate IsKnown(s: State, id: Id) { id in s.books.pool || id in s.bin }

  /** A key remembered by a request is the key of its credential, as long as that can live. */
  ghost predicate Remembered(s: State) {
    forall c :: c in s.flights ==>
      && s.flights[c].id < s.nextId
      && (s.flights[c].Early? && s.flights[c].key.ById? ==> s.flights[c].key.id == s.flights[c].id)
      && (s.flights[c].Early? && IsKnown(s, s.flights[c].id) ==> s.flights[c].key == OwnKey(s, s.flights[c].id))
  }

  /** An id not handed out yet has a snapshot only from an entry filed under it. */
  ghost predicate FutureFits(b: Books, n: Id) {
    forall id :: id in b.snaps && id >= n ==> ById(id) in b.cache && Fits(b, ById(id), id)
  }

  ghost predicate KnownFit(s: State) {
    forall id: Id :: IsKnown(s, id) ==> id < s.nextId && Fits(s.books, OwnKey(s, id), id)
  }

  ghost predicate Inv(s: State) {
    && s.books.used.Keys == s.books.pool.Keys && s.books.pool.Keys !! s.bin.Keys
    && KnownFit(s) && FutureFits(s.books, s.nextId) && Remembered(s)
  }

  /** The books as the service opens them, with no snapshots: a saved file of any age and format,
      entries under ids that are handed out later included. No credential is doubled. */
  lemma LoadedBooks(pool: Pool, used: Spending, bin: map<Id, Binned>, file: Cache, now: real, cache: Cache, n: Id)
    requires IsMigration(pool, file, now, cache) && used.Keys == pool.Keys && pool.Keys !! bin.Keys
    requires forall id :: id in pool || id in bin ==> id < n
    ensures Inv(State(Books(pool, used, cache, map[]), bin, map[], n))
    ensures forall id :: id in pool ==> !IsDoubled(Books(pool, used, cache, map[]), id)
  {
    MigrationIsProper(pool, file, now, cache);
  }

  lemma PushFits(b: Books, renewed: set<Key>, odd: set<Id>, k: Key, id: Id)
    requires id in b.pool ==> k == KeyOf(b.pool, id)
    ensures Fits(b.(snaps := Pushed(b, renewed, odd)), k, id)
    ensures id !in b.pool && id in Pushed(b, renewed, odd) ==> ById(id) in b.cache
  {
    if id !in b.pool || KeyOf(b.pool, id) == ById(id) || ById(id) !in b.cache { PushedSpec(b, renewed, odd, id); }
  }

  lemma PushKeepsInv(s: State, renewed: set<Key>, odd: set<Id>, t: State)
    requires s.books.used.Keys == s.books.pool.Keys && s.books.pool.Keys !! s.bin.Keys && Remembered(s)
    requires forall id: Id :: IsKnown(s, id) ==> id < s.nextId
    requires t == s.(books := s.books.(snaps := Pushed(s.books, renewed, odd)))
    ensures Inv(t)
  {
    forall id: Id | IsKnown(t, id) ensures id < t.nextId && Fits(t.books, OwnKey(t, id), id) {
      assert IsKnown(s, id);
      PushFits(s.books, renewed, odd, OwnKey(s, id), id);
    }
    forall id | id in t.books.snaps && id >= t.nextId ensures ById(id) in t.books.cache && Fits(t.books, ById(id), id) {
      assert !IsKnown(s, id);
      PushFits(s.books, renewed, odd, ById(id), id);
    }
    SameKeysRemembered(s, t);
  }

  /** Nobody becomes known, and who stays known keeps the key. */
  ghost predicate SameKeys(s: State, t: State) {
    forall id: Id :: IsKnown(t, id) ==> IsKnown(s, id) && OwnKey(t, id) == OwnKey(s, id)
  }

  lemma SameKeysRemembered(s: State, t: State)
    requires Remembered(s) && SameKeys(s, t) && t.nextId >= s.nextId
    requires forall c :: c in t.flights ==> c in s.flights && t.flights[c] == s.flights[c]
    ensures Remembered(t)
  {
    forall c | c in t.flights && IsKnown(t, t.flights[c].id)
      ensures OwnKey(t, t.flights[c].id) == OwnKey(s, t.flights[c].id)
    {
      assert IsKnown(s, t.flights[c].id);
    }
  }

  lemma ArriveKeepsInv(s: State, step: Step)
    requires Inv(s) && step.Arrive?
    ensures Inv(Apply(s, step))
  {
    var fewer := s.(flights := s.flights - {step.c});
    SameKeysRemembered(s, fewer);
    if Landing(s, step).Some? {
      var b, k := s.books, Landing(s, step).value;
      var filed := fewer.(books := b.(cache := b.cache[k := Entry(step.now, step.reading.value)]));
      SameKeysRemembered(fewer, filed);
      assert forall id: Id :: IsKnown(filed, id) ==> IsKnown(s, id);
      PushKeepsInv(filed, {k}, step.odd, Apply(s, step));
    } else {
      assert forall id: Id :: IsKnown(fewer, id) ==> IsKnown(s, id) && OwnKey(fewer, id) == OwnKey(s, id);
    }
  }

  lemma DeleteKeepsInv(s: State, step: Step, id: Id)
    requires Inv(s) && id in s.books.pool && Removes(step, id)
    ensures Inv(Apply(s, step))
  {
    var t := Apply(s, step);
    assert IsKnown(s, id);
    forall other: Id | IsKnown(t, other)
      ensures IsKnown(s, other) && OwnKey(t, other) == OwnKey(s, other) && Fits(t.books, OwnKey(t, other), other)
    {
      assert IsKnown(s, other);
    }
    forall other | other in t.books.snaps && other >= t.nextId
      ensures ById(other) in t.books.cache && Fits(t.books, ById(other), other)
    {
      assert !IsKnown(s, other);
    }
    SameKeysRemembered(s, t);
  }

  lemma AddKeepsInv(s: State, apiKey: Option<string>)
    requires Inv(s)
    ensures Inv(Apply(s, Add(apiKey)))
  {
    var t, n := Apply(s, Add(apiKey)), s.nextId;
    assert !IsKnown(s, n);
    forall id: Id | IsKnown(t, id)
      ensures id < t.nextId && Fits(t.books, OwnKey(t, id), id)
      ensures id != n ==> IsKnown(s, id) && OwnKey(t, id) == OwnKey(s, id)
    {
      if id != n { assert IsKnown(s, id); }
    }
    forall c | c in t.flights && IsKnown(t, t.flights[c].id)
      ensures OwnKey(t, t.flights[c].id) == OwnKey(s, t.flights[c].id)
    {
      assert t.flights[c].id < n;
    }
  }

  lemma BinKeepsInv(s: State, step: Step)
    requires Inv(s) && (step.Restore? || step.Purge? || step.Forget?)
    ensures Inv(Apply(s, step))
  {
    var t := Apply(s, step);
    forall id: Id | IsKnown(t, id)
      ensures IsKnown(s, id) && OwnKey(t, id) == OwnKey(s, id) && Fits(t.books, OwnKey(t, id), id)
    {
      assert IsKnown(s, id);
    }
    forall id | id in t.books.snaps && id >= t.nextId ensures ById(id) in t.books.cache && Fits(t.books, ById(id), id) {
      assert !IsKnown(s, id);
      if step.Purge? && step.id in s.bin { assert IsKnown(s, step.id); }
    }
    SameKeysRemembered(s, t);
  }

  lemma PlainKeepsInv(s: State, step: Step)
    requires Inv(s) && (step.Spend? || step.Begin?)
    ensures Inv(Apply(s, step))
  {
    var t := Apply(s, step);
    assert forall id: Id :: IsKnown(t, id) <==> IsKnown(s, id);
    assert forall id: Id :: OwnKey(t, id) == OwnKey(s, id);
    if step.Begin? && step.id in s.books.pool { assert IsKnown(s, step.id); }
  }

  lemma StepKeepsInv(s: State, step: Step)
    requires Inv(s)
    ensures Inv(Apply(s, step))
  {
    match step
    case Add(apiKey) => AddKeepsInv(s, apiKey);
    case Arrive(c, reading, now, odd) => ArriveKeepsInv(s, step);
    case RePush(odd) => PushKeepsInv(s, {}, odd, Apply(s, step));
    case Delete(id) => if id in s.books.pool { DeleteKeepsInv(s, step, id); }
    case DeleteUnsaved(id) => if id in s.books.pool { DeleteKeepsInv(s, step, id); }
    case Restore(id) => BinKeepsInv(s, step);
    case Purge(id) => BinKeepsInv(s, step);
    case Forget(ids) => BinKeepsInv(s, step);
    case Spend(id, credits) => PlainKeepsInv(s, step);
    case Begin(c, id, early) => PlainKeepsInv(s, step);
  }

  lemma {:induction false} RunKeepsInv(s: State, steps: seq<Step>)
    requires Inv(s)
    ensures Inv(Run(s, steps))
    decreases |steps|
  {
    if steps != [] {
      StepKeepsInv(s, steps[0]);
      RunKeepsInv(Apply(s, steps[0]), steps[1..]);
    }
  }

  // ---------- spending ----------

  function SpentIn(step: Step, id: Id): real {
    if step.Spend? && step.id == id && step.credits > 0.0 then step.credits else 0.0
  }

  /** What `id` spends over a run. */
  function Spent(steps: seq<Step>, id: Id): (r: real)
    ensures r >= 0.0
  {
    if steps == [] then 0.0 else SpentIn(steps[0], id) + Spent(steps[1..], id)
  }

  lemma StepKeepsCredential(s: State, step: Step, id: Id)
    requires Inv(s) && id in s.books.pool && !Removes(step, id)
    ensures var b := Apply(s, step).books;
            && id in b.pool && KeyOf(b.pool, id) == KeyOf(s.books.pool, id)
            && id in b.used && b.used[id] == s.books.used[id] + SpentIn(step, id)
  {
    assert IsKnown(s, id);
  }

  /** A credential that is not deleted keeps its key, and its spend is counted to the last credit. */
  lemma {:induction false} SpendAddsUp(s: State, steps: seq<Step>, id: Id)
    requires Inv(s) && id in s.books.pool && Keeps(steps, id)
    ensures var b := Run(s, steps).books;
            && id in b.pool && KeyOf(b.pool, id) == KeyOf(s.books.pool, id)
            && id in b.used && b.used[id] == s.books.used[id] + Spent(steps, id)
    decreases |steps|
  {
    if steps != [] {
      StepKeepsCredential(s, steps[0], id);
      StepKeepsInv(s, steps[0]);
      SpendAddsUp(Apply(s, steps[0]), steps[1..], id);
    }
  }

  // ---------- value and baseline stay paired ----------

  /** The account of `id` shows `balance`, and `id` is charged for what it spent beyond `base`. */
  ghost predicate Paired(b: Books, id: Id, k: Key, balance: Balance, now: real, base: real) {
    && id in b.pool && !IsDoubled(b, id) && id in b.used
    && KeyOf(b.pool, id) == k && k in b.cache && b.cache[k] == Entry(now, balance)
    && id in b.snaps && b.snaps[id].creditsUsedAtCache == base
  }

  /** No true reading is committed under `k`, and `id` is not deleted. */
  ghost predicate Quiet(s: State, steps: seq<Step>, id: Id, k: Key)
    decreases |steps|
  {
    steps == []
    || (Landing(s, steps[0]) != Some(k) && !Removes(steps[0], id) && Quiet(Apply(s, steps[0]), steps[1..], id, k))
  }

  /** A reading is filed under a live id only if that is the key of the credential. */
  lemma LandingIsProper(s: State, step: Step, id: Id)
    requires Inv(s) && id in s.books.pool
    ensures Landing(s, step) == Some(ById(id)) ==> s.books.pool[id].None?
  {
    assert IsKnown(s, id);
    if Landing(s, step) == Some(ById(id)) {
      var f := s.flights[step.c];
      assert f.id == id;
      assert KeyAt(s.books.pool, f) == OwnKey(s, id);
    }
  }

  /** A credential with one entry does not get a second while it lives. */
  lemma StepKeepsSingle(s: State, step: Step, id: Id)
    requires Inv(s) && id in s.books.pool && !IsDoubled(s.books, id) && !Removes(step, id)
    ensures !IsDoubled(Apply(s, step).books, id)
  {
    assert IsKnown(s, id);
    LandingIsProper(s, step, id);
  }

  lemma QuietStepKeepsPair(s: State, step: Step, id: Id, k: Key, balance: Balance, now: real, base: real)
    requires Inv(s) && Paired(s.books, id, k, balance, now, base)
    requires Landing(s, step) != Some(k) && !Removes(step, id) && EffectiveLimit(balance) > 0.0
    ensures Paired(Apply(s, step).books, id, k, balance, now, base)
  {
    var b := s.books;
    StepKeepsSingle(s, step, id);
    match step
    case Arrive(c, reading, at, odd) =>
      if Landing(s, step).Some? {
        var j := Landing(s, step).value;
        PushedSpec(b.(cache := b.cache[j := Entry(at, reading.value)]), {j}, odd, id);
      }
    case RePush(odd) => PushedSpec(b, {}, odd, id);
    case Delete(other) => assert id in Sharers(b.pool - {other}, k);
    case _ =>
  }

  lemma {:induction false} QuietRunKeepsPair(s: State, steps: seq<Step>, id: Id, k: Key, balance: Balance,
                                             now: real, base: real)
    requires Inv(s) && Paired(s.books, id, k, balance, now, base) && Quiet(s, steps, id, k)
    requires EffectiveLimit(balance) > 0.0
    ensures Paired(Run(s, steps).books, id, k, balance, now, base)
    decreases |steps|
  {
    if steps != [] {
      QuietStepKeepsPair(s, steps[0], id, k, balance, now, base);
      StepKeepsInv(s, steps[0]);
      QuietRunKeepsPair(Apply(s, steps[0]), steps[1..], id, k, balance, now, base);
    }
  }

  lemma {:induction false} QuietKeepsId(s: State, steps: seq<Step>, id: Id, k: Key)
    requires Quiet(s, steps, id, k)
    ensures Keeps(steps, id)
    decreases |steps|
  {
    if steps != [] { QuietKeepsId(Apply(s, steps[0]), steps[1..], id, k); }
  }

  /** A true reading resets the baseline of every credential of its account to its spend at the
      commit. */
  lemma CommitPairs(s: State, c: CallId, balance: Balance, now: real, odd: set<Id>, id: Id)
    requires Inv(s) && id in s.books.pool && !IsDoubled(s.books, id) && EffectiveLimit(balance) > 0.0
    requires c in s.flights && KeyAt(s.books.pool, s.flights[c]) == KeyOf(s.books.pool, id)
    ensures var after := Apply(s, Arrive(c, Some(balance), now, odd)).books;
            && after.pool == s.books.pool && after.used == s.books.used
            && Paired(after, id, KeyOf(s.books.pool, id), balance, now, s.books.used[id])
  {
    var b, k := s.books, KeyOf(s.books.pool, id);
    StepKeepsSingle(s, Arrive(c, Some(balance), now, odd), id);
    PushedSpec(b.(cache := b.cache[k := Entry(now, balance)]), {k}, odd, id);
  }

  /** The panel shows for `id` the reading `balance` of time `now`, less `spent`, in whatever order
      it lists the cache. */
  ghost predicate Shows(b: Books, clock: real, id: Id, balance: Balance, now: real, spent: real) {
    forall odd: set<Id> :: IsFigure(Figure(b, clock, odd, id), balance, now, spent)
  }

  predicate IsFigure(f: Option<Item>, balance: Balance, now: real, spent: real) {
    && f.Some? && f.value.cachedAt == now
    && f.value.balance.currentUsage == balance.currentUsage + spent
    && f.value.balance.remaining == (if spent > 0.0 then Max(balance.remaining - spent, 0.0) else balance.remaining)
    && (balance.remaining >= 0.0 ==> f.value.balance.remaining == Max(balance.remaining - spent, 0.0))
    && (f.value.balance.optimistic <==> spent > 0.0 || balance.optimistic)
  }

  lemma PairedShows(b: Books, id: Id, k: Key, balance: Balance, now: real, base: real, spent: real, clock: real)
    requires Paired(b, id, k, balance, now, base) && b.used[id] == base + spent && spent >= 0.0
    requires clock - now < DISPLAY_MAX_AGE_SECS
    ensures Shows(b, clock, id, balance, now, spent)
  {
    forall odd: set<Id> ensures IsFigure(Figure(b, clock, odd, id), balance, now, spent) {
      WinnerSkips(b.pool, Young(b.cache, clock), odd, id);
    }
  }

  lemma QuietRunShows(s: State, steps: seq<Step>, id: Id, k: Key, balance: Balance, now: real, clock: real)
    requires Inv(s) && id in s.books.used && Paired(s.books, id, k, balance, now, s.books.used[id])
    requires Quiet(s, steps, id, k) && EffectiveLimit(balance) > 0.0 && clock - now < DISPLAY_MAX_AGE_SECS
    ensures Shows(Run(s, steps).books, clock, id, balance, now, Spent(steps, id))
  {
    QuietRunKeepsPair(s, steps, id, k, balance, now, s.books.used[id]);
    QuietKeepsId(s, steps, id, k);
    SpendAddsUp(s, steps, id);
    PairedShows(Run(s, steps).books, id, k, balance, now, s.books.used[id], Spent(steps, id), clock);
  }

  /** From any reachable state, and whatever other accounts do after it, the last commit of an
      account governs: the panel shows every credential of the account that is not doubled what was
      fetched, less what that credential has spent since the commit. */
  lemma LastReadingGoverns(s: State, c: CallId, balance: Balance, now: real, odd: set<Id>, after: seq<Step>, id: Id,
                           clock: real)
    requires Inv(s) && id in s.books.pool && !IsDoubled(s.books, id) && EffectiveLimit(balance) > 0.0
    requires c in s.flights && KeyAt(s.books.pool, s.flights[c]) == KeyOf(s.books.pool, id)
    requires Quiet(Apply(s, Arrive(c, Some(balance), now, odd)), after, id, KeyOf(s.books.pool, id))
    requires clock - now < DISPLAY_MAX_AGE_SECS
    ensures var b := Run(Apply(s, Arrive(c, Some(balance), now, odd)), after).books;
            Shows(b, clock, id, balance, now, Spent(after, id))
  {
    var arrive := Arrive(c, Some(balance), now, odd);
    CommitPairs(s, c, balance, now, odd, id);
    StepKeepsInv(s, arrive);
    QuietRunShows(Apply(s, arrive), after, id, KeyOf(s.books.pool, id), balance, now, clock);
  }

  // ---------- what is spent while a request waits ----------

  /** The request `c` is not answered. */
  ghost predicate Unanswered(steps: seq<Step>, c: CallId) {
    forall i :: 0 <= i < |steps| ==> !(steps[i].Arrive? && steps[i].c == c)
  }

  lemma {:induction false} FlightKept(s: State, steps: seq<Step>, c: CallId)
    requires c in s.flights && Unanswered(steps, c)
    ensures var t := Run(s, steps); c in t.flights && t.flights[c] == s.flights[c]
    decreases |steps|
  {
    if steps != [] {
      assert !(steps[0].Arrive? && steps[0].c == c);
      FlightKept(Apply(s, steps[0]), steps[1..], c);
    }
  }

  lemma {:induction false} SpentAppend(left: seq<Step>, right: seq<Step>, id: Id)
    ensures Spent(left + right, id) == Spent(left, id) + Spent(right, id)
  {
    if left == [] {
      assert left + right == right;
    } else {
      assert (left + right)[0] == left[0] && (left + right)[1..] == left[1..] + right;
      SpentAppend(left[1..], right, id);
    }
  }

  /** Spending at a moment, during a wait that began with it and from its end on. */
  lemma SpendSince(s: State, early: seq<Step>, late: seq<Step>, c: CallId, reading: Option<Balance>, now: real,
                   odd: set<Id>, after: seq<Step>, id: Id)
    requires Inv(s) && id in s.books.pool && Keeps(early, id) && Keeps(late, id) && Keeps(after, id)
    ensures var m := Run(s, early); var t := Run(m, late);
            var e := Run(Apply(t, Arrive(c, reading, now, odd)), after);
            && id in m.books.used && id in t.books.used && id in e.books.used
            && t.books.used[id] == m.books.used[id] + Spent(late, id)
            && e.books.used[id] == m.books.used[id] + Spent(late, id) + Spent(after, id)
  {
    var m := Run(s, early);
    var t := Run(m, late);
    SpendAddsUp(s, early, id);
    RunKeepsInv(s, early);
    SpendAddsUp(m, late, id);
    RunKeepsInv(m, late);
    StepKeepsInv(t, Arrive(c, reading, now, odd));
    StepKeepsCredential(t, Arrive(c, reading, now, odd), id);
    SpendAddsUp(Apply(t, Arrive(c, reading, now, odd)), after, id);
  }

  /** What is forgotten, exactly. The upstream takes the reading after `early`, the answer is
      committed after `late`: of all that `id` has spent since the reading was taken, the figure
      charges what was spent since the commit, so it leaves out what was spent over `late` and
      nothing else. Nothing is charged twice. */
  lemma SpendInFlightIsForgotten(s: State, c: CallId, early: seq<Step>, late: seq<Step>, balance: Balance, now: real,
                                 odd: set<Id>, after: seq<Step>, id: Id, clock: real)
    requires Inv(s) && id in s.books.pool && Keeps(early, id) && Keeps(late, id)
    requires c in s.flights && Unanswered(early, c) && Unanswered(late, c)
    requires var t := Run(Run(s, early), late);
             && !IsDoubled(t.books, id)
             && KeyAt(t.books.pool, s.flights[c]) == KeyOf(t.books.pool, id)
             && Quiet(Apply(t, Arrive(c, Some(balance), now, odd)), after, id, KeyOf(t.books.pool, id))
    requires EffectiveLimit(balance) > 0.0 && clock - now < DISPLAY_MAX_AGE_SECS
    ensures var m := Run(s, early); var e := Run(Apply(Run(m, late), Arrive(c, Some(balance), now, odd)), after);
            && id in m.books.used && id in e.books.used
            && Shows(e.books, clock, id, balance, now, e.books.used[id] - m.books.used[id] - Spent(late, id))
  {
    var m := Run(s, early);
    var t := Run(m, late);
    FlightKept(s, early, c);
    FlightKept(m, late, c);
    SpendAddsUp(s, early, id);
    RunKeepsInv(s, early);
    SpendAddsUp(m, late, id);
    RunKeepsInv(m, late);
    QuietKeepsId(Apply(t, Arrive(c, Some(balance), now, odd)), after, id, KeyOf(t.books.pool, id));
    SpendSince(s, early, late, c, Some(balance), now, odd, after, id);
    LastReadingGoverns(t, c, balance, now, odd, after, id, clock);
  }
}

/** What a step of the balance books leaves alone, and how long an entry lives. */
module BalanceEntries {
  import opened Text
  import opened BalanceCache
  import opened BalanceRuns

  // ---------- the scheduler's estimate ----------

  /** The remaining credits `balance_factor` weighs a credential by. */
  function Estimate(snap: Snapshot, used: real): real {
    Max(snap.remainingAtCache - Max(used - snap.creditsUsedAtCache, 0.0), 0.0)
  }

  /** In every reachable state the scheduler and the panel put the same figure on a credential that
      is not doubled. */
  lemma PanelAndSchedulerAgree(start: State, steps: seq<Step>, odd: set<Id>, id: Id, clock: real)
    requires Inv(start)
    ensures var b := Run(start, steps).books;
            var f := Figure(b, clock, odd, id);
            id in b.pool && !IsDoubled(b, id) && id in b.snaps && f.Some? ==>
              id in b.used && Estimate(b.snaps[id], b.used[id]) == Max(f.value.balance.remaining, 0.0)
  {
    RunKeepsInv(start, steps);
    var s := Run(start, steps);
    if id in s.books.pool && !IsDoubled(s.books, id) {
      assert IsKnown(s, id);
      WinnerSkips(s.books.pool, Young(s.books.cache, clock), odd, id);
    }
  }

  // ---------- what a step leaves alone ----------

  lemma FigureOfSingle(b: Books, clock: real, odd: set<Id>, id: Id)
    requires !IsDoubled(b, id)
    ensures var k := KeyOf(b.pool, id);
            Figure(b, clock, odd, id) ==
            if k in b.cache && IsYoung(b.cache[k], clock)
            then Some(Item(Corrected(b.cache[k].data, Delta(b.used, b.snaps, id)), b.cache[k].cachedAt)) else None
  {
    WinnerSkips(b.pool, Young(b.cache, clock), odd, id);
  }

  lemma LiveFits(s: State, id: Id)
    requires Inv(s)
    ensures id in s.books.used <==> id in s.books.pool
    ensures id in s.books.pool ==> Fits(s.books, KeyOf(s.books.pool, id), id)
  {
    if id in s.books.pool { assert IsKnown(s, id) && OwnKey(s, id) == KeyOf(s.books.pool, id); }
  }

  lemma PushShowsTheSame(b: Books, c: Books, renewed: set<Key>, odd: set<Id>, clock: real, shown: set<Id>, id: Id)
    requires (id in b.used <==> id in b.pool) && (id in b.pool ==> Fits(b, KeyOf(b.pool, id), id))
    requires !IsDoubled(b, id) && !IsDoubled(c, id) && c == b.(cache := c.cache)
    requires var k := KeyOf(c.pool, id);
             k !in renewed && (k in c.cache <==> k in b.cache) && (k in c.cache ==> c.cache[k] == b.cache[k])
    ensures Figure(c.(snaps := Pushed(c, renewed, odd)), clock, shown, id) == Figure(b, clock, shown, id)
  {
    var d := c.(snaps := Pushed(c, renewed, odd));
    FigureOfSingle(d, clock, shown, id);
    FigureOfSingle(b, clock, shown, id);
    PushedSpec(c, renewed, odd, id);
  }

  lemma CommitShowsTheSame(b: Books, k: Key, balance: Balance, now: real, odd: set<Id>, clock: real,
                           shown: set<Id>, id: Id)
    requires (id in b.used <==> id in b.pool) && (id in b.pool ==> Fits(b, KeyOf(b.pool, id), id))
    requires !IsDoubled(b, id) && !IsDoubled(Committed(b, k, balance, now, odd), id) && k != KeyOf(b.pool, id)
    ensures Figure(Committed(b, k, balance, now, odd), clock, shown, id) == Figure(b, clock, shown, id)
  {
    PushShowsTheSame(b, b.(cache := b.cache[k := Entry(now, balance)]), {k}, odd, clock, shown, id);
  }

  /** An answer for one account, true or failed, changes no figure of another. */
  lemma CommitIsLocal(s: State, c: CallId, reading: Option<Balance>, now: real, odd: set<Id>, clock: real,
                      shown: set<Id>, id: Id)
    requires Inv(s) && !IsDoubled(s.books, id)
    requires Landing(s, Arrive(c, reading, now, odd)) != Some(KeyOf(s.books.pool, id))
    ensures Figure(Apply(s, Arrive(c, reading, now, odd)).books, clock, shown, id) == Figure(s.books, clock, shown, id)
  {
    if id in s.books.pool { StepKeepsSingle(s, Arrive(c, reading, now, odd), id); }
    LiveFits(s, id);
    ArrivalShowsTheSame(s, c, reading, now, odd, clock, shown, id);
  }

  lemma ArrivalShowsTheSame(s: State, c: CallId, reading: Option<Balance>, now: real, odd: set<Id>, clock: real,
                            shown: set<Id>, id: Id)
    requires var b := s.books;
             && (id in b.used <==> id in b.pool) && (id in b.pool ==> Fits(b, KeyOf(b.pool, id), id))
             && !IsDoubled(b, id) && !IsDoubled(Apply(s, Arrive(c, reading, now, odd)).books, id)
    requires Landing(s, Arrive(c, reading, now, odd)) != Some(KeyOf(s.books.pool, id))
    ensures Figure(Apply(s, Arrive(c, reading, now, odd)).books, clock, shown, id) == Figure(s.books, clock, shown, id)
  {
    var landing := Landing(s, Arrive(c, reading, now, odd));
    if landing.Some? { CommitShowsTheSame(s.books, landing.value, reading.value, now, odd, clock, shown, id); }
  }

  /** A push with no true reading behind it changes no figure at all. */
  lemma RePushIsInvisible(s: State, odd: set<Id>, clock: real, shown: set<Id>, id: Id)
    requires Inv(s) && !IsDoubled(s.books, id)
    ensures Figure(Apply(s, RePush(odd)).books, clock, shown, id) == Figure(s.books, clock, shown, id)
  {
    LiveFits(s, id);
    PushShowsTheSame(s.books, s.books, {}, odd, clock, shown, id);
  }

  // ---------- an entry stays while its account lives ----------

  /** No run loses an entry: it stays as long as one credential of its account does. */
  lemma {:induction false} EntrySurvives(s: State, steps: seq<Step>, id: Id)
    requires Inv(s) && id in s.books.pool && KeyOf(s.books.pool, id) in s.books.cache
    requires Keeps(steps, id)
    ensures var b := Run(s, steps).books;
            id in b.pool && KeyOf(b.pool, id) == KeyOf(s.books.pool, id) && KeyOf(b.pool, id) in b.cache
    decreases |steps|
  {
    if steps != [] {
      if steps[0].Delete? {
        assert id in Sharers(s.books.pool - {steps[0].id}, KeyOf(s.books.pool, id));
      }
      StepKeepsCredential(s, steps[0], id);
      StepKeepsInv(s, steps[0]);
      EntrySurvives(Apply(s, steps[0]), steps[1..], id);
    }
  }

  // ---------- entries without an account ----------

  function Orphans(b: Books): set<Key> { set k | k in b.cache && Sharers(b.pool, k) == {} }

  /** The step commits a reading under a key that no live credential has. */
  predicate LandsDead(s: State, step: Step, k: Key) {
    Landing(s, step) == Some(k) && Sharers(s.books.pool, k) == {}
  }

  /** The step leaves the entry without an account: a commit under a key that no live credential
      has, or the removal of the last one without pruning. */
  predicate Strands(s: State, step: Step, k: Key) {
    || LandsDead(s, step, k)
    || (step.DeleteUnsaved? && k in s.books.cache && Sharers(s.books.pool, k) == {step.id})
  }

  /** The step gives the entry an account, or discards it with the credential it is filed under. */
  predicate EndsOrphan(s: State, step: Step, k: Key) {
    || (step.Add? && k == if step.apiKey.Some? then Account(step.apiKey.value) else ById(s.nextId))
    || (step.Restore? && step.id in s.bin && k == OwnKey(s, step.id))
    || (step.Purge? && step.id in s.bin && k == ById(step.id))
  }

  lemma SharersWith(pool: Pool, id: Id, apiKey: Option<string>, k: Key)
    requires id !in pool
    ensures var more := pool[id := apiKey];
            Sharers(more, k) == Sharers(pool, k) + if KeyOf(more, id) == k then {id} else {}
  {
  }

  lemma OrphansOfRemoval(s: State, step: Step, id: Id, k: Key)
    requires Removes(step, id)
    ensures k in Orphans(Apply(s, step).books) <==> Strands(s, step, k) || k in Orphans(s.books)
  {
    var b, a := s.books, Apply(s, step).books;
    assert KeyOf(b.pool, id) == k && id in b.pool <==> id in Sharers(b.pool, k);
    if id in b.pool { assert Sharers(a.pool, k) == Sharers(b.pool, k) - {id}; }
  }

  /** One step: an entry has no account afterwards if it was just left without, or had none before
      and got none. A deletion that is saved never leaves one. */
  lemma OrphansOfStep(s: State, step: Step, k: Key)
    requires Inv(s)
    ensures k in Orphans(Apply(s, step).books) <==>
            Strands(s, step, k) || (k in Orphans(s.books) && !EndsOrphan(s, step, k))
  {
    var b, a := s.books, Apply(s, step).books;
    match step
    case Add(apiKey) =>
      assert !IsKnown(s, s.nextId);
      SharersWith(b.pool, s.nextId, apiKey, k);
    case Restore(id) =>
      if id in s.bin { SharersWith(b.pool, id, s.bin[id].apiKey, k); }
    case Delete(id) => OrphansOfRemoval(s, step, id, k);
    case DeleteUnsaved(id) => OrphansOfRemoval(s, step, id, k);
    case _ =>
  }

  /** Nothing in the run gives the entry an account or discards it. */
  ghost predicate Lasts(s: State, steps: seq<Step>, k: Key)
    decreases |steps|
  {
    steps == [] || (!EndsOrphan(s, steps[0], k) && Lasts(Apply(s, steps[0]), steps[1..], k))
  }

  /** Some step of the run leaves the entry without an account, and nothing later ends that. */
  ghost predicate LeftBehind(s: State, steps: seq<Step>, k: Key)
    decreases |steps|
  {
    && steps != []
    && var t := Apply(s, steps[0]);
       (Strands(s, steps[0], k) && Lasts(t, steps[1..], k)) || LeftBehind(t, steps[1..], k)
  }

  /** For every run, exactly which entries are left without an account: those that had none at
      the start, and those committed under a key nobody had any more or not pruned with the last
      credential, unless something ended that since. */
  lemma {:induction false} OrphansExactly(s: State, steps: seq<Step>, k: Key)
    requires Inv(s)
    ensures k in Orphans(Run(s, steps).books) <==>
            (k in Orphans(s.books) && Lasts(s, steps, k)) || LeftBehind(s, steps, k)
    decreases |steps|
  {
    if steps != [] {
      OrphansOfStep(s, steps[0], k);
      StepKeepsInv(s, steps[0]);
      OrphansExactly(Apply(s, steps[0]), steps[1..], k);
    }
  }

  // ---------- when none is left behind ----------

  /** Every request under way is for a live credential. */
  ghost predicate AllFlyForLive(s: State) {
    forall c :: c in s.flights ==> s.flights[c].id in s.books.pool
  }

  /** No credential is deleted while a request for it is under way, and every deletion is saved. */
  ghost predicate DeletesLanded(s: State, steps: seq<Step>)
    decreases |steps|
  {
    steps == []
    || (!steps[0].DeleteUnsaved? && (steps[0].Delete? ==> forall c :: c in s.flights ==> s.flights[c].id != steps[0].id)
        && DeletesLanded(Apply(s, steps[0]), steps[1..]))
  }

  /** Such a commit is always for a credential deleted after its request began. */
  lemma DeadLandingIsOfDeleted(s: State, step: Step, k: Key)
    requires Inv(s) && LandsDead(s, step, k)
    ensures step.Arrive? && step.c in s.flights && s.flights[step.c].id !in s.books.pool
  {
    var id := s.flights[step.c].id;
    assert id !in Sharers(s.books.pool, k);
    assert id in s.books.pool ==> IsKnown(s, id) && OwnKey(s, id) == KeyOf(s.books.pool, id);
  }

  lemma LandedStep(s: State, step: Step)
    requires Inv(s) && AllFlyForLive(s) && DeletesLanded(s, [step])
    ensures AllFlyForLive(Apply(s, step)) && Orphans(Apply(s, step).books) <= Orphans(s.books)
  {
    forall k | k in Orphans(Apply(s, step).books) ensures k in Orphans(s.books) {
      OrphansOfStep(s, step, k);
      if LandsDead(s, step, k) { DeadLandingIsOfDeleted(s, step, k); }
    }
  }

  /** Without such deletions, no run leaves an entry behind. */
  lemma {:induction false} OrphansNeverGrow(s: State, steps: seq<Step>)
    requires Inv(s) && AllFlyForLive(s) && DeletesLanded(s, steps)
    ensures Orphans(Run(s, steps).books) <= Orphans(s.books)
    decreases |steps|
  {
    if steps != [] {
      assert DeletesLanded(s, [steps[0]]);
      LandedStep(s, steps[0]);
      StepKeepsInv(s, steps[0]);
      OrphansNeverGrow(Apply(s, steps[0]), steps[1..]);
    }
  }

  /** With one, an entry is left behind: the only credential of an account is deleted while its
      balance is being asked for. The panel's request leaves the entry of the account, the
      background refresh one under the deleted id. */
  lemma LateAnswerLeavesEntry(s: State, c: CallId, id: Id, early: bool, balance: Balance, now: real, odd: set<Id>)
    requires Inv(s) && c !in s.flights && Sharers(s.books.pool, KeyOf(s.books.pool, id)) == {id}
    ensures (if early then KeyOf(s.books.pool, id) else ById(id))
            in Orphans(Run(s, [Begin(c, id, early), Delete(id), Arrive(c, Some(balance), now, odd)]).books)
  {
    DeletedInFlight(s, c, id, early);
    var u := Apply(Apply(s, Begin(c, id, early)), Delete(id));
    ThreeSteps(s, Begin(c, id, early), Delete(id), Arrive(c, Some(balance), now, odd));
    OrphansOfStep(u, Arrive(c, Some(balance), now, odd), if early then KeyOf(s.books.pool, id) else ById(id));
  }

  /** And so does the deletion of the only credential if it cannot be saved. */
  lemma UnsavedDeletionLeavesEntry(s: State, id: Id)
    requires Inv(s) && id in s.books.pool && KeyOf(s.books.pool, id) in s.books.cache
    ensures KeyOf(s.books.pool, id) in Orphans(Apply(s, DeleteUnsaved(id)).books)
       <==> Sharers(s.books.pool, KeyOf(s.books.pool, id)) == {id}
  {
    OrphansOfStep(s, DeleteUnsaved(id), KeyOf(s.books.pool, id));
    assert id in Sharers(s.books.pool, KeyOf(s.books.pool, id));
  }

  lemma DeletedInFlight(s: State, c: CallId, id: Id, early: bool)
    requires Inv(s) && c !in s.flights && Sharers(s.books.pool, KeyOf(s.books.pool, id)) == {id}
    ensures var u := Apply(Apply(s, Begin(c, id, early)), Delete(id));
            var k := if early then KeyOf(s.books.pool, id) else ById(id);
            Inv(u) && c in u.flights && KeyAt(u.books.pool, u.flights[c]) == k && Sharers(u.books.pool, k) == {}
  {
    assert id in Sharers(s.books.pool, KeyOf(s.books.pool, id));
    NobodyLeft(s.books.pool, id);
    StepKeepsInv(s, Begin(c, id, early));
    StepKeepsInv(Apply(s, Begin(c, id, early)), Delete(id));
  }

  lemma NobodyLeft(pool: Pool, id: Id)
    requires Sharers(pool, KeyOf(pool, id)) == {id}
    ensures Sharers(pool - {id}, KeyOf(pool, id)) == {}
    ensures KeyOf(pool - {id}, id) == ById(id) && Sharers(pool - {id}, ById(id)) == {}
  {
    assert Sharers(pool - {id}, KeyOf(pool, id)) == Sharers(pool, KeyOf(pool, id)) - {id};
  }

  lemma ThreeSteps(s: State, a: Step, b: Step, c: Step)
    ensures Run(s, [a, b, c]) == Apply(Apply(Apply(s, a), b), c)
  {
    assert [a, b, c][1..] == [b, c];
    assert [b, c][1..] == [c];
    RunOne(Apply(Apply(s, a), b), c);
  }

  /** For one: a single credential with the API key `k`, nothing cached. */
  lemma LateAnswerExample(balance: Balance)
    ensures var s := State(Books(map[1 := Some("k")], map[1 := 0.0], map[], map[]), map[], map[], 2);
            && Inv(s) && Orphans(s.books) == {}
            && Account("k") in Orphans(Run(s, [Begin(0, 1, true), Delete(1), Arrive(0, Some(balance), 0.0, {})]).books)
  {
    var s := State(Books(map[1 := Some("k")], map[1 := 0.0], map[], map[]), map[], map[], 2);
    assert KeyOf(s.books.pool, 1) == Account("k");
    assert Sharers(s.books.pool, Account("k")) == {1};
    LateAnswerLeavesEntry(s, 0, 1, true, balance, 0.0, {});
  }
}

/** Credentials with two cache entries. An entry can be left under the id of a deleted credential;
    when the credential comes back with its API key, or its id is handed out again, that entry and
    the account's are both spread over it, and the order of the cache decides which one shows. */
module BalanceDoubles {
  import opened Text
  import opened BalanceCache
  import opened BalanceRuns
  import opened BalanceEntries

  /** The step makes a live credential with an API key out of an id that has an entry. */
  predicate Doubles(s: State, step: Step, id: Id) {
    && ById(id) in s.books.cache
    && ( || (step == Restore(id) && id in s.bin && s.bin[id].apiKey.Some?)
         || (step.Add? && step.apiKey.Some? && id == s.nextId))
  }

  /** One step, exactly: nothing else doubles a credential, and only its deletion ends it. */
  lemma DoubledByStep(s: State, step: Step, id: Id)
    requires Inv(s)
    ensures IsDoubled(Apply(s, step).books, id) <==>
            (IsDoubled(s.books, id) && !Removes(step, id)) || Doubles(s, step, id)
  {
    if id in s.books.pool {
      assert IsKnown(s, id);
      if !IsDoubled(s.books, id) && !Removes(step, id) { StepKeepsSingle(s, step, id); }
    } else {
      assert id == s.nextId ==> !IsKnown(s, id);
    }
  }

  /** A restore leaves every credential with one entry if and only if the credential has no API key
      or nothing is filed under its id. */
  lemma RestoreKeepsProper(s: State, id: Id)
    requires Inv(s) && id in s.bin
    ensures Proper(Apply(s, Restore(id)).books.pool, s.books.cache) <==>
            Proper(s.books.pool, s.books.cache) && (s.bin[id].apiKey.None? || ById(id) !in s.books.cache)
  {
    var pool := s.books.pool[id := s.bin[id].apiKey];
    if Proper(pool, s.books.cache) {
      forall n | ById(n) in s.books.cache && n in s.books.pool ensures s.books.pool[n].None? { assert n in pool; }
      assert id in pool;
    }
  }

  /** So does an addition if and only if nothing is filed under the new id, or it has no API key. */
  lemma AddKeepsProper(s: State, apiKey: Option<string>)
    requires Inv(s)
    ensures Proper(Apply(s, Add(apiKey)).books.pool, s.books.cache) <==>
            Proper(s.books.pool, s.books.cache) && (apiKey.None? || ById(s.nextId) !in s.books.cache)
  {
    assert !IsKnown(s, s.nextId);
    var pool := s.books.pool[s.nextId := apiKey];
    if Proper(pool, s.books.cache) {
      forall n | ById(n) in s.books.cache && n in s.books.pool ensures s.books.pool[n].None? { assert n in pool; }
      assert s.nextId in pool;
    }
  }

  /** Some step of the run doubles the credential, and it is not deleted after that. */
  ghost predicate DoubledIn(s: State, steps: seq<Step>, id: Id)
    decreases |steps|
  {
    && steps != []
    && ((Doubles(s, steps[0], id) && Keeps(steps[1..], id)) || DoubledIn(Apply(s, steps[0]), steps[1..], id))
  }

  /** For every run, exactly which credentials are doubled: those that were at the start, and those
      restored or added over an entry filed under their id, unless deleted since. */
  lemma {:induction false} DoubledExactly(s: State, steps: seq<Step>, id: Id)
    requires Inv(s)
    ensures IsDoubled(Run(s, steps).books, id) <==>
            (IsDoubled(s.books, id) && Keeps(steps, id)) || DoubledIn(s, steps, id)
    decreases |steps|
  {
    if steps != [] {
      DoubledByStep(s, steps[0], id);
      StepKeepsInv(s, steps[0]);
      DoubledExactly(Apply(s, steps[0]), steps[1..], id);
    }
  }

  /** No credential is restored or added over an entry. */
  ghost predicate NoneOverEntry(s: State, steps: seq<Step>)
    decreases |steps|
  {
    steps == [] || ((forall id: Id :: !Doubles(s, steps[0], id)) && NoneOverEntry(Apply(s, steps[0]), steps[1..]))
  }

  /** Without that, every reachable state files nothing under the id of a live credential with an
      API key, and everything said of credentials that are not doubled holds of all. */
  lemma {:induction false} ProperRuns(s: State, steps: seq<Step>)
    requires Inv(s) && Proper(s.books.pool, s.books.cache) && NoneOverEntry(s, steps)
    ensures Proper(Run(s, steps).books.pool, Run(s, steps).books.cache)
    decreases |steps|
  {
    if steps != [] {
      var t := Apply(s, steps[0]);
      forall id | id in t.books.pool ensures !IsDoubled(t.books, id) {
        DoubledByStep(s, steps[0], id);
        assert !Doubles(s, steps[0], id);
      }
      SingleMeansProper(t.books);
      StepKeepsInv(s, steps[0]);
      ProperRuns(t, steps[1..]);
    }
  }

  // ---------- what a doubled credential shows ----------

  /** Its figure and its snapshot are those of either entry, as the cache happens to be listed. */
  lemma EitherEntryShows(b: Books, renewed: set<Key>, clock: real, id: Id)
    requires IsDoubled(b, id) && KeyOf(b.pool, id) in b.cache
    ensures var own, filed := b.cache[KeyOf(b.pool, id)], b.cache[ById(id)]; var delta := Delta(b.used, b.snaps, id);
            IsYoung(own, clock) && IsYoung(filed, clock) ==>
              && Figure(b, clock, {}, id) == Some(Item(Corrected(own.data, delta), own.cachedAt))
              && Figure(b, clock, {id}, id) == Some(Item(Corrected(filed.data, delta), filed.cachedAt))
    ensures var own, filed := b.cache[KeyOf(b.pool, id)], b.cache[ById(id)];
            EffectiveLimit(own.data) > 0.0 && EffectiveLimit(filed.data) > 0.0 ==>
              && id in Pushed(b, renewed, {}) && Pushed(b, renewed, {})[id].remainingAtCache == own.data.remaining
              && id in Pushed(b, renewed, {id}) && Pushed(b, renewed, {id})[id].remainingAtCache == filed.data.remaining
  {
    PushOfSpec(b, renewed, b.cache.Keys, {}, id);
    PushOfSpec(b, renewed, b.cache.Keys, {id}, id);
  }

  lemma StepKeepsFiled(s: State, step: Step, id: Id)
    requires Inv(s) && IsDoubled(s.books, id) && !Removes(step, id)
    ensures var b := Apply(s, step).books; IsDoubled(b, id) && b.cache[ById(id)] == s.books.cache[ById(id)]
  {
    assert IsKnown(s, id);
    DoubledByStep(s, step, id);
    LandingIsProper(s, step, id);
  }

  /** No true reading ever replaces the filed entry while the credential lives: whatever is fetched
      for its account, the old value can show for as long as entries are shown at all. */
  lemma {:induction false} OldValueCanShow(s: State, steps: seq<Step>, id: Id, clock: real)
    requires Inv(s) && IsDoubled(s.books, id) && Keeps(steps, id)
    requires IsYoung(s.books.cache[ById(id)], clock)
    ensures var b, e := Run(s, steps).books, s.books.cache[ById(id)];
            && IsDoubled(b, id)
            && Figure(b, clock, {id}, id) == Some(Item(Corrected(e.data, Delta(b.used, b.snaps, id)), e.cachedAt))
    decreases |steps|
  {
    if steps != [] {
      StepKeepsFiled(s, steps[0], id);
      StepKeepsInv(s, steps[0]);
      OldValueCanShow(Apply(s, steps[0]), steps[1..], id, clock);
    }
  }

  // ---------- how it comes about ----------

  lemma RestoredSteps(s: State, c: CallId, id: Id, balance: Balance, now: real, odd: set<Id>)
    ensures Run(s, [Begin(c, id, false), Delete(id), Arrive(c, Some(balance), now, odd), Restore(id)])
         == Apply(Apply(Apply(Apply(s, Begin(c, id, false)), Delete(id)), Arrive(c, Some(balance), now, odd)),
                  Restore(id))
  {
    var front := [Begin(c, id, false), Delete(id), Arrive(c, Some(balance), now, odd)];
    assert front + [Restore(id)] == [Begin(c, id, false), Delete(id), Arrive(c, Some(balance), now, odd), Restore(id)];
    RunAppend(s, front, [Restore(id)]);
    ThreeSteps(s, Begin(c, id, false), Delete(id), Arrive(c, Some(balance), now, odd));
    RunOne(Run(s, front), Restore(id));
  }

  lemma DeletedWhileRefreshed(s: State, c: CallId, id: Id, balance: Balance, now: real, odd: set<Id>)
    requires c !in s.flights && id in s.books.pool
    ensures var v := Apply(Apply(Apply(s, Begin(c, id, false)), Delete(id)), Arrive(c, Some(balance), now, odd));
            && v.books.pool == s.books.pool - {id} && id in v.bin && v.bin[id].apiKey == s.books.pool[id]
            && v.books.cache == Deleted(s.books, id).cache[ById(id) := Entry(now, balance)]
  {
    var u := Apply(Apply(s, Begin(c, id, false)), Delete(id));
    assert u.flights[c] == Late(id) && KeyAt(u.books.pool, u.flights[c]) == ById(id);
  }

  /** A credential with an API key is deleted during a background refresh and restored after it:
      it is doubled by the late answer, next to the entry its clones kept alive. */
  lemma RestoredOverLateAnswer(s: State, c: CallId, id: Id, other: Id, balance: Balance, now: real, odd: set<Id>)
    requires c !in s.flights && id in s.books.pool && s.books.pool[id].Some?
    requires other in s.books.pool && other != id && s.books.pool[other] == s.books.pool[id]
    ensures var b := Run(s, [Begin(c, id, false), Delete(id), Arrive(c, Some(balance), now, odd), Restore(id)]).books;
            var k := KeyOf(s.books.pool, id);
            && IsDoubled(b, id) && !Proper(b.pool, b.cache) && b.cache[ById(id)] == Entry(now, balance)
            && KeyOf(b.pool, id) == k && (k in s.books.cache ==> k in b.cache && b.cache[k] == s.books.cache[k])
  {
    RestoredSteps(s, c, id, balance, now, odd);
    DeletedWhileRefreshed(s, c, id, balance, now, odd);
    ClonesKeepEntry(s.books, id, other);
    RestoredOver(Apply(Apply(Apply(s, Begin(c, id, false)), Delete(id)), Arrive(c, Some(balance), now, odd)), id);
  }

  lemma RestoredOver(v: State, id: Id)
    requires id in v.bin && v.bin[id].apiKey.Some? && id !in v.books.pool && ById(id) in v.books.cache
    ensures var b := Apply(v, Restore(id)).books;
            && IsDoubled(b, id) && !Proper(b.pool, b.cache) && b.cache == v.books.cache
            && KeyOf(b.pool, id) == Account(v.bin[id].apiKey.value)
  {
  }

  lemma ClonesKeepEntry(b: Books, id: Id, other: Id)
    requires id in b.pool && other in b.pool && other != id && b.pool[other] == b.pool[id] && b.pool[id].Some?
    ensures Deleted(b, id).cache == b.cache && KeyOf(b.pool, id) == Account(b.pool[id].value)
  {
    assert other in Sharers(b.pool - {id}, KeyOf(b.pool, id));
  }

  /** For one: the clones 1 and 2 of the key `k`, whose account has an entry. */
  lemma RestoredExample(first: Balance, late: Balance)
    ensures var s := Clones(first);
            var b := Run(s, [Begin(0, 1, false), Delete(1), Arrive(0, Some(late), 0.0, {}), Restore(1)]).books;
            && Inv(s) && Proper(s.books.pool, s.books.cache)
            && IsDoubled(b, 1) && b.cache[ById(1)].data == late
            && Account("k") in b.cache && b.cache[Account("k")].data == first
  {
    ClonesAreFine(first);
    RestoredOverLateAnswer(Clones(first), 0, 1, 2, late, 0.0, {});
  }

  function Clones(first: Balance): State {
    State(Books(map[1 := Some("k"), 2 := Some("k")], map[1 := 0.0, 2 := 0.0],
                map[Account("k") := Entry(0.0, first)], map[]), map[], map[], 3)
  }

  lemma ClonesAreFine(first: Balance)
    ensures Inv(Clones(first)) && Proper(Clones(first).books.pool, Clones(first).books.cache)
  {
  }

  /** After a restart with an emptied bin, an id can be handed out again. With an API key, the new
      credential is doubled by what the old one left; without, it shows the old one's balance. */
  lemma ReusedIdShowsLeftover(s: State, apiKey: Option<string>, clock: real, odd: set<Id>)
    requires Inv(s) && ById(s.nextId) in s.books.cache && IsYoung(s.books.cache[ById(s.nextId)], clock)
    ensures var b, e := Apply(s, Add(apiKey)).books, s.books.cache[ById(s.nextId)];
            var f := Figure(b, clock, odd, s.nextId);
            if apiKey.Some? then IsDoubled(b, s.nextId)
            else f == Some(Item(Corrected(e.data, Delta(b.used, b.snaps, s.nextId)), e.cachedAt))
  {
  }

  lemma LeftoverFile(e: Entry, now: real)
    requires IsYoung(e, now)
    ensures IsMigration(map[], map[ById(1) := e], now, map[ById(1) := e])
  {
    var file: Cache := map[ById(1) := e];
    forall t ensures Sources(map[], file, now, t) == if t == ById(1) then {t} else {} {
      LeftoverSource(file, now, t);
    }
    assert ById(1) in file && file[ById(1)] == e && IsLatest(file, {ById(1)}, e);
  }

  lemma LeftoverSource(file: Cache, now: real, t: Key)
    requires file.Keys == {ById(1)} && IsYoung(file[ById(1)], now)
    ensures Sources(map[], file, now, t) == if t == ById(1) then {t} else {}
  {
    assert Target(map[], ById(1)) == ById(1);
  }

  /** For one: a saved file with an entry under the id 1, and an empty pool and bin. */
  lemma ReusedIdExample(e: Entry, now: real)
    requires IsYoung(e, now)
    ensures var s := State(Books(map[], map[], map[ById(1) := e], map[]), map[], map[], 1);
            && IsMigration(map[], map[ById(1) := e], now, s.books.cache) && Inv(s)
            && IsDoubled(Apply(s, Add(Some("k"))).books, 1)
  {
    LeftoverFile(e, now);
    LoadedBooks(map[], map[], map[], map[ById(1) := e], now, map[ById(1) := e], 1);
  }
}

/** The sweep over credentials disabled for an exhausted quota. It waits before and during every
    probe, and anything may happen then. */
module QuotaSweep {
  import opened Text
  import opened BalanceCache
  import opened BalanceRuns

  /** The answer to a probe: a balance, or nothing in time. */
  datatype Reading = Fetched(balance: Balance) | Failed

  datatype Class = FreshPositive | FreshZero | Unresolved

  /** `classify_quota_probe_reading`. */
  function Classify(r: Reading): Class {
    match r
    case Fetched(b) => if b.stale then Unresolved else if b.remaining > 0.0 then FreshPositive else FreshZero
    case Failed => Unresolved
  }

  /** A probe: what others do before it begins, what they do while it waits, its answer, and the
      order the cache is listed in when that is filed. */
  datatype Probe = Probe(before: seq<Step>, during: seq<Step>, reading: Reading, now: real, odd: set<Id>)

  /** Only a reading of nothing left is filed. */
  function Kept(r: Reading): Option<Balance> { if Classify(r).FreshZero? then Some(r.balance) else None }

  /** A probe works out its key when the answer has come. */
  function ProbeSteps(c: CallId, id: Id, p: Probe): seq<Step> {
    p.before + [Begin(c, id, false)] + p.during + [Arrive(c, Kept(p.reading), p.now, p.odd)]
  }

  /** The first `n` probes of a sweep, with everything that happens meanwhile. */
  function SweepSteps(c: CallId, due: seq<Id>, probes: seq<Probe>, n: nat): seq<Step>
    requires n <= |due| == |probes|
  {
    if n == 0 then [] else SweepSteps(c, due, probes, n - 1) + ProbeSteps(c, due[n - 1], probes[n - 1])
  }

  lemma SweepRun(s: State, c: CallId, due: seq<Id>, probes: seq<Probe>, i: nat)
    requires i < |due| == |probes|
    ensures Run(s, SweepSteps(c, due, probes, i + 1))
         == Run(Run(s, SweepSteps(c, due, probes, i)), ProbeSteps(c, due[i], probes[i]))
  {
    RunAppend(s, SweepSteps(c, due, probes, i), ProbeSteps(c, due[i], probes[i]));
  }

  /** What a probe yields: nothing, if its credential is gone when it begins. */
  function ReadingOf(s: State, id: Id, p: Probe): Reading {
    if id in Run(s, p.before).books.pool then p.reading else Failed
  }

  function CountPositive(s: State, c: CallId, due: seq<Id>, probes: seq<Probe>, n: nat): nat
    requires n <= |due| == |probes|
  {
    if n == 0 then 0
    else
      CountPositive(s, c, due, probes, n - 1)
      + if Classify(ReadingOf(Run(s, SweepSteps(c, due, probes, n - 1)), due[n - 1], probes[n - 1])).FreshPositive?
        then 1 else 0
  }

  /** The first `n` probes are all that matters for the first `n` probes. */
  lemma {:induction false} SweepLocal(s: State, c: CallId, due: seq<Id>, probes: seq<Probe>, others: seq<Probe>, n: nat)
    requires n <= |due| == |probes| == |others| && forall i :: 0 <= i < n ==> probes[i] == others[i]
    ensures SweepSteps(c, due, probes, n) == SweepSteps(c, due, others, n)
    ensures CountPositive(s, c, due, probes, n) == CountPositive(s, c, due, others, n)
  {
    if n > 0 { SweepLocal(s, c, due, probes, others, n - 1); }
  }

  // ---------- runs that leave an account alone ----------

  /** The entry of account `k` is as it was, and so is the baseline `id` has on it, if any. */
  ghost predicate Untouched(b: Books, a: Books, k: Key, id: Id) {
    && (k in a.cache <==> k in b.cache)
    && (k in b.cache ==> a.cache[k] == b.cache[k])
    && (k in b.cache && id in b.snaps ==>
          id in a.snaps && a.snaps[id].creditsUsedAtCache == b.snaps[id].creditsUsedAtCache)
  }

  lemma QuietStepLeavesAlone(s: State, step: Step, id: Id, k: Key)
    requires Inv(s) && id in s.books.pool && !IsDoubled(s.books, id) && KeyOf(s.books.pool, id) == k
    requires Landing(s, step) != Some(k) && !Removes(step, id)
    ensures Untouched(s.books, Apply(s, step).books, k, id)
  {
    var b := s.books;
    assert IsKnown(s, id) && OwnKey(s, id) == k;
    StepKeepsSingle(s, step, id);
    match step
    case Arrive(c, reading, at, odd) =>
      if Landing(s, step).Some? {
        var j := Landing(s, step).value;
        PushedSpec(b.(cache := b.cache[j := Entry(at, reading.value)]), {j}, odd, id);
      }
    case RePush(odd) => PushedSpec(b, {}, odd, id);
    case Delete(other) => assert id in Sharers(b.pool - {other}, k);
    case _ =>
  }

  /** Nothing but a commit under its key, or the end of its credentials, touches an account. */
  lemma {:induction false} QuietRunLeavesAlone(s: State, steps: seq<Step>, id: Id, k: Key)
    requires Inv(s) && id in s.books.pool && !IsDoubled(s.books, id) && KeyOf(s.books.pool, id) == k
    requires Quiet(s, steps, id, k)
    ensures Untouched(s.books, Run(s, steps).books, k, id)
    decreases |steps|
  {
    if steps != [] {
      QuietStepLeavesAlone(s, steps[0], id, k);
      StepKeepsCredential(s, steps[0], id);
      StepKeepsSingle(s, steps[0], id);
      StepKeepsInv(s, steps[0]);
      QuietRunLeavesAlone(Apply(s, steps[0]), steps[1..], id, k);
    }
  }

  lemma {:induction false} QuietAppend(s: State, left: seq<Step>, right: seq<Step>, id: Id, k: Key)
    requires Quiet(s, left, id, k) && Quiet(Run(s, left), right, id, k)
    ensures Quiet(s, left + right, id, k)
    decreases |left|
  {
    if left == [] {
      assert left + right == right;
    } else {
      assert (left + right)[0] == left[0] && (left + right)[1..] == left[1..] + right;
      QuietAppend(Apply(s, left[0]), left[1..], right, id, k);
    }
  }

  lemma StepKeepsKey(s: State, step: Step, id: Id)
    requires id < s.nextId
    ensures var t := Apply(s, step);
            t.nextId >= s.nextId && (IsKnown(t, id) ==> IsKnown(s, id) && OwnKey(t, id) == OwnKey(s, id))
  {
  }

  /** Deleted and restored, a credential keeps its key. */
  lemma {:induction false} OwnKeyStays(s: State, steps: seq<Step>, id: Id)
    requires id < s.nextId
    ensures var t := Run(s, steps);
            t.nextId >= s.nextId && (IsKnown(t, id) ==> IsKnown(s, id) && OwnKey(t, id) == OwnKey(s, id))
    decreases |steps|
  {
    if steps != [] {
      StepKeepsKey(s, steps[0], id);
      OwnKeyStays(Apply(s, steps[0]), steps[1..], id);
    }
  }

  // ---------- the sweep among others ----------

  /** The steps are not of request `c`. */
  ghost predicate Avoids(steps: seq<Step>, c: CallId) {
    forall i :: 0 <= i < |steps| ==> !(steps[i].Begin? && steps[i].c == c) && !(steps[i].Arrive? && steps[i].c == c)
  }

  lemma {:induction false} AvoidKeepsFlight(s: State, steps: seq<Step>, c: CallId)
    requires Avoids(steps, c)
    ensures var t := Run(s, steps);
            && (c in t.flights <==> c in s.flights)
            && (c in s.flights ==> t.flights[c] == s.flights[c])
    decreases |steps|
  {
    if steps != [] {
      assert !(steps[0].Begin? && steps[0].c == c) && !(steps[0].Arrive? && steps[0].c == c);
      assert Avoids(steps[1..], c);
      AvoidKeepsFlight(Apply(s, steps[0]), steps[1..], c);
    }
  }

  /** The state when the answer to a probe comes. */
  function Waited(s: State, c: CallId, id: Id, p: Probe): State {
    Run(Apply(Run(s, p.before), Begin(c, id, false)), p.during)
  }

  lemma ProbeRun(s: State, c: CallId, id: Id, p: Probe)
    ensures Run(s, ProbeSteps(c, id, p)) == Apply(Waited(s, c, id, p), Arrive(c, Kept(p.reading), p.now, p.odd))
  {
    var begin, arrive := Begin(c, id, false), Arrive(c, Kept(p.reading), p.now, p.odd);
    RunAppend(s, p.before, [begin]);
    RunOne(Run(s, p.before), begin);
    RunAppend(s, p.before + [begin], p.during);
    RunAppend(s, p.before + [begin] + p.during, [arrive]);
    RunOne(Waited(s, c, id, p), arrive);
  }

  /** A probe that began is still its own when it is answered. */
  lemma ProbeFlight(s: State, c: CallId, id: Id, p: Probe)
    requires c !in s.flights && Avoids(p.before, c) && Avoids(p.during, c)
    ensures var t := Waited(s, c, id, p);
            && (c in t.flights <==> id in Run(s, p.before).books.pool) && (c in t.flights ==> t.flights[c] == Late(id))
            && c !in Run(s, ProbeSteps(c, id, p)).flights
  {
    AvoidKeepsFlight(s, p.before, c);
    AvoidKeepsFlight(Apply(Run(s, p.before), Begin(c, id, false)), p.during, c);
    ProbeRun(s, c, id, p);
  }

  /** What others do around a probe does not commit under `k` nor delete `id`. */
  ghost predicate OthersQuiet(s: State, c: CallId, probed: Id, p: Probe, id: Id, k: Key) {
    && Avoids(p.before, c) && Avoids(p.during, c)
    && Quiet(s, p.before, id, k) && Quiet(Apply(Run(s, p.before), Begin(c, probed, false)), p.during, id, k)
  }

  /** The probed credential is of another account, or its reading is not filed. */
  predicate IsElsewhere(s: State, probed: Id, p: Probe, k: Key) { Kept(p.reading).None? || OwnKey(s, probed) != k }

  lemma WaitedIsRun(s: State, c: CallId, id: Id, p: Probe)
    ensures Waited(s, c, id, p) == Run(s, p.before + [Begin(c, id, false)] + p.during)
  {
    RunAppend(s, p.before, [Begin(c, id, false)]);
    RunOne(Run(s, p.before), Begin(c, id, false));
    RunAppend(s, p.before + [Begin(c, id, false)], p.during);
  }

  lemma WaitIsQuiet(s: State, c: CallId, probed: Id, p: Probe, id: Id, k: Key)
    requires OthersQuiet(s, c, probed, p, id, k)
    ensures Quiet(s, p.before + [Begin(c, probed, false)] + p.during, id, k)
  {
    var begin := Begin(c, probed, false);
    RunOne(Run(s, p.before), begin);
    assert [begin][1..] == [] && Quiet(Run(s, p.before), [begin], id, k);
    QuietAppend(s, p.before, [begin], id, k);
    RunAppend(s, p.before, [begin]);
    QuietAppend(s, p.before + [begin], p.during, id, k);
  }

  lemma ProbeIsQuiet(s: State, c: CallId, probed: Id, p: Probe, id: Id, k: Key)
    requires Inv(s) && id in s.books.pool && KeyOf(s.books.pool, id) == k && probed < s.nextId && c !in s.flights
    requires OthersQuiet(s, c, probed, p, id, k)
    requires IsElsewhere(s, probed, p, k)
    ensures Quiet(s, ProbeSteps(c, probed, p), id, k)
  {
    var wait := p.before + [Begin(c, probed, false)] + p.during;
    var t, arrive := Waited(s, c, probed, p), Arrive(c, Kept(p.reading), p.now, p.odd);
    WaitIsQuiet(s, c, probed, p, id, k);
    WaitedIsRun(s, c, probed, p);
    QuietKeepsId(s, wait, id, k);
    SpendAddsUp(s, wait, id);
    OwnKeyStays(s, wait, probed);
    ProbeFlight(s, c, probed, p);
    assert probed in t.books.pool ==> IsKnown(t, probed) && OwnKey(t, probed) == KeyOf(t.books.pool, probed);
    assert Landing(t, arrive) != Some(k);
    assert [arrive][1..] == [] && Quiet(t, [arrive], id, k);
    QuietAppend(s, wait, [arrive], id, k);
  }

  /** Probe `i` and what others do around it leave account `k` of `id` alone. */
  ghost predicate QuietProbe(s: State, c: CallId, due: seq<Id>, probes: seq<Probe>, i: nat, id: Id, k: Key)
    requires i < |due| == |probes|
  {
    && due[i] < s.nextId && IsElsewhere(s, due[i], probes[i], k)
    && OthersQuiet(Run(s, SweepSteps(c, due, probes, i)), c, due[i], probes[i], id, k)
  }

  ghost predicate AllQuiet(s: State, c: CallId, due: seq<Id>, probes: seq<Probe>, n: nat, id: Id, k: Key)
    requires n <= |due| == |probes|
  {
    forall i: nat :: i < n ==> QuietProbe(s, c, due, probes, i, id, k)
  }

  lemma ElsewhereStays(s: State, steps: seq<Step>, probed: Id, p: Probe, id: Id, k: Key)
    requires probed < s.nextId && IsElsewhere(s, probed, p, k)
    requires id in s.books.pool && KeyOf(s.books.pool, id) == k
    requires var t := Run(s, steps); id in t.books.pool && KeyOf(t.books.pool, id) == k
    ensures IsElsewhere(Run(s, steps), probed, p, k)
  {
    var t := Run(s, steps);
    OwnKeyStays(s, steps, probed);
    if !IsKnown(t, probed) { assert OwnKey(t, probed) == ById(probed); }
  }

  lemma OneMoreProbe(s: State, c: CallId, due: seq<Id>, probes: seq<Probe>, n: nat, id: Id, k: Key)
    requires 0 < n <= |due| == |probes|
    requires Inv(s) && id in s.books.pool && KeyOf(s.books.pool, id) == k
    requires Quiet(s, SweepSteps(c, due, probes, n - 1), id, k)
             && c !in Run(s, SweepSteps(c, due, probes, n - 1)).flights
    requires QuietProbe(s, c, due, probes, n - 1, id, k)
    ensures Quiet(s, SweepSteps(c, due, probes, n), id, k) && c !in Run(s, SweepSteps(c, due, probes, n)).flights
  {
    var steps, probed, p := SweepSteps(c, due, probes, n - 1), due[n - 1], probes[n - 1];
    RunKeepsInv(s, steps);
    QuietKeepsId(s, steps, id, k);
    SpendAddsUp(s, steps, id);
    OwnKeyStays(s, steps, probed);
    ElsewhereStays(s, steps, probed, p, id, k);
    ProbeIsQuiet(Run(s, steps), c, probed, p, id, k);
    QuietAppend(s, steps, ProbeSteps(c, probed, p), id, k);
    RunAppend(s, steps, ProbeSteps(c, probed, p));
    ProbeFlight(Run(s, steps), c, probed, p);
  }

  lemma {:induction false} SweepIsQuiet(s: State, c: CallId, due: seq<Id>, probes: seq<Probe>, n: nat, id: Id, k: Key)
    requires n <= |due| == |probes| && AllQuiet(s, c, due, probes, n, id, k)
    requires Inv(s) && c !in s.flights && id in s.books.pool && KeyOf(s.books.pool, id) == k
    ensures Quiet(s, SweepSteps(c, due, probes, n), id, k) && c !in Run(s, SweepSteps(c, due, probes, n)).flights
  {
    if n > 0 {
      assert QuietProbe(s, c, due, probes, n - 1, id, k);
      SweepIsQuiet(s, c, due, probes, n - 1, id, k);
      OneMoreProbe(s, c, due, probes, n, id, k);
    }
  }

  /** A sweep leaves alone every account it files no reading of nothing left for: a positive
      reading or a failed probe changes neither the entry nor a baseline, whatever else happens
      to other accounts while the sweep waits. */
  lemma SweepLeavesAlone(s: State, c: CallId, due: seq<Id>, probes: seq<Probe>, n: nat, id: Id, k: Key)
    requires n <= |due| == |probes| && AllQuiet(s, c, due, probes, n, id, k)
    requires Inv(s) && c !in s.flights && id in s.books.pool && !IsDoubled(s.books, id) && KeyOf(s.books.pool, id) == k
    ensures Untouched(s.books, Run(s, SweepSteps(c, due, probes, n)).books, k, id)
  {
    SweepIsQuiet(s, c, due, probes, n, id, k);
    QuietRunLeavesAlone(s, SweepSteps(c, due, probes, n), id, k);
  }

  /** A reading of nothing left is filed under the key its credential has when it comes. */
  lemma ZeroIsFiled(s: State, c: CallId, probed: Id, p: Probe)
    requires c !in s.flights && Avoids(p.before, c) && Avoids(p.during, c)
    requires Kept(p.reading).Some? && probed in Run(s, p.before).books.pool
    ensures var t, u := Waited(s, c, probed, p).books, Run(s, ProbeSteps(c, probed, p));
            && u.books.pool == t.pool && c !in u.flights
            && KeyOf(t.pool, probed) in u.books.cache
            && u.books.cache[KeyOf(t.pool, probed)] == Entry(p.now, p.reading.balance)
  {
    ProbeFlight(s, c, probed, p);
    ProbeRun(s, c, probed, p);
  }

  /** And it files the last one: after a probe that found nothing left, with later probes finding
      that only elsewhere, the account holds that reading at the end. `s` is what the earlier
      probes left. */
  lemma SweepKeepsLastZero(s: State, c: CallId, probed: Id, p: Probe, due: seq<Id>, probes: seq<Probe>, id: Id, k: Key)
    requires Inv(s) && c !in s.flights && |due| == |probes| && Kept(p.reading).Some?
    requires Avoids(p.before, c) && Avoids(p.during, c) && probed in Run(s, p.before).books.pool
    requires var t := Waited(s, c, probed, p).books;
             id in t.pool && !IsDoubled(t, id) && KeyOf(t.pool, id) == k && KeyOf(t.pool, probed) == k
    requires AllQuiet(Run(s, ProbeSteps(c, probed, p)), c, due, probes, |due|, id, k)
    ensures var e := Run(Run(s, ProbeSteps(c, probed, p)), SweepSteps(c, due, probes, |due|)).books;
            k in e.cache && e.cache[k] == Entry(p.now, p.reading.balance)
  {
    var t := Waited(s, c, probed, p);
    ZeroIsFiled(s, c, probed, p);
    RunKeepsInv(s, ProbeSteps(c, probed, p));
    RunKeepsInv(s, p.before + [Begin(c, probed, false)] + p.during);
    WaitedIsRun(s, c, probed, p);
    ProbeRun(s, c, probed, p);
    StepKeepsSingle(t, Arrive(c, Kept(p.reading), p.now, p.odd), id);
    SweepLeavesAlone(Run(s, ProbeSteps(c, probed, p)), c, due, probes, |due|, id, k);
  }
}

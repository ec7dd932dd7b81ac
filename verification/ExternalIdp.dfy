/** The external-IdP login: a one-time authorization code is exchanged for a token, which waits
    in its session until one of several concurrent requests turns it into a credential. */
module ExternalIdp {
  import opened Text

  const SESSION_TTL_SECS: nat := 900

  type Token = nat
  type CallId = nat

  datatype Profile = Profile(arn: string, region: string, usable: bool)

  datatype Pending = Pending(token: Token, profiles: seq<Profile>)

  datatype Session = Session(createdAt: nat, priority: nat, leg2: bool, pending: Option<Pending>)

  type Sessions = map<string, Session>

  datatype Refusal = NoSession | TimedOut | NothingPending

  datatype Claim = Claimed(pending: Pending, priority: nat) | Refused(why: Refusal)

  // ---------- the critical sections, on values ----------

  predicate IsTimedOut(s: Session, now: nat) {
    now > s.createdAt + SESSION_TTL_SECS
  }

  function ClaimOutcome(m: Sessions, sid: string, now: nat): Claim {
    if sid !in m then Refused(NoSession)
    else if IsTimedOut(m[sid], now) then Refused(TimedOut)
    else
      match m[sid].pending
      case None => Refused(NothingPending)
      case Some(p) => Claimed(p, m[sid].priority)
  }

  /** The sessions after a claim: only a granted claim empties its slot. */
  function AfterClaim(m: Sessions, sid: string, now: nat): Sessions {
    if ClaimOutcome(m, sid, now).Claimed? then m[sid := m[sid].(pending := None)] else m
  }

  /** A failed build puts its token back, unless the session is gone or holds another one. */
  function AfterRestore(m: Sessions, sid: string, p: Pending): Sessions {
    if sid in m && m[sid].pending.None? then m[sid := m[sid].(pending := Some(p))] else m
  }

  function AfterStore(m: Sessions, sid: string, p: Pending): Sessions {
    if sid in m then m[sid := m[sid].(pending := Some(p))] else m
  }

  function AfterCleanup(m: Sessions, now: nat): Sessions {
    map sid | sid in m && now < m[sid].createdAt + SESSION_TTL_SECS :: m[sid]
  }

  /** The session table behind its lock; one method a critical section. */
  class ExternalIdpLoginManager {
    var sessions: Sessions

    constructor ()
      ensures sessions == map[]
    {
      sessions := map[];
    }

    /** `claim_pending`: the check of the deadline comes before the take. */
    method ClaimPending(sid: string, now: nat) returns (r: Claim)
      modifies this
      ensures r == ClaimOutcome(old(sessions), sid, now) && sessions == AfterClaim(old(sessions), sid, now)
    {
      if sid !in sessions { return Refused(NoSession); }
      var s := sessions[sid];
      if now > s.createdAt + SESSION_TTL_SECS { return Refused(TimedOut); }
      match s.pending {
        case None => return Refused(NothingPending);
        case Some(p) =>
          sessions := sessions[sid := s.(pending := None)];
          return Claimed(p, s.priority);
      }
    }

    /** `restore_pending`. */
    method RestorePending(sid: string, p: Pending)
      modifies this
      ensures sessions == AfterRestore(old(sessions), sid, p)
    {
      if sid in sessions && sessions[sid].pending.None? {
        sessions := sessions[sid := sessions[sid].(pending := Some(p))];
      }
    }

    /** The end of `submit_leg2`: keep the exchanged token for the selection. */
    method StorePending(sid: string, p: Pending)
      modifies this
      ensures sessions == AfterStore(old(sessions), sid, p)
    {
      if sid in sessions { sessions := sessions[sid := sessions[sid].(pending := Some(p))]; }
    }

    /** `cleanup_expired`. */
    method CleanupExpired(now: nat)
      modifies this
      ensures sessions == AfterCleanup(old(sessions), now)
    {
      var kept: Sessions := map[];
      var todo := sessions.Keys;
      while todo != {}
        invariant todo <= sessions.Keys && sessions == old(sessions)
        invariant kept == map sid | sid in sessions && sid !in todo
                  && now < sessions[sid].createdAt + SESSION_TTL_SECS :: sessions[sid]
        decreases |todo|
      {
        var sid :| sid in todo;
        if now < sessions[sid].createdAt + SESSION_TTL_SECS { kept := kept[sid := sessions[sid]]; }
        todo := todo - {sid};
      }
      sessions := kept;
    }
  }

  // ---------- choosing a profile ----------

  datatype Choice = Chosen(profile: Profile) | NotListed | NoneUsable

  function FirstUsable(ps: seq<Profile>): Option<Profile> {
    if ps == [] then None else if ps[0].usable then Some(ps[0]) else FirstUsable(ps[1..])
  }

  function FirstWithArn(ps: seq<Profile>, arn: string): Option<Profile> {
    if ps == [] then None else if ps[0].arn == arn then Some(ps[0]) else FirstWithArn(ps[1..], arn)
  }

  /** `resolve_chosen_profile`. */
  function ResolveChosenProfile(ps: seq<Profile>, arn: string): Choice {
    match FirstWithArn(ps, arn)
    case None => NotListed
    case Some(p) =>
      if p.usable then Chosen(p)
      else match FirstUsable(ps) case None => NoneUsable case Some(u) => Chosen(u)
  }

  lemma {:induction false} FirstUsableSpec(ps: seq<Profile>)
    ensures FirstUsable(ps).Some? <==> exists p :: p in ps && p.usable
    ensures FirstUsable(ps).Some? ==> FirstUsable(ps).value in ps && FirstUsable(ps).value.usable
  {
    if ps != [] && !ps[0].usable { FirstUsableSpec(ps[1..]); }
  }

  lemma {:induction false} FirstWithArnSpec(ps: seq<Profile>, arn: string)
    ensures FirstWithArn(ps, arn).Some? <==> exists p :: p in ps && p.arn == arn
    ensures FirstWithArn(ps, arn).Some? ==> FirstWithArn(ps, arn).value in ps && FirstWithArn(ps, arn).value.arn == arn
  {
    if ps != [] && ps[0].arn != arn { FirstWithArnSpec(ps[1..], arn); }
  }

  /** A listed name with some usable profile in the list always leads to a usable profile of
      that list, anything else to a refusal. */
  lemma ResolveSpec(ps: seq<Profile>, arn: string)
    ensures var c := ResolveChosenProfile(ps, arn);
            && (c.Chosen? <==> (exists p :: p in ps && p.arn == arn) && (exists p :: p in ps && p.usable))
            && (c.Chosen? ==> c.profile in ps && c.profile.usable)
            && (c.NotListed? <==> !exists p :: p in ps && p.arn == arn)
  {
    FirstUsableSpec(ps);
    FirstWithArnSpec(ps, arn);
  }

  // ---------- concurrent requests ----------

  /** Where a request stands between two of its critical sections. */
  datatype Call =
    | Exchanging(sid: string)
    | Exchanged(sid: string, pending: Pending)
    | Picked(sid: string, arn: string)
    | Building(sid: string, pending: Pending, arn: string)
    | Adding(sid: string, pending: Pending, chosen: Profile)
    | Finishing(sid: string)

  datatype Credential = Credential(token: Token, profile: Profile)

  /** `issued` is the history of exchanges: which profiles each token came with. */
  datatype State = State(sessions: Sessions, calls: map<CallId, Call>, pool: seq<Credential>,
                         issued: map<Token, seq<Profile>>, now: nat)

  datatype Step =
    | Start(sid: string, priority: nat)
    | Leg1Done(sid: string)
    | BeginLeg2(c: CallId, sid: string)
    | Exchange(c: CallId, token: Token, profiles: seq<Profile>)
    | Store(c: CallId)
    | Select(c: CallId, sid: string, arn: string)
    | AutoSelect(c: CallId)
    | Resolve(c: CallId)
    | AddSucceeds(c: CallId)
    | AddFails(c: CallId)
    | Finish(c: CallId)
    | Abandon(c: CallId)
    | Cleanup
    | Tick(seconds: nat)

  function UsableArns(ps: seq<Profile>): seq<string> {
    if ps == [] then [] else (if ps[0].usable then [ps[0].arn] else []) + UsableArns(ps[1..])
  }

  function Without(calls: map<CallId, Call>, c: CallId): map<CallId, Call> {
    calls - {c}
  }

  /** What a build that claims `sid` does to the sessions and to its own request. */
  function ClaimStep(s: State, c: CallId, sid: string, arn: string): State {
    match ClaimOutcome(s.sessions, sid, s.now)
    case Refused(_) => s.(calls := Without(s.calls, c))
    case Claimed(p, _) =>
      s.(sessions := AfterClaim(s.sessions, sid, s.now),
         calls := s.calls[c := Building(sid, p, arn)])
  }

  /** One atomic step; a step that cannot be taken changes nothing. New sessions, requests and
      tokens are new. */
  function Apply(s: State, step: Step): State {
    match step
    case Start(sid, priority) =>
      if sid in s.sessions then s
      else s.(sessions := AfterCleanup(s.sessions, s.now)[sid := Session(s.now, priority, false, None)])
    case Leg1Done(sid) =>
      if sid in s.sessions then s.(sessions := s.sessions[sid := s.sessions[sid].(leg2 := true)]) else s
    case BeginLeg2(c, sid) =>
      if c in s.calls || sid !in s.sessions || IsTimedOut(s.sessions[sid], s.now) || !s.sessions[sid].leg2 then s
      else s.(calls := s.calls[c := Exchanging(sid)])
    case Exchange(c, token, profiles) =>
      if c !in s.calls || !s.calls[c].Exchanging? || token in s.issued || profiles == [] then s
      else s.(calls := s.calls[c := Exchanged(s.calls[c].sid, Pending(token, profiles))],
              issued := s.issued[token := profiles])
    case Store(c) =>
      if c !in s.calls || !s.calls[c].Exchanged? then s
      else
        var call := s.calls[c];
        var usable := UsableArns(call.pending.profiles);
        s.(sessions := AfterStore(s.sessions, call.sid, call.pending),
           calls := if |usable| == 1 then s.calls[c := Picked(call.sid, usable[0])] else Without(s.calls, c))
    case Select(c, sid, arn) =>
      if c in s.calls then s else ClaimStep(s, c, sid, arn)
    case AutoSelect(c) =>
      if c !in s.calls || !s.calls[c].Picked? then s else ClaimStep(s, c, s.calls[c].sid, s.calls[c].arn)
    case Resolve(c) =>
      if c !in s.calls || !s.calls[c].Building? then s
      else
        var call := s.calls[c];
        (match ResolveChosenProfile(call.pending.profiles, Trim(call.arn))
         case Chosen(p) => s.(calls := s.calls[c := Adding(call.sid, call.pending, p)])
         case _ => s.(sessions := AfterRestore(s.sessions, call.sid, call.pending), calls := Without(s.calls, c)))
    case AddSucceeds(c) =>
      if c !in s.calls || !s.calls[c].Adding? then s
      else
        var call := s.calls[c];
        s.(pool := s.pool + [Credential(call.pending.token, call.chosen)], calls := s.calls[c := Finishing(call.sid)])
    case AddFails(c) =>
      if c !in s.calls || !s.calls[c].Adding? then s
      else
        var call := s.calls[c];
        s.(sessions := AfterRestore(s.sessions, call.sid, call.pending), calls := Without(s.calls, c))
    case Finish(c) =>
      if c !in s.calls || !s.calls[c].Finishing? then s
      else s.(sessions := s.sessions - {s.calls[c].sid}, calls := Without(s.calls, c))
    case Abandon(c) => s.(calls := Without(s.calls, c))
    case Cleanup => s.(sessions := AfterCleanup(s.sessions, s.now))
    case Tick(seconds) => s.(now := s.now + seconds)
  }

  function Run(s: State, steps: seq<Step>): State {
    if steps == [] then s else Apply(Run(s, steps[..|steps| - 1]), steps[|steps| - 1])
  }

  const Initial: State := State(map[], map[], [], map[], 0)

  // ---------- token ownership ----------

  /** A place that can hold a token: a session's slot, a request in flight, a pool entry. */
  datatype Place = Slot(sid: string) | Hand(c: CallId) | Pooled(i: nat)

  function InHand(call: Call): Option<Pending> {
    match call
    case Exchanged(_, p) => Some(p)
    case Building(_, p, _) => Some(p)
    case Adding(_, p, _) => Some(p)
    case _ => None
  }

  /** The token and profile list at a place. */
  function Held(s: State, at: Place): Option<Pending> {
    match at
    case Slot(sid) => if sid in s.sessions then s.sessions[sid].pending else None
    case Hand(c) => if c in s.calls then InHand(s.calls[c]) else None
    case Pooled(i) => if i < |s.pool| && s.pool[i].token in s.issued
                      then Some(Pending(s.pool[i].token, s.issued[s.pool[i].token])) else None
  }

  /** No token is in two places. */
  ghost predicate OnePlaceEach(s: State) {
    forall p, q :: Held(s, p).Some? && Held(s, q).Some? && Held(s, p).value.token == Held(s, q).value.token ==> p == q
  }

  /** Every token is where it is with the profile list it was issued with. */
  ghost predicate Genuine(s: State) {
    && (forall p :: Held(s, p).Some? ==>
          && Held(s, p).value.token in s.issued
          && s.issued[Held(s, p).value.token] == Held(s, p).value.profiles)
    && (forall i :: 0 <= i < |s.pool| ==> s.pool[i].token in s.issued)
  }

  /** Credentials, made or in the making, are on usable profiles of their own token's list. */
  ghost predicate WellChosen(s: State) {
    && (forall c :: c in s.calls && s.calls[c].Adding? ==>
          s.calls[c].chosen in s.calls[c].pending.profiles && s.calls[c].chosen.usable)
    && (forall i :: 0 <= i < |s.pool| ==> s.pool[i].token in s.issued
                                          && s.pool[i].profile in s.issued[s.pool[i].token] && s.pool[i].profile.usable)
  }

  ghost predicate Inv(s: State) {
    OnePlaceEach(s) && Genuine(s) && WellChosen(s)
  }

  /** Every place holds what it held, except that `to` holds what `from` gave up; places may
      have been emptied. */
  ghost predicate Moved(s: State, t: State, from: Place, to: Place) {
    forall p :: Held(t, p).Some? ==>
                  Held(t, p) == Held(s, if p == to then from else p) && (from != to ==> p != from)
  }

  lemma MovedKeepsOnePlace(s: State, t: State, from: Place, to: Place)
    requires OnePlaceEach(s) && Moved(s, t, from, to)
    ensures OnePlaceEach(t)
  {
    forall p, q | Held(t, p).Some? && Held(t, q).Some? && Held(t, p).value.token == Held(t, q).value.token
      ensures p == q
    {
      var p', q' := if p == to then from else p, if q == to then from else q;
      assert Held(s, p') == Held(t, p) && Held(s, q') == Held(t, q);
    }
  }

  /** Where the token at `p` goes in a step that does not forfeit it. */
  function NextPlace(s: State, step: Step, p: Place): Place {
    match step
    case Store(c) =>
      if c in s.calls && s.calls[c].Exchanged? && p == Hand(c) then Slot(s.calls[c].sid) else p
    case Select(c, sid, _) =>
      if c !in s.calls && ClaimOutcome(s.sessions, sid, s.now).Claimed? && p == Slot(sid) then Hand(c) else p
    case AutoSelect(c) =>
      if c in s.calls && s.calls[c].Picked? && ClaimOutcome(s.sessions, s.calls[c].sid, s.now).Claimed?
          && p == Slot(s.calls[c].sid)
      then Hand(c) else p
    case Resolve(c) => if BuildFails(s, step) && p == Hand(c) then Slot(s.calls[c].sid) else p
    case AddFails(c) => if BuildFails(s, step) && p == Hand(c) then Slot(s.calls[c].sid) else p
    case AddSucceeds(c) => if c in s.calls && s.calls[c].Adding? && p == Hand(c) then Pooled(|s.pool|) else p
    case _ => p
  }

  /** The step ends a build without a credential. */
  predicate BuildFails(s: State, step: Step) {
    match step
    case Resolve(c) => c in s.calls && s.calls[c].Building?
                       && !ResolveChosenProfile(s.calls[c].pending.profiles, Trim(s.calls[c].arn)).Chosen?
    case AddFails(c) => c in s.calls && s.calls[c].Adding?
    case _ => false
  }

  /** The ways a token is given up: replaced in its slot by a newer exchange; exchanged or
      handed back when its session is gone or holds another token; removed with its session
      (finished or out of time); or dropped with an abandoned request. */
  ghost predicate Forfeits(s: State, step: Step, p: Place) {
    match step
    case Store(c) => c in s.calls && s.calls[c].Exchanged? &&
                     var sid := s.calls[c].sid; if sid in s.sessions then p == Slot(sid) else p == Hand(c)
    case Resolve(c) => BuildFails(s, step) && p == Hand(c) && !CanTakeBack(s, s.calls[c].sid)
    case AddFails(c) => BuildFails(s, step) && p == Hand(c) && !CanTakeBack(s, s.calls[c].sid)
    case Finish(c) => c in s.calls && s.calls[c].Finishing? && p == Slot(s.calls[c].sid)
    case Abandon(c) => p == Hand(c)
    case Cleanup => p.Slot? && p.sid in s.sessions && s.now >= s.sessions[p.sid].createdAt + SESSION_TTL_SECS
    case Start(sid, _) => sid !in s.sessions && p.Slot? && p.sid in s.sessions
        && s.now >= s.sessions[p.sid].createdAt + SESSION_TTL_SECS
    case _ => false
  }

  predicate CanTakeBack(s: State, sid: string) {
    sid in s.sessions && s.sessions[sid].pending.None?
  }

  lemma ClaimStepMoves(s: State, c: CallId, sid: string, arn: string)
    requires Inv(s) && (c in s.calls ==> InHand(s.calls[c]).None?)
    ensures var t := ClaimStep(s, c, sid, arn);
            if ClaimOutcome(s.sessions, sid, s.now).Claimed? then Moved(s, t, Slot(sid), Hand(c))
            else Moved(s, t, Hand(c), Hand(c))
  {
  }

  lemma StoreMoves(s: State, c: CallId)
    requires Inv(s) && c in s.calls && s.calls[c].Exchanged?
    ensures var t := Apply(s, Store(c)); var sid := s.calls[c].sid;
            if sid in s.sessions then Moved(s, t, Hand(c), Slot(sid)) else Moved(s, t, Hand(c), Hand(c))
  {
  }

  lemma FailedBuildMoves(s: State, step: Step)
    requires Inv(s) && BuildFails(s, step)
    ensures var t := Apply(s, step); var sid := s.calls[step.c].sid;
            if CanTakeBack(s, sid) then Moved(s, t, Hand(step.c), Slot(sid))
            else Moved(s, t, Hand(step.c), Hand(step.c))
  {
  }

  lemma AddMoves(s: State, c: CallId)
    requires Inv(s) && c in s.calls && s.calls[c].Adding?
    ensures Moved(s, Apply(s, AddSucceeds(c)), Hand(c), Pooled(|s.pool|))
  {
    assert Held(s, Hand(c)) == Some(s.calls[c].pending);
  }

  lemma OtherStepsOnlyEmpty(s: State, step: Step)
    requires step.Start? || step.Leg1Done? || step.BeginLeg2? || step.Finish? || step.Abandon? || step.Cleanup?
             || step.Tick?
    ensures forall p :: Held(Apply(s, step), p).Some? ==> Held(Apply(s, step), p) == Held(s, p)
  {
  }

  /** Every step but an exchange moves at most one token. */
  lemma StepMoves(s: State, step: Step) returns (from: Place, to: Place)
    requires Inv(s) && !step.Exchange?
    ensures Moved(s, Apply(s, step), from, to)
  {
    from, to := Pooled(0), Pooled(0);
    if (step.Resolve? || step.AddFails?) && BuildFails(s, step) {
      FailedBuildMoves(s, step);
      from := Hand(step.c);
      to := if CanTakeBack(s, s.calls[step.c].sid) then Slot(s.calls[step.c].sid) else from;
    } else if step.Store? && step.c in s.calls && s.calls[step.c].Exchanged? {
      StoreMoves(s, step.c);
      from := Hand(step.c);
      to := if s.calls[step.c].sid in s.sessions then Slot(s.calls[step.c].sid) else from;
    } else if step.Select? && step.c !in s.calls {
      ClaimStepMoves(s, step.c, step.sid, step.arn);
      to := Hand(step.c);
      from := if ClaimOutcome(s.sessions, step.sid, s.now).Claimed? then Slot(step.sid) else to;
    } else if step.AutoSelect? && step.c in s.calls && s.calls[step.c].Picked? {
      var sid := s.calls[step.c].sid;
      ClaimStepMoves(s, step.c, sid, s.calls[step.c].arn);
      to := Hand(step.c);
      from := if ClaimOutcome(s.sessions, sid, s.now).Claimed? then Slot(sid) else to;
    } else if step.AddSucceeds? && step.c in s.calls && s.calls[step.c].Adding? {
      AddMoves(s, step.c);
      from, to := Hand(step.c), Pooled(|s.pool|);
    } else if step.Resolve? {
      ResolveInPlace(s, step.c);
    } else if step.Store? || step.Select? || step.AutoSelect? || step.AddSucceeds? || step.AddFails? {
      assert Apply(s, step) == s;
    } else {
      OtherStepsOnlyEmpty(s, step);
    }
  }

  lemma ResolveInPlace(s: State, c: CallId)
    requires !BuildFails(s, Resolve(c))
    ensures forall p :: Held(Apply(s, Resolve(c)), p).Some? ==> Held(Apply(s, Resolve(c)), p) == Held(s, p)
  {
  }

  lemma ExchangeKeepsOnePlace(s: State, c: CallId, token: Token, profiles: seq<Profile>)
    requires Inv(s)
    ensures OnePlaceEach(Apply(s, Exchange(c, token, profiles))) && Genuine(Apply(s, Exchange(c, token, profiles)))
  {
    var t := Apply(s, Exchange(c, token, profiles));
    if t != s {
      forall p | Held(t, p).Some?
        ensures if p == Hand(c) then Held(t, p) == Some(Pending(token, profiles))
                else Held(t, p) == Held(s, p) && Held(t, p).value.token != token
      {
        if p.Pooled? { assert s.pool[p.i].token in s.issued; }
        if p != Hand(c) { assert Held(s, p) == Held(t, p); }
      }
    }
  }

  lemma MovedKeepsGenuine(s: State, t: State, from: Place, to: Place)
    requires Genuine(s) && Moved(s, t, from, to) && t.issued == s.issued
    requires forall i :: 0 <= i < |t.pool| ==> t.pool[i].token in t.issued
    ensures Genuine(t)
  {
  }

  lemma StepKeepsPool(s: State, step: Step)
    requires Inv(s)
    ensures var t := Apply(s, step);
            && s.pool <= t.pool && (forall k :: k in s.issued ==> k in t.issued && t.issued[k] == s.issued[k])
            && (forall i :: 0 <= i < |t.pool| ==> t.pool[i].token in t.issued)
            && (!step.Exchange? ==> t.issued == s.issued)
  {
    if step.AddSucceeds? && step.c in s.calls && s.calls[step.c].Adding? {
      assert Held(s, Hand(step.c)).Some?;
    }
  }

  lemma StepKeepsWellChosen(s: State, step: Step)
    requires Inv(s)
    ensures WellChosen(Apply(s, step))
  {
    StepKeepsPool(s, step);
    match step {
      case Resolve(c) =>
        if c in s.calls && s.calls[c].Building? {
          ResolveSpec(s.calls[c].pending.profiles, Trim(s.calls[c].arn));
        }
      case AddSucceeds(c) =>
        if c in s.calls && s.calls[c].Adding? {
          assert Held(s, Hand(c)) == Some(s.calls[c].pending);
        }
      case _ =>
    }
  }

  lemma StepKeepsInv(s: State, step: Step)
    requires Inv(s)
    ensures Inv(Apply(s, step))
  {
    StepKeepsWellChosen(s, step);
    if step.Exchange? {
      ExchangeKeepsOnePlace(s, step.c, step.token, step.profiles);
    } else {
      var from, to := StepMoves(s, step);
      StepKeepsPool(s, step);
      MovedKeepsOnePlace(s, Apply(s, step), from, to);
      MovedKeepsGenuine(s, Apply(s, step), from, to);
    }
  }

  /** In every interleaving, a token is in at most one place, with its own profile list, and
      every credential is on a usable profile of the list its token came with. */
  lemma {:induction false} EveryRunKeepsInv(steps: seq<Step>)
    ensures Inv(Run(Initial, steps))
  {
    if steps != [] {
      EveryRunKeepsInv(steps[..|steps| - 1]);
      StepKeepsInv(Run(Initial, steps[..|steps| - 1]), steps[|steps| - 1]);
    }
  }

  /** So an exchanged token makes at most one credential, and once it has made one, no slot and
      no request holds it any more. */
  lemma OneCredentialPerToken(steps: seq<Step>, i: nat, at: Place)
    requires var s := Run(Initial, steps);
             i < |s.pool| && at != Pooled(i) && Held(s, at).Some?
    ensures var s := Run(Initial, steps);
            && Held(s, at).value.token != s.pool[i].token
            && s.pool[i].token in s.issued && s.pool[i].profile in s.issued[s.pool[i].token] && s.pool[i].profile.usable
  {
    EveryRunKeepsInv(steps);
    assert Held(Run(Initial, steps), Pooled(i)).Some?;
  }

  /** What a step does to a token: it is forfeited in the listed ways, and otherwise it is
      afterwards at its next place. A refused claim forfeits nothing; a failed build gives its
      token back whenever its session can take it. */
  lemma TokenKept(s: State, step: Step, p: Place)
    requires Inv(s) && Held(s, p).Some? && !Forfeits(s, step, p)
    ensures Held(Apply(s, step), NextPlace(s, step, p)) == Held(s, p)
  {
    StepKeepsPool(s, step);
    match step {
      case AddSucceeds(c) =>
        if c in s.calls && s.calls[c].Adding? {
          assert Held(s, Hand(c)) == Some(s.calls[c].pending);
        }
      case _ =>
    }
  }

  lemma TokenForfeited(s: State, step: Step, p: Place, q: Place)
    requires Inv(s) && Held(s, p).Some? && Forfeits(s, step, p)
    requires Held(Apply(s, step), q).Some?
    ensures Held(Apply(s, step), q).value.token != Held(s, p).value.token
  {
    var t := Apply(s, step);
    if step.Store? {
      var c, sid := step.c, s.calls[step.c].sid;
      StoreMoves(s, c);
      assert Held(s, Hand(c)) == Some(s.calls[c].pending);
      if sid in s.sessions { assert Held(t, Slot(sid)) == Held(s, Hand(c)); } else { assert Held(t, p).None?; }
    } else {
      assert Held(t, p).None?;
      if BuildFails(s, step) { FailedBuildMoves(s, step); } else { OtherStepsOnlyEmpty(s, step); }
      assert Held(s, q) == Held(t, q);
    }
  }
}

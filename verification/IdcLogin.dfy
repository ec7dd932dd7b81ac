/** The IdC device login: several polls may see the same authorization, and the one that takes
    the session out of the table makes the credential. */
module IdcLogin {
  import opened Text

  const SESSION_TTL_SECS: nat := 900

  // ---------- the critical sections, for any kind of session handle ----------

  /** `poll` after a granted token: remove first, then compare the handle removed. */
  function AfterRemove<S>(m: map<string, S>, sid: string): map<string, S> {
    m - {sid}
  }

  predicate WinsClaim<S(==)>(m: map<string, S>, sid: string, mine: S) {
    sid in m && m[sid] == mine
  }

  class IdcSession {
    const createdAt: nat
    const expiresIn: nat

    constructor (createdAt: nat, expiresIn: nat)
      ensures this.createdAt == createdAt && this.expiresIn == expiresIn
    {
      this.createdAt := createdAt;
      this.expiresIn := expiresIn;
    }
  }

  class IdcLoginManager {
    var sessions: map<string, IdcSession>

    constructor ()
      ensures sessions == map[]
    {
      sessions := map[];
    }

    /** The end of `start`: a new session object under its identifier. */
    method Open(sid: string, now: nat, expiresIn: nat) returns (session: IdcSession)
      modifies this
      ensures fresh(session) && session.createdAt == now && session.expiresIn == expiresIn
      ensures sessions == old(sessions)[sid := session]
    {
      session := new IdcSession(now, expiresIn);
      sessions := sessions[sid := session];
    }

    /** The start of `poll`: look the session up; a session past its deadline is removed. */
    method Begin(sid: string, now: nat) returns (session: Option<IdcSession>)
      modifies this
      ensures session.Some? <==>
              sid in old(sessions) && now <= old(sessions)[sid].createdAt + old(sessions)[sid].expiresIn
      ensures session.Some? ==> session.value == old(sessions)[sid] && sessions == old(sessions)
      ensures session.None? ==> sessions == AfterRemove(old(sessions), sid)
    {
      if sid !in sessions {
        assert sessions == AfterRemove(sessions, sid);
        return None;
      }
      var s := sessions[sid];
      if now > s.createdAt + s.expiresIn {
        sessions := sessions - {sid};
        return None;
      }
      return Some(s);
    }

    /** The claim: true for the one poll that takes this very session out. */
    method Claim(sid: string, mine: IdcSession) returns (claimed: bool)
      modifies this
      ensures claimed == WinsClaim(old(sessions), sid, mine) && sessions == AfterRemove(old(sessions), sid)
    {
      claimed := sid in sessions && sessions[sid] == mine;
      sessions := sessions - {sid};
    }

    /** `cleanup_expired`. */
    method CleanupExpired(now: nat)
      modifies this
      ensures sessions == map sid | sid in old(sessions)
              && now < old(sessions)[sid].createdAt + SESSION_TTL_SECS :: old(sessions)[sid]
    {
      sessions := map sid | sid in sessions && now < sessions[sid].createdAt + SESSION_TTL_SECS :: sessions[sid];
    }
  }

  // ---------- concurrent polls ----------

  type Handle = nat

  /** `known` and `adds` are history: the sessions opened so far and, for every call of
      add-credential, the session it was made for. */
  datatype State = State(sessions: map<string, Handle>, polls: map<nat, (string, Handle)>,
                         known: set<Handle>, adds: seq<Handle>)

  /** Several polls of one session may be under way; `gone` lists the sessions a cleanup drops. */
  datatype Step =
    | Open(sid: string, session: Handle)
    | Begin(c: nat, sid: string)
    | Expire(sid: string)
    | StillPending(c: nat)
    | GiveUp(c: nat)
    | Granted(c: nat)
    | Cleanup(gone: set<string>)

  function Apply(s: State, step: Step): State {
    match step
    case Open(sid, o) => if o in s.known then s else s.(sessions := s.sessions[sid := o], known := s.known + {o})
    case Begin(c, sid) => if c in s.polls || sid !in s.sessions then s
        else s.(polls := s.polls[c := (sid, s.sessions[sid])])
    case Expire(sid) => s.(sessions := AfterRemove(s.sessions, sid))
    case StillPending(c) => s.(polls := s.polls - {c})
    case GiveUp(c) =>
      if c !in s.polls then s
      else s.(sessions := AfterRemove(s.sessions, s.polls[c].0), polls := s.polls - {c})
    case Granted(c) =>
      if c !in s.polls then s
      else
        var (sid, mine) := s.polls[c];
        s.(sessions := AfterRemove(s.sessions, sid), polls := s.polls - {c},
           adds := s.adds + if WinsClaim(s.sessions, sid, mine) then [mine] else [])
    case Cleanup(gone) => s.(sessions := s.sessions - gone)
  }

  function Run(s: State, steps: seq<Step>): State {
    if steps == [] then s else Apply(Run(s, steps[..|steps| - 1]), steps[|steps| - 1])
  }

  const Initial: State := State(map[], map[], {}, [])

  /** A session stands in the table once at most, and no longer once it led to a call; and it
      led to one call at most. */
  ghost predicate Inv(s: State) {
    && (forall a, b :: a in s.sessions && b in s.sessions && s.sessions[a] == s.sessions[b] ==> a == b)
    && (forall a :: a in s.sessions ==> s.sessions[a] in s.known && s.sessions[a] !in s.adds)
    && (forall i :: 0 <= i < |s.adds| ==> s.adds[i] in s.known)
    && (forall i, j :: 0 <= i < j < |s.adds| ==> s.adds[i] != s.adds[j])
  }

  lemma StepKeepsInv(s: State, step: Step)
    requires Inv(s)
    ensures Inv(Apply(s, step))
  {
    if step.Granted? && step.c in s.polls {
      var (sid, mine) := s.polls[step.c];
      if WinsClaim(s.sessions, sid, mine) { assert s.sessions[sid] == mine; }
    }
  }

  /** In every interleaving of polls, expiries and cleanups, one session leads to at most one
      add-credential call. */
  lemma {:induction false} OneCredentialPerSession(steps: seq<Step>)
    ensures Inv(Run(Initial, steps))
    ensures var adds := Run(Initial, steps).adds; forall i, j :: 0 <= i < j < |adds| ==> adds[i] != adds[j]
  {
    if steps != [] {
      OneCredentialPerSession(steps[..|steps| - 1]);
      StepKeepsInv(Run(Initial, steps[..|steps| - 1]), steps[|steps| - 1]);
    }
  }

  /** The claim is not lost either: the first granted poll of a session that is still in the
      table under its identifier does make the call. */
  lemma FirstGrantWins(s: State, c: nat)
    requires c in s.polls && s.polls[c].0 in s.sessions && s.sessions[s.polls[c].0] == s.polls[c].1
    ensures Apply(s, Granted(c)).adds == s.adds + [s.polls[c].1]
    ensures forall d :: d in s.polls && s.polls[d] == s.polls[c] && d != c ==>
                          Apply(Apply(s, Granted(c)), Granted(d)).adds == s.adds + [s.polls[c].1]
  {
    var t := Apply(s, Granted(c));
    forall d | d in s.polls && s.polls[d] == s.polls[c] && d != c
      ensures Apply(t, Granted(d)).adds == s.adds + [s.polls[c].1]
    {
      assert t.polls[d] == s.polls[d];
      assert t.adds + [] == t.adds;
    }
  }
}

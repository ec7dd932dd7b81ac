/** The web login: a callback reaches its session through a one-shot channel, and the poll that
    empties the channel makes the credential. */
module SocialLogin {
  import opened Text

  datatype Callback = Callback(code: string, state: string)

  /** The receiving end of a session's channel: waiting, filled, or taken by a poll. */
  datatype Inbox = Waiting | Filled(data: Callback) | Taken

  datatype Received = Nothing | Got(data: Callback)

  // ---------- the critical sections ----------

  function InboxAfterReceive(i: Inbox): Inbox { if i.Filled? then Taken else i }

  function Receive(i: Inbox): Received { if i.Filled? then Got(i.data) else Nothing }

  class SocialSession {
    const state: string
    const createdAt: nat
    var inbox: Inbox
    /** The sending end, while it has not been used. */
    var sender: bool

    constructor (state: string, createdAt: nat)
      ensures this.state == state && this.createdAt == createdAt && inbox == Waiting && sender
    {
      this.state := state;
      this.createdAt := createdAt;
      inbox := Waiting;
      sender := true;
    }

    /** The locked part of `poll`: take the callback if it has come, once. */
    method TryReceive() returns (r: Received)
      modifies this`inbox
      ensures r == Receive(old(inbox)) && inbox == InboxAfterReceive(old(inbox))
    {
      match inbox {
        case Filled(data) =>
          inbox := Taken;
          return Got(data);
        case _ => return Nothing;
      }
    }

    /** Send through the channel: the sending end is used up, whether or not the receiving end
        still waits. */
    method Send(data: Callback) returns (delivered: bool)
      modifies this
      ensures delivered == old(sender) && !sender
      ensures inbox == if old(sender) && old(inbox).Waiting? then Filled(data) else old(inbox)
    {
      delivered := sender;
      if sender && inbox.Waiting? { inbox := Filled(data); }
      sender := false;
    }
  }

  class SocialLoginManager {
    var sessions: map<string, SocialSession>

    constructor ()
      ensures sessions == map[]
    {
      sessions := map[];
    }

    /** `deliver_callback`: the first session found with the callback's state gets it, if its
        sending end is unused. */
    method DeliverCallback(data: Callback) returns (delivered: bool, hit: Option<SocialSession>)
      modifies sessions.Values
      ensures hit.None? ==>
                && !delivered
                && forall s :: s in sessions.Values ==>
                     s.state != data.state && s.inbox == old(s.inbox) && s.sender == old(s.sender)
      ensures hit.Some? ==>
                && hit.value in sessions.Values && hit.value.state == data.state
                && delivered == old(hit.value.sender) && !hit.value.sender
                && hit.value.inbox == (if old(hit.value.sender) && old(hit.value.inbox).Waiting? then Filled(data)
                                       else old(hit.value.inbox))
                && forall s :: s in sessions.Values && s != hit.value ==>
                     s.inbox == old(s.inbox) && s.sender == old(s.sender)
    {
      var todo := sessions.Values;
      while todo != {}
        invariant todo <= sessions.Values
        invariant forall s :: s in sessions.Values && s !in todo ==> s.state != data.state
        invariant forall s :: s in sessions.Values ==> s.inbox == old(s.inbox) && s.sender == old(s.sender)
        decreases |todo|
      {
        var s :| s in todo;
        if s.state == data.state {
          delivered := s.Send(data);
          return delivered, Some(s);
        }
        todo := todo - {s};
      }
      return false, None;
    }
  }

  // ---------- concurrent polls and callbacks ----------

  type Handle = nat

  datatype Session = Session(state: string, inbox: Inbox, sender: bool)

  /** `objects` are the session objects, alive as long as some request holds them; `delivered`
      and `adds` are history: the sessions that got a callback and the calls of add-credential.
      Taking a session out of the table after its call is a `Remove` like any other. */
  datatype State = State(sessions: map<string, Handle>, objects: map<Handle, Session>,
                         polls: map<nat, (string, Handle)>, working: map<nat, (string, Handle)>,
                         delivered: seq<Handle>, adds: seq<Handle>)

  datatype Step =
    | Open(sid: string, session: Handle, state: string)
    | Begin(c: nat, sid: string)
    | Receives(c: nat)
    | Rejected(c: nat)
    | AddCredential(c: nat)
    | Deliver(session: Handle, data: Callback)
    | Drop(c: nat)
    | Remove(sids: set<string>)

  function Apply(s: State, step: Step): State {
    match step
    case Open(sid, o, st) =>
      if o in s.objects then s
      else s.(sessions := s.sessions[sid := o], objects := s.objects[o := Session(st, Waiting, true)])
    case Begin(c, sid) =>
      if c in s.polls || c in s.working || sid !in s.sessions then s
      else s.(polls := s.polls[c := (sid, s.sessions[sid])])
    case Receives(c) =>
      if c !in s.polls || s.polls[c].1 !in s.objects then s
      else
        var p := s.polls[c];
        var inbox := s.objects[p.1].inbox;
        var t := s.(polls := s.polls - {c},
                    objects := s.objects[p.1 := s.objects[p.1].(inbox := InboxAfterReceive(inbox))]);
        (match Receive(inbox)
         case Nothing => t
         case Got(data) =>
           if data.state == "" || data.state != s.objects[p.1].state then t.(sessions := s.sessions - {p.0})
           else t.(working := s.working[c := p]))
    case Rejected(c) =>
      if c !in s.working then s else s.(sessions := s.sessions - {s.working[c].0}, working := s.working - {c})
    case AddCredential(c) =>
      if c !in s.working then s
      else s.(adds := s.adds + [s.working[c].1], working := s.working - {c})
    case Deliver(o, data) =>
      if o !in s.objects || !s.objects[o].sender then s
      else
        var obj := s.objects[o];
        var inbox := if obj.inbox.Waiting? then Filled(data) else obj.inbox;
        s.(objects := s.objects[o := obj.(sender := false, inbox := inbox)],
           delivered := s.delivered + [o])
    case Drop(c) => s.(polls := s.polls - {c}, working := s.working - {c})
    case Remove(sids) => s.(sessions := s.sessions - sids)
  }

  function Run(s: State, steps: seq<Step>): State {
    if steps == [] then s else Apply(Run(s, steps[..|steps| - 1]), steps[|steps| - 1])
  }

  const Initial: State := State(map[], map[], map[], map[], [], [])

  /** A place that stands for the one use of a session's callback. */
  datatype Place = Working(c: nat) | Added(i: nat)

  function UserOf(s: State, p: Place): Option<Handle> {
    match p
    case Working(c) => if c in s.working then Some(s.working[c].1) else None
    case Added(i) => if i < |s.adds| then Some(s.adds[i]) else None
  }

  /** A callback has been used in one place at most, and only where the channel is emptied. */
  ghost predicate UsedOnce(s: State) {
    && s.polls.Keys !! s.working.Keys
    && (forall p, q :: UserOf(s, p).Some? && UserOf(s, p) == UserOf(s, q) ==> p == q)
    && (forall p :: UserOf(s, p).Some? ==>
          UserOf(s, p).value in s.objects && s.objects[UserOf(s, p).value].inbox.Taken?)
  }

  /** A session's sending end is used up by its one delivery, and only a delivery fills. */
  ghost predicate DeliveredOnce(s: State) {
    && (forall i :: 0 <= i < |s.delivered| ==> s.delivered[i] in s.objects && !s.objects[s.delivered[i]].sender)
    && (forall i, j :: 0 <= i < j < |s.delivered| ==> s.delivered[i] != s.delivered[j])
    && (forall o :: o in s.objects && !s.objects[o].inbox.Waiting? ==> o in s.delivered)
  }

  ghost predicate Inv(s: State) { UsedOnce(s) && DeliveredOnce(s) }

  /** The users of `t` are those of `s`, in the same places, except perhaps one. */
  ghost predicate SameUsers(s: State, t: State, except: Option<Place>) {
    forall p :: UserOf(t, p).Some? && Some(p) != except ==> UserOf(t, p) == UserOf(s, p)
  }

  /** Emptying the channel uses the callback of a session that nobody has used. */
  lemma ReceivesKeepsUsedOnce(s: State, c: nat)
    requires UsedOnce(s)
    ensures UsedOnce(Apply(s, Receives(c)))
  {
    var t := Apply(s, Receives(c));
    if c in s.polls && s.polls[c].1 in s.objects && s.objects[s.polls[c].1].inbox.Filled? {
      var o := s.polls[c].1;
      assert SameUsers(s, t, Some(Working(c)));
      forall p | UserOf(t, p).Some? && p != Working(c) ensures UserOf(t, p).value != o {
        assert UserOf(s, p) == UserOf(t, p);
      }
    } else {
      assert SameUsers(s, t, None);
    }
  }

  /** The use moves from the poll at work to the credential it adds. */
  lemma AddKeepsUsedOnce(s: State, c: nat)
    requires UsedOnce(s)
    ensures UsedOnce(Apply(s, AddCredential(c)))
  {
    var t := Apply(s, AddCredential(c));
    if c in s.working {
      assert UserOf(s, Working(c)) == Some(s.working[c].1) == UserOf(t, Added(|s.adds|));
      assert SameUsers(s, t, Some(Added(|s.adds|)));
      assert UserOf(t, Working(c)).None?;
      forall p | UserOf(t, p).Some? && p != Added(|s.adds|) ensures UserOf(t, p) != UserOf(t, Added(|s.adds|)) {
        assert UserOf(s, p) == UserOf(t, p) && p != Working(c);
      }
    }
  }

  lemma StepKeepsUsedOnce(s: State, step: Step)
    requires UsedOnce(s)
    ensures UsedOnce(Apply(s, step))
  {
    match step {
      case Receives(c) => ReceivesKeepsUsedOnce(s, c);
      case AddCredential(c) => AddKeepsUsedOnce(s, c);
      case _ => assert SameUsers(s, Apply(s, step), None);
    }
  }

  lemma DeliverKeepsDeliveredOnce(s: State, o: Handle, data: Callback)
    requires DeliveredOnce(s)
    ensures DeliveredOnce(Apply(s, Deliver(o, data)))
  {
    var t := Apply(s, Deliver(o, data));
    if t != s {
      assert o !in s.delivered;
      forall p | p in t.objects && !t.objects[p].inbox.Waiting? ensures p in t.delivered {
        if p != o { assert p in s.delivered; }
      }
    }
  }

  lemma StepKeepsDeliveredOnce(s: State, step: Step)
    requires DeliveredOnce(s)
    ensures DeliveredOnce(Apply(s, step))
  {
    match step {
      case Deliver(o, data) => DeliverKeepsDeliveredOnce(s, o, data);
      case _ => assert Apply(s, step).delivered == s.delivered;
    }
  }

  /** In every interleaving of polls, callbacks, failures and removals, one session gets at most
      one callback and leads to at most one add-credential call, and only a session that got
      its callback does. */
  lemma {:induction false} OneCredentialPerSession(steps: seq<Step>)
    ensures Inv(Run(Initial, steps))
    ensures var s := Run(Initial, steps);
            && (forall i, j :: 0 <= i < j < |s.adds| ==> s.adds[i] != s.adds[j])
            && (forall i, j :: 0 <= i < j < |s.delivered| ==> s.delivered[i] != s.delivered[j])
            && (forall i :: 0 <= i < |s.adds| ==> s.adds[i] in s.delivered)
  {
    if steps != [] {
      OneCredentialPerSession(steps[..|steps| - 1]);
      StepKeepsUsedOnce(Run(Initial, steps[..|steps| - 1]), steps[|steps| - 1]);
      StepKeepsDeliveredOnce(Run(Initial, steps[..|steps| - 1]), steps[|steps| - 1]);
    }
    var s := Run(Initial, steps);
    assert forall i :: 0 <= i < |s.adds| ==> UserOf(s, Added(i)) == Some(s.adds[i]);
  }
}

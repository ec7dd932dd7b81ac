/** Creating N copies of a credential: which copy goes out through which proxy node. */
module CloneAllocator {
  import opened Text
  import opened NodePlan

  const MAX_CREDENTIAL_COPIES: nat := 16

  /** How a created credential goes out. */
  datatype Exit = Direct | Own(url: string) | Pinned(node: Node) | FromPlan(node: Node)

  /** A created credential: which copy of the request it is, its number in the clone group when
      there is one, and its exit. */
  datatype Copy = Copy(seqNo: nat, cloneSeq: Option<nat>, exit: Exit)

  datatype Request = Request(copies: Option<nat>, forceMultiOpen: bool, mayMultiOpen: bool, proxyUrl: Option<string>,
                             primaryNodeId: Option<nat>, assignPrimaryNode: Option<bool>,
                             nodeIds: Option<seq<nat>>, requireNodePerCopy: bool)
  {
    function Copies(): (n: nat)
      ensures 1 <= n <= MAX_CREDENTIAL_COPIES
    {
      if copies.None? || copies.value < 1 then 1
      else if copies.value > MAX_CREDENTIAL_COPIES then MAX_CREDENTIAL_COPIES else copies.value
    }

    predicate IsMultiOpen() { forceMultiOpen || Copies() > 1 }

    predicate PoolMayAssign() { proxyUrl.None? }

    /** The pool is asked for although only one credential is made. */
    predicate PrimaryIntent() { assignPrimaryNode == Some(true) || (nodeIds.Some? && nodeIds.value != []) }
  }

  datatype Refusal = MultiOpenNotAllowed | PinnedNodeUnusable | NotEnoughNodes

  /** What is settled before anything is written. */
  datatype Decision = Refuse(why: Refusal) | Go(pinned: Option<Node>, assignPrimary: bool, plan: seq<Node>)

  function PinnedNode(req: Request, nodes: seq<Node>): Option<Node> {
    if req.PoolMayAssign() && req.primaryNodeId.Some? then FindNode(nodes, req.primaryNodeId.value) else None
  }

  predicate PinFails(req: Request, nodes: seq<Node>) {
    && req.PoolMayAssign() && req.primaryNodeId.Some?
    && (PinnedNode(req, nodes).None? || !PinnedNode(req, nodes).value.enabled)
  }

  predicate AssignPrimary(req: Request, pinned: Option<Node>) {
    pinned.None? && if req.assignPrimaryNode.Some? then req.assignPrimaryNode.value else req.Copies() == 1
  }

  /** How many copies will draw on the pool. */
  function NodeCap(req: Request, assignPrimary: bool): nat {
    if assignPrimary then req.Copies() else req.Copies() - 1
  }

  function IdOf(n: Option<Node>): Option<nat> { if n.Some? then Some(n.value.id) else None }

  function PlanFor(req: Request, nodes: seq<Node>, usage: map<string, nat>, pinned: Option<Node>): seq<Node> {
    if req.IsMultiOpen() || req.PrimaryIntent()
    then PlanOf(nodes, req.nodeIds, NodeCap(req, AssignPrimary(req, pinned)), IdOf(pinned), usage).assignments
    else []
  }

  function Decide(req: Request, nodes: seq<Node>, usage: map<string, nat>): Decision {
    if req.IsMultiOpen() && !req.mayMultiOpen then Refuse(MultiOpenNotAllowed)
    else if PinFails(req, nodes) then Refuse(PinnedNodeUnusable)
    else
      var pinned := PinnedNode(req, nodes);
      var primary := AssignPrimary(req, pinned);
      var plan := PlanFor(req, nodes, usage, pinned);
      if req.requireNodePerCopy && req.PoolMayAssign() && NodeCap(req, primary) > 0 && |plan| < NodeCap(req, primary)
      then Refuse(NotEnoughNodes)
      else Go(pinned, primary, plan)
  }

  // ---------- the exits ----------

  predicate PrimaryDraws(req: Request, d: Decision)
    requires d.Go?
  {
    d.assignPrimary && req.PoolMayAssign() && d.plan != []
  }

  /** The exit copy `seqNo` is created with: the first one by its own rule, the others by what
      the plan has left, none of it used twice. */
  function ExitOf(req: Request, d: Decision, seqNo: nat): Exit
    requires d.Go? && seqNo >= 1
  {
    if req.proxyUrl.Some? then Own(req.proxyUrl.value)
    else if seqNo == 1 then
      if d.pinned.Some? then Pinned(d.pinned.value)
      else if PrimaryDraws(req, d) then FromPlan(d.plan[0])
      else Direct
    else
      var k := seqNo - 2 + if PrimaryDraws(req, d) then 1 else 0;
      if k < |d.plan| then FromPlan(d.plan[k]) else Direct
  }

  /** The exit of a later copy from what the first one left of the plan. */
  function LaterExit(req: Request, assignable: seq<Node>, seqNo: nat): Exit
    requires seqNo >= 2
  {
    if seqNo - 2 < |assignable| then FromPlan(assignable[seqNo - 2])
    else if req.proxyUrl.Some? then Own(req.proxyUrl.value) else Direct
  }

  /** What the first copy leaves of the plan. */
  function Assignable(req: Request, d: Decision): seq<Node>
    requires d.Go?
  {
    if !req.PoolMayAssign() then [] else if PrimaryDraws(req, d) then d.plan[1..] else d.plan
  }

  /** A pinned node rules out the other exits of the first copy. */
  predicate IsCoherent(req: Request, d: Decision) {
    d.Go? && (d.assignPrimary ==> d.pinned.None?) && (req.proxyUrl.Some? ==> d.pinned.None?)
  }

  lemma DecisionsAreCoherent(req: Request, nodes: seq<Node>, usage: map<string, nat>)
    requires Decide(req, nodes, usage).Go?
    ensures IsCoherent(req, Decide(req, nodes, usage))
  {
  }

  lemma LaterExits(req: Request, d: Decision, n: nat)
    requires IsCoherent(req, d) && n >= 2
    ensures LaterExit(req, Assignable(req, d), n) == ExitOf(req, d, n)
    ensures ExitOf(req, d, n).FromPlan? <==> n - 2 < |Assignable(req, d)|
  {
  }

  /** Copy `n` of a group whose numbers begin with `start`. */
  function CopyOf(req: Request, d: Decision, start: nat, n: nat): Copy
    requires d.Go? && n >= 1
  {
    Copy(n, if req.IsMultiOpen() then Some(start + n - 1) else None, ExitOf(req, d, n))
  }

  /** `adds[k]` says whether adding copy `k + 1` succeeds. Failed copies are left out, the
      others stay. */
  function Created(req: Request, d: Decision, adds: seq<bool>, start: nat, n: nat): seq<Copy>
    requires d.Go? && n <= |adds|
  {
    if n == 0 then []
    else
      Created(req, d, adds, start, n - 1) + if adds[n - 1] then [CopyOf(req, d, start, n)] else []
  }

  predicate FromPool(c: Copy) { c.exit.FromPlan? }

  function CountFromPlan(cs: seq<Copy>): nat {
    if cs == [] then 0 else CountFromPlan(cs[..|cs| - 1]) + if FromPool(cs[|cs| - 1]) then 1 else 0
  }

  lemma CountSnoc(cs: seq<Copy>, c: Copy)
    ensures CountFromPlan(cs + [c]) == CountFromPlan(cs) + if FromPool(c) then 1 else 0
  {
    assert (cs + [c])[..|cs|] == cs;
  }

  lemma FirstCreated(req: Request, d: Decision, adds: seq<bool>, start: nat)
    requires d.Go? && adds != [] && adds[0]
    ensures Created(req, d, adds, start, 1) == [CopyOf(req, d, start, 1)]
    ensures CountFromPlan([CopyOf(req, d, start, 1)]) == if ExitOf(req, d, 1).FromPlan? then 1 else 0
  {
    assert Created(req, d, adds, start, 0) == [];
    CountSnoc([], CopyOf(req, d, start, 1));
  }

  lemma SnocRight(a: seq<Copy>, b: seq<Copy>, c: Copy)
    ensures a + b + [c] == a + (b + [c])
  {
  }

  lemma CreatedStep(req: Request, d: Decision, adds: seq<bool>, start: nat, n: nat)
    requires d.Go? && 1 <= n <= |adds|
    ensures var cs, more := Created(req, d, adds, start, n - 1), Created(req, d, adds, start, n);
            if adds[n - 1] then more == cs + [CopyOf(req, d, start, n)]
                             && CountFromPlan(more) == CountFromPlan(cs) + if ExitOf(req, d, n).FromPlan? then 1 else 0
            else more == cs
  {
    if adds[n - 1] { CountSnoc(Created(req, d, adds, start, n - 1), CopyOf(req, d, start, n)); }
  }

  datatype Outcome = Refused(why: Refusal) | PrimaryFailed | Done(created: seq<Copy>, assignedNodes: nat)

  /** The part of the service a request writes to: the pool and the next number of the clone
      group. */
  class AdminService {
    var pool: seq<Copy>
    var nextCloneSeq: nat

    constructor (nextCloneSeq: nat)
      ensures pool == [] && this.nextCloneSeq == nextCloneSeq
    {
      pool := [];
      this.nextCloneSeq := nextCloneSeq;
    }

    /** Everything `add_credential_with_intent` settles before its first write. */
    method PlanCopies(req: Request, nodes: seq<Node>, usage: map<string, nat>) returns (d: Decision)
      ensures d == Decide(req, nodes, usage)
    {
      if req.IsMultiOpen() && !req.mayMultiOpen { return Refuse(MultiOpenNotAllowed); }
      var pinned: Option<Node> := None;
      if req.PoolMayAssign() && req.primaryNodeId.Some? {
        pinned := FindNode(nodes, req.primaryNodeId.value);
        if pinned.None? || !pinned.value.enabled { return Refuse(PinnedNodeUnusable); }
      }
      var assignPrimary := AssignPrimary(req, pinned);
      var nodeCap := if assignPrimary then req.Copies() else req.Copies() - 1;
      var plan: seq<Node> := [];
      if req.IsMultiOpen() || req.PrimaryIntent() {
        var p := ResolveNodePlan(nodes, req.nodeIds, nodeCap, IdOf(pinned), usage);
        plan := p.assignments;
      }
      if req.requireNodePerCopy && req.PoolMayAssign() && nodeCap > 0 && |plan| < nodeCap {
        return Refuse(NotEnoughNodes);
      }
      return Go(pinned, assignPrimary, plan);
    }

    /** The node and copy part of `add_credential_with_intent`. */
    method AddCredentialWithIntent(req: Request, nodes: seq<Node>, usage: map<string, nat>, adds: seq<bool>)
      returns (r: Outcome)
      requires |adds| == req.Copies()
      modifies this
      ensures var d := Decide(req, nodes, usage);
              match r
              case Refused(why) => d == Refuse(why) && pool == old(pool) && nextCloneSeq == old(nextCloneSeq)
              case PrimaryFailed => d.Go? && !adds[0] && pool == old(pool)
              case Done(created, count) =>
                && d.Go? && adds[0]
                && created == Created(req, d, adds, old(nextCloneSeq), |adds|)
                && pool == old(pool) + created && count == CountFromPlan(created)
      ensures !r.Refused? ==> nextCloneSeq == old(nextCloneSeq) + if req.IsMultiOpen() then req.Copies() else 0
    {
      var d := PlanCopies(req, nodes, usage);
      if d.Refuse? { return Refused(d.why); }
      var start := nextCloneSeq;
      if req.IsMultiOpen() { nextCloneSeq := nextCloneSeq + req.Copies(); }
      var exit := if req.proxyUrl.Some? then Own(req.proxyUrl.value)
                  else if d.pinned.Some? then Pinned(d.pinned.value) else Direct;
      var assignedNodes := 0;
      if d.assignPrimary && req.PoolMayAssign() && d.plan != [] {
        exit := FromPlan(d.plan[0]);
        assignedNodes := 1;
      }
      DecisionsAreCoherent(req, nodes, usage);
      if !adds[0] { return PrimaryFailed; }
      var assignable := if req.PoolMayAssign() && assignedNodes <= |d.plan| then d.plan[assignedNodes..] else [];
      assert assignable == Assignable(req, d);
      var created;
      created, assignedNodes := AddCopies(req, d, adds, start, exit, assignable);
      return Done(created, assignedNodes);
    }

    /** The first copy, already accepted, and the loop over the others. */
    method AddCopies(req: Request, ghost d: Decision, adds: seq<bool>, start: nat, first: Exit, assignable: seq<Node>)
      returns (created: seq<Copy>, assignedNodes: nat)
      requires IsCoherent(req, d) && |adds| == req.Copies() && adds[0] && first == ExitOf(req, d, 1)
      requires assignable == Assignable(req, d)
      modifies this`pool
      ensures created == Created(req, d, adds, start, |adds|) && pool == old(pool) + created
      ensures assignedNodes == CountFromPlan(created)
    {
      var isMultiOpen := req.IsMultiOpen();
      created := [Copy(1, if isMultiOpen then Some(start) else None, first)];
      FirstCreated(req, d, adds, start);
      pool := pool + created;
      assignedNodes := if first.FromPlan? then 1 else 0;
      for seqNo := 2 to |adds| + 1
        invariant created == Created(req, d, adds, start, seqNo - 1) && pool == old(pool) + created
        invariant assignedNodes == CountFromPlan(created)
      {
        // The exit inherited from the first copy never stays.
        var exit := if req.proxyUrl.None? then Direct else Own(req.proxyUrl.value);
        var picked := seqNo - 2 < |assignable|;
        if picked { exit := FromPlan(assignable[seqNo - 2]); }
        LaterExits(req, d, seqNo);
        CreatedStep(req, d, adds, start, seqNo);
        if adds[seqNo - 1] {
          var copy := Copy(seqNo, if isMultiOpen then Some(start + seqNo - 1) else None, exit);
          SnocRight(old(pool), created, copy);
          created := created + [copy];
          pool := pool + [copy];
          if picked { assignedNodes := assignedNodes + 1; }
        }
      }
    }
  }

  // ---------- what every request gets ----------

  function NodeOf(e: Exit): Option<Node> {
    match e
    case Pinned(n) => Some(n)
    case FromPlan(n) => Some(n)
    case _ => None
  }

  lemma {:induction false} CreatedCopy(req: Request, d: Decision, adds: seq<bool>, start: nat, n: nat)
    requires d.Go? && n <= |adds|
    ensures var cs := Created(req, d, adds, start, n);
            && (forall i :: 0 <= i < |cs| ==>
                   1 <= cs[i].seqNo <= n && adds[cs[i].seqNo - 1] && cs[i].exit == ExitOf(req, d, cs[i].seqNo))
            && (forall i, j :: 0 <= i < j < |cs| ==> cs[i].seqNo < cs[j].seqNo)
  {
    if n > 0 {
      CreatedCopy(req, d, adds, start, n - 1);
      assert !adds[n - 1] ==> Created(req, d, adds, start, n) == Created(req, d, adds, start, n - 1);
    }
  }

  /** Every copy whose adding succeeds is created, with its exit and its own group number. */
  lemma {:induction false} SuccessIsCreated(req: Request, d: Decision, adds: seq<bool>, start: nat, k: nat, n: nat)
    requires d.Go? && 1 <= k <= n <= |adds| && adds[k - 1]
    ensures CopyOf(req, d, start, k) in Created(req, d, adds, start, n)
  {
    if k < n { SuccessIsCreated(req, d, adds, start, k, n - 1); }
  }

  lemma ExitsDiffer(req: Request, nodes: seq<Node>, usage: map<string, nat>, a: nat, b: nat)
    requires DistinctIds(nodes) && Decide(req, nodes, usage).Go? && 1 <= a < b
    ensures var d := Decide(req, nodes, usage); var ea, eb := NodeOf(ExitOf(req, d, a)), NodeOf(ExitOf(req, d, b));
            ea.Some? && eb.Some? ==> ea.value.id != eb.value.id
  {
    var d := Decide(req, nodes, usage);
    if req.IsMultiOpen() || req.PrimaryIntent() {
      PlanIsDistinct(nodes, req.nodeIds, NodeCap(req, d.assignPrimary),
                     IdOf(d.pinned), usage);
    }
  }

  /** For every request and every pattern of failures: no two created copies, a pinned primary
      among them, go out through the same node. */
  lemma NoNodeTwice(req: Request, nodes: seq<Node>, usage: map<string, nat>, adds: seq<bool>, start: nat, i: nat,
                    j: nat)
    requires DistinctIds(nodes) && Decide(req, nodes, usage).Go?
    requires var cs := Created(req, Decide(req, nodes, usage), adds, start, |adds|); i < j < |cs|
    ensures var cs := Created(req, Decide(req, nodes, usage), adds, start, |adds|);
            var a, b := NodeOf(cs[i].exit), NodeOf(cs[j].exit);
            a.Some? && b.Some? ==> a.value.id != b.value.id
  {
    var d := Decide(req, nodes, usage);
    CreatedCopy(req, d, adds, start, |adds|);
    var cs := Created(req, d, adds, start, |adds|);
    ExitsDiffer(req, nodes, usage, cs[i].seqNo, cs[j].seqNo);
  }

  /** The copies that draw on the pool: the first one when it takes part, and all others. */
  predicate DrawsOnPool(d: Decision, seqNo: nat)
    requires d.Go?
  {
    seqNo >= 2 || d.assignPrimary
  }

  /** A strict request that goes ahead, without an explicit proxy, gives every copy that draws
      on the pool a node of the plan, whichever copies fail. A request that is refused writes
      nothing at all (AddCredentialWithIntent). */
  lemma StrictGivesEveryCopyANode(req: Request, nodes: seq<Node>, usage: map<string, nat>, seqNo: nat)
    requires req.requireNodePerCopy && req.PoolMayAssign() && Decide(req, nodes, usage).Go?
    requires 1 <= seqNo <= req.Copies() && DrawsOnPool(Decide(req, nodes, usage), seqNo)
    ensures ExitOf(req, Decide(req, nodes, usage), seqNo).FromPlan?
  {
  }

  /** Without strictness the same holds exactly as far as the plan reaches: copies are served in
      order, and nobody goes out directly while a node of the plan is left. */
  lemma ServedInOrder(req: Request, nodes: seq<Node>, usage: map<string, nat>, seqNo: nat)
    requires req.PoolMayAssign() && Decide(req, nodes, usage).Go? && seqNo >= 1
    ensures var d := Decide(req, nodes, usage); var at := if d.assignPrimary then seqNo - 1 else seqNo - 2;
            ExitOf(req, d, seqNo).FromPlan? <==> DrawsOnPool(d, seqNo) && at < |d.plan|
    ensures var d := Decide(req, nodes, usage); var at := if d.assignPrimary then seqNo - 1 else seqNo - 2;
            DrawsOnPool(d, seqNo) && at < |d.plan| ==> ExitOf(req, d, seqNo) == FromPlan(d.plan[at])
  {
  }
}

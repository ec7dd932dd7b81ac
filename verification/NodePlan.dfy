/** Which proxy nodes a clone request may hand out, and in which order. */
module NodePlan {
  import opened Text
  import opened Places

  datatype Test = Test(ok: bool, latencyMs: nat)

  datatype Node = Node(id: nat, url: string, username: Option<string>, password: Option<string>,
                       enabled: bool, lastTest: Option<Test>)

  datatype Reason = Repeated | Disabled | Missing

  /** The nodes stand for the proxy triples of the plan; their ids say which node it was. */
  datatype Plan = Plan(assignments: seq<Node>, rejected: seq<(nat, Reason)>)

  function FindNode(nodes: seq<Node>, id: nat): Option<Node> {
    if nodes == [] then None else if nodes[0].id == id then Some(nodes[0]) else FindNode(nodes[1..], id)
  }

  lemma {:induction false} FindNodeSpec(nodes: seq<Node>, id: nat)
    ensures var f := FindNode(nodes, id);
            (f.Some? ==> f.value in nodes && f.value.id == id) && (f.None? ==> forall n :: n in nodes ==> n.id != id)
  {
    if nodes != [] && nodes[0].id != id { FindNodeSpec(nodes[1..], id); }
  }

  // ---------- nodes named in the request ----------

  datatype Ruling = Use(node: Node) | Reject(why: Reason)

  /** What becomes of the `i`-th requested id. */
  function Rule(nodes: seq<Node>, ids: seq<nat>, exclude: Option<nat>, i: nat): Ruling
    requires i < |ids|
  {
    if ids[i] in ids[..i] || exclude == Some(ids[i]) then Reject(Repeated)
    else
      match FindNode(nodes, ids[i])
      case None => Reject(Missing)
      case Some(n) => if n.enabled then Use(n) else Reject(Disabled)
  }

  function ExplicitPlan(nodes: seq<Node>, ids: seq<nat>, exclude: Option<nat>, n: nat): Plan
    requires n <= |ids|
  {
    if n == 0 then Plan([], [])
    else
      var p := ExplicitPlan(nodes, ids, exclude, n - 1);
      match Rule(nodes, ids, exclude, n - 1)
      case Use(node) => p.(assignments := p.assignments + [node])
      case Reject(why) => p.(rejected := p.rejected + [(ids[n - 1], why)])
  }

  // ---------- nodes picked automatically ----------

  const U64_MAX: nat := 0xFFFF_FFFF_FFFF_FFFF

  predicate IsEligible(n: Node, exclude: Option<nat>) {
    n.enabled && (n.lastTest.None? || n.lastTest.value.ok) && exclude != Some(n.id)
  }

  function Load(n: Node, usage: map<string, nat>): nat {
    if n.url in usage then usage[n.url] else 0
  }

  function Latency(n: Node): nat {
    if n.lastTest.Some? then n.lastTest.value.latencyMs else U64_MAX
  }

  /** Order by load, then latency, then id. */
  predicate Precedes(a: Node, b: Node, usage: map<string, nat>) {
    var la, lb := Load(a, usage), Load(b, usage);
    la < lb || (la == lb && (Latency(a) < Latency(b) || (Latency(a) == Latency(b) && a.id <= b.id)))
  }

  function Eligible(nodes: seq<Node>, exclude: Option<nat>): seq<Node> {
    if nodes == [] then []
    else (if IsEligible(nodes[0], exclude) then [nodes[0]] else []) + Eligible(nodes[1..], exclude)
  }

  function Insert(n: Node, s: seq<Node>, usage: map<string, nat>): seq<Node> {
    if s == [] || Precedes(n, s[0], usage) then [n] + s else [s[0]] + Insert(n, s[1..], usage)
  }

  /** `sort_by_key`. */
  function SortByRank(s: seq<Node>, usage: map<string, nat>): seq<Node> {
    if s == [] then [] else Insert(s[0], SortByRank(s[1..], usage), usage)
  }

  function Take(s: seq<Node>, cap: nat): seq<Node> { if |s| <= cap then s else s[..cap] }

  function AutoPlan(nodes: seq<Node>, exclude: Option<nat>, usage: map<string, nat>): seq<Node> {
    SortByRank(Eligible(nodes, exclude), usage)
  }

  /** `resolve_node_plan`. */
  function PlanOf(nodes: seq<Node>, nodeIds: Option<seq<nat>>, cap: nat, exclude: Option<nat>,
                  usage: map<string, nat>): Plan {
    if nodeIds.Some? && nodeIds.value != [] then
      var p := ExplicitPlan(nodes, nodeIds.value, exclude, |nodeIds.value|);
      p.(assignments := Take(p.assignments, cap))
    else Plan(Take(AutoPlan(nodes, exclude, usage), cap), [])
  }

  /** The planner as it runs, with its growing lists. */
  method ResolveNodePlan(nodes: seq<Node>, nodeIds: Option<seq<nat>>, cap: nat, exclude: Option<nat>,
                         usage: map<string, nat>)
    returns (plan: Plan)
    ensures plan == PlanOf(nodes, nodeIds, cap, exclude, usage)
  {
    if nodeIds.Some? && nodeIds.value != [] {
      var ids := nodeIds.value;
      var assignments: seq<Node> := [];
      var rejected: seq<(nat, Reason)> := [];
      var seen: seq<nat> := [];
      for i := 0 to |ids|
        invariant Plan(assignments, rejected) == ExplicitPlan(nodes, ids, exclude, i)
        invariant forall id :: exclude != Some(id) ==> (id in seen <==> id in ids[..i])
      {
        var id := ids[i];
        assert ids[..i + 1] == ids[..i] + [id];
        if id in seen || exclude == Some(id) {
          rejected := rejected + [(id, Repeated)];
          continue;
        }
        seen := seen + [id];
        match FindNode(nodes, id) {
          case None => rejected := rejected + [(id, Missing)];
          case Some(n) =>
            if n.enabled { assignments := assignments + [n]; } else { rejected := rejected + [(id, Disabled)]; }
        }
      }
      plan := Plan(Take(assignments, cap), rejected);
    } else {
      plan := Plan(Take(AutoPlan(nodes, exclude, usage), cap), []);
    }
  }

  // ---------- what a plan promises ----------

  ghost predicate DistinctIds(s: seq<Node>) {
    forall i, j :: 0 <= i < j < |s| ==> s[i].id != s[j].id
  }

  function Used(nodes: seq<Node>, ids: seq<nat>, exclude: Option<nat>): seq<bool> {
    seq(|ids|, i requires 0 <= i < |ids| => Rule(nodes, ids, exclude, i).Use?)
  }

  ghost predicate Served(nodes: seq<Node>, ids: seq<nat>, exclude: Option<nat>, at: seq<nat>, p: seq<Node>) {
    |p| == |at| && forall k :: 0 <= k < |at| ==> at[k] < |ids| && Rule(nodes, ids, exclude, at[k]) == Use(p[k])
  }

  lemma ServedStep(nodes: seq<Node>, ids: seq<nat>, exclude: Option<nat>, at: seq<nat>, p: seq<Node>, n: nat,
                   node: Node)
    requires Served(nodes, ids, exclude, at, p) && n < |ids| && Rule(nodes, ids, exclude, n) == Use(node)
    ensures Served(nodes, ids, exclude, at + [n], p + [node])
  {
  }

  /** Every requested id is either used, in the order of the request, or rejected. */
  lemma {:induction false} ExplicitPlanOrder(nodes: seq<Node>, ids: seq<nat>, exclude: Option<nat>, n: nat)
    requires n <= |ids|
    ensures var p := ExplicitPlan(nodes, ids, exclude, n);
            && Served(nodes, ids, exclude, Marked(Used(nodes, ids, exclude), n), p.assignments)
            && |p.assignments| + |p.rejected| == n
  {
    if n > 0 {
      ExplicitPlanOrder(nodes, ids, exclude, n - 1);
      var at, p := Marked(Used(nodes, ids, exclude), n - 1), ExplicitPlan(nodes, ids, exclude, n - 1).assignments;
      match Rule(nodes, ids, exclude, n - 1) {
        case Use(node) => ServedStep(nodes, ids, exclude, at, p, n - 1, node);
        case _ => assert at + [] == at;
      }
    }
  }

  lemma UsedNode(nodes: seq<Node>, ids: seq<nat>, exclude: Option<nat>, i: nat)
    requires i < |ids| && Rule(nodes, ids, exclude, i).Use?
    ensures var node := Rule(nodes, ids, exclude, i).node;
            node in nodes && node.enabled && node.id == ids[i] && exclude != Some(node.id) && ids[i] !in ids[..i]
  {
    FindNodeSpec(nodes, ids[i]);
  }

  /** The nodes used are enabled ones from the table, distinct, and never the excluded one. */
  lemma ExplicitPlanDistinct(nodes: seq<Node>, ids: seq<nat>, exclude: Option<nat>)
    ensures var p := ExplicitPlan(nodes, ids, exclude, |ids|).assignments;
            DistinctIds(p) && forall n :: n in p ==> n in nodes && n.enabled && exclude != Some(n.id)
  {
    var p := ExplicitPlan(nodes, ids, exclude, |ids|).assignments;
    ExplicitPlanOrder(nodes, ids, exclude, |ids|);
    MarkedSpec(Used(nodes, ids, exclude), |ids|);
    var at := Marked(Used(nodes, ids, exclude), |ids|);
    assert forall k :: 0 <= k < |at| ==> Used(nodes, ids, exclude)[at[k]];
    forall k | 0 <= k < |p| ensures p[k].id == ids[at[k]] && p[k] in nodes && p[k].enabled && exclude != Some(p[k].id) {
      UsedNode(nodes, ids, exclude, at[k]);
    }
    forall j, k | 0 <= j < k < |p| ensures p[j].id != p[k].id {
      UsedNode(nodes, ids, exclude, at[k]);
      assert ids[..at[k]][at[j]] == p[j].id;
    }
  }

  ghost predicate Sorted(s: seq<Node>, usage: map<string, nat>) {
    forall i, j :: 0 <= i < j < |s| ==> Precedes(s[i], s[j], usage)
  }

  lemma {:induction false} InsertKeepsAll(n: Node, s: seq<Node>, usage: map<string, nat>)
    ensures multiset(Insert(n, s, usage)) == multiset(s) + multiset{n}
  {
    if s != [] && !Precedes(n, s[0], usage) {
      InsertKeepsAll(n, s[1..], usage);
      assert s == [s[0]] + s[1..];
    }
  }

  lemma {:induction false} InsertSorted(n: Node, s: seq<Node>, usage: map<string, nat>)
    requires Sorted(s, usage)
    ensures Sorted(Insert(n, s, usage), usage)
  {
    if s != [] && !Precedes(n, s[0], usage) {
      InsertSorted(n, s[1..], usage);
      InsertKeepsAll(n, s[1..], usage);
      var t := Insert(n, s[1..], usage);
      forall k | 0 <= k < |t| ensures Precedes(s[0], t[k], usage) {
        assert t[k] in multiset(t);
        assert t[k] == n || t[k] in s[1..];
      }
    }
  }

  lemma {:induction false} SortSpec(s: seq<Node>, usage: map<string, nat>)
    ensures var r := SortByRank(s, usage); Sorted(r, usage) && multiset(r) == multiset(s)
  {
    if s != [] {
      SortSpec(s[1..], usage);
      InsertSorted(s[0], SortByRank(s[1..], usage), usage);
      InsertKeepsAll(s[0], SortByRank(s[1..], usage), usage);
      assert s == [s[0]] + s[1..];
    }
  }

  lemma {:induction false} EligibleSpec(nodes: seq<Node>, exclude: Option<nat>)
    ensures forall n :: n in Eligible(nodes, exclude) <==> n in nodes && IsEligible(n, exclude)
  {
    if nodes != [] {
      EligibleSpec(nodes[1..], exclude);
    }
  }

  lemma {:induction false} EligibleDistinct(nodes: seq<Node>, exclude: Option<nat>)
    requires DistinctIds(nodes)
    ensures DistinctIds(Eligible(nodes, exclude))
  {
    if nodes != [] {
      EligibleDistinct(nodes[1..], exclude);
      EligibleSpec(nodes[1..], exclude);
      var rest := Eligible(nodes[1..], exclude);
      forall k | 0 <= k < |rest| ensures rest[k].id != nodes[0].id {
        assert rest[k] in nodes[1..];
      }
    }
  }

  lemma DistinctIsCount(s: seq<Node>, t: seq<Node>)
    requires DistinctIds(s) && multiset(t) == multiset(s)
    ensures DistinctIds(t)
  {
    forall i, j | 0 <= i < j < |t| ensures t[i].id != t[j].id {
      assert t[i] in multiset(t) && t[j] in multiset(t);
      assert t[i] in s && t[j] in s;
      if t[i] == t[j] {
        assert t == t[..i] + [t[i]] + t[i + 1..j] + [t[j]] + t[j + 1..];
        assert multiset(s)[t[i]] >= 2;
        OncePerId(s, t[i]);
      }
    }
  }

  lemma {:induction false} OncePerId(s: seq<Node>, n: Node)
    requires DistinctIds(s)
    ensures multiset(s)[n] <= 1
  {
    if s != [] {
      assert s == [s[0]] + s[1..];
      OncePerId(s[1..], n);
      if s[0] == n { assert n !in s[1..]; }
    }
  }

  /** The front of a sorted list precedes what is left behind. */
  lemma TakeSpec(r: seq<Node>, usage: map<string, nat>, cap: nat)
    requires Sorted(r, usage)
    ensures var p := Take(r, cap); var rest := multiset(r) - multiset(p);
            && |p| == (if |r| <= cap then |r| else cap) && p <= r
            && Sorted(p, usage) && multiset(p) <= multiset(r)
            && forall a, b :: a in p && b in rest ==> Precedes(a, b, usage)
  {
    var p := Take(r, cap);
    assert r == p + r[|p|..];
    assert multiset(r) - multiset(p) == multiset(r[|p|..]);
  }

  /** The automatic plan is made of the `cap` smallest eligible nodes, in order: only eligible
      nodes, as many as there are up to `cap`, each before every node left out. */
  lemma AutoPlanSpec(nodes: seq<Node>, exclude: Option<nat>, usage: map<string, nat>, cap: nat)
    ensures var p := PlanOf(nodes, None, cap, exclude, usage).assignments;
            var e := multiset(Eligible(nodes, exclude));
            && |p| == (if |e| <= cap then |e| else cap)
            && Sorted(p, usage) && multiset(p) <= e
            && (forall a, b :: a in p && b in e - multiset(p) ==> Precedes(a, b, usage))
            && (forall n :: n in p ==> n in nodes && IsEligible(n, exclude))
  {
    var e := Eligible(nodes, exclude);
    SortSpec(e, usage);
    var r := SortByRank(e, usage);
    TakeSpec(r, usage, cap);
    assert |r| == |multiset(e)|;
    EligibleSpec(nodes, exclude);
    forall n | n in Take(r, cap) ensures n in e {
      assert n in multiset(r);
    }
  }

  lemma AutoPlanDistinct(nodes: seq<Node>, exclude: Option<nat>, usage: map<string, nat>, cap: nat)
    requires DistinctIds(nodes)
    ensures DistinctIds(PlanOf(nodes, None, cap, exclude, usage).assignments)
  {
    var e := Eligible(nodes, exclude);
    SortSpec(e, usage);
    EligibleDistinct(nodes, exclude);
    DistinctIsCount(e, SortByRank(e, usage));
  }

  /** Every plan hands out distinct nodes, never the excluded one. */
  lemma PlanIsDistinct(nodes: seq<Node>, nodeIds: Option<seq<nat>>, cap: nat, exclude: Option<nat>,
                       usage: map<string, nat>)
    requires DistinctIds(nodes)
    ensures var p := PlanOf(nodes, nodeIds, cap, exclude, usage).assignments;
            |p| <= cap && DistinctIds(p) && forall n :: n in p ==> n in nodes && n.enabled && exclude != Some(n.id)
  {
    if nodeIds.Some? && nodeIds.value != [] {
      ExplicitPlanDistinct(nodes, nodeIds.value, exclude);
    } else {
      AutoPlanSpec(nodes, exclude, usage, cap);
      AutoPlanDistinct(nodes, exclude, usage, cap);
    }
  }
}

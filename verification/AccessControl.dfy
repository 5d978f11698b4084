/**
 The access-control manager: a rule list, evaluation in stable descending
 priority with an early exit, and a decision cache keyed by a concatenated string.

 Conditions are judged by one deterministic evaluator given to the manager, and
 the clock is a parameter. An unset user_id, role or tenant_id of a rule is "".
 */
module AccessControl {
  import opened Options
  import opened Sorting
  import Strings

  datatype Effect = Allow | Deny | Conditional

  datatype WorkflowPermission = View | ExecuteWorkflow | Modify | Delete | Share | Admin

  datatype NodePermission = ExecuteNode | ReadOutput | WriteInput | Skip | MaskOutput

  datatype Permission = OnWorkflow(workflow: WorkflowPermission) | OnNode(node: NodePermission)

  datatype Condition = Condition(kind: string, value: string)

  datatype User = User(userId: string, tenantId: string, roles: seq<string>, attributes: map<string, string>)

  type Runtime = map<string, string>

  type Evaluator = (Condition, User, Runtime) -> bool

  datatype Expiry = Never | At(time: int)

  datatype Rule = Rule(
    id: string,
    resourceType: string,
    resourceId: string,
    permission: Permission,
    effect: Effect,
    userId: string,
    role: string,
    tenantId: string,
    conditions: seq<Condition>,
    expiresAt: Expiry,
    priority: int)

  datatype Decision = Decision(
    allowed: bool,
    reason: string,
    appliedRules: seq<Rule>,
    conditionsMet: map<string, bool>)

  /** What a check asks; only node checks carry a runtime context. */
  datatype Query =
    | WorkflowQuery(user: User, id: string, workflow: WorkflowPermission)
    | NodeQuery(user: User, id: string, node: NodePermission, runtime: Runtime)
  {
    function ResourceType(): string {
      if WorkflowQuery? then "workflow" else "node"
    }

    function Permission(): Permission {
      if WorkflowQuery? then OnWorkflow(workflow) else OnNode(node)
    }

    function Context(): Runtime {
      if WorkflowQuery? then map[] else runtime
    }

    function WithoutContext(): Query {
      if WorkflowQuery? then this else this.(runtime := map[])
    }
  }

  function PermissionValue(p: Permission): string {
    match p
    case OnWorkflow(View) => "view"
    case OnWorkflow(ExecuteWorkflow) => "execute"
    case OnWorkflow(Modify) => "modify"
    case OnWorkflow(Delete) => "delete"
    case OnWorkflow(Share) => "share"
    case OnWorkflow(Admin) => "admin"
    case OnNode(ExecuteNode) => "execute"
    case OnNode(ReadOutput) => "read_output"
    case OnNode(WriteInput) => "write_input"
    case OnNode(Skip) => "skip"
    case OnNode(MaskOutput) => "mask_output"
  }

  // ---- Rule evaluation ----

  predicate Expired(r: Rule, now: int) {
    r.expiresAt.At? && r.expiresAt.time < now
  }

  /** A selector of the rule is set and the user meets it. */
  predicate Selects(r: Rule, u: User) {
    || (r.userId != "" && r.userId == u.userId)
    || (r.role != "" && r.role in u.roles)
    || (r.tenantId != "" && r.tenantId == u.tenantId)
  }

  predicate AppliesToUser(r: Rule, u: User) {
    var unrestricted := r.userId == r.role == r.tenantId == "";
    unrestricted || Selects(r, u)
  }

  predicate Matches(r: Rule, q: Query) {
    && r.resourceType == q.ResourceType()
    && r.resourceId == q.id
    && r.permission == q.Permission()
    && AppliesToUser(r, q.user)
  }

  predicate Applies(r: Rule, q: Query, now: int) {
    Matches(r, q) && !Expired(r, now)
  }

  predicate ByPriority(a: Rule, b: Rule) {
    b.priority <= a.priority
  }

  function Selector(q: Query, now: int): Rule -> bool {
    r => Applies(r, q, now)
  }

  function Applicable(rules: seq<Rule>, q: Query, now: int): seq<Rule> {
    Filter(Selector(q, now), Sort(ByPriority, rules))
  }

  /** Whether all conditions are met, and the record of those looked at; the first unmet one ends the scan. */
  function Meet(id: string, cs: seq<Condition>, q: Query, ev: Evaluator, met: map<string, bool>)
    : (bool, map<string, bool>)
  {
    if cs == [] then (true, met)
    else
      var ok := ev(cs[0], q.user, q.Context());
      var met' := met[id + ":" + cs[0].kind := ok];
      if ok then Meet(id, cs[1..], q, ev, met') else (false, met')
  }

  /** The loop over applicable rules, from a current effect onwards; a current Deny ends it. */
  function Decide(rules: seq<Rule>, q: Query, ev: Evaluator, effect: Effect, met: map<string, bool>)
    : (Effect, map<string, bool>)
  {
    if rules == [] then (effect, met)
    else
      var r := rules[0];
      var (all, met') := if r.effect.Conditional? then Meet(r.id, r.conditions, q, ev, met) else (false, met);
      var effect' := if !r.effect.Conditional? then r.effect else if all then Allow else effect;
      if effect' == Deny then (Deny, met') else Decide(rules[1..], q, ev, effect', met')
  }

  function Reason(none: bool, allowed: bool, q: Query): string {
    if none then "No matching rules found for " + q.ResourceType() + " " + q.id
    else "Permission " + PermissionValue(q.Permission()) + (if allowed then " granted for " else " denied for ")
         + q.ResourceType() + " " + q.id
  }

  function Evaluate(rules: seq<Rule>, q: Query, ev: Evaluator, now: int): Decision {
    var applicable := Applicable(rules, q, now);
    var (effect, met) := Decide(applicable, q, ev, Deny, map[]);
    Decision(effect == Allow, Reason(applicable == [], effect == Allow, q), applicable, met)
  }

  // ---- The closed form of rule evaluation ----

  predicate AllMet(r: Rule, q: Query, ev: Evaluator) {
    forall c | c in r.conditions :: ev(c, q.user, q.Context())
  }

  predicate Grants(r: Rule, q: Query, ev: Evaluator) {
    r.effect == Allow || (r.effect == Conditional && AllMet(r, q, ev))
  }

  /** The applicable rule of highest priority, the earliest added among equals. */
  ghost predicate IsLeader(rules: seq<Rule>, i: int, q: Query, now: int) {
    && 0 <= i < |rules| && Applies(rules[i], q, now)
    && (forall j | 0 <= j < |rules| && Applies(rules[j], q, now) ::
          rules[j].priority < rules[i].priority || (rules[j].priority == rules[i].priority && i <= j))
  }

  lemma {:induction false} MeetIsAllMet(id: string, cs: seq<Condition>, q: Query, ev: Evaluator, met: map<string, bool>)
    ensures Meet(id, cs, q, ev, met).0 <==> forall c | c in cs :: ev(c, q.user, q.Context())
  {
    if cs != [] {
      assert cs == [cs[0]] + cs[1..];
      var ok := ev(cs[0], q.user, q.Context());
      if ok {
        MeetIsAllMet(id, cs[1..], q, ev, met[id + ":" + cs[0].kind := ok]);
      }
    }
  }

  lemma {:induction false} DecideAfterAllow(rules: seq<Rule>, q: Query, ev: Evaluator, met: map<string, bool>)
    ensures Decide(rules, q, ev, Allow, met).0 == Allow <==> forall r | r in rules :: r.effect != Deny
    ensures Decide(rules, q, ev, Allow, met).0 != Conditional
  {
    if rules != [] {
      assert rules == [rules[0]] + rules[1..];
      var r := rules[0];
      var met' := if r.effect.Conditional? then Meet(r.id, r.conditions, q, ev, met).1 else met;
      DecideAfterAllow(rules[1..], q, ev, met');
    }
  }

  lemma DecideFromDeny(rules: seq<Rule>, q: Query, ev: Evaluator, met: map<string, bool>)
    ensures
      Decide(rules, q, ev, Deny, met).0 == Allow <==>
      rules != [] && Grants(rules[0], q, ev) && forall r | r in rules :: r.effect != Deny
  {
    if rules != [] {
      assert rules == [rules[0]] + rules[1..];
      var r := rules[0];
      MeetIsAllMet(r.id, r.conditions, q, ev, met);
      var met' := if r.effect.Conditional? then Meet(r.id, r.conditions, q, ev, met).1 else met;
      DecideAfterAllow(rules[1..], q, ev, met');
    }
  }

  lemma PriorityIsTotal()
    ensures TotalPreorder(ByPriority)
  {
  }

  /** Position in the whole list of the k-th rule that passes the filter. */
  lemma {:induction false} FilterPosition(p: Rule -> bool, rules: seq<Rule>, k: nat) returns (i: nat)
    requires k < |Filter(p, rules)|
    ensures i < |rules| && p(rules[i]) && rules[i] == Filter(p, rules)[k]
    ensures Filter(p, rules[..i]) == Filter(p, rules)[..k]
  {
    var f := Filter(p, rules[1..]);
    if p(rules[0]) && k == 0 {
      i := 0;
    } else if p(rules[0]) {
      var m := FilterPosition(p, rules[1..], k - 1);
      i := m + 1;
      assert rules[..i][1..] == rules[1..][..m];
      assert Filter(p, rules)[..k] == [rules[0]] + f[..k - 1];
    } else {
      var m := FilterPosition(p, rules[1..], k);
      i := m + 1;
      assert rules[..i][1..] == rules[1..][..m];
      assert Filter(p, rules) == f;
    }
  }

  lemma LeaderComesFirst(rules: seq<Rule>, q: Query, now: int) returns (i: nat)
    requires Applicable(rules, q, now) != []
    ensures IsLeader(rules, i, q, now) && Applicable(rules, q, now)[0] == rules[i]
  {
    var p := Selector(q, now);
    PriorityIsTotal();
    FilterSort(ByPriority, p, rules);
    var f := Filter(p, rules);
    SortPermutes(ByPriority, f);
    assert Applicable(rules, q, now) == Sort(ByPriority, f);
    var k := SortHead(ByPriority, f);
    i := FilterPosition(p, rules, k);
    FilterSubset(p, rules);
    FilterSubset(p, rules[..i]);
    forall j | 0 <= j < |rules| && Applies(rules[j], q, now)
      ensures rules[j].priority < rules[i].priority || (rules[j].priority == rules[i].priority && i <= j)
    {
      assert rules[j] in f;
      if j < i {
        assert rules[j] in rules[..i];
        assert rules[j] in f[..k];
      }
    }
  }

  lemma ApplicableMembers(rules: seq<Rule>, q: Query, now: int)
    ensures forall r :: r in Applicable(rules, q, now) <==> r in rules && Applies(r, q, now)
  {
    FilterSubset(Selector(q, now), Sort(ByPriority, rules));
    SortPermutes(ByPriority, rules);
    forall r
      ensures r in Sort(ByPriority, rules) <==> r in rules
    {
      assert r in rules <==> r in multiset(rules);
      assert r in Sort(ByPriority, rules) <==> r in multiset(Sort(ByPriority, rules));
    }
  }

  lemma LeaderIsUnique(rules: seq<Rule>, i: int, j: int, q: Query, now: int)
    requires IsLeader(rules, i, q, now) && IsLeader(rules, j, q, now)
    ensures i == j
  {
  }

  /** Access is granted exactly when the leading applicable rule grants it and no
      applicable rule, of whatever priority, denies. */
  lemma EvaluateClosedForm(rules: seq<Rule>, q: Query, ev: Evaluator, now: int)
    ensures
      Evaluate(rules, q, ev, now).allowed <==>
      && (exists i :: IsLeader(rules, i, q, now) && Grants(rules[i], q, ev))
      && (forall r | r in rules && Applies(r, q, now) :: r.effect != Deny)
  {
    var applicable := Applicable(rules, q, now);
    DecideFromDeny(applicable, q, ev, map[]);
    ApplicableMembers(rules, q, now);
    if applicable != [] {
      var i := LeaderComesFirst(rules, q, now);
      forall k | IsLeader(rules, k, q, now)
        ensures k == i
      {
        LeaderIsUnique(rules, i, k, q, now);
      }
    } else {
      assert forall r | r in rules :: !Applies(r, q, now);
    }
  }

  lemma ApplicableDenyWins(rules: seq<Rule>, q: Query, ev: Evaluator, now: int, r: Rule)
    requires r in rules && r.effect == Deny && Applies(r, q, now)
    ensures !Evaluate(rules, q, ev, now).allowed
  {
    EvaluateClosedForm(rules, q, ev, now);
  }

  function Unprioritised(rules: seq<Rule>): seq<Rule> {
    if rules == [] then [] else [rules[0].(priority := 0)] + Unprioritised(rules[1..])
  }

  lemma {:induction false} UnprioritisedMembers(rules: seq<Rule>)
    ensures forall r :: r in rules ==> r.(priority := 0) in multiset(Unprioritised(rules))
    ensures forall u :: u in multiset(Unprioritised(rules)) ==> exists r :: r in rules && u == r.(priority := 0)
  {
    if rules != [] {
      UnprioritisedMembers(rules[1..]);
      assert rules == [rules[0]] + rules[1..];
    }
  }

  lemma SimpleVerdict(rules: seq<Rule>, q: Query, ev: Evaluator, now: int)
    requires forall r | r in rules && Applies(r, q, now) :: r.effect != Conditional
    ensures
      Evaluate(rules, q, ev, now).allowed <==>
      && (exists r :: r in rules && Applies(r, q, now))
      && (forall r | r in rules && Applies(r, q, now) :: r.effect == Allow)
  {
    EvaluateClosedForm(rules, q, ev, now);
    ApplicableMembers(rules, q, now);
    if r :| r in rules && Applies(r, q, now) {
      assert r in Applicable(rules, q, now);
      var i := LeaderComesFirst(rules, q, now);
      assert rules[i] in rules;
    }
  }

  lemma Counterpart(a: seq<Rule>, b: seq<Rule>, r: Rule) returns (s: Rule)
    requires multiset(Unprioritised(a)) == multiset(Unprioritised(b)) && r in a
    ensures s in b && s.(priority := 0) == r.(priority := 0)
  {
    UnprioritisedMembers(a);
    UnprioritisedMembers(b);
    assert r.(priority := 0) in multiset(Unprioritised(b));
    s :| s in b && s.(priority := 0) == r.(priority := 0);
  }

  lemma EffectsCarryOver(a: seq<Rule>, b: seq<Rule>, q: Query, now: int, r: Rule) returns (s: Rule)
    requires multiset(Unprioritised(a)) == multiset(Unprioritised(b))
    requires r in a && Applies(r, q, now)
    ensures s in b && Applies(s, q, now) && s.effect == r.effect
  {
    s := Counterpart(a, b, r);
  }

  lemma {:induction false} VerdictCarriesOver(a: seq<Rule>, b: seq<Rule>, q: Query, ev: Evaluator, now: int)
    requires multiset(Unprioritised(a)) == multiset(Unprioritised(b))
    requires forall r | r in a && Applies(r, q, now) :: r.effect != Conditional
    ensures forall r | r in b && Applies(r, q, now) :: r.effect != Conditional
    ensures Evaluate(a, q, ev, now).allowed ==> Evaluate(b, q, ev, now).allowed
  {
    forall r | r in b && Applies(r, q, now)
      ensures exists s :: s in a && Applies(s, q, now) && s.effect == r.effect
    {
      var s := EffectsCarryOver(b, a, q, now, r);
    }
    SimpleVerdict(a, q, ev, now);
    SimpleVerdict(b, q, ev, now);
    if r :| r in a && Applies(r, q, now) {
      var s := EffectsCarryOver(a, b, q, now, r);
    }
  }

  /** Without conditional rules the verdict depends neither on the order in which
      rules were added nor on their priorities. */
  lemma {:induction false} OrderAndPriorityAreIrrelevant(a: seq<Rule>, b: seq<Rule>, q: Query, ev: Evaluator, now: int)
    requires multiset(Unprioritised(a)) == multiset(Unprioritised(b))
    requires forall r | r in a && Applies(r, q, now) :: r.effect != Conditional
    ensures Evaluate(a, q, ev, now).allowed == Evaluate(b, q, ev, now).allowed
  {
    VerdictCarriesOver(a, b, q, ev, now);
    VerdictCarriesOver(b, a, q, ev, now);
  }

  // ---- What a decision says, field by field ----

  /** What makes a rule count for a request: its resource, its permission, its selectors, its expiry. */
  ghost predicate IsFor(r: Rule, q: Query, now: int) {
    && r.resourceId == q.id
    && (match q
        case WorkflowQuery(_, _, workflow) => r.resourceType == "workflow" && r.permission == OnWorkflow(workflow)
        case NodeQuery(_, _, node, _) => r.resourceType == "node" && r.permission == OnNode(node))
    && ((r.userId == "" && r.role == "" && r.tenantId == "")
        || (r.userId != "" && q.user.userId == r.userId)
        || (r.role != "" && exists i :: 0 <= i < |q.user.roles| && q.user.roles[i] == r.role)
        || (r.tenantId != "" && q.user.tenantId == r.tenantId))
    && (r.expiresAt.At? ==> now <= r.expiresAt.time)
  }

  lemma AppliesMeans(r: Rule, q: Query, now: int)
    ensures Applies(r, q, now) <==> IsFor(r, q, now)
  {
    if r.role in q.user.roles {
      var i :| 0 <= i < |q.user.roles| && q.user.roles[i] == r.role;
    }
  }

  /** The applied rules are the unexpired rules for the requested resource and permission
      whose selectors, if any, the user meets. */
  lemma AppliedExactly(rules: seq<Rule>, q: Query, ev: Evaluator, now: int)
    ensures forall r :: r in Evaluate(rules, q, ev, now).appliedRules <==> r in rules && IsFor(r, q, now)
  {
    ApplicableMembers(rules, q, now);
    forall r
      ensures Applies(r, q, now) <==> IsFor(r, q, now)
    {
      AppliesMeans(r, q, now);
    }
  }

  function WithPriority(k: int): Rule -> bool { (r: Rule) => r.priority == k }

  ghost function ForWithPriority(q: Query, now: int, k: int): Rule -> bool {
    (r: Rule) => IsFor(r, q, now) && r.priority == k
  }

  /** The applied rules come by falling priority, and those of one priority in the order they were added. */
  lemma AppliedInOrder(rules: seq<Rule>, q: Query, ev: Evaluator, now: int, k: int)
    ensures
      var applied := Evaluate(rules, q, ev, now).appliedRules;
      && (forall i, j | 0 <= i < j < |applied| :: applied[j].priority <= applied[i].priority)
      && Filter(WithPriority(k), applied) == Filter(ForWithPriority(q, now, k), rules)
  {
    var p := Selector(q, now);
    PriorityIsTotal();
    FilterSort(ByPriority, p, rules);
    SortSorts(ByPriority, Filter(p, rules));
    FilterSort(ByPriority, WithPriority(k), Filter(p, rules));
    forall r | r in rules
      ensures ForWithPriority(q, now, k)(r) == (p(r) && WithPriority(k)(r))
    {
      AppliesMeans(r, q, now);
    }
    FilterWithin(WithPriority(k), p, ForWithPriority(q, now, k), rules);
    FilterSubset(ForWithPriority(q, now, k), rules);
    OnePriorityStands(Filter(ForWithPriority(q, now, k), rules), k);
  }

  lemma OnePriorityStands(rules: seq<Rule>, k: int)
    requires forall r | r in rules :: r.priority == k
    ensures Sort(ByPriority, rules) == rules
  {
    assert forall i | 0 <= i < |rules| :: rules[i] in rules;
    SortKeepsSorted(ByPriority, rules);
  }

  /** Rules for the requested resource and permission. */
  function Concerns(q: Query): Rule -> bool {
    (r: Rule) =>
      && r.resourceId == q.id
      && r.resourceType == (if q.WorkflowQuery? then "workflow" else "node")
      && r.permission == (if q.WorkflowQuery? then OnWorkflow(q.workflow) else OnNode(q.node))
  }

  /** Rules for other resources or permissions leave the decision as it is. */
  lemma OtherRulesAreIgnored(rules: seq<Rule>, q: Query, ev: Evaluator, now: int)
    ensures Evaluate(rules, q, ev, now) == Evaluate(Filter(Concerns(q), rules), q, ev, now)
  {
    PriorityIsTotal();
    FilterSort(ByPriority, Selector(q, now), rules);
    FilterSort(ByPriority, Selector(q, now), Filter(Concerns(q), rules));
    FilterWithin(Selector(q, now), Concerns(q), Selector(q, now), rules);
  }

  /** A lone conditional rule grants exactly when every condition holds of the user and
      of the runtime context, which workflow checks do not have. */
  lemma LoneConditionalGrantsIff(rule: Rule, q: Query, ev: Evaluator, now: int)
    requires IsFor(rule, q, now) && rule.effect == Conditional
    ensures
      Evaluate([rule], q, ev, now).allowed <==>
      forall c | c in rule.conditions :: ev(c, q.user, if q.WorkflowQuery? then map[] else q.runtime)
  {
    AppliesMeans(rule, q, now);
    EvaluateClosedForm([rule], q, ev, now);
    assert IsLeader([rule], 0, q, now);
  }

  /** What the reason tells of the resource, the permission and the outcome. */
  lemma ReasonTells(rules: seq<Rule>, q: Query, ev: Evaluator, now: int)
    ensures
      var d := Evaluate(rules, q, ev, now);
      && (d.appliedRules == [] ==>
            d.reason == "No matching rules found for " + (if q.WorkflowQuery? then "workflow" else "node") + " " + q.id)
      && (d.appliedRules != [] ==>
            d.reason ==
            "Permission " + PermissionValue(q.Permission()) + (if d.allowed then " granted for " else " denied for ")
            + (if q.WorkflowQuery? then "workflow" else "node") + " " + q.id)
  {
  }

  /** The permission with a given value, as the program looks it up. */
  function PermissionNamed(workflow: bool, value: string): Option<Permission> {
    if workflow then
      match value
      case "view" => Some(OnWorkflow(View))
      case "execute" => Some(OnWorkflow(ExecuteWorkflow))
      case "modify" => Some(OnWorkflow(Modify))
      case "delete" => Some(OnWorkflow(Delete))
      case "share" => Some(OnWorkflow(Share))
      case "admin" => Some(OnWorkflow(Admin))
      case _ => None
    else
      match value
      case "execute" => Some(OnNode(ExecuteNode))
      case "read_output" => Some(OnNode(ReadOutput))
      case "write_input" => Some(OnNode(WriteInput))
      case "skip" => Some(OnNode(Skip))
      case "mask_output" => Some(OnNode(MaskOutput))
      case _ => None
  }

  lemma PermissionValueReadsBack(p: Permission)
    ensures PermissionNamed(p.OnWorkflow?, PermissionValue(p)) == Some(p)
  {
  }

  // ---- The record of conditions ----

  /** The loop reaches the i-th rule: from an allow, no deny stands before it; otherwise
      the first rule has to grant besides. */
  ghost predicate Reached(rules: seq<Rule>, i: int, q: Query, ev: Evaluator, allowing: bool) {
    && 0 <= i < |rules|
    && (forall h | 0 <= h < i :: rules[h].effect != Deny)
    && (allowing || i == 0 || Grants(rules[0], q, ev))
  }

  /** The j-th condition is looked at: those before it are met. */
  ghost predicate ReachedIn(cs: seq<Condition>, j: int, q: Query, ev: Evaluator) {
    0 <= j < |cs| && forall h | 0 <= h < j :: ev(cs[h], q.user, q.Context())
  }

  /** The j-th condition is looked at and recorded under k. */
  ghost predicate RecordedIn(id: string, cs: seq<Condition>, j: int, k: string, q: Query, ev: Evaluator) {
    ReachedIn(cs, j, q, ev) && k == id + ":" + cs[j].kind
  }

  ghost predicate RecordOf(
    m: map<string, bool>, met: map<string, bool>, id: string, cs: seq<Condition>, k: string, q: Query, ev: Evaluator)
  {
    && (k in m <==> k in met || exists j :: RecordedIn(id, cs, j, k, q, ev))
    && (k in m ==>
          || (k in met && m[k] == met[k])
          || exists j :: RecordedIn(id, cs, j, k, q, ev) && m[k] == ev(cs[j], q.user, q.Context()))
  }

  lemma {:induction false} MeetRecords(
    id: string, cs: seq<Condition>, q: Query, ev: Evaluator, met: map<string, bool>, k: string)
    ensures RecordOf(Meet(id, cs, q, ev, met).1, met, id, cs, k, q, ev)
  {
    if cs != [] {
      var ok := ev(cs[0], q.user, q.Context());
      var key := id + ":" + cs[0].kind;
      assert k == key ==> RecordedIn(id, cs, 0, k, q, ev);
      if ok {
        MeetRecords(id, cs[1..], q, ev, met[key := ok], k);
        forall j | RecordedIn(id, cs[1..], j, k, q, ev)
          ensures RecordedIn(id, cs, j + 1, k, q, ev)
        {
          LaterCondition(cs, j, q, ev);
        }
        forall j | RecordedIn(id, cs, j, k, q, ev) && j > 0
          ensures RecordedIn(id, cs[1..], j - 1, k, q, ev)
        {
          LaterCondition(cs, j - 1, q, ev);
        }
      }
    }
  }

  lemma LaterCondition(cs: seq<Condition>, j: int, q: Query, ev: Evaluator)
    requires cs != [] && ev(cs[0], q.user, q.Context())
    ensures ReachedIn(cs[1..], j, q, ev) <==> j + 1 > 0 && ReachedIn(cs, j + 1, q, ev)
  {
    if ReachedIn(cs[1..], j, q, ev) {
      forall h | 0 <= h < j + 1
        ensures ev(cs[h], q.user, q.Context())
      {
        assert h > 0 ==> ev(cs[1..][h - 1], q.user, q.Context());
      }
    }
  }

  /** The i-th rule's j-th condition is looked at and recorded under k. */
  ghost predicate Recorded(
    rules: seq<Rule>, i: int, j: int, k: string, q: Query, ev: Evaluator, allowing: bool)
  {
    && Reached(rules, i, q, ev, allowing) && rules[i].effect == Conditional
    && RecordedIn(rules[i].id, rules[i].conditions, j, k, q, ev)
  }

  ghost predicate RecordOfAll(
    m: map<string, bool>, met: map<string, bool>, rules: seq<Rule>, k: string, q: Query, ev: Evaluator, allowing: bool)
  {
    && (k in m <==> k in met || exists i, j :: Recorded(rules, i, j, k, q, ev, allowing))
    && (k in m ==>
          || (k in met && m[k] == met[k])
          || exists i, j :: Recorded(rules, i, j, k, q, ev, allowing) &&
                            m[k] == ev(rules[i].conditions[j], q.user, q.Context()))
  }

  lemma LaterRule(rules: seq<Rule>, i: int, q: Query, ev: Evaluator, allowing: bool)
    requires rules != [] && rules[0].effect != Deny && (allowing || Grants(rules[0], q, ev))
    ensures Reached(rules[1..], i, q, ev, true) <==> i + 1 > 0 && Reached(rules, i + 1, q, ev, allowing)
  {
    if Reached(rules[1..], i, q, ev, true) {
      forall h | 0 <= h < i + 1
        ensures rules[h].effect != Deny
      {
        assert h > 0 ==> rules[1..][h - 1].effect != Deny;
      }
    }
  }

  function OwnConditions(r: Rule): seq<Condition> {
    if r.effect.Conditional? then r.conditions else []
  }

  lemma RecordStopsHere(
    m: map<string, bool>, met: map<string, bool>, rules: seq<Rule>, k: string, q: Query, ev: Evaluator, allowing: bool)
    requires rules != [] && RecordOf(m, met, rules[0].id, OwnConditions(rules[0]), k, q, ev)
    requires rules[0].effect == Deny || !(allowing || Grants(rules[0], q, ev))
    ensures RecordOfAll(m, met, rules, k, q, ev, allowing)
  {
    forall j
      ensures
        RecordedIn(rules[0].id, OwnConditions(rules[0]), j, k, q, ev) <==> Recorded(rules, 0, j, k, q, ev, allowing)
    {
    }
  }

  lemma RecordGoesOn(
    m: map<string, bool>, met': map<string, bool>, met: map<string, bool>, rules: seq<Rule>, k: string, q: Query,
    ev: Evaluator, allowing: bool)
    requires rules != [] && RecordOf(met', met, rules[0].id, OwnConditions(rules[0]), k, q, ev)
    requires rules[0].effect != Deny && (allowing || Grants(rules[0], q, ev))
    requires RecordOfAll(m, met', rules[1..], k, q, ev, true)
    ensures RecordOfAll(m, met, rules, k, q, ev, allowing)
  {
    forall j
      ensures
        RecordedIn(rules[0].id, OwnConditions(rules[0]), j, k, q, ev) <==> Recorded(rules, 0, j, k, q, ev, allowing)
    {
    }
    forall i, j | Recorded(rules[1..], i, j, k, q, ev, true)
      ensures Recorded(rules, i + 1, j, k, q, ev, allowing)
    {
      LaterRule(rules, i, q, ev, allowing);
    }
    forall i, j | Recorded(rules, i, j, k, q, ev, allowing) && i > 0
      ensures Recorded(rules[1..], i - 1, j, k, q, ev, true)
    {
      LaterRule(rules, i - 1, q, ev, allowing);
    }
  }

  lemma {:induction false} DecideRecords(
    rules: seq<Rule>, q: Query, ev: Evaluator, effect: Effect, met: map<string, bool>, k: string)
    requires effect == Allow || effect == Deny
    ensures RecordOfAll(Decide(rules, q, ev, effect, met).1, met, rules, k, q, ev, effect == Allow)
  {
    if rules != [] {
      var r := rules[0];
      var met' := if r.effect.Conditional? then Meet(r.id, r.conditions, q, ev, met).1 else met;
      MeetIsAllMet(r.id, r.conditions, q, ev, met);
      MeetRecords(r.id, OwnConditions(r), q, ev, met, k);
      if r.effect != Deny && (effect == Allow || Grants(r, q, ev)) {
        DecideRecords(rules[1..], q, ev, Allow, met', k);
        RecordGoesOn(Decide(rules[1..], q, ev, Allow, met').1, met', met, rules, k, q, ev, effect == Allow);
      } else {
        RecordStopsHere(met', met, rules, k, q, ev, effect == Allow);
      }
    }
  }

  /** The decision records exactly the conditions looked at, each with a judgement made of it. */
  lemma RecordIsExact(rules: seq<Rule>, q: Query, ev: Evaluator, now: int, k: string)
    ensures
      var d := Evaluate(rules, q, ev, now);
      && (k in d.conditionsMet <==> exists i, j :: Recorded(d.appliedRules, i, j, k, q, ev, false))
      && (k in d.conditionsMet ==>
            exists i, j :: Recorded(d.appliedRules, i, j, k, q, ev, false) &&
                           d.conditionsMet[k] == ev(d.appliedRules[i].conditions[j], q.user, q.Context()))
  {
    DecideRecords(Applicable(rules, q, now), q, ev, Deny, map[], k);
  }

  // ---- The manager and its cache ----

  datatype Manager = Manager(enabled: bool, rules: seq<Rule>, cache: map<string, Decision>)

  const DISABLED := Decision(true, "Access control disabled", [], map[])

  function Key(q: Query): string {
    q.ResourceType() + ":" + q.id + ":" + q.user.userId + ":" + PermissionValue(q.Permission())
  }

  /** A node check bypasses the cache when it has a context and some rule for the node is conditional. */
  predicate Bypasses(rules: seq<Rule>, q: Query) {
    q.NodeQuery? && q.runtime != map[] && exists r :: r in rules && r.resourceId == q.id && r.effect == Conditional
  }

  function Check(m: Manager, q: Query, ev: Evaluator, now: int): (Manager, Decision) {
    if !m.enabled then (m, DISABLED)
    else if Bypasses(m.rules, q) then (m, Evaluate(m.rules, q, ev, now))
    else if Key(q) in m.cache then (m, m.cache[Key(q)])
    else
      var decision := Evaluate(m.rules, q, ev, now);
      (m.(cache := m.cache[Key(q) := decision]), decision)
  }

  function Keeping(id: string, rules: seq<Rule>): seq<Rule> {
    Filter((r: Rule) => r.id != id, rules)
  }

  function AddRule(m: Manager, r: Rule): Manager {
    Manager(m.enabled, m.rules + [r], map[])
  }

  function RemoveRule(m: Manager, id: string): Manager {
    Manager(m.enabled, Keeping(id, m.rules), map[])
  }

  /** Removing takes exactly the rules with that id, so it undoes adding a rule with a fresh id. */
  lemma {:induction false} RemoveUndoesAdd(m: Manager, r: Rule)
    requires forall x | x in m.rules :: x.id != r.id
    ensures RemoveRule(AddRule(m, r), r.id).rules == m.rules
  {
    var p := (x: Rule) => x.id != r.id;
    FilterAppend(p, m.rules, r);
    FilterKeepsAll(p, m.rules);
  }

  lemma RemovedRulesAreGone(m: Manager, id: string, q: Query, now: int)
    ensures
      forall r :: r in Applicable(RemoveRule(m, id).rules, q, now) <==>
                  r in Applicable(m.rules, q, now) && r.id != id
  {
    ApplicableMembers(m.rules, q, now);
    ApplicableMembers(RemoveRule(m, id).rules, q, now);
    FilterSubset((r: Rule) => r.id != id, m.rules);
  }

  /** `_evaluate_rules` and the public methods, in the form the program has them. */
  class AccessControlManager {
    const evaluator: Evaluator
    var enabled: bool
    var rules: seq<Rule>
    var cache: map<string, Decision>

    constructor (evaluator: Evaluator, enabled: bool)
      ensures this.evaluator == evaluator && View() == Manager(enabled, [], map[])
    {
      this.evaluator, this.enabled, this.rules, this.cache := evaluator, enabled, [], map[];
    }

    function View(): Manager
      reads this
    {
      Manager(enabled, rules, cache)
    }

    method Add(rule: Rule)
      modifies this
      ensures View() == AddRule(old(View()), rule)
    {
      rules := rules + [rule];
      cache := map[];
    }

    method Remove(id: string)
      modifies this
      ensures View() == RemoveRule(old(View()), id)
    {
      rules := Keeping(id, rules);
      cache := map[];
    }

    /** `_rule_applies_to_user`. */
    method RuleAppliesToUser(rule: Rule, user: User) returns (applies: bool)
      ensures applies == AppliesToUser(rule, user)
    {
      if rule.userId != "" && rule.userId == user.userId {
        return true;
      }
      if rule.role != "" && rule.role in user.roles {
        return true;
      }
      if rule.tenantId != "" && rule.tenantId == user.tenantId {
        return true;
      }
      if rule.userId == "" && rule.role == "" && rule.tenantId == "" {
        return true;
      }
      return false;
    }

    method FindApplicable(q: Query, now: int) returns (applicable: seq<Rule>)
      ensures applicable == Applicable(rules, q, now)
    {
      var ordered := Sort(ByPriority, rules);
      ghost var p := Selector(q, now);
      ghost var whole := Filter(p, ordered);
      applicable := [];
      assert ordered[0..] == ordered;
      for i := 0 to |ordered|
        invariant applicable + Filter(p, ordered[i..]) == whole
      {
        FilterRound(p, ordered, i, applicable);
        var rule := ordered[i];
        var forUser := RuleAppliesToUser(rule, q.user);
        if && rule.resourceType == q.ResourceType()
           && rule.resourceId == q.id
           && rule.permission == q.Permission()
           && forUser
        {
          if Expired(rule, now) {
            continue;
          }
          applicable := applicable + [rule];
        }
      }
      assert ordered[|ordered|..] == [];
    }

    method ApplyRules(applicable: seq<Rule>, q: Query) returns (finalEffect: Effect, conditionsMet: map<string, bool>)
      ensures (finalEffect, conditionsMet) == Decide(applicable, q, evaluator, Deny, map[])
    {
      finalEffect, conditionsMet := Deny, map[];
      ghost var verdict := Decide(applicable, q, evaluator, Deny, map[]);
      var i := 0;
      assert applicable[0..] == applicable;
      while i < |applicable|
        invariant 0 <= i <= |applicable|
        invariant verdict == Decide(applicable[i..], q, evaluator, finalEffect, conditionsMet)
      {
        var rule := applicable[i];
        assert applicable[i..][1..] == applicable[i + 1..];
        if rule.effect == Conditional {
          var allConditionsMet;
          allConditionsMet, conditionsMet := MeetConditions(rule, q, conditionsMet);
          if allConditionsMet {
            finalEffect := Allow;
          }
        } else {
          finalEffect := rule.effect;
        }
        if finalEffect == Deny {
          return;
        }
        i := i + 1;
      }
    }

    method EvaluateRules(q: Query, now: int) returns (decision: Decision)
      ensures decision == Evaluate(rules, q, evaluator, now)
      ensures forall r :: r in decision.appliedRules <==> r in rules && IsFor(r, q, now)
    {
      var applicable := FindApplicable(q, now);
      var finalEffect, conditionsMet := ApplyRules(applicable, q);
      var allowed := finalEffect == Allow;
      AppliedExactly(rules, q, evaluator, now);
      decision := Decision(allowed, Reason(applicable == [], allowed, q), applicable, conditionsMet);
    }

    method MeetConditions(rule: Rule, q: Query, before: map<string, bool>) returns (all: bool, met: map<string, bool>)
      ensures (all, met) == Meet(rule.id, rule.conditions, q, evaluator, before)
    {
      all, met := true, before;
      var i := 0;
      while i < |rule.conditions|
        invariant 0 <= i <= |rule.conditions|
        invariant all
        invariant Meet(rule.id, rule.conditions, q, evaluator, before)
               == Meet(rule.id, rule.conditions[i..], q, evaluator, met)
      {
        var c := rule.conditions[i];
        assert rule.conditions[i..][1..] == rule.conditions[i + 1..];
        var ok := evaluator(c, q.user, q.Context());
        met := met[rule.id + ":" + c.kind := ok];
        if !ok {
          all := false;
          return;
        }
        i := i + 1;
      }
    }

    /** `check_workflow_access` and `check_node_access`: they differ in the bypass alone. */
    method CheckAccess(q: Query, now: int) returns (decision: Decision)
      modifies this`cache
      ensures (View(), decision) == Check(old(View()), q, evaluator, now)
    {
      if !enabled {
        return DISABLED;
      }
      if && q.NodeQuery?
         && q.runtime != map[]
         && exists r :: r in rules && r.resourceId == q.id && r.effect == Conditional
      {
        decision := EvaluateRules(q, now);
        return;
      }
      if Key(q) in cache {
        return cache[Key(q)];
      }
      decision := EvaluateRules(q, now);
      cache := cache[Key(q) := decision];
    }
  }

  // ---- Keys ----

  lemma PermissionValueIdentifies(a: Permission, b: Permission)
    ensures ':' !in PermissionValue(a)
    ensures PermissionValue(a) == PermissionValue(b) && a.OnWorkflow? == b.OnWorkflow? ==> a == b
  {
  }

  // ---- The check, case by case ----

  /** A disabled manager allows everything, and leaves rules and cache alone. */
  lemma DisabledAllows(m: Manager, q: Query, ev: Evaluator, now: int)
    requires !m.enabled
    ensures
      var (after, d) := Check(m, q, ev, now);
      && after == m && d.allowed && d.reason == "Access control disabled" && d.appliedRules == []
      && d.conditionsMet == map[]
  {
  }

  /** A node check with a runtime context is evaluated afresh, and not stored, exactly when
      some rule for that id is conditional; any other check stores its decision and is
      answered by it until the rules change. */
  lemma EnabledCheckByCases(m: Manager, q: Query, ev: Evaluator, now: int)
    requires m.enabled
    ensures
      var (after, d) := Check(m, q, ev, now);
      var evaluated := Evaluate(m.rules, q, ev, now);
      && after.enabled && after.rules == m.rules
      && (q.NodeQuery? && q.runtime != map[]
          && (exists i :: 0 <= i < |m.rules| && m.rules[i].resourceId == q.id && m.rules[i].effect.Conditional?) ==>
            d == evaluated && after.cache == m.cache)
      && (q.WorkflowQuery? || q.runtime == map[]
          || (forall i | 0 <= i < |m.rules| && m.rules[i].resourceId == q.id :: !m.rules[i].effect.Conditional?) ==>
            && (Key(q) in m.cache ==> d == m.cache[Key(q)] && after.cache == m.cache)
            && (Key(q) !in m.cache ==> d == evaluated && after.cache == m.cache[Key(q) := evaluated])
            && Check(after, q, ev, now).1 == d)
  {
    if i :| 0 <= i < |m.rules| && m.rules[i].resourceId == q.id && m.rules[i].effect.Conditional? {
      assert m.rules[i] in m.rules;
    }
  }

  /** A new rule comes last, behind all there were, and nothing stays cached. */
  lemma AddedRuleComesLast(m: Manager, r: Rule)
    ensures
      var after := AddRule(m, r);
      && |after.rules| == |m.rules| + 1 && after.rules[|m.rules|] == r && after.rules[..|m.rules|] == m.rules
      && after.cache == map[] && after.enabled == m.enabled
  {
  }

  /** Exactly when two queries share a cache entry. */
  lemma KeysCollideIff(a: Query, b: Query)
    ensures
      Key(a) == Key(b) <==>
      && a.Permission() == b.Permission()
      && a.id + ":" + a.user.userId == b.id + ":" + b.user.userId
  {
    var fa := a.ResourceType() + ":" + a.id + ":" + a.user.userId;
    var fb := b.ResourceType() + ":" + b.id + ":" + b.user.userId;
    var pa, pb := PermissionValue(a.Permission()), PermissionValue(b.Permission());
    PermissionValueIdentifies(a.Permission(), b.Permission());
    PermissionValueIdentifies(b.Permission(), a.Permission());
    var ta, tb := a.id + ":" + a.user.userId, b.id + ":" + b.user.userId;
    assert fa == a.ResourceType() + ":" + ta && fb == b.ResourceType() + ":" + tb;
    if Key(a) == Key(b) {
      Strings.LastSeparator(fa, pa, fb, pb, ':');
      assert fa[0] == a.ResourceType()[0] && fb[0] == b.ResourceType()[0];
      assert a.ResourceType() == b.ResourceType();
      assert ta == fa[|a.ResourceType()| + 1..] && tb == fb[|b.ResourceType()| + 1..];
    }
  }

  lemma KeyIdentifies(a: Query, b: Query)
    requires ':' !in a.user.userId && ':' !in b.user.userId
    requires Key(a) == Key(b)
    ensures a.Permission() == b.Permission() && a.id == b.id && a.user.userId == b.user.userId
  {
    KeysCollideIff(a, b);
    Strings.LastSeparator(a.id, a.user.userId, b.id, b.user.userId, ':');
  }

  lemma {:induction false} DecideIgnoresQuery(
    rules: seq<Rule>, q: Query, q': Query, ev: Evaluator, effect: Effect, met: map<string, bool>)
    requires forall r | r in rules :: r.effect != Conditional
    ensures Decide(rules, q, ev, effect, met) == Decide(rules, q', ev, effect, met)
  {
    if rules != [] && rules[0].effect != Deny {
      DecideIgnoresQuery(rules[1..], q, q', ev, rules[0].effect, met);
    }
  }

  /** Whenever a check may use the cache, its answer does not depend on the runtime context. */
  lemma CacheableIgnoresContext(rules: seq<Rule>, q: Query, ev: Evaluator, now: int)
    requires !Bypasses(rules, q)
    ensures Evaluate(rules, q, ev, now) == Evaluate(rules, q.WithoutContext(), ev, now)
  {
    var bare := q.WithoutContext();
    if q != bare {
      FilterCongruence(Selector(q, now), Selector(bare, now), Sort(ByPriority, rules));
      ApplicableMembers(rules, q, now);
      DecideIgnoresQuery(Applicable(rules, q, now), q, bare, ev, Deny, map[]);
    }
  }

  // ---- Histories ----

  /** What a manager without a cache would answer. */
  function FreshAnswer(m: Manager, q: Query, ev: Evaluator, now: int): Decision {
    if m.enabled then Evaluate(m.rules, q, ev, now) else DISABLED
  }

  /** The request whose evaluation filled a cache entry, and when. */
  datatype Origin = Origin(query: Query, time: int)

  /** `origins` is bookkeeping of the model: where each cache entry came from. */
  datatype World = World(manager: Manager, now: int, origins: map<string, Origin>)

  datatype Event =
    | Add(rule: Rule)
    | Remove(id: string)
    | Ask(q: Query)
    | Toggle(enabled: bool)
    | Tick(now: int)

  predicate Stores(m: Manager, q: Query) {
    m.enabled && !Bypasses(m.rules, q) && Key(q) !in m.cache
  }

  function Step(w: World, e: Event, ev: Evaluator): World {
    match e
    case Add(rule) => World(AddRule(w.manager, rule), w.now, map[])
    case Remove(id) => World(RemoveRule(w.manager, id), w.now, map[])
    case Ask(q) =>
      World(Check(w.manager, q, ev, w.now).0, w.now,
            if Stores(w.manager, q) then w.origins[Key(q) := Origin(q, w.now)] else w.origins)
    case Toggle(enabled) => w.(manager := w.manager.(enabled := enabled))
    case Tick(now) => w.(now := now)
  }

  function Run(w: World, events: seq<Event>, ev: Evaluator): World
    decreases |events|
  {
    if events == [] then w else Run(Step(w, events[0], ev), events[1..], ev)
  }

  function Empty(enabled: bool, now: int): World {
    World(Manager(enabled, [], map[]), now, map[])
  }

  /** As time passes a decision stays what a fresh evaluation gives exactly while
      none of the rules it applied has expired. */
  lemma DecisionStaysFreshIff(rules: seq<Rule>, q: Query, ev: Evaluator, now: int, later: int)
    requires now <= later
    ensures
      Evaluate(rules, q, ev, now) == Evaluate(rules, q, ev, later) <==>
      forall r | r in Evaluate(rules, q, ev, now).appliedRules :: !Expired(r, later)
  {
    ApplicableMembers(rules, q, now);
    ApplicableMembers(rules, q, later);
    if forall r | r in Applicable(rules, q, now) :: !Expired(r, later) {
      SameApplicable(rules, q, q, now, later);
    }
  }

  lemma SameApplicable(rules: seq<Rule>, q: Query, q': Query, now: int, later: int)
    requires forall r | r in rules :: Applies(r, q, now) == Applies(r, q', later)
    ensures Applicable(rules, q, now) == Applicable(rules, q', later)
  {
    var sorted := Sort(ByPriority, rules);
    SortPermutes(ByPriority, rules);
    forall r | r in sorted
      ensures Selector(q, now)(r) == Selector(q', later)(r)
    {
      assert r in multiset(sorted);
    }
    FilterCongruence(Selector(q, now), Selector(q', later), sorted);
  }

  // ---- Where cached decisions come from ----

  /** Every cached decision is the evaluation of its origin, on the rules now in place. */
  ghost predicate Traced(w: World, ev: Evaluator) {
    && w.origins.Keys == w.manager.cache.Keys
    && forall k | k in w.origins ::
         && Key(w.origins[k].query) == k
         && w.manager.cache[k] == Evaluate(w.manager.rules, w.origins[k].query.WithoutContext(), ev, w.origins[k].time)
  }

  lemma StepKeepsTraced(w: World, e: Event, ev: Evaluator)
    requires Traced(w, ev)
    ensures Traced(Step(w, e, ev), ev)
  {
    if e.Ask? && Stores(w.manager, e.q) {
      CacheableIgnoresContext(w.manager.rules, e.q, ev, w.now);
    }
  }

  lemma {:induction false} RunKeepsTraced(w: World, events: seq<Event>, ev: Evaluator)
    requires Traced(w, ev)
    ensures Traced(Run(w, events, ev), ev)
    decreases |events|
  {
    if events != [] {
      StepKeepsTraced(w, events[0], ev);
      RunKeepsTraced(Step(w, events[0], ev), events[1..], ev);
    }
  }

  /** After any history whatever, each cached decision is what evaluating some
      earlier request with its key gave, under the rules now in place. */
  lemma CacheIsTraced(enabled: bool, start: int, events: seq<Event>, ev: Evaluator)
    ensures Traced(Run(Empty(enabled, start), events, ev), ev)
  {
    RunKeepsTraced(Empty(enabled, start), events, ev);
  }

  // ---- The conditions an evaluation looks at ----

  function LooksIn(cs: seq<Condition>, q: Query, ev: Evaluator): seq<Condition> {
    if cs == [] then []
    else [cs[0]] + if ev(cs[0], q.user, q.Context()) then LooksIn(cs[1..], q, ev) else []
  }

  /** The conditions of the rules that the loop looks at, in order. */
  function Looks(rules: seq<Rule>, q: Query, ev: Evaluator, effect: Effect): seq<Condition> {
    if rules == [] then []
    else
      var r := rules[0];
      var effect' := if !r.effect.Conditional? then r.effect else if AllMet(r, q, ev) then Allow else effect;
      (if r.effect.Conditional? then LooksIn(r.conditions, q, ev) else [])
      + if effect' == Deny then [] else Looks(rules[1..], q, ev, effect')
  }

  /** The evaluator judges these conditions alike for both queries. */
  predicate AgreeOn(cs: seq<Condition>, s: Query, q: Query, ev: Evaluator) {
    forall c | c in cs :: ev(c, s.user, s.Context()) == ev(c, q.user, q.Context())
  }

  function RecordKeys(id: string, cs: seq<Condition>): seq<string> {
    if cs == [] then [] else [id + ":" + cs[0].kind] + RecordKeys(id, cs[1..])
  }

  /** The keys under which the rules' conditions are recorded. */
  function ConditionKeys(rules: seq<Rule>): seq<string> {
    if rules == [] then []
    else
      (if rules[0].effect.Conditional? then RecordKeys(rules[0].id, rules[0].conditions) else [])
      + ConditionKeys(rules[1..])
  }

  predicate Distinct(keys: seq<string>) {
    forall i, j | 0 <= i < j < |keys| :: keys[i] != keys[j]
  }

  lemma DistinctParts(a: seq<string>, b: seq<string>)
    requires Distinct(a + b)
    ensures Distinct(a) && Distinct(b) && forall k | k in a :: k !in b
  {
    assert forall i | 0 <= i < |a| :: (a + b)[i] == a[i];
    assert forall j | 0 <= j < |b| :: (a + b)[|a| + j] == b[j];
  }

  predicate SameEntry(a: map<string, bool>, b: map<string, bool>, k: string) {
    (k in a <==> k in b) && (k in a ==> a[k] == b[k])
  }

  lemma {:induction false} MeetKeepsOthers(
    id: string, cs: seq<Condition>, q: Query, ev: Evaluator, met: map<string, bool>, k: string)
    requires k !in RecordKeys(id, cs)
    ensures SameEntry(Meet(id, cs, q, ev, met).1, met, k)
  {
    if cs != [] && ev(cs[0], q.user, q.Context()) {
      MeetKeepsOthers(id, cs[1..], q, ev, met[id + ":" + cs[0].kind := true], k);
    }
  }

  lemma {:induction false} DecideKeepsOthers(
    rules: seq<Rule>, q: Query, ev: Evaluator, effect: Effect, met: map<string, bool>, k: string)
    requires k !in ConditionKeys(rules)
    ensures SameEntry(Decide(rules, q, ev, effect, met).1, met, k)
  {
    if rules != [] {
      var r := rules[0];
      var (all, met') := if r.effect.Conditional? then Meet(r.id, r.conditions, q, ev, met) else (false, met);
      var effect' := if !r.effect.Conditional? then r.effect else if all then Allow else effect;
      if r.effect.Conditional? {
        MeetKeepsOthers(r.id, r.conditions, q, ev, met, k);
      }
      DecideKeepsOthers(rules[1..], q, ev, effect', met', k);
    }
  }

  lemma {:induction false} MeetAgrees(
    id: string, cs: seq<Condition>, s: Query, q: Query, ev: Evaluator, met: map<string, bool>)
    requires AgreeOn(LooksIn(cs, s, ev), s, q, ev)
    ensures Meet(id, cs, s, ev, met) == Meet(id, cs, q, ev, met)
  {
    if cs != [] {
      assert cs[0] in LooksIn(cs, s, ev);
      var ok := ev(cs[0], s.user, s.Context());
      if ok {
        assert forall c | c in LooksIn(cs[1..], s, ev) :: c in LooksIn(cs, s, ev);
        MeetAgrees(id, cs[1..], s, q, ev, met[id + ":" + cs[0].kind := ok]);
      }
    }
  }

  /** A condition looked at and judged differently shows in the record. */
  lemma {:induction false} MeetDiffers(
    id: string, cs: seq<Condition>, s: Query, q: Query, ev: Evaluator, met: map<string, bool>) returns (k: string)
    requires !AgreeOn(LooksIn(cs, s, ev), s, q, ev) && Distinct(RecordKeys(id, cs))
    ensures k in RecordKeys(id, cs)
    ensures !SameEntry(Meet(id, cs, s, ev, met).1, Meet(id, cs, q, ev, met).1, k)
  {
    k := id + ":" + cs[0].kind;
    DistinctParts([k], RecordKeys(id, cs[1..]));
    var ok, ok' := ev(cs[0], s.user, s.Context()), ev(cs[0], q.user, q.Context());
    if ok != ok' {
      MeetKeepsOthers(id, cs[1..], s, ev, met[k := true], k);
      MeetKeepsOthers(id, cs[1..], q, ev, met[k := true], k);
    } else {
      k := MeetDiffers(id, cs[1..], s, q, ev, met[k := ok]);
    }
  }

  lemma AgreeOnParts(a: seq<Condition>, b: seq<Condition>, s: Query, q: Query, ev: Evaluator)
    requires AgreeOn(a + b, s, q, ev)
    ensures AgreeOn(a, s, q, ev) && AgreeOn(b, s, q, ev)
  {
    assert forall c | c in a :: c in a + b;
    assert forall c | c in b :: c in a + b;
  }

  lemma {:induction false} DecideAgrees(
    rules: seq<Rule>, s: Query, q: Query, ev: Evaluator, effect: Effect, met: map<string, bool>)
    requires AgreeOn(Looks(rules, s, ev, effect), s, q, ev)
    ensures Decide(rules, s, ev, effect, met) == Decide(rules, q, ev, effect, met)
  {
    if rules != [] {
      var r, rest := rules[0], rules[1..];
      if r.effect.Conditional? {
        var (all, met') := Meet(r.id, r.conditions, s, ev, met);
        var effect' := if all then Allow else effect;
        MeetIsAllMet(r.id, r.conditions, s, ev, met);
        var later := if effect' == Deny then [] else Looks(rest, s, ev, effect');
        AgreeOnParts(LooksIn(r.conditions, s, ev), later, s, q, ev);
        MeetAgrees(r.id, r.conditions, s, q, ev, met);
        if effect' != Deny {
          DecideAgrees(rest, s, q, ev, effect', met');
        }
      } else if r.effect != Deny {
        assert Looks(rules, s, ev, effect) == Looks(rest, s, ev, r.effect);
        DecideAgrees(rest, s, q, ev, r.effect, met);
      }
    }
  }

  lemma RuleDiffers(
    rules: seq<Rule>, s: Query, q: Query, ev: Evaluator, effect: Effect, met: map<string, bool>) returns (k: string)
    requires rules != [] && rules[0].effect.Conditional? && Distinct(ConditionKeys(rules))
    requires !AgreeOn(LooksIn(rules[0].conditions, s, ev), s, q, ev)
    ensures k in ConditionKeys(rules)
    ensures !SameEntry(Decide(rules, s, ev, effect, met).1, Decide(rules, q, ev, effect, met).1, k)
  {
    var r, rest := rules[0], rules[1..];
    DistinctParts(RecordKeys(r.id, r.conditions), ConditionKeys(rest));
    k := MeetDiffers(r.id, r.conditions, s, q, ev, met);
    var (all, met') := Meet(r.id, r.conditions, s, ev, met);
    var (all', met'') := Meet(r.id, r.conditions, q, ev, met);
    DecideKeepsOthers(rest, s, ev, if all then Allow else effect, met', k);
    DecideKeepsOthers(rest, q, ev, if all' then Allow else effect, met'', k);
  }

  lemma {:induction false} DecideDiffers(
    rules: seq<Rule>, s: Query, q: Query, ev: Evaluator, effect: Effect, met: map<string, bool>) returns (k: string)
    requires !AgreeOn(Looks(rules, s, ev, effect), s, q, ev) && Distinct(ConditionKeys(rules))
    ensures k in ConditionKeys(rules)
    ensures !SameEntry(Decide(rules, s, ev, effect, met).1, Decide(rules, q, ev, effect, met).1, k)
  {
    var r, rest := rules[0], rules[1..];
    if !r.effect.Conditional? {
      assert ConditionKeys(rules) == ConditionKeys(rest);
      k := DecideDiffers(rest, s, q, ev, r.effect, met);
    } else if AgreeOn(LooksIn(r.conditions, s, ev), s, q, ev) {
      DistinctParts(RecordKeys(r.id, r.conditions), ConditionKeys(rest));
      MeetIsAllMet(r.id, r.conditions, s, ev, met);
      MeetAgrees(r.id, r.conditions, s, q, ev, met);
      var (all, met') := Meet(r.id, r.conditions, s, ev, met);
      k := DecideDiffers(rest, s, q, ev, if all then Allow else effect, met');
    } else {
      k := RuleDiffers(rules, s, q, ev, effect, met);
    }
  }

  /** The same rules give both queries the same verdict and the same record of conditions. */
  predicate SameOutcome(rules: seq<Rule>, s: Query, q: Query, ev: Evaluator) {
    var (effect, met) := Decide(rules, s, ev, Deny, map[]);
    var (effect', met') := Decide(rules, q, ev, Deny, map[]);
    (effect == Allow <==> effect' == Allow) && met == met'
  }

  /** They do if the conditions looked at are judged alike; and only then, when no two
      conditions are recorded under one key. */
  lemma SameOutcomeIff(rules: seq<Rule>, s: Query, q: Query, ev: Evaluator)
    ensures AgreeOn(Looks(rules, s, ev, Deny), s, q, ev) ==> SameOutcome(rules, s, q, ev)
    ensures
      Distinct(ConditionKeys(rules)) ==>
      (SameOutcome(rules, s, q, ev) <==> AgreeOn(Looks(rules, s, ev, Deny), s, q, ev))
  {
    if AgreeOn(Looks(rules, s, ev, Deny), s, q, ev) {
      DecideAgrees(rules, s, q, ev, Deny, map[]);
    } else if Distinct(ConditionKeys(rules)) {
      var k := DecideDiffers(rules, s, q, ev, Deny, map[]);
    }
  }

  // ---- When a cached answer is the fresh one ----

  lemma ReasonIdentifies(a: Query, b: Query, none: bool, none': bool, allowed: bool, allowed': bool)
    requires a.Permission() == b.Permission()
    requires Reason(none, allowed, a) == Reason(none', allowed', b)
    ensures a.id == b.id
  {
    var x, y := Reason(none, allowed, a), Reason(none', allowed', b);
    var verb := if allowed then " granted for " else " denied for ";
    var verb' := if allowed' then " granted for " else " denied for ";
    var value := PermissionValue(a.Permission());
    assert x[0] == if none then 'N' else 'P';
    assert y[0] == if none' then 'N' else 'P';
    assert a.ResourceType() == b.ResourceType();
    var none0 := "No matching rules found for " + a.ResourceType() + " ";
    if none {
      assert x[|none0|..] == a.id && y[|none0|..] == b.id;
    } else {
      var k := |"Permission "| + |value| + 1;
      assert x[k] == verb[1] && y[k] == verb'[1];
      assert verb == verb';
      var front := "Permission " + value + verb + a.ResourceType() + " ";
      assert x[|front|..] == a.id && y[|front|..] == b.id;
    }
  }

  /** One evaluation equals another for the same kind of request exactly when it is for
      the same resource, the same rules apply, and they have the same outcome for both. */
  lemma EvaluationsAgreeIff(rules: seq<Rule>, s: Query, q: Query, ev: Evaluator, earlier: int, now: int)
    requires s.Permission() == q.Permission()
    ensures
      Evaluate(rules, s, ev, earlier) == Evaluate(rules, q, ev, now) <==>
      && s.id == q.id
      && (forall r | r in rules :: Applies(r, s, earlier) == Applies(r, q, now))
      && SameOutcome(Applicable(rules, s, earlier), s, q, ev)
  {
    var before, after := Evaluate(rules, s, ev, earlier), Evaluate(rules, q, ev, now);
    if before == after {
      ReasonIdentifies(s, q, before.appliedRules == [], after.appliedRules == [], before.allowed, after.allowed);
      ApplicableMembers(rules, s, earlier);
      ApplicableMembers(rules, q, now);
    }
    if forall r | r in rules :: Applies(r, s, earlier) == Applies(r, q, now) {
      SameApplicable(rules, s, q, earlier, now);
    }
  }

  /** The check answers from the cache rather than by evaluating. */
  predicate Served(m: Manager, q: Query) {
    m.enabled && !Bypasses(m.rules, q) && Key(q) in m.cache
  }

  /** The origin of the entry asked about the same resource, exactly the same rules still
      apply, and for the user as he is now they have the same outcome. */
  predicate OriginStands(w: World, o: Origin, q: Query, ev: Evaluator) {
    var s, rules := o.query.WithoutContext(), w.manager.rules;
    && s.id == q.id
    && (forall r | r in rules :: Applies(r, s, o.time) == Applies(r, q, w.now))
    && SameOutcome(Applicable(rules, s, o.time), s, q.WithoutContext(), ev)
  }

  /** Same key and same resource mean the same user id. */
  lemma SameKeySameResource(a: Query, b: Query)
    requires Key(a) == Key(b)
    ensures a.Permission() == b.Permission()
    ensures a.id == b.id ==> a.user.userId == b.user.userId
  {
    KeysCollideIff(a, b);
    if a.id == b.id {
      var t := a.id + ":" + a.user.userId;
      assert t[|a.id| + 1..] == a.user.userId;
      assert (b.id + ":" + b.user.userId)[|b.id| + 1..] == b.user.userId;
    }
  }

  /**
   After any history of rule changes, checks, toggles and clock movements, a
   check answers as a fresh evaluation would if and only if it does not use the
   cache, or the request that filled its entry was for the same resource, the
   rules that applied to that request then are those that apply now, and they
   have the same outcome. Users may have changed under their id meanwhile.
   */
  lemma CachedAnswerIsFreshIff(enabled: bool, start: int, events: seq<Event>, q: Query, ev: Evaluator)
    ensures
      var w := Run(Empty(enabled, start), events, ev);
      && (Served(w.manager, q) ==> Key(q) in w.origins)
      && (Check(w.manager, q, ev, w.now).1 == FreshAnswer(w.manager, q, ev, w.now) <==>
          (Served(w.manager, q) ==> OriginStands(w, w.origins[Key(q)], q, ev)))
  {
    CacheIsTraced(enabled, start, events, ev);
    var w := Run(Empty(enabled, start), events, ev);
    if Served(w.manager, q) {
      ServedIsFreshIff(w, q, ev);
    }
  }

  lemma ServedIsFreshIff(w: World, q: Query, ev: Evaluator)
    requires Traced(w, ev) && Served(w.manager, q)
    ensures
      w.manager.cache[Key(q)] == Evaluate(w.manager.rules, q, ev, w.now) <==>
      OriginStands(w, w.origins[Key(q)], q, ev)
  {
    var o, rules := w.origins[Key(q)], w.manager.rules;
    var s, bare := o.query.WithoutContext(), q.WithoutContext();
    SameKeySameResource(o.query, q);
    CacheableIgnoresContext(rules, q, ev, w.now);
    assert forall r :: Applies(r, bare, w.now) == Applies(r, q, w.now);
    EvaluationsAgreeIff(rules, s, bare, ev, o.time, w.now);
  }

  // ---- Clocks that only move forward ----

  predicate Forward(now: int, events: seq<Event>)
    decreases |events|
  {
    events == [] ||
    (if events[0].Tick? then now <= events[0].now && Forward(events[0].now, events[1..]) else Forward(now, events[1..]))
  }

  ghost predicate OriginsPast(w: World) {
    forall k | k in w.origins :: w.origins[k].time <= w.now
  }

  lemma {:induction false} ForwardKeepsOriginsPast(w: World, events: seq<Event>, ev: Evaluator)
    requires OriginsPast(w) && Forward(w.now, events)
    ensures OriginsPast(Run(w, events, ev))
    decreases |events|
  {
    if events != [] {
      ForwardKeepsOriginsPast(Step(w, events[0], ev), events[1..], ev);
    }
  }

  /** What the cached decision applied is still what applies, to the user as he is now. */
  predicate StillApplied(d: Decision, rules: seq<Rule>, q: Query, now: int) {
    && (forall r | r in d.appliedRules :: !Expired(r, now) && AppliesToUser(r, q.user))
    && (forall r | r in rules && Applies(r, q, now) :: r in d.appliedRules)
  }

  /**
   With a forward clock a served answer is fresh if and only if its origin was
   for the same resource, none of the rules it applied has expired or stopped
   applying to the user, no other rule applies, and they have the same outcome.
   For an unchanged user only expiry is left.
   */
  lemma {:induction false} ServedUntilExpiryIff(enabled: bool, start: int, events: seq<Event>, q: Query, ev: Evaluator)
    requires Forward(start, events)
    requires Served(Run(Empty(enabled, start), events, ev).manager, q)
    ensures
      var w := Run(Empty(enabled, start), events, ev);
      && Key(q) in w.origins
      && var s, d := w.origins[Key(q)].query, w.manager.cache[Key(q)];
         var current := Check(w.manager, q, ev, w.now).1 == FreshAnswer(w.manager, q, ev, w.now);
         && (current <==>
             && s.id == q.id && StillApplied(d, w.manager.rules, q, w.now)
             && SameOutcome(d.appliedRules, s.WithoutContext(), q.WithoutContext(), ev))
         && (s.user == q.user ==>
             (current <==> s.id == q.id && forall r | r in d.appliedRules :: !Expired(r, w.now)))
  {
    var w := Run(Empty(enabled, start), events, ev);
    CacheIsTraced(enabled, start, events, ev);
    CachedAnswerIsFreshIff(enabled, start, events, q, ev);
    ForwardKeepsOriginsPast(Empty(enabled, start), events, ev);
    StandsWhileApplied(w, q, ev);
    if w.origins[Key(q)].query.user == q.user && w.origins[Key(q)].query.id == q.id {
      SameUserUntilExpiry(w, q, ev);
    }
  }

  lemma OriginApplied(w: World, q: Query, ev: Evaluator)
    requires Traced(w, ev) && Key(q) in w.origins
    ensures
      var o, d := w.origins[Key(q)], w.manager.cache[Key(q)];
      && o.query.ResourceType() == q.ResourceType() && o.query.Permission() == q.Permission()
      && d.appliedRules == Applicable(w.manager.rules, o.query.WithoutContext(), o.time)
      && forall r :: r in d.appliedRules <==> r in w.manager.rules && Applies(r, o.query.WithoutContext(), o.time)
  {
    var o := w.origins[Key(q)];
    SameKeySameResource(o.query, q);
    ApplicableMembers(w.manager.rules, o.query.WithoutContext(), o.time);
  }

  lemma {:induction false} StandsWhileApplied(w: World, q: Query, ev: Evaluator)
    requires Traced(w, ev) && Key(q) in w.origins
    ensures
      var s, d := w.origins[Key(q)].query, w.manager.cache[Key(q)];
      OriginStands(w, w.origins[Key(q)], q, ev) <==>
      && s.id == q.id && StillApplied(d, w.manager.rules, q, w.now)
      && SameOutcome(d.appliedRules, s.WithoutContext(), q.WithoutContext(), ev)
  {
    OriginApplied(w, q, ev);
    var o, d := w.origins[Key(q)], w.manager.cache[Key(q)];
    var s := o.query.WithoutContext();
    if s.id == q.id {
      assert forall r | r in d.appliedRules ::
          Applies(r, q, w.now) <==> !Expired(r, w.now) && AppliesToUser(r, q.user);
      assert StillApplied(d, w.manager.rules, q, w.now) <==>
          forall r | r in w.manager.rules :: Applies(r, s, o.time) == Applies(r, q, w.now);
    }
  }

  lemma {:induction false} SameUserUntilExpiry(w: World, q: Query, ev: Evaluator)
    requires Traced(w, ev) && Key(q) in w.origins && w.origins[Key(q)].time <= w.now
    requires w.origins[Key(q)].query.user == q.user && w.origins[Key(q)].query.id == q.id
    ensures
      var s, d := w.origins[Key(q)].query, w.manager.cache[Key(q)];
      && s.WithoutContext() == q.WithoutContext()
      && (StillApplied(d, w.manager.rules, q, w.now) <==> forall r | r in d.appliedRules :: !Expired(r, w.now))
  {
    OriginApplied(w, q, ev);
  }

  // ---- Histories in which the cache is transparent ----

  /** One user record per user id, and no user id contains the key separator. */
  type Directory = map<string, User>

  predicate Known(dir: Directory, u: User) {
    u.userId in dir && dir[u.userId] == u && ':' !in u.userId
  }

  /** Time may move as long as no rule in place expires, or comes back, meanwhile. */
  predicate Allowed(w: World, e: Event, dir: Directory) {
    match e
    case Ask(q) => Known(dir, q.user)
    case Tick(now) => forall r | r in w.manager.rules :: Expired(r, w.now) == Expired(r, now)
    case _ => true
  }

  predicate AllAllowed(w: World, events: seq<Event>, dir: Directory, ev: Evaluator)
    decreases |events|
  {
    events == [] || (Allowed(w, events[0], dir) && AllAllowed(Step(w, events[0], ev), events[1..], dir, ev))
  }

  ghost predicate OriginsCurrent(w: World, dir: Directory) {
    forall k | k in w.origins ::
      && Known(dir, w.origins[k].query.user)
      && forall r | r in w.manager.rules :: Expired(r, w.origins[k].time) == Expired(r, w.now)
  }

  lemma {:induction false} AllowedKeepsOriginsCurrent(w: World, events: seq<Event>, dir: Directory, ev: Evaluator)
    requires OriginsCurrent(w, dir) && AllAllowed(w, events, dir, ev)
    ensures OriginsCurrent(Run(w, events, ev), dir)
    decreases |events|
  {
    if events != [] {
      AllowedKeepsOriginsCurrent(Step(w, events[0], ev), events[1..], dir, ev);
    }
  }

  /** With user ids free of ':', one record each, and no rule expiring meanwhile, the
      cache never changes an answer: every origin stands. */
  lemma CacheIsTransparent(
    enabled: bool, start: int, events: seq<Event>, q: Query, dir: Directory, ev: Evaluator)
    requires AllAllowed(Empty(enabled, start), events, dir, ev)
    requires Known(dir, q.user)
    ensures
      var w := Run(Empty(enabled, start), events, ev);
      Check(w.manager, q, ev, w.now).1 == FreshAnswer(w.manager, q, ev, w.now)
  {
    var w := Run(Empty(enabled, start), events, ev);
    AllowedKeepsOriginsCurrent(Empty(enabled, start), events, dir, ev);
    CacheIsTraced(enabled, start, events, ev);
    if Served(w.manager, q) {
      KeyIdentifies(w.origins[Key(q)].query, q);
      SameKeySameResource(w.origins[Key(q)].query, q);
      assert w.origins[Key(q)].query.WithoutContext() == q.WithoutContext();
      assert OriginStands(w, w.origins[Key(q)], q, ev);
    }
    CachedAnswerIsFreshIff(enabled, start, events, q, ev);
  }

  // ---- Histories in which it is not ----

  lemma LoneAllowGrantsUntilExpiry(rule: Rule, q: Query, ev: Evaluator, now: int)
    requires rule.effect == Allow && Matches(rule, q)
    ensures Evaluate([rule], q, ev, now).allowed <==> !Expired(rule, now)
  {
    EvaluateClosedForm([rule], q, ev, now);
    if !Expired(rule, now) {
      assert IsLeader([rule], 0, q, now);
    }
  }

  /** Why expiry is set aside: a decision cached before a rule expires is still served afterwards. */
  lemma CachedDecisionOutlivesItsRule(rule: Rule, q: Query, ev: Evaluator, before: int, after: int)
    requires rule.effect == Allow && Matches(rule, q) && !Expired(rule, before) && Expired(rule, after)
    ensures
      var w := Run(Empty(true, before), [Add(rule), Ask(q), Tick(after)], ev);
      Check(w.manager, q, ev, w.now).1.allowed && !FreshAnswer(w.manager, q, ev, w.now).allowed
  {
    var w0 := Empty(true, before);
    var w1 := Step(w0, Add(rule), ev);
    var w2 := Step(w1, Ask(q), ev);
    var w3 := Step(w2, Tick(after), ev);
    assert [Add(rule), Ask(q), Tick(after)][1..] == [Ask(q), Tick(after)];
    assert [Ask(q), Tick(after)][1..] == [Tick(after)] && [Tick(after)][1..] == [];
    assert Run(w2, [Tick(after)], ev) == w3;
    assert Run(w1, [Ask(q), Tick(after)], ev) == w3;
    assert w1.manager.rules == [rule];
    LoneAllowGrantsUntilExpiry(rule, q, ev, before);
    LoneAllowGrantsUntilExpiry(rule, q, ev, after);
    assert !Bypasses([rule], q);
    assert w3.manager.cache[Key(q)] == Evaluate([rule], q, ev, before);
  }

  /** Why one record per user is assumed there: a user who has lost the role that a rule
      asks for is still served what the rule had granted. */
  lemma LostRoleIsStillServed(rule: Rule, a: User, b: User, permission: NodePermission, ev: Evaluator)
    requires a.userId == b.userId && rule.role != "" && rule.role in a.roles && rule.role !in b.roles
    requires rule.userId == "" && rule.tenantId == "" && rule.effect == Allow && rule.expiresAt.Never?
    requires rule.resourceType == "node" && rule.permission == OnNode(permission)
    ensures
      var asked := NodeQuery(a, rule.resourceId, permission, map[]);
      var q := NodeQuery(b, rule.resourceId, permission, map[]);
      var w := Run(Empty(true, 0), [Add(rule), Ask(asked)], ev);
      Check(w.manager, q, ev, w.now).1.allowed && !FreshAnswer(w.manager, q, ev, w.now).allowed
  {
    var asked := NodeQuery(a, rule.resourceId, permission, map[]);
    var q := NodeQuery(b, rule.resourceId, permission, map[]);
    AllowIsServed(rule, asked, q, ev);
    EvaluateClosedForm([rule], q, ev, 0);
  }

  /** An allow that one request has put in the cache is served to another with its key. */
  lemma AllowIsServed(rule: Rule, asked: Query, q: Query, ev: Evaluator)
    requires rule.effect == Allow && rule.expiresAt.Never? && Matches(rule, asked) && Key(asked) == Key(q)
    ensures
      var w := Run(Empty(true, 0), [Add(rule), Ask(asked)], ev);
      && w.now == 0 && w.manager.rules == [rule] && w.manager.enabled
      && Check(w.manager, q, ev, w.now).1.allowed
  {
    var w0 := Empty(true, 0);
    var w1 := Step(w0, Add(rule), ev);
    var w2 := Step(w1, Ask(asked), ev);
    assert [Add(rule), Ask(asked)][1..] == [Ask(asked)] && [Ask(asked)][1..] == [];
    assert Run(w1, [Ask(asked)], ev) == w2;
    assert w1.manager.rules == [rule] && w2.manager.rules == [rule];
    LoneAllowGrantsUntilExpiry(rule, asked, ev, 0);
    assert !Bypasses([rule], asked) && !Bypasses([rule], q);
    assert w2.manager.cache[Key(q)] == Evaluate([rule], asked, ev, 0);
  }

  /** Why ':' in user ids is set aside: a decision made for one user is served to another,
      who asks about another resource that no rule covers. */
  lemma SeparatorInUserIdCollides(rule: Rule, a: User, b: User, permission: NodePermission, ev: Evaluator)
    requires a.userId == "b:c" && b.userId == "c"
    requires rule.effect == Allow && rule.expiresAt.Never? && rule.userId == "b:c"
    requires rule.resourceType == "node" && rule.resourceId == "a" && rule.permission == OnNode(permission)
    ensures
      var asked := NodeQuery(a, "a", permission, map[]);
      var q := NodeQuery(b, "a:b", permission, map[]);
      var w := Run(Empty(true, 0), [Add(rule), Ask(asked)], ev);
      Check(w.manager, q, ev, w.now).1.allowed && !FreshAnswer(w.manager, q, ev, w.now).allowed
  {
    var asked, q := NodeQuery(a, "a", permission, map[]), NodeQuery(b, "a:b", permission, map[]);
    assert asked.id + ":" + asked.user.userId == q.id + ":" + q.user.userId;
    KeysCollideIff(asked, q);
    AllowIsServed(rule, asked, q, ev);
    assert |rule.resourceId| != |q.id|;
    EvaluateClosedForm([rule], q, ev, 0);
  }
}

/**
 * Evaluation of one IAM policy against one action: a tri-state verdict per
 * statement, folded over the statements of the policy's document in order.
 * Resource, NotResource and Condition are not evaluated (every statement
 * counts as matching them).
 */
module Policy {
  import opened Wrappers
  import opened PatternMatch

  datatype PermissionResult = Permitted | Denied | Neutral

  /** The value of an `Action` or `NotAction` key: one pattern string, or a list of them. */
  datatype PatternList = One(pattern: string) | Many(patterns: seq<string>)

  /**
   * Which of the two keys a statement carries. A statement that carries both is
   * represented by its `NotAction`, the key the evaluation looks at first.
   */
  datatype ActionElement = Action(value: PatternList) | NotAction(value: PatternList)

  datatype Statement = Statement(effect: string, element: ActionElement)

  datatype PolicyDocument = PolicyDocument(statements: seq<Statement>)

  datatype PolicyVersion = PolicyVersion(isDefault: bool, document: PolicyDocument)

  datatype ManagedPolicy = ManagedPolicy(name: string, versions: seq<PolicyVersion>)

  /**
   * A policy as the directory hands it over: a managed policy with versions, or
   * the document of an inline policy (already parsed from its JSON text).
   */
  datatype StoredPolicy = Managed(policy: ManagedPolicy) | Inline(document: PolicyDocument)

  /** The patterns of an element value; a single string counts as a one-element list. */
  function Patterns(v: PatternList): seq<string> {
    match v
    case One(p) => [p]
    case Many(ps) => ps
  }

  /** Some pattern of the list matches the action (the loop with early return over a list). */
  function AnyMatch(ps: seq<string>, action: string): (r: bool)
    ensures r <==> exists k :: 0 <= k < |ps| && Match(ps[k], action)
  {
    if ps == [] then false
    else
      assert forall k :: 0 < k < |ps| ==> ps[k] == ps[1..][k - 1];
      Match(ps[0], action) || AnyMatch(ps[1..], action)
  }

  /** `_check_element_matches`: a single string is matched directly, a list by any of its entries. */
  function ElementMatches(v: PatternList, action: string): (r: bool)
    ensures r <==> exists k :: 0 <= k < |Patterns(v)| && Match(Patterns(v)[k], action)
  {
    match v
    case One(p) =>
      assert Patterns(v)[0] == p;
      Match(p, action)
    case Many(ps) =>
      assert Patterns(v) == ps;
      AnyMatch(ps, action)
  }

  /** Reference definition: the statement is about the action. */
  ghost predicate Concerns(st: Statement, action: string) {
    var ps := Patterns(st.element.value);
    if st.element.NotAction? then forall k :: 0 <= k < |ps| ==> !Match(ps[k], action)
    else exists k :: 0 <= k < |ps| && Match(ps[k], action)
  }

  /**
   * `IAMPolicyStatement.is_action_permitted`: a statement that concerns the
   * action permits it when its effect is exactly "Allow" and denies it for any
   * other effect; a statement that does not concern it is neutral.
   */
  function StatementVerdict(st: Statement, action: string): (r: PermissionResult)
    ensures r == Neutral <==> !Concerns(st, action)
    ensures r == Permitted <==> Concerns(st, action) && st.effect == "Allow"
    ensures r == Denied <==> Concerns(st, action) && st.effect != "Allow"
  {
    var concerned :=
      match st.element
      case NotAction(v) => !ElementMatches(v, action)
      case Action(v) => ElementMatches(v, action);
    if !concerned then Neutral
    else if st.effect == "Allow" then Permitted
    else Denied
  }

  /**
   * The fold shared by a document's statements and a principal's policies:
   * the first Denied ends it; otherwise Permitted if anything permitted.
   */
  function FoldVerdicts(vs: seq<PermissionResult>, permitted: bool): (r: PermissionResult)
    ensures r == Denied <==> Denied in vs
    ensures r == Permitted <==> Denied !in vs && (permitted || Permitted in vs)
  {
    if vs == [] then (if permitted then Permitted else Neutral)
    else if vs[0] == Denied then Denied
    else
      assert vs == [vs[0]] + vs[1..];
      FoldVerdicts(vs[1..], permitted || vs[0] == Permitted)
  }

  /** The verdict of each statement, in document order. */
  function Verdicts(stmts: seq<Statement>, action: string): (vs: seq<PermissionResult>)
    ensures |vs| == |stmts|
    ensures forall i :: 0 <= i < |stmts| ==> vs[i] == StatementVerdict(stmts[i], action)
  {
    seq(|stmts|, i requires 0 <= i < |stmts| => StatementVerdict(stmts[i], action))
  }

  /** A verdict occurs among a document's verdicts iff some statement of it has that verdict. */
  lemma VerdictsMembers(stmts: seq<Statement>, action: string)
    ensures forall v :: v in Verdicts(stmts, action) <==> exists st :: st in stmts && StatementVerdict(st, action) == v
  {
    var vs := Verdicts(stmts, action);
    forall v ensures v in vs <==> exists st :: st in stmts && StatementVerdict(st, action) == v {
      if v in vs {
        var i :| 0 <= i < |vs| && vs[i] == v;
        assert stmts[i] in stmts;
      }
      if exists st :: st in stmts && StatementVerdict(st, action) == v {
        var st :| st in stmts && StatementVerdict(st, action) == v;
        var i :| 0 <= i < |stmts| && stmts[i] == st;
        assert vs[i] == v;
      }
    }
  }

  /**
   * The result of evaluating a document (the body of `IAMPolicy.is_action_permitted`).
   * A document denies iff one of its statements denies, whatever the order;
   * permits iff none denies and one permits; and is neutral iff every statement
   * is (so an empty document is neutral).
   */
  function DocumentVerdict(doc: PolicyDocument, action: string): (r: PermissionResult)
    ensures r == Denied <==> exists st :: st in doc.statements && StatementVerdict(st, action) == Denied
    ensures r == Permitted <==>
      (forall st :: st in doc.statements ==> StatementVerdict(st, action) != Denied) &&
      (exists st :: st in doc.statements && StatementVerdict(st, action) == Permitted)
    ensures r == Neutral <==> forall st :: st in doc.statements ==> StatementVerdict(st, action) == Neutral
  {
    VerdictsMembers(doc.statements, action);
    FoldVerdicts(Verdicts(doc.statements, action), false)
  }

  /** Reordering (or otherwise permuting) the statements does not change the verdict. */
  lemma DocumentVerdictOrderFree(d1: PolicyDocument, d2: PolicyDocument, action: string)
    requires multiset(d1.statements) == multiset(d2.statements)
    ensures DocumentVerdict(d1, action) == DocumentVerdict(d2, action)
  {
    assert forall st :: st in d1.statements <==> st in d2.statements by {
      forall st ensures st in d1.statements <==> st in d2.statements {
        assert st in d1.statements <==> st in multiset(d1.statements);
        assert st in d2.statements <==> st in multiset(d2.statements);
      }
    }
  }

  /** `{"Effect": "Allow", "Action": "*"}` permits every action. */
  lemma AllowEverythingPermits(action: string)
    requires SingleLine(action)
    ensures StatementVerdict(Statement("Allow", Action(One("*"))), action) == Permitted
  {
    StarMatchesEveryAction(action);
    assert Patterns(One("*"))[0] == "*";
  }

  /** A statement naming one literal action concerns exactly that action. */
  lemma LiteralStatementVerdict(effect: string, p: string, action: string)
    requires '*' !in p && SingleLine(action)
    ensures StatementVerdict(Statement(effect, Action(One(p))), action) ==
      if action != p then Neutral else if effect == "Allow" then Permitted else Denied
  {
    LiteralMatchesOnlyItself(p, action);
    assert Patterns(One(p))[0] == p;
  }

  /** A document of one statement has that statement's verdict. */
  lemma SingleStatementDocument(st: Statement, action: string)
    ensures DocumentVerdict(PolicyDocument([st]), action) == StatementVerdict(st, action)
  {
    var vs := Verdicts([st], action);
    assert vs == [StatementVerdict(st, action)];
    assert vs[1..] == [];
    if vs[0] != Denied {
      assert FoldVerdicts(vs, false) == FoldVerdicts([], vs[0] == Permitted);
    }
  }

  /** A document that allows one literal action permits exactly that action and is neutral on every other. */
  lemma LiteralAllowDocument(p: string, action: string)
    requires '*' !in p && SingleLine(action)
    ensures DocumentVerdict(PolicyDocument([Statement("Allow", Action(One(p)))]), action) ==
      if action == p then Permitted else Neutral
  {
    LiteralStatementVerdict("Allow", p, action);
    SingleStatementDocument(Statement("Allow", Action(One(p))), action);
  }

  /** The first version flagged default (Python's `next(...)` over the versions), if any. */
  function DefaultVersion(versions: seq<PolicyVersion>): (r: Option<nat>)
    ensures r.Some? ==> r.value < |versions| && versions[r.value].isDefault
    ensures forall j :: 0 <= j < |versions| && (r.None? || j < r.value) ==> !versions[j].isDefault
  {
    if versions == [] then None
    else if versions[0].isDefault then Some(0)
    else match DefaultVersion(versions[1..])
      case None => None
      case Some(i) => Some(i + 1)
  }

  /**
   * The document a policy is evaluated with: a managed policy's default
   * version, an inline policy's own document. A managed policy without a
   * default version has none (the source's `next` raises StopIteration).
   */
  function DefaultDocument(policy: StoredPolicy): (r: Option<PolicyDocument>)
    ensures policy.Inline? ==> r == Some(policy.document)
    ensures policy.Managed? ==>
      (r.None? <==> forall j :: 0 <= j < |policy.policy.versions| ==> !policy.policy.versions[j].isDefault)
    ensures policy.Managed? && r.Some? ==>
      DefaultVersion(policy.policy.versions).Some? &&
      r.value == policy.policy.versions[DefaultVersion(policy.policy.versions).value].document
  {
    match policy
    case Inline(doc) => Some(doc)
    case Managed(mp) =>
      match DefaultVersion(mp.versions)
      case None => None
      case Some(i) => Some(mp.versions[i].document)
  }

  /** The verdict of one stored policy on an action; None when it has no default version. */
  function Evaluate(policy: StoredPolicy, action: string): (r: Option<PermissionResult>)
    ensures policy.Inline? ==> r == Some(DocumentVerdict(policy.document, action))
    ensures policy.Managed? ==>
      (r.None? <==> forall j :: 0 <= j < |policy.policy.versions| ==> !policy.policy.versions[j].isDefault)
    ensures policy.Managed? && r.Some? ==>
      r.value == DocumentVerdict(policy.policy.versions[DefaultVersion(policy.policy.versions).value].document, action)
  {
    match DefaultDocument(policy)
    case None => None
    case Some(doc) => Some(DocumentVerdict(doc, action))
  }

  /**
   * The statement loop of `IAMPolicy.is_action_permitted`: scan the
   * statements in order, return Denied at the first denying statement, else
   * Permitted if any permitted, else Neutral.
   */
  method ScanStatements(stmts: seq<Statement>, action: string) returns (v: PermissionResult)
    ensures v == FoldVerdicts(Verdicts(stmts, action), false)
  {
    ghost var vs := Verdicts(stmts, action);
    var permitted := false;
    var i := 0;
    while i < |stmts|
      invariant 0 <= i <= |stmts|
      invariant FoldVerdicts(vs, false) == FoldVerdicts(vs[i..], permitted)
    {
      assert vs[i..][0] == vs[i] && vs[i..][1..] == vs[i + 1..];
      var result := StatementVerdict(stmts[i], action);
      if result == Denied {
        return Denied;
      } else if result == Permitted {
        permitted := true;
      }
      i := i + 1;
    }
    v := if permitted then Permitted else Neutral;
  }

  /**
   * `IAMPolicy.is_action_permitted`: find the document (a managed policy's
   * default version) and scan its statements.
   */
  method IsActionPermitted(policy: StoredPolicy, action: string) returns (r: Option<PermissionResult>)
    ensures r == Evaluate(policy, action)
  {
    var found := DefaultDocument(policy);
    if found.None? {
      return None;
    }
    var v := ScanStatements(found.value.statements, action);
    r := Some(v);
  }
}

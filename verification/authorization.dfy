/**
 * The decision over all policies collected for a principal: any policy that
 * denies ends the evaluation with a refusal; otherwise access is granted only
 * if some policy permits (the absence of an allow is a deny).
 */
module Authorization {
  import opened Wrappers
  import opened Policy

  /**
   * The decision of `_check_action_permitted_for_iam_user` on the policies
   * `ps`, scanned in order with the flag `permitted` carried along: Some(true)
   * grants, Some(false) refuses, None when a policy reached before any denial
   * has no default version.
   */
  function Authorize(ps: seq<StoredPolicy>, action: string, permitted: bool): (r: Option<bool>)
    ensures r.None? ==> exists i :: 0 <= i < |ps| && Evaluate(ps[i], action).None?
    ensures (forall i :: 0 <= i < |ps| ==> Evaluate(ps[i], action).Some?) ==> r.Some?
  {
    if ps == [] then Some(permitted)
    else
      assert forall i :: 0 < i < |ps| ==> ps[i] == ps[1..][i - 1];
      match Evaluate(ps[0], action)
      case None => None
      case Some(Denied) => Some(false)
      case Some(v) => Authorize(ps[1..], action, permitted || v == Permitted)
  }

  /** Every policy in `ps` can be evaluated (each managed one has a default version). */
  ghost predicate Evaluable(ps: seq<StoredPolicy>, action: string) {
    forall p :: p in ps ==> Evaluate(p, action).Some?
  }

  /** Some policy in `ps` yields the verdict `v`. */
  ghost predicate SomeVerdict(ps: seq<StoredPolicy>, action: string, v: PermissionResult) {
    exists p :: p in ps && Evaluate(p, action) == Some(v)
  }

  /** The verdicts of evaluable policies, in collection order. */
  ghost function PolicyVerdicts(ps: seq<StoredPolicy>, action: string): (vs: seq<PermissionResult>)
    requires Evaluable(ps, action)
    ensures |vs| == |ps|
    ensures forall i :: 0 <= i < |ps| ==> Evaluate(ps[i], action) == Some(vs[i])
  {
    if ps == [] then []
    else
      assert ps[0] in ps;
      assert forall p :: p in ps[1..] ==> p in ps;
      [Evaluate(ps[0], action).value] + PolicyVerdicts(ps[1..], action)
  }

  /** Over evaluable policies the scan is the verdict fold with default deny. */
  lemma {:induction false} AuthorizeIsFold(ps: seq<StoredPolicy>, action: string, permitted: bool)
    requires Evaluable(ps, action)
    ensures Authorize(ps, action, permitted) == Some(FoldVerdicts(PolicyVerdicts(ps, action), permitted) == Permitted)
  {
    if ps != [] {
      var vs := PolicyVerdicts(ps, action);
      assert Evaluable(ps[1..], action) by {
        forall p | p in ps[1..] ensures Evaluate(p, action).Some? {
          assert p in ps;
        }
      }
      assert vs[1..] == PolicyVerdicts(ps[1..], action);
      AuthorizeIsFold(ps[1..], action, permitted || vs[0] == Permitted);
    }
  }

  /**
   * Over evaluable policies, access is granted iff no policy denies and at
   * least one permits. In particular no policies at all, or only neutral
   * ones, mean a refusal.
   */
  lemma AuthorizeCharacterised(ps: seq<StoredPolicy>, action: string)
    requires Evaluable(ps, action)
    ensures Authorize(ps, action, false) ==
      Some(!SomeVerdict(ps, action, Denied) && SomeVerdict(ps, action, Permitted))
  {
    var vs := PolicyVerdicts(ps, action);
    AuthorizeIsFold(ps, action, false);
    forall v ensures v in vs <==> SomeVerdict(ps, action, v) {
      if v in vs {
        var i :| 0 <= i < |vs| && vs[i] == v;
        assert ps[i] in ps;
      }
      if SomeVerdict(ps, action, v) {
        var p :| p in ps && Evaluate(p, action) == Some(v);
        var i :| 0 <= i < |ps| && ps[i] == p;
        assert vs[i] == v;
      }
    }
  }

  /** With no policies attached, every action is refused. */
  lemma DefaultDeny(action: string)
    ensures Authorize([], action, false) == Some(false)
  {
  }

  /**
   * A granted action was permitted by some policy and denied by none, every
   * policy having been evaluated.
   */
  lemma {:induction false} GrantedMeansPermittedAndNotDenied(ps: seq<StoredPolicy>, action: string, permitted: bool)
    requires Authorize(ps, action, permitted) == Some(true)
    ensures Evaluable(ps, action)
    ensures !SomeVerdict(ps, action, Denied)
    ensures permitted || SomeVerdict(ps, action, Permitted)
  {
    if ps != [] {
      var v := Evaluate(ps[0], action).value;
      GrantedMeansPermittedAndNotDenied(ps[1..], action, permitted || v == Permitted);
      assert ps == [ps[0]] + ps[1..];
      if v == Permitted {
        assert ps[0] in ps;
      }
      if !permitted && v != Permitted {
        var p :| p in ps[1..] && Evaluate(p, action) == Some(Permitted);
        assert p in ps;
      }
    }
  }

  /** Dropping the first of the evaluable policies before `j` leaves evaluable ones. */
  lemma EvaluableTail(ps: seq<StoredPolicy>, j: nat, action: string)
    requires 0 < j <= |ps| && Evaluable(ps[..j], action)
    ensures Evaluable(ps[1..][..j - 1], action)
  {
    assert ps[1..][..j - 1] == ps[..j][1..];
    forall p | p in ps[..j][1..] ensures Evaluate(p, action).Some? {
      assert p in ps[..j];
    }
  }

  /**
   * A denying policy refuses the action whatever precedes it (as long as it
   * can be evaluated) and whatever follows it: an explicit deny wins across
   * policies, before or after any allow.
   */
  lemma {:induction false} DenyIsTerminal(ps: seq<StoredPolicy>, j: nat, action: string, permitted: bool)
    requires j < |ps| && Evaluate(ps[j], action) == Some(Denied)
    requires Evaluable(ps[..j], action)
    ensures Authorize(ps, action, permitted) == Some(false)
  {
    if j > 0 {
      assert ps[0] in ps[..j];
      var v := Evaluate(ps[0], action).value;
      if v != Denied {
        EvaluableTail(ps, j, action);
        assert ps[1..][j - 1] == ps[j];
        DenyIsTerminal(ps[1..], j - 1, action, permitted || v == Permitted);
        assert Authorize(ps, action, permitted) == Authorize(ps[1..], action, permitted || v == Permitted);
      }
    }
  }

  /**
   * A policy without a default version, reached before any denial, makes the
   * decision None whatever follows it (the `next` of `get_default_version`
   * raises there).
   */
  lemma {:induction false} MissingDefaultReached(ps: seq<StoredPolicy>, j: nat, action: string, permitted: bool)
    requires j < |ps| && Evaluate(ps[j], action).None?
    requires Evaluable(ps[..j], action) && !SomeVerdict(ps[..j], action, Denied)
    ensures Authorize(ps, action, permitted).None?
  {
    if j > 0 {
      assert ps[0] in ps[..j];
      var v := Evaluate(ps[0], action).value;
      assert v != Denied;
      EvaluableTail(ps, j, action);
      assert ps[1..][..j - 1] == ps[..j][1..];
      assert !SomeVerdict(ps[1..][..j - 1], action, Denied) by {
        forall p | p in ps[..j][1..] ensures Evaluate(p, action) != Some(Denied) {
          assert p in ps[..j];
        }
      }
      assert ps[1..][j - 1] == ps[j];
      MissingDefaultReached(ps[1..], j - 1, action, permitted || v == Permitted);
      assert Authorize(ps, action, permitted) == Authorize(ps[1..], action, permitted || v == Permitted);
    }
  }

  /** Over evaluable policies the order in which they were collected does not matter. */
  lemma AuthorizeOrderFree(ps: seq<StoredPolicy>, qs: seq<StoredPolicy>, action: string)
    requires multiset(ps) == multiset(qs)
    requires Evaluable(ps, action)
    ensures Evaluable(qs, action)
    ensures Authorize(ps, action, false) == Authorize(qs, action, false)
  {
    assert forall p :: p in ps <==> p in qs by {
      forall p ensures p in ps <==> p in qs {
        assert p in ps <==> p in multiset(ps);
        assert p in qs <==> p in multiset(qs);
      }
    }
    AuthorizeCharacterised(ps, action);
    AuthorizeCharacterised(qs, action);
  }

  /** A principal with a single inline policy is granted exactly what that document permits. */
  lemma SingleInlinePolicy(doc: PolicyDocument, action: string)
    ensures Authorize([Inline(doc)], action, false) == Some(DocumentVerdict(doc, action) == Permitted)
  {
    var v := DocumentVerdict(doc, action);
    assert Evaluate(Inline(doc), action) == Some(v);
    assert [Inline(doc)][1..] == [];
  }
}

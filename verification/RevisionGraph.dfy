/** The migration graph: revisions with parents, what is applied, and which revisions are heads.

A history lists the revisions in dependency order, so a revision is named by its position and
its parents stand before it. */
module RevisionGraph {

  type RevisionId = nat

  datatype Revision<Edit> = Revision(parents: set<RevisionId>, edit: Edit)

  type History<Edit> = seq<Revision<Edit>>

  /** Parents come first, and only the first revision has none. */
  predicate WellOrdered<Edit>(h: History<Edit>) {
    && |h| > 0
    && h[0].parents == {}
    && (forall r, p :: 0 <= r < |h| && p in h[r].parents ==> p < r)
    && (forall r :: 0 < r < |h| ==> h[r].parents != {})
  }

  /** The revision and everything it builds on: `iterate_revisions(target, "base")`. */
  function Ancestors<Edit>(h: History<Edit>, r: RevisionId): (ancestors: set<RevisionId>)
    requires WellOrdered(h) && r < |h|
    ensures r in ancestors
    ensures forall a :: a in ancestors ==> a <= r
    decreases r
  {
    {r} + (set p, a | p in h[r].parents && a in Ancestors(h, p) :: a)
  }

  predicate DownwardClosed<Edit>(h: History<Edit>, applied: set<RevisionId>)
    requires WellOrdered(h)
  {
    && (forall r :: r in applied ==> r < |h|)
    && (forall r :: r in applied ==> h[r].parents <= applied)
  }

  predicate HasAppliedChild<Edit>(h: History<Edit>, applied: set<RevisionId>, r: RevisionId) {
    exists c :: c in applied && c < |h| && r in h[c].parents
  }

  /** The rows of `alembic_version`: applied revisions that no applied revision builds on. */
  function Heads<Edit>(h: History<Edit>, applied: set<RevisionId>): set<RevisionId> {
    set r | r in applied && !HasAppliedChild(h, applied, r)
  }

  // ------------------------------------------------------------------ order lemmas

  lemma ParentIsAncestor<Edit>(h: History<Edit>, p: RevisionId, r: RevisionId)
    requires WellOrdered(h) && r < |h| && p in h[r].parents
    ensures p in Ancestors(h, r)
  {
    assert p in Ancestors(h, p);
  }

  lemma {:induction false} AncestorsAreTransitive<Edit>(h: History<Edit>, a: RevisionId, b: RevisionId, c: RevisionId)
    requires WellOrdered(h) && c < |h| && b in Ancestors(h, c) && a in Ancestors(h, b)
    ensures a in Ancestors(h, c)
    decreases c
  {
    if b != c {
      var p :| p in h[c].parents && b in Ancestors(h, p);
      AncestorsAreTransitive(h, a, b, p);
    }
  }

  lemma {:induction false} ClosedSetsHoldAncestors<Edit>(h: History<Edit>, applied: set<RevisionId>, r: RevisionId)
    requires WellOrdered(h) && DownwardClosed(h, applied) && r in applied
    ensures Ancestors(h, r) <= applied
    decreases r
  {
    forall a | a in Ancestors(h, r)
      ensures a in applied
    {
      if a != r {
        var p :| p in h[r].parents && a in Ancestors(h, p);
        ClosedSetsHoldAncestors(h, applied, p);
      }
    }
  }

  /** Every revision descends from the base revision. */
  lemma {:induction false} BaseIsAncestor<Edit>(h: History<Edit>, r: RevisionId)
    requires WellOrdered(h) && r < |h|
    ensures 0 in Ancestors(h, r)
    decreases r
  {
    if r != 0 {
      var p :| p in h[r].parents;
      BaseIsAncestor(h, p);
    }
  }

  predicate BuildsOnOrAfter<Edit>(h: History<Edit>, c: RevisionId, r: RevisionId)
    requires c < |h|
  {
    exists p :: p in h[c].parents && r <= p
  }

  /** Every revision after `r` builds on `r` or on a revision after it. */
  predicate Bottleneck<Edit>(h: History<Edit>, r: RevisionId) {
    forall c :: r < c < |h| ==> BuildsOnOrAfter(h, c, r)
  }

  /** A revision that every later revision keeps building on is an ancestor of all of them. */
  lemma {:induction false} BottleneckIsAncestor<Edit>(h: History<Edit>, r: RevisionId, q: RevisionId)
    requires WellOrdered(h) && r <= q < |h|
    requires Bottleneck(h, r)
    ensures r in Ancestors(h, q)
    decreases q
  {
    if r != q {
      assert BuildsOnOrAfter(h, q, r);
      var p :| p in h[q].parents && r <= p;
      BottleneckIsAncestor(h, r, p);
    }
  }

  // ------------------------------------------------------------------ heads

  /** Walking up from an applied revision ends at a head. */
  lemma {:induction false} AboveIsAHead<Edit>(h: History<Edit>, applied: set<RevisionId>, r: RevisionId)
    returns (head: RevisionId)
    requires WellOrdered(h) && DownwardClosed(h, applied) && r in applied
    ensures head in Heads(h, applied) && r in Ancestors(h, head)
    decreases |h| - r
  {
    if HasAppliedChild(h, applied, r) {
      var c :| c in applied && c < |h| && r in h[c].parents;
      head := AboveIsAHead(h, applied, c);
      ParentIsAncestor(h, r, c);
      AncestorsAreTransitive(h, r, c, head);
    } else {
      head := r;
    }
  }

  lemma {:induction false} ProperAncestorHasChild<Edit>(h: History<Edit>, a: RevisionId, target: RevisionId)
    returns (child: RevisionId)
    requires WellOrdered(h) && target < |h| && a in Ancestors(h, target) && a != target
    ensures child in Ancestors(h, target) && a in h[child].parents
    decreases target
  {
    var p :| p in h[target].parents && a in Ancestors(h, p);
    if a == p {
      child := target;
    } else {
      child := ProperAncestorHasChild(h, a, p);
    }
  }

  /** Applying a revision with all its ancestors leaves it as the single head. */
  lemma AncestorsHaveOneHead<Edit>(h: History<Edit>, target: RevisionId)
    requires WellOrdered(h) && target < |h|
    ensures Heads(h, Ancestors(h, target)) == {target}
  {
    var all := Ancestors(h, target);
    assert !HasAppliedChild(h, all, target);
    forall a | a in Heads(h, all)
      ensures a == target
    {
      if a != target {
        var child := ProperAncestorHasChild(h, a, target);
      }
    }
  }

  /** Heads determine what is applied: all heads below the target means everything is. */
  lemma HeadsBound<Edit>(h: History<Edit>, applied: set<RevisionId>, target: RevisionId)
    requires WellOrdered(h) && DownwardClosed(h, applied) && target < |h|
    requires Heads(h, applied) <= Ancestors(h, target)
    ensures applied <= Ancestors(h, target)
  {
    forall r | r in applied
      ensures r in Ancestors(h, target)
    {
      var head := AboveIsAHead(h, applied, r);
      AncestorsAreTransitive(h, r, head, target);
    }
  }

  /** With all heads below the target, the target is applied only as the single head. */
  lemma TargetIsAppliedOnlyAsSoleHead<Edit>(h: History<Edit>, applied: set<RevisionId>, target: RevisionId)
    requires WellOrdered(h) && DownwardClosed(h, applied) && target < |h|
    requires Heads(h, applied) <= Ancestors(h, target)
    ensures target in applied <==> Heads(h, applied) == {target}
  {
    if target in applied {
      HeadsBound(h, applied, target);
      ClosedSetsHoldAncestors(h, applied, target);
      assert applied == Ancestors(h, target);
      AncestorsHaveOneHead(h, target);
    } else {
      assert target !in Heads(h, applied);
    }
  }
}

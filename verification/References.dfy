/**
 Closing a set of STIX objects under their references (pipeline/baseline_stix.py:543-568, 936-956).

 An object is known here by its id and by `refs[id]`, the ids `iter_refs` finds in it.
 Iteration orders that the code sorts are left open: the sets do not depend on them.
 */
module References {
  import opened Common

  datatype Id = Id(text: string)

  /** `kept`, of the candidates that are not excluded, holds no unprotected object
      that references an excluded or a left-out id. */
  ghost predicate Stable(refs: map<Id, set<Id>>, base: set<Id>, excluded: set<Id>, protected: set<Id>, kept: set<Id>) {
    && kept <= base
    && forall o | o in kept && o in refs && o !in protected :: refs[o] !! excluded && refs[o] !! (base - kept)
  }

  /** `kept` is the greatest stable set. */
  ghost predicate Closure(refs: map<Id, set<Id>>, base: set<Id>, excluded: set<Id>, protected: set<Id>, kept: set<Id>) {
    && Stable(refs, base, excluded, protected, kept)
    && forall other | Stable(refs, base, excluded, protected, other) :: other <= kept
  }

  /** The object `o` of `base` references `x`. */
  ghost predicate Refers(refs: map<Id, set<Id>>, base: set<Id>, o: Id, x: Id) {
    o in base && o in refs && x in refs[o]
  }

  ghost predicate Lists(referrers: map<Id, seq<Id>>, r: Id, o: Id) {
    r in referrers && o in referrers[r]
  }

  /** Who references what, among the ids of `base`. */
  method Referrers(refs: map<Id, set<Id>>, base: set<Id>) returns (referrers: map<Id, seq<Id>>)
    ensures forall r, o :: Lists(referrers, r, o) <==> Refers(refs, base, o, r)
  {
    referrers := map[];
    var rest := base;
    while rest != {}
      invariant rest <= base
      invariant forall r, o :: Lists(referrers, r, o)
                  <==> o in base && o !in rest && o in refs && r in refs[o]
    {
      var oid :| oid in rest;
      rest := rest - {oid};
      if oid in refs {
        referrers := AddReferrer(referrers, oid, refs[oid]);
      }
    }
  }

  method AddReferrer(before: map<Id, seq<Id>>, oid: Id, ids: set<Id>) returns (referrers: map<Id, seq<Id>>)
    ensures forall r, o :: Lists(referrers, r, o)
              <==> Lists(before, r, o) || (o == oid && r in ids)
  {
    referrers := before;
    var left := ids;
    while left != {}
      invariant left <= ids
      invariant forall r, o :: Lists(referrers, r, o)
                  <==> Lists(before, r, o) || (o == oid && r in ids && r !in left)
    {
      var ref :| ref in left;
      left := left - {ref};
      ListedOnce(referrers, ref, oid);
      referrers := WithReferrer(referrers, ref, oid);
    }
  }

  function WithReferrer(referrers: map<Id, seq<Id>>, ref: Id, oid: Id): map<Id, seq<Id>> {
    referrers[ref := (if ref in referrers then referrers[ref] else []) + [oid]]
  }

  lemma ListedOnce(referrers: map<Id, seq<Id>>, ref: Id, oid: Id)
    ensures forall r, o :: Lists(WithReferrer(referrers, ref, oid), r, o)
              <==> Lists(referrers, r, o) || (o == oid && r == ref)
  {
    var after := WithReferrer(referrers, ref, oid);
    var mine := if ref in referrers then referrers[ref] else [];
    forall r, o
      ensures Lists(after, r, o) <==> Lists(referrers, r, o) || (o == oid && r == ref)
    {
      if r == ref {
        assert after[r] == mine + [oid];
        assert o in mine + [oid] <==> o in mine || o == oid;
      }
    }
  }

  method Enqueue(ids: set<Id>) returns (queue: seq<Id>)
    ensures forall x :: x in queue <==> x in ids
  {
    queue := [];
    var rest := ids;
    while rest != {}
      invariant rest <= ids
      invariant forall x :: x in queue <==> x in ids && x !in rest
    {
      var x :| x in rest;
      rest := rest - {x};
      queue := queue + [x];
    }
  }

  /** Every dropped id names, as its reason, an excluded or dropped id it references. */
  ghost predicate Reasoned(refs: map<Id, set<Id>>, excluded: set<Id>, dropped: map<Id, Id>) {
    forall o {:trigger dropped[o]} | o in dropped :: o in refs && dropped[o] in refs[o] && (dropped[o] in excluded || dropped[o] in dropped)
  }

  /** What is dropped so far had to be: no stable set holds any of it. */
  ghost predicate Forced(refs: map<Id, set<Id>>, base: set<Id>, excluded: set<Id>, protected: set<Id>,
                         dropped: map<Id, Id>)
  {
    && dropped.Keys <= base - protected
    && Reasoned(refs, excluded, dropped)
    && forall other | Stable(refs, base, excluded, protected, other) :: other !! dropped.Keys
  }

  /** Whatever references `x` is dropped, or protected. */
  ghost predicate Chased(refs: map<Id, set<Id>>, base: set<Id>, protected: set<Id>, dropped: map<Id, Id>, x: Id) {
    forall o | Refers(refs, base, o, x) :: o in dropped || o in protected
  }

  ghost predicate Handled(ids: seq<Id>, dropped: map<Id, Id>, protected: set<Id>) {
    forall o | o in ids :: o in dropped || o in protected
  }

  lemma HandledGrows(ids: seq<Id>, i: nat, bad: Id, dropped: map<Id, Id>, protected: set<Id>)
    requires i < |ids| && Handled(ids[..i], dropped, protected)
    ensures Handled(ids[..i + 1], dropped[ids[i] := bad], protected)
    ensures ids[i] in dropped || ids[i] in protected ==> Handled(ids[..i + 1], dropped, protected)
    ensures ids[..|ids|] == ids
  {
    assert ids[..i + 1] == ids[..i] + [ids[i]];
  }

  /** `added` lists what `dropped` holds beyond `before`. */
  ghost predicate Beyond(before: map<Id, Id>, dropped: map<Id, Id>, added: seq<Id>) {
    forall x :: x in dropped <==> x in before || x in added
  }

  lemma AddedGrows(before: map<Id, Id>, dropped: map<Id, Id>, added: seq<Id>, base: set<Id>, oid: Id, bad: Id)
    requires Beyond(before, dropped, added) && oid in base && oid !in dropped
    ensures Beyond(before, dropped[oid := bad], added + [oid])
    ensures |base - dropped[oid := bad].Keys| == |base - dropped.Keys| - 1
  {
    assert base - dropped[oid := bad].Keys == base - dropped.Keys - {oid};
  }

  /** One turn of the worklist: drop what references `bad`; `added` is to be chased in turn. */
  method DropReferrers(ghost refs: map<Id, set<Id>>, ghost base: set<Id>, ghost excluded: set<Id>, protected: set<Id>,
                       referring: seq<Id>, bad: Id, before: map<Id, Id>)
    returns (dropped: map<Id, Id>, added: seq<Id>)
    requires Forced(refs, base, excluded, protected, before)
    requires bad in excluded || bad in before
    requires forall o :: o in referring <==> Refers(refs, base, o, bad)
    ensures Forced(refs, base, excluded, protected, dropped)
    ensures Chased(refs, base, protected, dropped, bad)
    ensures Beyond(before, dropped, added)
    ensures |base - dropped.Keys| + |added| == |base - before.Keys|
  {
    dropped, added := before, [];
    var i := 0;
    while i < |referring|
      invariant 0 <= i <= |referring|
      invariant Forced(refs, base, excluded, protected, dropped)
      invariant Handled(referring[..i], dropped, protected)
      invariant Beyond(before, dropped, added)
      invariant |base - dropped.Keys| + |added| == |base - before.Keys|
    {
      var oid := referring[i];
      HandledGrows(referring, i, bad, dropped, protected);
      if oid !in dropped && oid !in protected {
        assert oid in referring;
        DropIsForced(refs, base, excluded, protected, dropped, oid, bad);
        AddedGrows(before, dropped, added, base, oid, bad);
        dropped, added := dropped[oid := bad], added + [oid];
      }
      i := i + 1;
    }
    assert forall o | Refers(refs, base, o, bad) :: o in referring;
  }

  lemma DropIsForced(refs: map<Id, set<Id>>, base: set<Id>, excluded: set<Id>, protected: set<Id>,
                     dropped: map<Id, Id>, oid: Id, bad: Id)
    requires Forced(refs, base, excluded, protected, dropped)
    requires bad in excluded || bad in dropped
    requires oid in base - protected && oid !in dropped && oid in refs && bad in refs[oid]
    ensures Forced(refs, base, excluded, protected, dropped[oid := bad])
  {
    forall other | Stable(refs, base, excluded, protected, other)
      ensures other !! dropped[oid := bad].Keys
    {
      assert other !! dropped.Keys;
      assert oid in other ==> refs[oid] !! excluded && refs[oid] !! (base - other);
    }
  }

  /** The ids out of the queue stay chased when its head has been, and what that dropped is queued. */
  lemma StillChased(refs: map<Id, set<Id>>, base: set<Id>, excluded: set<Id>, protected: set<Id>,
                    before: map<Id, Id>, waiting: seq<Id>, dropped: map<Id, Id>, added: seq<Id>)
    requires waiting != [] && Chased(refs, base, protected, dropped, waiting[0])
    requires Beyond(before, dropped, added)
    requires forall x | x in waiting :: x in excluded || x in before
    requires forall x | (x in excluded || x in before) && x !in waiting :: Chased(refs, base, protected, before, x)
    ensures forall x | x in waiting[1..] + added :: x in excluded || x in dropped
    ensures forall x | (x in excluded || x in dropped) && x !in waiting[1..] + added ::
              Chased(refs, base, protected, dropped, x)
  {
    forall x | (x in excluded || x in dropped) && x !in waiting[1..] + added
      ensures Chased(refs, base, protected, dropped, x)
    {
      if x != waiting[0] {
        assert waiting == [waiting[0]] + waiting[1..];
        assert Chased(refs, base, protected, before, x);
      }
    }
  }

  method RefClosure(refs: map<Id, set<Id>>, candidates: set<Id>, excluded: set<Id>, protected: set<Id>)
    returns (kept: set<Id>, dropped: map<Id, Id>)
    ensures Closure(refs, candidates - excluded, excluded, protected, kept)
    ensures dropped.Keys == candidates - excluded - kept
    ensures Reasoned(refs, excluded, dropped)
  {
    var base := candidates - excluded;
    var referrers := Referrers(refs, base);
    dropped := map[];
    var queue := Enqueue(excluded);
    while queue != []
      invariant Forced(refs, base, excluded, protected, dropped)
      invariant forall x | x in queue :: x in excluded || x in dropped
      invariant forall x | (x in excluded || x in dropped) && x !in queue :: Chased(refs, base, protected, dropped, x)
      decreases |base - dropped.Keys| + |queue|
    {
      var bad := queue[0];
      var referring := if bad in referrers then referrers[bad] else [];
      assert forall o :: o in referring <==> Lists(referrers, bad, o);
      ghost var before, waiting := dropped, queue;
      var added;
      dropped, added := DropReferrers(refs, base, excluded, protected, referring, bad, dropped);
      queue := queue[1..] + added;
      StillChased(refs, base, excluded, protected, before, waiting, dropped, added);
    }
    kept := base - dropped.Keys;
    AllChased(refs, base, excluded, protected, dropped);
  }

  lemma AllChased(refs: map<Id, set<Id>>, base: set<Id>, excluded: set<Id>, protected: set<Id>, dropped: map<Id, Id>)
    requires Forced(refs, base, excluded, protected, dropped)
    requires forall x | x in excluded || x in dropped :: Chased(refs, base, protected, dropped, x)
    ensures Closure(refs, base, excluded, protected, base - dropped.Keys)
  {
  }

  /** There is one closure. */
  lemma ClosureIsUnique(refs: map<Id, set<Id>>, base: set<Id>, excluded: set<Id>, protected: set<Id>,
                        one: set<Id>, two: set<Id>)
    requires Closure(refs, base, excluded, protected, one)
    requires Closure(refs, base, excluded, protected, two)
    ensures one == two
  {
    assert Stable(refs, base, excluded, protected, one) && Stable(refs, base, excluded, protected, two);
  }

  /** Closing at intake with the chosen Report protected, then at the merge without it
      and with the analyst's rejections, keeps what closing once with both exclusion
      sets keeps: nothing an intake drop removed comes back, and nothing more goes. */
  lemma ClosingTwiceIsClosingOnce(refs: map<Id, set<Id>>, candidates: set<Id>, intake: set<Id>, rejected: set<Id>,
                                  report: set<Id>, imported: set<Id>, kept: set<Id>, once: set<Id>)
    requires Closure(refs, candidates - intake, intake, report, imported)
    requires Closure(refs, imported - report - rejected, rejected, {}, kept)
    requires Closure(refs, candidates - report - (intake + rejected), intake + rejected, {}, once)
    requires report <= candidates - intake
    ensures kept == once
  {
    var both := intake + rejected;
    assert Stable(refs, candidates - intake, intake, report, once + report) by {
      assert Stable(refs, candidates - report - both, both, {}, once);
      forall o | o in once + report && o in refs && o !in report
        ensures refs[o] !! intake && refs[o] !! (candidates - intake - (once + report))
      {
        assert o in once;
        assert refs[o] !! both && refs[o] !! (candidates - report - both - once);
      }
    }
    assert once + report <= imported;
    assert Stable(refs, imported - report - rejected, rejected, {}, once) by {
      forall o | o in once && o in refs
        ensures refs[o] !! rejected && refs[o] !! (imported - report - rejected - once)
      {
        assert refs[o] !! both && refs[o] !! (candidates - report - both - once);
      }
    }
    assert Stable(refs, candidates - report - both, both, {}, kept) by {
      forall o | o in kept && o in refs
        ensures refs[o] !! both && refs[o] !! (candidates - report - both - kept)
      {
        assert o in imported && o !in report;
        assert refs[o] !! intake && refs[o] !! (candidates - intake - imported);
        assert refs[o] !! rejected && refs[o] !! (imported - report - rejected - kept);
      }
    }
  }

  // ----- The scope of a Report

  /** `ids` holds every object of the bundle that one of its objects references. */
  ghost predicate ClosedUnder(refs: map<Id, set<Id>>, ids: set<Id>) {
    forall o, r | o in ids && o in refs && r in refs[o] && r in refs :: r in ids
  }

  /** What the objects of `ids` outside `stack` reference is in `ids`. */
  ghost predicate ClosedBut(refs: map<Id, set<Id>>, ids: set<Id>, stack: set<Id>) {
    forall o, r | o in ids && o !in stack && o in refs && r in refs[o] && r in refs :: r in ids
  }

  ghost predicate Within(refs: map<Id, set<Id>>, start: Id, before: set<Id>, ids: set<Id>) {
    forall all | ClosedUnder(refs, all) && before <= all && start in all :: ids <= all
  }

  /** Add `start` and, transitively, what it references. */
  method CloseFrom(refs: map<Id, set<Id>>, start: Id, before: set<Id>) returns (seen: set<Id>)
    requires start in refs && before <= refs.Keys && ClosedUnder(refs, before)
    ensures before + {start} <= seen <= refs.Keys && ClosedUnder(refs, seen)
    ensures Within(refs, start, before, seen)
  {
    seen := before + {start};
    var stack := {start};
    while stack != {}
      invariant before + {start} <= seen <= refs.Keys && stack <= seen
      invariant ClosedBut(refs, seen, stack)
      invariant Within(refs, start, before, seen)
      decreases refs.Keys - seen, stack
    {
      var o :| o in stack;
      var found := set r | r in refs[o] && r in refs && r !in seen;
      StaysWithin(refs, start, before, seen, o, found);
      seen, stack := seen + found, stack - {o} + found;
    }
  }

  lemma StaysWithin(refs: map<Id, set<Id>>, start: Id, before: set<Id>, seen: set<Id>, o: Id, found: set<Id>)
    requires Within(refs, start, before, seen) && o in seen && o in refs
    requires forall r | r in found :: r in refs[o] && r in refs
    ensures Within(refs, start, before, seen + found)
  {
  }

  datatype Link = Link(id: Id, source: Id, target: Id)

  /** Every relationship between two objects of `ids` is in `ids`. */
  ghost predicate Linked(links: seq<Link>, ids: set<Id>) {
    forall l | l in links && l.source in ids && l.target in ids :: l.id in ids
  }

  /** `id` is reached from `root` by references alone. */
  ghost predicate Reached(refs: map<Id, set<Id>>, root: Id, id: Id) {
    forall all | ClosedUnder(refs, all) && root in all :: id in all
  }

  /** The root, what it references transitively, and every relationship between two of
      those with what it references; nothing that a set with these properties could do without.
      One pass: a relationship that a later one brings an end of may stay out. */
  method Scope(refs: map<Id, set<Id>>, links: seq<Link>, root: Id) returns (seen: set<Id>)
    requires root in refs && forall l | l in links :: l.id in refs
    ensures root in seen && seen <= refs.Keys && ClosedUnder(refs, seen)
    ensures forall l | l in links && Reached(refs, root, l.source) && Reached(refs, root, l.target) :: l.id in seen
    ensures forall all | ClosedUnder(refs, all) && Linked(links, all) && root in all :: seen <= all
  {
    seen := CloseFrom(refs, root, {});
    ghost var first := seen;
    for i := 0 to |links|
      invariant first <= seen <= refs.Keys && ClosedUnder(refs, seen)
      invariant forall j | 0 <= j < i && links[j].source in first && links[j].target in first :: links[j].id in seen
      invariant forall all | ClosedUnder(refs, all) && Linked(links, all) && root in all :: seen <= all
    {
      var l := links[i];
      if l.id !in seen && l.source in seen && l.target in seen {
        ghost var before := seen;
        seen := CloseFrom(refs, l.id, seen);
        LinkedHolds(refs, links, root, before, l, seen);
      }
    }
    forall l | l in links && Reached(refs, root, l.source) && Reached(refs, root, l.target)
      ensures l.id in seen
    {
      assert l.source in first && l.target in first;
    }
  }

  lemma LinkedHolds(refs: map<Id, set<Id>>, links: seq<Link>, root: Id, before: set<Id>, l: Link, seen: set<Id>)
    requires l in links && l.source in before && l.target in before
    requires forall all | ClosedUnder(refs, all) && Linked(links, all) && root in all :: before <= all
    requires Within(refs, l.id, before, seen)
    ensures forall all | ClosedUnder(refs, all) && Linked(links, all) && root in all :: seen <= all
  {
  }
}

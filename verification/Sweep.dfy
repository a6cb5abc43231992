/** The reasoning behind the garbage sweep: what one deletion attempt finds, in whatever order
    the walks are started. */
module Sweep {
  import opened Layers

  /** `now` is `forest` without the removable layers among those already seen. */
  ghost predicate Swept(forest: Forest, blocked: set<Id>, seen: set<Id>, now: Forest) {
    && (forall x :: x in now <==> x in forest && !(x in seen && Removable(forest, blocked, x)))
    && (forall x :: x in now && x in forest ==> now[x] == forest[x])
  }

  /** Every seen layer other than `last` has its unchecked parent among the seen ones. */
  ghost predicate ClosedUp(forest: Forest, unchecked: set<Id>, seen: set<Id>, last: set<Id>) {
    forall x :: x in seen && x in forest && forest[x] in unchecked ==> forest[x] in seen || x in last
  }

  /** An attempt on `id` finds it childless and free exactly when `id` is removable. It matters
      that at most one child has been seen, and that a child has been seen unless all children
      are checked layers. */
  lemma AttemptSucceeds(forest: Forest, checked: set<Id>, blocked: set<Id>, seen: set<Id>, now: Forest, id: Id)
    requires id in forest && id !in seen && checked <= blocked
    requires Swept(forest, blocked, seen, now)
    requires forall c, d :: c in Children(forest, id) && d in Children(forest, id) && c in seen && d in seen ==> c == d
    requires Children(forest, id) <= checked || exists c :: c in Children(forest, id) && c in seen
    ensures Children(now, id) == {} && id !in blocked <==> Removable(forest, blocked, id)
  {
    if Removable(forest, blocked, id) {
      RemovableDown(forest, blocked, id);
      forall c | c in Children(now, id)
        ensures false
      {
        assert c in Children(forest, id);
        RemovableDown(forest, blocked, c);
      }
    }
    if Children(now, id) == {} && id !in blocked {
      forall c | c in Children(forest, id)
        ensures c in seen && Removable(forest, blocked, c)
      {
        assert c in now ==> c in Children(now, id);
      }
      if Children(forest, id) == {} {
        RemovableLeaf(forest, blocked, id);
      } else {
        var c :| c in Children(forest, id);
        assert Children(forest, id) == {c};
        RemovableUp(forest, blocked, c, id);
      }
    }
  }

  lemma SweptStep(forest: Forest, blocked: set<Id>, seen: set<Id>, now: Forest, id: Id, next: Forest)
    requires id in forest && id !in seen
    requires Swept(forest, blocked, seen, now)
    requires next == if Removable(forest, blocked, id) then now - {id} else now
    ensures Swept(forest, blocked, seen + {id}, next)
  {
  }

  /** The attempts so far: each seen layer once, and no other. */
  ghost predicate Attempted(attempts: seq<Id>, seen: set<Id>) {
    && (forall x :: x in attempts <==> x in seen)
    && forall i, j :: 0 <= i < j < |attempts| ==> attempts[i] != attempts[j]
  }

  /** In the middle of a walk from `start` that has come to `id` over `last`, if over any. */
  ghost predicate Walking(forest: Forest, checked: set<Id>, blocked: set<Id>, start: Id, last: set<Id>, id: Id,
                          seen: set<Id>, now: Forest, attempts: seq<Id>)
  {
    && start in forest && Children(forest, start) <= checked
    && seen <= forest.Keys - checked
    && Swept(forest, blocked, seen, now)
    && ClosedUp(forest, forest.Keys - checked, seen, last)
    && Attempted(attempts, seen)
    && if last == {} then id == start
       else start in seen && exists x :: x in seen && last == {x} && forest[x] == id
  }

  /** The table after DeleteLayer was called on `id`: refused for a parent or a blocked layer. */
  function AfterAttempt(now: Forest, blocked: set<Id>, id: Id): Forest {
    if Children(now, id) == {} && id !in blocked then now - {id} else now
  }

  ghost predicate WalkEnded(forest: Forest, checked: set<Id>, blocked: set<Id>, start: Id,
                            seen: set<Id>, seen': set<Id>, now: Forest, attempts: seq<Id>)
  {
    && seen <= seen' <= forest.Keys - checked
    && (start in seen' || start in checked)
    && Swept(forest, blocked, seen', now)
    && ClosedUp(forest, forest.Keys - checked, seen', {})
    && Attempted(attempts, seen')
  }

  /** A walk stops at a layer that is checked, seen or not there. */
  lemma WalkStops(forest: Forest, checked: set<Id>, blocked: set<Id>, start: Id, last: set<Id>, id: Id,
                  seen: set<Id>, seen': set<Id>, now: Forest, attempts: seq<Id>)
    requires Walking(forest, checked, blocked, start, last, id, seen', now, attempts)
    requires seen <= seen' && id !in forest.Keys - checked - seen'
    ensures WalkEnded(forest, checked, blocked, start, seen, seen', now, attempts)
  {
  }

  /** Between two walks, with `todo` still to be considered as starts. */
  ghost predicate Sweeping(forest: Forest, checked: set<Id>, blocked: set<Id>, haveChildren: map<Id, bool>,
                           todo: set<Id>,
                           seen: set<Id>, now: Forest, attempts: seq<Id>)
  {
    && todo <= haveChildren.Keys
    && seen <= forest.Keys - checked
    && (forall x :: x in haveChildren && x !in todo && !haveChildren[x] ==> x in seen)
    && Swept(forest, blocked, seen, now)
    && ClosedUp(forest, forest.Keys - checked, seen, {})
    && Attempted(attempts, seen)
  }

  lemma SweepingNext(forest: Forest, checked: set<Id>, blocked: set<Id>, haveChildren: map<Id, bool>, todo: set<Id>,
                     id: Id,
                     seen: set<Id>, seen': set<Id>, now: Forest, now': Forest, attempts: seq<Id>, attempts': seq<Id>)
    requires Sweeping(forest, checked, blocked, haveChildren, todo, seen, now, attempts) && id in todo
    requires haveChildren.Keys == forest.Keys - checked
    requires if haveChildren[id] then (seen', now', attempts') == (seen, now, attempts)
             else WalkEnded(forest, checked, blocked, id, seen, seen', now', attempts')
    ensures Sweeping(forest, checked, blocked, haveChildren, todo - {id}, seen', now', attempts')
  {
  }

  lemma WalkStep(forest: Forest, checked: set<Id>, blocked: set<Id>, start: Id, last: set<Id>, id: Id,
                 seen: set<Id>, now: Forest, attempts: seq<Id>)
    requires Walking(forest, checked, blocked, start, last, id, seen, now, attempts)
    requires checked <= blocked && id in forest && id !in checked && id !in seen
    ensures id in now && now[id] == forest[id]
    ensures Walking(forest, checked, blocked, start, {id}, now[id], seen + {id}, AfterAttempt(now, blocked, id),
      attempts + [id])
  {
    if last != {} {
      var x :| x in seen && last == {x} && forest[x] == id;
      assert x in Children(forest, id);
    }
    AttemptSucceeds(forest, checked, blocked, seen, now, id);
    SweptStep(forest, blocked, seen, now, id, AfterAttempt(now, blocked, id));
  }

  /** Once every layer without unchecked children has been seen and seeing is closed under
      unchecked parents, nothing removable is left. */
  lemma SweptAll(forest: Forest, checked: set<Id>, blocked: set<Id>, seen: set<Id>, now: Forest)
    requires checked <= blocked
    requires Swept(forest, blocked, seen, now)
    requires ClosedUp(forest, forest.Keys - checked, seen, {})
    requires forall x :: x in forest && x !in checked && Children(forest, x) <= checked ==> x in seen
    ensures forall x :: x in now <==> x in forest && !Removable(forest, blocked, x)
  {
    forall x | x in forest && Removable(forest, blocked, x)
      ensures x in seen
    {
      var chain :| TopOf(forest, blocked, chain, x);
      RemovableReached(forest, blocked, chain, seen);
    }
  }

  /** On an acyclic forest the sweep tries every unchecked layer. */
  lemma {:induction false} AllAttempted(forest: Forest, height: map<Id, nat>, checked: set<Id>, seen: set<Id>, id: Id)
    requires Acyclic(forest, height)
    requires ClosedUp(forest, forest.Keys - checked, seen, {})
    requires forall x :: x in forest && x !in checked && Children(forest, x) <= checked ==> x in seen
    requires id in forest && id !in checked
    ensures id in seen
    decreases height[id]
  {
    if c :| c in Children(forest, id) && c !in checked {
      AllAttempted(forest, height, checked, seen, c);
    }
  }
}

/**
 What the three fault actions do to an order of deliveries, said without
 positions in an array: dropping filters, moving puts one delivery right in
 front of another and leaves the rest in order, duplicating puts the copies
 right behind their original.
 */
module Faults {
  import opened Prelude
  import opened Arena
  import opened Planner

  /** The order without one delivery. */
  function Without(keys: seq<DeliveryKey>, k: DeliveryKey): seq<DeliveryKey> {
    if keys == [] then [] else (if keys[0] == k then [] else [keys[0]]) + Without(keys[1..], k)
  }

  lemma {:induction false} WithoutAppend(a: seq<DeliveryKey>, b: seq<DeliveryKey>, k: DeliveryKey)
    ensures Without(a + b, k) == Without(a, k) + Without(b, k)
  {
    if a == [] {
      assert a + b == b;
    } else {
      assert (a + b)[1..] == a[1..] + b;
      WithoutAppend(a[1..], b, k);
    }
  }

  lemma {:induction false} WithoutAbsent(keys: seq<DeliveryKey>, k: DeliveryKey)
    requires k !in keys
    ensures Without(keys, k) == keys
  {
    if keys != [] {
      WithoutAbsent(keys[1..], k);
    }
  }

  /** A delivery that occurs once is filtered out of its place. */
  lemma WithoutAround(a: seq<DeliveryKey>, k: DeliveryKey, b: seq<DeliveryKey>)
    requires k !in a && k !in b
    ensures Without(a + [k] + b, k) == a + b
  {
    WithoutAppend(a + [k], b, k);
    WithoutAppend(a, [k], k);
    WithoutAbsent(a, k);
    WithoutAbsent(b, k);
    assert Without([k], k) == [] + Without([k][1..], k);
    assert a + [] == a;
  }

  lemma AroundPlace(keys: seq<DeliveryKey>, p: nat)
    requires Distinct(keys) && p < |keys|
    ensures keys == keys[..p] + [keys[p]] + keys[p + 1..] && keys[p] !in keys[..p] && keys[p] !in keys[p + 1..]
    ensures RemoveAt(keys, p) == keys[..p] + keys[p + 1..]
  {
  }

  lemma RemovedIsWithout(keys: seq<DeliveryKey>, k: DeliveryKey)
    requires Distinct(keys) && k in keys
    ensures Removed(keys, k) == Without(keys, k)
  {
    var p := IndexOf(keys, k);
    AroundPlace(keys, p);
    WithoutAround(keys[..p], k, keys[p + 1..]);
  }

  /** The target stands right in front of the anchor, and the others are in the order they had. */
  predicate Moved(before: seq<DeliveryKey>, target: DeliveryKey, anchor: DeliveryKey, after: seq<DeliveryKey>) {
    && Distinct(after) && Without(after, target) == Without(before, target)
    && exists p :: 0 <= p < |after| - 1 && after[p] == target && after[p + 1] == anchor
  }

  lemma InsertedAround(rest: seq<DeliveryKey>, q: nat, k: DeliveryKey)
    requires q <= |rest|
    ensures InsertAt(rest, q, k) == rest[..q] + [k] + rest[q..]
  {
  }

  lemma MoveIsMoved(keys: seq<DeliveryKey>, target: DeliveryKey, anchor: DeliveryKey)
    requires Distinct(keys) && target in keys && anchor in keys && target != anchor
    ensures Moved(keys, target, anchor, MovedBefore(keys, target, anchor))
  {
    var rest := Removed(keys, target);
    RemovedContents(keys, target);
    RemovedIsWithout(keys, target);
    MovedContents(keys, target, anchor);
    PutInFront(rest, IndexOf(rest, anchor), target);
  }

  lemma PutInFront(rest: seq<DeliveryKey>, q: nat, target: DeliveryKey)
    requires q < |rest| && target !in rest
    ensures var after := InsertAt(rest, q, target);
            Without(after, target) == rest && after[q] == target && after[q + 1] == rest[q]
  {
    InsertedAround(rest, q, target);
    WithoutAround(rest[..q], target, rest[q..]);
    assert rest[..q] + rest[q..] == rest;
  }

  /** The copies stand right behind the target, in the order of their occurrences, and the others where they were. */
  ghost predicate Copied(before: seq<DeliveryKey>, target: DeliveryKey, first: nat, copies: nat, after: seq<DeliveryKey>) {
    exists p, block :: 0 <= p < |before| && before[p] == target && after == before[..p + 1] + block + before[p + 1..] && IsBlock(block, target.source, first, copies)
  }

  predicate IsBlock(block: seq<DeliveryKey>, source: nat, first: nat, copies: nat) {
    |block| == copies && forall i :: 0 <= i < copies ==> block[i] == DeliveryKey(source, first + i)
  }

  /** Every copy of the block fits the occurrence namespace and is new. */
  ghost predicate Untaken(taken: set<DeliveryKey>, source: nat, first: nat, copies: nat) {
    forall o: nat :: first <= o < first + copies ==> o <= 65535 && DeliveryKey(source, o) !in taken
  }

  lemma {:induction false} FreshMeansUntaken(taken: set<DeliveryKey>, source: nat, first: nat, copies: nat)
    ensures FreshBlock(taken, source, first, copies) <==> Untaken(taken, source, first, copies)
  {
    if copies > 0 {
      var last := first + copies - 1;
      FreshMeansUntaken(taken, source, first, copies - 1);
      assert Untaken(taken, source, first, copies) ==> last <= 65535 && DeliveryKey(source, last) !in taken;
      assert Untaken(taken, source, first, copies) ==> Untaken(taken, source, first, copies - 1);
      assert FreshBlock(taken, source, first, copies) ==> Untaken(taken, source, first, copies) by {
        forall o: nat | FreshBlock(taken, source, first, copies) && first <= o < first + copies
          ensures o <= 65535 && DeliveryKey(source, o) !in taken
        {
          assert o == last || o < first + (copies - 1);
        }
      }
    }
  }

  /** What each action leaves of an order. */
  ghost predicate Faulted(l: Listing, action: PlannedAction, m: Listing) {
    match action
    case Drop(target) => m.order == Without(l.order, target) && m.taken == l.taken
    case Duplicate(target, first, copies) =>
      && Copied(l.order, target, first, copies, m.order)
      && (forall k :: k in m.taken <==> k in l.taken || InBlock(k, target.source, first, copies))
    case MoveBefore(target, anchor) => Moved(l.order, target, anchor, m.order) && m.taken == l.taken
  }

  /** When an action can be carried out at all. */
  ghost predicate Possible(l: Listing, action: PlannedAction) {
    match action
    case Drop(target) => target in l.order
    case Duplicate(target, first, copies) => target in l.order && Untaken(l.taken, target.source, first, copies)
    case MoveBefore(target, anchor) => target in l.order && anchor in l.order && target != anchor
  }

  lemma DuplicateIsCopied(l: Listing, target: DeliveryKey, first: nat, copies: nat)
    requires target in l.order
    ensures Copied(l.order, target, first, copies, SplicedAfter(l.order, target, Block(target.source, first, copies)))
  {
    var p, block := IndexOf(l.order, target), Block(target.source, first, copies);
    assert IsBlock(block, target.source, first, copies) && l.order[p] == target;
  }

  /** An action is carried out exactly when that is possible, and then does what its name says. */
  lemma PerformMeans(l: Listing, action: PlannedAction)
    requires Distinct(l.order)
    ensures Perform(l, action).Some? <==> Possible(l, action)
    ensures Perform(l, action).Some? ==> Faulted(l, action, Perform(l, action).value)
  {
    match action {
      case Drop(target) =>
        if target in l.order {
          RemovedIsWithout(l.order, target);
        }
      case Duplicate(target, first, copies) =>
        FreshMeansUntaken(l.taken, target.source, first, copies);
        if target in l.order {
          DuplicateIsCopied(l, target, first, copies);
          BlockContents(target.source, first, copies);
        }
      case MoveBefore(target, anchor) =>
        if target in l.order && anchor in l.order && target != anchor {
          MoveIsMoved(l.order, target, anchor);
        }
    }
  }

  /** The planner accepts exactly what the list can do, with the next free occurrence for a duplicate. */
  lemma AcceptsExactly(plan: Plan, prefix: nat, l: Listing, action: PlannedAction)
    requires Tracks(plan, prefix, l)
    ensures Accepts(plan, prefix, action) <==>
            Possible(l, action) && (action.Duplicate? ==> action.firstOccurrence == NextOf(plan.next, action.target.source))
  {
    match action {
      case Duplicate(target, first, copies) =>
        if first == NextOf(plan.next, target.source) && target in l.order {
          NextIsUntaken(plan, prefix, l, target, first, copies);
        }
      case _ =>
    }
  }

  lemma NextIsUntaken(plan: Plan, prefix: nat, l: Listing, target: DeliveryKey, first: nat, copies: nat)
    requires Tracks(plan, prefix, l) && first == NextOf(plan.next, target.source)
    ensures Untaken(l.taken, target.source, first, copies) <==> first + copies <= U16_MAX + 1
  {
    assert first <= U16_MAX + 1;
    forall o: nat | first <= o < first + copies ensures DeliveryKey(target.source, o) !in l.taken {
    }
    if Untaken(l.taken, target.source, first, copies) && copies > 0 {
      assert DeliveryKey(target.source, first + copies - 1) !in l.taken;
    }
  }
}

/**
 Symbolic planning of a fault schedule: occurrences are counted and liveness is
 tracked per key, without ever building the delivery list. The lemmas show that
 whatever the planner accepts, the list can carry out.
 */
module Planner {
  import opened Prelude
  import opened Arena

  /** What the planner remembers while it walks a schedule. */
  datatype Plan = Plan(next: map<nat, nat>, removed: set<DeliveryKey>, occurrences: nat)

  /** The next unused occurrence number of a source. */
  function NextOf(next: map<nat, nat>, source: nat): nat {
    if source in next then next[source] else 1
  }

  predicate Created(plan: Plan, k: DeliveryKey) { k.occurrence < NextOf(plan.next, k.source) }

  predicate LiveIn(plan: Plan, prefix: nat, k: DeliveryKey) {
    k.source < prefix && Created(plan, k) && k !in plan.removed
  }

  /** The planner accepts an action and moves on to the next bookkeeping state. */
  predicate Accepts(plan: Plan, prefix: nat, action: PlannedAction) {
    match action
    case Drop(target) => LiveIn(plan, prefix, target)
    case Duplicate(target, first, copies) =>
      && LiveIn(plan, prefix, target)
      && first == NextOf(plan.next, target.source)
      && first + copies <= U16_MAX + 1
    case MoveBefore(target, anchor) =>
      LiveIn(plan, prefix, target) && LiveIn(plan, prefix, anchor) && target != anchor
  }

  function Advance(plan: Plan, action: PlannedAction): Plan {
    match action
    case Drop(target) => plan.(removed := plan.removed + {target})
    case Duplicate(target, first, copies) =>
      plan.(next := plan.next[target.source := first + copies], occurrences := plan.occurrences + copies)
    case MoveBefore(_, _) => plan
  }

  function StartPlan(prefix: nat): Plan { Plan(map[], {}, prefix) }

  predicate AcceptsAll(plan: Plan, prefix: nat, actions: seq<PlannedAction>)
    decreases actions
  {
    actions == [] ||
    (Accepts(plan, prefix, actions[0]) && AcceptsAll(Advance(plan, actions[0]), prefix, actions[1..]))
  }

  function AdvanceAll(plan: Plan, actions: seq<PlannedAction>): Plan
    decreases actions
  {
    if actions == [] then plan else AdvanceAll(Advance(plan, actions[0]), actions[1..])
  }

  // ------------------------------------------------------------ lockstep

  /** The planner's bookkeeping describes the listing exactly. */
  ghost predicate Tracks(plan: Plan, prefix: nat, l: Listing) {
    && Distinct(l.order)
    && (forall k :: k in l.taken <==> k.source < prefix && Created(plan, k))
    && (forall k :: k in l.order <==> LiveIn(plan, prefix, k))
    && plan.removed <= l.taken
    && (forall source :: source in plan.next ==> 1 <= plan.next[source] <= U16_MAX + 1)
    && |l.order| + |plan.removed| == plan.occurrences
  }

  lemma StartTracks(prefix: nat)
    ensures Tracks(StartPlan(prefix), prefix, StartListing(prefix))
  {
    var l := StartListing(prefix);
    forall k ensures k in l.order <==> k.source < prefix && k.occurrence < 1 {
      if k.source < prefix && k.occurrence < 1 {
        assert l.order[k.source] == k;
      }
    }
  }

  lemma DropTracks(plan: Plan, prefix: nat, l: Listing, target: DeliveryKey)
    requires Tracks(plan, prefix, l) && LiveIn(plan, prefix, target)
    ensures Perform(l, Drop(target)).Some?
    ensures Tracks(Advance(plan, Drop(target)), prefix, Perform(l, Drop(target)).value)
  {
    RemovedContents(l.order, target);
  }

  predicate InBlock(k: DeliveryKey, source: nat, first: nat, copies: nat) {
    k.source == source && first <= k.occurrence < first + copies
  }

  lemma BlockContents(source: nat, first: nat, copies: nat)
    ensures Distinct(Block(source, first, copies))
    ensures forall x :: x in Block(source, first, copies) <==> InBlock(x, source, first, copies)
    ensures forall x :: x in BlockSet(source, first, copies) <==> InBlock(x, source, first, copies)
  {
    var block := Block(source, first, copies);
    forall x ensures x in block <==> InBlock(x, source, first, copies) {
      if InBlock(x, source, first, copies) {
        assert block[x.occurrence - first] == x;
      }
    }
  }

  /** Synthesizing copies creates exactly the block of their keys. */
  lemma CreatedByCopies(plan: Plan, target: DeliveryKey, first: nat, copies: nat)
    requires first == NextOf(plan.next, target.source)
    ensures forall k :: Created(Advance(plan, Duplicate(target, first, copies)), k)
                        <==> Created(plan, k) || InBlock(k, target.source, first, copies)
    ensures forall k :: Created(plan, k) ==> !InBlock(k, target.source, first, copies)
  {
  }

  lemma DuplicateFits(plan: Plan, prefix: nat, l: Listing, target: DeliveryKey, first: nat, copies: nat)
    requires Tracks(plan, prefix, l) && Accepts(plan, prefix, Duplicate(target, first, copies))
    ensures target in l.order && FreshBlock(l.taken, target.source, first, copies)
    ensures forall x :: InBlock(x, target.source, first, copies) ==> x !in l.order && x !in plan.removed
  {
    CreatedByCopies(plan, target, first, copies);
    assert LiveIn(plan, prefix, target);
    forall o: nat | first <= o < first + copies ensures DeliveryKey(target.source, o) !in l.taken {
      assert InBlock(DeliveryKey(target.source, o), target.source, first, copies);
    }
    FreshBlockIntro(l.taken, target.source, first, copies);
  }

  lemma DuplicateTracks(plan: Plan, prefix: nat, l: Listing, target: DeliveryKey, first: nat, copies: nat)
    requires Tracks(plan, prefix, l) && Accepts(plan, prefix, Duplicate(target, first, copies))
    ensures Perform(l, Duplicate(target, first, copies)).Some?
    ensures Tracks(Advance(plan, Duplicate(target, first, copies)), prefix, Perform(l, Duplicate(target, first, copies)).value)
  {
    DuplicateFits(plan, prefix, l, target, first, copies);
    BlockContents(target.source, first, copies);
    CreatedByCopies(plan, target, first, copies);
    SplicedContents(l.order, target, Block(target.source, first, copies));
    SplicedDistinct(l.order, target, Block(target.source, first, copies));
    var after := Advance(plan, Duplicate(target, first, copies));
    var m := Perform(l, Duplicate(target, first, copies)).value;
    forall k ensures k in m.taken <==> k.source < prefix && Created(after, k) {
      assert k in m.taken <==> k in l.taken || InBlock(k, target.source, first, copies);
    }
    forall k ensures k in m.order <==> LiveIn(after, prefix, k) {
      assert k in m.order <==> k in l.order || InBlock(k, target.source, first, copies);
    }
  }

  lemma MoveTracks(plan: Plan, prefix: nat, l: Listing, target: DeliveryKey, anchor: DeliveryKey)
    requires Tracks(plan, prefix, l) && Accepts(plan, prefix, MoveBefore(target, anchor))
    ensures Perform(l, MoveBefore(target, anchor)).Some?
    ensures Tracks(plan, prefix, Perform(l, MoveBefore(target, anchor)).value)
  {
    MovedContents(l.order, target, anchor);
  }

  /**
   Every accepted schedule can be carried out on the list, and the planner's
   counters then describe the list exactly.
   */
  lemma {:induction false} AcceptedIsCarriedOut(plan: Plan, prefix: nat, l: Listing, actions: seq<PlannedAction>)
    requires Tracks(plan, prefix, l) && AcceptsAll(plan, prefix, actions)
    ensures PerformAll(l, actions).Some?
    ensures Tracks(AdvanceAll(plan, actions), prefix, PerformAll(l, actions).value)
    decreases actions
  {
    if actions != [] {
      match actions[0] {
        case Drop(target) => DropTracks(plan, prefix, l, target);
        case Duplicate(target, first, copies) => DuplicateTracks(plan, prefix, l, target, first, copies);
        case MoveBefore(target, anchor) => MoveTracks(plan, prefix, l, target, anchor);
      }
      AcceptedIsCarriedOut(Advance(plan, actions[0]), prefix, Perform(l, actions[0]).value, actions[1..]);
    }
  }

  // ----------------------------------------------------------- counting

  function Copies(actions: seq<PlannedAction>): nat
    decreases actions
  {
    if actions == [] then 0 else
      (if actions[0].Duplicate? then actions[0].copies else 0) + Copies(actions[1..])
  }

  function Drops(actions: seq<PlannedAction>): nat
    decreases actions
  {
    if actions == [] then 0 else (if actions[0].Drop? then 1 else 0) + Drops(actions[1..])
  }

  lemma {:induction false} CountsAdvance(plan: Plan, prefix: nat, l: Listing, actions: seq<PlannedAction>)
    requires Tracks(plan, prefix, l) && AcceptsAll(plan, prefix, actions)
    ensures AdvanceAll(plan, actions).occurrences == plan.occurrences + Copies(actions)
    ensures |AdvanceAll(plan, actions).removed| == |plan.removed| + Drops(actions)
    decreases actions
  {
    if actions != [] {
      match actions[0] {
        case Drop(target) => DropTracks(plan, prefix, l, target);
        case Duplicate(target, first, copies) => DuplicateTracks(plan, prefix, l, target, first, copies);
        case MoveBefore(target, anchor) => MoveTracks(plan, prefix, l, target, anchor);
      }
      CountsAdvance(Advance(plan, actions[0]), prefix, Perform(l, actions[0]).value, actions[1..]);
    }
  }

  /** A schedule delivers the prefix plus its copies minus its drops, and no key twice. */
  lemma DeliveryCount(prefix: nat, actions: seq<PlannedAction>)
    requires AcceptsAll(StartPlan(prefix), prefix, actions)
    ensures PerformAll(StartListing(prefix), actions).Some?
    ensures var order := PerformAll(StartListing(prefix), actions).value.order;
            && Distinct(order)
            && |order| == prefix + Copies(actions) - Drops(actions)
            && (forall i :: 0 <= i < |order| ==> order[i].source < prefix && order[i].occurrence <= U16_MAX)
  {
    StartTracks(prefix);
    AcceptedIsCarriedOut(StartPlan(prefix), prefix, StartListing(prefix), actions);
    CountsAdvance(StartPlan(prefix), prefix, StartListing(prefix), actions);
    var plan := AdvanceAll(StartPlan(prefix), actions);
    var order := PerformAll(StartListing(prefix), actions).value.order;
    forall i | 0 <= i < |order| ensures order[i].source < prefix && order[i].occurrence <= U16_MAX {
      assert LiveIn(plan, prefix, order[i]);
    }
  }
}

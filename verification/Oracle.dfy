/**
 What the verdicts of a sealed trace are worth, from the records that were
 accepted to the comparison that is reported.
 */
module Oracle {
  import opened Prelude
  import opened Cache
  import opened StreamSpec
  import opened StreamStates
  import Truth
  import opened Confluence
  import opened Arena
  import opened DeliveryArenas
  import opened Planner
  import opened Trace
  import opened Normalizer
  import opened Assembler
  import opened Verdict
  import opened Unanimity
  import opened Execution

  /** A source of the prefix that the publisher of stream `i` issued. */
  predicate Issued(trace: SealedTrace, prefix: nat, i: nat, j: nat)
    requires prefix <= |trace.sources| == |trace.sourceStreams|
  {
    j < prefix && trace.sourceStreams[j] == i
  }

  // --------------------------------------------------------------- lanes

  lemma {:induction false} LaneContents(ds: seq<Delivery>, i: nat, e: Envelope)
    ensures e in Lane(ds, i) <==> exists k :: 0 <= k < |ds| && ds[k] == Delivery(i, e)
    decreases |ds|
  {
    if ds != [] {
      var front := ds[..|ds| - 1];
      LaneContents(front, i, e);
      if e in Lane(front, i) {
        var k :| 0 <= k < |front| && front[k] == Delivery(i, e);
        assert ds[k] == Delivery(i, e);
      }
      if k :| 0 <= k < |ds| && ds[k] == Delivery(i, e) {
        if k < |front| {
          assert front[k] == Delivery(i, e);
        }
      }
    }
  }

  /** Whatever a lane receives was issued for it inside the prefix. */
  lemma LaneIsIssued(trace: SealedTrace, plan: SchedulePlan, i: nat, ds: seq<Delivery>, e: Envelope) returns (j: nat)
    requires trace.Bound() && trace.Runnable(plan) && InPrefix(FaultedOrder(plan), plan.prefixLen)
    requires ds == PristineDeliveries(trace, plan) || ds == FaultedDeliveries(trace, plan)
    requires e in Lane(ds, i)
    ensures Issued(trace, plan.prefixLen, i, j) && trace.sources[j] == e
  {
    LaneContents(ds, i, e);
    var k :| 0 <= k < |ds| && ds[k] == Delivery(i, e);
    j := if ds == PristineDeliveries(trace, plan) then k else FaultedOrder(plan)[k].source;
  }

  // ----------------------------------------------------------- soundness

  /** No two issued envelopes of the stream share a cursor but differ in effect. */
  ghost predicate Consistent(trace: SealedTrace, prefix: nat, i: nat)
    requires prefix <= |trace.sources| == |trace.sourceStreams|
  {
    forall j: nat, k: nat :: Issued(trace, prefix, i, j) && Issued(trace, prefix, i, k) && trace.sources[j].cursor == trace.sources[k].cursor ==>
      Ops(trace.sources[j].mutations) == Ops(trace.sources[k].mutations)
  }

  /** Some source issued at a cursor, if there is one. */
  ghost function IssuedAt(trace: SealedTrace, prefix: nat, i: nat, c: nat): (r: Option<nat>)
    requires prefix <= |trace.sources| == |trace.sourceStreams|
    ensures r.None? <==> forall j: nat :: Issued(trace, prefix, i, j) ==> trace.sources[j].cursor != c
    ensures r.Some? ==> Issued(trace, prefix, i, r.value) && trace.sources[r.value].cursor == c
  {
    if exists j: nat :: Issued(trace, prefix, i, j) && trace.sources[j].cursor == c then
      var j: nat :| Issued(trace, prefix, i, j) && trace.sources[j].cursor == c;
      Some(j)
    else None
  }

  /** What the publisher of the stream did, read off the issued envelopes. */
  ghost function IssuedHistory(trace: SealedTrace, prefix: nat, i: nat): Truth.History
    requires prefix <= |trace.sources| == |trace.sourceStreams|
  {
    (c: nat) =>
      match IssuedAt(trace, prefix, i, c)
      case None => []
      case Some(j) => Ops(trace.sources[j].mutations)
  }

  /**
   No false accusation, end to end: if a stream was issued consistently, then
   no schedule whatever, under no window or pending limit, is ever reported as
   diverged for it.
   */
  lemma NeverFalselyDiverged(trace: SealedTrace, plan: SchedulePlan, i: nat)
    requires trace.Bound() && trace.Runnable(plan) && BothComplete(trace, plan) && i < plan.streamPrefixLen
    requires Consistent(trace, plan.prefixLen, i)
    ensures Compared(trace, plan, i).verdict != Diverged
  {
    var pristine, faulted := PristineDeliveries(trace, plan), FaultedDeliveries(trace, plan);
    LaneAgrees(trace, plan, i, pristine);
    LaneAgrees(trace, plan, i, faulted);
    assert !LaneRun(trace, pristine, i).failed && !LaneRun(trace, faulted, i).failed;
    AgreeingSidesNeverDiverge(StartOf(trace, i), IssuedHistory(trace, plan.prefixLen, i),
                              Lane(pristine, i), Lane(faulted, i), trace.limits.state);
  }

  lemma LaneAgrees(trace: SealedTrace, plan: SchedulePlan, i: nat, ds: seq<Delivery>)
    requires trace.Bound() && trace.Runnable(plan) && InPrefix(FaultedOrder(plan), plan.prefixLen)
    requires ds == PristineDeliveries(trace, plan) || ds == FaultedDeliveries(trace, plan)
    requires Consistent(trace, plan.prefixLen, i)
    ensures Truth.AllAgree(IssuedHistory(trace, plan.prefixLen, i), Lane(ds, i))
  {
    var es := Lane(ds, i);
    forall n | 0 <= n < |es| ensures Truth.Agrees(IssuedHistory(trace, plan.prefixLen, i), es[n]) {
      var j := LaneIsIssued(trace, plan, i, ds, es[n]);
    }
  }

  // -------------------------------------------------- wide windows

  /** The publisher's claims that survive the faults were all heard without them. */
  lemma FaultsClaimNothingNew(trace: SealedTrace, plan: SchedulePlan, i: nat)
    requires trace.Bound() && trace.Runnable(plan) && InPrefix(FaultedOrder(plan), plan.prefixLen)
    ensures Claims(Lane(FaultedDeliveries(trace, plan), i)) <= Claims(Lane(PristineDeliveries(trace, plan), i))
  {
    var pristine, faulted := PristineDeliveries(trace, plan), FaultedDeliveries(trace, plan);
    forall c | c in Claims(Lane(faulted, i)) ensures c in Claims(Lane(pristine, i)) {
      var es := Lane(faulted, i);
      var n :| 0 <= n < |es| && ClaimOf(es[n]) == c;
      var j := LaneIsIssued(trace, plan, i, faulted, es[n]);
      LaneContents(pristine, i, es[n]);
      assert pristine[j] == Delivery(i, es[n]);
      assert es[n] in Lane(pristine, i);
    }
  }

  /**
   No divergence under a wide window, end to end: when the window can hold
   every cursor issued for a stream, no schedule is ever reported as diverged
   for it, however its publisher contradicts itself.
   */
  lemma WideWindowHidesNothing(trace: SealedTrace, plan: SchedulePlan, i: nat)
    requires trace.Bound() && trace.Runnable(plan) && BothComplete(trace, plan) && i < plan.streamPrefixLen
    requires |SentCursors(trace, plan, i)| <= trace.limits.state.maxRecent
    ensures Compared(trace, plan, i).verdict != Diverged
  {
    var pristine, faulted := PristineDeliveries(trace, plan), FaultedDeliveries(trace, plan);
    assert !LaneRun(trace, pristine, i).failed && !LaneRun(trace, faulted, i).failed;
    LaneCursors(trace, plan, i);
    FaultsClaimNothingNew(trace, plan, i);
    WideWindowNeverDiverges(StartOf(trace, i), Lane(pristine, i), Lane(faulted, i), trace.limits.state);
  }

  // ------------------------------------------------- the window bound

  /** Exchanges sources 0 and `n + 1` around the `n` between them, in front of a last one. */
  function Exchange(n: nat): seq<PlannedAction> {
    [MoveBefore(DeliveryKey(n + 1, 0), DeliveryKey(0, 0)), MoveBefore(DeliveryKey(0, 0), DeliveryKey(n + 2, 0))]
  }

  function Exchanged(n: nat): (keys: seq<DeliveryKey>)
    ensures |keys| == n + 3
    ensures forall k :: 0 <= k < n + 3 ==> keys[k] == DeliveryKey(if k == 0 then n + 1 else if k == n + 1 then 0 else k, 0)
  {
    seq(n + 3, k requires 0 <= k < n + 3 => DeliveryKey(if k == 0 then n + 1 else if k == n + 1 then 0 else k, 0))
  }

  lemma TwoMovesPlanned(plan: Plan, prefix: nat, first: PlannedAction, second: PlannedAction)
    requires first.MoveBefore? && second.MoveBefore? && Accepts(plan, prefix, first) && Accepts(plan, prefix, second)
    ensures AcceptsAll(plan, prefix, [first, second]) && Copies([first, second]) == 0
  {
    var actions := [first, second];
    assert actions[1..] == [second] && [second][1..] == [];
    assert AcceptsAll(plan, prefix, [second]) && Copies([second]) == 0;
  }

  lemma TwoMovesPerformed(l: Listing, first: PlannedAction, second: PlannedAction, mid: Listing, last: Listing)
    requires Perform(l, first) == Some(mid) && Perform(mid, second) == Some(last)
    ensures PerformAll(l, [first, second]) == Some(last)
  {
    var actions := [first, second];
    assert actions[1..] == [second] && [second][1..] == [];
    assert PerformAll(mid, [second]) == PerformAll(last, []);
  }

  lemma ExchangeIsPlanned(n: nat)
    ensures AcceptsAll(StartPlan(n + 3), n + 3, Exchange(n)) && Copies(Exchange(n)) == 0
  {
    TwoMovesPlanned(StartPlan(n + 3), n + 3, Exchange(n)[0], Exchange(n)[1]);
  }

  /** A list without repetition after its entry at `p` was moved in front of the one at `q`. */
  lemma MovedAt(keys: seq<DeliveryKey>, p: nat, q: nat)
    requires Distinct(keys) && p < |keys| && q < |keys| && p != q
    ensures keys[p] in keys
    ensures MovedBefore(keys, keys[p], keys[q]) == InsertAt(RemoveAt(keys, p), if q < p then q else q - 1, keys[p])
  {
    IndexIsUnique(keys, p);
    RemovedContents(keys, keys[p]);
    IndexIsUnique(RemoveAt(keys, p), if q < p then q else q - 1);
  }

  /** The list after the first of the two moves. */
  function HalfExchanged(n: nat): (keys: seq<DeliveryKey>)
    ensures |keys| == n + 3
    ensures forall k :: 0 <= k < n + 3 ==> keys[k] == DeliveryKey(if k == 0 then n + 1 else if k <= n + 1 then k - 1 else k, 0)
  {
    seq(n + 3, k requires 0 <= k < n + 3 => DeliveryKey(if k == 0 then n + 1 else if k <= n + 1 then k - 1 else k, 0))
  }

  lemma FirstMove(n: nat)
    ensures Perform(StartListing(n + 3), Exchange(n)[0]) == Some(Listing(HalfExchanged(n), OriginalSet(n + 3)))
  {
    var keys := Originals(n + 3);
    MovedAt(keys, n + 1, 0);
    assert keys[0] in keys;
    assert InsertAt(RemoveAt(keys, n + 1), 0, keys[n + 1]) == HalfExchanged(n);
  }

  lemma SecondMove(n: nat)
    ensures Perform(Listing(HalfExchanged(n), OriginalSet(n + 3)), Exchange(n)[1]) == Some(Listing(Exchanged(n), OriginalSet(n + 3)))
  {
    var keys := HalfExchanged(n);
    MovedAt(keys, 1, n + 2);
    assert keys[n + 2] in keys;
    assert InsertAt(RemoveAt(keys, 1), n + 1, keys[1]) == Exchanged(n);
  }

  lemma ExchangeOrder(n: nat)
    ensures PerformAll(StartListing(n + 3), Exchange(n)) == Some(Listing(Exchanged(n), OriginalSet(n + 3)))
  {
    FirstMove(n);
    SecondMove(n);
    var all := OriginalSet(n + 3);
    TwoMovesPerformed(StartListing(n + 3), Exchange(n)[0], Exchange(n)[1], Listing(HalfExchanged(n), all), Listing(Exchanged(n), all));
  }

  /** A mixed order that reaches one stream only is that stream's lane. */
  lemma {:induction false} OnlyLane(ds: seq<Delivery>, i: nat)
    requires forall k :: 0 <= k < |ds| ==> ds[k].stream == i
    ensures |Lane(ds, i)| == |ds| && forall k :: 0 <= k < |ds| ==> Lane(ds, i)[k] == ds[k].source
    decreases |ds|
  {
    if ds != [] {
      OnlyLane(ds[..|ds| - 1], i);
    }
  }

  /** One trusted stream that contradicts itself around a run of `n` cursors, and the exchange of the rivals. */
  function RivalTrace(session: SessionMarker, limits: SessionLimits, canonical: Canonicalizer, d: StreamDeclaration,
                      id: string, n: nat, stored: u64, empty: u64): SealedTrace
    requires d.initialCursor + n <= U64_MAX
  {
    SealedTrace(session, limits, canonical, [StreamBlueprint(session, limits, RegisteredStream(d, TrustDeclaredEmpty))],
                Rivals(session.id, d.streamId, d.initialCursor, n, stored, empty), seq(n + 3, _ => 0),
                [SchedulePlan(id, 1, n + 3, Exchange(n))])
  }

  lemma RivalTraceIsBound(trace: SealedTrace, d: StreamDeclaration, id: string, n: nat, stored: u64, empty: u64)
    requires d.emptyAtEngineStart && d.initialCursor + n <= U64_MAX && n + 3 <= trace.limits.trace.maxOccurrences
    requires trace.canonical([LONE_STORE]) == Some(stored) && trace.canonical([]) == Some(empty)
    requires trace == RivalTrace(trace.session, trace.limits, trace.canonical, d, id, n, stored, empty)
    ensures trace.Bound() && trace.Runnable(trace.schedules[0])
  {
    ExchangeIsPlanned(n);
  }

  lemma RivalLanes(trace: SealedTrace, d: StreamDeclaration, id: string, n: nat, stored: u64, empty: u64)
    requires d.initialCursor + n <= U64_MAX
    requires trace == RivalTrace(trace.session, trace.limits, trace.canonical, d, id, n, stored, empty)
    ensures var plan, es := trace.schedules[0], trace.sources;
            && InPrefix(FaultedOrder(plan), plan.prefixLen)
            && Lane(PristineDeliveries(trace, plan), 0) == [es[0]] + es[1..n + 1] + [es[n + 1]] + es[n + 2..]
            && Lane(FaultedDeliveries(trace, plan), 0) == [es[n + 1]] + es[1..n + 1] + [es[0]] + es[n + 2..]
  {
    var plan := trace.schedules[0];
    ExchangeOrder(n);
    OnlyLane(PristineDeliveries(trace, plan), 0);
    OnlyLane(FaultedDeliveries(trace, plan), 0);
    RivalsSplit(trace.sources, Lane(PristineDeliveries(trace, plan), 0), n);
    RivalsExchanged(trace.sources, Lane(FaultedDeliveries(trace, plan), 0), n);
  }

  lemma RivalsSplit(es: seq<Envelope>, fs: seq<Envelope>, n: nat)
    requires |fs| == |es| == n + 3 && forall k :: 0 <= k < n + 3 ==> fs[k] == es[k]
    ensures fs == [es[0]] + es[1..n + 1] + [es[n + 1]] + es[n + 2..]
  {
  }

  lemma RivalsExchanged(es: seq<Envelope>, fs: seq<Envelope>, n: nat)
    requires |fs| == |es| == n + 3 && fs[0] == es[n + 1] && fs[n + 1] == es[0]
    requires forall k :: 0 < k < n + 3 && k != n + 1 ==> fs[k] == es[k]
    ensures fs == [es[n + 1]] + es[1..n + 1] + [es[0]] + es[n + 2..]
  {
  }

  lemma RivalTraceDiverges(trace: SealedTrace, d: StreamDeclaration, id: string, n: nat, stored: u64, empty: u64)
    requires d.initialCursor + n <= U64_MAX && n == trace.limits.state.maxRecent
    requires trace.limits.state.cache.maxKeys >= 1 && trace.limits.state.cache.maxBytes >= 8
    requires trace == RivalTrace(trace.session, trace.limits, trace.canonical, d, id, n, stored, empty)
    requires trace.Bound() && trace.Runnable(trace.schedules[0])
    ensures BothComplete(trace, trace.schedules[0]) && |SentCursors(trace, trace.schedules[0], 0)| == n + 1
    ensures Compared(trace, trace.schedules[0], 0).verdict == Diverged
  {
    var plan := trace.schedules[0];
    RivalLanes(trace, d, id, n, stored, empty);
    LaneCursors(trace, plan, 0);
    RivalsDiverge(StartOf(trace, 0), n, stored, empty, trace.limits.state,
                  Lane(PristineDeliveries(trace, plan), 0), Lane(FaultedDeliveries(trace, plan), 0));
  }

  /**
   The window bound of the previous result cannot be lowered: under every
   window size there is a sealed trace with one issued cursor more and a
   schedule of two moves that is reported as diverged.
   */
  lemma NarrowWindowDiverges(session: SessionMarker, limits: SessionLimits, canonical: Canonicalizer, d: StreamDeclaration, id: string)
      returns (trace: SealedTrace, plan: SchedulePlan)
    requires d.emptyAtEngineStart && d.initialCursor + limits.state.maxRecent <= U64_MAX
    requires limits.state.cache.maxKeys >= 1 && limits.state.cache.maxBytes >= 8
    requires limits.state.maxRecent + 3 <= limits.trace.maxOccurrences
    requires canonical([LONE_STORE]).Some? && canonical([LONE_STORE]).value <= U64_MAX
    requires canonical([]).Some? && canonical([]).value <= U64_MAX
    ensures trace.Bound() && (trace.session, trace.limits, trace.canonical) == (session, limits, canonical)
    ensures forall j, k :: 0 <= j < k < |trace.sources| ==> trace.sources[j].envelopeId != trace.sources[k].envelopeId
    ensures trace.schedules == [plan] && trace.Runnable(plan) && BothComplete(trace, plan) && plan.streamPrefixLen == |trace.streams| == 1
    ensures forall k :: 0 <= k < |plan.actions| ==> plan.actions[k].MoveBefore?
    ensures |SentCursors(trace, plan, 0)| == limits.state.maxRecent + 1
    ensures Compared(trace, plan, 0).verdict == Diverged
  {
    var n, stored, empty := limits.state.maxRecent, canonical([LONE_STORE]).value, canonical([]).value;
    trace := RivalTrace(session, limits, canonical, d, id, n, stored, empty);
    plan := trace.schedules[0];
    RivalTraceIsBound(trace, d, id, n, stored, empty);
    RivalTraceDiverges(trace, d, id, n, stored, empty);
  }

  // -------------------------------------------------------- completeness

  /** Equal cursors of the stream always carry equal mutations. */
  ghost predicate Unequivocal(trace: SealedTrace, prefix: nat, i: nat)
    requires prefix <= |trace.sources| == |trace.sourceStreams|
  {
    forall j: nat, k: nat :: Issued(trace, prefix, i, j) && Issued(trace, prefix, i, k) && trace.sources[j].cursor == trace.sources[k].cursor ==>
      trace.sources[j].mutations == trace.sources[k].mutations
  }

  /** The payload issued at each cursor. */
  ghost function IssuedPayloads(trace: SealedTrace, prefix: nat, i: nat): Ledgered
    requires prefix <= |trace.sources| == |trace.sourceStreams|
  {
    (c: nat) =>
      match IssuedAt(trace, prefix, i, c)
      case None => Payload([], 0)
      case Some(j) => Payload(trace.sources[j].mutations, trace.sources[j].canonicalBytes)
  }

  /** The cursors issued for the stream. */
  function SentCursors(trace: SealedTrace, plan: SchedulePlan, i: nat): set<u64>
    requires plan.prefixLen <= |trace.sources| == |trace.sourceStreams|
  {
    set j | 0 <= j < plan.prefixLen && trace.sourceStreams[j] == i :: trace.sources[j].cursor
  }

  /** The cursors of the stream that still have a live occurrence after the faults. */
  function LiveCursors(trace: SealedTrace, plan: SchedulePlan, i: nat): set<u64>
    requires InPrefix(FaultedOrder(plan), plan.prefixLen) && plan.prefixLen <= |trace.sources| == |trace.sourceStreams|
  {
    var order := FaultedOrder(plan);
    set k | 0 <= k < |order| && trace.sourceStreams[order[k].source] == i :: trace.sources[order[k].source].cursor
  }

  lemma LaneCursors(trace: SealedTrace, plan: SchedulePlan, i: nat)
    requires trace.Bound() && trace.Runnable(plan) && InPrefix(FaultedOrder(plan), plan.prefixLen)
    ensures Cursors(Lane(PristineDeliveries(trace, plan), i)) == SentCursors(trace, plan, i)
    ensures Cursors(Lane(FaultedDeliveries(trace, plan), i)) == LiveCursors(trace, plan, i)
    ensures LiveCursors(trace, plan, i) <= SentCursors(trace, plan, i)
  {
    var order, originals := FaultedOrder(plan), PristineDeliveries(trace, plan);
    forall c | c in SentCursors(trace, plan, i) ensures c in Cursors(Lane(originals, i)) {
      var j :| 0 <= j < plan.prefixLen && trace.sourceStreams[j] == i && trace.sources[j].cursor == c;
      CursorsOfLane(originals, i);
      assert originals[j].stream == i && originals[j].source.cursor == c;
    }
    CursorsOfLane(originals, i);
    CursorsOfLane(FaultedDeliveries(trace, plan), i);
    forall c | c in LiveCursors(trace, plan, i) ensures c in SentCursors(trace, plan, i) {
      var k :| 0 <= k < |order| && trace.sourceStreams[order[k].source] == i && trace.sources[order[k].source].cursor == c;
    }
  }

  lemma CursorsOfLane(ds: seq<Delivery>, i: nat)
    ensures Cursors(Lane(ds, i)) == set k | 0 <= k < |ds| && ds[k].stream == i :: ds[k].source.cursor
  {
    var es := Lane(ds, i);
    forall c ensures c in Cursors(es) <==> exists k :: 0 <= k < |ds| && ds[k].stream == i && ds[k].source.cursor == c {
      if c in Cursors(es) {
        var n :| 0 <= n < |es| && es[n].cursor == c;
        LaneContents(ds, i, es[n]);
      }
      if k :| 0 <= k < |ds| && ds[k].stream == i && ds[k].source.cursor == c {
        LaneContents(ds, i, ds[k].source);
        var n :| 0 <= n < |es| && es[n] == ds[k].source;
      }
    }
  }

  lemma LaneIsFaithful(trace: SealedTrace, plan: SchedulePlan, i: nat, ds: seq<Delivery>)
    requires trace.Bound() && trace.Runnable(plan) && InPrefix(FaultedOrder(plan), plan.prefixLen) && i < |trace.streams|
    requires ds == PristineDeliveries(trace, plan) || ds == FaultedDeliveries(trace, plan)
    requires Unequivocal(trace, plan.prefixLen, i)
    ensures AllFaithful(IssuedPayloads(trace, plan.prefixLen, i), StartOf(trace, i), Lane(ds, i))
  {
    var es := Lane(ds, i);
    forall n | 0 <= n < |es| ensures Faithful(IssuedPayloads(trace, plan.prefixLen, i), StartOf(trace, i), es[n]) {
      var j := LaneIsIssued(trace, plan, i, ds, es[n]);
      var first := IssuedAt(trace, plan.prefixLen, i, es[n].cursor).value;
      assert SourceAt(j) && SourceAt(first) && trace.SourceBound(j) && trace.SourceBound(first);
    }
  }

  /** The limits can hold every cursor the stream was issued, in any order. */
  ghost predicate Sufficient(trace: SealedTrace, plan: SchedulePlan, i: nat)
    requires plan.prefixLen <= |trace.sources| == |trace.sourceStreams| && i < |trace.streams|
  {
    Adequate(trace.limits.state, IssuedPayloads(trace, plan.prefixLen, i), StartOf(trace, i).initial, SentCursors(trace, plan, i))
  }

  ghost predicate Trusted(trace: SealedTrace, i: nat)
    requires i < |trace.streams|
  {
    trace.streams[i].registration.authority == TrustDeclaredEmpty
  }

  lemma NoSideDiscards(trace: SealedTrace, plan: SchedulePlan, i: nat, ds: seq<Delivery>)
    requires trace.Bound() && trace.Runnable(plan) && InPrefix(FaultedOrder(plan), plan.prefixLen) && i < |trace.streams|
    requires ds == PristineDeliveries(trace, plan) || ds == FaultedDeliveries(trace, plan)
    requires Trusted(trace, i) && Unequivocal(trace, plan.prefixLen, i) && Sufficient(trace, plan, i)
    requires !LaneRun(trace, ds, i).failed
    ensures LaneRun(trace, ds, i).unavailableFloor.None?
  {
    var s, h := StartOf(trace, i), IssuedPayloads(trace, plan.prefixLen, i);
    LaneIsFaithful(trace, plan, i, ds);
    LaneCursors(trace, plan, i);
    TrustedStartSettles(s.session, s.streamId, s.scope, s.initial, h, trace.limits.state);
    RunDiscardsNothing(s, h, {}, SentCursors(trace, plan, i), Lane(ds, i), trace.limits.state);
  }

  /**
   The verdict of a trusted, unequivocal stream under sufficient limits depends
   on nothing but which cursors were issued and which of them are still live:
   converged exactly when both are settled at the same cursor.
   */
  lemma VerdictBySurvivors(trace: SealedTrace, plan: SchedulePlan, i: nat)
    requires trace.Bound() && trace.Runnable(plan) && BothComplete(trace, plan) && i < plan.streamPrefixLen
    requires Trusted(trace, i) && Unequivocal(trace, plan.prefixLen, i) && Sufficient(trace, plan, i)
    ensures Compared(trace, plan, i).verdict ==
      if SettledTogether(IssuedPayloads(trace, plan.prefixLen, i), StartOf(trace, i).initial,
                         SentCursors(trace, plan, i), LiveCursors(trace, plan, i))
      then Converged else Ineligible
  {
    var pristine, faulted := PristineDeliveries(trace, plan), FaultedDeliveries(trace, plan);
    assert !LaneRun(trace, pristine, i).failed && !LaneRun(trace, faulted, i).failed;
    NoSideDiscards(trace, plan, i, pristine);
    NoSideDiscards(trace, plan, i, faulted);
    LaneIsFaithful(trace, plan, i, pristine);
    LaneIsFaithful(trace, plan, i, faulted);
    LaneCursors(trace, plan, i);
    VerdictBySet(StartOf(trace, i), IssuedPayloads(trace, plan.prefixLen, i), Lane(pristine, i), Lane(faulted, i), trace.limits.state);
  }

  /** Every cursor from the initial one up to `last` was issued, and none beyond. */
  ghost predicate Dense(d: set<u64>, initial: u64, last: nat) {
    last <= U64_MAX && initial <= last && forall c: u64 :: c in d <==> initial <= c <= last
  }

  /**
   Reordering and duplication converge: a densely issued trusted stream that
   keeps a live occurrence of every cursor ends exact at its last cursor on
   both sides, with one and the same view.
   */
  lemma SurvivorsConverge(trace: SealedTrace, plan: SchedulePlan, i: nat, last: nat)
    requires trace.Bound() && trace.Runnable(plan) && BothComplete(trace, plan) && i < plan.streamPrefixLen
    requires Trusted(trace, i) && Unequivocal(trace, plan.prefixLen, i) && Sufficient(trace, plan, i)
    requires Dense(SentCursors(trace, plan, i), StartOf(trace, i).initial, last)
    requires LiveCursors(trace, plan, i) == SentCursors(trace, plan, i)
    ensures var pristine, faulted := PristineDeliveries(trace, plan), FaultedDeliveries(trace, plan);
            && !LaneRun(trace, pristine, i).failed && !LaneRun(trace, faulted, i).failed
            && ConvergedAt(SummaryOf(LaneRun(trace, pristine, i), trace.limits.state),
                           SummaryOf(LaneRun(trace, faulted, i), trace.limits.state), last)
  {
    var pristine, faulted := PristineDeliveries(trace, plan), FaultedDeliveries(trace, plan);
    assert !LaneRun(trace, pristine, i).failed && !LaneRun(trace, faulted, i).failed;
    NoSideDiscards(trace, plan, i, pristine);
    NoSideDiscards(trace, plan, i, faulted);
    LaneIsFaithful(trace, plan, i, pristine);
    LaneIsFaithful(trace, plan, i, faulted);
    LaneCursors(trace, plan, i);
    DenseIsSettled(IssuedPayloads(trace, plan.prefixLen, i), StartOf(trace, i).initial, SentCursors(trace, plan, i), last);
    SettledRunsConverge(StartOf(trace, i), IssuedPayloads(trace, plan.prefixLen, i), Lane(pristine, i), Lane(faulted, i), trace.limits.state);
  }

  lemma DenseIsSettled(h: Ledgered, initial: u64, d: set<u64>, last: nat)
    requires Dense(d, initial, last)
    ensures SettledAt(h, initial, d, last)
  {
    assert Anchored(h, initial, d, initial, last);
  }

  /** A schedule that only duplicates and moves keeps every cursor alive. */
  lemma NothingDroppedKeepsAll(trace: SealedTrace, plan: SchedulePlan, i: nat)
    requires trace.Bound() && trace.Runnable(plan) && Drops(plan.actions) == 0
    ensures InPrefix(FaultedOrder(plan), plan.prefixLen)
    ensures LiveCursors(trace, plan, i) == SentCursors(trace, plan, i)
  {
    ScheduleMaterializes(trace, plan);
    LaneCursors(trace, plan, i);
    var order := FaultedOrder(plan);
    forall c | c in SentCursors(trace, plan, i) ensures c in LiveCursors(trace, plan, i) {
      var j :| 0 <= j < plan.prefixLen && trace.sourceStreams[j] == i && trace.sources[j].cursor == c;
      OriginalsRemain(plan.prefixLen, plan.actions, j);
      var k :| 0 <= k < |order| && order[k] == DeliveryKey(j, 0);
    }
  }

  lemma OriginalsRemain(prefix: nat, actions: seq<PlannedAction>, j: nat)
    requires AcceptsAll(StartPlan(prefix), prefix, actions) && Drops(actions) == 0 && j < prefix
    ensures PerformAll(StartListing(prefix), actions).Some?
    ensures DeliveryKey(j, 0) in PerformAll(StartListing(prefix), actions).value.order
  {
    StartTracks(prefix);
    AcceptedIsCarriedOut(StartPlan(prefix), prefix, StartListing(prefix), actions);
    CountsAdvance(StartPlan(prefix), prefix, StartListing(prefix), actions);
    assert LiveIn(AdvanceAll(StartPlan(prefix), actions), prefix, DeliveryKey(j, 0));
  }
}

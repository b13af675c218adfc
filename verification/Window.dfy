/**
 The fingerprint window covers exactly the last applied cursors since the
 stream began or the last barrier, and classifies redeliveries inside it
 exactly by what was applied there and what first contradicted it.
 */
module Window {
  import opened Prelude
  import opened Cache
  import opened StreamSpec
  import opened Ledger

  /** What was applied at one cursor, and the first later delivery there that differed. */
  datatype Application = Application(digest: Fingerprint, rival: Option<Fingerprint>)

  /** The applications since the start or the last barrier, oldest first, ending at the frontier. */
  type Applications = seq<Application>

  function Unopposed(facts: seq<Fact>): (r: Applications)
    ensures |r| == |facts| && forall i :: 0 <= i < |facts| ==> r[i] == Application(facts[i].digest, None)
  {
    seq(|facts|, i requires 0 <= i < |facts| => Application(facts[i].digest, None))
  }

  /** The record after one more delivery at an old cursor: the first that differs becomes the rival. */
  function Opposed(past: Applications, next: nat, cursor: nat, seen: Fingerprint): (r: Applications)
    ensures |r| == |past| && forall i :: 0 <= i < |past| ==> r[i].digest == past[i].digest
  {
    var i := cursor - (next - |past|);
    if 0 <= i < |past| && past[i].rival.None? && past[i].digest != seen then past[i := past[i].(rival := Some(seen))]
    else past
  }

  /** How the record of applications grows by one delivery. */
  function Extend(past: Applications, s: State, e: Envelope): Applications {
    match RouteOf(s, e)
    case Apply(barrier) => (if barrier then [] else past) + Unopposed(AppliedFacts(s, e, DrainLast(s, e, barrier)))
    case Past => Opposed(past, Next(s), e.cursor, e.Print())
    case _ => past
  }

  /** What the window has to hold for an application. */
  function SlotOf(a: Application): RecentSlot {
    match a.rival case None => Seen(a.digest) case Some(rival) => Disputed(a.digest, rival)
  }

  predicate InRecord(past: Applications, next: nat, cursor: int) { next - |past| <= cursor < next }

  /** The application on record at a cursor. */
  function RecordAt(past: Applications, next: nat, cursor: int): Application
    requires InRecord(past, next, cursor)
  {
    past[cursor - (next - |past|)]
  }

  ghost predicate Covers(s: State, past: Applications, l: Limits) {
    && (past == [] <==> s.frontier.None?)
    && CoversBlock(s.recent, Next(s), past, l.maxRecent)
  }

  ghost predicate CoversBlock(recent: map<u64, RecentSlot>, next: nat, past: Applications, maximum: nat) {
    && |past| <= next
    && |recent| == Min(|past|, maximum)
    && (forall c :: c in recent ==> InRecord(past, next, c) && recent[c] == SlotOf(RecordAt(past, next, c)))
  }

  /** A contiguous block that ends at `next` is determined by its size. */
  lemma {:induction false} BlockIsExact(recent: map<u64, RecentSlot>, next: nat)
    requires Contiguous(recent, next)
    ensures |recent| <= next
    ensures forall c: u64 :: c in recent <==> next - |recent| <= c < next
    decreases |recent|
  {
    if recent != map[] {
      var some :| some in recent;
      assert next - 1 in recent;
      var top: u64 := next - 1;
      var rest := recent - {top};
      MapRemoveSize(recent, top);
      forall c | c in rest ensures c < top && forall d :: c <= d < top ==> d in rest {
      }
      BlockIsExact(rest, top);
      forall c: u64 ensures c in recent <==> next - |recent| <= c < next {
        assert c in recent <==> c == top || c in rest;
      }
    } else {
      assert |recent| == 0;
    }
  }

  /** The window holds precisely the last `min(window, applied)` cursors, each with what was applied there. */
  lemma WindowIsExact(s: State, past: Applications, l: Limits)
    requires WindowInv(s, l) && Covers(s, past, l)
    ensures forall c: u64 :: c in s.recent <==> Next(s) - Min(|past|, l.maxRecent) <= c < Next(s)
  {
    BlockIsExact(s.recent, Next(s));
  }

  /**
   An old delivery inside the window repeats what was applied at its cursor or
   what first contradicted that, or else is one more contradiction; outside the
   window nothing but a counter moves.
   */
  lemma PastDeliveryIsExact(s: State, past: Applications, e: Envelope, l: Limits)
    requires WindowInv(s, l) && Covers(s, past, l) && Next(s) > e.cursor
    ensures var (t, d) := PastDelivery(s, e, l);
            var covered := Next(s) - Min(|past|, l.maxRecent) <= e.cursor;
            && t.keys == s.keys && t.frontier == s.frontier && t.pending == s.pending
            && (if covered then
                  var applied := RecordAt(past, Next(s), e.cursor);
                  && e.cursor in s.recent
                  && (d == Duplicate <==> e.Print() == applied.digest || Some(e.Print()) == applied.rival)
                  && (d == Equivocation <==> d != Duplicate)
                  && (d == Equivocation ==> !t.viewAuthoritative && t.Certainty() == Unknown)
                else
                  && d == (if e.HasClear() then StaleBarrier else StaleUnverifiable)
                  && t == s.(diagnostics := t.diagnostics))
  {
    WindowIsExact(s, past, l);
    PastDeliveryFrame(s, e, l);
  }

  // ------------------------------------------------------- preservation

  lemma AppliedCovers(s: State, past: Applications, e: Envelope, barrier: bool, l: Limits, t: State, d: Disposition)
    requires WindowInv(s, l) && DisputeInv(s) && Covers(s, past, l)
    requires Applicable(s, e, barrier) && ApplySource(s, e, barrier, l) == Ok((t, d))
    ensures Covers(t, (if barrier then [] else past) + Unopposed(AppliedFacts(s, e, DrainLast(s, e, barrier))), l)
  {
    CommittedFrame(s, e, barrier, l, t, d);
    AppliedWindow(s, e, barrier, l, t, d);
    BlockBefore(s, past, e, barrier, l);
    ExtendCovers(t, if barrier then map[] else s.recent, if barrier then [] else past,
                 AppliedFacts(s, e, DrainLast(s, e, barrier)), e.cursor, l);
  }

  lemma ExtendCovers(t: State, before: map<u64, RecentSlot>, kept: Applications, facts: seq<Fact>, from: nat, l: Limits)
    requires |facts| > 0 && t.frontier.Some? && Next(t) == from + |facts|
    requires CoversBlock(before, from, kept, l.maxRecent) && WindowAfter(before, facts, from, l.maxRecent, t.recent)
    ensures Covers(t, kept + Unopposed(facts), l)
  {
    ExtendBlock(before, kept, facts, from, l.maxRecent, t.recent);
    NonemptyCovers(t, kept + Unopposed(facts), from + |facts|, l);
  }

  lemma NonemptyCovers(t: State, past: Applications, next: nat, l: Limits)
    requires |past| > 0 && t.frontier.Some? && Next(t) == next && CoversBlock(t.recent, next, past, l.maxRecent)
    ensures Covers(t, past, l)
  {
  }

  /** The window that an application leaves. */
  lemma AppliedWindow(s: State, e: Envelope, barrier: bool, l: Limits, t: State, d: Disposition)
    requires WindowInv(s, l) && DisputeInv(s)
    requires Applicable(s, e, barrier) && ApplySource(s, e, barrier, l) == Ok((t, d))
    ensures var facts := AppliedFacts(s, e, DrainLast(s, e, barrier));
            && facts != [] && e.cursor + |facts| == DrainLast(s, e, barrier) + 1
            && WindowAfter(if barrier then map[] else s.recent, facts, e.cursor, l.maxRecent, t.recent)
  {
    var f := FoldBounded(Folded(s.keys, 0), ApplyOps(s, e, barrier), l.cache).value;
    AppliedFactsDigests(s, e, DrainLast(s, e, barrier));
    CommittedWindow(s, e, barrier, DrainLast(s, e, barrier), f, l);
  }

  /** What an application builds on: nothing behind a barrier, the whole record otherwise. */
  lemma BlockBefore(s: State, past: Applications, e: Envelope, barrier: bool, l: Limits)
    requires Covers(s, past, l) && Applicable(s, e, barrier)
    ensures CoversBlock(if barrier then map[] else s.recent, e.cursor, if barrier then [] else past, l.maxRecent)
  {
    if barrier {
      var none: map<u64, RecentSlot> := map[];
      assert |none| == 0;
    } else if s.frontier.None? {
      assert past == [];
    }
  }

  /** Recording consecutive facts extends the covered block by exactly them. */
  lemma ExtendBlock(before: map<u64, RecentSlot>, kept: Applications, facts: seq<Fact>, from: nat, maximum: nat, after: map<u64, RecentSlot>)
    requires CoversBlock(before, from, kept, maximum) && WindowAfter(before, facts, from, maximum, after)
    ensures CoversBlock(after, from + |facts|, kept + Unopposed(facts), maximum)
  {
    var now := kept + Unopposed(facts);
    var next := from + |facts|;
    forall c | c in after ensures InRecord(now, next, c) && after[c] == SlotOf(RecordAt(now, next, c)) {
      assert c < from ==> c in before && after[c] == before[c];
      ExtendedRecord(kept, facts, from, c);
    }
  }

  /** What an extended record says: the old part is shifted, the new part follows the facts. */
  lemma ExtendedRecord(kept: Applications, facts: seq<Fact>, from: nat, c: nat)
    requires |kept| <= from && from - |kept| <= c < from + |facts|
    ensures RecordAt(kept + Unopposed(facts), from + |facts|, c) ==
            if c < from then RecordAt(kept, from, c) else Application(facts[c - from].digest, None)
  {
  }

  lemma DeliveryCovers(s: State, past: Applications, e: Envelope, l: Limits, t: State, d: Disposition)
    requires PendingInv(s) && WindowInv(s, l) && DisputeInv(s)
    requires Covers(s, past, l) && Delivered(s, e, l, t, d)
    ensures Covers(t, Extend(past, s, e), l)
  {
    match RouteOf(s, e) {
      case Redelivered => RedeliveredCovers(s, past, e, l);
      case Past => PastCovers(s, past, e, l);
      case Withheld =>
      case Apply(barrier) => AppliedCovers(s, past, e, barrier, l, t, d);
      case Held => HeldCovers(s, past, e, Next(s), l);
    }
  }

  lemma RedeliveredCovers(s: State, past: Applications, e: Envelope, l: Limits)
    requires Covers(s, past, l) && e.cursor in s.pending
    ensures Covers(PendingRedelivery(s, e, l).0, past, l)
  {
    PendingRedeliveryFrame(s, e, l);
  }

  lemma HeldCovers(s: State, past: Applications, e: Envelope, expected: u64, l: Limits)
    requires Covers(s, past, l) && expected < e.cursor
    ensures Covers(Buffer(s, e, expected, l).0, past, l)
  {
    BufferFrame(s, e, expected, l);
  }

  lemma PastCovers(s: State, past: Applications, e: Envelope, l: Limits)
    requires Covers(s, past, l)
    ensures Covers(PastDelivery(s, e, l).0, Opposed(past, Next(s), e.cursor, e.Print()), l)
  {
    PastDeliveryFrame(s, e, l);
    OpposedCovers(s.recent, Next(s), past, l.maxRecent, e.cursor, e.Print(), PastDelivery(s, e, l).0.recent);
  }

  /** The window follows the record when an old delivery opposes an application. */
  lemma OpposedCovers(
      recent: map<u64, RecentSlot>, next: nat, past: Applications, maximum: nat,
      c: u64, seen: Fingerprint, after: map<u64, RecentSlot>)
    requires CoversBlock(recent, next, past, maximum)
    requires after == if c in recent && recent[c].Seen? && recent[c].first != seen
                      then recent[c := Disputed(recent[c].first, seen)] else recent
    ensures CoversBlock(after, next, Opposed(past, next, c, seen), maximum)
  {
    if c in recent {
      MapInsertSize(recent, c, Disputed(recent[c].first, seen));
    }
  }

  /** The record of applications after a whole run. */
  ghost function History(past: Applications, s: State, es: seq<Envelope>, l: Limits): Applications
    decreases es
  {
    if es == [] then past else
      var step := if s.failed || AdmitInner(s, es[0], l).Err? then past else Extend(past, s, es[0]);
      History(step, Admit(s, Sealed, es[0], l).0, es[1..], l)
  }

  /** In every reachable state the window covers exactly the most recent applications. */
  lemma {:induction false} RunCovers(s: State, past: Applications, es: seq<Envelope>, l: Limits)
    requires Inv(s, l) && Covers(s, past, l)
    ensures var t := Run(s, es, l);
            var applied := History(past, s, es, l);
            && Covers(t, applied, l)
            && forall c: u64 :: c in t.recent <==> Next(t) - Min(|applied|, l.maxRecent) <= c < Next(t)
    decreases es
  {
    if es == [] {
      WindowIsExact(s, past, l);
    } else {
      var t := Admit(s, Sealed, es[0], l).0;
      AdmitKeepsInv(s, Sealed, es[0], l);
      if !s.failed && AdmitInner(s, es[0], l).Ok? {
        AcceptedIsDelivered(s, es[0], l, t, AdmitInner(s, es[0], l).value.1);
        DeliveryCovers(s, past, es[0], l, t, AdmitInner(s, es[0], l).value.1);
        RunCovers(t, Extend(past, s, es[0]), es[1..], l);
      } else {
        RunCovers(t, past, es[1..], l);
      }
    }
  }
}

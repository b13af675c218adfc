/**
 Splitting a byte stream into JSON Lines records. The reader is fed buffers of
 any size by its source; what it returns depends only on the bytes.
 */
module Framing {
  import opened Prelude

  const LF: nat := 10
  const CR: nat := 13

  datatype ReadLimits = ReadLimits(maxRecords: u64, maxLineBytes: nat, maxTraceBytes: u64)

  /** `line` is the one-based physical line. */
  datatype ReadError =
    | LineTooLong(line: nat, maximum: nat)
    | RecordLimit(line: nat, maximum: nat)
    | TraceBytes(line: nat, maximum: nat)
    | CodecRejected(line: nat)
    | LineNumberOverflow

  // ------------------------------------------------------- reference split

  /** The place of the first line feed from `i` on, or the length when there is none. */
  function FeedFrom(bytes: seq<nat>, i: nat): (n: nat)
    requires i <= |bytes|
    ensures i <= n <= |bytes| && (n < |bytes| ==> bytes[n] == LF)
    decreases |bytes| - i
  {
    if i == |bytes| || bytes[i] == LF then i else FeedFrom(bytes, i + 1)
  }

  function FirstFeed(bytes: seq<nat>): (n: nat)
    ensures n <= |bytes| && (n < |bytes| ==> bytes[n] == LF)
  {
    FeedFrom(bytes, 0)
  }

  lemma {:induction false} FeedIsFirst(bytes: seq<nat>, i: nat, k: nat)
    requires i <= k < |bytes| && bytes[k] == LF
    ensures FeedFrom(bytes, i) <= k
    decreases k - i
  {
    if bytes[i] != LF {
      FeedIsFirst(bytes, i + 1, k);
    }
  }

  lemma {:induction false} NoFeedBefore(bytes: seq<nat>, i: nat, k: nat)
    requires i <= k <= |bytes| && (forall j :: i <= j < k ==> bytes[j] != LF)
    ensures FeedFrom(bytes, i) >= k
    decreases k - i
  {
    if i < k {
      NoFeedBefore(bytes, i + 1, k);
    }
  }

  function StripReturn(line: seq<nat>): seq<nat> {
    if line != [] && line[|line| - 1] == CR then line[..|line| - 1] else line
  }

  /** The first line of nonempty input: up to a line feed, less one carriage return, or the whole tail. */
  function FirstLine(bytes: seq<nat>): seq<nat> {
    var n := FirstFeed(bytes);
    if n == |bytes| then bytes else StripReturn(bytes[..n])
  }

  /** How many bytes the first line takes, with its terminator. */
  function Extent(bytes: seq<nat>): (m: nat)
    ensures m <= |bytes| && (bytes != [] ==> m > 0)
  {
    Min(FirstFeed(bytes) + 1, |bytes|)
  }

  datatype Scanned =
    | NoMore
    | Payload(line: seq<nat>, used: nat)
    | TooLong(used: nat)
    | TooMany(used: nat)

  /** Reading one payload when `allowed` more bytes may be read and a line may have `longest`. */
  function ScanLine(bytes: seq<nat>, longest: nat, allowed: nat): Scanned {
    if bytes == [] then NoMore
    else if |FirstLine(bytes)| > longest && longest < allowed then TooLong(longest + 1)
    else if Extent(bytes) > allowed then TooMany(allowed)
    else Payload(FirstLine(bytes), Extent(bytes))
  }

  /** All lines of the input. */
  function Lines(bytes: seq<nat>): seq<seq<nat>>
    decreases |bytes|
  {
    if bytes == [] then [] else [FirstLine(bytes)] + Lines(bytes[Extent(bytes)..])
  }

  // ---------------------------------------------------------------- source

  /**
   A buffered source: the bytes still to come, and the sizes of the buffers in
   which they will be offered. The sizes are arbitrary but never zero; beyond
   them the whole rest is one buffer.
   */
  class BufferedSource {
    var rest: seq<nat>
    var sizes: seq<nat>

    ghost predicate Valid()
      reads this`sizes
    {
      forall i :: 0 <= i < |sizes| ==> sizes[i] > 0
    }

    constructor (bytes: seq<nat>, sizes: seq<nat>)
      requires forall i :: 0 <= i < |sizes| ==> sizes[i] > 0
      ensures Valid() && rest == bytes && this.sizes == sizes
    {
      rest := bytes;
      this.sizes := sizes;
    }

    function Offered(): (n: nat)
      reads this
      ensures n <= |rest|
    {
      if sizes == [] then |rest| else Min(sizes[0], |rest|)
    }

    /** The current buffer; it is empty exactly at the end of the input. */
    method FillBuf() returns (available: seq<nat>)
      requires Valid()
      ensures available == rest[..Offered()] && (available == [] <==> rest == [])
    {
      return rest[..Offered()];
    }

    method Consume(count: nat)
      requires Valid() && count <= Offered()
      modifies this
      ensures Valid() && rest == old(rest)[count..]
    {
      if sizes != [] {
        sizes := if count < sizes[0] then [sizes[0] - count] + sizes[1..] else sizes[1..];
      }
      rest := rest[count..];
    }
  }

  // ---------------------------------------------------------------- reader

  datatype LocatedRecord = LocatedRecord(line: nat, payload: seq<nat>)

  /** One reading step as a function of the bytes alone: the answer, the bytes used, and whether a record was taken. */
  datatype Reading = Reading(answer: Result<Option<LocatedRecord>, ReadError>, used: nat, taken: bool)

  function ReadStep(atEnd: bool, scanned: Scanned, records: nat, limits: ReadLimits, accepts: seq<nat> -> bool): Reading {
    var line := records + 1;
    if line > U64_MAX then Reading(Err(LineNumberOverflow), 0, false)
    else if records >= limits.maxRecords then
      Reading(if atEnd then Ok(None) else Err(RecordLimit(line, limits.maxRecords)), 0, false)
    else
      match scanned
      case NoMore => Reading(Ok(None), 0, false)
      case TooLong(used) => Reading(Err(LineTooLong(line, limits.maxLineBytes)), used, false)
      case TooMany(used) => Reading(Err(TraceBytes(line, limits.maxTraceBytes)), used, false)
      case Payload(payload, used) =>
        if accepts(payload) then Reading(Ok(Some(LocatedRecord(line, payload))), used, true)
        else Reading(Err(CodecRejected(line)), used, false)
  }

  /** What the iterator hands out for an answer. */
  function ItemOf(answer: Result<Option<LocatedRecord>, ReadError>): Option<Result<LocatedRecord, ReadError>> {
    match answer
    case Ok(None) => None
    case Ok(Some(record)) => Some(Ok(record))
    case Err(error) => Some(Err(error))
  }

  function StepOn(bytes: seq<nat>, records: nat, bytesRead: nat, limits: ReadLimits, accepts: seq<nat> -> bool): Reading
    requires bytesRead <= limits.maxTraceBytes
  {
    ReadStep(bytes == [], ScanLine(bytes, limits.maxLineBytes, limits.maxTraceBytes - bytesRead), records, limits, accepts)
  }

  /** What has been collected of a line: everything so far, less a carriage return that may belong to the terminator. */
  ghost predicate Collected(bytes: seq<nat>, k: nat, scratch: seq<nat>, pending: bool, longest: nat) {
    && k <= |bytes| && k <= FirstFeed(bytes)
    && bytes[..k] == scratch + (if pending then [CR] else [])
    && (!pending && k > 0 ==> bytes[k - 1] != CR)
    && |scratch| <= longest
  }

  class JsonlReader {
    const inner: BufferedSource
    const limits: ReadLimits
    /** Whether the record decoder accepts a payload. */
    const accepts: seq<nat> -> bool
    var recordsRead: nat
    var bytesRead: nat
    var scratch: seq<nat>
    var finished: bool

    ghost predicate Valid()
      reads this, inner
    {
      inner.Valid() && bytesRead <= limits.maxTraceBytes
    }

    constructor (inner: BufferedSource, limits: ReadLimits, accepts: seq<nat> -> bool)
      requires inner.Valid()
      ensures Valid() && this.inner == inner && this.limits == limits && this.accepts == accepts
      ensures recordsRead == 0 && bytesRead == 0 && !finished
    {
      this.inner := inner;
      this.limits := limits;
      this.accepts := accepts;
      recordsRead := 0;
      bytesRead := 0;
      scratch := [];
      finished := false;
    }

    /** The next record; nothing is read after the end or the first error. */
    method Next() returns (item: Option<Result<LocatedRecord, ReadError>>)
      requires Valid()
      modifies this, inner
      ensures Valid()
      ensures old(finished) ==> item == None && finished && bytesRead == old(bytesRead) && inner.rest == old(inner.rest)
      ensures !old(finished) ==>
        var step := StepOn(old(inner.rest), old(recordsRead), old(bytesRead), limits, accepts);
        && bytesRead == old(bytesRead) + step.used
        && recordsRead == old(recordsRead) + (if step.taken then 1 else 0)
        && (finished <==> !step.taken)
        && step.used <= |old(inner.rest)| && inner.rest == old(inner.rest)[step.used..]
        && item == ItemOf(step.answer)
    {
      if finished {
        return None;
      }
      var answer := ReadRecord();
      match answer {
        case Ok(Some(record)) => return Some(Ok(record));
        case Ok(None) =>
          finished := true;
          return None;
        case Err(error) =>
          finished := true;
          return Some(Err(error));
      }
    }

    /** Reads one record, buffer by buffer; the outcome is that of the bytes alone. */
    method ReadRecord() returns (r: Result<Option<LocatedRecord>, ReadError>)
      requires Valid()
      modifies this`bytesRead, this`scratch, this`recordsRead, inner
      ensures Valid()
      ensures
        var step := StepOn(old(inner.rest), old(recordsRead), old(bytesRead), limits, accepts);
        && r == step.answer
        && bytesRead == old(bytesRead) + step.used
        && recordsRead == old(recordsRead) + (if step.taken then 1 else 0)
        && step.used <= |old(inner.rest)| && inner.rest == old(inner.rest)[step.used..]
    {
      var line := recordsRead + 1;
      if line > U64_MAX {
        return Err(LineNumberOverflow);
      }
      if recordsRead >= limits.maxRecords {
        var available := inner.FillBuf();
        return if available == [] then Ok(None) else Err(RecordLimit(line, limits.maxRecords));
      }
      var scanned := ScanBuffers();
      match scanned {
        case NoMore => return Ok(None);
        case TooLong(_) => return Err(LineTooLong(line, limits.maxLineBytes));
        case TooMany(_) => return Err(TraceBytes(line, limits.maxTraceBytes));
        case Payload(_, _) =>
          if !accepts(scratch) {
            return Err(CodecRejected(line));
          }
          recordsRead := recordsRead + 1;
          return Ok(Some(LocatedRecord(line, scratch)));
      }
    }

    /** Appends one byte unless the line is full. */
    method PushBounded(byte: nat) returns (ok: bool)
      modifies this`scratch
      ensures ok == (|old(scratch)| != limits.maxLineBytes)
      ensures scratch == if ok then old(scratch) + [byte] else old(scratch)
    {
      ok := |scratch| != limits.maxLineBytes;
      if ok {
        scratch := scratch + [byte];
      }
    }

    /** Collects one line in `scratch`, whatever the buffers are. */
    method ScanBuffers() returns (r: Scanned)
      requires Valid()
      modifies this`bytesRead, this`scratch, inner
      ensures Valid()
      ensures r == ScanLine(old(inner.rest), limits.maxLineBytes, limits.maxTraceBytes - old(bytesRead))
      ensures bytesRead == old(bytesRead) + UsedBy(r)
      ensures UsedBy(r) <= |old(inner.rest)| && inner.rest == old(inner.rest)[UsedBy(r)..]
      ensures r.Payload? ==> scratch == r.line
    {
      ghost var bytes := inner.rest;
      var start := bytesRead;
      scratch := [];
      var pendingReturn := false;
      var outcome: Option<Scanned> := None;
      while outcome.None?
        invariant inner.Valid() && start <= bytesRead <= limits.maxTraceBytes
        invariant outcome.None? ==> Midway(bytes, start, pendingReturn)
        invariant outcome.Some? ==> Settled(outcome.value, bytes, start)
        decreases outcome.None?, |bytes| - (bytesRead - start)
      {
        pendingReturn, outcome := ScanNext(pendingReturn, start, bytes);
      }
      return outcome.value;
    }

    /** A line is being collected and the source stands right behind what was counted. */
    ghost predicate Midway(bytes: seq<nat>, start: nat, pending: bool)
      reads this`bytesRead, this`scratch, inner
    {
      && start <= bytesRead <= limits.maxTraceBytes
      && Collected(bytes, bytesRead - start, scratch, pending, limits.maxLineBytes)
      && inner.rest == bytes[bytesRead - start..]
    }

    /** The line is decided, by the bytes alone, and its bytes are counted. */
    ghost predicate Decided(r: Scanned, bytes: seq<nat>, start: nat)
      reads this`bytesRead, this`scratch
    {
      && start <= bytesRead && start <= limits.maxTraceBytes
      && r == ScanLine(bytes, limits.maxLineBytes, limits.maxTraceBytes - start)
      && bytesRead - start == UsedBy(r) <= |bytes|
      && (r.Payload? ==> scratch == r.line)
    }

    /** And the source stands right behind what was counted. */
    ghost predicate Settled(r: Scanned, bytes: seq<nat>, start: nat)
      reads this`bytesRead, this`scratch, inner
    {
      Decided(r, bytes, start) && inner.rest == bytes[bytesRead - start..]
    }

    /** Scans whatever buffer the source offers next. */
    method ScanNext(pending: bool, start: nat, ghost bytes: seq<nat>) returns (pendingReturn: bool, outcome: Option<Scanned>)
      requires inner.Valid() && Midway(bytes, start, pending)
      modifies this`bytesRead, this`scratch, inner
      ensures inner.Valid() && start <= bytesRead <= limits.maxTraceBytes
      ensures outcome.None? ==> bytesRead > old(bytesRead) && Midway(bytes, start, pendingReturn)
      ensures outcome.Some? ==> Settled(outcome.value, bytes, start)
    {
      var available := inner.FillBuf();
      if available == [] {
        var tail := FinishTail(pending, start, bytes);
        return false, Some(tail);
      }
      pendingReturn, outcome := ScanOffered(available, pending, start, bytes);
    }

    /** Scans one nonempty buffer and releases what was counted. */
    method ScanOffered(available: seq<nat>, pending: bool, start: nat, ghost bytes: seq<nat>)
        returns (pendingReturn: bool, outcome: Option<Scanned>)
      requires inner.Valid() && Midway(bytes, start, pending) && available != [] && available <= inner.rest && |available| == inner.Offered()
      modifies this`bytesRead, this`scratch, inner
      ensures inner.Valid() && start <= bytesRead <= limits.maxTraceBytes
      ensures outcome.None? ==> bytesRead > old(bytesRead) && Midway(bytes, start, pendingReturn)
      ensures outcome.Some? ==> Settled(outcome.value, bytes, start)
    {
      var consumed, complete;
      consumed, pendingReturn, complete, outcome := ScanBuffer(available, pending, start, bytes);
      ConsumeCounted(consumed, start, bytes);
      if complete {
        outcome := Some(Payload(scratch, bytesRead - start));
      }
    }

    /** Releases the counted bytes of a buffer: the source again stands right behind what was counted. */
    method ConsumeCounted(count: nat, start: nat, ghost bytes: seq<nat>)
      requires inner.Valid() && start + count <= bytesRead <= start + |bytes| && count <= inner.Offered()
      requires inner.rest == bytes[bytesRead - count - start..]
      modifies inner
      ensures inner.Valid() && inner.rest == bytes[bytesRead - start..]
    {
      DropDrop(bytes, bytesRead - count - start, count);
      inner.Consume(count);
    }

    /** At the end of the input a waiting carriage return is content, and an empty line is no line. */
    method FinishTail(pending: bool, start: nat, ghost bytes: seq<nat>) returns (r: Scanned)
      requires Midway(bytes, start, pending) && inner.rest == []
      modifies this`scratch
      ensures Settled(r, bytes, start)
    {
      InputEnds(bytes, scratch, pending, limits.maxLineBytes, limits.maxTraceBytes - start);
      if pending {
        var pushed := PushBounded(CR);
        if !pushed {
          return TooLong(bytesRead - start);
        }
      }
      return if scratch == [] then NoMore else Payload(scratch, bytesRead - start);
    }

    /** Takes bytes from one buffer until it is used up, a line is complete, or a limit is met. */
    method ScanBuffer(available: seq<nat>, pending: bool, start: nat, ghost bytes: seq<nat>)
        returns (consumed: nat, pendingReturn: bool, complete: bool, failure: Option<Scanned>)
      requires start <= bytesRead <= limits.maxTraceBytes
      requires Collected(bytes, bytesRead - start, scratch, pending, limits.maxLineBytes)
      requires available != [] && available <= bytes[bytesRead - start..]
      modifies this`bytesRead, this`scratch
      ensures consumed <= |available| && bytesRead == old(bytesRead) + consumed <= limits.maxTraceBytes
      ensures failure.None? && !complete ==>
        consumed > 0 && Collected(bytes, bytesRead - start, scratch, pendingReturn, limits.maxLineBytes)
      ensures complete ==> failure.None? && start <= bytesRead && Decided(Payload(scratch, bytesRead - start), bytes, start)
      ensures failure.Some? ==> Decided(failure.value, bytes, start)
    {
      consumed, pendingReturn, complete, failure := 0, pending, false, None;
      while consumed < |available|
        invariant consumed <= |available| && bytesRead == old(bytesRead) + consumed <= limits.maxTraceBytes
        invariant Collected(bytes, bytesRead - start, scratch, pendingReturn, limits.maxLineBytes)
        invariant !complete && failure.None?
      {
        var byte := available[consumed];
        assert byte == bytes[old(bytesRead) - start..][consumed];
        var taken;
        taken, pendingReturn, complete, failure := TakeByte(byte, pendingReturn, start, bytes);
        if taken {
          consumed := consumed + 1;
        }
        if complete || failure.Some? {
          break;
        }
      }
    }

    /** Takes one byte, unless a limit forbids it. */
    method TakeByte(byte: nat, pending: bool, start: nat, ghost bytes: seq<nat>)
        returns (taken: bool, pendingReturn: bool, complete: bool, failure: Option<Scanned>)
      requires start <= bytesRead <= limits.maxTraceBytes
      requires Collected(bytes, bytesRead - start, scratch, pending, limits.maxLineBytes)
      requires bytesRead - start < |bytes| && byte == bytes[bytesRead - start]
      modifies this`bytesRead, this`scratch
      ensures bytesRead == old(bytesRead) + (if taken then 1 else 0) <= limits.maxTraceBytes
      ensures failure.None? && !complete ==>
        taken && Collected(bytes, bytesRead - start, scratch, pendingReturn, limits.maxLineBytes)
      ensures complete ==> taken && failure.None? && Decided(Payload(scratch, bytesRead - start), bytes, start)
      ensures failure.Some? ==> Decided(failure.value, bytes, start)
    {
      ghost var k := bytesRead - start;
      ghost var longest, allowed := limits.maxLineBytes, limits.maxTraceBytes - start;
      taken, pendingReturn, complete, failure := false, pending, false, None;
      if pendingReturn && byte != LF {
        var pushed := PushBounded(CR);
        if !pushed {
          ReturnOverflows(bytes, k, scratch, longest, allowed);
          failure := Some(TooLong(bytesRead - start));
          return;
        }
        pendingReturn := false;
      }
      if bytesRead >= limits.maxTraceBytes {
        BudgetEnds(bytes, k, scratch, pendingReturn, longest);
        failure := Some(TooMany(bytesRead - start));
        return;
      }
      bytesRead := bytesRead + 1;
      taken := true;
      if pendingReturn || byte == LF {
        FeedEnds(bytes, k, scratch, pendingReturn, longest, allowed);
        pendingReturn := false;
        complete := true;
        return;
      }
      StillCollected(bytes, k);
      if byte == CR {
        pendingReturn := true;
        return;
      }
      var pushed := PushBounded(byte);
      if !pushed {
        ByteOverflows(bytes, k, scratch, longest, allowed);
        failure := Some(TooLong(bytesRead - start));
      }
    }
  }

  lemma DropDrop<T>(s: seq<T>, a: nat, b: nat)
    requires a + b <= |s|
    ensures s[a..][b..] == s[a + b..]
  {
  }

  function UsedBy(r: Scanned): nat {
    match r
    case NoMore => 0
    case Payload(_, used) => used
    case TooLong(used) => used
    case TooMany(used) => used
  }

  /** Bytes up to `k`, all collected and none waiting. */
  ghost predicate Held(bytes: seq<nat>, k: nat, scratch: seq<nat>, longest: nat) {
    k < |bytes| && k <= FirstFeed(bytes) && bytes[..k] == scratch && |scratch| <= longest
  }

  /** A byte that is not a line feed moves the first line feed further away. */
  lemma StillCollected(bytes: seq<nat>, k: nat)
    requires k < |bytes| && k <= FirstFeed(bytes) && bytes[k] != LF
    ensures k + 1 <= FirstFeed(bytes) && bytes[..k + 1] == bytes[..k] + [bytes[k]]
  {
  }

  lemma FeedEnds(bytes: seq<nat>, k: nat, scratch: seq<nat>, pending: bool, longest: nat, allowed: nat)
    requires Collected(bytes, k, scratch, pending, longest) && k < |bytes| && bytes[k] == LF && k < allowed
    ensures ScanLine(bytes, longest, allowed) == Payload(scratch, k + 1)
  {
    FeedIsFirst(bytes, 0, k);
    assert StripReturn(bytes[..k]) == scratch;
  }

  /** A waiting carriage return that turned out to be content may not fit. */
  lemma ReturnOverflows(bytes: seq<nat>, k: nat, scratch: seq<nat>, longest: nat, allowed: nat)
    requires Collected(bytes, k, scratch, true, longest) && k < |bytes| && bytes[k] != LF && k <= allowed
    requires |scratch| == longest
    ensures ScanLine(bytes, longest, allowed) == TooLong(k)
  {
    StillCollected(bytes, k);
  }

  lemma ByteOverflows(bytes: seq<nat>, k: nat, scratch: seq<nat>, longest: nat, allowed: nat)
    requires Held(bytes, k, scratch, longest) && bytes[k] != LF && bytes[k] != CR && k < allowed
    requires |scratch| == longest
    ensures ScanLine(bytes, longest, allowed) == TooLong(k + 1)
  {
    StillCollected(bytes, k);
  }

  lemma BudgetEnds(bytes: seq<nat>, k: nat, scratch: seq<nat>, pending: bool, longest: nat)
    requires k < |bytes| && (pending ==> bytes[k] == LF)
    requires if pending then Collected(bytes, k, scratch, true, longest) else Held(bytes, k, scratch, longest)
    ensures ScanLine(bytes, longest, k) == TooMany(k)
  {
    if pending {
      FeedIsFirst(bytes, 0, k);
      assert StripReturn(bytes[..k]) == scratch;
    }
  }

  /** At the end of the input a waiting carriage return is content. */
  lemma InputEnds(bytes: seq<nat>, scratch: seq<nat>, pending: bool, longest: nat, allowed: nat)
    requires Collected(bytes, |bytes|, scratch, pending, longest) && |bytes| <= allowed
    ensures ScanLine(bytes, longest, allowed) ==
      if pending && |scratch| == longest then TooLong(|bytes|)
      else if bytes == [] then NoMore
      else Payload(scratch + (if pending then [CR] else []), |bytes|)
  {
    assert bytes[..|bytes|] == bytes;
  }

  // ------------------------------------------------------------ whole input

  /** One physical line: its payload and the bytes it takes. */
  datatype PhysicalLine = PhysicalLine(payload: seq<nat>, extent: nat)

  function Physical(bytes: seq<nat>): seq<PhysicalLine>
    decreases |bytes|
  {
    if bytes == [] then [] else [PhysicalLine(FirstLine(bytes), Extent(bytes))] + Physical(bytes[Extent(bytes)..])
  }

  function Payloads(lines: seq<PhysicalLine>): seq<seq<nat>> {
    if lines == [] then [] else [lines[0].payload] + Payloads(lines[1..])
  }

  function ScanFirst(lines: seq<PhysicalLine>, longest: nat, allowed: nat): Scanned {
    if lines == [] then NoMore
    else if |lines[0].payload| > longest && longest < allowed then TooLong(longest + 1)
    else if lines[0].extent > allowed then TooMany(allowed)
    else Payload(lines[0].payload, lines[0].extent)
  }

  function StepOver(lines: seq<PhysicalLine>, records: nat, bytesRead: nat, limits: ReadLimits, accepts: seq<nat> -> bool): Reading
    requires bytesRead <= limits.maxTraceBytes
  {
    ReadStep(lines == [], ScanFirst(lines, limits.maxLineBytes, limits.maxTraceBytes - bytesRead), records, limits, accepts)
  }

  /** Everything a reader yields from a state on: the records, and the error that ended it, if one did. */
  function Trace(lines: seq<PhysicalLine>, records: nat, bytesRead: nat, limits: ReadLimits, accepts: seq<nat> -> bool): (seq<LocatedRecord>, Option<ReadError>)
    requires bytesRead <= limits.maxTraceBytes
    decreases |lines|
  {
    var step := StepOver(lines, records, bytesRead, limits, accepts);
    if step.taken then
      var (rest, error) := Trace(lines[1..], records + 1, bytesRead + step.used, limits, accepts);
      ([step.answer.value.value] + rest, error)
    else
      ([], if step.answer.Ok? then None else Some(step.answer.error))
  }

  /** The bytes and their lines give the same step, and lead to the same rest. */
  lemma StepIsPhysical(bytes: seq<nat>, records: nat, bytesRead: nat, limits: ReadLimits, accepts: seq<nat> -> bool)
    requires bytesRead <= limits.maxTraceBytes
    ensures StepOn(bytes, records, bytesRead, limits, accepts) == StepOver(Physical(bytes), records, bytesRead, limits, accepts)
    ensures var step := StepOn(bytes, records, bytesRead, limits, accepts);
            step.taken ==> bytes != [] && step.used == Extent(bytes) && step.answer.Ok? && step.answer.value.Some?
    ensures bytes != [] ==> Physical(bytes)[1..] == Physical(bytes[Extent(bytes)..])
  {
  }

  /** What was to come before an item, told by the item and what is to come after it. */
  ghost predicate Precedes(
      item: Option<Result<LocatedRecord, ReadError>>,
      before: (seq<LocatedRecord>, Option<ReadError>), after: (seq<LocatedRecord>, Option<ReadError>))
  {
    match item
    case None => before == ([], None)
    case Some(Err(error)) => before == ([], Some(error))
    case Some(Ok(record)) => before == ([record] + after.0, after.1)
  }

  /** A trace is one step and the trace of what that step leaves. */
  lemma TraceStep(bytes: seq<nat>, records: nat, bytesRead: nat, limits: ReadLimits, accepts: seq<nat> -> bool, step: Reading,
                  after: (seq<LocatedRecord>, Option<ReadError>))
    requires bytesRead <= limits.maxTraceBytes && step == StepOn(bytes, records, bytesRead, limits, accepts)
    requires step.taken && step.used <= |bytes| && bytesRead + step.used <= limits.maxTraceBytes ==>
      after == Trace(Physical(bytes[step.used..]), records + 1, bytesRead + step.used, limits, accepts)
    ensures Precedes(ItemOf(step.answer), Trace(Physical(bytes), records, bytesRead, limits, accepts), after)
    ensures step.taken <==> ItemOf(step.answer).Some? && ItemOf(step.answer).value.Ok?
    ensures step.taken ==> step.used > 0
  {
    StepIsPhysical(bytes, records, bytesRead, limits, accepts);
  }

  /** What a reader has yet to yield. */
  ghost function Pending(reader: JsonlReader): (seq<LocatedRecord>, Option<ReadError>)
    requires reader.Valid()
    reads reader, reader.inner
  {
    Trace(Physical(reader.inner.rest), reader.recordsRead, reader.bytesRead, reader.limits, reader.accepts)
  }

  /** One iteration moves one record from what is to come to what was yielded. */
  method Advance(reader: JsonlReader) returns (item: Option<Result<LocatedRecord, ReadError>>)
    requires reader.Valid() && !reader.finished
    modifies reader, reader.inner
    ensures reader.Valid()
    ensures Precedes(item, old(Pending(reader)), Pending(reader))
    ensures item.Some? && item.value.Ok? ==> !reader.finished && |reader.inner.rest| < |old(reader.inner.rest)|
  {
    ghost var bytes, records, read := reader.inner.rest, reader.recordsRead, reader.bytesRead;
    ghost var step := StepOn(bytes, records, read, reader.limits, reader.accepts);
    item := reader.Next();
    TraceStep(bytes, records, read, reader.limits, reader.accepts, step, Pending(reader));
  }

  /** Iterates a reader to its end. However its source is buffered, the result is that of the bytes. */
  method ReadAll(reader: JsonlReader) returns (records: seq<LocatedRecord>, error: Option<ReadError>)
    requires reader.Valid() && !reader.finished
    modifies reader, reader.inner
    ensures (records, error) ==
      Trace(Physical(old(reader.inner.rest)), old(reader.recordsRead), old(reader.bytesRead), reader.limits, reader.accepts)
    ensures reader.bytesRead <= reader.limits.maxTraceBytes
  {
    records, error := [], None;
    ghost var goal := Pending(reader);
    assert [] + goal.0 == goal.0;
    while true
      invariant reader.Valid() && !reader.finished
      invariant goal == (records + Pending(reader).0, Pending(reader).1)
      decreases |reader.inner.rest|
    {
      assert records + [] == records;
      var item := Advance(reader);
      match item {
        case None => return;
        case Some(Err(failure)) =>
          error := Some(failure);
          return;
        case Some(Ok(record)) =>
          AppendAssociates(records, [record], Pending(reader).0);
          records := records + [record];
      }
    }
  }

  function Total(lines: seq<PhysicalLine>): nat {
    if lines == [] then 0 else lines[0].extent + Total(lines[1..])
  }

  /** No line takes fewer bytes than its payload has. */
  predicate Honest(lines: seq<PhysicalLine>) {
    lines == [] || (|lines[0].payload| <= lines[0].extent && Honest(lines[1..]))
  }

  predicate AllFit(lines: seq<PhysicalLine>, longest: nat, accepts: seq<nat> -> bool) {
    lines == [] || (|lines[0].payload| <= longest && accepts(lines[0].payload) && AllFit(lines[1..], longest, accepts))
  }

  /** The trace fits every limit and every line is acceptable. */
  predicate Within(lines: seq<PhysicalLine>, records: nat, bytesRead: nat, limits: ReadLimits, accepts: seq<nat> -> bool) {
    && records + |lines| <= limits.maxRecords && records + |lines| < U64_MAX
    && bytesRead + Total(lines) <= limits.maxTraceBytes
    && AllFit(lines, limits.maxLineBytes, accepts)
  }

  /** The lines with their one-based numbers. */
  function Numbered(lines: seq<seq<nat>>, records: nat): seq<LocatedRecord> {
    if lines == [] then [] else [LocatedRecord(records + 1, lines[0])] + Numbered(lines[1..], records + 1)
  }

  lemma {:induction false} TraceOfLines(lines: seq<PhysicalLine>, records: nat, bytesRead: nat, limits: ReadLimits, accepts: seq<nat> -> bool)
    requires bytesRead <= limits.maxTraceBytes && records <= limits.maxRecords && Honest(lines)
    ensures Trace(lines, records, bytesRead, limits, accepts).1.None? <==> Within(lines, records, bytesRead, limits, accepts)
    ensures Within(lines, records, bytesRead, limits, accepts) ==>
      Trace(lines, records, bytesRead, limits, accepts).0 == Numbered(Payloads(lines), records)
    decreases |lines|
  {
    var step := StepOver(lines, records, bytesRead, limits, accepts);
    if step.taken {
      TraceOfLines(lines[1..], records + 1, bytesRead + step.used, limits, accepts);
      assert Payloads(lines)[1..] == Payloads(lines[1..]);
    }
  }

  lemma TotalStep(lines: seq<PhysicalLine>, k: nat)
    requires 0 < k <= |lines|
    ensures Total(lines[..k]) == lines[0].extent + Total(lines[1..][..k - 1])
    ensures Payloads(lines[..k]) == [lines[0].payload] + Payloads(lines[1..][..k - 1])
    ensures lines[1..][k - 1..] == lines[k..]
  {
    assert lines[..k][1..] == lines[1..][..k - 1];
  }

  /**
   Why reading ends before a line, or behind the last one, when `left` more
   bytes may be read: each ending has its own condition on that line.
   */
  predicate EndsFor(
      error: Option<ReadError>, line: Option<PhysicalLine>, number: nat, left: nat, limits: ReadLimits, accepts: seq<nat> -> bool)
  {
    match error
    case None => line.None? && number <= U64_MAX
    case Some(LineNumberOverflow) => number > U64_MAX
    case Some(RecordLimit(at, maximum)) =>
      at == number <= U64_MAX && maximum == limits.maxRecords < number && line.Some?
    case Some(LineTooLong(at, maximum)) =>
      && at == number <= limits.maxRecords && maximum == limits.maxLineBytes < left
      && line.Some? && |line.value.payload| > maximum
    case Some(TraceBytes(at, maximum)) =>
      && at == number <= limits.maxRecords && maximum == limits.maxTraceBytes
      && line.Some? && line.value.extent > left && Min(|line.value.payload|, left) <= limits.maxLineBytes
    case Some(CodecRejected(at)) =>
      && at == number <= limits.maxRecords && line.Some? && !accepts(line.value.payload)
      && line.value.extent <= left && |line.value.payload| <= limits.maxLineBytes
  }

  /**
   Where reading stops: everything before is yielded line for line, and under
   what is then left of the budgets the next line gives the reported ending.
   */
  predicate StopsAt(
      lines: seq<PhysicalLine>, k: nat, records: nat, bytesRead: nat, limits: ReadLimits, accepts: seq<nat> -> bool,
      yielded: seq<LocatedRecord>, error: Option<ReadError>)
  {
    && k <= |lines|
    && yielded == Numbered(Payloads(lines[..k]), records)
    && bytesRead + Total(lines[..k]) <= limits.maxTraceBytes
    && var line := if k < |lines| then Some(lines[k]) else None;
    EndsFor(error, line, records + k + 1, limits.maxTraceBytes - bytesRead - Total(lines[..k]), limits, accepts)
  }

  lemma StopsNow(lines: seq<PhysicalLine>, records: nat, bytesRead: nat, limits: ReadLimits, accepts: seq<nat> -> bool, step: Reading)
    requires bytesRead <= limits.maxTraceBytes && Honest(lines)
    requires step == StepOver(lines, records, bytesRead, limits, accepts) && !step.taken
    ensures StopsAt(lines, 0, records, bytesRead, limits, accepts, [], if step.answer.Ok? then None else Some(step.answer.error))
  {
    assert lines[..0] == [] && lines[0..] == lines;
  }

  lemma StopsLater(
      lines: seq<PhysicalLine>, records: nat, bytesRead: nat, limits: ReadLimits, accepts: seq<nat> -> bool,
      rest: seq<LocatedRecord>, error: Option<ReadError>)
    requires lines != [] && bytesRead + lines[0].extent <= limits.maxTraceBytes
    requires StopsAt(lines[1..], |rest|, records + 1, bytesRead + lines[0].extent, limits, accepts, rest, error)
    ensures StopsAt(lines, |rest| + 1, records, bytesRead, limits, accepts, [LocatedRecord(records + 1, lines[0].payload)] + rest, error)
  {
    TotalStep(lines, |rest| + 1);
    var payloads := Payloads(lines[1..][..|rest|]);
    assert ([lines[0].payload] + payloads)[1..] == payloads;
  }

  lemma {:induction false} TraceStops(lines: seq<PhysicalLine>, records: nat, bytesRead: nat, limits: ReadLimits, accepts: seq<nat> -> bool)
    requires bytesRead <= limits.maxTraceBytes && Honest(lines)
    ensures var (yielded, error) := Trace(lines, records, bytesRead, limits, accepts);
            StopsAt(lines, |yielded|, records, bytesRead, limits, accepts, yielded, error)
    decreases |lines|
  {
    var step := StepOver(lines, records, bytesRead, limits, accepts);
    if step.taken {
      var (rest, error) := Trace(lines[1..], records + 1, bytesRead + step.used, limits, accepts);
      TraceStops(lines[1..], records + 1, bytesRead + step.used, limits, accepts);
      StopsLater(lines, records, bytesRead, limits, accepts, rest, error);
    } else {
      StopsNow(lines, records, bytesRead, limits, accepts, step);
    }
  }

  lemma {:induction false} PhysicalMeans(bytes: seq<nat>)
    ensures Payloads(Physical(bytes)) == Lines(bytes) && Total(Physical(bytes)) == |bytes| && Honest(Physical(bytes))
    decreases |bytes|
  {
    if bytes != [] {
      PhysicalMeans(bytes[Extent(bytes)..]);
      assert Physical(bytes)[1..] == Physical(bytes[Extent(bytes)..]);
    }
  }

  /** No record is yielded that is longer than a line may be, however reading ends. */
  predicate Bounded(records: seq<LocatedRecord>, longest: nat) {
    forall i :: 0 <= i < |records| ==> |records[i].payload| <= longest
  }

  lemma {:induction false} YieldedIsBounded(lines: seq<PhysicalLine>, records: nat, bytesRead: nat, limits: ReadLimits, accepts: seq<nat> -> bool)
    requires bytesRead <= limits.maxTraceBytes && Honest(lines)
    ensures Bounded(Trace(lines, records, bytesRead, limits, accepts).0, limits.maxLineBytes)
    decreases |lines|
  {
    var step := StepOver(lines, records, bytesRead, limits, accepts);
    if step.taken {
      TakenFits(lines, records, bytesRead, limits, accepts, step);
      var (rest, error) := Trace(lines[1..], records + 1, bytesRead + step.used, limits, accepts);
      YieldedIsBounded(lines[1..], records + 1, bytesRead + step.used, limits, accepts);
      BoundedGrows(step.answer.value.value, rest, limits.maxLineBytes);
    }
  }

  lemma TakenFits(lines: seq<PhysicalLine>, records: nat, bytesRead: nat, limits: ReadLimits, accepts: seq<nat> -> bool, step: Reading)
    requires bytesRead <= limits.maxTraceBytes && Honest(lines)
    requires step == StepOver(lines, records, bytesRead, limits, accepts) && step.taken
    ensures lines != [] && Honest(lines[1..]) && bytesRead + step.used <= limits.maxTraceBytes
    ensures step.answer.Ok? && step.answer.value.Some? && |step.answer.value.value.payload| <= limits.maxLineBytes
  {
  }

  lemma BoundedGrows(record: LocatedRecord, rest: seq<LocatedRecord>, longest: nat)
    requires |record.payload| <= longest && Bounded(rest, longest)
    ensures Bounded([record] + rest, longest)
  {
  }

  /**
   A trace is read without error exactly when it fits every limit, and then it
   is read line for line; otherwise it is read line for line up to the first
   line that gives an error, and that error is reported. Either way no record
   is longer than a line may be.
   */
  lemma TraceIsLines(bytes: seq<nat>, limits: ReadLimits, accepts: seq<nat> -> bool)
    ensures var lines, read := Physical(bytes), Trace(Physical(bytes), 0, 0, limits, accepts);
            && Total(lines) == |bytes|
            && (read.1.None? <==> Within(lines, 0, 0, limits, accepts))
            && (read.1.None? ==> read.0 == Numbered(Lines(bytes), 0))
            && StopsAt(lines, |read.0|, 0, 0, limits, accepts, read.0, read.1)
            && Bounded(read.0, limits.maxLineBytes)
  {
    PhysicalMeans(bytes);
    TraceStops(Physical(bytes), 0, 0, limits, accepts);
    YieldedIsBounded(Physical(bytes), 0, 0, limits, accepts);
    TraceOfLines(Physical(bytes), 0, 0, limits, accepts);
  }

  lemma LinesStep(bytes: seq<nat>)
    requires bytes != []
    ensures Lines(bytes) == [FirstLine(bytes)] + Lines(bytes[Extent(bytes)..])
  {
  }

  // ------------------------------------------------------------ round trip

  /** Lines written out, each ended by a line feed or by a carriage return and a line feed, and an unended tail. */
  function Written(lines: seq<seq<nat>>, withReturn: seq<bool>, tail: seq<nat>): seq<nat>
    requires |lines| == |withReturn|
  {
    if lines == [] then tail else
      lines[0] + (if withReturn[0] then [CR, LF] else [LF]) + Written(lines[1..], withReturn[1..], tail)
  }

  /** A line that survives: no line feed inside, and no carriage return at its end that would pass for the terminator's. */
  predicate Plain(line: seq<nat>, withReturn: bool) {
    LF !in line && (line != [] && !withReturn ==> line[|line| - 1] != CR)
  }

  lemma FirstFeedOf(line: seq<nat>, rest: seq<nat>)
    requires LF !in line && (rest != [] ==> rest[0] == LF)
    ensures FirstFeed(line + rest) == |line|
  {
    if rest != [] {
      FeedIsFirst(line + rest, 0, |line|);
    }
    NoFeedBefore(line + rest, 0, |line|);
  }

  /** A tail without a line feed is one line as it stands, unless it is empty. */
  lemma TailIsLine(tail: seq<nat>)
    requires LF !in tail
    ensures Lines(tail) == if tail == [] then [] else [tail]
  {
    assert tail + [] == tail;
    FirstFeedOf(tail, []);
    if tail != [] {
      LinesStep(tail);
    }
  }

  /**
   Either terminator, mixed at will, is taken off again, and nothing else is:
   what stands behind the last line feed is a line with all its bytes.
   */
  lemma {:induction false} WrittenLines(lines: seq<seq<nat>>, withReturn: seq<bool>, tail: seq<nat>)
    requires |lines| == |withReturn| && LF !in tail
    requires forall i :: 0 <= i < |lines| ==> Plain(lines[i], withReturn[i])
    ensures Lines(Written(lines, withReturn, tail)) == lines + (if tail == [] then [] else [tail])
  {
    if lines == [] {
      TailIsLine(tail);
    } else {
      var more := Written(lines[1..], withReturn[1..], tail);
      WrittenLines(lines[1..], withReturn[1..], tail);
      LineWritten(lines[0], withReturn[0], more);
      HeadRejoins(lines, if tail == [] then [] else [tail]);
    }
  }

  lemma HeadRejoins(lines: seq<seq<nat>>, last: seq<seq<nat>>)
    requires lines != []
    ensures [lines[0]] + (lines[1..] + last) == lines + last
  {
  }

  lemma LineWritten(line: seq<nat>, withReturn: bool, more: seq<nat>)
    requires Plain(line, withReturn)
    ensures Lines(line + (if withReturn then [CR, LF] else [LF]) + more) == [line] + Lines(more)
  {
    var body := line + (if withReturn then [CR] else []);
    var bytes := line + (if withReturn then [CR, LF] else [LF]) + more;
    assert bytes == body + ([LF] + more);
    FirstFeedOf(body, [LF] + more);
    assert bytes[..|body|] == body && bytes[|body| + 1..] == more;
    assert StripReturn(body) == line;
    LinesStep(bytes);
  }

  /** Every byte string is written so, whence `WrittenLines` says what its lines are. */
  lemma {:induction false} EverythingIsWritten(bytes: seq<nat>) returns (lines: seq<seq<nat>>, withReturn: seq<bool>, tail: seq<nat>)
    ensures |lines| == |withReturn| && LF !in tail && bytes == Written(lines, withReturn, tail)
    ensures forall i :: 0 <= i < |lines| ==> Plain(lines[i], withReturn[i])
    decreases |bytes|
  {
    var n := FirstFeed(bytes);
    if n == |bytes| {
      lines, withReturn, tail := [], [], bytes;
      forall i | 0 <= i < |bytes| ensures bytes[i] != LF {
        if bytes[i] == LF {
          FeedIsFirst(bytes, 0, i);
        }
      }
    } else {
      var body := bytes[..n];
      var returned := body != [] && body[n - 1] == CR;
      lines, withReturn, tail := EverythingIsWritten(bytes[n + 1..]);
      forall i | 0 <= i < n ensures bytes[i] != LF {
        if bytes[i] == LF {
          FeedIsFirst(bytes, 0, i);
        }
      }
      var line := StripReturn(body);
      var oldLines, oldReturns := lines, withReturn;
      lines, withReturn := [line] + lines, [returned] + withReturn;
      assert lines[1..] == oldLines && withReturn[1..] == oldReturns;
      assert bytes == body + [LF] + bytes[n + 1..];
      assert line + (if returned then [CR, LF] else [LF]) == body + [LF];
    }
  }
}

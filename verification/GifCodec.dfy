/**
 The GIF image-data codec: the renderer packs an index string into sub-blocks,
 the auditor reads it back. Both are proved against the transitions in `Lzw`,
 and the round trip is stated with its one exception.
 */
module GifCodec {
  import opened Prelude
  import opened Bits
  import opened Lzw
  import opened Spelling

  datatype MediaError = PaletteViolated | CodeTooWide

  const CANVAS: nat := 1440 * 820
  const MAX_BLOCK_BYTES: nat := 2 * 1024 * 1024
  const MINIMUM: nat := 4

  // ------------------------------------------------------------ sub-blocks

  /** Length-prefixed blocks of at most 255 bytes, closed by an empty one. */
  function Subblocks(payload: seq<nat>): (data: seq<nat>)
    ensures data != []
    decreases |payload|
  {
    if payload == [] then [0] else
      var n := Min(255, |payload|);
      [n] + payload[..n] + Subblocks(payload[n..])
  }

  /** What reading from a position gives: the bytes collected and the place after the closing block. */
  function ReadFrom(data: seq<nat>, position: nat, collected: seq<nat>): Result<(seq<nat>, nat), AuditError>
    decreases |data| - position
  {
    if position >= |data| then Err(StreamTruncated)
    else if data[position] == 0 then Ok((collected, position + 1))
    else if position + 1 + data[position] > |data| then Err(BlockExceedsFile)
    else
      var more := collected + data[position + 1..position + 1 + data[position]];
      if |more| > MAX_BLOCK_BYTES then Err(TooManyBytes) else ReadFrom(data, position + 1 + data[position], more)
  }

  /** Blocks are read back wherever they stand in a file. */
  lemma {:induction false} SubblocksReadBack(before: seq<nat>, payload: seq<nat>, after: seq<nat>, collected: seq<nat>)
    requires |collected| + |payload| <= MAX_BLOCK_BYTES
    ensures ReadFrom(before + Subblocks(payload) + after, |before|, collected) ==
            Ok((collected + payload, |before| + |Subblocks(payload)|))
    decreases |payload|
  {
    var data := before + Subblocks(payload) + after;
    if payload == [] {
      assert collected + payload == collected;
    } else {
      var n := Min(255, |payload|);
      var front := before + [n] + payload[..n];
      assert data == front + Subblocks(payload[n..]) + after;
      assert data[|before| + 1..|before| + 1 + n] == payload[..n];
      SubblocksReadBack(front, payload[n..], after, collected + payload[..n]);
      assert data[|before|] == n;
      assert collected + payload[..n] + payload[n..] == collected + payload;
    }
  }

  lemma FirstSubblock(payload: seq<nat>, n: nat)
    requires payload != [] && n == Min(255, |payload|)
    ensures Subblocks(payload) == [n] + payload[..n] + Subblocks(payload[n..])
  {
  }

  lemma NextSubblock(output: seq<nat>, payload: seq<nat>, index: nat, n: nat)
    requires index < |payload| && n == Min(255, |payload| - index)
    ensures output + [n] + payload[index..index + n] + Subblocks(payload[index + n..]) == output + Subblocks(payload[index..])
  {
    FirstSubblock(payload[index..], n);
    assert payload[index..][..n] == payload[index..index + n] && payload[index..][n..] == payload[index + n..];
    AppendRegroups(output, [n], payload[index..index + n], Subblocks(payload[index + n..]));
    AppendAssociates([n], payload[index..index + n], Subblocks(payload[index + n..]));
  }

  /** Nonempty blocks, each behind its length, and the empty one that closes them. */
  function Chained(parts: seq<seq<nat>>): (data: seq<nat>)
    ensures data != []
  {
    if parts == [] then [0] else [|parts[0]|] + parts[0] + Chained(parts[1..])
  }

  predicate AllNonempty(parts: seq<seq<nat>>) {
    forall i :: 0 <= i < |parts| ==> parts[i] != []
  }

  /** The stretch of a file up to `end` is a chain of blocks that carries `bytes`, and not too many of them. */
  predicate ChainAt(data: seq<nat>, position: nat, parts: seq<seq<nat>>, bytes: seq<nat>, end: nat) {
    && AllNonempty(parts) && position <= end <= |data| && data[position..end] == Chained(parts)
    && bytes == Joined(parts) && |bytes| <= MAX_BLOCK_BYTES
  }

  lemma FirstOfChain(data: seq<nat>, position: nat, part: seq<nat>, later: seq<nat>, end: nat)
    requires part != [] && later != [] && position <= end <= |data| && data[position..end] == [|part|] + part + later
    ensures var next := position + 1 + |part|;
            && next < end && data[position] == |part| && data[position + 1..next] == part && data[next..end] == later
  {
    var whole := data[position..end];
    assert whole[0] == |part| && whole[1..1 + |part|] == part && whole[1 + |part|..] == later;
    assert data[position] == whole[0];
    SliceOfSlice(data, position, end, 1, 1 + |part|);
    SliceOfSlice(data, position, end, 1 + |part|, |whole|);
  }

  /** A chain of blocks is read as what it carries. */
  lemma {:induction false} ChainIsRead(data: seq<nat>, position: nat, parts: seq<seq<nat>>, collected: seq<nat>, joined: seq<nat>, end: nat)
    requires AllNonempty(parts) && position <= end <= |data| && data[position..end] == Chained(parts)
    requires joined == Joined(parts) && |collected + joined| <= MAX_BLOCK_BYTES
    ensures ReadFrom(data, position, collected) == Ok((collected + joined, end))
    decreases |parts|
  {
    if parts == [] {
      assert data[position..end] == [0] && data[position] == data[position..end][0] && end == position + 1;
      assert collected + joined == collected;
    } else {
      var part, rest := parts[0], Joined(parts[1..]);
      FirstOfChain(data, position, part, Chained(parts[1..]), end);
      AppendAssociates(collected, part, rest);
      assert |collected + part| <= |collected + joined|;
      ChainIsRead(data, position + 1 + |part|, parts[1..], collected + part, rest, end);
    }
  }

  /** Whatever is read was a chain of blocks. */
  lemma {:induction false} ReadIsChain(data: seq<nat>, position: nat, collected: seq<nat>, bytes: seq<nat>, end: nat)
      returns (parts: seq<seq<nat>>)
    requires ReadFrom(data, position, collected) == Ok((bytes, end)) && |collected| <= MAX_BLOCK_BYTES
    ensures AllNonempty(parts) && position <= end <= |data| && data[position..end] == Chained(parts)
    ensures bytes == collected + Joined(parts) && |bytes| <= MAX_BLOCK_BYTES
    decreases |data| - position
  {
    if data[position] == 0 {
      parts := [];
      assert bytes == collected + Joined(parts);
      assert data[position..end] == [0];
    } else {
      var next := position + 1 + data[position];
      var part := data[position + 1..next];
      var rest := ReadIsChain(data, next, collected + part, bytes, end);
      parts := [part] + rest;
      assert parts[1..] == rest;
      AppendAssociates(collected, part, Joined(rest));
      assert data[position..end] == [|part|] + part + data[next..end];
    }
  }

  /** Reading succeeds exactly on a chain of blocks that is not too long, and gives what it carries and the place after it. */
  lemma ReadsExactly(data: seq<nat>, position: nat)
    ensures var r := ReadFrom(data, position, []);
            r.Ok? ==> exists parts :: ChainAt(data, position, parts, r.value.0, r.value.1)
    ensures forall parts, bytes, end: nat :: ChainAt(data, position, parts, bytes, end) ==> ReadFrom(data, position, []) == Ok((bytes, end))
  {
    var r := ReadFrom(data, position, []);
    if r.Ok? {
      var parts := ReadIsChain(data, position, [], r.value.0, r.value.1);
      assert [] + Joined(parts) == Joined(parts);
      assert ChainAt(data, position, parts, r.value.0, r.value.1);
    }
    forall parts, bytes, end: nat | ChainAt(data, position, parts, bytes, end) ensures r == Ok((bytes, end)) {
      assert [] + bytes == bytes;
      ChainIsRead(data, position, parts, [], bytes, end);
    }
  }

  method WriteSubblocks(payload: seq<nat>) returns (output: seq<nat>)
    ensures output == Subblocks(payload)
  {
    output := [];
    var index := 0;
    ghost var goal := Subblocks(payload);
    assert payload[0..] == payload && [] + goal == goal;
    while index < |payload|
      invariant index <= |payload|
      invariant output + Subblocks(payload[index..]) == goal
    {
      var n := Min(255, |payload| - index);
      NextSubblock(output, payload, index, n);
      output := output + [n] + payload[index..index + n];
      index := index + n;
    }
    assert payload[index..] == [];
    output := output + [0];
  }

  method ReadSubblocks(data: seq<nat>, start: nat) returns (r: Result<(seq<nat>, nat), AuditError>)
    ensures r == ReadFrom(data, start, [])
    ensures r.Ok? ==> exists parts :: ChainAt(data, start, parts, r.value.0, r.value.1)
    ensures r.Err? ==> forall parts, bytes, end: nat :: !ChainAt(data, start, parts, bytes, end)
  {
    ReadsExactly(data, start);
    var output: seq<nat> := [];
    var position := start;
    while true
      invariant ReadFrom(data, start, []) == ReadFrom(data, position, output)
      decreases |data| - position
    {
      if position >= |data| {
        return Err(StreamTruncated);
      }
      var size := data[position];
      position := position + 1;
      if size == 0 {
        return Ok((output, position));
      }
      if position + size > |data| {
        return Err(BlockExceedsFile);
      }
      output := output + data[position..position + size];
      position := position + size;
      if |output| > MAX_BLOCK_BYTES {
        return Err(TooManyBytes);
      }
    }
  }

  // -------------------------------------------------------------- renderer

  /** The code stream of an index string, in bytes. */
  function Payload(indices: seq<nat>): seq<nat>
    requires indices != []
  {
    Packed(StreamBits(CodeStream(indices)))
  }

  /** The image data of one frame: the minimum code size and the blocks. */
  function Frame(indices: seq<nat>): seq<nat>
    requires indices != []
  {
    [MINIMUM] + Subblocks(Payload(indices))
  }

  predicate CodeFitsWidth(c: Coded) { c.code < Pow2(c.width) }

  predicate Fits(codes: seq<Coded>) {
    forall i :: 0 <= i < |codes| ==> CodeFitsWidth(codes[i])
  }

  /** Extends the prefix by one symbol, or emits it and makes a new entry, or starts over when the table is full. */
  method EmitSymbol(table: map<(nat, nat), nat>, nextCode: nat, codeSize: nat, prefix: nat, symbol: nat)
      returns (grown: map<(nat, nat), nat>, next: nat, size: nat, last: nat, codes: seq<Coded>)
    ensures (Encoder(grown, next, size, last), codes) == Encode(Encoder(table, nextCode, codeSize, prefix), symbol)
  {
    grown, next, size, last, codes := table, nextCode, codeSize, prefix, [];
    if (prefix, symbol) in table {
      last := table[(prefix, symbol)];
      return;
    }
    if nextCode < TABLE_LIMIT {
      codes := [Coded(prefix, codeSize)];
      grown := table[(prefix, symbol) := nextCode];
      next := nextCode + 1;
      if next > Pow2(codeSize) && codeSize < MAX_SIZE {
        size := codeSize + 1;
      }
    } else {
      codes := [Coded(prefix, codeSize), Coded(CLEAR, codeSize)];
      grown, next, size := map[], FIRST_CODE, FIRST_SIZE;
    }
    last := symbol;
  }

  /** Runs the dictionary over the indices and collects the codes with their widths. */
  method EmitCodes(indices: seq<nat>) returns (emitted: seq<Coded>)
    requires indices != []
    ensures emitted == CodeStream(indices)
  {
    var nextCode: nat, codeSize: nat := FIRST_CODE, FIRST_SIZE;
    var table: map<(nat, nat), nat> := map[];
    emitted := [Coded(CLEAR, codeSize)];
    var prefix := indices[0];
    for i := 1 to |indices|
      invariant emitted + Emitted(Encoder(table, nextCode, codeSize, prefix), indices[i..]) == CodeStream(indices)
    {
      var symbol := indices[i];
      ghost var state := Encoder(table, nextCode, codeSize, prefix);
      assert indices[i..][0] == symbol && indices[i..][1..] == indices[i + 1..];
      AppendAssociates(emitted, Encode(state, symbol).1, Emitted(Encode(state, symbol).0, indices[i + 1..]));
      var codes: seq<Coded>;
      table, nextCode, codeSize, prefix, codes := EmitSymbol(table, nextCode, codeSize, prefix, symbol);
      emitted := emitted + codes;
    }
    AppendAssociates(emitted, [Coded(prefix, codeSize)], [Coded(END, codeSize)]);
    emitted := emitted + [Coded(prefix, codeSize)];
    emitted := emitted + [Coded(END, codeSize)];
  }

  /**
   Writes the codes into bytes, lowest bits first. The accumulator stays below
   the power of its bit count, so adding a shifted code only sets fresh bits.
   */
  method PackCodes(emitted: seq<Coded>) returns (r: Result<seq<nat>, MediaError>)
    ensures r.Ok? <==> Fits(emitted)
    ensures r.Ok? ==> r.value == Packed(StreamBits(emitted))
  {
    var accumulator: nat, bitCount: nat := 0, 0;
    var packed: seq<nat> := [];
    ghost var pending: seq<bool> := [];
    ghost var goal := Packed(StreamBits(emitted));
    NothingPacked(emitted);
    for k := 0 to |emitted|
      invariant forall j :: 0 <= j < k ==> CodeFitsWidth(emitted[j])
      invariant Holds(accumulator, bitCount, pending) && Outstanding(packed, pending, StreamBits(emitted[k..]), goal)
    {
      if emitted[k].code >= Pow2(emitted[k].width) {
        return Err(CodeTooWide);
      }
      packed, accumulator, bitCount, pending := PackCode(emitted, k, packed, accumulator, bitCount, pending, goal);
    }
    assert emitted[|emitted|..] == [];
    packed := PackLast(packed, accumulator, bitCount, pending);
    return Ok(packed);
  }

  /** The accumulator holds the waiting bits, which are fewer than a byte. */
  predicate Holds(accumulator: nat, bitCount: nat, pending: seq<bool>) {
    accumulator == Value(pending) && bitCount == |pending| < 8
  }

  /** The bytes so far and those still to be written make up the goal. */
  predicate Outstanding(packed: seq<nat>, pending: seq<bool>, rest: seq<bool>, goal: seq<nat>) {
    packed + Packed(pending + rest) == goal
  }

  lemma NothingPacked(emitted: seq<Coded>)
    ensures Outstanding([], [], StreamBits(emitted[0..]), Packed(StreamBits(emitted))) && Holds(0, 0, [])
  {
    assert emitted[0..] == emitted && [] + StreamBits(emitted) == StreamBits(emitted);
    assert [] + Packed(StreamBits(emitted)) == Packed(StreamBits(emitted));
  }

  /** Writes the bits that are left as one more byte. */
  method PackLast(written: seq<nat>, accumulator: nat, bitCount: nat, ghost pending: seq<bool>) returns (packed: seq<nat>)
    requires Holds(accumulator, bitCount, pending)
    ensures Outstanding(written, pending, [], packed)
  {
    packed := written;
    assert pending + [] == pending;
    LastByte(pending);
    if bitCount != 0 {
      packed := packed + [accumulator % 256];
    }
  }

  /** Appends code `k` to the accumulator and flushes it. */
  method PackCode(emitted: seq<Coded>, k: nat, written: seq<nat>, waiting: nat, count: nat, ghost bits: seq<bool>, ghost goal: seq<nat>)
      returns (packed: seq<nat>, accumulator: nat, bitCount: nat, ghost left: seq<bool>)
    requires k < |emitted| && CodeFitsWidth(emitted[k]) && Holds(waiting, count, bits)
    requires Outstanding(written, bits, StreamBits(emitted[k..]), goal)
    ensures Holds(accumulator, bitCount, left) && Outstanding(packed, left, StreamBits(emitted[k + 1..]), goal)
  {
    var code, width := emitted[k].code, emitted[k].width;
    ghost var all, rest := bits + BitsOf(code, width), StreamBits(emitted[k + 1..]);
    NextBits(emitted, k, bits);
    NextValue(bits, code, width);
    packed, accumulator, bitCount := Flush(written, waiting + Pow2(count) * code, count + width, all, rest);
    left := all[|all| - bitCount..];
  }

  /** Moves every whole byte from the accumulator to the output; the bits that stay are the last ones. */
  method Flush(written: seq<nat>, waiting: nat, count: nat, ghost bits: seq<bool>, ghost rest: seq<bool>)
      returns (packed: seq<nat>, accumulator: nat, bitCount: nat)
    requires waiting == Value(bits) && count == |bits|
    ensures bitCount < 8 && bitCount <= count
    ensures accumulator == Value(bits[count - bitCount..])
    ensures packed + Packed(bits[count - bitCount..] + rest) == written + Packed(bits + rest)
  {
    packed, accumulator, bitCount := written, waiting, count;
    ghost var pending := bits;
    while bitCount >= 8
      invariant bitCount <= count && pending == bits[count - bitCount..]
      invariant accumulator == Value(pending)
      invariant packed + Packed(pending + rest) == written + Packed(bits + rest)
    {
      PackNext(packed, pending, rest);
      packed := packed + [accumulator % 256];
      accumulator := accumulator / 256;
      bitCount := bitCount - 8;
      pending := pending[8..];
    }
  }

  lemma NextBits(emitted: seq<Coded>, k: nat, pending: seq<bool>)
    requires k < |emitted|
    ensures pending + StreamBits(emitted[k..]) ==
            pending + BitsOf(emitted[k].code, emitted[k].width) + StreamBits(emitted[k + 1..])
  {
    assert emitted[k..][0] == emitted[k] && emitted[k..][1..] == emitted[k + 1..];
    AppendAssociates(pending, BitsOf(emitted[k].code, emitted[k].width), StreamBits(emitted[k + 1..]));
  }

  /** Adding the shifted code appends its bits to those that wait. */
  lemma NextValue(pending: seq<bool>, code: nat, width: nat)
    requires code < Pow2(width)
    ensures Value(pending + BitsOf(code, width)) == Value(pending) + Pow2(|pending|) * code
  {
    ValueOfBits(code, width);
    ValueAppend(pending, BitsOf(code, width));
  }

  /** The bits left at the end fill one last byte, if there are any. */
  lemma LastByte(pending: seq<bool>)
    requires |pending| < 8
    ensures Packed(pending) == if pending == [] then [] else [Value(pending) % 256]
  {
    ByteBound(pending);
  }

  /** Eight waiting bits become one byte. */
  lemma PackNext(packed: seq<nat>, pending: seq<bool>, rest: seq<bool>)
    requires |pending| >= 8
    ensures packed + Packed(pending + rest) == packed + [Value(pending) % 256] + Packed(pending[8..] + rest)
    ensures Value(pending) / 256 == Value(pending[8..])
  {
    assert Pow2(8) == 256;
    ValueSplit(pending, 8);
    assert (pending + rest)[..8] == pending[..8] && (pending + rest)[8..] == pending[8..] + rest;
  }

  /** Encodes one frame; the width check never fires. */
  method LzwEncode(indices: seq<nat>) returns (r: Result<seq<nat>, MediaError>)
    ensures r.Ok? <==> indices != [] && Symbols(indices)
    ensures r.Ok? ==> r.value == Frame(indices)
    ensures r.Err? ==> r.error == PaletteViolated
  {
    if indices == [] || !Symbols(indices) {
      return Err(PaletteViolated);
    }
    var emitted := EmitCodes(indices);
    StreamFits(indices);
    var packed := PackCodes(emitted);
    match packed {
      case Err(error) => return Err(error);
      case Ok(payload) =>
        var blocks := WriteSubblocks(payload);
        return Ok([MINIMUM] + blocks);
    }
  }

  /** Every code of a stream fits the width it is written with. */
  lemma StreamFits(indices: seq<nat>)
    requires indices != [] && Symbols(indices)
    ensures Fits(CodeStream(indices))
  {
    Start(indices[0], []);
    EmittedFits(FreshEncoder(indices[0]), Roots(), indices[1..]);
    assert Pow2(5) == 32;
  }

  lemma {:induction false} EmittedFits(e: Encoder, words: Words, rest: seq<nat>)
    requires EncoderSound(e, words) && Symbols(rest)
    ensures Fits(Emitted(e, rest))
    decreases |rest|
  {
    CodeFits(e, words);
    if rest != [] {
      var symbol := rest[0];
      if (e.prefix, symbol) in e.table {
        EmittedFits(Encode(e, symbol).0, words, rest[1..]);
      } else if e.next < TABLE_LIMIT {
        InsertIsSound(e, words, symbol);
        EmittedFits(Insert(e, symbol), Extended(e, words, symbol), rest[1..]);
      } else {
        Start(symbol, []);
        EmittedFits(FreshEncoder(symbol), Roots(), rest[1..]);
      }
    }
  }

  // --------------------------------------------------------------- auditor

  /** What decoding a payload gives, read off its bits. */
  function DecodePayload(payload: seq<nat>, minimum: nat, expected: nat): Result<seq<nat>, AuditError> {
    if minimum != MINIMUM || payload == [] then Err(MinimumDiffers)
    else Decode(FreshDecoder([]), Unpacked(payload), 0, expected)
  }

  /** The next `width` bits, lowest first, if that many are left. */
  method ReadCode(payload: seq<nat>, position: nat, width: nat) returns (code: Option<nat>)
    ensures code == if position + width > 8 * |payload| then None
                    else Some(Value(Unpacked(payload)[position..position + width]))
  {
    if position + width > |payload| * 8 {
      return None;
    }
    var value := 0;
    ghost var bits := Unpacked(payload);
    for offset := 0 to width
      invariant value == Value(bits[position..position + offset])
    {
      var at := position + offset;
      var byte := payload[at / 8];
      var bit := byte / Pow2(at % 8) % 2;
      UnpackedAt(payload, at / 8, at % 8);
      OneMoreBit(bits, position, offset);
      value := value + Pow2(offset) * bit;
    }
    return Some(value);
  }

  lemma OneMoreBit(bits: seq<bool>, position: nat, offset: nat)
    requires position + offset < |bits|
    ensures Value(bits[position..position + offset + 1]) ==
            Value(bits[position..position + offset]) + Pow2(offset) * Digit(bits[position + offset])
  {
    var low, bit := bits[position..position + offset], bits[position + offset];
    assert bits[position..position + offset + 1] == low + [bit];
    ValueAppend(low, [bit]);
    assert Value([bit]) == Digit(bit);
  }

  /** What decoding gives when one step has said what the next code does. */
  predicate Follows(goal: Result<seq<nat>, AuditError>, step: Read, output: seq<nat>, bits: seq<bool>, codes: nat, expected: nat)
    requires step.Continue? ==> step.st.size > 0
  {
    match step
    case Invalid => goal == Err(CodeInvalid)
    case Ended => goal == if |output| == expected then Ok(output) else Err(TerminationDiffers)
    case Continue(next) => goal == if |next.output| > expected then Err(CanvasExceeded) else Decode(next, bits, codes, expected)
  }

  /** One step of decoding at a bit position, where `code` was read. */
  lemma DecodeAt(goal: Result<seq<nat>, AuditError>, st: Decoder, bits: seq<bool>, position: nat, codes: nat, expected: nat, code: Option<nat>)
    requires st.size > 0 && position <= |bits| && goal == Decode(st, bits[position..], codes, expected)
    requires code == if position + st.size > |bits| then None else Some(Value(bits[position..position + st.size]))
    ensures codes >= MAX_CODES || code.None? ==> goal == Err(TerminationDiffers)
    ensures codes < MAX_CODES && code.Some? ==>
      Follows(goal, OnCode(st, code.value), st.output, bits[position + st.size..], codes + 1, expected)
  {
    if position + st.size <= |bits| {
      assert bits[position..][..st.size] == bits[position..position + st.size];
      assert bits[position..][st.size..] == bits[position + st.size..];
    }
  }

  /** The string of a data code: a table entry, or the entry about to be made. */
  method Lookup(table: map<nat, seq<nat>>, nextCode: nat, previous: Option<seq<nat>>, code: nat, ghost st: Decoder)
      returns (value: Option<seq<nat>>)
    requires st.table == table && st.next == nextCode && st.previous == previous
    ensures value == Meaning(st, code)
  {
    if code in table {
      return Some(table[code]);
    }
    if code == nextCode && previous.Some? {
      return Some(previous.value + Head(previous.value));
    }
    return None;
  }

  /** Adds the entry that a decoded string completes, and widens when the table reaches the width. */
  method Remember(table: map<nat, seq<nat>>, nextCode: nat, codeSize: nat, previous: Option<seq<nat>>, value: seq<nat>, ghost st: Decoder)
      returns (grown: map<nat, seq<nat>>, next: nat, size: nat)
    requires st.table == table && st.next == nextCode && st.size == codeSize && st.previous == previous
    ensures Learn(st, value) == Decoder(grown, next, size, Some(value), st.output + value)
  {
    grown, next, size := table, nextCode, codeSize;
    if previous.Some? && next < TABLE_LIMIT {
      grown := grown[next := previous.value + Head(value)];
      next := next + 1;
      if next == Pow2(size) && size < MAX_SIZE {
        size := size + 1;
      }
    }
  }

  /** What one code does: a clear empties the table, the end code stops, a data code adds its string. */
  method Interpret(st: Decoder, code: nat) returns (step: Read)
    ensures step == OnCode(st, code)
  {
    if code == CLEAR {
      return Continue(Decoder(Roots(), FIRST_CODE, FIRST_SIZE, None, st.output));
    }
    if code == END {
      return Ended;
    }
    var value := Lookup(st.table, st.next, st.previous, code, st);
    if value.None? {
      return Invalid;
    }
    var grown, next, size := Remember(st.table, st.next, st.size, st.previous, value.value, st);
    return Continue(Decoder(grown, next, size, value, st.output + value.value));
  }

  /** The decoder either goes on or is done with a result. */
  datatype Progress = More(st: Decoder) | Done(result: Result<seq<nat>, AuditError>)

  /** Decoding from a bit position on leads to the goal. */
  ghost predicate Leads(goal: Result<seq<nat>, AuditError>, bits: seq<bool>, st: Decoder, position: nat, codes: nat, expected: nat) {
    position <= |bits| && st.size > 0 && goal == Decode(st, bits[position..], codes, expected)
  }

  /** Reads one code and acts on it. */
  method DecodeNext(payload: seq<nat>, ghost bits: seq<bool>, st: Decoder, position: nat, codes: nat, expected: nat,
                    ghost goal: Result<seq<nat>, AuditError>)
      returns (progress: Progress)
    requires bits == Unpacked(payload) && Leads(goal, bits, st, position, codes, expected) && codes < MAX_CODES
    ensures progress.Done? ==> goal == progress.result
    ensures progress.More? ==> Leads(goal, bits, progress.st, position + st.size, codes + 1, expected)
  {
    var read := ReadCode(payload, position, st.size);
    DecodeAt(goal, st, bits, position, codes, expected, read);
    if read.None? {
      return Done(Err(TerminationDiffers));
    }
    var step := Interpret(st, read.value);
    match step {
      case Invalid => return Done(Err(CodeInvalid));
      case Ended => return Done(if |st.output| == expected then Ok(st.output) else Err(TerminationDiffers));
      case Continue(next) => return if |next.output| > expected then Done(Err(CanvasExceeded)) else More(next);
    }
  }

  /** The payload begins with a list of codes, not too long and closed by the end code, that spells the indices. */
  ghost predicate Reads(payload: seq<nat>, v: seq<nat>) {
    exists codes :: |codes| <= MAX_CODES && Spells(codes, [], Unpacked(payload), v)
  }

  /** A payload is accepted exactly when it spells a whole canvas, and then that is the result. */
  lemma AcceptedMeans(payload: seq<nat>, minimum: nat, expected: nat)
    ensures match DecodePayload(payload, minimum, expected)
            case Ok(v) => minimum == 4 && |v| == expected && Symbols(v) && Reads(payload, v)
            case Err(_) => minimum == 4 ==> forall v :: Reads(payload, v) ==> |v| != expected
  {
    var r := DecodePayload(payload, minimum, expected);
    if r.Ok? {
      DecodesExactly(Unpacked(payload), expected, r.value);
    } else if minimum == 4 {
      forall v | Reads(payload, v) ensures |v| != expected {
        DecodesExactly(Unpacked(payload), expected, v);
      }
    }
  }

  /** Decodes a payload code by code, growing the width by its own rule. */
  method LzwDecode(payload: seq<nat>, minimum: nat, expected: nat) returns (r: Result<seq<nat>, AuditError>)
    ensures r == DecodePayload(payload, minimum, expected)
    ensures r.Ok? ==> minimum == 4 && |r.value| == expected && Symbols(r.value) && Reads(payload, r.value)
    ensures r.Err? && minimum == 4 ==> forall v :: Reads(payload, v) ==> |v| != expected
  {
    AcceptedMeans(payload, minimum, expected);
    if minimum != MINIMUM || payload == [] {
      return Err(MinimumDiffers);
    }
    r := DecodeCodes(payload, Decoder(Roots(), FIRST_CODE, FIRST_SIZE, None, []), expected);
  }

  /** Reads code after code until the decoder is done or too many codes were read. */
  method DecodeCodes(payload: seq<nat>, start: Decoder, expected: nat) returns (r: Result<seq<nat>, AuditError>)
    requires start.size > 0
    ensures r == Decode(start, Unpacked(payload), 0, expected)
  {
    ghost var bits := Unpacked(payload);
    var st := start;
    var position: nat, codes: nat := 0, 0;
    ghost var goal := Decode(st, bits, 0, expected);
    LeadsAtFirst(goal, bits, st, expected);
    while codes < MAX_CODES
      invariant Leads(goal, bits, st, position, codes, expected)
    {
      var progress := DecodeNext(payload, bits, st, position, codes, expected, goal);
      match progress {
        case Done(result) => return result;
        case More(next) => st, position, codes := next, position + st.size, codes + 1;
      }
    }
    TooManyCodes(goal, bits, st, position, codes, expected);
    return Err(TerminationDiffers);
  }

  lemma LeadsAtFirst(goal: Result<seq<nat>, AuditError>, bits: seq<bool>, st: Decoder, expected: nat)
    requires st.size > 0 && goal == Decode(st, bits, 0, expected)
    ensures Leads(goal, bits, st, 0, 0, expected)
  {
    assert bits[0..] == bits;
  }

  lemma TooManyCodes(goal: Result<seq<nat>, AuditError>, bits: seq<bool>, st: Decoder, position: nat, codes: nat, expected: nat)
    requires Leads(goal, bits, st, position, codes, expected) && codes >= MAX_CODES
    ensures goal == Err(TerminationDiffers)
  {
  }

  // ------------------------------------------------------------ round trip

  /** How many codes are emitted: at most one per symbol, and a clear per full table. */
  lemma {:induction false} EmissionBound(st: Encoder, rest: seq<nat>)
    requires FIRST_CODE <= st.next <= TABLE_LIMIT
    ensures 4079 * |Emitted(st, rest)| <= 4080 * |rest| + 8158 + st.next - FIRST_CODE
    decreases |rest|
  {
    if rest != [] {
      EmissionBound(Encode(st, rest[0]).0, rest[1..]);
    }
  }

  lemma {:induction false} WidthsBounded(st: Encoder, rest: seq<nat>)
    requires st.size <= MAX_SIZE
    ensures |StreamBits(Emitted(st, rest))| <= MAX_SIZE * |Emitted(st, rest)|
    decreases |rest|
  {
    if rest == [] {
      StreamOfTwo(Coded(st.prefix, st.size), Coded(END, st.size), [], []);
      assert [Coded(st.prefix, st.size), Coded(END, st.size)] + [] == Emitted(st, rest);
    } else {
      var (next, out) := Encode(st, rest[0]);
      WidthsBounded(next, rest[1..]);
      StreamBitsAppend(out, Emitted(next, rest[1..]));
      assert |out| == 2 ==> [out[0]] + [out[1]] == out;
      if |out| == 2 {
        StreamOfOne(out[0], [out[1]]);
      }
      if |out| >= 1 {
        StreamOfOne(out[|out| - 1], []);
        assert [out[|out| - 1]] + [] == [out[|out| - 1]];
      }
    }
  }

  /** Every frame's code stream stays below the auditor's code and byte limits. */
  lemma StreamBound(indices: seq<nat>)
    requires 0 < |indices| <= CANVAS
    ensures |CodeStream(indices)| <= MAX_CODES
    ensures 0 < |Payload(indices)| <= MAX_BLOCK_BYTES
  {
    var first := FreshEncoder(indices[0]);
    EmissionBound(first, indices[1..]);
    WidthsBounded(first, indices[1..]);
    StreamOfOne(Coded(CLEAR, FIRST_SIZE), Emitted(first, indices[1..]));
  }

  /** The state in which the encoder ends. */
  function LastState(indices: seq<nat>): Encoder
    requires indices != []
  {
    Finally(FreshEncoder(indices[0]), indices[1..])
  }

  /**
   The one family of frames that cannot be read back: the encoder stopped with
   its next code at a power of two, and the end code fills its byte exactly.
   */
  predicate Unreadable(indices: seq<nat>)
    requires indices != []
  {
    Stranded(LastState(indices), Missing(|StreamBits(CodeStream(indices))|))
  }

  lemma CodesReadBack(indices: seq<nat>)
    requires 0 < |indices| <= CANVAS && Symbols(indices)
    ensures DecodePayload(Payload(indices), MINIMUM, |indices|) == if Unreadable(indices) then Err(TerminationDiffers) else Ok(indices)
  {
    StreamBound(indices);
    var symbol, bits := indices[0], StreamBits(CodeStream(indices));
    var first, padding := FreshEncoder(symbol), Missing(|bits|);
    UnpackPacked(bits);
    Start(symbol, []);
    FirstClearIsRead(FreshDecoder([]), Emitted(first, indices[1..]), padding, |indices|);
    Simulates(first, FreshDecoder([]), Roots(), indices[1..], padding, 1, |indices|);
    assert [] + [symbol] + indices[1..] == indices;
  }

  /** The clear in front of every stream leaves a fresh decoder as it is. */
  lemma FirstClearIsRead(start: Decoder, more: seq<Coded>, padding: nat, expected: nat)
    requires start == FreshDecoder([])
    ensures Decode(start, StreamBits([Coded(CLEAR, FIRST_SIZE)] + more) + Zeros(padding), 0, expected) ==
            Decode(start, StreamBits(more) + Zeros(padding), 1, expected)
  {
    assert Pow2(5) == 32;
    StreamOfOne(Coded(CLEAR, FIRST_SIZE), more);
    AppendAssociates(BitsOf(CLEAR, FIRST_SIZE), StreamBits(more), Zeros(padding));
    DecodeOne(start, CLEAR, StreamBits(more) + Zeros(padding), 0, expected);
  }

  /** Reading one frame's image data out of a file, and the place after it. */
  function ReadFrame(file: seq<nat>, position: nat, expected: nat): Result<(seq<nat>, nat), AuditError>
    requires position < |file|
  {
    match ReadFrom(file, position + 1, [])
    case Err(error) => Err(error)
    case Ok(blocks) =>
      match DecodePayload(blocks.0, file[position], expected)
      case Err(error) => Err(error)
      case Ok(indices) => Ok((indices, blocks.1))
  }

  /**
   The round trip of one frame wherever it stands in a file: reading it returns
   the indices and the place after the frame, if and only if it is readable.
   */
  lemma FrameRoundTrip(before: seq<nat>, indices: seq<nat>, after: seq<nat>)
    requires 0 < |indices| <= CANVAS && Symbols(indices)
    ensures ReadFrame(before + Frame(indices) + after, |before|, |indices|) ==
            if Unreadable(indices) then Err(TerminationDiffers) else Ok((indices, |before| + |Frame(indices)|))
  {
    StreamBound(indices);
    CodesReadBack(indices);
    FrameIsRead(before, Payload(indices), after, |indices|);
  }

  lemma FrameIsRead(before: seq<nat>, payload: seq<nat>, after: seq<nat>, expected: nat)
    requires |payload| <= MAX_BLOCK_BYTES
    ensures ReadFrame(before + ([MINIMUM] + Subblocks(payload)) + after, |before|, expected) ==
            match DecodePayload(payload, MINIMUM, expected)
            case Err(error) => Err(error)
            case Ok(indices) => Ok((indices, |before| + 1 + |Subblocks(payload)|))
  {
    FrameBlocks(before, payload, after);
  }

  lemma FrameBlocks(before: seq<nat>, payload: seq<nat>, after: seq<nat>)
    requires |payload| <= MAX_BLOCK_BYTES
    ensures var file := before + ([MINIMUM] + Subblocks(payload)) + after;
            && file[|before|] == MINIMUM
            && ReadFrom(file, |before| + 1, []) == Ok((payload, |before| + 1 + |Subblocks(payload)|))
  {
    BehindOne(before, MINIMUM, Subblocks(payload), after);
    SubblocksReadBack(before + [MINIMUM], payload, after, []);
    assert [] + payload == payload;
  }

  lemma BehindOne(before: seq<nat>, n: nat, data: seq<nat>, after: seq<nat>)
    ensures before + ([n] + data) + after == before + [n] + data + after
    ensures (before + ([n] + data) + after)[|before|] == n && |before + [n]| == |before| + 1
  {
  }
}

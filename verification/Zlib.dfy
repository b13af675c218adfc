/**
 Stored zlib streams (RFC 1950 over section 3.2.4 of RFC 1951): the renderer's
 writer with its deferred checksum, the auditor's reader with its per-byte one,
 and their round trip.
 */
module Zlib {
  import opened Prelude
  import Bits

  // -------------------------------------------------------------- checksum

  const MODULUS: nat := 65521
  const CHUNK: nat := 5552

  /** The two running sums of section 2.2 of RFC 1950, before any reduction. */
  function First(data: seq<nat>): nat
  {
    if data == [] then 1 else First(data[..|data| - 1]) + data[|data| - 1]
  }

  function Second(data: seq<nat>): nat
  {
    if data == [] then 0 else Second(data[..|data| - 1]) + First(data)
  }

  function Adler(data: seq<nat>): (sum: nat)
    ensures sum < 0x1_0000_0000
  {
    Second(data) % MODULUS * 0x1_0000 + First(data) % MODULUS
  }

  lemma NextSums(data: seq<nat>, k: nat)
    requires k < |data|
    ensures First(data[..k + 1]) == First(data[..k]) + data[k]
    ensures Second(data[..k + 1]) == Second(data[..k]) + First(data[..k + 1])
  {
    var now := data[..k + 1];
    assert now[..|now| - 1] == data[..k];
  }

  lemma ModAdd(a: nat, b: nat, v: nat)
    requires a % MODULUS == b % MODULUS
    ensures (a + v) % MODULUS == (b + v) % MODULUS
  {
  }

  /** The renderer's checksum: the sums are reduced only once every 5552 bytes. */
  method AdlerDeferred(data: seq<nat>) returns (sum: nat)
    ensures sum == Adler(data)
  {
    var first: nat, second: nat := 1, 0;
    var start := 0;
    while start < |data|
      invariant start <= |data|
      invariant first % MODULUS == First(data[..start]) % MODULUS && first < MODULUS
      invariant second % MODULUS == Second(data[..start]) % MODULUS && second < MODULUS
    {
      var end := Min(start + CHUNK, |data|);
      for k := start to end
        invariant first % MODULUS == First(data[..k]) % MODULUS
        invariant second % MODULUS == Second(data[..k]) % MODULUS
      {
        NextSums(data, k);
        ModAdd(first, First(data[..k]), data[k]);
        first := first + data[k];
        ModAdd(second, Second(data[..k]), first);
        ModAdd(first, First(data[..k + 1]), Second(data[..k]));
        second := second + first;
      }
      first := first % MODULUS;
      second := second % MODULUS;
      start := end;
    }
    assert data[..|data|] == data;
    return second * 0x1_0000 + first;
  }

  /** The auditor's checksum: the sums are reduced at every byte. */
  method AdlerStepwise(data: seq<nat>) returns (sum: nat)
    ensures sum == Adler(data)
  {
    var low: nat, high: nat := 1, 0;
    for k := 0 to |data|
      invariant low == First(data[..k]) % MODULUS
      invariant high == Second(data[..k]) % MODULUS
    {
      NextSums(data, k);
      ModAdd(low, First(data[..k]), data[k]);
      low := (low + data[k]) % MODULUS;
      ModAdd(high, Second(data[..k]), low);
      ModAdd(low, First(data[..k + 1]), Second(data[..k]));
      high := (high + low) % MODULUS;
    }
    assert data[..|data|] == data;
    return high * 0x1_0000 + low;
  }

  // --------------------------------------------------------- the modulus

  ghost predicate Prime(n: nat) {
    n >= 2 && forall d: nat :: 2 <= d < n ==> n % d != 0
  }

  lemma LargeFactors(d: nat, q: nat, root: nat)
    requires d > root && q > root
    ensures d * q >= (root + 1) * (root + 1)
  {
    assert d * q >= (root + 1) * q >= (root + 1) * (root + 1);
  }

  lemma NoSmallDivisor(d: nat)
    requires 2 <= d <= 255
    ensures MODULUS % d != 0
  {
  }

  /** Of two factors of the modulus one is small. */
  lemma SecondFactor(d: nat, q: nat)
    requires 255 < d < MODULUS
    ensures MODULUS != d * q
  {
    if q > 255 {
      LargeFactors(d, q, 255);
    } else if q >= 2 {
      NoSmallDivisor(q);
      if MODULUS == d * q {
        Bits.DivMod(MODULUS, q, 0, d);
      }
    }
  }

  lemma DividesNot(d: nat)
    requires 2 <= d < MODULUS
    ensures MODULUS % d != 0
  {
    if MODULUS % d == 0 {
      var q := MODULUS / d;
      if d <= 255 {
        NoSmallDivisor(d);
      } else {
        SecondFactor(d, q);
      }
    }
  }

  /** The modulus is the largest prime below 65536, as section 9 of RFC 1950 has it. */
  lemma ModulusIsLargestPrime()
    ensures Prime(MODULUS) && forall n: nat :: MODULUS < n < 65536 ==> !Prime(n)
  {
    forall d: nat | 2 <= d < MODULUS ensures MODULUS % d != 0 {
      DividesNot(d);
    }
    forall n: nat | MODULUS < n < 65536 ensures !Prime(n) {
      var d: nat := if n == 65527 then 7 else if n == 65531 then 19 else if n == 65533 then 13 else if n == 65525 then 5 else if n % 2 == 0 then 2 else 3;
      assert n % d == 0;
    }
  }

  // ---------------------------------------------------------------- writer

  const BLOCK: nat := 65535
  const MAX_BLOCKS: nat := 33

  /** Two bytes, low byte first. */
  function Little16(n: nat): seq<nat> { [n % 256, n / 256] }

  /** Four bytes, high byte first. */
  function Big32(n: nat): seq<nat> { [n / 256 / 256 / 256, n / 256 / 256 % 256, n / 256 % 256, n % 256] }

  /** One stored block; the complement of a 16-bit length is its distance from 65535. */
  function Block(last: bool, data: seq<nat>): seq<nat>
    requires |data| <= BLOCK
  {
    [if last then 1 else 0] + Little16(|data|) + Little16(0xFFFF - |data|) + data
  }

  function BlocksOf(data: seq<nat>): seq<nat>
    decreases |data|
  {
    if |data| <= BLOCK then Block(true, data) else Block(false, data[..BLOCK]) + BlocksOf(data[BLOCK..])
  }

  function BlockCount(size: nat): (count: nat)
    ensures count >= 1
  {
    if size <= BLOCK then 1 else 1 + BlockCount(size - BLOCK)
  }

  function Stored(data: seq<nat>): seq<nat> {
    [0x78, 0x01] + BlocksOf(data) + Big32(Adler(data))
  }

  /** The data cut into blocks; empty data still makes one block. */
  function Chunks(data: seq<nat>): (chunks: seq<seq<nat>>)
    ensures chunks != [] && forall i :: 0 <= i < |chunks| ==> |chunks[i]| <= BLOCK
    decreases |data|
  {
    if |data| <= BLOCK then [data] else [data[..BLOCK]] + Chunks(data[BLOCK..])
  }

  /** The blocks written one after another, the last one marked as final. */
  function Framed(chunks: seq<seq<nat>>): seq<nat>
    requires forall i :: 0 <= i < |chunks| ==> |chunks[i]| <= BLOCK
  {
    if chunks == [] then [] else Block(|chunks| == 1, chunks[0]) + Framed(chunks[1..])
  }

  lemma {:induction false} FramedChunks(data: seq<nat>)
    ensures Framed(Chunks(data)) == BlocksOf(data)
    decreases |data|
  {
    if |data| > BLOCK {
      FramedChunks(data[BLOCK..]);
      assert Chunks(data)[1..] == Chunks(data[BLOCK..]);
    }
  }

  method SplitBlocks(data: seq<nat>) returns (blocks: seq<seq<nat>>)
    ensures blocks == Chunks(data)
  {
    if data == [] {
      return [[]];
    }
    blocks := [];
    var index := 0;
    assert data[0..] == data;
    while index < |data|
      invariant index <= |data|
      invariant if index < |data| then blocks + Chunks(data[index..]) == Chunks(data) else blocks == Chunks(data)
    {
      var end := Min(index + BLOCK, |data|);
      if end < |data| {
        assert data[index..][..BLOCK] == data[index..end] && data[index..][BLOCK..] == data[end..];
        AppendAssociates(blocks, [data[index..end]], Chunks(data[end..]));
      } else {
        assert data[index..end] == data[index..];
      }
      blocks := blocks + [data[index..end]];
      index := end;
    }
  }

  method StoredZlib(data: seq<nat>) returns (output: seq<nat>)
    ensures output == Stored(data)
  {
    output := [0x78, 0x01];
    var blocks := SplitBlocks(data);
    FramedChunks(data);
    assert blocks[0..] == blocks;
    for index := 0 to |blocks|
      invariant output + Framed(blocks[index..]) == [0x78, 0x01] + BlocksOf(data)
    {
      var block := blocks[index];
      var flag := index == |blocks| - 1;
      assert blocks[index..][1..] == blocks[index + 1..];
      AppendAssociates(output, Block(flag, block), Framed(blocks[index + 1..]));
      output := output + Block(flag, block);
    }
    assert output + [] == output;
    var sum := AdlerDeferred(data);
    output := output + Big32(sum);
  }

  // ---------------------------------------------------------------- reader

  datatype AuditError = NotStored | HeaderInvalid | NotByteAligned | LengthInvalid | TooLong | TrailingData | ChecksumDiffers

  function ReadLittle16(data: seq<nat>, at: nat): nat
    requires at + 2 <= |data|
  {
    data[at] + 256 * data[at + 1]
  }

  function ReadBig32(data: seq<nat>, at: nat): nat
    requires at + 4 <= |data|
  {
    data[at] * 0x100_0000 + data[at + 1] * 0x1_0000 + data[at + 2] * 256 + data[at + 3]
  }

  /** One block as it is read: whether it is final, what it carries, and the place after it. */
  datatype Piece = Piece(final: bool, part: seq<nat>, next: nat)

  /** The block at a position, if a sound one stands there in front of the checksum. */
  function BlockOf(payload: seq<nat>, position: nat): (r: Result<Piece, AuditError>)
    ensures r.Ok? ==> position < r.value.next <= |payload| - 4
  {
    if position + 5 > |payload| - 4 then Err(HeaderInvalid)
    else if payload[position] > 1 then Err(NotByteAligned)
    else
      var length, complement := ReadLittle16(payload, position + 1), ReadLittle16(payload, position + 3);
      if length + complement != 0xFFFF || position + 5 + length > |payload| - 4 then Err(LengthInvalid)
      else Ok(Piece(payload[position] == 1, payload[position + 5..position + 5 + length], position + 5 + length))
  }

  /** Reading blocks from a position on: the data so far and the place after the final block. */
  function InflateFrom(payload: seq<nat>, position: nat, output: seq<nat>, blocks: nat, expected: nat): (r: Result<(seq<nat>, nat), AuditError>)
    ensures r.Ok? ==> r.value.1 <= |payload| - 4
    decreases |payload| - position
  {
    if blocks >= MAX_BLOCKS then Err(HeaderInvalid) else
      match BlockOf(payload, position)
      case Err(error) => Err(error)
      case Ok(piece) =>
        if |output + piece.part| > expected then Err(TooLong)
        else if piece.final then Ok((output + piece.part, piece.next))
        else InflateFrom(payload, piece.next, output + piece.part, blocks + 1, expected)
  }

  /** The whole stream: header, blocks, nothing else, and the right checksum. */
  function Inflated(payload: seq<nat>, expected: nat): Result<seq<nat>, AuditError> {
    if |payload| < 11 || payload[..2] != [0x78, 0x01] then Err(NotStored) else
      match InflateFrom(payload, 2, [], 0, expected)
      case Err(error) => Err(error)
      case Ok(read) =>
        if read.1 != |payload| - 4 then Err(TrailingData)
        else if ReadBig32(payload, read.1) != Adler(read.0) || |read.0| != expected then Err(ChecksumDiffers)
        else Ok(read.0)
  }

  /** Reads the block at a position. */
  method ReadBlock(payload: seq<nat>, start: nat) returns (r: Result<Piece, AuditError>)
    ensures r == BlockOf(payload, start)
  {
    var position := start;
    if position + 5 > |payload| - 4 {
      return Err(HeaderInvalid);
    }
    var header := payload[position];
    position := position + 1;
    if header > 1 {
      return Err(NotByteAligned);
    }
    var length, complement := ReadLittle16(payload, position), ReadLittle16(payload, position + 2);
    position := position + 4;
    if length + complement != 0xFFFF || position + length > |payload| - 4 {
      return Err(LengthInvalid);
    }
    return Ok(Piece(header == 1, payload[position..position + length], position + length));
  }

  /** Reads blocks until the final one. */
  method InflateBlocks(payload: seq<nat>, start: nat, expected: nat) returns (r: Result<(seq<nat>, nat), AuditError>)
    ensures r == InflateFrom(payload, start, [], 0, expected)
  {
    var position: nat := start;
    var output: seq<nat> := [];
    var final, blocks := false, 0;
    ghost var goal := InflateFrom(payload, start, [], 0, expected);
    while !final
      invariant if final then goal == Ok((output, position)) else goal == InflateFrom(payload, position, output, blocks, expected)
      decreases !final, |payload| - position
    {
      if blocks > 32 {
        return Err(HeaderInvalid);
      }
      var block := ReadBlock(payload, position);
      if block.Err? {
        return Err(block.error);
      }
      output := output + block.value.part;
      position := block.value.next;
      final := block.value.final;
      blocks := blocks + 1;
      if |output| > expected {
        return Err(TooLong);
      }
    }
    return Ok((output, position));
  }

  method InflateStored(payload: seq<nat>, expected: nat) returns (r: Result<seq<nat>, AuditError>)
    ensures r == Inflated(payload, expected)
    ensures AreBytes(payload) && r.Ok? ==> |r.value| == expected && exists parts :: StoredAs(payload, parts, r.value)
    ensures AreBytes(payload) && r.Err? ==> forall parts, data :: |data| == expected ==> !StoredAs(payload, parts, data)
  {
    AcceptsExactly(payload, expected);
    if |payload| < 11 || payload[..2] != [0x78, 0x01] {
      return Err(NotStored);
    }
    var blocks := InflateBlocks(payload, 2, expected);
    if blocks.Err? {
      return Err(blocks.error);
    }
    var output, position := blocks.value.0, blocks.value.1;
    if position != |payload| - 4 {
      return Err(TrailingData);
    }
    var checksum := ReadBig32(payload, position);
    var sum := AdlerStepwise(output);
    if checksum != sum || |output| != expected {
      return Err(ChecksumDiffers);
    }
    return Ok(output);
  }

  // ------------------------------------------------------- reading blocks

  /** A block stands at a position of a payload. */
  predicate BlockAt(payload: seq<nat>, position: nat, last: bool, part: seq<nat>) {
    && |part| <= BLOCK && position + 5 + |part| <= |payload|
    && payload[position..position + 5 + |part|] == Block(last, part)
  }

  lemma BlockBytes(payload: seq<nat>, position: nat, last: bool, part: seq<nat>)
    requires BlockAt(payload, position, last, part)
    ensures payload[position] == (if last then 1 else 0)
    ensures ReadLittle16(payload, position + 1) == |part| && ReadLittle16(payload, position + 3) == 0xFFFF - |part|
    ensures payload[position + 5..position + 5 + |part|] == part
  {
    var block := payload[position..position + 5 + |part|];
    assert block[..5] == [if last then 1 else 0] + Little16(|part|) + Little16(0xFFFF - |part|);
    assert payload[position] == block[..5][0];
    assert payload[position + 1] == block[..5][1] && payload[position + 2] == block[..5][2];
    assert payload[position + 3] == block[..5][3] && payload[position + 4] == block[..5][4];
    assert payload[position + 5..position + 5 + |part|] == block[5..];
  }

  lemma BlockIsFound(payload: seq<nat>, position: nat, last: bool, part: seq<nat>)
    requires BlockAt(payload, position, last, part) && position + 5 + |part| + 4 <= |payload|
    ensures BlockOf(payload, position) == Ok(Piece(last, part, position + 5 + |part|))
  {
    BlockBytes(payload, position, last, part);
  }

  /** A block is taken in, and reading goes on behind it unless it is the last. */
  lemma PieceIsRead(payload: seq<nat>, position: nat, piece: Piece, output: seq<nat>, blocks: nat, expected: nat)
    requires BlockOf(payload, position) == Ok(piece) && |output + piece.part| <= expected && blocks < MAX_BLOCKS
    ensures InflateFrom(payload, position, output, blocks, expected) ==
            if piece.final then Ok((output + piece.part, piece.next))
            else InflateFrom(payload, piece.next, output + piece.part, blocks + 1, expected)
  {
  }

  lemma TooManyBlocks(payload: seq<nat>, position: nat, output: seq<nat>, blocks: nat, expected: nat)
    requires |payload| >= 4 && blocks >= MAX_BLOCKS
    ensures InflateFrom(payload, position, output, blocks, expected) == Err(HeaderInvalid)
  {
  }

  predicate Blocks(parts: seq<seq<nat>>) {
    forall i :: 0 <= i < |parts| ==> |parts[i]| <= BLOCK
  }

  lemma FramedStep(parts: seq<seq<nat>>, later: seq<nat>)
    requires |parts| > 1 && Blocks(parts) && later == Framed(parts[1..])
    ensures Framed(parts) == Block(false, parts[0]) + later && |Framed(parts)| == |Block(false, parts[0])| + |later|
    ensures Joined(parts) == parts[0] + Joined(parts[1..])
  {
  }

  lemma FramedLast(part: seq<nat>)
    requires |part| <= BLOCK
    ensures Framed([part]) == Block(true, part) && Joined([part]) == part
  {
    assert [part][1..] == [];
    assert Framed([]) == [] && Joined<nat>([]) == [];
    assert part + [] == part && Block(true, part) + [] == Block(true, part);
  }

  /** From a position on the reader finds these blocks, the last of which ends at `end`. */
  predicate BlocksAt(payload: seq<nat>, position: nat, parts: seq<seq<nat>>, end: nat)
    decreases |parts|
  {
    && parts != [] && BlockOf(payload, position) == Ok(Piece(|parts| == 1, parts[0], position + 5 + |parts[0]|))
    && (if |parts| == 1 then end == position + 5 + |parts[0]| else BlocksAt(payload, position + 5 + |parts[0]|, parts[1..], end))
  }

  /** A frame in a payload is its blocks in that payload. */
  lemma {:induction false} FramedStands(payload: seq<nat>, position: nat, parts: seq<seq<nat>>, end: nat)
    requires parts != [] && Blocks(parts) && position <= end && end + 4 <= |payload| && payload[position..end] == Framed(parts)
    ensures BlocksAt(payload, position, parts, end)
    decreases |parts|
  {
    FirstStands(payload, position, |parts| == 1, parts[0], end, Framed(parts[1..]));
    if |parts| > 1 {
      FramedStands(payload, position + 5 + |parts[0]|, parts[1..], end);
    } else {
      assert parts[1..] == [];
    }
  }

  lemma FirstStands(payload: seq<nat>, position: nat, last: bool, part: seq<nat>, end: nat, later: seq<nat>)
    requires |part| <= BLOCK && position <= end && end + 4 <= |payload| && payload[position..end] == Block(last, part) + later
    ensures position + 5 + |part| <= end && payload[position + 5 + |part|..end] == later
    ensures BlockOf(payload, position) == Ok(Piece(last, part, position + 5 + |part|))
  {
    AroundBlock(payload, position, end, Block(last, part), later);
    BlockIsFound(payload, position, last, part);
  }

  /** A stretch of a payload taken apart into a block and what follows. */
  lemma AroundBlock(payload: seq<nat>, position: nat, end: nat, block: seq<nat>, later: seq<nat>)
    requires position <= end <= |payload| && payload[position..end] == block + later
    ensures position + |block| <= end && payload[position..position + |block|] == block && payload[position + |block|..end] == later
  {
    var whole := payload[position..end];
    assert whole[..|block|] == block && whole[|block|..] == later;
  }

  lemma JoinedStep(parts: seq<seq<nat>>, output: seq<nat>, joined: seq<nat>)
    requires parts != [] && joined == Joined(parts[1..])
    ensures output + Joined(parts) == output + parts[0] + joined
    ensures |parts| == 1 ==> output + Joined(parts) == output + parts[0]
  {
    AppendAssociates(output, parts[0], joined);
    if |parts| == 1 {
      assert parts[1..] == [];
      assert output + parts[0] + [] == output + parts[0];
    }
  }

  /** Any blocks are read back exactly when there are not too many of them. */
  lemma {:induction false} BlocksReadBack(payload: seq<nat>, position: nat, parts: seq<seq<nat>>, end: nat,
                                          output: seq<nat>, blocks: nat, expected: nat, joined: seq<nat>)
    requires BlocksAt(payload, position, parts, end)
    requires joined == Joined(parts) && |output + joined| <= expected
    ensures InflateFrom(payload, position, output, blocks, expected) ==
            if blocks + |parts| <= MAX_BLOCKS then Ok((output + joined, end)) else Err(HeaderInvalid)
    decreases |parts|
  {
    if blocks >= MAX_BLOCKS {
      TooManyBlocks(payload, position, output, blocks, expected);
    } else {
      var rest, part := Joined(parts[1..]), parts[0];
      JoinedStep(parts, output, rest);
      PieceIsRead(payload, position, Piece(|parts| == 1, part, position + 5 + |part|), output, blocks, expected);
      if |parts| > 1 {
        BlocksReadBack(payload, position + 5 + |part|, parts[1..], end, output + part, blocks + 1, expected, rest);
      }
    }
  }

  lemma StreamEnds(payload: seq<nat>, stream: seq<nat>, tail: seq<nat>)
    requires |tail| == 4 && payload == [0x78, 0x01] + stream + tail
    ensures payload[..2] == [0x78, 0x01] && |payload| == |stream| + 6 && payload[2..|payload| - 4] == stream
  {
  }

  /** So are the blocks of a frame in a payload. */
  lemma FrameReadsBack(payload: seq<nat>, position: nat, parts: seq<seq<nat>>, end: nat,
                       output: seq<nat>, blocks: nat, expected: nat, joined: seq<nat>)
    requires parts != [] && Blocks(parts) && position <= end && end + 4 <= |payload| && payload[position..end] == Framed(parts)
    requires joined == Joined(parts) && |output + joined| <= expected
    ensures InflateFrom(payload, position, output, blocks, expected) ==
            if blocks + |parts| <= MAX_BLOCKS then Ok((output + joined, end)) else Err(HeaderInvalid)
  {
    FramedStands(payload, position, parts, end);
    BlocksReadBack(payload, position, parts, end, output, blocks, expected, joined);
  }

  // ------------------------------------------------------- what is accepted

  predicate AreBytes(data: seq<nat>) {
    forall i :: 0 <= i < |data| ==> data[i] < 256
  }

  /**
   A canonical stored stream: the two header bytes, 1 to 33 stored blocks of at
   most 65535 bytes with only the last one marked as final, and the checksum of
   their joined contents.
   */
  predicate StoredAs(payload: seq<nat>, parts: seq<seq<nat>>, data: seq<nat>) {
    && 1 <= |parts| <= 33 && (forall i :: 0 <= i < |parts| ==> |parts[i]| <= 65535)
    && Joined(parts) == data
    && payload == [0x78, 0x01] + Framed(parts) + Big32(Adler(data))
  }

  lemma ReadBig32Back(data: seq<nat>, at: nat)
    requires AreBytes(data) && at + 4 == |data|
    ensures data[at..] == Big32(ReadBig32(data, at))
  {
    var n := ReadBig32(data, at);
    var low := data[at + 2] * 256 + data[at + 3];
    assert n == 256 * (256 * (256 * data[at] + data[at + 1]) + data[at + 2]) + data[at + 3];
    assert n / 256 == 256 * (256 * data[at] + data[at + 1]) + data[at + 2] && n % 256 == data[at + 3];
    assert n / 256 / 256 == 256 * data[at] + data[at + 1] && n / 256 % 256 == data[at + 2];
  }

  lemma ReadLittle16Back(data: seq<nat>, at: nat)
    requires AreBytes(data) && at + 2 <= |data|
    ensures Little16(ReadLittle16(data, at)) == [data[at], data[at + 1]] && ReadLittle16(data, at) <= BLOCK
  {
  }

  /** The five bytes in front of an accepted block are its header. */
  lemma HeaderReadBack(data: seq<nat>, at: nat, length: nat)
    requires AreBytes(data) && at + 5 + length <= |data| && data[at] <= 1
    requires length == ReadLittle16(data, at + 1) && ReadLittle16(data, at + 3) == 0xFFFF - length
    ensures length <= BLOCK
    ensures data[at..at + 5 + length] == Block(data[at] == 1, data[at + 5..at + 5 + length])
  {
    var part := data[at + 5..at + 5 + length];
    ReadLittle16Back(data, at + 1);
    ReadLittle16Back(data, at + 3);
    FiveBytes(data, at, Little16(length), Little16(0xFFFF - length));
    assert data[at..at + 5 + length] == data[at..at + 5] + part;
  }

  lemma FiveBytes(data: seq<nat>, at: nat, first: seq<nat>, second: seq<nat>)
    requires at + 5 <= |data| && first == [data[at + 1], data[at + 2]] && second == [data[at + 3], data[at + 4]]
    ensures data[at..at + 5] == [data[at]] + first + second
  {
  }

  /** The block that an accepting reader has in front of it. */
  lemma BlockAhead(payload: seq<nat>, position: nat, output: seq<nat>, blocks: nat, expected: nat, end: nat, data: seq<nat>)
      returns (part: seq<nat>, next: nat)
    requires AreBytes(payload) && |payload| >= 4 && InflateFrom(payload, position, output, blocks, expected) == Ok((data, end))
    ensures blocks < MAX_BLOCKS && |part| <= BLOCK && position < next <= |payload| - 4
    ensures payload[position..next] == Block(payload[position] == 1, part)
    ensures if payload[position] == 1 then data == output + part && end == next
            else InflateFrom(payload, next, output + part, blocks + 1, expected) == Ok((data, end))
  {
    var length := ReadLittle16(payload, position + 1);
    next := position + 5 + length;
    part := payload[position + 5..next];
    HeaderReadBack(payload, position, length);
  }

  /** What was read block by block are blocks. */
  lemma {:induction false} AcceptedBlocks(payload: seq<nat>, position: nat, output: seq<nat>, blocks: nat, expected: nat, end: nat, data: seq<nat>)
      returns (parts: seq<seq<nat>>)
    requires AreBytes(payload) && |payload| >= 4 && InflateFrom(payload, position, output, blocks, expected) == Ok((data, end))
    ensures parts != [] && Blocks(parts) && blocks + |parts| <= MAX_BLOCKS
    ensures data == output + Joined(parts) && position <= end <= |payload| - 4 && payload[position..end] == Framed(parts)
    decreases |payload| - position
  {
    var part, next := BlockAhead(payload, position, output, blocks, expected, end, data);
    if payload[position] == 1 {
      parts := [part];
      FramedLast(part);
      assert payload[position..next] == Framed(parts);
    } else {
      var rest := AcceptedBlocks(payload, next, output + part, blocks + 1, expected, end, data);
      parts := [part] + rest;
      PartBefore(payload, position, next, end, part, rest);
      AppendAssociates(output, part, Joined(rest));
    }
  }

  lemma PartBefore(payload: seq<nat>, position: nat, next: nat, end: nat, part: seq<nat>, rest: seq<seq<nat>>)
    requires position <= next <= end <= |payload| && |part| <= BLOCK && rest != [] && Blocks(rest)
    requires payload[position..next] == Block(false, part) && payload[next..end] == Framed(rest)
    ensures Blocks([part] + rest) && payload[position..end] == Framed([part] + rest) && Joined([part] + rest) == part + Joined(rest)
  {
    assert ([part] + rest)[1..] == rest;
    FramedStep([part] + rest, Framed(rest));
    assert payload[position..end] == payload[position..next] + payload[next..end];
  }

  lemma CanonicalIsAccepted(payload: seq<nat>, parts: seq<seq<nat>>, data: seq<nat>)
    requires StoredAs(payload, parts, data)
    ensures Inflated(payload, |data|) == Ok(data)
  {
    StreamEnds(payload, Framed(parts), Big32(Adler(data)));
    FramedIsLong(parts);
    FrameReadsBack(payload, 2, parts, |payload| - 4, [], 0, |data|, data);
    assert [] + data == data;
    ChecksumReadBack([0x78, 0x01] + Framed(parts), Adler(data));
  }

  lemma FramedIsLong(parts: seq<seq<nat>>)
    requires parts != [] && Blocks(parts)
    ensures |Framed(parts)| >= 5
  {
  }

  lemma AcceptedIsCanonical(payload: seq<nat>, expected: nat, data: seq<nat>) returns (parts: seq<seq<nat>>)
    requires AreBytes(payload) && Inflated(payload, expected) == Ok(data)
    ensures |data| == expected && StoredAs(payload, parts, data)
  {
    var end: nat := |payload| - 4;
    AcceptedMeans(payload, expected, data);
    parts := AcceptedBlocks(payload, 2, [], 0, expected, end, data);
    assert [] + Joined(parts) == Joined(parts);
    ReadBig32Back(payload, end);
    Reassembled(payload, 2, end, [0x78, 0x01], Framed(parts), Big32(Adler(data)));
  }

  lemma AcceptedMeans(payload: seq<nat>, expected: nat, data: seq<nat>)
    requires Inflated(payload, expected) == Ok(data)
    ensures |payload| >= 11 && payload[..2] == [0x78, 0x01] && |data| == expected
    ensures InflateFrom(payload, 2, [], 0, expected) == Ok((data, |payload| - 4)) && ReadBig32(payload, |payload| - 4) == Adler(data)
  {
  }

  lemma Reassembled(payload: seq<nat>, from: nat, to: nat, front: seq<nat>, middle: seq<nat>, back: seq<nat>)
    requires from <= to <= |payload| && payload[..from] == front && payload[from..to] == middle && payload[to..] == back
    ensures payload == front + middle + back
  {
  }

  /** The reader accepts exactly the canonical stored streams of the expected length, and returns what they carry. */
  lemma AcceptsExactly(payload: seq<nat>, expected: nat)
    ensures AreBytes(payload) ==>
      forall data :: Inflated(payload, expected) == Ok(data) <==> |data| == expected && exists parts :: StoredAs(payload, parts, data)
  {
    if AreBytes(payload) {
      forall data ensures Inflated(payload, expected) == Ok(data) <==> |data| == expected && exists parts :: StoredAs(payload, parts, data) {
        if Inflated(payload, expected) == Ok(data) {
          var parts := AcceptedIsCanonical(payload, expected, data);
        }
        if |data| == expected && exists parts :: StoredAs(payload, parts, data) {
          var parts :| StoredAs(payload, parts, data);
          CanonicalIsAccepted(payload, parts, data);
        }
      }
    }
  }

  // ------------------------------------------------------------ round trip

  lemma {:induction false} BlockCountMeans(size: nat, n: nat)
    requires n >= 1
    ensures BlockCount(size) <= n <==> size <= n * BLOCK
    decreases n
  {
    if n > 1 && size > BLOCK {
      BlockCountMeans(size - BLOCK, n - 1);
    }
  }

  lemma {:induction false} ChunksMean(data: seq<nat>)
    ensures |Chunks(data)| == BlockCount(|data|) && Joined(Chunks(data)) == data
    decreases |data|
  {
    if |data| <= BLOCK {
      FramedLast(data);
    } else {
      var head, rest := data[..BLOCK], data[BLOCK..];
      ChunksMean(rest);
      assert Chunks(data)[1..] == Chunks(rest);
      assert head + rest == data;
    }
  }

  lemma ChecksumReadBack(before: seq<nat>, sum: nat)
    requires sum < 0x1_0000_0000
    ensures ReadBig32(before + Big32(sum), |before|) == sum
  {
  }

  /**
   The reader inverts the writer exactly on data of at most 33 full blocks;
   longer streams, which the writer also produces, are refused.
   */
  lemma StoredRoundTrip(data: seq<nat>)
    ensures Inflated(Stored(data), |data|) == if |data| <= MAX_BLOCKS * BLOCK then Ok(data) else Err(HeaderInvalid)
  {
    var parts := Chunks(data);
    FramedChunks(data);
    ChunksMean(data);
    BlockCountMeans(|data|, MAX_BLOCKS);
    if |data| <= MAX_BLOCKS * BLOCK {
      CanonicalIsAccepted(Stored(data), parts, data);
    } else {
      StreamEnds(Stored(data), BlocksOf(data), Big32(Adler(data)));
      FramedIsLong(parts);
      FrameReadsBack(Stored(data), 2, parts, |Stored(data)| - 4, [], 0, |data|, data);
    }
  }
}

/**
 Variable-width LZW over sixteen symbols (Appendix F of the GIF89a
 specification): the encoder and the decoder as transitions, each with its own
 rule for growing the code width, and the simulation that keeps them together.
 */
module Lzw {
  import opened Prelude
  import opened Bits

  const CLEAR: nat := 16
  const END: nat := 17
  const FIRST_CODE: nat := 18
  const FIRST_SIZE: nat := 5
  const TABLE_LIMIT: nat := 4096
  const MAX_SIZE: nat := 12

  predicate Symbols(indices: seq<nat>) {
    forall i :: 0 <= i < |indices| ==> indices[i] < CLEAR
  }

  // -------------------------------------------------------------- encoder

  /** One emitted code and the width it is written with. */
  datatype Coded = Coded(code: nat, width: nat)

  datatype Encoder = Encoder(table: map<(nat, nat), nat>, next: nat, size: nat, prefix: nat)

  function FreshEncoder(symbol: nat): Encoder { Encoder(map[], FIRST_CODE, FIRST_SIZE, symbol) }

  /** The width after `next` became the next free code. */
  function EncoderWidth(next: nat, size: nat): nat {
    if next > Pow2(size) && size < MAX_SIZE then size + 1 else size
  }

  function Insert(st: Encoder, symbol: nat): Encoder {
    Encoder(st.table[(st.prefix, symbol) := st.next], st.next + 1, EncoderWidth(st.next + 1, st.size), symbol)
  }

  /** What one more symbol emits, and the state after it. */
  function Encode(st: Encoder, symbol: nat): (Encoder, seq<Coded>) {
    if (st.prefix, symbol) in st.table then (st.(prefix := st.table[(st.prefix, symbol)]), [])
    else if st.next < TABLE_LIMIT then (Insert(st, symbol), [Coded(st.prefix, st.size)])
    else (FreshEncoder(symbol), [Coded(st.prefix, st.size), Coded(CLEAR, st.size)])
  }

  /** The encoder after the remaining symbols. */
  function Finally(st: Encoder, rest: seq<nat>): Encoder
    decreases |rest|
  {
    if rest == [] then st else Finally(Encode(st, rest[0]).0, rest[1..])
  }

  /** Everything emitted from a state on, including the last code and the end code. */
  function Emitted(st: Encoder, rest: seq<nat>): seq<Coded>
    decreases |rest|
  {
    if rest == [] then [Coded(st.prefix, st.size), Coded(END, st.size)]
    else Encode(st, rest[0]).1 + Emitted(Encode(st, rest[0]).0, rest[1..])
  }

  /** The whole code stream of a nonempty index string. */
  function CodeStream(indices: seq<nat>): seq<Coded>
    requires indices != []
  {
    [Coded(CLEAR, FIRST_SIZE)] + Emitted(FreshEncoder(indices[0]), indices[1..])
  }

  /** The bits of a code stream. */
  function StreamBits(codes: seq<Coded>): seq<bool> {
    if codes == [] then [] else BitsOf(codes[0].code, codes[0].width) + StreamBits(codes[1..])
  }

  lemma {:induction false} StreamBitsAppend(a: seq<Coded>, b: seq<Coded>)
    ensures StreamBits(a + b) == StreamBits(a) + StreamBits(b)
  {
    if a == [] {
      assert a + b == b;
    } else {
      StreamBitsAppend(a[1..], b);
      assert (a + b)[1..] == a[1..] + b;
      AppendAssociates(BitsOf(a[0].code, a[0].width), StreamBits(a[1..]), StreamBits(b));
    }
  }

  // -------------------------------------------------------------- decoder

  datatype Decoder = Decoder(table: map<nat, seq<nat>>, next: nat, size: nat, previous: Option<seq<nat>>, output: seq<nat>)

  function Roots(): map<nat, seq<nat>> { map c: nat | 0 <= c < CLEAR :: [c] }

  function FreshDecoder(output: seq<nat>): Decoder { Decoder(Roots(), FIRST_CODE, FIRST_SIZE, None, output) }

  datatype Read = Invalid | Ended | Continue(st: Decoder)

  function DecoderWidth(next: nat, size: nat): nat {
    if next == Pow2(size) && size < MAX_SIZE then size + 1 else size
  }

  /** At most the first symbol of a string. */
  function Head(value: seq<nat>): seq<nat> { value[..Min(1, |value|)] }

  /** The string a data code stands for, if it stands for any. */
  function Meaning(st: Decoder, code: nat): Option<seq<nat>> {
    if code in st.table then Some(st.table[code])
    else if code == st.next && st.previous.Some? then Some(st.previous.value + Head(st.previous.value))
    else None
  }

  /** The table after a data code that stands for `value`. */
  function Learn(st: Decoder, value: seq<nat>): Decoder {
    if st.previous.Some? && st.next < TABLE_LIMIT then
      Decoder(st.table[st.next := st.previous.value + Head(value)], st.next + 1, DecoderWidth(st.next + 1, st.size),
              Some(value), st.output + value)
    else st.(previous := Some(value), output := st.output + value)
  }

  function OnCode(st: Decoder, code: nat): Read {
    if code == CLEAR then Continue(FreshDecoder(st.output))
    else if code == END then Ended
    else
      match Meaning(st, code)
      case None => Invalid
      case Some(value) => Continue(Learn(st, value))
  }

  const MAX_CODES: nat := 1440 * 820 * 2

  /** Why the auditor refuses a frame. */
  datatype AuditError = StreamTruncated | BlockExceedsFile | TooManyBytes | MinimumDiffers | CodeInvalid | CanvasExceeded | TerminationDiffers

  /** Decoding the remaining bits; the end code must come last and complete the canvas. */
  function Decode(st: Decoder, bits: seq<bool>, codes: nat, expected: nat): Result<seq<nat>, AuditError>
    requires st.size > 0
    decreases |bits|
  {
    if codes >= MAX_CODES || |bits| < st.size then Err(TerminationDiffers) else
      match OnCode(st, Value(bits[..st.size]))
      case Invalid => Err(CodeInvalid)
      case Ended => if |st.output| == expected then Ok(st.output) else Err(TerminationDiffers)
      case Continue(next) =>
        if |next.output| > expected then Err(CanvasExceeded) else Decode(next, bits[st.size..], codes + 1, expected)
  }

  // ----------------------------------------------------------- simulation

  /** The string of every code in use so far. */
  type Words = map<nat, seq<nat>>

  predicate InUse(c: nat, next: nat) { c < CLEAR || FIRST_CODE <= c < next }

  ghost predicate WordsOf(words: Words, next: nat) {
    && (forall c: nat :: c in words <==> InUse(c, next))
    && (forall c: nat :: c in words ==> words[c] != [])
    && (forall c: nat :: c < CLEAR ==> c in words && words[c] == [c])
  }

  ghost predicate TableSpells(table: map<(nat, nat), nat>, words: Words) {
    forall k: (nat, nat) :: k in table ==> k.0 in words && table[k] in words && words[table[k]] == words[k.0] + [k.1]
  }

  /** The encoder's table spells the words, and its width fits every code in use. */
  ghost predicate EncoderSound(e: Encoder, words: Words) {
    && WordsOf(words, e.next) && TableSpells(e.table, words)
    && e.prefix in words
    && FIRST_CODE <= e.next <= TABLE_LIMIT && FIRST_SIZE <= e.size <= MAX_SIZE && e.next <= Pow2(e.size)
  }

  /** The decoder's table holds every word but one. */
  ghost predicate HoldsBut(table: map<nat, seq<nat>>, words: Words, hole: nat) {
    && (forall c: nat :: c in table <==> c in words && c != hole)
    && (forall c: nat :: c in table ==> table[c] == words[c])
  }

  /** The newest word: the last decoded string and the first symbol of the next one. */
  ghost predicate Pending(last: seq<nat>, words: Words, newest: nat, prefix: nat) {
    && newest in words && prefix in words && last != [] && words[prefix] != []
    && words[newest] == last + [words[prefix][0]]
  }

  /** The decoder knows every word but the newest, which it can still complete. */
  ghost predicate Lags(e: Encoder, d: Decoder, words: Words) {
    && d.size == e.size
    && (match d.previous
        case None => d.next == e.next == FIRST_CODE && d.size == FIRST_SIZE && HoldsBut(d.table, words, e.next)
        case Some(last) => FIRST_CODE <= d.next == e.next - 1 && HoldsBut(d.table, words, d.next) && Pending(last, words, d.next, e.prefix))
  }

  ghost predicate Lockstep(e: Encoder, d: Decoder, words: Words) {
    EncoderSound(e, words) && Lags(e, d, words)
  }

  lemma Start(symbol: nat, output: seq<nat>)
    requires symbol < CLEAR
    ensures Lockstep(FreshEncoder(symbol), FreshDecoder(output), Roots())
  {
    assert Pow2(5) == 32;
  }

  /** No code is ever too large for its width. */
  lemma CodeFits(e: Encoder, words: Words)
    requires EncoderSound(e, words)
    ensures e.prefix < Pow2(e.size) && CLEAR < Pow2(e.size) && END < Pow2(e.size)
    ensures e.prefix != CLEAR && e.prefix != END
  {
    assert InUse(e.prefix, e.next);
    assert Pow2(5) == 32;
    Pow2Grows(5, e.size);
  }

  /** Extending the prefix by a known pair only lengthens the pending string. */
  lemma PrefixGrows(e: Encoder, d: Decoder, words: Words, symbol: nat)
    requires Lockstep(e, d, words) && (e.prefix, symbol) in e.table
    ensures Lockstep(Encode(e, symbol).0, d, words)
    ensures words[Encode(e, symbol).0.prefix] == words[e.prefix] + [symbol]
  {
  }

  /** The state of a decoder that has read the encoder's pending code. */
  ghost predicate CaughtUp(e: Encoder, before: Decoder, d: Decoder, words: Words) {
    && e.prefix in words
    && d.output == before.output + words[e.prefix] && d.previous == Some(words[e.prefix])
    && d.next == e.next && HoldsBut(d.table, words, e.next)
    && d.size == DecoderWidth(e.next, e.size)
  }

  /** The pending code is understood, even when it names the newest word. */
  lemma PendingIsUnderstood(e: Encoder, d: Decoder, words: Words)
    requires Lockstep(e, d, words)
    ensures Meaning(d, e.prefix) == Some(words[e.prefix])
  {
    assert InUse(e.prefix, e.next);
    if d.previous.Some? && e.prefix == d.next {
      var last := d.previous.value;
      assert words[d.next][0] == last[0];
      assert Head(last) == [last[0]];
    }
  }

  /** Reading the pending code completes the newest word and leaves nothing behind. */
  lemma PendingIsRead(e: Encoder, d: Decoder, words: Words)
    requires Lockstep(e, d, words)
    ensures OnCode(d, e.prefix).Continue? && CaughtUp(e, d, OnCode(d, e.prefix).st, words)
  {
    CodeFits(e, words);
    PendingIsUnderstood(e, d, words);
    assert Pow2(5) == 32;
    var value := words[e.prefix];
    assert Head(value) == [value[0]];
  }

  function Extended(e: Encoder, words: Words, symbol: nat): Words
    requires e.prefix in words
  {
    words[e.next := words[e.prefix] + [symbol]]
  }

  /** A new entry spells one more word, and the width still fits. */
  lemma InsertIsSound(e: Encoder, words: Words, symbol: nat)
    requires EncoderSound(e, words) && symbol < CLEAR && e.next < TABLE_LIMIT
    ensures EncoderSound(Insert(e, symbol), Extended(e, words, symbol))
  {
    assert InUse(symbol, e.next);
    assert Pow2(12) == 4096;
    assert e.size < MAX_SIZE ==> Pow2(e.size + 1) == 2 * Pow2(e.size);
  }

  /** Both sides widen at the same moment, although each tests a different counter. */
  lemma InsertKeepsStep(e: Encoder, before: Decoder, d: Decoder, words: Words, symbol: nat)
    requires EncoderSound(e, words) && CaughtUp(e, before, d, words)
    requires symbol < CLEAR && e.next < TABLE_LIMIT
    ensures Lockstep(Insert(e, symbol), d, Extended(e, words, symbol))
    ensures Extended(e, words, symbol)[symbol] == [symbol]
  {
    InsertIsSound(e, words, symbol);
    assert InUse(symbol, e.next);
  }

  /** The decoder runs dry exactly when it widened for the end code and no bit was left over. */
  predicate Stranded(last: Encoder, padding: nat) {
    last.next == Pow2(last.size) && last.size < MAX_SIZE && padding == 0
  }

  /** One code at the front of a bit string is read as that code. */
  lemma ReadsCode(code: nat, width: nat, rest: seq<bool>)
    requires code < Pow2(width)
    ensures var bits := BitsOf(code, width) + rest;
            |bits| >= width && Value(bits[..width]) == code && bits[width..] == rest
  {
    ValueOfBits(code, width);
    var bits := BitsOf(code, width) + rest;
    assert bits[..width] == BitsOf(code, width);
  }

  lemma DecodeOne(d: Decoder, code: nat, rest: seq<bool>, codes: nat, expected: nat)
    requires d.size > 0 && code < Pow2(d.size) && codes < MAX_CODES
    requires OnCode(d, code).Continue? && |OnCode(d, code).st.output| <= expected
    ensures Decode(d, BitsOf(code, d.size) + rest, codes, expected) == Decode(OnCode(d, code).st, rest, codes + 1, expected)
  {
    ReadsCode(code, d.size, rest);
  }

  /** The end code, read by a decoder that may have widened once too often. */
  lemma ReadsEnd(e: Encoder, before: Decoder, d: Decoder, words: Words, padding: nat, codes: nat, expected: nat)
    requires EncoderSound(e, words) && CaughtUp(e, before, d, words)
    requires codes < MAX_CODES && |d.output| == expected
    ensures Decode(d, BitsOf(END, e.size) + Zeros(padding), codes, expected) ==
            if Stranded(e, padding) then Err(TerminationDiffers) else Ok(d.output)
  {
    CodeFits(e, words);
    var bits := BitsOf(END, e.size) + Zeros(padding);
    if d.size == e.size {
      ReadsCode(END, e.size, Zeros(padding));
    } else if padding > 0 {
      assert Zeros(padding) == [false] + Zeros(padding - 1);
      assert bits[..d.size] == BitsOf(END, e.size) + Zeros(1);
      ValueOfBits(END, e.size);
      ValuePadded(BitsOf(END, e.size), 1);
    }
  }

  lemma StreamOfOne(c: Coded, rest: seq<Coded>)
    ensures StreamBits([c] + rest) == BitsOf(c.code, c.width) + StreamBits(rest)
  {
    assert ([c] + rest)[1..] == rest;
  }

  lemma StreamOfTwo(a: Coded, b: Coded, more: seq<Coded>, padding: seq<bool>)
    ensures StreamBits([a, b] + more) + padding ==
            BitsOf(a.code, a.width) + (BitsOf(b.code, b.width) + (StreamBits(more) + padding))
  {
    StreamOfOne(b, more);
    StreamOfOne(a, [b] + more);
    assert [a, b] + more == [a] + ([b] + more);
    AppendAssociates(BitsOf(b.code, b.width), StreamBits(more), padding);
    AppendAssociates(BitsOf(a.code, a.width), BitsOf(b.code, b.width) + StreamBits(more), padding);
  }

  /**
   The decoder, fed the encoder's remaining output and some zero padding,
   completes the original string unless it is stranded before the end code.
   */
  lemma {:induction false} Simulates(e: Encoder, d: Decoder, words: Words, rest: seq<nat>, padding: nat, codes: nat, expected: nat)
    requires Lockstep(e, d, words) && Symbols(rest)
    requires codes + |Emitted(e, rest)| <= MAX_CODES
    requires |d.output| + |words[e.prefix]| + |rest| == expected
    ensures Decode(d, StreamBits(Emitted(e, rest)) + Zeros(padding), codes, expected) ==
            if Stranded(Finally(e, rest), padding) then Err(TerminationDiffers) else Ok(d.output + words[e.prefix] + rest)
    decreases |rest|
  {
    CodeFits(e, words);
    if rest == [] {
      SimulatesEnd(e, d, words, padding, codes, expected);
      assert d.output + words[e.prefix] + rest == d.output + words[e.prefix];
    } else if (e.prefix, rest[0]) in e.table {
      PrefixGrows(e, d, words, rest[0]);
      Simulates(Encode(e, rest[0]).0, d, words, rest[1..], padding, codes, expected);
      assert [] + Emitted(Encode(e, rest[0]).0, rest[1..]) == Emitted(Encode(e, rest[0]).0, rest[1..]);
      Shifted(d.output, words[e.prefix], rest);
    } else if e.next < TABLE_LIMIT {
      SimulatesInsert(e, d, words, rest, padding, codes, expected);
    } else {
      SimulatesClear(e, d, words, rest, padding, codes, expected);
    }
  }

  lemma Shifted(output: seq<nat>, word: seq<nat>, rest: seq<nat>)
    requires rest != []
    ensures output + (word + [rest[0]]) + rest[1..] == output + word + rest
    ensures output + word + [rest[0]] + rest[1..] == output + word + rest
  {
  }

  lemma SimulatesEnd(e: Encoder, d: Decoder, words: Words, padding: nat, codes: nat, expected: nat)
    requires Lockstep(e, d, words) && codes + 2 <= MAX_CODES
    requires |d.output| + |words[e.prefix]| == expected
    ensures Decode(d, StreamBits([Coded(e.prefix, e.size), Coded(END, e.size)]) + Zeros(padding), codes, expected) ==
            if Stranded(e, padding) then Err(TerminationDiffers) else Ok(d.output + words[e.prefix])
  {
    CodeFits(e, words);
    PendingIsRead(e, d, words);
    var caught := OnCode(d, e.prefix).st;
    ReadsEnd(e, d, caught, words, padding, codes + 1, expected);
    var tail := BitsOf(END, e.size) + Zeros(padding);
    StreamOfTwo(Coded(e.prefix, e.size), Coded(END, e.size), [], Zeros(padding));
    assert [Coded(e.prefix, e.size), Coded(END, e.size)] + [] == [Coded(e.prefix, e.size), Coded(END, e.size)];
    assert StreamBits([]) + Zeros(padding) == Zeros(padding);
    DecodeOne(d, e.prefix, tail, codes, expected);
  }

  lemma SimulatesInsert(e: Encoder, d: Decoder, words: Words, rest: seq<nat>, padding: nat, codes: nat, expected: nat)
    requires Lockstep(e, d, words) && Symbols(rest)
    requires rest != [] && (e.prefix, rest[0]) !in e.table && e.next < TABLE_LIMIT
    requires codes + |Emitted(e, rest)| <= MAX_CODES
    requires |d.output| + |words[e.prefix]| + |rest| == expected
    ensures Decode(d, StreamBits(Emitted(e, rest)) + Zeros(padding), codes, expected) ==
            if Stranded(Finally(e, rest), padding) then Err(TerminationDiffers) else Ok(d.output + words[e.prefix] + rest)
    decreases |rest|, 0
  {
    var symbol := rest[0];
    CodeFits(e, words);
    PendingIsRead(e, d, words);
    var caught := OnCode(d, e.prefix).st;
    InsertKeepsStep(e, d, caught, words, symbol);
    Simulates(Insert(e, symbol), caught, Extended(e, words, symbol), rest[1..], padding, codes + 1, expected);
    var more := Emitted(Insert(e, symbol), rest[1..]);
    StreamOfOne(Coded(e.prefix, e.size), more);
    AppendAssociates(BitsOf(e.prefix, e.size), StreamBits(more), Zeros(padding));
    DecodeOne(d, e.prefix, StreamBits(more) + Zeros(padding), codes, expected);
    Shifted(d.output, words[e.prefix], rest);
  }

  /** A full table is read out, and both sides start afresh. */
  lemma ClearIsRead(e: Encoder, d: Decoder, words: Words, tail: seq<bool>, codes: nat, expected: nat)
    requires Lockstep(e, d, words) && e.next == TABLE_LIMIT
    requires codes + 2 <= MAX_CODES && |d.output| + |words[e.prefix]| <= expected
    ensures Decode(d, BitsOf(e.prefix, e.size) + (BitsOf(CLEAR, e.size) + tail), codes, expected) ==
            Decode(FreshDecoder(d.output + words[e.prefix]), tail, codes + 2, expected)
  {
    CodeFits(e, words);
    PendingIsRead(e, d, words);
    FullMeansWidest(e, words);
    DecodeOne(d, e.prefix, BitsOf(CLEAR, e.size) + tail, codes, expected);
    DecodeOne(OnCode(d, e.prefix).st, CLEAR, tail, codes + 1, expected);
  }

  lemma SimulatesClear(e: Encoder, d: Decoder, words: Words, rest: seq<nat>, padding: nat, codes: nat, expected: nat)
    requires Lockstep(e, d, words) && Symbols(rest)
    requires rest != [] && (e.prefix, rest[0]) !in e.table && e.next == TABLE_LIMIT
    requires codes + |Emitted(e, rest)| <= MAX_CODES
    requires |d.output| + |words[e.prefix]| + |rest| == expected
    ensures Decode(d, StreamBits(Emitted(e, rest)) + Zeros(padding), codes, expected) ==
            if Stranded(Finally(e, rest), padding) then Err(TerminationDiffers) else Ok(d.output + words[e.prefix] + rest)
    decreases |rest|, 0
  {
    var symbol, output := rest[0], d.output + words[e.prefix];
    var restarted, more := FreshEncoder(symbol), Emitted(FreshEncoder(symbol), rest[1..]);
    Start(symbol, output);
    Simulates(restarted, FreshDecoder(output), Roots(), rest[1..], padding, codes + 2, expected);
    StreamOfTwo(Coded(e.prefix, e.size), Coded(CLEAR, e.size), more, Zeros(padding));
    ClearIsRead(e, d, words, StreamBits(more) + Zeros(padding), codes, expected);
    Shifted(d.output, words[e.prefix], rest);
  }

  /** A full table is written with the widest codes, which never widen again. */
  lemma FullMeansWidest(e: Encoder, words: Words)
    requires EncoderSound(e, words) && e.next == TABLE_LIMIT
    ensures e.size == MAX_SIZE && DecoderWidth(e.next, e.size) == MAX_SIZE
  {
    assert Pow2(11) == 2048;
    if e.size < MAX_SIZE {
      Pow2Grows(e.size, 11);
    }
  }
}

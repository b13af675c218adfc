/**
 Exactly which frames cannot be read back, told by the encoder's last state and
 its restarts, and two of them: 28680 equal pixels, and a full canvas of nine
 stripes.
 */
module GifBoundary {
  import opened Prelude
  import opened Bits
  import opened Lzw
  import opened GifCodec

  // ------------------------------------------------- length of a stream

  /** The width of a code while `next` is the next free one. */
  function WidthAt(next: nat): nat {
    if next <= 32 then 5 else if next <= 64 then 6 else if next <= 128 then 7 else if next <= 256 then 8
    else if next <= 512 then 9 else if next <= 1024 then 10 else if next <= 2048 then 11 else 12
  }

  /** The bits emitted while the dictionary grows from its start to `next`. */
  function Spent(next: nat): int {
    if next <= 33 then 5 * (next - 18)
    else if next <= 65 then 6 * (next - 33) + 75
    else if next <= 129 then 7 * (next - 65) + 267
    else if next <= 257 then 8 * (next - 129) + 715
    else if next <= 513 then 9 * (next - 257) + 1739
    else if next <= 1025 then 10 * (next - 513) + 4043
    else if next <= 2049 then 11 * (next - 1025) + 9163
    else 12 * (next - 2049) + 20427
  }

  lemma SpentStep(next: nat)
    requires FIRST_CODE <= next < TABLE_LIMIT
    ensures Spent(next + 1) == Spent(next) + WidthAt(next)
  {
  }

  /** The bits of one whole dictionary: its entries, the code that found it full, and the clear code. */
  const FULL: nat := 45015

  /** How often the dictionary is started afresh. */
  function Restarts(st: Encoder, rest: seq<nat>): nat
    decreases |rest|
  {
    if rest == [] then 0 else
      (if (st.prefix, rest[0]) !in st.table && st.next >= TABLE_LIMIT then 1 else 0) + Restarts(Encode(st, rest[0]).0, rest[1..])
  }

  predicate Measured(st: Encoder) {
    FIRST_CODE <= st.next <= TABLE_LIMIT && st.size == WidthAt(st.next)
  }

  lemma WidthGrows(next: nat)
    requires FIRST_CODE <= next < TABLE_LIMIT
    ensures EncoderWidth(next + 1, WidthAt(next)) == WidthAt(next + 1)
  {
    assert Pow2(5) == 32 && Pow2(6) == 64;
    assert Pow2(7) == 128 && Pow2(8) == 256;
    assert Pow2(9) == 512 && Pow2(10) == 1024;
    assert Pow2(11) == 2048;
  }

  /** What one symbol does to the measure of a state and to the bits emitted so far. */
  lemma StepLength(st: Encoder, symbol: nat)
    requires Measured(st)
    ensures var (next, out) := Encode(st, symbol);
            && Measured(next)
            && |StreamBits(out)| + Spent(st.next) == Spent(next.next) + FULL * Restarts(st, [symbol])
  {
    var (next, out) := Encode(st, symbol);
    assert [symbol][1..] == [];
    assert Restarts(next, []) == 0;
    if (st.prefix, symbol) !in st.table {
      if st.next < TABLE_LIMIT {
        WidthGrows(st.next);
        SpentStep(st.next);
        StreamOfOne(Coded(st.prefix, st.size), []);
        assert [Coded(st.prefix, st.size)] + [] == out;
      } else {
        StreamOfTwo(Coded(st.prefix, st.size), Coded(CLEAR, st.size), [], []);
        assert [Coded(st.prefix, st.size), Coded(CLEAR, st.size)] + [] == out;
      }
    }
  }

  lemma RestartsStep(st: Encoder, rest: seq<nat>)
    requires rest != []
    ensures Restarts(st, rest) == Restarts(st, [rest[0]]) + Restarts(Encode(st, rest[0]).0, rest[1..])
  {
    assert [rest[0]][1..] == [];
  }

  /** The length of a stream follows from where the dictionary ends and how often it was restarted. */
  lemma {:induction false} StreamLength(st: Encoder, rest: seq<nat>)
    requires Measured(st)
    ensures Measured(Finally(st, rest))
    ensures |StreamBits(Emitted(st, rest))| + Spent(st.next) ==
            Spent(Finally(st, rest).next) + FULL * Restarts(st, rest) + 2 * Finally(st, rest).size
    decreases |rest|
  {
    if rest == [] {
      StreamOfTwo(Coded(st.prefix, st.size), Coded(END, st.size), [], []);
      assert [Coded(st.prefix, st.size), Coded(END, st.size)] + [] == Emitted(st, rest);
    } else {
      var (next, out) := Encode(st, rest[0]);
      StepLength(st, rest[0]);
      RestartsStep(st, rest);
      StreamLength(next, rest[1..]);
      StreamBitsAppend(out, Emitted(next, rest[1..]));
    }
  }

  /** How often the dictionary was started afresh for a whole frame. */
  function RestartsOf(indices: seq<nat>): nat
    requires indices != []
  {
    Restarts(FreshEncoder(indices[0]), indices[1..])
  }

  /** The next free code is the `k`th power of two. */
  predicate EndsAtPower(indices: seq<nat>, k: nat)
    requires indices != []
  {
    5 <= k < MAX_SIZE && LastState(indices).next == Pow2(k)
  }

  /**
   A frame is unreadable exactly when the encoder stops with its next free code
   at a power of two whose exponent leaves, divided by eight, the same
   remainder as the number of restarts.
   */
  lemma UnreadableMeans(indices: seq<nat>)
    requires indices != []
    ensures Unreadable(indices) <==> exists k: nat :: EndsAtPower(indices, k) && k % 8 == RestartsOf(indices) % 8
  {
    var first, last := FreshEncoder(indices[0]), LastState(indices);
    StreamLength(first, indices[1..]);
    StreamOfOne(Coded(CLEAR, FIRST_SIZE), Emitted(first, indices[1..]));
    PowerMeans(last.next);
    PaddingMeans(last.next, last.size, RestartsOf(indices), |StreamBits(CodeStream(indices))|);
    if Unreadable(indices) {
      assert EndsAtPower(indices, last.size);
    }
  }

  /** A next free code is a power of two exactly when it fills its own width. */
  lemma PowerMeans(next: nat)
    requires FIRST_CODE <= next <= TABLE_LIMIT
    ensures forall k :: 5 <= k < MAX_SIZE && next == Pow2(k) ==> k == WidthAt(next)
  {
    forall k | 5 <= k < MAX_SIZE && next == Pow2(k) ensures k == WidthAt(next) {
      assert Pow2(5) == 32 && Pow2(6) == 64;
      assert Pow2(7) == 128 && Pow2(8) == 256;
      assert Pow2(9) == 512 && Pow2(10) == 1024;
      assert Pow2(11) == 2048;
    }
  }

  lemma PaddingMeans(next: nat, size: nat, restarts: nat, bits: nat)
    requires FIRST_CODE <= next <= TABLE_LIMIT && size == WidthAt(next)
    requires bits == 5 + Spent(next) + FULL * restarts + 2 * size
    ensures next == Pow2(size) && size < MAX_SIZE ==> (Missing(bits) == 0 <==> size % 8 == restarts % 8)
  {
    assert Pow2(5) == 32 && Pow2(6) == 64;
    assert Pow2(7) == 128 && Pow2(8) == 256;
    assert Pow2(9) == 512 && Pow2(10) == 1024;
    assert Pow2(11) == 2048;
  }

  // ------------------------------------------------------------- stripes

  /** `n` pixels of one colour. */
  function Stripe(symbol: nat, n: nat): (s: seq<nat>)
    ensures |s| == n && forall i :: 0 <= i < n ==> s[i] == symbol
  {
    seq(n, i => symbol)
  }

  lemma StripeJoins(symbol: nat, a: nat, b: nat)
    ensures Stripe(symbol, a + b) == Stripe(symbol, a) + Stripe(symbol, b)
  {
  }

  /** The code of `j` pixels of the stripe's colour, when its dictionary entries start at `base`. */
  function ChainCode(symbol: nat, base: nat, j: nat): nat { if j <= 1 then symbol else base + j - 2 }

  /** The next colour's entries do not exist yet, and no lower colour follows a higher one. */
  ghost predicate Ascending(table: map<(nat, nat), nat>, symbol: nat) {
    && (forall k: (nat, nat) :: k in table ==> k.1 <= symbol)
    && (forall k: (nat, nat) :: k in table && k.0 < CLEAR ==> k.0 <= k.1)
  }

  /** The dictionary knows the first `m` lengthenings of the stripe, and no more. */
  ghost predicate Knows(table: map<(nat, nat), nat>, symbol: nat, base: nat, m: nat) {
    && (forall j: nat :: 1 <= j <= m ==>
          (ChainCode(symbol, base, j), symbol) in table && table[(ChainCode(symbol, base, j), symbol)] == ChainCode(symbol, base, j + 1))
    && (ChainCode(symbol, base, m + 1), symbol) !in table
    && (forall k: (nat, nat) :: k in table && k.1 == symbol ==> k.0 < base + m)
  }

  ghost predicate InStripe(e: Encoder, symbol: nat, base: nat, m: nat) {
    && symbol < CLEAR && FIRST_CODE <= base && e.next == base + m <= TABLE_LIMIT
    && Ascending(e.table, symbol) && Knows(e.table, symbol, base, m)
  }

  lemma {:induction false} FinallyAppend(e: Encoder, a: seq<nat>, b: seq<nat>)
    ensures Finally(e, a + b) == Finally(Finally(e, a), b)
    ensures Restarts(e, a + b) == Restarts(e, a) + Restarts(Finally(e, a), b)
    decreases |a|
  {
    if a == [] {
      assert a + b == b;
    } else {
      assert (a + b)[1..] == a[1..] + b;
      FinallyAppend(Encode(e, a[0]).0, a[1..], b);
    }
  }

  lemma FinallyOne(e: Encoder, symbol: nat)
    ensures Finally(e, [symbol]) == Encode(e, symbol).0
    ensures Restarts(e, [symbol]) == if (e.prefix, symbol) !in e.table && e.next >= TABLE_LIMIT then 1 else 0
  {
    assert [symbol][1..] == [];
  }

  /** A known length is only read on. */
  lemma {:induction false} StripeAbsorbs(e: Encoder, symbol: nat, base: nat, m: nat, j: nat, n: nat)
    requires InStripe(e, symbol, base, m) && e.prefix == ChainCode(symbol, base, j) && 1 <= j && j + n <= m + 1
    ensures Finally(e, Stripe(symbol, n)) == e.(prefix := ChainCode(symbol, base, j + n)) && Restarts(e, Stripe(symbol, n)) == 0
    decreases n
  {
    if n > 0 {
      assert Stripe(symbol, n)[1..] == Stripe(symbol, n - 1);
      StripeAbsorbs(Encode(e, symbol).0, symbol, base, m, j + 1, n - 1);
    }
  }

  /** The first unknown length is entered, and the stripe is counted from one pixel again. */
  lemma StripeEnters(e: Encoder, symbol: nat, base: nat, m: nat)
    requires InStripe(e, symbol, base, m) && e.prefix == ChainCode(symbol, base, m + 1) && e.next < TABLE_LIMIT
    ensures InStripe(Finally(e, [symbol]), symbol, base, m + 1) && Finally(e, [symbol]).prefix == symbol
    ensures Restarts(e, [symbol]) == 0
  {
    FinallyOne(e, symbol);
  }

  /** The pixels of the first `m` entries of a stripe. */
  function Pixels(m: nat): nat { m * (m + 1) / 2 }

  lemma PixelsStep(m: nat)
    ensures Pixels(m + 1) == Pixels(m) + m + 1
  {
    assert (m + 1) * (m + 2) == m * (m + 1) + 2 * (m + 1);
  }

  lemma {:induction false} StripeGrows(e: Encoder, symbol: nat, base: nat, m: nat)
    requires InStripe(e, symbol, base, 0) && e.prefix == symbol && base + m <= TABLE_LIMIT
    ensures var after := Finally(e, Stripe(symbol, Pixels(m)));
            InStripe(after, symbol, base, m) && after.prefix == symbol
    ensures Restarts(e, Stripe(symbol, Pixels(m))) == 0
  {
    if m > 0 {
      StripeGrows(e, symbol, base, m - 1);
      var before := Finally(e, Stripe(symbol, Pixels(m - 1)));
      StripeAbsorbs(before, symbol, base, m - 1, 1, m - 1);
      var full := Finally(before, Stripe(symbol, m - 1));
      StripeEnters(full, symbol, base, m - 1);
      PixelsStep(m - 1);
      StripeJoins(symbol, Pixels(m - 1), m);
      StripeJoins(symbol, m - 1, 1);
      assert Stripe(symbol, 1) == [symbol];
      FinallyAppend(before, Stripe(symbol, m - 1), [symbol]);
      FinallyAppend(e, Stripe(symbol, Pixels(m - 1)), Stripe(symbol, m));
    } else {
      assert Stripe(symbol, Pixels(0)) == [];
    }
  }

  /** The next colour opens a stripe of its own. */
  lemma NextStripe(e: Encoder, symbol: nat, base: nat, m: nat)
    requires InStripe(e, symbol, base, m) && e.prefix == symbol && e.next < TABLE_LIMIT && symbol + 1 < CLEAR
    ensures InStripe(Finally(e, [symbol + 1]), symbol + 1, e.next + 1, 0) && Finally(e, [symbol + 1]).prefix == symbol + 1
    ensures Restarts(e, [symbol + 1]) == 0
  {
    FinallyOne(e, symbol + 1);
  }

  lemma FreshStripe(symbol: nat)
    requires symbol < CLEAR
    ensures InStripe(FreshEncoder(symbol), symbol, FIRST_CODE, 0)
  {
  }

  /** Back at the lowest colour a full dictionary is started afresh. */
  lemma FullRestarts(e: Encoder, symbol: nat, base: nat, m: nat)
    requires InStripe(e, symbol, base, m) && e.prefix == symbol > 0 && e.next == TABLE_LIMIT
    ensures Finally(e, [0]) == FreshEncoder(0) && Restarts(e, [0]) == 1
  {
    FinallyOne(e, 0);
  }

  // ------------------------------------------------------------ witnesses

  /** A frame of 28680 equal pixels is rejected by the auditor. */
  lemma BlankFrameIsUnreadable(indices: seq<nat>)
    requires |indices| == 28680 && forall i :: 0 <= i < |indices| ==> indices[i] == 0
    ensures Unreadable(indices)
    ensures DecodePayload(Payload(indices), MINIMUM, |indices|) == Err(TerminationDiffers)
  {
    var grown, more := Stripe(0, Pixels(238)), Stripe(0, 238);
    assert indices[1..] == grown + more;
    FreshStripe(0);
    EndsWithStripe(FreshEncoder(0), 238, 238);
    assert Pow2(8) == 256;
    assert EndsAtPower(indices, 8);
    UnreadableMeans(indices);
    CodesReadBack(indices);
  }

  /** A last stripe of the lowest colour, with `n` pixels beyond its last new entry. */
  lemma EndsWithStripe(e: Encoder, m: nat, n: nat)
    requires e == FreshEncoder(0) && n <= m && FIRST_CODE + m <= TABLE_LIMIT
    ensures var rest := Stripe(0, Pixels(m)) + Stripe(0, n);
            Finally(e, rest).next == FIRST_CODE + m && Restarts(e, rest) == 0
  {
    FreshStripe(0);
    StripeGrows(e, 0, FIRST_CODE, m);
    var grown := Finally(e, Stripe(0, Pixels(m)));
    StripeAbsorbs(grown, 0, FIRST_CODE, m, 1, n);
    FinallyAppend(e, Stripe(0, Pixels(m)), Stripe(0, n));
  }

  /** How many entries each stripe of the canvas makes. */
  function Lengthenings(stripe: nat): nat {
    if stripe == 5 then 508 else if stripe == 6 then 652 else if stripe == 7 then 366 else 509
  }

  /** The first `k` stripes, in ascending colours. */
  function Stripes(k: nat): (s: seq<nat>)
    ensures k > 0 ==> s != [] && s[0] == 0
  {
    if k == 0 then [] else
      assert k == 1 ==> Stripes(k - 1) == [];
      Stripes(k - 1) + Stripe(k - 1, 1 + Pixels(Lengthenings(k - 1)))
  }

  /** The first code that stripe `k` can be given. */
  function StripeBase(k: nat): nat {
    if k == 0 then FIRST_CODE else StripeBase(k - 1) + Lengthenings(k - 1) + 1
  }

  /** The encoder has just made the last entry of the `k`th stripe. */
  ghost predicate StripeDone(e: Encoder, k: nat)
    requires k > 0
  {
    InStripe(e, k - 1, StripeBase(k - 1), Lengthenings(k - 1)) && e.prefix == k - 1
  }

  /** A stripe of the next colour, from its first pixel to its last new entry. */
  lemma StripeFollows(e: Encoder, symbol: nat, base: nat, before: nat, entry: nat, m: nat, body: seq<nat>)
    requires InStripe(e, symbol, base, before) && e.prefix == symbol && symbol + 1 < CLEAR
    requires entry == base + before + 1 && entry + m <= TABLE_LIMIT
    requires body == [symbol + 1] + Stripe(symbol + 1, Pixels(m))
    ensures InStripe(Finally(e, body), symbol + 1, entry, m) && Finally(e, body).prefix == symbol + 1 && Restarts(e, body) == 0
  {
    NextStripe(e, symbol, base, before);
    StripeGrows(Finally(e, [symbol + 1]), symbol + 1, entry, m);
    FinallyAppend(e, [symbol + 1], Stripe(symbol + 1, Pixels(m)));
  }

  lemma StripesStep(e: Encoder, k: nat, body: seq<nat>)
    requires 2 <= k <= CLEAR && StripeBase(k) <= TABLE_LIMIT + 1 && StripeDone(e, k - 1)
    requires body == [k - 1] + Stripe(k - 1, Pixels(Lengthenings(k - 1)))
    ensures StripeDone(Finally(e, body), k) && Restarts(e, body) == 0
  {
    StripeFollows(e, k - 2, StripeBase(k - 2), Lengthenings(k - 2), StripeBase(k - 1), Lengthenings(k - 1), body);
  }

  lemma {:induction false} StripesEnd(k: nat)
    requires 1 <= k <= CLEAR && StripeBase(k) <= TABLE_LIMIT + 1
    ensures StripeDone(Finally(FreshEncoder(0), Stripes(k)[1..]), k) && Restarts(FreshEncoder(0), Stripes(k)[1..]) == 0
  {
    var first, n := FreshEncoder(0), Pixels(Lengthenings(k - 1));
    StripesBody(k);
    if k == 1 {
      FreshStripe(0);
      StripeGrows(first, 0, StripeBase(0), Lengthenings(0));
    } else {
      StripesEnd(k - 1);
      var before, body := Stripes(k - 1)[1..], [k - 1] + Stripe(k - 1, n);
      StripesStep(Finally(first, before), k, body);
      FinallyAppend(first, before, body);
    }
  }

  /** The stripes without their very first pixel. */
  lemma StripesBody(k: nat)
    requires k >= 1
    ensures var n := Pixels(Lengthenings(k - 1));
            Stripes(k)[1..] == if k == 1 then Stripe(0, n) else Stripes(k - 1)[1..] + ([k - 1] + Stripe(k - 1, n))
  {
    OnePixelMore(k - 1, Pixels(Lengthenings(k - 1)));
    if k == 1 {
      assert Stripes(0) == [];
    }
  }

  lemma OnePixelMore(symbol: nat, n: nat)
    ensures Stripe(symbol, 1 + n) == [symbol] + Stripe(symbol, n)
  {
  }

  /** Stripes that fill the dictionary exactly, and behind them a tail of the lowest colour. */
  lemma TailRestarts(k: nat, stripes: seq<nat>, m: nat, n: nat, tail: seq<nat>)
    requires 2 <= k <= CLEAR && stripes == Stripes(k) && StripeBase(k) == TABLE_LIMIT + 1
    requires n <= m && FIRST_CODE + m <= TABLE_LIMIT && tail == Stripe(0, Pixels(m)) + Stripe(0, n)
    ensures var frame := stripes + ([0] + tail);
            frame != [] && LastState(frame).next == FIRST_CODE + m && RestartsOf(frame) == 1
  {
    var first, frame := FreshEncoder(0), stripes + ([0] + tail);
    StripesEnd(k);
    var full := Finally(first, stripes[1..]);
    FullRestarts(full, k - 1, StripeBase(k - 1), Lengthenings(k - 1));
    EndsWithStripe(first, m, n);
    FinallyAppend(full, [0], tail);
    FinallyAppend(first, stripes[1..], [0] + tail);
    assert frame[1..] == stripes[1..] + ([0] + tail);
  }

  /** Stripes that fill the dictionary to its last entry, and a tail of the lowest colour. */
  function StripedCanvas(k: nat): (s: seq<nat>)
    ensures s != []
  {
    Stripes(k) + ([0] + (Stripe(0, Pixels(494)) + Stripe(0, 226)))
  }

  function StripePixels(k: nat): nat {
    if k == 0 then 0 else StripePixels(k - 1) + 1 + Pixels(Lengthenings(k - 1))
  }

  lemma {:induction false} StripesSize(k: nat)
    ensures |Stripes(k)| == StripePixels(k)
  {
    if k > 0 {
      StripesSize(k - 1);
    }
  }

  lemma EightStripes()
    ensures StripeBase(8) == TABLE_LIMIT + 1 && StripePixels(8) == 1058308
  {
    assert StripeBase(4) == FIRST_CODE + 2040 && StripePixels(4) == 4 * (1 + Pixels(509));
  }

  lemma {:induction false} StripesAreSymbols(k: nat)
    requires k <= CLEAR
    ensures Symbols(Stripes(k))
  {
    if k > 0 {
      StripesAreSymbols(k - 1);
    }
  }

  /** A whole canvas of eight stripes and a tail that the renderer encodes and the auditor rejects. */
  lemma StripedCanvasIsUnreadable()
    ensures var frame := StripedCanvas(8);
            && |frame| == CANVAS && Symbols(frame) && Unreadable(frame)
            && DecodePayload(Payload(frame), MINIMUM, CANVAS) == Err(TerminationDiffers)
  {
    StripedFrame(8, StripedCanvas(8));
  }

  lemma StripedFrame(k: nat, frame: seq<nat>)
    requires k == 8 && frame == StripedCanvas(k)
    ensures |frame| == CANVAS && Symbols(frame) && Unreadable(frame)
    ensures DecodePayload(Payload(frame), MINIMUM, CANVAS) == Err(TerminationDiffers)
  {
    EightStripes();
    StripesSize(k);
    StripesAreSymbols(k);
    TailRestarts(k, Stripes(k), 494, 226, Stripe(0, Pixels(494)) + Stripe(0, 226));
    RestartedAtNine(frame);
    CodesReadBack(frame);
  }

  lemma RestartedAtNine(frame: seq<nat>)
    requires frame != [] && LastState(frame).next == 512 && RestartsOf(frame) == 1
    ensures Unreadable(frame)
  {
    assert Pow2(9) == 512;
    assert EndsAtPower(frame, 9);
    UnreadableMeans(frame);
  }
}

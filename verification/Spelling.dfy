/**
 What an LZW code list spells, said without a decoder: the table and the code
 width are closed forms of the strings decoded since the last clear, and the
 decoder accepts exactly the bit strings that begin with a list that spells
 its result.
 */
module Spelling {
  import opened Prelude
  import opened Bits
  import opened Lzw

  // ---------------------------------------------------------- closed forms

  /** The first free code after `n` strings since the last clear: every string but the first makes one entry. */
  function NextAfter(n: nat): nat {
    if n == 0 then FIRST_CODE else Min(TABLE_LIMIT, FIRST_CODE + n - 1)
  }

  /** The width that goes with a first free code: the fewest bits, from five to twelve, that exceed it. */
  function WidthFor(next: nat): nat {
    if next < 32 then 5 else if next < 64 then 6 else if next < 128 then 7 else if next < 256 then 8
    else if next < 512 then 9 else if next < 1024 then 10 else if next < 2048 then 11 else 12
  }

  /** An entry is one string and the first symbol of the string after it. */
  function EntryOf(since: seq<seq<nat>>, c: nat): seq<nat>
    requires FIRST_CODE <= c < FIRST_CODE + |since| - 1
  {
    since[c - FIRST_CODE] + Head(since[c - FIRST_CODE + 1])
  }

  /** The string of a data code after the strings since the last clear, if it has one. */
  function StringOf(since: seq<seq<nat>>, c: nat): Option<seq<nat>> {
    if c < CLEAR then Some([c])
    else if FIRST_CODE <= c < NextAfter(|since|) then Some(EntryOf(since, c))
    else if since != [] && c == FIRST_CODE + |since| - 1 then Some(since[|since| - 1] + Head(since[|since| - 1]))
    else None
  }

  /**
   The bits begin with these codes, each of the width that is due, the last of
   them is the end code and no other is, and the strings of the data codes
   make up `out`.
   */
  predicate Spells(codes: seq<nat>, since: seq<seq<nat>>, bits: seq<bool>, out: seq<nat>)
    decreases |codes|
  {
    var width := WidthFor(NextAfter(|since|));
    && codes != [] && width <= |bits| && Value(bits[..width]) == codes[0]
    && (if codes[0] == END then |codes| == 1 && out == []
        else if codes[0] == CLEAR then Spells(codes[1..], [], bits[width..], out)
        else
          && StringOf(since, codes[0]).Some?
          && var word := StringOf(since, codes[0]).value;
          && word <= out && Spells(codes[1..], since + [word], bits[width..], out[|word|..]))
  }

  // ------------------------------------------------------------ simulation

  predicate Strings(since: seq<seq<nat>>) {
    forall i :: 0 <= i < |since| ==> since[i] != [] && Symbols(since[i])
  }

  /** The decoder's table holds exactly the roots and the entries. */
  ghost predicate TableHolds(table: map<nat, seq<nat>>, since: seq<seq<nat>>) {
    && (forall c: nat :: c in table <==> c < CLEAR || FIRST_CODE <= c < NextAfter(|since|))
    && (forall c: nat :: c in table ==> Some(table[c]) == StringOf(since, c))
  }

  /** A decoder state that has decoded these strings since its last clear. */
  ghost predicate Mirrors(st: Decoder, since: seq<seq<nat>>) {
    && Strings(since) && TableHolds(st.table, since)
    && st.next == NextAfter(|since|) && st.size == WidthFor(st.next)
    && st.previous == (if since == [] then None else Some(since[|since| - 1]))
  }

  lemma FreshMirrors(output: seq<nat>)
    ensures Mirrors(FreshDecoder(output), [])
  {
  }

  lemma WidthsDouble()
    ensures Pow2(5) == 32 && Pow2(6) == 64 && Pow2(7) == 128 && Pow2(8) == 256
    ensures Pow2(9) == 512 && Pow2(10) == 1024 && Pow2(11) == 2048 && Pow2(12) == 4096
  {
    assert Pow2(4) == 16;
    assert Pow2(8) == 256;
  }

  /** The decoder widens exactly when the closed form does. */
  lemma WidthFollows(next: nat)
    requires FIRST_CODE <= next < TABLE_LIMIT
    ensures DecoderWidth(next + 1, WidthFor(next)) == WidthFor(next + 1)
  {
    WidthsDouble();
  }

  /** No code of that width is as large as the table's limit. */
  lemma CodeIsSmall(bits: seq<bool>, next: nat)
    requires |bits| == WidthFor(next)
    ensures Value(bits) < TABLE_LIMIT
  {
    ValueBound(bits);
    Pow2Grows(|bits|, 12);
    WidthsDouble();
  }

  lemma SameMeaning(st: Decoder, since: seq<seq<nat>>, c: nat)
    requires Mirrors(st, since) && c < TABLE_LIMIT
    ensures Meaning(st, c) == StringOf(since, c)
  {
  }

  lemma StringIsString(since: seq<seq<nat>>, c: nat)
    requires Strings(since) && StringOf(since, c).Some?
    ensures StringOf(since, c).value != [] && Symbols(StringOf(since, c).value)
  {
  }

  /** Earlier strings keep their codes. */
  lemma EntriesStay(since: seq<seq<nat>>, word: seq<nat>, c: nat)
    requires c < CLEAR || FIRST_CODE <= c < NextAfter(|since|)
    ensures StringOf(since + [word], c) == StringOf(since, c)
  {
  }

  lemma NewEntry(since: seq<seq<nat>>, word: seq<nat>)
    requires since != [] && FIRST_CODE + |since| - 1 < TABLE_LIMIT
    ensures StringOf(since + [word], FIRST_CODE + |since| - 1) == Some(since[|since| - 1] + Head(word))
  {
  }

  lemma LearnMirrors(st: Decoder, since: seq<seq<nat>>, word: seq<nat>)
    requires Mirrors(st, since) && word != [] && Symbols(word)
    ensures Mirrors(Learn(st, word), since + [word])
  {
    var after, grown := Learn(st, word), since + [word];
    if since != [] && st.next < TABLE_LIMIT {
      WidthFollows(st.next);
      NewEntry(since, word);
    }
    forall c: nat | c in after.table ensures Some(after.table[c]) == StringOf(grown, c) {
      if c in st.table && c != st.next {
        EntriesStay(since, word, c);
      }
    }
  }

  // ------------------------------------------------------- what is accepted

  /** One step of both: the width that is due, and what the code read with it means. */
  lemma StepMirrors(st: Decoder, since: seq<seq<nat>>, bits: seq<bool>)
    requires Mirrors(st, since) && |bits| >= st.size
    ensures var c := Value(bits[..st.size]);
            match OnCode(st, c)
            case Ended => c == END
            case Invalid => c != END && c != CLEAR && StringOf(since, c).None?
            case Continue(next) =>
              && c != END
              && (if c == CLEAR then Mirrors(next, []) && next.output == st.output
                  else
                    && StringOf(since, c).Some?
                    && var word := StringOf(since, c).value;
                    Symbols(word) && Mirrors(next, since + [word]) && next.output == st.output + word)
  {
    var c := Value(bits[..st.size]);
    CodeIsSmall(bits[..st.size], st.next);
    SameMeaning(st, since, c);
    if c == CLEAR {
      FreshMirrors(st.output);
    } else if StringOf(since, c).Some? {
      StringIsString(since, c);
      LearnMirrors(st, since, StringOf(since, c).value);
    }
  }

  /** Whatever is accepted was spelled. */
  lemma {:induction false} AcceptedIsSpelled(st: Decoder, since: seq<seq<nat>>, bits: seq<bool>, read: nat, expected: nat, v: seq<nat>)
      returns (codes: seq<nat>, out: seq<nat>)
    requires Mirrors(st, since) && Decode(st, bits, read, expected) == Ok(v)
    ensures v == st.output + out && |v| == expected && Symbols(out)
    ensures read + |codes| <= MAX_CODES && Spells(codes, since, bits, out)
    decreases |bits|
  {
    var c, rest := Value(bits[..st.size]), bits[st.size..];
    StepMirrors(st, since, bits);
    match OnCode(st, c) {
      case Ended =>
        codes, out := [END], [];
        assert v == st.output + out;
      case Continue(next) =>
        if c == CLEAR {
          var later, more := AcceptedIsSpelled(next, [], rest, read + 1, expected, v);
          codes, out := [c] + later, more;
          ClearSpells(later, since, bits, out);
        } else {
          var word := StringOf(since, c).value;
          var later, more := AcceptedIsSpelled(next, since + [word], rest, read + 1, expected, v);
          codes, out := [c] + later, word + more;
          WordSpells(c, later, since, bits, word, more);
          WordJoins(word, more, st.output);
        }
    }
  }

  lemma ClearSpells(later: seq<nat>, since: seq<seq<nat>>, bits: seq<bool>, out: seq<nat>)
    requires var width := WidthFor(NextAfter(|since|));
             width <= |bits| && Value(bits[..width]) == CLEAR && Spells(later, [], bits[width..], out)
    ensures Spells([CLEAR] + later, since, bits, out)
  {
    assert ([CLEAR] + later)[1..] == later;
  }

  lemma WordSpells(c: nat, later: seq<nat>, since: seq<seq<nat>>, bits: seq<bool>, word: seq<nat>, more: seq<nat>)
    requires c != CLEAR && c != END && StringOf(since, c) == Some(word)
    requires var width := WidthFor(NextAfter(|since|));
             width <= |bits| && Value(bits[..width]) == c && Spells(later, since + [word], bits[width..], more)
    ensures Spells([c] + later, since, bits, word + more)
  {
    assert ([c] + later)[1..] == later;
    assert (word + more)[|word|..] == more;
  }

  lemma WordSplits(word: seq<nat>, out: seq<nat>, before: seq<nat>)
    requires word <= out
    ensures before + word + out[|word|..] == before + out && |before + word| + |out[|word|..]| == |before| + |out|
  {
    assert word + out[|word|..] == out;
    AppendAssociates(before, word, out[|word|..]);
  }

  lemma WordJoins(word: seq<nat>, more: seq<nat>, before: seq<nat>)
    requires Symbols(word) && Symbols(more)
    ensures Symbols(word + more) && before + word + more == before + (word + more)
  {
  }

  /** Whatever is spelled is accepted. */
  lemma {:induction false} SpelledIsAccepted(st: Decoder, since: seq<seq<nat>>, bits: seq<bool>, read: nat, expected: nat,
                                             codes: seq<nat>, out: seq<nat>)
    requires Mirrors(st, since) && Spells(codes, since, bits, out)
    requires read + |codes| <= MAX_CODES && |st.output| + |out| == expected
    ensures Decode(st, bits, read, expected) == Ok(st.output + out)
    decreases |codes|
  {
    var c, rest := codes[0], bits[st.size..];
    StepMirrors(st, since, bits);
    if c == END {
      assert st.output + out == st.output;
    } else if c == CLEAR {
      SpelledIsAccepted(OnCode(st, c).st, [], rest, read + 1, expected, codes[1..], out);
    } else {
      var word := StringOf(since, c).value;
      WordSplits(word, out, st.output);
      SpelledIsAccepted(OnCode(st, c).st, since + [word], rest, read + 1, expected, codes[1..], out[|word|..]);
    }
  }

  /** The decoder accepts exactly the bit strings that begin with a list of codes that spells its result. */
  lemma DecodesExactly(bits: seq<bool>, expected: nat, v: seq<nat>)
    ensures Decode(FreshDecoder([]), bits, 0, expected) == Ok(v) <==>
            |v| == expected && exists codes :: |codes| <= MAX_CODES && Spells(codes, [], bits, v)
    ensures Decode(FreshDecoder([]), bits, 0, expected) == Ok(v) ==> Symbols(v)
  {
    FreshMirrors([]);
    if Decode(FreshDecoder([]), bits, 0, expected) == Ok(v) {
      var codes, out := AcceptedIsSpelled(FreshDecoder([]), [], bits, 0, expected, v);
      assert [] + out == out;
    }
    if |v| == expected && exists codes :: |codes| <= MAX_CODES && Spells(codes, [], bits, v) {
      var codes :| |codes| <= MAX_CODES && Spells(codes, [], bits, v);
      SpelledIsAccepted(FreshDecoder([]), [], bits, 0, expected, codes, v);
      assert [] + v == v;
    }
  }
}

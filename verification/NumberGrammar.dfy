/**
 The number pre-scan on whole JSON texts (RFC 8259): on every text printed from
 a tree, with any whitespace, it finds exactly the tree's numbers.
 */
module NumberGrammar {
  import opened Prelude
  import opened NumberScan

  /** A JSON value; strings are given by the characters between their quotes. */
  datatype Json =
    | Literal(word: string)
    | Text(body: string)
    | Num(number: Number)
    | Array(items: seq<Json>)
    | Object(members: seq<Member>)

  datatype Member = Member(key: string, value: Json)

  datatype Token = Mark(mark: char) | Word(word: string) | Quoted(body: string) | Numeric(number: Number)

  /** String content: every quote and every backslash is escaped. */
  predicate Body(s: string) {
    if s == "" then true
    else if s[0] == '\\' then |s| >= 2 && Body(s[2..])
    else s[0] != '"' && Body(s[1..])
  }

  predicate Proper(j: Json) {
    match j
    case Literal(word) => word == "true" || word == "false" || word == "null"
    case Text(body) => Body(body)
    case Num(number) => WellFormed(number)
    case Array(items) => forall i :: 0 <= i < |items| ==> Proper(items[i])
    case Object(members) => forall i :: 0 <= i < |members| ==> Body(members[i].key) && Proper(members[i].value)
  }

  // ---------------------------------------------------------------- tokens

  function Tokens(j: Json): seq<Token>
    decreases j, 1
  {
    match j
    case Literal(word) => [Word(word)]
    case Text(body) => [Quoted(body)]
    case Num(number) => [Numeric(number)]
    case Array(items) => [Mark('[')] + Items(items) + [Mark(']')]
    case Object(members) => [Mark('{')] + Members(members) + [Mark('}')]
  }

  function Items(items: seq<Json>): seq<Token>
    decreases items, 0
  {
    if items == [] then []
    else if |items| == 1 then Tokens(items[0])
    else Tokens(items[0]) + [Mark(',')] + Items(items[1..])
  }

  function Members(members: seq<Member>): seq<Token>
    decreases members, 0
  {
    if members == [] then [] else
      var first := [Quoted(members[0].key), Mark(':')] + Tokens(members[0].value);
      if |members| == 1 then first else first + [Mark(',')] + Members(members[1..])
  }

  predicate NumbersFormed(tokens: seq<Token>) {
    forall i :: 0 <= i < |tokens| && tokens[i].Numeric? ==> WellFormed(tokens[i].number)
  }

  /** The first number of a token sequence that must be reported. */
  function FirstOffence(tokens: seq<Token>): Result<(), NumberError>
    requires NumbersFormed(tokens)
  {
    if tokens == [] then Ok(())
    else if tokens[0].Numeric? && Offence(tokens[0].number).Some? then Err(Offence(tokens[0].number).value)
    else FirstOffence(tokens[1..])
  }

  // ------------------------------------------------------------- placement

  function PrintToken(token: Token): string {
    match token
    case Mark(mark) => [mark]
    case Word(word) => word
    case Quoted(body) => "\"" + body + "\""
    case Numeric(number) => PrintNumber(number)
  }

  /** Outside strings, a character that is neither space nor the start of a string or number. */
  predicate Neutral(c: char) { c != '"' && !IsSpace(c) && !IsNumberStart(c) }

  predicate Sound(token: Token) {
    match token
    case Mark(mark) => Neutral(mark)
    case Word(word) => word != "" && forall i :: 0 <= i < |word| ==> Neutral(word[i])
    case Quoted(body) => Body(body)
    case Numeric(number) => WellFormed(number)
  }

  /** What may stand right after a value. */
  predicate AfterValue(tokens: seq<Token>) {
    tokens == [] || (tokens[0].Mark? && IsDelimiter(tokens[0].mark))
  }

  /** Every number stands in value position and is followed by what may follow a value. */
  predicate Placed(tokens: seq<Token>, previous: Option<char>) {
    tokens == [] ||
    (&& Sound(tokens[0])
     && (tokens[0].Numeric? ==> IsValuePosition(previous) && AfterValue(tokens[1..]))
     && Placed(tokens[1..], Some(LastOf(PrintToken(tokens[0])))))
  }

  function LastOf(s: string): char {
    if s == "" then ' ' else s[|s| - 1]
  }

  lemma PlacedCons(token: Token, rest: seq<Token>, previous: Option<char>)
    requires Sound(token) && (token.Numeric? ==> IsValuePosition(previous) && AfterValue(rest))
    requires Placed(rest, Some(LastOf(PrintToken(token))))
    ensures Placed([token] + rest, previous)
  {
    assert ([token] + rest)[1..] == rest;
  }

  /** What stands before a non-number does not matter. */
  lemma PlacedAnyhow(tokens: seq<Token>, previous: Option<char>, other: Option<char>)
    requires Placed(tokens, previous) && AfterValue(tokens)
    ensures Placed(tokens, other)
  {
  }

  /** A tree's tokens are placed wherever a value may stand. */
  lemma {:induction false} ValuePlaced(j: Json, after: seq<Token>, previous: Option<char>)
    requires Proper(j) && IsValuePosition(previous) && AfterValue(after) && Placed(after, None)
    ensures Placed(Tokens(j) + after, previous)
    decreases j, 1
  {
    match j {
      case Literal(word) =>
        PlacedAnyhow(after, None, Some(LastOf(word)));
        PlacedCons(Word(word), after, previous);
      case Text(body) =>
        PlacedAnyhow(after, None, Some(LastOf(PrintToken(Quoted(body)))));
        PlacedCons(Quoted(body), after, previous);
      case Num(number) =>
        PlacedAnyhow(after, None, Some(LastOf(PrintNumber(number))));
        PlacedCons(Numeric(number), after, previous);
      case Array(items) =>
        PlacedAnyhow(after, None, Some(']'));
        PlacedCons(Mark(']'), after, None);
        ItemsPlaced(items, [Mark(']')] + after, Some('['));
        PlacedCons(Mark('['), Items(items) + ([Mark(']')] + after), previous);
        Enclosed(Mark('['), Items(items), Mark(']'), after);
      case Object(members) =>
        PlacedAnyhow(after, None, Some('}'));
        PlacedCons(Mark('}'), after, None);
        MembersPlaced(members, [Mark('}')] + after, Some('{'));
        PlacedCons(Mark('{'), Members(members) + ([Mark('}')] + after), previous);
        Enclosed(Mark('{'), Members(members), Mark('}'), after);
    }
  }

  lemma Enclosed(open: Token, inner: seq<Token>, close: Token, after: seq<Token>)
    ensures [open] + inner + [close] + after == [open] + (inner + ([close] + after))
  {
  }

  /** A value, a comma, and whatever is placed behind a comma. */
  lemma {:induction false} Separated(first: seq<Token>, more: seq<Token>, value: Json, previous: Option<char>)
    requires first == Tokens(value) && Proper(value) && IsValuePosition(previous) && Placed(more, Some(','))
    ensures Placed(first + ([Mark(',')] + more), previous)
    decreases value, 2
  {
    PlacedCons(Mark(','), more, None);
    ValuePlaced(value, [Mark(',')] + more, previous);
  }

  /** A key, a colon, and a value placed behind it. */
  lemma KeyPlaced(key: string, tail: seq<Token>, previous: Option<char>)
    requires Body(key) && Placed(tail, Some(':'))
    ensures Placed([Quoted(key), Mark(':')] + tail, previous)
  {
    PlacedCons(Mark(':'), tail, Some('"'));
    PlacedCons(Quoted(key), [Mark(':')] + tail, previous);
    assert [Quoted(key), Mark(':')] + tail == [Quoted(key)] + ([Mark(':')] + tail);
  }

  lemma {:induction false} ItemsPlaced(items: seq<Json>, after: seq<Token>, previous: Option<char>)
    requires (forall i :: 0 <= i < |items| ==> Proper(items[i])) && IsValuePosition(previous)
    requires after != [] && AfterValue(after) && Placed(after, None)
    ensures Placed(Items(items) + after, previous)
    decreases items, 0
  {
    if items == [] {
      PlacedAnyhow(after, None, previous);
      assert Items(items) + after == after;
    } else if |items| == 1 {
      ValuePlaced(items[0], after, previous);
    } else {
      var first, rest := Tokens(items[0]), Items(items[1..]);
      var more := rest + after;
      ItemsPlaced(items[1..], after, Some(','));
      Separated(first, more, items[0], previous);
      AppendRegroups(first, [Mark(',')], rest, after);
    }
  }

  lemma {:induction false} MembersPlaced(members: seq<Member>, after: seq<Token>, previous: Option<char>)
    requires forall i :: 0 <= i < |members| ==> Body(members[i].key) && Proper(members[i].value)
    requires after != [] && AfterValue(after) && Placed(after, None)
    ensures Placed(Members(members) + after, previous)
    decreases members, 0
  {
    if members == [] {
      PlacedAnyhow(after, None, previous);
      assert Members(members) + after == after;
    } else {
      var key, value, start := members[0].key, members[0].value, [Quoted(members[0].key), Mark(':')];
      var first, rest := Tokens(value), Members(members[1..]);
      if |members| == 1 {
        ValuePlaced(value, after, Some(':'));
        KeyPlaced(key, first + after, previous);
        AppendAssociates(start, first, after);
      } else {
        MembersPlaced(members[1..], after, Some(','));
        Separated(first, rest + after, value, Some(':'));
        KeyPlaced(key, first + ([Mark(',')] + (rest + after)), previous);
        AppendRegroups(start + first, [Mark(',')], rest, after);
        AppendAssociates(start, first, [Mark(',')] + (rest + after));
      }
    }
  }

  // --------------------------------------------------------------- printing

  /** A token with the white space in front of it. */
  datatype Spaced = Spaced(space: string, token: Token)

  predicate AllSpace(s: string) {
    forall i :: 0 <= i < |s| ==> IsSpace(s[i])
  }

  function Print(tokens: seq<Spaced>, trailing: string): string {
    if tokens == [] then trailing
    else tokens[0].space + (PrintToken(tokens[0].token) + Print(tokens[1..], trailing))
  }

  function TokensOf(spaced: seq<Spaced>): seq<Token> {
    if spaced == [] then [] else [spaced[0].token] + TokensOf(spaced[1..])
  }

  /** White space is passed over. */
  lemma {:induction false} SpacePassed(space: string, rest: string, previous: Option<char>)
    requires AllSpace(space)
    ensures Classify(space + rest, false, false, previous) == Classify(rest, false, false, previous)
  {
    if space == "" {
      assert space + rest == rest;
    } else {
      assert (space + rest)[1..] == space[1..] + rest;
      SpacePassed(space[1..], rest, previous);
    }
  }

  /** Punctuation and literal names are passed over, the last character being remembered. */
  lemma {:induction false} NeutralPassed(word: string, rest: string, previous: Option<char>)
    requires word != "" && forall i :: 0 <= i < |word| ==> Neutral(word[i])
    ensures Classify(word + rest, false, false, previous) == Classify(rest, false, false, Some(LastOf(word)))
  {
    assert (word + rest)[1..] == word[1..] + rest;
    if |word| == 1 {
      assert word[1..] + rest == rest;
    } else {
      NeutralPassed(word[1..], rest, Some(word[0]));
    }
  }

  /** Whatever a string contains, its content is passed over up to its closing quote. */
  lemma {:induction false} BodyPassed(body: string, rest: string, previous: Option<char>)
    requires Body(body)
    ensures Classify(body + ("\"" + rest), true, false, previous) == Classify(rest, false, false, Some('"'))
    decreases |body|
  {
    var text := body + ("\"" + rest);
    if body == "" {
      assert text == "\"" + rest && text[1..] == rest;
    } else if body[0] == '\\' {
      assert text[1..][1..] == body[2..] + ("\"" + rest);
      BodyPassed(body[2..], rest, previous);
    } else {
      assert text[1..] == body[1..] + ("\"" + rest);
      BodyPassed(body[1..], rest, previous);
    }
  }

  lemma QuotedPassed(body: string, rest: string, previous: Option<char>)
    requires Body(body)
    ensures Classify(PrintToken(Quoted(body)) + rest, false, false, previous) == Classify(rest, false, false, Some('"'))
  {
    var text := PrintToken(Quoted(body)) + rest;
    assert text[0] == '"' && text[1..] == body + ("\"" + rest);
    BodyPassed(body, rest, previous);
  }

  /** A scanned token in value position decides what happens next. */
  lemma TokenDecides(text: string, token: NumberToken, previous: Option<char>)
    requires text != "" && IsNumberStart(text[0]) && IsValuePosition(previous) && Scan(text) == Some(token)
    ensures Classify(text, false, false, previous) ==
      if token.nonInteger then Err(NonIntegerNumber)
      else if ExceedsSafeRange(text[token.integerStart..token.integerEnd]) then Err(UnsafeInteger)
      else Classify(text[token.end..], false, false, Some(text[token.end - 1]))
  {
  }

  /** A number in value position is judged, and passed over when it is harmless. */
  lemma NumberJudged(n: Number, rest: string, previous: Option<char>)
    requires WellFormed(n) && IsValuePosition(previous) && Delimited(rest)
    ensures Classify(PrintNumber(n) + rest, false, false, previous) ==
      if Offence(n).Some? then Err(Offence(n).value)
      else Classify(rest, false, false, Some(LastOf(PrintNumber(n))))
  {
    var text := PrintNumber(n) + rest;
    NumberIsScanned(n, rest);
    NumberBegins(n, rest);
    TokenDecides(text, Scan(text).value, previous);
    ExceedsMeansUnsafe(n.digits);
  }

  lemma NumberBegins(n: Number, rest: string)
    requires WellFormed(n)
    ensures PrintNumber(n) != ""
    ensures var text := PrintNumber(n) + rest;
            IsNumberStart(text[0]) && text[|PrintNumber(n)| - 1] == LastOf(PrintNumber(n))
  {
    assert PrintNumber(n)[0] == if n.negative then '-' else n.digits[0];
  }

  /** What may follow a value delimits it, whatever white space comes between. */
  lemma PrintDelimits(spaced: seq<Spaced>, trailing: string)
    requires AllSpace(trailing) && (forall i :: 0 <= i < |spaced| ==> AllSpace(spaced[i].space))
    requires AfterValue(TokensOf(spaced))
    ensures Delimited(Print(spaced, trailing))
  {
  }

  lemma {:induction false} PlacedIsFormed(tokens: seq<Token>, previous: Option<char>)
    requires Placed(tokens, previous)
    ensures NumbersFormed(tokens)
  {
    if tokens != [] {
      PlacedIsFormed(tokens[1..], Some(LastOf(PrintToken(tokens[0]))));
      assert forall i :: 0 < i < |tokens| ==> tokens[i] == tokens[1..][i - 1];
    }
  }

  /** One placed token, with whatever is printed behind it. */
  lemma TokenClassified(token: Token, rest: string, previous: Option<char>)
    requires Sound(token) && (token.Numeric? ==> IsValuePosition(previous) && Delimited(rest))
    ensures Classify(PrintToken(token) + rest, false, false, previous) ==
      if token.Numeric? && Offence(token.number).Some? then Err(Offence(token.number).value)
      else Classify(rest, false, false, Some(LastOf(PrintToken(token))))
  {
    match token {
      case Mark(mark) => NeutralPassed([mark], rest, previous);
      case Word(word) => NeutralPassed(word, rest, previous);
      case Quoted(body) => QuotedPassed(body, rest, previous);
      case Numeric(number) => NumberJudged(number, rest, previous);
    }
  }

  lemma {:induction false} TokensClassified(spaced: seq<Spaced>, trailing: string, previous: Option<char>)
    requires Placed(TokensOf(spaced), previous) && NumbersFormed(TokensOf(spaced))
    requires AllSpace(trailing) && (forall i :: 0 <= i < |spaced| ==> AllSpace(spaced[i].space))
    ensures Classify(Print(spaced, trailing), false, false, previous) == FirstOffence(TokensOf(spaced))
  {
    if spaced == [] {
      SpacePassed(trailing, "", previous);
      assert trailing + "" == trailing;
    } else {
      var token, more := spaced[0].token, spaced[1..];
      var rest, tokens := Print(more, trailing), TokensOf(spaced);
      assert tokens[1..] == TokensOf(more);
      assert forall i :: 0 <= i < |more| ==> more[i] == spaced[i + 1];
      FormedTail(tokens);
      SpacePassed(spaced[0].space, PrintToken(token) + rest, previous);
      if token.Numeric? {
        PrintDelimits(more, trailing);
      }
      TokenClassified(token, rest, previous);
      TokensClassified(more, trailing, Some(LastOf(PrintToken(token))));
    }
  }

  lemma FormedTail(tokens: seq<Token>)
    requires tokens != [] && NumbersFormed(tokens)
    ensures NumbersFormed(tokens[1..])
  {
    assert forall i :: 0 <= i < |tokens| - 1 ==> tokens[1..][i] == tokens[i + 1];
  }

  /**
   The pre-scan agrees with the grammar: on every text that spells a tree, with
   any white space between its tokens, it reports the first number of the tree
   that is no safe integer, and accepts when there is none.
   */
  lemma ScanAgreesWithGrammar(j: Json, spaced: seq<Spaced>, trailing: string)
    requires Proper(j) && TokensOf(spaced) == Tokens(j)
    requires AllSpace(trailing) && (forall i :: 0 <= i < |spaced| ==> AllSpace(spaced[i].space))
    ensures NumbersFormed(Tokens(j))
    ensures Classify(Print(spaced, trailing), false, false, None) == FirstOffence(Tokens(j))
  {
    ValuePlaced(j, [], None);
    assert Tokens(j) + [] == Tokens(j);
    PlacedIsFormed(Tokens(j), None);
    TokensClassified(spaced, trailing, None);
  }

  /** A text is accepted exactly when every number of its tree is a safe integer. */
  lemma {:induction false} AcceptedMeansSafe(tokens: seq<Token>)
    requires NumbersFormed(tokens)
    ensures FirstOffence(tokens).Ok? <==>
      forall i :: 0 <= i < |tokens| && tokens[i].Numeric? ==>
        tokens[i].number.fraction.None? && tokens[i].number.exponent.None? && DecimalValue(tokens[i].number.digits) <= MAX_SAFE
  {
    if tokens != [] {
      FormedTail(tokens);
      AcceptedMeansSafe(tokens[1..]);
      assert forall i :: 0 < i < |tokens| ==> tokens[i] == tokens[1..][i - 1];
      assert forall i :: 0 <= i < |tokens| - 1 ==> tokens[1..][i] == tokens[i + 1];
    }
  }
}

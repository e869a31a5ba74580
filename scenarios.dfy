/** Concrete inputs, worked through the model: where the two tokenizers
    part ways, and where a scan does not do what the JSON grammar asks. */
module Scenarios {
  import opened Common
  import Strings
  import Lexer
  import LegacyLexer
  import ParseFuncs
  import Parser

  // ---------------------------------------------------------------------
  // String literals

  /** The literal `"\"\""`, whose text is two quotes. */
  const QuoteQuote: Text := [Ch('"'), Ch('\\'), Ch('"'), Ch('\\'), Ch('"'), Ch('"')]

  /** The literal `"\\users"`, whose text is a backslash and "users". */
  const BackslashUsers: Text := [Ch('"'), Ch('\\'), Ch('\\'), Ch('u'), Ch('s'), Ch('e'), Ch('r'), Ch('s'), Ch('"')]

  /** The literal `"\\u0041"`, whose text is a backslash and "u0041". */
  const BackslashHex: Text := [Ch('"'), Ch('\\'), Ch('\\'), Ch('u'), Ch('0'), Ch('0'), Ch('4'), Ch('1'), Ch('"')]

  /** The literal `"\n\t"`, whose text is a line feed and a tab. */
  const NewlineTab: Text := [Ch('"'), Ch('\\'), Ch('n'), Ch('\\'), Ch('t'), Ch('"')]

  /** The literal `"va\"l"`, whose text is `va"l`. */
  const VaQuoteL: Text := [Ch('"'), Ch('v'), Ch('a'), Ch('\\'), Ch('"'), Ch('l'), Ch('"')]

  /** `"va\"l"`: the quote after the opening backslash does not end the
      literal; the one after `l` does, and the escape loses its backslash. */
  lemma EscapedQuote()
    ensures Strings.StringToken(VaQuoteL, 0) == Ok((6, [Ch('v'), Ch('a'), Ch('"'), Ch('l')]))
  {
    var s := [Ch('v'), Ch('a'), Ch('"'), Ch('l')];
    assert Strings.Encode(s[3..]) == [Ch('l')];
    assert Strings.Encode(s[2..]) == [Ch('\\'), Ch('"'), Ch('l')];
    assert Strings.Encode(s[1..]) == [Ch('a'), Ch('\\'), Ch('"'), Ch('l')];
    assert Strings.Encode(s) == VaQuoteL[1..6];
    assert Strings.Plain(s);
    Strings.StringRoundTrip(VaQuoteL, 0, s);
  }

  /** `"\"\""`: the backslash after an escaped quote is taken as the second
      half of a pair, so the quote after it ends the literal early, at index
      4, with the text `"\` instead of `""`. */
  lemma QuoteThenEscape()
    ensures Strings.StringToken(QuoteQuote, 0) == Ok((4, [Ch('"'), Ch('\\')]))
  {
    QuoteThenEscapeScan();
    QuoteThenEscapeForward();
  }

  lemma QuoteThenEscapeForward()
    ensures Strings.Escapes(QuoteQuote, 4, [1])
    ensures Strings.Forward(QuoteQuote, 1, 4, [1], 0) == [Ch('"'), Ch('\\')]
  {
    var json := QuoteQuote;
    assert Strings.ValidEscapeAt(json, 1);
    assert Strings.EscChar(json, 1) == Ch('"') && Strings.EscLen(json, 1) == 2;
    assert Strings.Forward(json, 3, 4, [1], 1) == [Ch('\\')];
  }

  lemma QuoteThenEscapeScan()
    ensures Strings.ScanFrom(QuoteQuote, 1, Strings.NoneSeen, []) == Ok((4, [1]))
  {
    var json := QuoteQuote;
    assert Strings.ScanFrom(json, 4, Strings.Paired, [1]) == Ok((4, [1]));
    assert Strings.ScanFrom(json, 3, Strings.Unpaired, [1]) == Ok((4, [1]));
    assert Strings.ScanFrom(json, 2, Strings.Unpaired, [1]) == Ok((4, [1]));
    assert [] + [1] == [1];
  }

  /** `"\\users"`: the 'u' after an escaped backslash is checked as the
      start of a `\u` escape, and "sers" is not four hex digits. */
  lemma EscapedBackslashBeforeU()
    ensures Strings.StringToken(BackslashUsers, 0) == Err(InvalidUnicode)
  {
    var json := BackslashUsers;
    assert Strings.UnicodeCheck(json, 2, 2) == Err(InvalidUnicode);
    assert Strings.ScanFrom(json, 2, Strings.Unpaired, [1]) == Err(InvalidUnicode);
  }

  /** `"\\u0041"`: the 'u' after an escaped backslash is checked too, but
      four hex digits follow, so the text comes back as a backslash and
      "u0041" although it is not Plain. */
  lemma EscapedBackslashThenHex()
    ensures !Strings.Plain(BackslashHex[2..8])
    ensures Strings.StringToken(BackslashHex, 0) == Ok((8, BackslashHex[2..8]))
  {
    var json := BackslashHex;
    assert json[2..8][0] == Ch('\\') && json[2..8][1] == Ch('u');
    EscapedBackslashThenHexScan();
    EscapedBackslashThenHexForward();
  }

  lemma EscapedBackslashThenHexScan()
    ensures Strings.ScanFrom(BackslashHex, 1, Strings.NoneSeen, []) == Ok((8, [1]))
  {
    var json := BackslashHex;
    assert Strings.ScanFrom(json, 8, Strings.Paired, [1]) == Ok((8, [1]));
    assert Strings.ScanFrom(json, 7, Strings.Paired, [1]) == Ok((8, [1]));
    assert Strings.ScanFrom(json, 6, Strings.Paired, [1]) == Ok((8, [1]));
    assert Strings.ScanFrom(json, 5, Strings.Paired, [1]) == Ok((8, [1]));
    assert Strings.ScanFrom(json, 4, Strings.Paired, [1]) == Ok((8, [1]));
    assert Strings.ScanFrom(json, 3, Strings.Paired, [1]) == Ok((8, [1]));
    assert Strings.UnicodeCheck(json, 2, 2) == Ok(());
    assert Strings.ScanFrom(json, 2, Strings.Unpaired, [1]) == Ok((8, [1]));
    assert [] + [1] == [1];
    assert Strings.ScanFrom(json, 1, Strings.NoneSeen, []) == Ok((8, [1]));
  }

  lemma EscapedBackslashThenHexForward()
    ensures Strings.Forward(BackslashHex, 1, 8, [1], 0) == BackslashHex[2..8]
  {
    var json := BackslashHex;
    assert Strings.ValidEscapeAt(json, 1);
    assert Strings.EscChar(json, 1) == Ch('\\') && Strings.EscLen(json, 1) == 2;
    assert Strings.Forward(json, 3, 8, [1], 1) == json[3..8];
    assert Strings.Forward(json, 1, 8, [1], 0) == json[2..8];
  }

  /** The newer decoder reads `"\n\t"` as a line feed and a tab. */
  lemma TwoEscapes()
    ensures Strings.StringToken(NewlineTab, 0) == Ok((5, [0x0A, 0x09]))
  {
    var json := NewlineTab;
    TwoEscapesScan();
    TwoEscapesForward();
  }

  lemma TwoEscapesForward()
    ensures Strings.Escapes(NewlineTab, 5, [1, 3])
    ensures Strings.Forward(NewlineTab, 1, 5, [1, 3], 0) == [0x0A, 0x09]
  {
    var json := NewlineTab;
    assert Strings.ValidEscapeAt(json, 1) && Strings.ValidEscapeAt(json, 3);
    assert Strings.EscChar(json, 1) == 0x0A && Strings.EscLen(json, 1) == 2;
    assert Strings.EscChar(json, 3) == 0x09 && Strings.EscLen(json, 3) == 2;
    assert Strings.Forward(json, 5, 5, [1, 3], 2) == [];
    assert Strings.Forward(json, 3, 5, [1, 3], 1) == [0x09];
  }

  lemma TwoEscapesScan()
    ensures Strings.ScanFrom(NewlineTab, 1, Strings.NoneSeen, []) == Ok((5, [1, 3]))
  {
    var json := NewlineTab;
    assert Strings.ScanFrom(json, 5, Strings.Paired, [1, 3]) == Ok((5, [1, 3]));
    assert Strings.ScanFrom(json, 4, Strings.Unpaired, [1, 3]) == Ok((5, [1, 3]));
    assert [1] + [3] == [1, 3];
    assert Strings.ScanFrom(json, 3, Strings.Paired, [1]) == Ok((5, [1, 3]));
    assert Strings.ScanFrom(json, 2, Strings.Unpaired, [1]) == Ok((5, [1, 3]));
    assert [] + [1] == [1];
  }

  /** The older decoder's second edit of `"\n\t"` lands past the end of the
      already shortened token. */
  lemma OldTwoEscapes()
    ensures LegacyLexer.OldString(NewlineTab, 0) == Err(IndexError)
  {
    OldTwoEscapesScan();
    LegacyLexer.ScannedString(NewlineTab, 0, 5, [1, 3]);
    OldTwoEscapesDecode();
  }

  lemma OldTwoEscapesScan()
    ensures LegacyLexer.OldScan(NewlineTab, 1, true, []) == Ok((5, [1, 3]))
  {
    var json := NewlineTab;
    assert LegacyLexer.OldScan(json, 4, true, [1, 3]) == Ok((5, [1, 3]));
    assert [1] + [3] == [1, 3];
    assert LegacyLexer.OldScan(json, 2, false, [1]) == Ok((5, [1, 3]));
    assert [] + [1] == [1];
  }

  /** The first edit turns `\n\t` into a line feed, `\` and `t`; the second
      assigns at offset 3 of that three-character token. */
  lemma OldTwoEscapesDecode()
    ensures LegacyLexer.Recorded(NewlineTab, 0, [1, 3])
    ensures LegacyLexer.OldDecode(NewlineTab, 0, [1, 3], NewlineTab[1..5]) == Err(IndexError)
  {
    var json := NewlineTab;
    assert LegacyLexer.RecordedAt(json, 0, 1) && LegacyLexer.RecordedAt(json, 0, 3);
    var once := [0x0A, json[3], json[4]];
    assert json[1..5] == [json[1], json[2], json[3], json[4]];
    assert Strings.EscChar(json, 1) == 0x0A;
    var t := json[1..5][1 := 0x0A];
    assert t[..0] + t[1..] == once;
    assert LegacyLexer.OldEdit(json, 0, 1, json[1..5]) == Ok(once);
    assert IsControlLetter(json[4]) && |once| == 3;
    assert LegacyLexer.OldEdit(json, 0, 3, once) == Err(IndexError);
    assert [1, 3][1..] == [3];
  }

  // ---------------------------------------------------------------------
  // Numbers

  /** The array `[0]`. */
  const ZeroArray: Text := [Ch('['), Ch('0'), Ch(']')]

  /** The array `[1.5e3]`. */
  const UnsignedArray: Text := [Ch('['), Ch('1'), Ch('.'), Ch('5'), Ch('e'), Ch('3'), Ch(']')]

  /** The older scanner refuses a lone `0`. */
  lemma OldZero()
    ensures LegacyLexer.OldTokens(ZeroArray) == Err(LeadingZero)
  {
  }

  /** The newer one lets lex_num read it as the number 0. */
  lemma Zero()
    ensures Lexer.NumberToken(ZeroArray, 1) == Ok((2, Num([Ch('0')], NumValue([Ch('0')]))))
  {
    var json := ZeroArray;
    assert DigitRun(json, 1) == 2;
    assert ParseFuncs.NumEnd(json, 1) == Ok(2);
    assert json[1..2] == [Ch('0')];
    assert IntEnd([Ch('0')]) == 1;
  }

  /** lex_num stops right after an exponent marker that no sign follows,
      and `float()` refuses "1.5e". */
  lemma UnsignedExponent()
    ensures Lexer.NumberToken(UnsignedArray, 1) == Err(FloatError)
  {
    NumEndUnsigned();
    assert UnsignedArray[1..5] == [Ch('1'), Ch('.'), Ch('5'), Ch('e')];
    MarkerOnly();
  }

  lemma NumEndUnsigned()
    ensures ParseFuncs.NumEnd(UnsignedArray, 1) == Ok(5)
  {
    var json := UnsignedArray;
    assert DigitRun(json, 3) == 4;
    assert ParseFuncs.AfterPoint(json, 2) == Ok(5);
  }

  lemma MarkerOnly()
    ensures !FloatAccepts([Ch('1'), Ch('.'), Ch('5'), Ch('e')])
  {
    var t := [Ch('1'), Ch('.'), Ch('5'), Ch('e')];
    assert IntEnd(t) == 1;
    assert FracEnd(t) == 3;
  }

  /** The older scanner reads the exponent digits with no sign, and
      `float()` accepts "1.5e3". */
  lemma OldUnsignedExponent()
    ensures LegacyLexer.OldNumberToken(UnsignedArray, 1) == Ok((6, Num(UnsignedArray[1..6], NumValue(UnsignedArray[1..6]))))
  {
    OldNumEndUnsigned();
    assert UnsignedArray[1..6] == [Ch('1'), Ch('.'), Ch('5'), Ch('e'), Ch('3')];
    FullExponent();
  }

  lemma OldNumEndUnsigned()
    ensures LegacyLexer.OldNumEnd(UnsignedArray, 1) == Ok(6)
  {
    var json := UnsignedArray;
    assert DigitRun(json, 1) == 2;
    assert DigitRun(json, 3) == 4;
    assert DigitRun(json, 5) == 6;
    assert LegacyLexer.OldFraction(json, 2) == Ok(6);
  }

  lemma FullExponent()
    ensures FloatAccepts([Ch('1'), Ch('.'), Ch('5'), Ch('e'), Ch('3')])
  {
    var t := [Ch('1'), Ch('.'), Ch('5'), Ch('e'), Ch('3')];
    assert IntEnd(t) == 1;
    assert FracEnd(t) == 3;
    assert DigitRun(t, 4) == 5;
  }

  // ---------------------------------------------------------------------
  // Arrays

  /** `[x, y, ]`: parse_array refuses a ',' right before ']'. */
  lemma CommaBeforeClose(x: Token, y: Token)
    requires Parser.Scalar(x) && Parser.Scalar(y)
    ensures Parser.Parse([Punct(Ch('[')), x, Punct(Ch(',')), y, Punct(Ch(',')), Punct(Ch(']'))]) == Err(TrailingComma)
  {
    var tokens := [Punct(Ch('[')), x, Punct(Ch(',')), y, Punct(Ch(',')), Punct(Ch(']'))];
    assert Parser.ArrLoop(tokens, 4, [Parser.LeafValue(x), Parser.LeafValue(y)]) == Err(TrailingComma);
    Parser.CommaStep(tokens, 2, [Parser.LeafValue(x)]);
    Parser.ElementStep(tokens, 3, [Parser.LeafValue(x)]);
    Parser.ElementStep(tokens, 1, []);
    assert [] + [Parser.LeafValue(x)] == [Parser.LeafValue(x)];
    assert [Parser.LeafValue(x)] + [Parser.LeafValue(y)] == [Parser.LeafValue(x), Parser.LeafValue(y)];
    assert Parser.ArrLoop(tokens, 1, []) == Err(TrailingComma);
  }

  /** `[[x], y]`: the nested parse_array returns the index of its own ']',
      where the outer loop resumes and stops, so the outer array ends there
      with the one element `[x]`, and `y` is never read. */
  lemma ArrayInArray(x: Token, y: Token)
    requires Parser.Scalar(x)
    ensures Parser.Parse([Punct(Ch('[')), Punct(Ch('[')), x, Punct(Ch(']')), Punct(Ch(',')), y, Punct(Ch(']'))])
            == Ok((3, VArr([VArr([Parser.LeafValue(x)])])))
  {
    var tokens := [Punct(Ch('[')), Punct(Ch('[')), x, Punct(Ch(']')), Punct(Ch(',')), y, Punct(Ch(']'))];
    Parser.CloseStep(tokens, 3, [Parser.LeafValue(x)]);
    Parser.ElementStep(tokens, 2, []);
    assert [] + [Parser.LeafValue(x)] == [Parser.LeafValue(x)];
    assert Parser.ArrLoop(tokens, 2, []) == Ok((3, [Parser.LeafValue(x)]));
    Parser.CloseStep(tokens, 3, [VArr([Parser.LeafValue(x)])]);
    assert [] + [VArr([Parser.LeafValue(x)])] == [VArr([Parser.LeafValue(x)])];
    assert Parser.ArrLoop(tokens, 1, []) == Ok((3, [VArr([Parser.LeafValue(x)])]));
  }

  /** `[{k: {a: v}}]`: the nested parse_obj returns one past its own '}',
      which is the outer '}'; the outer loop's `i += 1` skips it, so the
      outer object reads the ']' as a pending key and runs to the end of the
      tokens, and the array is never closed. */
  lemma ObjectLastInObject(k: Token, a: Token, v: Token)
    requires Parser.GoodKey(k) && Parser.GoodKey(a) && Parser.Plain(v)
    ensures var tokens := [Punct(Ch('[')), Punct(Ch('{')), k, Punct(Ch(':')), Punct(Ch('{')), a, Punct(Ch(':')), v,
                           Punct(Ch('}')), Punct(Ch('}')), Punct(Ch(']'))];
            Parser.ObjLoop(tokens, 2, map[], Parser.NoKey).Ok?
            && Parser.ObjLoop(tokens, 2, map[], Parser.NoKey).value.0 == |tokens|
            && Parser.Parse(tokens) == Err(UnterminatedArray)
  {
    var tokens := [Punct(Ch('[')), Punct(Ch('{')), k, Punct(Ch(':')), Punct(Ch('{')), a, Punct(Ch(':')), v,
                   Punct(Ch('}')), Punct(Ch('}')), Punct(Ch(']'))];
    var outer := map[Parser.KeyOf(k) := VObj(map[Parser.KeyOf(a) := Parser.LeafValue(v)])];
    ObjectLastInObjectBody(tokens, k, a, v);
    assert Parser.ArrLoop(tokens, 11, [VObj(outer)]) == Err(UnterminatedArray);
    assert Parser.ArrLoop(tokens, 1, []) == Err(UnterminatedArray);
  }

  /** The outer object loop of `[{k: {a: v}}]`, from the token after its '{'. */
  lemma ObjectLastInObjectBody(tokens: seq<Token>, k: Token, a: Token, v: Token)
    requires |tokens| == 11 && Parser.GoodKey(k) && Parser.GoodKey(a) && Parser.Plain(v)
    requires tokens[2] == k && tokens[3] == Punct(Ch(':')) && tokens[4] == Punct(Ch('{'))
    requires tokens[5] == a && tokens[6] == Punct(Ch(':')) && tokens[7] == v
    requires tokens[8] == Punct(Ch('}')) && tokens[10] == Punct(Ch(']'))
    ensures Parser.ObjLoop(tokens, 2, map[], Parser.NoKey)
            == Ok((11, map[Parser.KeyOf(k) := VObj(map[Parser.KeyOf(a) := Parser.LeafValue(v)])]))
  {
    var inner := map[Parser.KeyOf(a) := Parser.LeafValue(v)];
    Parser.MemberThenBrace(tokens, 5, a, v);
    var outer := map[Parser.KeyOf(k) := VObj(inner)];
    assert Parser.ObjLoop(tokens, 10, outer, Parser.NoKey) == Ok((11, outer));
    Parser.ObjectValueStep(tokens, 4, map[], k);
    assert Parser.ObjLoop(tokens, 3, map[], k) == Ok((11, outer));
  }

  /** `[x y]`: an element followed by neither ',' nor ']'. */
  lemma MissingDelimiter(x: Token, y: Token)
    requires Parser.Scalar(x) && Parser.Scalar(y)
    ensures Parser.Parse([Punct(Ch('[')), x, y, Punct(Ch(']'))]) == Err(NoDelimiter)
  {
    var tokens := [Punct(Ch('[')), x, y, Punct(Ch(']'))];
    assert Parser.ArrLoop(tokens, 1, []) == Err(NoDelimiter);
  }

  /** `[x` and `[`: an array whose tokens run out fails, after an element
      on the element's look-ahead, before any on the loop's own end. */
  lemma ArrayRunsOut(x: Token)
    requires Parser.Scalar(x)
    ensures Parser.Parse([Punct(Ch('[')), x]) == Err(IndexError)
    ensures Parser.Parse([Punct(Ch('['))]) == Err(UnterminatedArray)
  {
    assert Parser.ArrLoop([Punct(Ch('[')), x], 1, []) == Err(IndexError);
    assert Parser.ArrLoop([Punct(Ch('['))], 1, []) == Err(UnterminatedArray);
  }

  // ---------------------------------------------------------------------
  // Objects

  /** `{k: v`: parse_obj returns, without error, where the tokens run out. */
  lemma ObjectRunsOut(k: Token, v: Token)
    requires Parser.GoodKey(k) && Parser.Plain(v)
    ensures Parser.Parse([Punct(Ch('{')), k, Punct(Ch(':')), v])
            == Ok((4, VObj(map[Parser.KeyOf(k) := Parser.LeafValue(v)])))
  {
    var tokens := [Punct(Ch('{')), k, Punct(Ch(':')), v];
    Parser.MemberStep(tokens, 1, map[], k, v);
    assert Parser.ObjLoop(tokens, 4, map[Parser.KeyOf(k) := Parser.LeafValue(v)], Parser.NoKey)
           == Ok((4, map[Parser.KeyOf(k) := Parser.LeafValue(v)]));
  }

  /** `{:` and `{k,`: a ':' needs a pending key and a ',' none. */
  lemma SeparatorsOutOfPlace(k: Token)
    requires Parser.GoodKey(k)
    ensures Parser.Parse([Punct(Ch('{')), Punct(Ch(':'))]) == Err(AssertionFailed)
    ensures Parser.Parse([Punct(Ch('{')), k, Punct(Ch(','))]) == Err(AssertionFailed)
  {
    assert Parser.ObjLoop([Punct(Ch('{')), Punct(Ch(':'))], 1, map[], Parser.NoKey) == Err(AssertionFailed);
    var tokens := [Punct(Ch('{')), k, Punct(Ch(','))];
    assert Parser.ObjLoop(tokens, 1, map[], Parser.NoKey) == Parser.ObjLoop(tokens, 2, map[], k);
    assert Parser.ObjLoop(tokens, 2, map[], k) == Err(AssertionFailed);
  }

  // ---------------------------------------------------------------------
  // The repository's own lexing test

  /** Text with neither a quote nor a backslash in it. */
  predicate Word(w: Text)
  {
    forall k :: 0 <= k < |w| ==> w[k] != Ch('"') && w[k] != Ch('\\')
  }

  /** The object `{"key":"value"}`. */
  function Member(key: Text, value: Text): Text
  {
    [Ch('{'), Ch('"')] + key + [Ch('"'), Ch(':'), Ch('"')] + value + [Ch('"'), Ch('}')]
  }

  /** The older `lex` turns `{"key":"value"}`, for a key and a value with
      no quote and no backslash in them, into the brace, the key, the colon,
      the value and the closing brace. */
  lemma MemberLexed(key: Text, value: Text)
    requires Word(key) && Word(value)
    ensures LegacyLexer.OldTokens(Member(key, value))
            == Ok([Punct(Ch('{')), Str(key), Punct(Ch(':')), Str(value), Punct(Ch('}'))])
  {
    MemberLayout(key, value);
    MemberTokens(Member(key, value), key, value);
  }

  lemma MemberTokens(json: Text, key: Text, value: Text)
    requires Word(key) && Word(value)
    requires var a := |key| + 2;
             var c := a + 3 + |value|;
             |json| == c + 2
             && json[0] == Ch('{') && json[1] == Ch('"') && json[a] == Ch('"') && json[2..a] == key
             && json[a + 1] == Ch(':')
             && json[a + 2] == Ch('"') && json[c] == Ch('"') && json[a + 3..c] == value
             && json[c + 1] == Ch('}')
    ensures LegacyLexer.OldTokens(json)
            == Ok([Punct(Ch('{')), Str(key), Punct(Ch(':')), Str(value), Punct(Ch('}'))])
  {
    var a := |key| + 2;
    var t1 := [Punct(Ch('{'))];
    var t2 := t1 + [Str(key)];
    var t5 := t2 + [Punct(Ch(':')), Str(value), Punct(Ch('}'))];
    MemberTail(json, a + 1, a + 2, a + 3 + |value|, value, t2);
    QuotedWord(json, 1, a + 1, key, t1);
    PunctLexed(json, 0, 1, []);
    assert [] + [Punct(Ch('{'))] == t1;
    assert LegacyLexer.OldLexFrom(json, 0, []) == Ok(t5);
    assert Lexer.Enclosed(json);
    assert t5 == [Punct(Ch('{')), Str(key), Punct(Ch(':')), Str(value), Punct(Ch('}'))];
  }

  /** The last three steps of the older `lex` over `{"key":"value"}`: the
      colon at `b - 1`, the value quoted at `b` and `c`, and the closing
      brace. */
  lemma MemberTail(json: Text, colon: nat, b: nat, c: nat, value: Text, acc: seq<Token>)
    requires b == colon + 1 && c == b + |value| + 1 && |json| == c + 2 && Word(value)
    requires json[colon] == Ch(':') && json[b] == Ch('"') && json[c] == Ch('"')
    requires json[b + 1..c] == value && json[c + 1] == Ch('}')
    ensures LegacyLexer.OldLexFrom(json, colon, acc) == Ok(acc + [Punct(Ch(':')), Str(value), Punct(Ch('}'))])
  {
    var t3 := acc + [Punct(Ch(':'))];
    var t4 := t3 + [Str(value)];
    var t5 := t4 + [Punct(Ch('}'))];
    assert LegacyLexer.OldLexFrom(json, c + 2, t5) == Ok(t5);
    PunctLexed(json, c + 1, c + 2, t4);
    QuotedWord(json, b, c + 1, value, t3);
    PunctLexed(json, colon, b, acc);
    assert t5 == acc + [Punct(Ch(':')), Str(value), Punct(Ch('}'))];
  }

  /** A structural character is one token of the older `lex`. */
  lemma PunctLexed(json: Text, i: nat, j: nat, acc: seq<Token>)
    requires i < |json| && j == i + 1 && IsStructural(json[i])
    ensures LegacyLexer.OldLexFrom(json, i, acc) == LegacyLexer.OldLexFrom(json, j, acc + [Punct(json[i])])
  {
    assert LegacyLexer.NextFrom(json, i) == Ok((i + 1, Punct(json[i])));
  }

  /** A quoted word is one string token of the older `lex`. */
  lemma QuotedWord(json: Text, i: nat, j: nat, w: Text, acc: seq<Token>)
    requires j == i + |w| + 2 && j <= |json| && Word(w)
    requires json[i] == Ch('"') && json[j - 1] == Ch('"') && json[i + 1..j - 1] == w
    ensures LegacyLexer.OldLexFrom(json, i, acc) == LegacyLexer.OldLexFrom(json, j, acc + [Str(w)])
  {
    QuotedNext(json, i, j, w);
  }

  /** `next` at the opening quote of a word reads the word and resumes after
      its closing quote. */
  lemma QuotedNext(json: Text, i: nat, j: nat, w: Text)
    requires j == i + |w| + 2 && j <= |json| && Word(w)
    requires json[i] == Ch('"') && json[j - 1] == Ch('"') && json[i + 1..j - 1] == w
    ensures LegacyLexer.NextFrom(json, i) == Ok((j, Str(w)))
  {
    var c := j - 1;
    forall k | i < k < c
      ensures json[k] != Ch('"') && json[k] != Ch('\\')
    {
      assert json[k] == json[i + 1..c][k - i - 1];
    }
    LegacyLexer.OldPlainString(json, i, c);
    assert !IsStructural(json[i]);
  }

  /** Where each token of `{"key":"value"}` starts. */
  lemma MemberLayout(key: Text, value: Text)
    ensures var json := Member(key, value);
            var a := |key| + 2;
            var c := a + 3 + |value|;
            |json| == c + 2
            && json[0] == Ch('{') && json[1] == Ch('"') && json[a] == Ch('"') && json[2..a] == key
            && json[a + 1] == Ch(':')
            && json[a + 2] == Ch('"') && json[c] == Ch('"') && json[a + 3..c] == value
            && json[c + 1] == Ch('}')
  {
    var json := Member(key, value);
    var a := |key| + 2;
    var c := a + 3 + |value|;
    var p := [Ch('{'), Ch('"')] + key;
    var q := p + [Ch('"'), Ch(':'), Ch('"')];
    var r := q + value;
    assert json == r + [Ch('"'), Ch('}')];
    assert p[2..] == key;
    assert r[a + 3..] == value;
    assert json[2..a] == p[2..];
    assert json[a + 3..c] == r[a + 3..];
  }

  const Status: Text := [Ch('s'), Ch('t'), Ch('a'), Ch('t'), Ch('u'), Ch('s')]

  const SpaceTraders: Text :=
    [Ch('S'), Ch('p'), Ch('a'), Ch('c'), Ch('e'), Ch('T'), Ch('r'), Ch('a'), Ch('d'), Ch('e'), Ch('r'), Ch('s')]

  /** The repository's lexing test: `{"status":"SpaceTraders"}` lexes to
      `{`, `status`, `:`, `SpaceTraders`, `}`. */
  lemma StatusLexed()
    ensures LegacyLexer.OldTokens(Member(Status, SpaceTraders))
            == Ok([Punct(Ch('{')), Str(Status), Punct(Ch(':')), Str(SpaceTraders), Punct(Ch('}'))])
  {
    assert Word(Status);
    assert Word(SpaceTraders);
    MemberLexed(Status, SpaceTraders);
  }
}

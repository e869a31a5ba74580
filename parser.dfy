/** The recursive-descent parser that both files share: `parse_array`,
    `parse_obj` and `parse` (json_parser/json_parser.py:115-187 and, the
    same text, json_parser.py:109-179). It walks the token list with an
    explicit index; `parse_array` returns the index of its ']', `parse_obj`
    one past its '}'. */
module Parser {
  import opened Common

  /** `tok == c` in Python. A structural token is the one-character string
      itself, so a string token holding just that character compares equal. */
  predicate Is(tok: Token, c: char)
  {
    tok == Punct(Ch(c)) || tok == Str([Ch(c)])
  }

  /** Which of the characters the parser compares tokens with a token
      equals (lemma KindIsEquality); a token equals at most one of them. */
  datatype Kind = OpenBrace | CloseBrace | OpenBracket | CloseBracket | Colon | Comma | Other

  function KindOf(tok: Token): Kind
  {
    match tok
    case Punct(c) => CharKind(c)
    case Str(text) => if |text| == 1 then CharKind(text[0]) else Other
    case _ => Other
  }

  function CharKind(c: CodePoint): Kind
  {
    if c == Ch('{') then OpenBrace
    else if c == Ch('}') then CloseBrace
    else if c == Ch('[') then OpenBracket
    else if c == Ch(']') then CloseBracket
    else if c == Ch(':') then Colon
    else if c == Ch(',') then Comma
    else Other
  }

  /** `tok in (None, True, False)`: None, a boolean, or a number equal to 1
      or 0 (Python compares `1.0 == True`). */
  predicate BoolLike(tok: Token)
  {
    tok.Null? || tok.Bool? || (tok.Num? && (tok.number == 0.0 || tok.number == 1.0))
  }

  /** `assert key`: Python truthiness of a pending key. */
  predicate Truthy(key: Token)
  {
    match key
    case Punct(_) => true
    case Str(text) => text != []
    case Num(_, value) => value != 0.0
    case Bool(b) => b
    case Null => false
  }

  /** The dict key a pending key stands for. */
  function KeyOf(key: Token): Key
  {
    match key
    case Punct(c) => TextKey([c])
    case Str(text) => TextKey(text)
    case Num(_, value) => NumKey(value)
    case Bool(b) => NumKey(if b then 1.0 else 0.0)
    case Null => NullKey
  }

  /** The Python object a token is as an element or member value. */
  function LeafValue(tok: Token): Value
  {
    match tok
    case Punct(c) => VStr([c])
    case Str(text) => VStr(text)
    case Num(lexeme, _) => VNum(lexeme)
    case Bool(b) => VBool(b)
    case Null => VNull
  }

  /** "No pending key": `key == ""`. */
  const NoKey: Token := Str([])

  /** The loop of `parse_array` from index `i`, with `values` collected so
      far: the index of the closing ']' and the elements. */
  function ArrLoop(tokens: seq<Token>, i: nat, values: seq<Value>): (r: Result<(nat, seq<Value>)>)
    ensures r.Ok? ==> i <= r.value.0 < |tokens| && KindOf(tokens[r.value.0]) == CloseBracket
    ensures r.Ok? ==> values <= r.value.1
    decreases |tokens| - i, 0
  {
    if i >= |tokens| then Err(UnterminatedArray)
    else
      var t := tokens[i];
      match KindOf(t)
      case CloseBracket => Ok((i, values))
      case OpenBrace =>
        (match ObjLoop(tokens, i + 1, map[], NoKey)
         case Err(e) => Err(e)
         case Ok((j, obj)) => ArrLoop(tokens, j, values + [VObj(obj)]))
      case OpenBracket =>
        (match ArrLoop(tokens, i + 1, [])
         case Err(e) => Err(e)
         case Ok((j, arr)) => ArrLoop(tokens, j, values + [VArr(arr)]))
      case Comma =>
        if i + 1 >= |tokens| then Err(IndexError)
        else if KindOf(tokens[i + 1]) == CloseBracket then Err(TrailingComma)
        else ArrLoop(tokens, i + 1, values)
      case _ =>
        if i + 1 >= |tokens| then Err(IndexError)
        else if KindOf(tokens[i + 1]) != Comma && KindOf(tokens[i + 1]) != CloseBracket then Err(NoDelimiter)
        else ArrLoop(tokens, i + 1, values + [LeafValue(t)])
  }

  /** The loop of `parse_obj` from index `i`, with the dict `obj` built so
      far and the pending `key`: the index after the closing '}' (or where
      the tokens ran out) and the dict. Members are only ever added or
      overwritten. */
  function ObjLoop(tokens: seq<Token>, i: nat, obj: map<Key, Value>, key: Token): (r: Result<(nat, map<Key, Value>)>)
    ensures r.Ok? ==> i <= r.value.0
    decreases |tokens| - i, 1
  {
    if i >= |tokens| then Ok((i, obj))
    else
      var t := tokens[i];
      match KindOf(t)
      case OpenBrace =>
        (match ObjLoop(tokens, i + 1, map[], NoKey)
         case Err(e) => Err(e)
         case Ok((j, child)) =>
           if !Truthy(key) then Err(AssertionFailed)
           else ObjLoop(tokens, j + 1, obj[KeyOf(key) := VObj(child)], NoKey))
      case CloseBrace => Ok((i + 1, obj))
      case OpenBracket =>
        (match ArrLoop(tokens, i + 1, [])
         case Err(e) => Err(e)
         case Ok((j, arr)) =>
           if !Truthy(key) then Err(AssertionFailed)
           else ObjLoop(tokens, j + 1, obj[KeyOf(key) := VArr(arr)], NoKey))
      case _ =>
        match Absorb(t, obj, key)
        case Err(e) => Err(e)
        case Ok((obj', key')) => ObjLoop(tokens, i + 1, obj', key')
  }

  /** ':' or ','. */
  predicate Separator(t: Token)
  {
    KindOf(t) == Colon || KindOf(t) == Comma
  }

  /** What a token other than '{', '}' and '[' does to the dict and the
      pending key in `parse_obj`: ':' needs a pending key and ',' none; None,
      True, False (and numbers equal to them) need a key and are assigned to
      it; any other token becomes the pending key, or is assigned to the one
      pending. */
  function Absorb(t: Token, obj: map<Key, Value>, key: Token): (r: Result<(map<Key, Value>, Token)>)
    ensures r.Ok? ==> obj.Keys <= r.value.0.Keys
    ensures r.Err? ==> r.error == AssertionFailed
    ensures r.Ok? && r.value.0 != obj ==> r.value.1 == NoKey && r.value.0 == obj[KeyOf(key) := LeafValue(t)]
    // `assert key` at ':' and `assert not key` at ','; both leave the state alone
    ensures KindOf(t) == Colon ==> (r.Err? <==> !Truthy(key)) && (r.Ok? ==> r.value == (obj, key))
    ensures KindOf(t) == Comma ==> (r.Err? <==> key != NoKey) && (r.Ok? ==> r.value == (obj, key))
    // None, True and False need a key
    ensures !Separator(t) && BoolLike(t) ==> (r.Err? <==> !Truthy(key))
    // any other token becomes the pending key, or the value of the pending one
    ensures !Separator(t) && !BoolLike(t) && key == NoKey ==> r == Ok((obj, t))
    ensures !Separator(t) && key != NoKey && (Truthy(key) || !BoolLike(t)) ==> r == Ok((obj[KeyOf(key) := LeafValue(t)], NoKey))
  {
    if KindOf(t) == Colon then
      if !Truthy(key) then Err(AssertionFailed) else Ok((obj, key))
    else if KindOf(t) == Comma then
      if key != NoKey then Err(AssertionFailed) else Ok((obj, key))
    else if BoolLike(t) then
      if !Truthy(key) then Err(AssertionFailed) else Ok((obj[KeyOf(key) := LeafValue(t)], NoKey))
    else if key == NoKey then Ok((obj, t))
    else Ok((obj[KeyOf(key) := LeafValue(t)], NoKey))
  }

  /** What `parse` returns for a token list: the final index and the value. */
  function Parse(tokens: seq<Token>): (r: Result<(nat, Value)>)
    ensures r.Ok? ==> |tokens| > 0 && (r.value.1.VObj? <==> KindOf(tokens[0]) == OpenBrace)
  {
    if |tokens| == 0 then Err(IndexError)
    else if KindOf(tokens[0]) == OpenBrace then
      match ObjLoop(tokens, 1, map[], NoKey)
      case Err(e) => Err(e)
      case Ok((j, obj)) => Ok((j, VObj(obj)))
    else if KindOf(tokens[0]) == OpenBracket then
      match ArrLoop(tokens, 1, [])
      case Err(e) => Err(e)
      case Ok((j, values)) => Ok((j, VArr(values)))
    else Err(InvalidRoot)
  }

  // ---------------------------------------------------------------------
  // The parser's loops

  /** `parse_array(i, tokens)`. */
  method ParseArray(tokens: seq<Token>, start: nat) returns (r: Result<(nat, seq<Value>)>)
    ensures r == ArrLoop(tokens, start, [])
    decreases |tokens| - start
  {
    var values: seq<Value> := [];
    var i := start;
    while i < |tokens|
      invariant start <= i
      invariant ArrLoop(tokens, i, values) == ArrLoop(tokens, start, [])
      decreases |tokens| - i
    {
      var kind := KindOf(tokens[i]);
      if kind == CloseBracket {
        return Ok((i, values));
      } else if kind == OpenBrace {
        var o := ParseObj(tokens, i + 1);
        if o.Err? {
          return Err(o.error);
        }
        i := o.value.0;
        values := values + [VObj(o.value.1)];
      } else if kind == OpenBracket {
        var a := ParseArray(tokens, i + 1);
        if a.Err? {
          return Err(a.error);
        }
        i := a.value.0;
        values := values + [VArr(a.value.1)];
      } else if kind != Comma {
        values := values + [LeafValue(tokens[i])];
        if i + 1 >= |tokens| {
          return Err(IndexError);
        }
        if KindOf(tokens[i + 1]) != Comma && KindOf(tokens[i + 1]) != CloseBracket {
          return Err(NoDelimiter);
        }
        i := i + 1;
      } else {
        if i + 1 >= |tokens| {
          return Err(IndexError);
        }
        if KindOf(tokens[i + 1]) == CloseBracket {
          return Err(TrailingComma);
        }
        i := i + 1;
      }
    }
    return Err(UnterminatedArray);
  }

  /** `parse_obj(tokens, i)`. */
  method ParseObj(tokens: seq<Token>, start: nat) returns (r: Result<(nat, map<Key, Value>)>)
    ensures r == ObjLoop(tokens, start, map[], NoKey)
    decreases |tokens| - start
  {
    var obj: map<Key, Value> := map[];
    var key := NoKey;
    var i := start;
    while i < |tokens|
      invariant start <= i
      invariant ObjLoop(tokens, i, obj, key) == ObjLoop(tokens, start, map[], NoKey)
      decreases |tokens| - i
    {
      var token := tokens[i];
      var kind := KindOf(token);
      if kind == OpenBrace {
        var child := ParseObj(tokens, i + 1);
        if child.Err? {
          return Err(child.error);
        }
        i := child.value.0;
        if !Truthy(key) {
          return Err(AssertionFailed);
        }
        obj := obj[KeyOf(key) := VObj(child.value.1)];
        key := NoKey;
      } else if kind == CloseBrace {
        return Ok((i + 1, obj));
      } else if kind == OpenBracket {
        var arr := ParseArray(tokens, i + 1);
        if arr.Err? {
          return Err(arr.error);
        }
        i := arr.value.0;
        if !Truthy(key) {
          return Err(AssertionFailed);
        }
        obj := obj[KeyOf(key) := VArr(arr.value.1)];
        key := NoKey;
      } else {
        var step := Absorb(token, obj, key);         // ':', ',' and the values
        if step.Err? {
          return Err(step.error);
        }
        obj, key := step.value.0, step.value.1;
      }
      i := i + 1;
    }
    return Ok((i, obj));
  }

  /** `parse(tokens)` of json_parser.py:173-179, and the dispatch on the
      first token of json_parser/json_parser.py:182-187. */
  method ParseTokens(tokens: seq<Token>) returns (r: Result<(nat, Value)>)
    ensures r == Parse(tokens)
  {
    if |tokens| == 0 {
      return Err(IndexError);
    }
    if KindOf(tokens[0]) == OpenBrace {
      var o := ParseObj(tokens, 1);
      if o.Err? {
        return Err(o.error);
      }
      return Ok((o.value.0, VObj(o.value.1)));
    } else if KindOf(tokens[0]) == OpenBracket {
      var a := ParseArray(tokens, 1);
      if a.Err? {
        return Err(a.error);
      }
      return Ok((a.value.0, VArr(a.value.1)));
    }
    return Err(InvalidRoot);
  }

  // ---------------------------------------------------------------------
  // Properties of the parser

  /** `parse_obj` only adds or overwrites members. */
  lemma {:induction false} ObjLoopKeys(tokens: seq<Token>, i: nat, obj: map<Key, Value>, key: Token)
    ensures ObjLoop(tokens, i, obj, key).Ok? ==> obj.Keys <= ObjLoop(tokens, i, obj, key).value.1.Keys
    decreases |tokens| - i, 2
  {
    if i < |tokens| {
      var t := tokens[i];
      match KindOf(t)
      case OpenBrace => NestedKeys(tokens, i, obj, key);
      case OpenBracket => NestedKeys(tokens, i, obj, key);
      case CloseBrace =>
      case _ =>
        match Absorb(t, obj, key) {
          case Err(_) =>
          case Ok((obj', key')) => ObjLoopKeys(tokens, i + 1, obj', key');
        }
    }
  }

  /** ObjLoopKeys for a nested object or array. */
  lemma {:induction false} NestedKeys(tokens: seq<Token>, i: nat, obj: map<Key, Value>, key: Token)
    requires i < |tokens| && (KindOf(tokens[i]) == OpenBrace || KindOf(tokens[i]) == OpenBracket)
    ensures ObjLoop(tokens, i, obj, key).Ok? ==> obj.Keys <= ObjLoop(tokens, i, obj, key).value.1.Keys
    decreases |tokens| - i, 1
  {
    if KindOf(tokens[i]) == OpenBrace {
      match ObjLoop(tokens, i + 1, map[], NoKey) {
        case Err(_) =>
        case Ok((j, child)) => ObjLoopKeys(tokens, j + 1, obj[KeyOf(key) := VObj(child)], NoKey);
      }
    } else {
      match ArrLoop(tokens, i + 1, []) {
        case Err(_) =>
        case Ok((j, arr)) => ObjLoopKeys(tokens, j + 1, obj[KeyOf(key) := VArr(arr)], NoKey);
      }
    }
  }

  /** The failures the array and object loops can raise. */
  predicate ParserError(e: Error)
  {
    e == IndexError || e == NoDelimiter || e == TrailingComma || e == UnterminatedArray || e == AssertionFailed
  }

  /** The dispatch on KindOf is Python's `==` between a token and the
      one-character strings the loops compare it with. */
  lemma KindIsEquality(tok: Token)
    ensures KindOf(tok) == OpenBrace <==> Is(tok, '{')
    ensures KindOf(tok) == CloseBrace <==> Is(tok, '}')
    ensures KindOf(tok) == OpenBracket <==> Is(tok, '[')
    ensures KindOf(tok) == CloseBracket <==> Is(tok, ']')
    ensures KindOf(tok) == Colon <==> Is(tok, ':')
    ensures KindOf(tok) == Comma <==> Is(tok, ',')
  {
    if tok.Str? && |tok.text| == 1 {
      assert tok.text == [tok.text[0]];
    }
  }

  /** The array loop raises only the parser's own failures. */
  lemma {:induction false} ArrLoopErrors(tokens: seq<Token>, i: nat, values: seq<Value>)
    ensures ArrLoop(tokens, i, values).Err? ==> ParserError(ArrLoop(tokens, i, values).error)
    decreases |tokens| - i, 0
  {
    if i < |tokens| {
      var t := tokens[i];
      match KindOf(t)
      case CloseBracket =>
      case OpenBrace =>
        ObjLoopErrors(tokens, i + 1, map[], NoKey);
        match ObjLoop(tokens, i + 1, map[], NoKey) {
          case Err(_) =>
          case Ok((j, obj)) => ArrLoopErrors(tokens, j, values + [VObj(obj)]);
        }
      case OpenBracket =>
        ArrLoopErrors(tokens, i + 1, []);
        match ArrLoop(tokens, i + 1, []) {
          case Err(_) =>
          case Ok((j, arr)) => ArrLoopErrors(tokens, j, values + [VArr(arr)]);
        }
      case Comma =>
        if i + 1 < |tokens| {
          ArrLoopErrors(tokens, i + 1, values);
        }
      case _ =>
        if i + 1 < |tokens| {
          ArrLoopErrors(tokens, i + 1, values + [LeafValue(t)]);
        }
    }
  }

  /** The object loop raises only the parser's own failures. */
  lemma {:induction false} ObjLoopErrors(tokens: seq<Token>, i: nat, obj: map<Key, Value>, key: Token)
    ensures ObjLoop(tokens, i, obj, key).Err? ==> ParserError(ObjLoop(tokens, i, obj, key).error)
    decreases |tokens| - i, 2
  {
    if i < |tokens| {
      var t := tokens[i];
      match KindOf(t)
      case OpenBrace => NestedObjectErrors(tokens, i, obj, key);
      case OpenBracket => NestedArrayErrors(tokens, i, obj, key);
      case CloseBrace =>
      case _ =>
        match Absorb(t, obj, key) {
          case Err(_) =>
          case Ok((obj', key')) => ObjLoopErrors(tokens, i + 1, obj', key');
        }
    }
  }

  /** The object loop's nested cases raise only the parser's own failures:
      a nested object ... */
  lemma {:induction false} NestedObjectErrors(tokens: seq<Token>, i: nat, obj: map<Key, Value>, key: Token)
    requires i < |tokens| && KindOf(tokens[i]) == OpenBrace
    ensures ObjLoop(tokens, i, obj, key).Err? ==> ParserError(ObjLoop(tokens, i, obj, key).error)
    decreases |tokens| - i, 1
  {
    ObjLoopErrors(tokens, i + 1, map[], NoKey);
    match ObjLoop(tokens, i + 1, map[], NoKey) {
      case Err(_) =>
      case Ok((j, child)) =>
        ObjLoopErrors(tokens, j + 1, obj[KeyOf(key) := VObj(child)], NoKey);
        if Truthy(key) {
          assert ObjLoop(tokens, i, obj, key) == ObjLoop(tokens, j + 1, obj[KeyOf(key) := VObj(child)], NoKey);
        }
    }
  }

  /** ... and a nested array. */
  lemma {:induction false} NestedArrayErrors(tokens: seq<Token>, i: nat, obj: map<Key, Value>, key: Token)
    requires i < |tokens| && KindOf(tokens[i]) == OpenBracket
    ensures ObjLoop(tokens, i, obj, key).Err? ==> ParserError(ObjLoop(tokens, i, obj, key).error)
    decreases |tokens| - i, 1
  {
    ArrLoopErrors(tokens, i + 1, []);
    match ArrLoop(tokens, i + 1, []) {
      case Err(_) =>
      case Ok((j, arr)) =>
        ObjLoopErrors(tokens, j + 1, obj[KeyOf(key) := VArr(arr)], NoKey);
        if Truthy(key) {
          assert ObjLoop(tokens, i, obj, key) == ObjLoop(tokens, j + 1, obj[KeyOf(key) := VArr(arr)], NoKey);
        }
    }
  }

  /** `j` is one past a '}', or at or past the end of the tokens. */
  predicate ClosedAt(tokens: seq<Token>, j: nat)
  {
    j >= |tokens| || (0 < j && KindOf(tokens[j - 1]) == CloseBrace)
  }

  /** `parse_obj` returns one past a '}', or an index at or past the end
      when the tokens ran out. */
  lemma {:induction false} ObjLoopEnd(tokens: seq<Token>, i: nat, obj: map<Key, Value>, key: Token)
    ensures ObjLoop(tokens, i, obj, key).Ok? ==> ClosedAt(tokens, ObjLoop(tokens, i, obj, key).value.0)
    decreases |tokens| - i, 2
  {
    if i < |tokens| {
      var t := tokens[i];
      match KindOf(t)
      case OpenBrace => NestedObjectEnd(tokens, i, obj, key);
      case OpenBracket => NestedArrayEnd(tokens, i, obj, key);
      case CloseBrace =>
      case _ =>
        match Absorb(t, obj, key) {
          case Err(_) =>
          case Ok((obj', key')) => ObjLoopEnd(tokens, i + 1, obj', key');
        }
    }
  }

  /** The object loop's nested cases end where ClosedAt says: after a
      nested object ... */
  lemma {:induction false} NestedObjectEnd(tokens: seq<Token>, i: nat, obj: map<Key, Value>, key: Token)
    requires i < |tokens| && KindOf(tokens[i]) == OpenBrace
    ensures ObjLoop(tokens, i, obj, key).Ok? ==> ClosedAt(tokens, ObjLoop(tokens, i, obj, key).value.0)
    decreases |tokens| - i, 1
  {
    match ObjLoop(tokens, i + 1, map[], NoKey) {
      case Err(_) =>
      case Ok((j, child)) => ObjLoopEnd(tokens, j + 1, obj[KeyOf(key) := VObj(child)], NoKey);
    }
  }

  /** ... and after a nested array. */
  lemma {:induction false} NestedArrayEnd(tokens: seq<Token>, i: nat, obj: map<Key, Value>, key: Token)
    requires i < |tokens| && KindOf(tokens[i]) == OpenBracket
    ensures ObjLoop(tokens, i, obj, key).Ok? ==> ClosedAt(tokens, ObjLoop(tokens, i, obj, key).value.0)
    decreases |tokens| - i, 1
  {
    match ArrLoop(tokens, i + 1, []) {
      case Err(_) =>
      case Ok((j, arr)) => ObjLoopEnd(tokens, j + 1, obj[KeyOf(key) := VArr(arr)], NoKey);
    }
  }

  // Flat arrays

  /** A token that is an array element by itself: not one the array loop
      dispatches on. */
  predicate Scalar(t: Token)
  {
    KindOf(t) == CloseBrace || KindOf(t) == Colon || KindOf(t) == Other
  }

  /** The tokens after '[' of an array of the elements `ts`: the elements
      separated by commas, then ']'. */
  function ArrayBody(ts: seq<Token>): (b: seq<Token>)
    ensures |b| == if ts == [] then 1 else 2 * |ts|
  {
    if ts == [] then [Punct(Ch(']'))]
    else if |ts| == 1 then [ts[0], Punct(Ch(']'))]
    else [ts[0], Punct(Ch(','))] + ArrayBody(ts[1..])
  }

  /** The values of the tokens `ts`, in order. */
  function Leaves(ts: seq<Token>): (vs: seq<Value>)
    ensures |vs| == |ts| && forall k :: 0 <= k < |ts| ==> vs[k] == LeafValue(ts[k])
  {
    if ts == [] then [] else [LeafValue(ts[0])] + Leaves(ts[1..])
  }

  /** The tokens from `i` on lay out the body of a flat array of the
      elements `ts`: each element followed by ',' or, after the last one,
      ']'; a lone ']' when there are none. */
  predicate ArrayAt(tokens: seq<Token>, i: nat, ts: seq<Token>)
    decreases |ts|
  {
    if ts == [] then i < |tokens| && tokens[i] == Punct(Ch(']'))
    else
      i + 1 < |tokens| && tokens[i] == ts[0]
      && if |ts| == 1 then tokens[i + 1] == Punct(Ch(']'))
         else tokens[i + 1] == Punct(Ch(',')) && ArrayAt(tokens, i + 2, ts[1..])
  }

  /** ArrayBody(ts) lays out the body of the flat array `ts`, wherever it
      stands in the token list. */
  lemma {:induction false} ArrayBodyAt(pre: seq<Token>, ts: seq<Token>, post: seq<Token>)
    ensures ArrayAt(pre + ArrayBody(ts) + post, |pre|, ts)
    decreases |ts|
  {
    var tokens := pre + ArrayBody(ts) + post;
    if ts == [] {
      assert tokens[|pre|] == Punct(Ch(']'));
    } else {
      assert tokens[|pre|] == ts[0] && tokens[|pre| + 1] == ArrayBody(ts)[1];
      if |ts| > 1 {
        var pre' := pre + [ts[0], Punct(Ch(','))];
        assert tokens == pre' + ArrayBody(ts[1..]) + post;
        ArrayBodyAt(pre', ts[1..], post);
      }
    }
  }

  /** The array loop reads the body of a flat array back: from the start of
      the body it returns the index of the ']' and the elements in source
      order. */
  lemma {:induction false} ArrayOfScalars(tokens: seq<Token>, i: nat, ts: seq<Token>, values: seq<Value>)
    requires forall k :: 0 <= k < |ts| ==> Scalar(ts[k])
    requires ArrayAt(tokens, i, ts)
    ensures ArrLoop(tokens, i, values) == Ok((i + |ArrayBody(ts)| - 1, values + Leaves(ts)))
    decreases |ts|, 1
  {
    if ts == [] {
      CloseStep(tokens, i, values);
      assert values + Leaves(ts) == values;
    } else if |ts| == 1 {
      ElementStep(tokens, i, values);
      CloseStep(tokens, i + 1, values + [LeafValue(ts[0])]);
      assert Leaves(ts) == [LeafValue(ts[0])];
    } else {
      ArrayOfMany(tokens, i, ts, values);
    }
  }

  /** ArrayOfScalars for two elements or more: the first element and its
      comma, then the rest of the body. */
  lemma {:induction false} ArrayOfMany(tokens: seq<Token>, i: nat, ts: seq<Token>, values: seq<Value>)
    requires |ts| > 1 && forall k :: 0 <= k < |ts| ==> Scalar(ts[k])
    requires ArrayAt(tokens, i, ts)
    ensures ArrLoop(tokens, i, values) == Ok((i + |ArrayBody(ts)| - 1, values + Leaves(ts)))
    decreases |ts|, 0
  {
    var values' := values + [LeafValue(ts[0])];
    ElementStep(tokens, i, values);
    CommaStep(tokens, i + 1, values');
    ArrayOfScalars(tokens, i + 2, ts[1..], values');
    LeavesCons(values, ts);
  }

  /** Leaves of a non-empty sequence, after `values`. */
  lemma LeavesCons(values: seq<Value>, ts: seq<Token>)
    requires ts != []
    ensures values + [LeafValue(ts[0])] + Leaves(ts[1..]) == values + Leaves(ts)
  {
  }

  /** A scalar element followed by ',' or ']'. */
  lemma ElementStep(tokens: seq<Token>, i: nat, values: seq<Value>)
    requires i + 1 < |tokens| && Scalar(tokens[i])
    requires tokens[i + 1] == Punct(Ch(',')) || tokens[i + 1] == Punct(Ch(']'))
    ensures ArrLoop(tokens, i, values) == ArrLoop(tokens, i + 1, values + [LeafValue(tokens[i])])
  {
  }

  /** A ',' followed by a scalar. */
  lemma CommaStep(tokens: seq<Token>, i: nat, values: seq<Value>)
    requires i + 1 < |tokens| && tokens[i] == Punct(Ch(',')) && Scalar(tokens[i + 1])
    ensures ArrLoop(tokens, i, values) == ArrLoop(tokens, i + 1, values)
  {
  }

  /** The closing ']'. */
  lemma CloseStep(tokens: seq<Token>, i: nat, values: seq<Value>)
    requires i < |tokens| && tokens[i] == Punct(Ch(']'))
    ensures ArrLoop(tokens, i, values) == Ok((i, values))
  {
  }

  /** `parse` of a list that starts with '[' is what the array loop makes of
      the rest. */
  lemma ArrayRoot(tokens: seq<Token>)
    requires |tokens| > 0 && tokens[0] == Punct(Ch('[')) && ArrLoop(tokens, 1, []).Ok?
    ensures Parse(tokens) == Ok((ArrLoop(tokens, 1, []).value.0, VArr(ArrLoop(tokens, 1, []).value.1)))
  {
  }

  /** The tokens from `i` on start with the elements `ts`, each followed by
      a ',': the front of an array body. */
  predicate ElementsAt(tokens: seq<Token>, i: nat, ts: seq<Token>)
    decreases |ts|
  {
    ts == []
    || (i + 1 < |tokens| && tokens[i] == ts[0] && KindOf(tokens[i + 1]) == Comma && ElementsAt(tokens, i + 2, ts[1..]))
  }

  /** The array loop passes over such a front, collecting its elements, as
      long as the token after the last ',' is not ']'. */
  lemma {:induction false} ElementsSkipped(tokens: seq<Token>, i: nat, ts: seq<Token>, values: seq<Value>)
    requires forall k :: 0 <= k < |ts| ==> Scalar(ts[k])
    requires ElementsAt(tokens, i, ts)
    requires i + 2 * |ts| < |tokens| && KindOf(tokens[i + 2 * |ts|]) != CloseBracket
    ensures ArrLoop(tokens, i, values) == ArrLoop(tokens, i + 2 * |ts|, values + Leaves(ts))
    decreases |ts|
  {
    if ts == [] {
      assert values + Leaves(ts) == values;
    } else {
      var values' := values + [LeafValue(ts[0])];
      var rest := ts[1..];
      assert forall k :: 0 <= k < |rest| ==> rest[k] == ts[k + 1];
      assert ArrLoop(tokens, i, values) == ArrLoop(tokens, i + 1, values');
      if rest != [] {
        assert tokens[i + 2] == ts[1];
      }
      assert ArrLoop(tokens, i + 1, values') == ArrLoop(tokens, i + 2, values');
      ElementsSkipped(tokens, i + 2, rest, values');
      LeavesCons(values, ts);
    }
  }

  /** Anywhere in an array, a scalar followed by neither ',' nor ']' raises
      (json_parser/json_parser.py:128-134). */
  lemma NoDelimiterAfter(tokens: seq<Token>, i: nat, ts: seq<Token>, values: seq<Value>)
    requires forall k :: 0 <= k < |ts| ==> Scalar(ts[k])
    requires ElementsAt(tokens, i, ts)
    requires var j := i + 2 * |ts|;
             j + 1 < |tokens| && Scalar(tokens[j])
             && KindOf(tokens[j + 1]) != Comma && KindOf(tokens[j + 1]) != CloseBracket
    ensures ArrLoop(tokens, i, values) == Err(NoDelimiter)
  {
    ElementsSkipped(tokens, i, ts, values);
  }

  /** Anywhere in an array, ',' directly before ']' raises
      (json_parser/json_parser.py:135-138). */
  lemma {:induction false} TrailingCommaAfter(tokens: seq<Token>, i: nat, ts: seq<Token>, values: seq<Value>)
    requires ts != [] && forall k :: 0 <= k < |ts| ==> Scalar(ts[k])
    requires ElementsAt(tokens, i, ts)
    requires i + 2 * |ts| < |tokens| && KindOf(tokens[i + 2 * |ts|]) == CloseBracket
    ensures ArrLoop(tokens, i, values) == Err(TrailingComma)
    decreases |ts|
  {
    var values' := values + [LeafValue(ts[0])];
    var rest := ts[1..];
    assert ArrLoop(tokens, i, values) == ArrLoop(tokens, i + 1, values');
    if rest == [] {
      assert KindOf(tokens[i + 2]) == CloseBracket;
    } else {
      assert forall k :: 0 <= k < |rest| ==> rest[k] == ts[k + 1];
      assert tokens[i + 2] == ts[1];
      assert ArrLoop(tokens, i + 1, values') == ArrLoop(tokens, i + 2, values');
      TrailingCommaAfter(tokens, i + 2, rest, values');
    }
  }

  /** `parse` of a flat array: every element, in order. */
  lemma FlatArray(ts: seq<Token>)
    requires forall k :: 0 <= k < |ts| ==> Scalar(ts[k])
    ensures Parse([Punct(Ch('['))] + ArrayBody(ts)) == Ok((|ArrayBody(ts)|, VArr(Leaves(ts))))
  {
    var tokens := [Punct(Ch('['))] + ArrayBody(ts);
    ArrayBodyAt([Punct(Ch('['))], ts, []);
    assert [Punct(Ch('['))] + ArrayBody(ts) + [] == tokens;
    ArrayOfScalars(tokens, 1, ts, []);
    assert [] + Leaves(ts) == Leaves(ts);
    ArrayRoot(tokens);
  }

  // Flat objects

  /** A token that is a member value by itself: not one the object loop
      dispatches on. */
  predicate Plain(t: Token)
  {
    KindOf(t) == CloseBracket || KindOf(t) == Other
  }

  /** A string token the object loop takes as a key. */
  predicate GoodKey(t: Token)
  {
    t.Str? && t.text != [] && Plain(t)
  }

  /** The tokens after '{' of an object with the members `ms`, in order:
      `key : value` separated by commas, then '}'. */
  function ObjectBody(ms: seq<(Token, Token)>): (b: seq<Token>)
    ensures |b| == if ms == [] then 1 else 4 * |ms|
  {
    if ms == [] then [Punct(Ch('}'))]
    else if |ms| == 1 then [ms[0].0, Punct(Ch(':')), ms[0].1, Punct(Ch('}'))]
    else [ms[0].0, Punct(Ch(':')), ms[0].1, Punct(Ch(','))] + ObjectBody(ms[1..])
  }

  /** `obj` after the assignments `obj[key] = value` of `ms`, in order. */
  function Assign(obj: map<Key, Value>, ms: seq<(Token, Token)>): map<Key, Value>
    decreases |ms|
  {
    if ms == [] then obj else Assign(obj[KeyOf(ms[0].0) := LeafValue(ms[0].1)], ms[1..])
  }

  /** One member `key : value` followed by `tail`, read from the pending-key
      state "none". */
  lemma MemberStep(tokens: seq<Token>, i: nat, obj: map<Key, Value>, k: Token, v: Token)
    requires i + 3 <= |tokens| && tokens[i] == k && tokens[i + 1] == Punct(Ch(':')) && tokens[i + 2] == v
    requires GoodKey(k) && Plain(v)
    ensures ObjLoop(tokens, i, obj, NoKey) == ObjLoop(tokens, i + 3, obj[KeyOf(k) := LeafValue(v)], NoKey)
  {
    assert ObjLoop(tokens, i, obj, NoKey) == ObjLoop(tokens, i + 1, obj, k);
    assert ObjLoop(tokens, i + 1, obj, k) == ObjLoop(tokens, i + 2, obj, k);
  }

  /** A ',' with no key pending. */
  lemma SeparatorStep(tokens: seq<Token>, i: nat, obj: map<Key, Value>)
    requires i < |tokens| && tokens[i] == Punct(Ch(','))
    ensures ObjLoop(tokens, i, obj, NoKey) == ObjLoop(tokens, i + 1, obj, NoKey)
  {
  }

  /** The tokens from `i` on lay out the body of a flat object with the
      members `ms`: `key : value` followed by ',' or, after the last one,
      '}'; a lone '}' when there are none. */
  predicate ObjectAt(tokens: seq<Token>, i: nat, ms: seq<(Token, Token)>)
    decreases |ms|
  {
    if ms == [] then i < |tokens| && tokens[i] == Punct(Ch('}'))
    else
      i + 3 < |tokens| && tokens[i] == ms[0].0 && tokens[i + 1] == Punct(Ch(':')) && tokens[i + 2] == ms[0].1
      && if |ms| == 1 then tokens[i + 3] == Punct(Ch('}'))
         else tokens[i + 3] == Punct(Ch(',')) && ObjectAt(tokens, i + 4, ms[1..])
  }

  /** ObjectBody(ms) lays out the body of the flat object `ms`, wherever it
      stands in the token list. */
  lemma {:induction false} ObjectBodyAt(pre: seq<Token>, ms: seq<(Token, Token)>, post: seq<Token>)
    ensures ObjectAt(pre + ObjectBody(ms) + post, |pre|, ms)
    decreases |ms|
  {
    var tokens := pre + ObjectBody(ms) + post;
    var i := |pre|;
    if ms == [] {
      assert tokens[i] == Punct(Ch('}'));
    } else {
      var body := ObjectBody(ms);
      assert tokens[i] == body[0] && tokens[i + 1] == body[1] && tokens[i + 2] == body[2] && tokens[i + 3] == body[3];
      if |ms| > 1 {
        var pre' := pre + [ms[0].0, Punct(Ch(':')), ms[0].1, Punct(Ch(','))];
        assert tokens == pre' + ObjectBody(ms[1..]) + post;
        ObjectBodyAt(pre', ms[1..], post);
      }
    }
  }

  /** The object loop reads the body of a flat object back: one past the
      '}', and the members assigned in order. */
  lemma {:induction false} ObjectOfScalars(tokens: seq<Token>, i: nat, ms: seq<(Token, Token)>, obj: map<Key, Value>)
    requires forall k :: 0 <= k < |ms| ==> GoodKey(ms[k].0) && Plain(ms[k].1)
    requires ObjectAt(tokens, i, ms)
    ensures ObjLoop(tokens, i, obj, NoKey) == Ok((i + |ObjectBody(ms)|, Assign(obj, ms)))
    decreases |ms|, 1
  {
    if ms == [] {
      BraceStep(tokens, i, obj, NoKey);
    } else {
      ObjectOfMany(tokens, i, ms, obj);
    }
  }

  /** ObjectOfScalars for one member or more: the first member, then the
      closing '}' or a ',' and the rest of the body. */
  lemma {:induction false} ObjectOfMany(tokens: seq<Token>, i: nat, ms: seq<(Token, Token)>, obj: map<Key, Value>)
    requires ms != [] && forall k :: 0 <= k < |ms| ==> GoodKey(ms[k].0) && Plain(ms[k].1)
    requires ObjectAt(tokens, i, ms)
    ensures ObjLoop(tokens, i, obj, NoKey) == Ok((i + |ObjectBody(ms)|, Assign(obj, ms)))
    decreases |ms|, 0
  {
    var obj' := obj[KeyOf(ms[0].0) := LeafValue(ms[0].1)];
    var rest := ms[1..];
    MemberStep(tokens, i, obj, ms[0].0, ms[0].1);
    assert Assign(obj, ms) == Assign(obj', rest);
    if |ms| == 1 {
      BraceStep(tokens, i + 3, obj', NoKey);
    } else {
      assert forall k :: 0 <= k < |rest| ==> rest[k] == ms[k + 1];
      assert |ObjectBody(ms)| == 4 + |ObjectBody(rest)|;
      SeparatorStep(tokens, i + 3, obj');
      ObjectOfScalars(tokens, i + 4, rest, obj');
    }
  }

  /** The closing '}'. */
  lemma BraceStep(tokens: seq<Token>, i: nat, obj: map<Key, Value>, key: Token)
    requires i < |tokens| && tokens[i] == Punct(Ch('}'))
    ensures ObjLoop(tokens, i, obj, key) == Ok((i + 1, obj))
  {
  }

  /** The tokens from `i` on start with the members `ms`, each `key :
      value` followed by a ',': the front of an object body. */
  predicate MembersAt(tokens: seq<Token>, i: nat, ms: seq<(Token, Token)>)
    decreases |ms|
  {
    ms == []
    || (i + 3 < |tokens| && tokens[i] == ms[0].0 && tokens[i + 1] == Punct(Ch(':')) && tokens[i + 2] == ms[0].1
        && tokens[i + 3] == Punct(Ch(',')) && MembersAt(tokens, i + 4, ms[1..]))
  }

  /** The object loop passes over such a front, assigning its members, and
      arrives with no key pending. */
  lemma {:induction false} MembersSkipped(tokens: seq<Token>, i: nat, ms: seq<(Token, Token)>, obj: map<Key, Value>)
    requires forall k :: 0 <= k < |ms| ==> GoodKey(ms[k].0) && Plain(ms[k].1)
    requires MembersAt(tokens, i, ms)
    ensures ObjLoop(tokens, i, obj, NoKey) == ObjLoop(tokens, i + 4 * |ms|, Assign(obj, ms), NoKey)
    decreases |ms|
  {
    if ms != [] {
      var obj' := obj[KeyOf(ms[0].0) := LeafValue(ms[0].1)];
      var rest := ms[1..];
      assert forall k :: 0 <= k < |rest| ==> GoodKey(rest[k].0) && Plain(rest[k].1) by {
        assert forall k :: 0 <= k < |rest| ==> rest[k] == ms[k + 1];
      }
      assert MembersAt(tokens, i + 4, rest);
      MemberThenComma(tokens, i, obj, ms[0].0, ms[0].1);
      MembersSkipped(tokens, i + 4, rest, obj');
      assert Assign(obj, ms) == Assign(obj', rest);
      assert i + 4 + 4 * |rest| == i + 4 * |ms|;
    }
  }

  /** One member `key : value` and its ','. */
  lemma MemberThenComma(tokens: seq<Token>, i: nat, obj: map<Key, Value>, k: Token, v: Token)
    requires i + 3 < |tokens| && tokens[i] == k && tokens[i + 1] == Punct(Ch(':')) && tokens[i + 2] == v
    requires tokens[i + 3] == Punct(Ch(',')) && GoodKey(k) && Plain(v)
    ensures ObjLoop(tokens, i, obj, NoKey) == ObjLoop(tokens, i + 4, obj[KeyOf(k) := LeafValue(v)], NoKey)
  {
    MemberStep(tokens, i, obj, k, v);
    SeparatorStep(tokens, i + 3, obj[KeyOf(k) := LeafValue(v)]);
  }

  /** Anywhere in an object, ':' with no key pending fails `assert key`
      (json_parser/json_parser.py:162-163). */
  lemma ColonWithoutKey(tokens: seq<Token>, i: nat, ms: seq<(Token, Token)>, obj: map<Key, Value>)
    requires forall k :: 0 <= k < |ms| ==> GoodKey(ms[k].0) && Plain(ms[k].1)
    requires MembersAt(tokens, i, ms)
    requires i + 4 * |ms| < |tokens| && KindOf(tokens[i + 4 * |ms|]) == Colon
    ensures ObjLoop(tokens, i, obj, NoKey) == Err(AssertionFailed)
  {
    MembersSkipped(tokens, i, ms, obj);
  }

  /** Anywhere in an object, ',' right after a key fails `assert not key`
      (json_parser/json_parser.py:164-165). */
  lemma CommaAfterKey(tokens: seq<Token>, i: nat, ms: seq<(Token, Token)>, obj: map<Key, Value>)
    requires forall k :: 0 <= k < |ms| ==> GoodKey(ms[k].0) && Plain(ms[k].1)
    requires MembersAt(tokens, i, ms)
    requires var j := i + 4 * |ms|; j + 1 < |tokens| && GoodKey(tokens[j]) && KindOf(tokens[j + 1]) == Comma
    ensures ObjLoop(tokens, i, obj, NoKey) == Err(AssertionFailed)
  {
    var j := i + 4 * |ms|;
    MembersSkipped(tokens, i, ms, obj);
    assert ObjLoop(tokens, j, Assign(obj, ms), NoKey) == ObjLoop(tokens, j + 1, Assign(obj, ms), tokens[j]);
  }

  /** Anywhere in an object, None, True or False where a key belongs fails
      `assert key` (json_parser/json_parser.py:166-169). */
  lemma LiteralWithoutKey(tokens: seq<Token>, i: nat, ms: seq<(Token, Token)>, obj: map<Key, Value>)
    requires forall k :: 0 <= k < |ms| ==> GoodKey(ms[k].0) && Plain(ms[k].1)
    requires MembersAt(tokens, i, ms)
    requires i + 4 * |ms| < |tokens| && BoolLike(tokens[i + 4 * |ms|])
    ensures ObjLoop(tokens, i, obj, NoKey) == Err(AssertionFailed)
  {
    MembersSkipped(tokens, i, ms, obj);
  }

  // Nesting the index conventions get right

  /** A flat object as an array element: the array loop resumes right
      after its '}' with the object appended. */
  lemma ObjectInArray(tokens: seq<Token>, i: nat, ms: seq<(Token, Token)>, values: seq<Value>)
    requires forall k :: 0 <= k < |ms| ==> GoodKey(ms[k].0) && Plain(ms[k].1)
    requires i < |tokens| && tokens[i] == Punct(Ch('{')) && ObjectAt(tokens, i + 1, ms)
    ensures ArrLoop(tokens, i, values)
            == ArrLoop(tokens, i + 1 + |ObjectBody(ms)|, values + [VObj(Assign(map[], ms))])
  {
    ObjectOfScalars(tokens, i + 1, ms, map[]);
  }

  /** A flat array as a member value: the object loop resumes after its
      ']' with the array assigned to the pending key. */
  lemma ArrayInObject(tokens: seq<Token>, i: nat, ts: seq<Token>, obj: map<Key, Value>, key: Token)
    requires forall k :: 0 <= k < |ts| ==> Scalar(ts[k])
    requires i < |tokens| && tokens[i] == Punct(Ch('[')) && ArrayAt(tokens, i + 1, ts) && Truthy(key)
    ensures ObjLoop(tokens, i, obj, key)
            == ObjLoop(tokens, i + 1 + |ArrayBody(ts)|, obj[KeyOf(key) := VArr(Leaves(ts))], NoKey)
  {
    ArrayOfScalars(tokens, i + 1, ts, []);
    assert [] + Leaves(ts) == Leaves(ts);
    assert ArrLoop(tokens, i + 1, []) == Ok((i + |ArrayBody(ts)|, Leaves(ts)));
    ArrayValueStep(tokens, i, obj, key);
  }

  /** '[' with a key pending: the array the array loop reads is assigned,
      and the object loop resumes one past its ']'. */
  lemma ArrayValueStep(tokens: seq<Token>, i: nat, obj: map<Key, Value>, key: Token)
    requires i < |tokens| && tokens[i] == Punct(Ch('[')) && Truthy(key) && ArrLoop(tokens, i + 1, []).Ok?
    ensures var (j, arr) := ArrLoop(tokens, i + 1, []).value;
            ObjLoop(tokens, i, obj, key) == ObjLoop(tokens, j + 1, obj[KeyOf(key) := VArr(arr)], NoKey)
  {
    assert KindOf(tokens[i]) == OpenBracket;
  }

  /** `k: v}`: a one-member object body. */
  lemma MemberThenBrace(tokens: seq<Token>, i: nat, k: Token, v: Token)
    requires i + 4 <= |tokens| && tokens[i] == k && tokens[i + 1] == Punct(Ch(':')) && tokens[i + 2] == v
    requires tokens[i + 3] == Punct(Ch('}')) && GoodKey(k) && Plain(v)
    ensures ObjLoop(tokens, i, map[], NoKey) == Ok((i + 4, map[KeyOf(k) := LeafValue(v)]))
  {
    MemberStep(tokens, i, map[], k, v);
    BraceStep(tokens, i + 3, map[KeyOf(k) := LeafValue(v)], NoKey);
  }

  /** An object as a member value: the object loop goes on one past the
      index the nested object loop returns. */
  lemma ObjectValueStep(tokens: seq<Token>, i: nat, obj: map<Key, Value>, key: Token)
    requires i < |tokens| && tokens[i] == Punct(Ch('{')) && Truthy(key) && ObjLoop(tokens, i + 1, map[], NoKey).Ok?
    ensures var (j, child) := ObjLoop(tokens, i + 1, map[], NoKey).value;
            ObjLoop(tokens, i, obj, key) == ObjLoop(tokens, j + 1, obj[KeyOf(key) := VObj(child)], NoKey)
  {
    assert KindOf(tokens[i]) == OpenBrace;
  }

  /** A flat object as a member value followed by ',': the object loop
      assigns it to the pending key and resumes after the ',', which it
      skips unread. */
  lemma ObjectBeforeComma(tokens: seq<Token>, i: nat, ms: seq<(Token, Token)>, obj: map<Key, Value>, key: Token)
    requires forall k :: 0 <= k < |ms| ==> GoodKey(ms[k].0) && Plain(ms[k].1)
    requires i < |tokens| && tokens[i] == Punct(Ch('{')) && ObjectAt(tokens, i + 1, ms) && Truthy(key)
    requires i + 1 + |ObjectBody(ms)| < |tokens| && tokens[i + 1 + |ObjectBody(ms)|] == Punct(Ch(','))
    ensures ObjLoop(tokens, i, obj, key)
            == ObjLoop(tokens, i + 2 + |ObjectBody(ms)|, obj[KeyOf(key) := VObj(Assign(map[], ms))], NoKey)
  {
    ObjectOfScalars(tokens, i + 1, ms, map[]);
  }

  /** `parse` of a list that starts with '{' is what the object loop makes
      of the rest. */
  lemma ObjectRoot(tokens: seq<Token>)
    requires |tokens| > 0 && tokens[0] == Punct(Ch('{')) && ObjLoop(tokens, 1, map[], NoKey).Ok?
    ensures Parse(tokens)
            == Ok((ObjLoop(tokens, 1, map[], NoKey).value.0, VObj(ObjLoop(tokens, 1, map[], NoKey).value.1)))
  {
  }

  /** `parse` of a flat object: every member assigned in source order. */
  lemma FlatObject(ms: seq<(Token, Token)>)
    requires forall k :: 0 <= k < |ms| ==> GoodKey(ms[k].0) && Plain(ms[k].1)
    ensures Parse([Punct(Ch('{'))] + ObjectBody(ms)) == Ok((1 + |ObjectBody(ms)|, VObj(Assign(map[], ms))))
  {
    var tokens := [Punct(Ch('{'))] + ObjectBody(ms);
    ObjectBodyAt([Punct(Ch('{'))], ms, []);
    assert [Punct(Ch('{'))] + ObjectBody(ms) + [] == tokens;
    ObjectOfScalars(tokens, 1, ms, map[]);
    ObjectRoot(tokens);
  }

  /** A later duplicate key overwrites an earlier one: each key holds the value
      of the last member that names it. */
  lemma {:induction false} LastMemberWins(obj: map<Key, Value>, ms: seq<(Token, Token)>, m: nat)
    requires m < |ms|
    requires forall n :: m < n < |ms| ==> KeyOf(ms[n].0) != KeyOf(ms[m].0)
    ensures KeyOf(ms[m].0) in Assign(obj, ms)
    ensures Assign(obj, ms)[KeyOf(ms[m].0)] == LeafValue(ms[m].1)
    decreases |ms|
  {
    var obj' := obj[KeyOf(ms[0].0) := LeafValue(ms[0].1)];
    if m == 0 {
      AssignKeeps(obj', ms[1..], KeyOf(ms[0].0));
    } else {
      forall n | m - 1 < n < |ms[1..]|
        ensures KeyOf(ms[1..][n].0) != KeyOf(ms[1..][m - 1].0)
      {
        assert ms[1..][n] == ms[n + 1];
      }
      LastMemberWins(obj', ms[1..], m - 1);
    }
  }

  /** A key no member names keeps its value from before. */
  lemma {:induction false} AssignKeeps(obj: map<Key, Value>, ms: seq<(Token, Token)>, key: Key)
    requires key in obj
    requires forall n :: 0 <= n < |ms| ==> KeyOf(ms[n].0) != key
    ensures key in Assign(obj, ms) && Assign(obj, ms)[key] == obj[key]
    decreases |ms|
  {
    if ms != [] {
      var obj' := obj[KeyOf(ms[0].0) := LeafValue(ms[0].1)];
      forall n | 0 <= n < |ms[1..]|
        ensures KeyOf(ms[1..][n].0) != key
      {
        assert ms[1..][n] == ms[n + 1];
      }
      AssignKeeps(obj', ms[1..], key);
    }
  }

  /** The keys after the assignments: those before and those the members name. */
  lemma {:induction false} AssignKeys(obj: map<Key, Value>, ms: seq<(Token, Token)>)
    ensures Assign(obj, ms).Keys == obj.Keys + set n | 0 <= n < |ms| :: KeyOf(ms[n].0)
    decreases |ms|
  {
    if ms != [] {
      var obj' := obj[KeyOf(ms[0].0) := LeafValue(ms[0].1)];
      AssignKeys(obj', ms[1..]);
      var named := set n | 0 <= n < |ms| :: KeyOf(ms[n].0);
      var rest := set n | 0 <= n < |ms[1..]| :: KeyOf(ms[1..][n].0);
      assert named == {KeyOf(ms[0].0)} + rest by {
        forall key | key in named
          ensures key in {KeyOf(ms[0].0)} + rest
        {
          var n :| 0 <= n < |ms| && KeyOf(ms[n].0) == key;
          if n > 0 {
            assert ms[1..][n - 1] == ms[n];
          }
        }
        forall key | key in rest
          ensures key in named
        {
          var n :| 0 <= n < |ms[1..]| && KeyOf(ms[1..][n].0) == key;
          assert ms[1..][n] == ms[n + 1];
        }
      }
    }
  }
}

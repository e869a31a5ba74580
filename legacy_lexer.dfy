/** The older tokenizer of json_parser.py:9-107. `next` finds the token that
    starts at or after a position, skipping every character that starts
    none; `lex` checks the enclosure and calls `next` until the text is used
    up. Its string scan keeps a two-valued backslash flag, checks the
    character after EVERY backslash, and then decodes the recorded escapes
    front to back at offsets taken from the undecoded text. Its number scan
    raises on a leading zero and reads exponent digits with or without a
    sign. */
module LegacyLexer {
  import opened Common
  import Strings
  import Lexer
  import ParseFuncs

  // ---------------------------------------------------------------------
  // String literals

  /** The positions of the backslashes in `json[i..c]`, in order. */
  function Backslashes(json: Text, i: nat, c: nat): (b: seq<nat>)
    requires i <= c <= |json|
    ensures forall k :: 0 <= k < |b| ==> i <= b[k] < c && json[b[k]] == Ch('\\')
    decreases c - i
  {
    if i == c then []
    else (if json[i] == Ch('\\') then [i] else []) + Backslashes(json, i + 1, c)
  }

  /** The scan of json_parser.py:19-33 from `i`, with the flag
      `paired_backslash` and the recorded backslashes `rem`: the index of
      the closing quote and the recorded backslashes, which are all of them. */
  function OldScan(json: Text, i: nat, paired: bool, rem: seq<nat>): (r: Result<(nat, seq<nat>)>)
    requires 0 < i <= |json|
    ensures r.Ok? ==> i <= r.value.0 < |json| && json[r.value.0] == Ch('"')
    ensures r.Ok? ==> r.value.1 == rem + Backslashes(json, i, r.value.0)
    ensures r.Err? ==> r.error == IndexError || r.error.InvalidEscape?
    decreases |json| - i
  {
    if i == |json| then Err(IndexError)
    else if json[i] == Ch('"') then
      if paired || json[i - 1] != Ch('\\') then Ok((i, rem))
      else OldScan(json, i + 1, paired, rem)
    else if json[i] == Ch('\\') then
      if i + 1 == |json| then Err(IndexError)
      else if !IsEscapeLetter(json[i + 1]) then Err(InvalidEscape(json[i + 1]))
      else OldScan(json, i + 1, !paired, rem + [i])
    else OldScan(json, i + 1, paired, rem)
  }

  /** Recorded backslashes of the string whose opening quote is at `orig`:
      inside its body, each followed by an escape letter. */
  predicate Recorded(json: Text, orig: nat, rem: seq<nat>)
  {
    forall k :: 0 <= k < |rem| ==> RecordedAt(json, orig, rem[k])
  }

  /** A backslash inside the body of the string at `orig`, followed by an
      escape letter. */
  predicate RecordedAt(json: Text, orig: nat, r: nat)
  {
    orig < r && r + 1 < |json| && json[r] == Ch('\\') && IsEscapeLetter(json[r + 1])
  }

  /** The decoding loop of json_parser.py:35-50 over the recorded backslashes
      in order, editing `token` at offsets computed from positions in the
      undecoded text: `\"` and `\/` lose the backslash, a control letter
      replaces the letter and then loses the backslash, and `\\` and `\u`
      stay as they are. A deletion or an assignment past the end of the
      (already shortened) token raises. */
  function OldDecode(json: Text, orig: nat, rem: seq<nat>, token: Text): (r: Result<Text>)
    requires Recorded(json, orig, rem)
    ensures r.Err? ==> r.error == IndexError
    ensures r.Ok? ==> |r.value| <= |token|
    decreases |rem|
  {
    if rem == [] then Ok(token)
    else
      RecordedTail(json, orig, rem, 0);
      match OldEdit(json, orig, rem[0], token)
      case Err(e) => Err(e)
      case Ok(t) => OldDecode(json, orig, rem[1..], t)
  }

  /** The edit for the recorded backslash at `idx`. */
  function OldEdit(json: Text, orig: nat, idx: nat, token: Text): (r: Result<Text>)
    requires RecordedAt(json, orig, idx)
    ensures r.Err? ==> r.error == IndexError
    ensures r.Ok? ==> |r.value| <= |token|
  {
    var c := json[idx + 1];
    if c == Ch('"') || c == Ch('/') then
      var k := idx - (orig + 1);
      if k >= |token| then Err(IndexError)
      else Ok(token[..k] + token[k + 1..])
    else if IsControlLetter(c) then
      var k := idx - orig;
      if k >= |token| then Err(IndexError)
      else
        var t := token[k := Strings.EscChar(json, idx)];
        Ok(t[..k - 1] + t[k..])
    else Ok(token)
  }

  /** Dropping the first `n + 1` recorded backslashes keeps the rest fit
      for the decoder. */
  lemma RecordedTail(json: Text, orig: nat, rem: seq<nat>, n: nat)
    requires n < |rem| && Recorded(json, orig, rem[n..])
    ensures RecordedAt(json, orig, rem[n]) && Recorded(json, orig, rem[n + 1..])
  {
    var full, tail := rem[n..], rem[n + 1..];
    assert rem[n] == full[0];
    forall k | 0 <= k < |tail|
      ensures tail[k] == full[k + 1]
    {
    }
  }

  /** The decoder from the `n`-th recorded backslash on: its edit, then the
      rest. */
  lemma OldDecodeAt(json: Text, orig: nat, rem: seq<nat>, n: nat, token: Text)
    requires n < |rem| && Recorded(json, orig, rem[n..])
    ensures RecordedAt(json, orig, rem[n]) && Recorded(json, orig, rem[n + 1..])
    ensures OldDecode(json, orig, rem[n..], token)
            == match OldEdit(json, orig, rem[n], token)
               case Err(e) => Err(e)
               case Ok(t) => OldDecode(json, orig, rem[n + 1..], t)
  {
    RecordedTail(json, orig, rem, n);
    assert rem[n..][1..] == rem[n + 1..];
  }

  /** Inside a string, the character after every backslash is an escape
      letter, or the scan raises: also after the second backslash of `\\`. */
  lemma {:induction false} OldScanChecked(json: Text, i: nat, paired: bool, rem: seq<nat>)
    requires 0 < i <= |json|
    ensures OldScan(json, i, paired, rem).Ok? ==>
            forall k :: i <= k < OldScan(json, i, paired, rem).value.0 && json[k] == Ch('\\') ==> IsEscapeLetter(json[k + 1])
    decreases |json| - i
  {
    if i < |json| {
      if json[i] == Ch('"') {
        OldScanChecked(json, i + 1, paired, rem);
      } else if json[i] == Ch('\\') {
        if i + 1 < |json| {
          OldScanChecked(json, i + 1, !paired, rem + [i]);
        }
      } else {
        OldScanChecked(json, i + 1, paired, rem);
      }
    }
  }

  /** What the scan records from just after an opening quote is fit for the
      decoder. */
  lemma ScannedRecorded(json: Text, orig: nat)
    requires orig < |json| && OldScan(json, orig + 1, true, []).Ok?
    ensures Recorded(json, orig, OldScan(json, orig + 1, true, []).value.1)
  {
    var c := OldScan(json, orig + 1, true, []).value.0;
    var rem := OldScan(json, orig + 1, true, []).value.1;
    OldScanChecked(json, orig + 1, true, []);
    assert rem == Backslashes(json, orig + 1, c);
  }

  /** A successful scan to the quote at `close`, recording `rem`, leaves the
      string token to the decoder. */
  lemma ScannedString(json: Text, orig: nat, close: nat, rem: seq<nat>)
    requires orig < |json| && json[orig] == Ch('"') && OldScan(json, orig + 1, true, []) == Ok((close, rem))
    ensures orig < close < |json| && Recorded(json, orig, rem)
    ensures OldString(json, orig)
            == match OldDecode(json, orig, rem, json[orig + 1..close])
               case Err(e) => Err(e)
               case Ok(token) => Ok((close + 1, token))
  {
    ScannedRecorded(json, orig);
  }

  /** The string token at the quote `orig`: one past the closing quote, and
      the decoded body. */
  function OldString(json: Text, orig: nat): (r: Result<(nat, Text)>)
    requires orig < |json| && json[orig] == Ch('"')
    ensures r.Ok? ==> orig + 1 < r.value.0 <= |json|
    ensures r.Err? ==> r.error == IndexError || r.error.InvalidEscape?
  {
    match OldScan(json, orig + 1, true, [])
    case Err(e) => Err(e)
    case Ok((c, rem)) =>
      ScannedRecorded(json, orig);
      match OldDecode(json, orig, rem, json[orig + 1..c])
      case Err(e) => Err(e)
      case Ok(token) => Ok((c + 1, token))
  }

  // ---------------------------------------------------------------------
  // Numbers

  /** `while json[i].isdigit(): i += 1` from `k`: the end of the digit run,
      or IndexError when the run reaches the end of the text. */
  function DigitsUpTo(json: Text, k: nat): (r: Result<nat>)
    requires k <= |json|
    ensures r.Ok? ==> r.value == DigitRun(json, k) < |json|
    ensures r.Err? ==> r.error == IndexError && DigitRun(json, k) == |json|
  {
    if DigitRun(json, k) == |json| then Err(IndexError) else Ok(DigitRun(json, k))
  }

  /** Where a number may start: a digit, or '-' followed by a digit. */
  predicate NumberStart(json: Text, i: nat)
  {
    i < |json| && (IsDigit(json[i]) || (json[i] == Ch('-') && i + 1 < |json| && IsDigit(json[i + 1])))
  }

  /** Where the integer digits of the number at `i` start: past a '-'. */
  function DigitsStart(json: Text, i: nat): (a: nat)
    requires NumberStart(json, i)
    ensures a < |json| && IsDigit(json[a])
  {
    if json[i] == Ch('-') then i + 1 else i
  }

  /** The leading-zero check passes: the first digit is not 0, or '.'
      follows it. */
  predicate ZeroAllowed(json: Text, a: nat)
    requires a < |json|
  {
    json[a] != Ch('0') || (a + 1 < |json| && json[a + 1] == Ch('.'))
  }

  /** The end of the number at `orig` (json_parser.py:66-86): a leading 0
      must be followed by '.', a fraction is read only when '.' is followed
      by a digit, and an exponent only after a fraction, its sign optional.
      Every read past the end of the text raises. */
  function OldNumEnd(json: Text, orig: nat): (r: Result<nat>)
    requires NumberStart(json, orig)
    ensures r.Ok? ==> orig < r.value < |json| && IsDigit(json[orig + SignLen(json[orig..r.value])])
    ensures r.Err? ==> r.error == IndexError || r.error == LeadingZero
  {
    var a := DigitsStart(json, orig);
    if json[a] == Ch('0') && a + 1 == |json| then Err(IndexError)
    else if json[a] == Ch('0') && json[a + 1] != Ch('.') then Err(LeadingZero)
    else
      match DigitsUpTo(json, a)
      case Err(e) => Err(e)
      case Ok(b) =>
        if json[b] != Ch('.') then Ok(b)
        else if b + 1 == |json| then Err(IndexError)
        else if !IsDigit(json[b + 1]) then Ok(b)
        else OldFraction(json, b)
  }

  /** The fraction and exponent after the '.' at `b`, which a digit follows. */
  function OldFraction(json: Text, b: nat): (r: Result<nat>)
    requires b + 1 < |json| && json[b] == Ch('.') && IsDigit(json[b + 1])
    ensures r.Ok? ==> b + 1 < r.value < |json|
    ensures r.Err? ==> r.error == IndexError
  {
    match DigitsUpTo(json, b + 1)
    case Err(e) => Err(e)
    case Ok(c) =>
      if !IsExpMarker(json[c]) then Ok(c)
      else if c + 1 == |json| then Err(IndexError)
      else DigitsUpTo(json, if IsSign(json[c + 1]) then c + 2 else c + 1)
  }

  /** The number token at `orig`: the scanned extent, then `float()` of it. */
  function OldNumberToken(json: Text, orig: nat): (r: Result<(nat, Token)>)
    requires NumberStart(json, orig)
    ensures r.Ok? ==> orig < r.value.0 < |json| && r.value.1 == Num(json[orig..r.value.0], NumValue(json[orig..r.value.0]))
    ensures r.Err? ==> r.error == IndexError || r.error == LeadingZero || r.error == FloatError
  {
    match OldNumEnd(json, orig)
    case Err(e) => Err(e)
    case Ok(e) => if FloatAccepts(json[orig..e]) then Ok((e, Num(json[orig..e], NumValue(json[orig..e])))) else Err(FloatError)
  }

  // ---------------------------------------------------------------------
  // next and lex

  /** The characters at which `next` stops to read a token. */
  predicate StartsToken(json: Text, k: nat)
    requires k < |json|
  {
    var c := json[k];
    IsStructural(c) || c == Ch('"') || IsAlpha(c) || IsDigit(c) || (c == Ch('-') && (k + 1 == |json| || IsDigit(json[k + 1])))
  }

  /** What `next(i, json)` returns or raises. Running off the end returns a
      ValueError object instead of a pair, which `lex` then fails to unpack:
      that is `NotReturned`. */
  function NextFrom(json: Text, i: nat): (r: Result<(nat, Token)>)
    requires i <= |json|
    ensures r.Ok? ==> i < r.value.0 <= |json|
    decreases |json| - i
  {
    if i == |json| then Err(NotReturned)
    else
      var c := json[i];
      if IsStructural(c) then Ok((i + 1, Punct(c)))
      else if c == Ch('"') then
        (match OldString(json, i)
         case Err(e) => Err(e)
         case Ok((j, text)) => Ok((j, Str(text))))
      else if IsAlpha(c) then Lexer.LiteralToken(json, i)
      else if IsDigit(c) then OldNumberToken(json, i)
      else if c == Ch('-') && i + 1 == |json| then Err(IndexError)
      else if c == Ch('-') && IsDigit(json[i + 1]) then OldNumberToken(json, i)
      else NextFrom(json, i + 1)
  }

  /** The tokens the older `lex` appends from `i` on, after `acc`. */
  function OldLexFrom(json: Text, i: nat, acc: seq<Token>): Result<seq<Token>>
    requires i <= |json|
    decreases |json| - i
  {
    if i == |json| then Ok(acc)
    else
      match NextFrom(json, i)
      case Err(e) => Err(e)
      case Ok((j, tok)) => OldLexFrom(json, j, acc + [tok])
  }

  /** What the older `lex(json)` returns or raises. */
  function OldTokens(json: Text): Result<seq<Token>>
  {
    if |json| == 0 then Err(IndexError)
    else if !Lexer.Enclosed(json) then Err(BadEnclosure(json[0], json[|json| - 1]))
    else OldLexFrom(json, 0, [])
  }

  // ---------------------------------------------------------------------
  // The older tokenizer's loops

  /** `lex(json)` of json_parser.py:93-107. */
  method OldLex(json: Text) returns (r: Result<seq<Token>>)
    ensures r == OldTokens(json)
  {
    if |json| == 0 {
      return Err(IndexError);
    }
    if !Lexer.Enclosed(json) {
      return Err(BadEnclosure(json[0], json[|json| - 1]));
    }
    var i := 0;
    var tokens: seq<Token> := [];
    while i < |json|
      invariant i <= |json|
      invariant OldLexFrom(json, i, tokens) == OldLexFrom(json, 0, [])
      decreases |json| - i
    {
      var n := Next(json, i);
      if n.Err? {
        return Err(n.error);
      }
      i := n.value.0;
      tokens := tokens + [n.value.1];
    }
    r := Ok(tokens);
  }

  /** `next(i, json)` of json_parser.py:9-91. */
  method Next(json: Text, start: nat) returns (r: Result<(nat, Token)>)
    requires start <= |json|
    ensures r == NextFrom(json, start)
  {
    var i := start;
    while i < |json|
      invariant start <= i <= |json|
      invariant NextFrom(json, i) == NextFrom(json, start)
      decreases |json| - i
    {
      var c := json[i];
      if IsStructural(c) {
        return Ok((i + 1, Punct(c)));
      } else if c == Ch('"') {
        var s := OldLexString(json, i);
        if s.Err? {
          return Err(s.error);
        }
        return Ok((s.value.0, Str(s.value.1)));
      } else if IsAlpha(c) {
        if i + 4 <= |json| && json[i..i + 4] == T("true") {
          return Ok((i + 4, Bool(true)));
        } else if i + 4 <= |json| && json[i..i + 4] == T("null") {
          return Ok((i + 4, Null));
        } else if i + 5 <= |json| && json[i..i + 5] == T("false") {
          return Ok((i + 5, Bool(false)));
        }
        return Err(MissingQuotes);
      } else if c == Ch('-') && i + 1 == |json| {
        return Err(IndexError);              // json[i + 1] past the end
      } else if IsDigit(c) || (c == Ch('-') && IsDigit(json[i + 1])) {
        var e := OldLexNum(json, i);
        if e.Err? {
          return Err(e.error);
        }
        if !FloatAccepts(json[i..e.value]) {
          return Err(FloatError);
        }
        return Ok((e.value, Num(json[i..e.value], NumValue(json[i..e.value]))));
      }
      i := i + 1;
    }
    return Err(NotReturned);
  }

  /** The string branch of `next` (json_parser.py:17-52): the scan for the
      closing quote, then the decoding. */
  method OldLexString(json: Text, orig: nat) returns (r: Result<(nat, Text)>)
    requires orig < |json| && json[orig] == Ch('"')
    ensures r == OldString(json, orig)
  {
    var scan := OldScanLoop(json, orig);
    if scan.Err? {
      return Err(scan.error);
    }
    var close := scan.value.0;
    var rem := scan.value.1;
    ScannedString(json, orig, close, rem);
    var token := OldUnescape(json, orig, rem, json[orig + 1..close]);
    if token.Err? {
      return Err(token.error);
    }
    return Ok((close + 1, token.value));
  }

  /** The `while True` loop of json_parser.py:22-53 up to the closing quote:
      its index and the recorded backslashes. */
  method OldScanLoop(json: Text, orig: nat) returns (r: Result<(nat, seq<nat>)>)
    requires orig < |json|
    ensures r == OldScan(json, orig + 1, true, [])
  {
    var paired := true;
    var rem: seq<nat> := [];
    var i := orig + 1;
    while true
      invariant orig < i <= |json|
      invariant OldScan(json, i, paired, rem) == OldScan(json, orig + 1, true, [])
      decreases |json| - i
    {
      while i < |json| && json[i] != Ch('"')
        invariant orig < i <= |json|
        invariant OldScan(json, i, paired, rem) == OldScan(json, orig + 1, true, [])
        decreases |json| - i
      {
        if json[i] == Ch('\\') {
          paired := !paired;
          if i + 1 == |json| {
            return Err(IndexError);
          }
          if !IsEscapeLetter(json[i + 1]) {
            return Err(InvalidEscape(json[i + 1]));
          }
          rem := rem + [i];
        }
        i := i + 1;
      }
      if i == |json| {
        return Err(IndexError);
      }
      if paired || json[i - 1] != Ch('\\') {
        return Ok((i, rem));
      }
      i := i + 1;
    }
  }

  /** The `for idx in remove_indexes` loop of json_parser.py:41-48. */
  method OldUnescape(json: Text, orig: nat, rem: seq<nat>, raw: Text) returns (r: Result<Text>)
    requires Recorded(json, orig, rem)
    ensures r == OldDecode(json, orig, rem, raw)
  {
    var token: Text := raw;
    for n := 0 to |rem|
      invariant Recorded(json, orig, rem[n..])
      invariant OldDecode(json, orig, rem[n..], token) == OldDecode(json, orig, rem, raw)
    {
      OldDecodeAt(json, orig, rem, n, token);
      ghost var edit := OldEdit(json, orig, rem[n], token);
      var idx := rem[n];
      if json[idx + 1] == Ch('"') || json[idx + 1] == Ch('/') {
        if idx - (orig + 1) >= |token| {
          return Err(IndexError);
        }
        token := token[..idx - (orig + 1)] + token[idx - (orig + 1) + 1..];           // del
      } else if IsControlLetter(json[idx + 1]) {
        if idx - orig >= |token| {
          return Err(IndexError);
        }
        token := token[idx - orig := Strings.EscChar(json, idx)];
        token := token[..idx - (orig + 1)] + token[idx - orig..];                     // del
      }
      assert edit == Ok(token);
    }
    assert rem[|rem|..] == [];
    return Ok(token);
  }

  /** The number branch of `next` (json_parser.py:66-86). */
  method OldLexNum(json: Text, orig: nat) returns (r: Result<nat>)
    requires NumberStart(json, orig)
    ensures r == OldNumEnd(json, orig)
  {
    var i := orig;
    if json[i] == Ch('-') {
      i := i + 1;
    }
    if json[i] == Ch('0') {
      if i + 1 == |json| {
        return Err(IndexError);
      }
      if json[i + 1] != Ch('.') {
        return Err(LeadingZero);
      }
    }
    var end := Digits(json, i);
    if end.Err? {
      return end;
    }
    i := end.value;
    if json[i] == Ch('.') {
      if i + 1 == |json| {
        return Err(IndexError);
      }
      if IsDigit(json[i + 1]) {
        r := OldLexFraction(json, i);
        return;
      }
    }
    return Ok(i);
  }

  /** The fraction and exponent scan of json_parser.py:76-84, after the '.'
      at `b`. */
  method OldLexFraction(json: Text, b: nat) returns (r: Result<nat>)
    requires b + 1 < |json| && json[b] == Ch('.') && IsDigit(json[b + 1])
    ensures r == OldFraction(json, b)
  {
    var end := Digits(json, b + 1);
    if end.Err? {
      return end;
    }
    var i := end.value;
    if IsExpMarker(json[i]) {
      i := i + 1;
      if i == |json| {
        return Err(IndexError);
      }
      if IsSign(json[i]) {
        i := i + 1;
      }
      r := Digits(json, i);
      return;
    }
    return Ok(i);
  }

  /** One of the `while json[i].isdigit(): i += 1` loops. */
  method Digits(json: Text, start: nat) returns (r: Result<nat>)
    requires start <= |json|
    ensures r == DigitsUpTo(json, start)
  {
    var i := start;
    while i < |json| && IsDigit(json[i])
      invariant start <= i <= |json|
      invariant DigitRun(json, i) == DigitRun(json, start)
      decreases |json| - i
    {
      i := i + 1;
    }
    if i == |json| {
      return Err(IndexError);
    }
    return Ok(i);
  }

  // ---------------------------------------------------------------------
  // Properties of the older tokenizer

  /** `next` passes over every character that starts no token, whitespace
      or not, and reads the token at the first one that does. */
  lemma {:induction false} SkipToToken(json: Text, i: nat, j: nat)
    requires i <= j <= |json|
    requires forall k :: i <= k < j ==> !StartsToken(json, k)
    ensures NextFrom(json, i) == NextFrom(json, j)
    decreases j - i
  {
    if i < j {
      assert !StartsToken(json, i);
      SkipToToken(json, i + 1, j);
    }
  }

  /** When the text ends with a structural character, `next` never runs off
      its end: it returns a token or raises. */
  lemma {:induction false} NextReturns(json: Text, i: nat)
    requires i < |json| && IsStructural(json[|json| - 1])
    ensures NextFrom(json, i) != Err(NotReturned)
    decreases |json| - i
  {
    if i + 1 < |json| {
      NextReturns(json, i + 1);
    }
  }

  lemma {:induction false} OldLexReturns(json: Text, i: nat, acc: seq<Token>)
    requires i <= |json| && 0 < |json| && IsStructural(json[|json| - 1])
    ensures OldLexFrom(json, i, acc) != Err(NotReturned)
    decreases |json| - i
  {
    if i < |json| {
      NextReturns(json, i);
      match NextFrom(json, i)
      case Err(_) =>
      case Ok((j, tok)) => OldLexReturns(json, j, acc + [tok]);
    }
  }

  /** The returned (not raised) ValueError of `next` cannot reach `lex`:
      the enclosure check leaves a closing brace or bracket at the end. */
  lemma OldTokensReturn(json: Text)
    ensures OldTokens(json) != Err(NotReturned)
  {
    if |json| > 0 && Lexer.Enclosed(json) {
      OldLexReturns(json, 0, []);
    }
  }

  /** Where every character is structural or starts no token, and the text
      ends with a structural character, the older lex returns exactly the
      structural characters, each as a token of its own. */
  lemma {:induction false} OldPunctuationOnly(json: Text, i: nat, acc: seq<Token>)
    requires i <= |json| && (i < |json| ==> IsStructural(json[|json| - 1]))
    requires forall k :: i <= k < |json| ==> IsStructural(json[k]) || !StartsToken(json, k)
    ensures OldLexFrom(json, i, acc) == Ok(acc + Lexer.Punctuation(json[i..]))
    decreases |json| - i
  {
    if i == |json| {
      assert json[i..] == [] && Lexer.Punctuation([]) == [];
      assert acc + [] == acc;
    } else {
      assert json[i..][1..] == json[i + 1..];
      assert json[i..][0] == json[i];
      if IsStructural(json[i]) {
        assert Lexer.Punctuation(json[i..]) == [Punct(json[i])] + Lexer.Punctuation(json[i + 1..]);
        OldPunctuationOnly(json, i + 1, acc + [Punct(json[i])]);
        assert acc + [Punct(json[i])] + Lexer.Punctuation(json[i + 1..]) == acc + ([Punct(json[i])] + Lexer.Punctuation(json[i + 1..]));
      } else {
        assert i + 1 < |json|;
        assert NextFrom(json, i) == NextFrom(json, i + 1);
        assert OldLexFrom(json, i, acc) == OldLexFrom(json, i + 1, acc);
        assert Lexer.Punctuation(json[i..]) == [] + Lexer.Punctuation(json[i + 1..]);
        OldPunctuationOnly(json, i + 1, acc);
        assert [] + Lexer.Punctuation(json[i + 1..]) == Lexer.Punctuation(json[i + 1..]);
      }
    }
  }

  /** A string with neither a backslash nor a quote inside is returned as
      it stands, and `next` resumes after its closing quote. */
  lemma OldPlainString(json: Text, orig: nat, c: nat)
    requires orig < c < |json| && json[orig] == Ch('"') && json[c] == Ch('"')
    requires forall k :: orig < k < c ==> json[k] != Ch('"') && json[k] != Ch('\\')
    ensures OldString(json, orig) == Ok((c + 1, json[orig + 1..c]))
  {
    OldScanPlain(json, orig + 1, c, true);
  }

  lemma {:induction false} OldScanPlain(json: Text, i: nat, c: nat, paired: bool)
    requires 0 < i <= c < |json| && json[c] == Ch('"') && json[i - 1] != Ch('\\')
    requires forall k :: i <= k < c ==> json[k] != Ch('"') && json[k] != Ch('\\')
    ensures OldScan(json, i, paired, []) == Ok((c, []))
    decreases c - i
  {
    if i < c {
      OldScanPlain(json, i + 1, c, paired);
    }
  }

  /** A number whose first digit is 0 and whose next character is not '.'
      raises; the C scanner of the newer tokenizer only warns. */
  lemma OldLeadingZero(json: Text, i: nat)
    requires NumberStart(json, i)
    requires var a := DigitsStart(json, i);
             json[a] == Ch('0') && a + 1 < |json| && json[a + 1] != Ch('.')
    ensures OldNumberToken(json, i) == Err(LeadingZero)
  {
  }

  /** Without a '.', the number ends with its integer digits: an exponent
      marker there is not examined (json_parser.py:72-75, 87). */
  lemma OldIntegerOnly(json: Text, i: nat)
    requires NumberStart(json, i) && ZeroAllowed(json, DigitsStart(json, i))
    requires var b := DigitRun(json, DigitsStart(json, i)); b < |json| && json[b] != Ch('.')
    ensures OldNumEnd(json, i) == Ok(DigitRun(json, DigitsStart(json, i)))
  {
  }

  /** A '.' that no digit follows ends the number before it, where the C
      scanner raises instead (json_parser.py:75, 87). */
  lemma OldPointWithoutDigit(json: Text, i: nat)
    requires NumberStart(json, i) && ZeroAllowed(json, DigitsStart(json, i))
    requires var b := DigitRun(json, DigitsStart(json, i));
             b + 1 < |json| && json[b] == Ch('.') && !IsDigit(json[b + 1])
    ensures OldNumEnd(json, i) == Ok(DigitRun(json, DigitsStart(json, i)))
  {
  }

  /** A '.' and a digit start the fraction; without an exponent marker
      after its digits the number ends there (json_parser.py:75-80). */
  lemma OldFractionEnd(json: Text, i: nat)
    requires NumberStart(json, i) && ZeroAllowed(json, DigitsStart(json, i))
    requires var b := DigitRun(json, DigitsStart(json, i));
             b + 1 < |json| && json[b] == Ch('.') && IsDigit(json[b + 1])
             && DigitRun(json, b + 1) < |json| && !IsExpMarker(json[DigitRun(json, b + 1)])
    ensures OldNumEnd(json, i) == Ok(DigitRun(json, DigitRun(json, DigitsStart(json, i)) + 1))
  {
  }

  /** After a fraction, an exponent marker, an optional sign and the
      exponent digits; an unsigned exponent's digits are consumed too,
      unlike in the C scanner. Reaching the end of the text raises
      (json_parser.py:80-85). */
  lemma OldExponent(json: Text, i: nat)
    requires NumberStart(json, i) && ZeroAllowed(json, DigitsStart(json, i))
    requires var b := DigitRun(json, DigitsStart(json, i));
             b + 1 < |json| && json[b] == Ch('.') && IsDigit(json[b + 1])
             && DigitRun(json, b + 1) + 1 < |json| && IsExpMarker(json[DigitRun(json, b + 1)])
    ensures var c := DigitRun(json, DigitRun(json, DigitsStart(json, i)) + 1);
            var d := if IsSign(json[c + 1]) then c + 2 else c + 1;
            OldNumEnd(json, i) == if DigitRun(json, d) < |json| then Ok(DigitRun(json, d)) else Err(IndexError)
  {
    var b := DigitRun(json, DigitsStart(json, i));
    var c := DigitRun(json, b + 1);
    assert DigitsUpTo(json, b + 1) == Ok(c);
    assert OldNumEnd(json, i) == OldFraction(json, b);
  }

  /** Where the older number scan succeeds on a number without an exponent
      marker that is not followed by '.', it ends where the C scanner ends. */
  lemma OldAgreesWithC(json: Text, i: nat)
    requires NumberStart(json, i) && OldNumEnd(json, i).Ok?
    requires var e := OldNumEnd(json, i).value;
             json[e] != Ch('.') && forall k :: i <= k < e ==> !IsExpMarker(json[k])
    ensures ParseFuncs.NumEnd(json, i) == OldNumEnd(json, i)
  {
    var e := OldNumEnd(json, i).value;
    var a := DigitsStart(json, i);
    assert ParseFuncs.SignSkipped(json, i) == a;
    var b := DigitRun(json, a);
    if json[b] == Ch('.') {
      assert IsDigit(json[b + 1]);
      var c := DigitRun(json, b + 1);
      assert !IsExpMarker(json[c]);
      assert ParseFuncs.AfterPoint(json, b) == Ok(c);
    }
  }

  /** One recorded `\"`, `\/` or control-letter escape decodes as the newer
      tokenizer decodes it. */
  lemma OldDecodeOne(json: Text, orig: nat, r: nat, hi: nat)
    requires orig < r && r + 1 < hi <= |json| && json[r] == Ch('\\')
    requires json[r + 1] == Ch('"') || json[r + 1] == Ch('/') || IsControlLetter(json[r + 1])
    ensures Recorded(json, orig, [r]) && Strings.ValidEscapeAt(json, r)
    ensures OldDecode(json, orig, [r], json[orig + 1..hi])
            == Ok(json[orig + 1..r] + [Strings.EscChar(json, r)] + json[r + 2..hi])
  {
    var token := json[orig + 1..hi];
    var k := r - orig;
    assert [r][1..] == [];
    assert token[..k - 1] == json[orig + 1..r];
    assert token[k + 1..] == json[r + 2..hi];
    if IsControlLetter(json[r + 1]) {
      var t := token[k := Strings.EscChar(json, r)];
      assert t[..k - 1] == token[..k - 1];
      assert t[k..] == [Strings.EscChar(json, r)] + token[k + 1..];
      assert t[..k - 1] + t[k..] == json[orig + 1..r] + [Strings.EscChar(json, r)] + json[r + 2..hi];
    } else {
      assert Strings.EscChar(json, r) == json[r + 1];
      assert token[k..] == [Strings.EscChar(json, r)] + token[k + 1..];
      assert token[..k - 1] + token[k..] == json[orig + 1..r] + [Strings.EscChar(json, r)] + json[r + 2..hi];
    }
  }
}

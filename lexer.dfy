/** The newer tokenizer `lex` (json_parser/json_parser.py:13-113): the
    enclosure check, then one token per structural character, string
    literal, `true`/`false`/`null` and number, skipping whitespace. Numbers
    are scanned by the C routine (module ParseFuncs) and then converted by
    `float()`. */
module Lexer {
  import opened Common
  import ParseFuncs
  import Strings

  /** The text starts with '{' and ends with '}', or starts with '[' and
      ends with ']'. */
  predicate Enclosed(json: Text)
    requires |json| > 0
  {
    (json[0] == Ch('{') && json[|json| - 1] == Ch('}'))
    || (json[0] == Ch('[') && json[|json| - 1] == Ch(']'))
  }

  /** `true`, `null` or `false` at `i`, which holds a letter. */
  function LiteralToken(json: Text, i: nat): (r: Result<(nat, Token)>)
    requires i < |json|
    ensures r.Ok? ==> i < r.value.0 <= |json|
    ensures r.Err? ==> r.error == MissingQuotes
  {
    if i + 4 <= |json| && json[i..i + 4] == T("true") then Ok((i + 4, Bool(true)))
    else if i + 4 <= |json| && json[i..i + 4] == T("null") then Ok((i + 4, Null))
    else if i + 5 <= |json| && json[i..i + 5] == T("false") then Ok((i + 5, Bool(false)))
    else Err(MissingQuotes)
  }

  /** A number at `i`: the extent lex_num reports, then `float()` of it. */
  function NumberToken(json: Text, i: nat): (r: Result<(nat, Token)>)
    requires i < |json|
    ensures r.Ok? ==> i < r.value.0 <= |json| && r.value.1 == Num(json[i..r.value.0], NumValue(json[i..r.value.0]))
    // the token ends where lex_num says, and fails where lex_num or float() does
    ensures r.Ok? ==> ParseFuncs.NumEnd(json, i) == Ok(r.value.0)
    ensures ParseFuncs.NumEnd(json, i).Err? ==> r == Err(ParseFuncs.NumEnd(json, i).error)
    ensures r == Err(FloatError)
            <==> ParseFuncs.NumEnd(json, i).Ok? && !FloatAccepts(json[i..ParseFuncs.NumEnd(json, i).value])
  {
    match ParseFuncs.NumEnd(json, i)
    case Err(e) => Err(e)
    case Ok(e) => if FloatAccepts(json[i..e]) then Ok((e, Num(json[i..e], NumValue(json[i..e])))) else Err(FloatError)
  }

  /** One pass of lex's loop at `i`: where the next pass starts and the
      tokens (none or one) this one appends. */
  function Step(json: Text, i: nat): (r: Result<(nat, seq<Token>)>)
    requires i < |json|
    ensures r.Ok? ==> i < r.value.0 <= |json| && |r.value.1| <= 1
  {
    var c := json[i];
    if IsStructural(c) then Ok((i + 1, [Punct(c)]))
    else if c == Ch('"') then
      match Strings.StringToken(json, i)
      case Err(e) => Err(e)
      case Ok((close, text)) => Ok((close + 1, [Str(text)]))
    else if IsAlpha(c) then
      match LiteralToken(json, i)
      case Err(e) => Err(e)
      case Ok((j, tok)) => Ok((j, [tok]))
    else if IsDigit(c) then
      match NumberToken(json, i)
      case Err(e) => Err(e)
      case Ok((j, tok)) => Ok((j, [tok]))
    else if c == Ch('-') && i + 1 == |json| then Err(IndexError)
    else if c == Ch('-') && IsDigit(json[i + 1]) then
      match NumberToken(json, i)
      case Err(e) => Err(e)
      case Ok((j, tok)) => Ok((j, [tok]))
    else if IsSpace(c) then Ok((i + 1, []))
    else Err(UnexpectedChar(c))
  }

  /** The tokens lex appends from `i` on, after `acc`. */
  function LexFrom(json: Text, i: nat, acc: seq<Token>): Result<seq<Token>>
    requires i <= |json|
    decreases |json| - i
  {
    if i == |json| then Ok(acc)
    else
      match Step(json, i)
      case Err(e) => Err(e)
      case Ok((j, ts)) => LexFrom(json, j, acc + ts)
  }

  /** What `lex(json)` returns or raises. */
  function Tokens(json: Text): Result<seq<Token>>
  {
    if |json| == 0 then Err(IndexError)      // json[0] of an empty string
    else if !Enclosed(json) then Err(BadEnclosure(json[0], json[|json| - 1]))
    else LexFrom(json, 0, [])
  }

  /** lex's loop, with the string scan in Strings.LexString and the number
      scan in ParseFuncs.LexNum. */
  method Lex(json: Text) returns (r: Result<seq<Token>>)
    ensures r == Tokens(json)
  {
    if |json| == 0 {
      return Err(IndexError);
    }
    if !Enclosed(json) {
      return Err(BadEnclosure(json[0], json[|json| - 1]));
    }
    var i := 0;
    var tokens: seq<Token> := [];
    while i < |json|
      invariant i <= |json|
      invariant LexFrom(json, i, tokens) == LexFrom(json, 0, [])
      decreases |json| - i
    {
      var c := json[i];
      ghost var step := Step(json, i);
      if IsStructural(c) {
        tokens := tokens + [Punct(c)];
        i := i + 1;
      } else if c == Ch('"') {
        var s := Strings.LexString(json, i);
        if s.Err? {
          return Err(s.error);
        }
        assert step == Ok((s.value.0 + 1, [Str(s.value.1)]));
        tokens := tokens + [Str(s.value.1)];
        i := s.value.0 + 1;
      } else if IsAlpha(c) {
        if i + 4 <= |json| && json[i..i + 4] == T("true") {
          i := i + 4;
          tokens := tokens + [Bool(true)];
        } else if i + 4 <= |json| && json[i..i + 4] == T("null") {
          i := i + 4;
          tokens := tokens + [Null];
        } else if i + 5 <= |json| && json[i..i + 5] == T("false") {
          i := i + 5;
          tokens := tokens + [Bool(false)];
        } else {
          return Err(MissingQuotes);
        }
      } else if c == Ch('-') && i + 1 == |json| {
        return Err(IndexError);              // json[i + 1] past the end
      } else if IsDigit(c) || (c == Ch('-') && IsDigit(json[i + 1])) {
        var end := ParseFuncs.LexNum(json, i);
        if end.Err? {
          return Err(end.error);
        }
        if !FloatAccepts(json[i..end.value]) {
          return Err(FloatError);
        }
        assert step == Ok((end.value, [Num(json[i..end.value], NumValue(json[i..end.value]))]));
        tokens := tokens + [Num(json[i..end.value], NumValue(json[i..end.value]))];
        i := end.value;
      } else if IsSpace(c) {
        i := i + 1;
        assert tokens + [] == tokens;
      } else {
        return Err(UnexpectedChar(c));
      }
    }
    r := Ok(tokens);
  }

  // ---------------------------------------------------------------------
  // Properties of the tokenizer

  /** The failures of one pass of lex's loop. */
  predicate LexerError(e: Error)
  {
    e == IndexError || e.InvalidEscape? || e == InvalidUnicode || e == MissingQuotes || e.UnexpectedChar?
    || e == FloatError || e == NumAssert || e == DecimalPointNoDigits || e == EscapedEnd
  }

  /** What LexFrom appends, it appends after `acc`; it raises only the
      failures of single passes, never the enclosure error. */
  lemma {:induction false} LexFromExtends(json: Text, i: nat, acc: seq<Token>)
    requires i <= |json|
    ensures LexFrom(json, i, acc).Ok? ==> acc <= LexFrom(json, i, acc).value
    ensures LexFrom(json, i, acc).Err? ==> LexerError(LexFrom(json, i, acc).error)
    decreases |json| - i
  {
    if i < |json| {
      match Step(json, i)
      case Err(e) =>
        StepErrors(json, i);
      case Ok((j, ts)) =>
        LexFromExtends(json, j, acc + ts);
    }
  }

  lemma StepErrors(json: Text, i: nat)
    requires i < |json|
    ensures Step(json, i).Err? ==> LexerError(Step(json, i).error)
  {
    if json[i] == Ch('"') {
      StringErrors(json, i);
    }
  }

  /** The failures a string literal can raise. */
  lemma StringErrors(json: Text, orig: nat)
    requires orig < |json| && json[orig] == Ch('"')
    ensures Strings.StringToken(json, orig).Err? ==>
            Strings.StringToken(json, orig).error in {IndexError, InvalidUnicode}
            || Strings.StringToken(json, orig).error.InvalidEscape?
  {
    ScanErrors(json, orig + 1, Strings.NoneSeen, []);
  }

  lemma {:induction false} ScanErrors(json: Text, i: nat, pb: Strings.Pairing, rem: seq<nat>)
    requires 0 < i <= |json|
    ensures Strings.ScanFrom(json, i, pb, rem).Err? ==>
            Strings.ScanFrom(json, i, pb, rem).error in {IndexError, InvalidUnicode}
            || Strings.ScanFrom(json, i, pb, rem).error.InvalidEscape?
    decreases |json| - i
  {
    if i < |json| {
      if json[i] == Ch('\\') && i + 1 < |json| {
        Strings.UnicodeCheckOk(json, i, 2);
        ScanErrors(json, i + 1, Strings.AfterBackslash(pb), if Strings.AfterBackslash(pb) != Strings.Paired then rem + [i] else rem);
      } else if json[i] != Ch('\\') {
        ScanErrors(json, i + 1, if json[i] == Ch('"') then pb else Strings.AfterOther(pb), rem);
      }
    }
  }

  /** The enclosure error is raised exactly for non-empty text that does not
      start and end with matching braces or brackets. */
  lemma EnclosureChecked(json: Text)
    ensures (Tokens(json).Err? && Tokens(json).error.BadEnclosure?) <==> (|json| > 0 && !Enclosed(json))
  {
    if |json| > 0 && Enclosed(json) {
      LexFromExtends(json, 0, []);
    }
  }

  /** The first token of a successful lex is the opening brace or bracket. */
  lemma FirstToken(json: Text)
    requires Tokens(json).Ok?
    ensures |json| > 0 && |Tokens(json).value| > 0
    ensures Tokens(json).value[0] == Punct(json[0])
    ensures json[0] == Ch('{') || json[0] == Ch('[')
  {
    assert Step(json, 0) == Ok((1, [Punct(json[0])]));
    assert [] + [Punct(json[0])] == [Punct(json[0])];
    LexFromExtends(json, 1, [Punct(json[0])]);
  }

  /** The structural characters of `s`, each as its own token, in order. */
  function Punctuation(s: Text): (ts: seq<Token>)
    ensures |ts| <= |s|
  {
    if s == [] then [] else (if IsStructural(s[0]) then [Punct(s[0])] else []) + Punctuation(s[1..])
  }

  /** Over text made of structural characters and whitespace, lex appends
      each structural character as a token of its own and nothing for the
      whitespace. */
  lemma {:induction false} PunctuationOnly(json: Text, i: nat, acc: seq<Token>)
    requires i <= |json|
    requires forall k :: i <= k < |json| ==> IsStructural(json[k]) || IsSpace(json[k])
    ensures LexFrom(json, i, acc) == Ok(acc + Punctuation(json[i..]))
    decreases |json| - i
  {
    if i == |json| {
      assert json[i..] == [] && Punctuation([]) == [];
      assert acc + [] == acc;
    } else {
      var ts := if IsStructural(json[i]) then [Punct(json[i])] else [];
      PunctStep(json, i, acc);
      assert LexFrom(json, i, acc) == LexFrom(json, i + 1, acc + ts);
      PunctuationOnly(json, i + 1, acc + ts);
      assert json[i..][1..] == json[i + 1..];
      assert Punctuation(json[i..]) == ts + Punctuation(json[i + 1..]);
      assert acc + ts + Punctuation(json[i + 1..]) == acc + (ts + Punctuation(json[i + 1..]));
    }
  }

  /** A structural character is one token; whitespace is none. */
  lemma PunctStep(json: Text, i: nat, acc: seq<Token>)
    requires i < |json| && (IsStructural(json[i]) || IsSpace(json[i]))
    ensures LexFrom(json, i, acc)
            == LexFrom(json, i + 1, acc + if IsStructural(json[i]) then [Punct(json[i])] else [])
  {
    var next: nat := i + 1;
    assert Step(json, i) == Ok((next, if IsStructural(json[i]) then [Punct(json[i])] else []));
  }

  /** At a letter lex reads a literal word and appends its token. */
  lemma LiteralStep(json: Text, i: nat, acc: seq<Token>)
    requires i < |json| && IsAlpha(json[i])
    ensures LiteralToken(json, i).Err? ==> LexFrom(json, i, acc) == Err(MissingQuotes)
    ensures LiteralToken(json, i).Ok? ==>
              LexFrom(json, i, acc) == LexFrom(json, LiteralToken(json, i).value.0, acc + [LiteralToken(json, i).value.1])
  {
    assert !IsStructural(json[i]) && json[i] != Ch('"');
  }

  /** `true`, `null` and `false` append True, None and False and move past
      the word; a word that is none of them raises. */
  lemma LiteralSteps(json: Text, i: nat, acc: seq<Token>)
    requires i < |json| && IsAlpha(json[i])
    ensures i + 4 <= |json| && json[i..i + 4] == T("true") ==> LexFrom(json, i, acc) == LexFrom(json, i + 4, acc + [Bool(true)])
    ensures i + 4 <= |json| && json[i..i + 4] == T("null") ==> LexFrom(json, i, acc) == LexFrom(json, i + 4, acc + [Null])
    ensures i + 5 <= |json| && json[i..i + 5] == T("false") ==> LexFrom(json, i, acc) == LexFrom(json, i + 5, acc + [Bool(false)])
    ensures LexFrom(json, i, acc).Ok? ==>
              (i + 4 <= |json| && (json[i..i + 4] == T("true") || json[i..i + 4] == T("null")))
              || (i + 5 <= |json| && json[i..i + 5] == T("false"))
  {
    LiteralStep(json, i, acc);
    if i + 5 <= |json| && json[i..i + 5] == T("false") {
      assert json[i] == json[i..i + 5][0] == Ch('f');
      assert i + 4 <= |json| ==> json[i..i + 4][0] == Ch('f');
    }
  }

  /** At a digit, or a '-' followed by a digit, lex appends the number that
      spans from `i` to where lex_num stops and moves there; the scan fails
      only at a '.' without a digit, or where `float()` refuses the slice
      (json_parser/json_parser.py:104-107). */
  lemma NumberStep(json: Text, i: nat, acc: seq<Token>)
    requires i < |json|
    requires IsDigit(json[i]) || (json[i] == Ch('-') && i + 1 < |json| && IsDigit(json[i + 1]))
    ensures ParseFuncs.NumEnd(json, i).Err? ==> LexFrom(json, i, acc) == Err(DecimalPointNoDigits)
    ensures ParseFuncs.NumEnd(json, i).Ok? ==>
              var e := ParseFuncs.NumEnd(json, i).value;
              LexFrom(json, i, acc)
              == if FloatAccepts(json[i..e]) then LexFrom(json, e, acc + [Num(json[i..e], NumValue(json[i..e]))])
                 else Err(FloatError)
  {
    assert !IsStructural(json[i]) && json[i] != Ch('"') && !IsAlpha(json[i]);
    assert IsDigit(ParseFuncs.At(json, ParseFuncs.SignSkipped(json, i)));
  }

  /** Any other character that is not whitespace raises, naming it; a '-'
      at the very end raises IndexError, as `json[i + 1]` reads past the end
      (json_parser/json_parser.py:104, 110-111). */
  lemma UnexpectedStep(json: Text, i: nat, acc: seq<Token>)
    requires i < |json|
    requires var c := json[i]; !IsStructural(c) && c != Ch('"') && !IsAlpha(c) && !IsDigit(c) && !IsSpace(c)
    ensures json[i] == Ch('-') && i + 1 == |json| ==> LexFrom(json, i, acc) == Err(IndexError)
    ensures json[i] != Ch('-') || (i + 1 < |json| && !IsDigit(json[i + 1])) ==>
              LexFrom(json, i, acc) == Err(UnexpectedChar(json[i]))
  {
  }
}

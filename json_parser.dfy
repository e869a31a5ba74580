/** `parse(json)` of the newer file (json_parser/json_parser.py:179-187):
    tokenize, then dispatch on the first token. */
module JsonParser {
  import opened Common
  import Lexer
  import Parser

  /** What `parse(json)` returns or raises: the parser's final index and the
      value. */
  function ParseText(json: Text): Result<(nat, Value)>
  {
    match Lexer.Tokens(json)
    case Err(e) => Err(e)
    case Ok(tokens) => Parser.Parse(tokens)
  }

  /** `parse(json)`, through the tokenizer's and the parser's loops. */
  method ParseJson(json: Text) returns (r: Result<(nat, Value)>)
    ensures r == ParseText(json)
  {
    var tokens := Lexer.Lex(json);
    if tokens.Err? {
      return Err(tokens.error);
    }
    r := Parser.ParseTokens(tokens.value);
  }

  /** The error for a first token that is neither '{' nor '[' is never
      raised: the tokenizer's enclosure check has already ruled it out. The
      value is a dict exactly when the text starts with '{'. */
  lemma RootFromEnclosure(json: Text)
    ensures ParseText(json) != Err(InvalidRoot)
    ensures ParseText(json).Ok? ==> (ParseText(json).value.1.VObj? <==> json[0] == Ch('{'))
    ensures ParseText(json).Ok? ==> (ParseText(json).value.1.VArr? <==> json[0] == Ch('['))
  {
    if Lexer.Tokens(json).Ok? {
      var tokens := Lexer.Tokens(json).value;
      Lexer.FirstToken(json);
      Parser.ObjLoopErrors(tokens, 1, map[], Parser.NoKey);
      Parser.ArrLoopErrors(tokens, 1, []);
    } else if |json| > 0 && Lexer.Enclosed(json) {
      Lexer.LexFromExtends(json, 0, []);
    }
  }
}

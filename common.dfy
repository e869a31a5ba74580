/** Vocabulary shared by the tokenizers and the parser: text as Unicode code
    points, the Python character classes the scanners test, failures, tokens,
    parsed values, and what Python's float() makes of a numeric lexeme. */
module Common {

  /** A Python `str` element. Python strings may hold lone surrogates (which
      `chr(int(hex, 16))` can produce), so text is a sequence of code points
      rather than of Dafny `char`s. */
  type CodePoint = int

  type Text = seq<CodePoint>

  function Ch(c: char): CodePoint { c as int }

  /** The code points of a Dafny string literal. */
  function T(s: string): (t: Text)
    ensures |t| == |s|
    ensures forall k :: 0 <= k < |s| ==> t[k] == s[k] as int
  {
    if s == [] then [] else [Ch(s[0])] + T(s[1..])
  }

  /** A failure: a Python exception, a failed Python `assert`, or a C
      `assert`/`exit(1)` in the number scanner. */
  datatype Error =
    | IndexError                              // a str or list index past its end
    | BadEnclosure(first: CodePoint, last: CodePoint)
    | InvalidEscape(after: CodePoint)         // backslash followed by a character outside " \ / b f n r t u
    | InvalidUnicode                          // \u not followed by four hex digits
    | MissingQuotes                           // alphabetic text that is not true, null or false
    | UnexpectedChar(c: CodePoint)
    | FloatError                              // float() refuses the scanned lexeme
    | LeadingZero                             // older scanner: 0 followed by something other than '.'
    | NumAssert                               // C: assert that a digit starts the number
    | DecimalPointNoDigits                    // C: exit(1), '.' not followed by a digit
    | EscapedEnd                              // C: exit(1), index past the buffer length
    | NotReturned                             // older next(): ran off the text and returned a ValueError object
    | AssertionFailed                         // Python assert in parse_obj
    | NoDelimiter                             // parse_array: scalar not followed by ',' or ']'
    | TrailingComma                           // parse_array: ',' right before ']'
    | UnterminatedArray                       // parse_array: ran out of tokens
    | InvalidRoot                             // parse: first token is neither '{' nor '['

  datatype Result<T> = Ok(value: T) | Err(error: Error)

  /** One token. `Punct` holds a structural character. In Python a structural
      token is the one-character string itself, so the parser treats
      `Punct(c)` and `Str([c])` alike (see Parser.Is). A number token is the
      float the tokenizer made of its lexeme: `number` is that float's value
      (NumValue of the lexeme) and the lexeme is kept for reading. */
  datatype Token =
    | Punct(c: CodePoint)
    | Str(text: Text)
    | Num(lexeme: Text, number: real)
    | Bool(b: bool)
    | Null

  /** A Python dict key as the parser can produce one. `True` hashes and
      compares like `1.0`, so a boolean key is a number key. */
  datatype Key = TextKey(text: Text) | NumKey(num: real) | NullKey

  /** The Python object the parser builds. A number keeps its lexeme. */
  datatype Value =
    | VNull
    | VBool(b: bool)
    | VNum(lexeme: Text)
    | VStr(text: Text)
    | VArr(items: seq<Value>)
    | VObj(members: map<Key, Value>)

  // ---------------------------------------------------------------------
  // Character classes

  /** `c.isdigit()`, on ASCII. */
  predicate IsDigit(c: CodePoint) { Ch('0') <= c <= Ch('9') }

  /** `c.isalpha()`, on ASCII. */
  predicate IsAlpha(c: CodePoint) { Ch('a') <= c <= Ch('z') || Ch('A') <= c <= Ch('Z') }

  /** `c.strip() == ""`: the characters Python's `str.isspace` accepts. */
  predicate IsSpace(c: CodePoint)
  {
    (0x09 <= c <= 0x0D) || (0x1C <= c <= 0x20) || c == 0x85 || c == 0xA0 || c == 0x1680
    || (0x2000 <= c <= 0x200A) || c == 0x2028 || c == 0x2029 || c == 0x202F || c == 0x205F
    || c == 0x3000
  }

  /** `c.lower() in 'abcdef0123456789'`. */
  predicate IsHex(c: CodePoint) { IsDigit(c) || Ch('a') <= c <= Ch('f') || Ch('A') <= c <= Ch('F') }

  /** `c in "[]{}:,"`. */
  predicate IsStructural(c: CodePoint)
  {
    c == Ch('[') || c == Ch(']') || c == Ch('{') || c == Ch('}') || c == Ch(':') || c == Ch(',')
  }

  /** `c in '"\\/bfnrtu'`. */
  predicate IsEscapeLetter(c: CodePoint)
  {
    c == Ch('"') || c == Ch('\\') || c == Ch('/') || c == Ch('b') || c == Ch('f')
    || c == Ch('n') || c == Ch('r') || c == Ch('t') || c == Ch('u')
  }

  /** `c in "bfnrt"`: the escape letters that name a control character. */
  predicate IsControlLetter(c: CodePoint)
  {
    c == Ch('b') || c == Ch('f') || c == Ch('n') || c == Ch('r') || c == Ch('t')
  }

  predicate IsExpMarker(c: CodePoint) { c == Ch('e') || c == Ch('E') }

  predicate IsSign(c: CodePoint) { c == Ch('+') || c == Ch('-') }

  // ---------------------------------------------------------------------
  // Digit runs and numeric lexemes

  /** The first index at or after `k` that does not hold a digit. */
  function DigitRun(t: Text, k: nat): (e: nat)
    requires k <= |t|
    ensures k <= e <= |t|
    ensures e < |t| ==> !IsDigit(t[e])
    ensures k < e ==> IsDigit(t[k])
    decreases |t| - k
  {
    if k < |t| && IsDigit(t[k]) then DigitRun(t, k + 1) else k
  }

  lemma {:induction false} DigitRunDigits(t: Text, k: nat, m: nat)
    requires k <= |t| && k <= m < DigitRun(t, k)
    ensures IsDigit(t[m])
    decreases m - k
  {
    if k < m {
      DigitRunDigits(t, k + 1, m);
    }
  }

  function HexDigit(c: CodePoint): (v: nat)
    ensures v < 16
  {
    if IsDigit(c) then c - Ch('0')
    else if Ch('a') <= c <= Ch('f') then c - Ch('a') + 10
    else if Ch('A') <= c <= Ch('F') then c - Ch('A') + 10
    else 0
  }

  /** `int(h, 16)` for a string of hex digits. */
  function HexValue(h: Text): nat
  {
    if h == [] then 0 else HexValue(h[..|h| - 1]) * 16 + HexDigit(h[|h| - 1])
  }

  function Pow(b: nat, n: nat): (p: nat)
    ensures b > 0 ==> p > 0
  {
    if n == 0 then 1 else b * Pow(b, n - 1)
  }

  function DecimalValue(d: Text): nat
  {
    if d == [] then 0
    else DecimalValue(d[..|d| - 1]) * 10 + (if IsDigit(d[|d| - 1]) then d[|d| - 1] - Ch('0') else 0)
  }

  /** The parts of a numeric lexeme as float() reads it: an optional sign,
      integer digits up to IntEnd, an optional '.' and fraction digits up to
      FracEnd, then the exponent. */
  function SignLen(t: Text): (n: nat)
    ensures n <= |t|
  {
    if 0 < |t| && IsSign(t[0]) then 1 else 0
  }

  function IntEnd(t: Text): (b: nat)
    ensures SignLen(t) <= b <= |t|
  {
    DigitRun(t, SignLen(t))
  }

  predicate HasPoint(t: Text) { IntEnd(t) < |t| && t[IntEnd(t)] == Ch('.') }

  function FracEnd(t: Text): (c: nat)
    ensures IntEnd(t) <= c <= |t|
    ensures HasPoint(t) ==> IntEnd(t) < c
  {
    if HasPoint(t) then DigitRun(t, IntEnd(t) + 1) else IntEnd(t)
  }

  /** Where the exponent digits start, for an exponent marker at `c`. */
  function ExpDigitsStart(t: Text, c: nat): nat
    requires c < |t|
  {
    if c + 1 < |t| && IsSign(t[c + 1]) then c + 2 else c + 1
  }

  /** The text from `c` on is empty or a complete exponent. */
  predicate ExponentOk(t: Text, c: nat)
    requires c <= |t|
  {
    c == |t|
    || (IsExpMarker(t[c]) && ExpDigitsStart(t, c) < |t| && DigitRun(t, ExpDigitsStart(t, c)) == |t|)
  }

  /** Does Python's `float()` accept `t`? Only the decimal forms are
      considered (optional sign; digits with an optional fraction, at least
      one digit in all; an optional exponent with at least one digit): the
      scanners never hand float() text with whitespace, underscores or letters
      other than an exponent marker. */
  predicate FloatAccepts(t: Text)
  {
    var mantissaDigits := (IntEnd(t) - SignLen(t)) + (if HasPoint(t) then FracEnd(t) - IntEnd(t) - 1 else 0);
    mantissaDigits > 0 && ExponentOk(t, FracEnd(t))
  }

  /** The exact decimal value of a numeric lexeme (no IEEE rounding). It decides
      how the parser compares a number with True, False and dict keys. */
  function NumValue(t: Text): real
  {
    var neg := 0 < |t| && t[0] == Ch('-');
    var frac := if HasPoint(t) then t[IntEnd(t) + 1..FracEnd(t)] else [];
    var m := DecimalValue(t[SignLen(t)..IntEnd(t)] + frac) as real;
    var c := FracEnd(t);
    var exp: int :=
      if c < |t| && IsExpMarker(t[c]) then
        var d := ExpDigitsStart(t, c);
        var v: int := DecimalValue(t[d..DigitRun(t, d)]);
        if c + 1 < |t| && t[c + 1] == Ch('-') then -v else v
      else 0;
    var scale := exp - |frac|;
    var magnitude := if scale >= 0 then m * Pow(10, scale) as real else m / Pow(10, -scale) as real;
    if neg then -magnitude else magnitude
  }
}

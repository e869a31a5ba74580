/** The string-literal part of the newer tokenizer's `lex`
    (json_parser/json_parser.py:29-90): the scan for the closing quote with
    its backslash-pairing state, escape validation, and the in-place removal
    of escapes in reverse position order. */
module Strings {
  import opened Common

  /** `paired_backslash`: None before any backslash; False right after a
      backslash that opens an escape; True once that escape has had its next
      character, and right after the second backslash of a `\\` pair. */
  datatype Pairing = NoneSeen | Unpaired | Paired

  /** The update at a backslash: None becomes False, then `^= True` toggles. */
  function AfterBackslash(pb: Pairing): Pairing
  {
    match pb
    case NoneSeen => Unpaired
    case Unpaired => Paired
    case Paired => Unpaired
  }

  /** The update at any other character: `elif paired_backslash is False`. */
  function AfterOther(pb: Pairing): Pairing
  {
    if pb == Unpaired then Paired else pb
  }

  /** The check of `json[i + j]` for j in 2..5 after a backslash at `i`
      followed by 'u', from `j` on. */
  function UnicodeCheck(json: Text, i: nat, j: nat): (r: Result<()>)
    requires 2 <= j <= 6
    decreases 6 - j
  {
    if j == 6 then Ok(())
    else if i + j >= |json| then Err(IndexError)
    else if !IsHex(json[i + j]) then Err(InvalidUnicode)
    else UnicodeCheck(json, i, j + 1)
  }

  /** A `\u` escape passes exactly when four hex digits, of either case,
      follow the 'u'. */
  lemma {:induction false} UnicodeCheckOk(json: Text, i: nat, j: nat)
    requires 2 <= j <= 6
    ensures UnicodeCheck(json, i, j).Ok? <==>
            j == 6 || (i + 6 <= |json| && forall m :: i + j <= m < i + 6 ==> IsHex(json[m]))
    ensures UnicodeCheck(json, i, j).Err? ==> UnicodeCheck(json, i, j).error in {IndexError, InvalidUnicode}
    decreases 6 - j
  {
    if j < 6 {
      UnicodeCheckOk(json, i, j + 1);
      if i + 6 <= |json| && IsHex(json[i + j]) && UnicodeCheck(json, i, j + 1).Ok? {
        forall m | i + j <= m < i + 6
          ensures IsHex(json[m])
        {
          if m > i + j {
            assert i + (j + 1) <= m;
          }
        }
      }
    }
  }

  /** The scan of a string body from `i`, in state `pb`, having recorded the
      escape-opening backslashes `rem` (`remove_indexes`). It yields the index
      of the closing quote and the recorded backslashes. */
  function ScanFrom(json: Text, i: nat, pb: Pairing, rem: seq<nat>): (r: Result<(nat, seq<nat>)>)
    requires 0 < i <= |json|
    ensures r.Ok? ==> i <= r.value.0 < |json| && json[r.value.0] == Ch('"')
    decreases |json| - i
  {
    if i == |json| then Err(IndexError)
    else if json[i] == Ch('"') then
      if json[i - 1] != Ch('\\') || pb == Paired then Ok((i, rem))
      else ScanFrom(json, i + 1, pb, rem)
    else if json[i] == Ch('\\') then
      var pb' := AfterBackslash(pb);
      if i + 1 == |json| then Err(IndexError)
      else if !IsEscapeLetter(json[i + 1]) && pb' != Paired then Err(InvalidEscape(json[i + 1]))
      else if json[i + 1] == Ch('u') && UnicodeCheck(json, i, 2).Err? then Err(UnicodeCheck(json, i, 2).error)
      else ScanFrom(json, i + 1, pb', if pb' != Paired then rem + [i] else rem)
    else ScanFrom(json, i + 1, AfterOther(pb), rem)
  }

  // ---------------------------------------------------------------------
  // Escapes and their decoding

  /** A backslash at `r` that opens a well-formed escape. */
  predicate ValidEscapeAt(json: Text, r: nat)
  {
    r + 1 < |json| && json[r] == Ch('\\') && IsEscapeLetter(json[r + 1])
    && (json[r + 1] == Ch('u') ==> r + 5 < |json| && HexDigitsAt(json, r + 2))
  }

  /** Four hex digits at `k`. */
  predicate HexDigitsAt(json: Text, k: nat)
    requires k + 4 <= |json|
  {
    IsHex(json[k]) && IsHex(json[k + 1]) && IsHex(json[k + 2]) && IsHex(json[k + 3])
  }

  /** How many characters of the text an escape occupies. */
  function EscLen(json: Text, r: nat): nat
    requires r + 1 < |json|
  {
    if json[r + 1] == Ch('u') then 6 else 2
  }

  /** The character an escape stands for. */
  function EscChar(json: Text, r: nat): CodePoint
    requires ValidEscapeAt(json, r)
  {
    var c := json[r + 1];
    if c == Ch('b') then 0x08
    else if c == Ch('f') then 0x0C
    else if c == Ch('n') then 0x0A
    else if c == Ch('r') then 0x0D
    else if c == Ch('t') then 0x09
    else if c == Ch('u') then HexValue(json[r + 2..r + 6])
    else c     // '"', '/' and '\\' stand for themselves
  }

  /** `rem` lists well-formed escapes that end by `hi`, in increasing
      order, none overlapping the next one. */
  predicate Escapes(json: Text, hi: nat, rem: seq<nat>)
  {
    hi <= |json|
    && (forall m :: 0 <= m < |rem| ==> ValidEscapeAt(json, rem[m]) && rem[m] + EscLen(json, rem[m]) <= hi)
    && (forall m, m' :: 0 <= m < m' < |rem| ==> rem[m] + EscLen(json, rem[m]) <= rem[m'])
  }

  /** Where the undecoded text before `rem[j..]` ends: at its first escape,
      or at `hi`. */
  function NextEscape(hi: nat, rem: seq<nat>, j: nat): nat
  {
    if j < |rem| then rem[j] else hi
  }

  /** `rem` lists the well-formed escapes of a body `json[lo..hi]`. */
  predicate EscapesIn(json: Text, lo: nat, hi: nat, rem: seq<nat>)
  {
    Escapes(json, hi, rem) && lo <= NextEscape(hi, rem, 0)
  }

  /** The decoded text of `json[k..hi]` with the escapes `rem[j..]`, built
      left to right: the raw text before the next escape is copied, and
      every escape is replaced by the character it stands for. */
  function Forward(json: Text, k: nat, hi: nat, rem: seq<nat>, j: nat): Text
    requires Escapes(json, hi, rem) && j <= |rem| && k <= NextEscape(hi, rem, j)
    decreases |rem| - j, NextEscape(hi, rem, j) - k
  {
    if j == |rem| then json[k..hi]
    else if k < rem[j] then json[k..rem[j]] + Forward(json, rem[j], hi, rem, j)
    else [EscChar(json, rem[j])] + Forward(json, rem[j] + EscLen(json, rem[j]), hi, rem, j + 1)
  }

  /** The escapes from the `j`-th on start no earlier than the `j`-th. */
  lemma NextEscapeOrdered(json: Text, hi: nat, rem: seq<nat>, j: nat, m: nat)
    requires Escapes(json, hi, rem) && j <= m <= |rem|
    ensures NextEscape(hi, rem, j) <= NextEscape(hi, rem, m) <= hi
  {
  }

  /** A well-formed escape past the end of a list extends it. */
  lemma EscapesAppend(json: Text, hi: nat, rem: seq<nat>, r: nat)
    requires Escapes(json, hi, rem) && hi <= r && ValidEscapeAt(json, r)
    ensures Escapes(json, r + EscLen(json, r), rem + [r])
    ensures NextEscape(r + EscLen(json, r), rem + [r], 0) == NextEscape(r, rem, 0)
  {
    var rs := rem + [r];
    assert forall m :: 0 <= m < |rem| ==> rs[m] == rem[m];
    assert rs[|rem|] == r;
  }

  // ---------------------------------------------------------------------
  // The scan keeps its recorded escapes well formed

  /** Where the last recorded escape ends. */
  function EscapesEnd(json: Text, lo: nat, rem: seq<nat>): nat
    requires rem != [] ==> rem[|rem| - 1] + 1 < |json|
  {
    if rem == [] then lo else rem[|rem| - 1] + EscLen(json, rem[|rem| - 1])
  }

  /** What holds of the scan state at every step after the opening quote
      at `lo - 1`: the recorded escapes are well formed, and the last one is
      finished, or its character after the backslash comes next, or its hex
      digits are being passed. */
  predicate ScanInv(json: Text, lo: nat, i: nat, pb: Pairing, rem: seq<nat>)
  {
    0 < lo <= i <= |json|
    && (pb == NoneSeen ==> rem == [])
    && (pb == Unpaired ==>
          rem != [] && (i == rem[|rem| - 1] + 1 || (i == rem[|rem| - 1] + 2 && json[i - 1] == Ch('"'))))
    && (rem != [] ==> rem[|rem| - 1] + 1 < |json|)
    && EscapesIn(json, lo, EscapesEnd(json, lo, rem), rem)
    && (rem != [] ==>
          var last := rem[|rem| - 1];
          last + EscLen(json, last) <= i
          || pb == Unpaired
          || (json[last + 1] == Ch('u') && last + 2 <= i < last + 6 && pb == Paired))
  }

  /** The backslashes a successful scan records are well-formed,
      non-overlapping escapes that end before the closing quote. */
  lemma {:induction false} ScanEscapes(json: Text, lo: nat, i: nat, pb: Pairing, rem: seq<nat>)
    requires ScanInv(json, lo, i, pb, rem)
    ensures ScanFrom(json, i, pb, rem).Ok? ==>
            EscapesIn(json, lo, ScanFrom(json, i, pb, rem).value.0, ScanFrom(json, i, pb, rem).value.1)
    decreases |json| - i, 1
  {
    if i == |json| {
    } else if json[i] == Ch('"') {
      if json[i - 1] != Ch('\\') || pb == Paired {
        ScanStopsAfterLast(json, lo, i, pb, rem);
      } else {
        ScanQuoteStep(json, lo, i, pb, rem);
        ScanEscapes(json, lo, i + 1, pb, rem);
      }
    } else if json[i] == Ch('\\') {
      ScanEscapesBackslash(json, lo, i, pb, rem);
    } else {
      ScanOtherStep(json, lo, i, pb, rem);
      ScanEscapes(json, lo, i + 1, AfterOther(pb), rem);
    }
  }

  /** ScanEscapes, at a backslash. */
  lemma {:induction false} ScanEscapesBackslash(json: Text, lo: nat, i: nat, pb: Pairing, rem: seq<nat>)
    requires ScanInv(json, lo, i, pb, rem) && i < |json| && json[i] == Ch('\\')
    ensures ScanFrom(json, i, pb, rem).Ok? ==>
            EscapesIn(json, lo, ScanFrom(json, i, pb, rem).value.0, ScanFrom(json, i, pb, rem).value.1)
    decreases |json| - i, 0
  {
    if i + 1 < |json| && pb == Unpaired {
      ScanBackslashCloses(json, lo, i, pb, rem);
      ScanEscapes(json, lo, i + 1, Paired, rem);
    } else if i + 1 < |json| && IsEscapeLetter(json[i + 1])
              && !(json[i + 1] == Ch('u') && UnicodeCheck(json, i, 2).Err?) {
      if json[i + 1] == Ch('u') {
        UnicodeHex(json, i);
      }
      ScanBackslashOpens(json, lo, i, pb, rem);
      ScanEscapes(json, lo, i + 1, Unpaired, rem + [i]);
    }
  }

  /** A `\\u` escape that passes the check has its four hex digits. */
  lemma UnicodeHex(json: Text, i: nat)
    requires UnicodeCheck(json, i, 2).Ok?
    ensures i + 5 < |json| && HexDigitsAt(json, i + 2)
  {
    UnicodeCheckOk(json, i, 2);
    assert IsHex(json[i + 2]) && IsHex(json[i + 3]) && IsHex(json[i + 4]) && IsHex(json[i + 5]);
  }

  /** The hex digits of a `\\u` escape are neither quotes nor backslashes. */
  lemma HexNotPlain(json: Text, r: nat, i: nat)
    requires ValidEscapeAt(json, r) && i < |json|
    ensures json[r + 1] == Ch('u') && r + 2 <= i < r + 6 ==> json[i] != Ch('"') && json[i] != Ch('\\')
  {
    if json[r + 1] == Ch('u') && r + 2 <= i < r + 6 {
      assert i == r + 2 || i == r + 3 || i == r + 4 || i == r + 5;
    }
  }

  /** The last recorded escape is finished when the scan meets a quote or a
      backslash that does not directly follow an opening backslash. */
  lemma LastFinished(json: Text, lo: nat, i: nat, pb: Pairing, rem: seq<nat>)
    requires ScanInv(json, lo, i, pb, rem) && i < |json|
    requires json[i] == Ch('"') || json[i] == Ch('\\')
    requires pb != Unpaired || json[i - 1] != Ch('\\')
    ensures EscapesEnd(json, lo, rem) <= i
  {
    if rem != [] {
      var last := rem[|rem| - 1];
      HexNotPlain(json, last, i);
    }
  }

  lemma ScanStopsAfterLast(json: Text, lo: nat, i: nat, pb: Pairing, rem: seq<nat>)
    requires ScanInv(json, lo, i, pb, rem) && i < |json| && json[i] == Ch('"')
    requires json[i - 1] != Ch('\\') || pb == Paired
    ensures EscapesIn(json, lo, i, rem)
  {
    LastFinished(json, lo, i, pb, rem);
  }

  lemma ScanQuoteStep(json: Text, lo: nat, i: nat, pb: Pairing, rem: seq<nat>)
    requires ScanInv(json, lo, i, pb, rem) && i < |json| && json[i] == Ch('"')
    requires json[i - 1] == Ch('\\') && pb != Paired
    ensures ScanInv(json, lo, i + 1, pb, rem)
  {
  }

  /** A backslash right after an opening one completes its escape. */
  lemma ScanBackslashCloses(json: Text, lo: nat, i: nat, pb: Pairing, rem: seq<nat>)
    requires ScanInv(json, lo, i, pb, rem) && i + 1 < |json| && json[i] == Ch('\\') && pb == Unpaired
    ensures ScanInv(json, lo, i + 1, Paired, rem)
  {
  }

  /** Any other backslash opens an escape, which must be well formed. */
  lemma ScanBackslashOpens(json: Text, lo: nat, i: nat, pb: Pairing, rem: seq<nat>)
    requires ScanInv(json, lo, i, pb, rem) && i + 1 < |json| && json[i] == Ch('\\') && pb != Unpaired
    requires IsEscapeLetter(json[i + 1])
    requires json[i + 1] == Ch('u') ==> i + 5 < |json| && HexDigitsAt(json, i + 2)
    ensures ScanInv(json, lo, i + 1, Unpaired, rem + [i])
  {
    LastFinished(json, lo, i, pb, rem);
    assert ValidEscapeAt(json, i);
    EscapesAppend(json, EscapesEnd(json, lo, rem), rem, i);
    assert (rem + [i])[|rem + [i]| - 1] == i;
  }

  lemma ScanOtherStep(json: Text, lo: nat, i: nat, pb: Pairing, rem: seq<nat>)
    requires ScanInv(json, lo, i, pb, rem) && i < |json|
    requires json[i] != Ch('"') && json[i] != Ch('\\')
    ensures ScanInv(json, lo, i + 1, AfterOther(pb), rem)
  {
  }

  /** A backslash that opens an escape (any state but right after an
      opening backslash) followed by a character outside `"\/bfnrtu`
      raises (json_parser/json_parser.py:43-45). */
  lemma InvalidEscapeRaises(json: Text, i: nat, pb: Pairing, rem: seq<nat>)
    requires 0 < i && i + 1 < |json| && json[i] == Ch('\\') && pb != Unpaired
    requires !IsEscapeLetter(json[i + 1])
    ensures ScanFrom(json, i, pb, rem) == Err(InvalidEscape(json[i + 1]))
  {
  }

  /** A backslash followed by 'u' and then not by four hex digits raises,
      in every pairing state (json_parser/json_parser.py:46-50). */
  lemma BadUnicodeRaises(json: Text, i: nat, pb: Pairing, rem: seq<nat>)
    requires 0 < i && i + 1 < |json| && json[i] == Ch('\\') && json[i + 1] == Ch('u')
    requires !(i + 6 <= |json| && HexDigitsAt(json, i + 2))
    ensures ScanFrom(json, i, pb, rem).Err? && ScanFrom(json, i, pb, rem).error in {IndexError, InvalidUnicode}
    ensures i + 6 <= |json| ==> ScanFrom(json, i, pb, rem) == Err(InvalidUnicode)
  {
    UnicodeCheckOk(json, i, 2);
    assert UnicodeCheck(json, i, 2).Err?;
    if i + 6 <= |json| {
      UnicodeCheckInRange(json, i, 2);
    }
  }

  /** With all four characters inside the text, the `\u` check can only
      fail on a character that is not a hex digit. */
  lemma {:induction false} UnicodeCheckInRange(json: Text, i: nat, j: nat)
    requires 2 <= j <= 6 && i + 6 <= |json|
    ensures UnicodeCheck(json, i, j).Err? ==> UnicodeCheck(json, i, j).error == InvalidUnicode
    decreases 6 - j
  {
    if j < 6 && IsHex(json[i + j]) {
      UnicodeCheckInRange(json, i, j + 1);
    }
  }

  /** The scan only appends to `remove_indexes`. */
  lemma {:induction false} ScanGrows(json: Text, i: nat, pb: Pairing, rem: seq<nat>)
    requires 0 < i <= |json| && ScanFrom(json, i, pb, rem).Ok?
    ensures rem <= ScanFrom(json, i, pb, rem).value.1
    decreases |json| - i
  {
    if json[i] == Ch('"') {
      if json[i - 1] == Ch('\\') && pb != Paired {
        ScanGrows(json, i + 1, pb, rem);
      }
    } else if json[i] == Ch('\\') {
      var pb' := AfterBackslash(pb);
      var rem' := if pb' != Paired then rem + [i] else rem;
      ScanGrows(json, i + 1, pb', rem');
    } else {
      ScanGrows(json, i + 1, AfterOther(pb), rem);
    }
  }

  /** Over a whole successful scan: a backslash in the body that follows
      neither a backslash nor a quote opens an escape, so it is followed by
      an escape letter and is recorded for removal (json_parser/json_parser.py:38-52). */
  lemma {:induction false} ScanRecordsOpening(json: Text, i: nat, pb: Pairing, rem: seq<nat>, k: nat)
    requires 0 < i <= |json| && ScanFrom(json, i, pb, rem).Ok?
    requires i <= k < ScanFrom(json, i, pb, rem).value.0 && json[k] == Ch('\\')
    requires if k == i then pb != Unpaired else json[k - 1] != Ch('\\') && json[k - 1] != Ch('"')
    ensures k + 1 < |json| && IsEscapeLetter(json[k + 1]) && k in ScanFrom(json, i, pb, rem).value.1
    decreases |json| - i
  {
    var out := ScanFrom(json, i, pb, rem).value.1;
    if k == i {
      var pb' := AfterBackslash(pb);
      assert pb' != Paired;
      assert ScanFrom(json, i, pb, rem) == ScanFrom(json, i + 1, pb', rem + [i]);
      ScanGrows(json, i + 1, pb', rem + [i]);
      assert (rem + [i])[|rem|] == i;
    } else if json[i] == Ch('"') {
      assert ScanFrom(json, i, pb, rem) == ScanFrom(json, i + 1, pb, rem);
      ScanRecordsOpening(json, i + 1, pb, rem, k);
    } else if json[i] == Ch('\\') {
      var pb' := AfterBackslash(pb);
      var rem' := if pb' != Paired then rem + [i] else rem;
      assert ScanFrom(json, i, pb, rem) == ScanFrom(json, i + 1, pb', rem');
      assert k > i + 1;
      ScanRecordsOpening(json, i + 1, pb', rem', k);
    } else {
      assert ScanFrom(json, i, pb, rem) == ScanFrom(json, i + 1, AfterOther(pb), rem);
      ScanRecordsOpening(json, i + 1, AfterOther(pb), rem, k);
    }
  }

  // ---------------------------------------------------------------------
  // The string token

  /** The check of the four characters after `\u` at `i`
      (json_parser/json_parser.py:46-50). */
  method CheckUnicode(json: Text, i: nat) returns (r: Result<()>)
    ensures r == UnicodeCheck(json, i, 2)
  {
    for j := 2 to 6
      invariant UnicodeCheck(json, i, j) == UnicodeCheck(json, i, 2)
    {
      if i + j >= |json| {
        return Err(IndexError);
      }
      if !IsHex(json[i + j]) {
        return Err(InvalidUnicode);
      }
    }
    return Ok(());
  }

  /** The string token that starts with the quote at `orig`: the index of
      its closing quote and its decoded text. */
  function StringToken(json: Text, orig: nat): (r: Result<(nat, Text)>)
    requires orig < |json| && json[orig] == Ch('"')
    ensures r.Ok? ==> orig < r.value.0 < |json| && json[r.value.0] == Ch('"')
  {
    match ScanFrom(json, orig + 1, NoneSeen, [])
    case Err(e) => Err(e)
    case Ok((hi, rem)) =>
      ScanEscapes(json, orig + 1, orig + 1, NoneSeen, []);
      Ok((hi, Forward(json, orig + 1, hi, rem, 0)))
  }

  /** The scan of json_parser/json_parser.py:31-58: `while True` around
      `while json[i] != '"'`, ending at a quote not escaped by an opening
      backslash. */
  method LexString(json: Text, orig: nat) returns (r: Result<(nat, Text)>)
    requires orig < |json| && json[orig] == Ch('"')
    ensures r == StringToken(json, orig)
  {
    var pb := NoneSeen;
    var rem: seq<nat> := [];
    var i := orig + 1;
    ScanEscapes(json, orig + 1, orig + 1, NoneSeen, []);
    while true
      invariant orig < i <= |json|
      invariant ScanFrom(json, i, pb, rem) == ScanFrom(json, orig + 1, NoneSeen, [])
      decreases |json| - i
    {
      while i < |json| && json[i] != Ch('"')
        invariant orig < i <= |json|
        invariant ScanFrom(json, i, pb, rem) == ScanFrom(json, orig + 1, NoneSeen, [])
        decreases |json| - i
      {
        if json[i] == Ch('\\') {
          pb := AfterBackslash(pb);
          if i + 1 == |json| {
            return Err(IndexError);
          }
          if !IsEscapeLetter(json[i + 1]) && pb != Paired {
            return Err(InvalidEscape(json[i + 1]));
          }
          if json[i + 1] == Ch('u') {
            var u := CheckUnicode(json, i);
            if u.Err? {
              return Err(u.error);
            }
          }
          if pb != Paired {
            rem := rem + [i];
          }
        } else if pb == Unpaired {
          pb := Paired;
        }
        i := i + 1;
      }
      if i == |json| {
        return Err(IndexError);
      }
      if json[i - 1] != Ch('\\') || pb == Paired {
        var text := Unescape(json, orig + 1, i, rem);
        return Ok((i, text));
      }
      i := i + 1;
    }
  }

  /** json_parser/json_parser.py:59-85: the raw body as a list, edited in
      place for each recorded escape, last one first, so that the offsets of
      the ones before it stay valid. */
  method Unescape(json: Text, lo: nat, hi: nat, rem: seq<nat>) returns (token: Text)
    requires EscapesIn(json, lo, hi, rem)
    ensures token == Forward(json, lo, hi, rem, 0)
  {
    NextEscapeOrdered(json, hi, rem, 0, |rem|);
    token := json[lo..hi];
    var k := |rem|;
    while k > 0
      invariant 0 <= k <= |rem| && lo <= NextEscape(hi, rem, k)
      invariant token == Forward(json, lo, hi, rem, k)
    {
      var idx := rem[k - 1];
      EscapeBefore(json, lo, hi, rem, k);
      var adj := idx - lo;
      RawAround(json, lo, hi, rem, k, token, idx, adj);
      var t := UndoEscape(json, idx, token, adj);
      EditEscape(json, lo, hi, rem, k, token, t, idx, adj);
      token, k := t, k - 1;
    }
  }

  /** The escape at `r` stands raw in `token` at offset `a`. */
  predicate RawEscapeAt(json: Text, r: nat, token: Text, a: nat)
    requires r + 1 < |json|
  {
    a + EscLen(json, r) <= |token| && r + EscLen(json, r) <= |json|
    && token[a..a + EscLen(json, r)] == json[r..r + EscLen(json, r)]
  }

  /** The edit for one escape whose backslash is at `adj` in the token. */
  method UndoEscape(json: Text, idx: nat, token: Text, adj: nat) returns (t: Text)
    requires ValidEscapeAt(json, idx) && RawEscapeAt(json, idx, token, adj)
    ensures t == token[..adj] + [EscChar(json, idx)] + token[adj + EscLen(json, idx)..]
  {
    ghost var esc := token[adj..adj + EscLen(json, idx)];
    if json[idx + 1] == Ch('"') || json[idx + 1] == Ch('/') || json[idx + 1] == Ch('\\') {
      t := token[..adj] + token[adj + 1..];                            // del token[adj]
      assert esc[1] == json[idx + 1];
      DeleteBackslash(token, adj);
    } else if json[idx + 1] == Ch('u') {
      var hexDigits := token[adj + 2..adj + 6];
      assert hexDigits == esc[2..6] == json[idx + 2..idx + 6];
      t := token[adj := HexValue(hexDigits)];
      t := t[..adj + 1] + t[adj + 6..];                                // del token[adj + 1:adj + 6]
      ReplaceSix(token, adj, HexValue(hexDigits));
    } else {
      t := token[adj + 1 := EscChar(json, idx)];                       // the control character
      t := t[..adj] + t[adj + 1..];                                    // then del token[adj]
      ReplacePair(token, adj, EscChar(json, idx));
    }
  }

  /** In a token made of the raw text `json[lo..b]` and then `rest`: the raw
      text `json[m..n]` stands at offset `a` up to `c`, after `json[lo..m]`
      and before `f`. */
  lemma RawPrefix(json: Text, lo: nat, b: nat, rest: Text, t: Text, m: nat, n: nat, a: nat, c: nat, f: Text)
    requires lo <= m <= n <= b <= |json| && a == m - lo && c == n - lo
    requires t == json[lo..b] + rest
    requires f == if n < b then json[n..b] + rest else rest
    ensures c <= |t|
    ensures t[..a] == json[lo..m] && t[a..c] == json[m..n] && t[c..] == f
  {
    assert t[..b - lo] == json[lo..b];
    var mid, raw := t[a..c], json[m..n];
    forall x | 0 <= x < n - m
      ensures mid[x] == raw[x]
    {
      assert t[a + x] == json[lo..b][a + x];
    }
  }

  lemma DeleteBackslash(t: Text, a: nat)
    requires a + 1 < |t|
    ensures t[..a] + t[a + 1..] == t[..a] + [t[a + 1]] + t[a + 2..]
  {
    assert t[a + 1..] == [t[a + 1]] + t[a + 2..];
  }

  lemma ReplacePair(t: Text, a: nat, c: CodePoint)
    requires a + 1 < |t|
    ensures var u := t[a + 1 := c]; u[..a] + u[a + 1..] == t[..a] + [c] + t[a + 2..]
  {
    var u := t[a + 1 := c];
    assert u[a + 1..] == [c] + t[a + 2..];
  }

  lemma ReplaceSix(t: Text, a: nat, c: CodePoint)
    requires a + 6 <= |t|
    ensures var u := t[a := c]; u[..a + 1] + u[a + 6..] == t[..a] + [c] + t[a + 6..]
  {
    var u := t[a := c];
    assert u[..a + 1] == t[..a] + [c];
  }

  /** The `k - 1`-th escape of a well-formed list: where it lies. */
  lemma EscapeBefore(json: Text, lo: nat, hi: nat, rem: seq<nat>, k: nat)
    requires EscapesIn(json, lo, hi, rem) && 0 < k <= |rem|
    ensures ValidEscapeAt(json, rem[k - 1]) && lo <= rem[k - 1]
    ensures rem[k - 1] + EscLen(json, rem[k - 1]) <= NextEscape(hi, rem, k) <= hi
  {
    NextEscapeOrdered(json, hi, rem, 0, k - 1);
  }

  /** While the escapes from the `k`-th on are edited, the `k - 1`-th, at
      `r`, still stands raw in the token at offset `a`, after the raw text
      before it and before the decoded text from its end. */
  lemma RawAround(json: Text, lo: nat, hi: nat, rem: seq<nat>, k: nat, token: Text, r: nat, a: nat)
    requires Escapes(json, hi, rem) && 0 < k <= |rem| && r == rem[k - 1] && a == r - lo
    requires ValidEscapeAt(json, r) && r + EscLen(json, r) <= NextEscape(hi, rem, k)
    requires token == Forward(json, lo, hi, rem, k)
    ensures RawEscapeAt(json, r, token, a)
    ensures token[..a] == json[lo..r]
    ensures token[a + EscLen(json, r)..] == Forward(json, r + EscLen(json, r), hi, rem, k)
  {
    ForwardRaw(json, lo, hi, rem, k);
    ForwardRaw(json, r + EscLen(json, r), hi, rem, k);
    RawPrefix(json, lo, NextEscape(hi, rem, k), Tail(json, hi, rem, k), token, r, r + EscLen(json, r), a, a + EscLen(json, r),
              Forward(json, r + EscLen(json, r), hi, rem, k));
  }

  /** Editing the `k - 1`-th escape, at `r`, in place of its raw text at
      offset `a` turns the token for `k` into the one for `k - 1`. */
  lemma EditEscape(json: Text, lo: nat, hi: nat, rem: seq<nat>, k: nat, token: Text, t: Text, r: nat, a: nat)
    requires Escapes(json, hi, rem) && 0 < k <= |rem| && r == rem[k - 1] && a == r - lo
    requires ValidEscapeAt(json, r) && r + EscLen(json, r) <= NextEscape(hi, rem, k)
    requires a + EscLen(json, r) <= |token|
    requires token[..a] == json[lo..r]
    requires token[a + EscLen(json, r)..] == Forward(json, r + EscLen(json, r), hi, rem, k)
    requires t == token[..a] + [EscChar(json, r)] + token[a + EscLen(json, r)..]
    ensures lo <= NextEscape(hi, rem, k - 1)
    ensures t == Forward(json, lo, hi, rem, k - 1)
  {
    ForwardAt(json, lo, hi, rem, k - 1, k, r, a);
    Glue(token, t, json[lo..r], EscChar(json, r), Forward(json, r + EscLen(json, r), hi, rem, k),
         Forward(json, lo, hi, rem, k - 1), a, a + EscLen(json, r));
  }

  /** What follows the raw text before `rem[k]`: the decoded text from that
      escape on, or nothing when no escape is left. */
  function Tail(json: Text, hi: nat, rem: seq<nat>, k: nat): Text
    requires Escapes(json, hi, rem) && k <= |rem|
  {
    if k == |rem| then [] else Forward(json, rem[k], hi, rem, k)
  }

  /** Before the next escape, the token is the raw text, then the tail. */
  lemma ForwardRaw(json: Text, m: nat, hi: nat, rem: seq<nat>, k: nat)
    requires Escapes(json, hi, rem) && k <= |rem| && m <= NextEscape(hi, rem, k)
    ensures Forward(json, m, hi, rem, k)
            == if m < NextEscape(hi, rem, k) then json[m..NextEscape(hi, rem, k)] + Tail(json, hi, rem, k)
               else Tail(json, hi, rem, k)
  {
    if k == |rem| {
      if m < hi {
        assert json[m..hi] + [] == json[m..hi];
      } else {
        assert json[m..hi] == [];
      }
    }
  }

  /** The token for `j` when the `j`-th escape, at `r` and offset `a`, is
      the next one: the raw text before it, if any, its character, and the
      rest decoded from `k`, the next index. */
  lemma ForwardAt(json: Text, lo: nat, hi: nat, rem: seq<nat>, j: nat, k: nat, r: nat, a: nat)
    requires Escapes(json, hi, rem) && k == j + 1 && k <= |rem| && r == rem[j] && a == r - lo
    ensures var rest := [EscChar(json, r)] + Forward(json, r + EscLen(json, r), hi, rem, k);
            Forward(json, lo, hi, rem, j) == if a == 0 then rest else json[lo..r] + rest
  {
    var rest := [EscChar(json, r)] + Forward(json, r + EscLen(json, r), hi, rem, k);
    assert Forward(json, r, hi, rem, j) == rest;
    if lo < r {
      assert Forward(json, lo, hi, rem, j) == json[lo..r] + Forward(json, r, hi, rem, j);
    }
  }

  /** Sequence glue for EditEscape: replacing `token[a..c]` by `e` between
      `pre` and `rest` gives `pre`, `e` and `rest` in a row. */
  lemma Glue(token: Text, t: Text, pre: Text, e: CodePoint, rest: Text, f: Text, a: nat, c: nat)
    requires a <= c <= |token| && token[..a] == pre && token[c..] == rest
    requires t == token[..a] + [e] + token[c..]
    requires f == if a == 0 then [e] + rest else pre + ([e] + rest)
    ensures t == f
  {
  }

  // ---------------------------------------------------------------------
  // Round trip with an encoder

  /** A minimal JSON string encoder: a quote and a backslash get a
      backslash in front, everything else is copied. */
  function Encode(s: Text): (e: Text)
    ensures |e| >= |s|
  {
    if s == [] then []
    else (if s[0] == Ch('"') || s[0] == Ch('\\') then [Ch('\\'), s[0]] else [s[0]]) + Encode(s[1..])
  }

  /** `s` avoids a quote followed by a quote or a backslash, which the scan
      mishandles (Scenarios.QuoteThenEscape), and a backslash followed by
      'u'. Of the latter only those where 'u' is not then followed by four
      hex digits are mishandled (Scenarios.EscapedBackslashBeforeU against
      Scenarios.EscapedBackslashThenHex); the rest are excluded to keep the
      round trip simple. */
  predicate Plain(s: Text)
  {
    forall k :: 0 <= k < |s| - 1 ==>
      (s[k] == Ch('"') ==> s[k + 1] != Ch('"') && s[k + 1] != Ch('\\'))
      && (s[k] == Ch('\\') ==> s[k + 1] != Ch('u'))
  }

  /** `rem` followed by the positions of the escapes that Encode writes for
      `t` at `i`. */
  function EncodedAcc(rem: seq<nat>, i: nat, t: Text): (rs: seq<nat>)
    ensures rem <= rs
    decreases |t|
  {
    if t == [] then rem
    else if t[0] == Ch('"') || t[0] == Ch('\\') then EncodedAcc(rem + [i], i + 2, t[1..])
    else EncodedAcc(rem, i + 1, t[1..])
  }

  /** `rs` from its `j`-th element on lists the positions of the escapes
      that Encode writes for `t` at `i`. */
  predicate EncodedFrom(rs: seq<nat>, j: nat, i: nat, t: Text)
    decreases |t|
  {
    if t == [] then j == |rs|
    else if t[0] == Ch('"') || t[0] == Ch('\\') then j < |rs| && rs[j] == i && EncodedFrom(rs, j + 1, i + 2, t[1..])
    else EncodedFrom(rs, j, i + 1, t[1..])
  }

  /** The list EncodedAcc builds is read back by EncodedFrom after `rem`. */
  lemma {:induction false} EncodedAccFrom(rem: seq<nat>, i: nat, t: Text)
    ensures EncodedFrom(EncodedAcc(rem, i, t), |rem|, i, t)
    decreases |t|
  {
    if t != [] {
      if t[0] == Ch('"') || t[0] == Ch('\\') {
        EncodedAccFrom(rem + [i], i + 2, t[1..]);
        assert EncodedAcc(rem, i, t)[|rem|] == (rem + [i])[|rem|];
      } else {
        EncodedAccFrom(rem, i + 1, t[1..]);
      }
    }
  }

  /** Width of the encoding of one character. */
  function EncWidth(c: CodePoint): nat
  {
    if c == Ch('"') || c == Ch('\\') then 2 else 1
  }

  /** The encoding of `t` stands in the text at `i`, character by
      character. */
  predicate EncodedIn(json: Text, i: nat, t: Text)
    decreases |t|
  {
    if t == [] then i <= |json|
    else if EncWidth(t[0]) == 2 then i + 1 < |json| && json[i] == Ch('\\') && json[i + 1] == t[0] && EncodedIn(json, i + 2, t[1..])
    else i < |json| && json[i] == t[0] && EncodedIn(json, i + 1, t[1..])
  }

  lemma EncodeLength(t: Text)
    requires t != []
    ensures |Encode(t)| == EncWidth(t[0]) + |Encode(t[1..])|
  {
  }

  /** Where the text holds Encode(t) at `i`, EncodedIn says what it holds. */
  lemma {:induction false} EncodedInSlice(json: Text, i: nat, t: Text)
    requires i + |Encode(t)| <= |json| && json[i..i + |Encode(t)|] == Encode(t)
    ensures EncodedIn(json, i, t)
    decreases |t|
  {
    if t != [] {
      var w := EncWidth(t[0]);
      var head := if w == 2 then [Ch('\\'), t[0]] else [t[0]];
      assert Encode(t) == head + Encode(t[1..]);
      assert json[i + w..i + |Encode(t)|] == json[i..i + |Encode(t)|][w..];
      assert json[i] == json[i..i + |Encode(t)|][0];
      if w == 2 {
        assert json[i + 1] == json[i..i + |Encode(t)|][1];
      }
      EncodedInSlice(json, i + w, t[1..]);
    }
  }

  lemma PlainTail(t: Text)
    requires t != [] && Plain(t)
    ensures Plain(t[1..])
  {
    forall k | 0 <= k < |t[1..]| - 1
      ensures (t[1..][k] == Ch('"') ==> t[1..][k + 1] != Ch('"') && t[1..][k + 1] != Ch('\\'))
              && (t[1..][k] == Ch('\\') ==> t[1..][k + 1] != Ch('u'))
    {
      assert t[1..][k] == t[k + 1] && t[1..][k + 1] == t[k + 2];
    }
  }

  /** The scan over an encoded text records exactly the escapes Encode
      wrote and stops at the quote after it. */
  lemma {:induction false} ScanEncoded(json: Text, i: nat, t: Text, pb: Pairing, rem: seq<nat>)
    requires 0 < i && i + |Encode(t)| < |json|
    requires EncodedIn(json, i, t) && json[i + |Encode(t)|] == Ch('"')
    requires Plain(t)
    requires pb == NoneSeen ==> json[i - 1] != Ch('\\')
    requires pb == Unpaired ==> json[i - 1] == Ch('"') && (t != [] ==> t[0] != Ch('"') && t[0] != Ch('\\'))
    ensures ScanFrom(json, i, pb, rem) == Ok((i + |Encode(t)|, EncodedAcc(rem, i, t)))
    decreases |t|
  {
    if t != [] {
      EncodeLength(t);
      PlainTail(t);
      if EncWidth(t[0]) == 2 {
        if t[0] == Ch('\\') && t[1..] != [] {
          assert t[1..][0] == t[1];
        }
        ScanEscapeUnit(json, i, pb, rem);
        ScanEncoded(json, i + 2, t[1..], if t[0] == Ch('"') then Unpaired else Paired, rem + [i]);
      } else {
        ScanEncoded(json, i + 1, t[1..], AfterOther(pb), rem);
      }
    }
  }

  /** The scan over an escaped quote or backslash written by Encode, with
      no 'u' after an escaped backslash. */
  lemma ScanEscapeUnit(json: Text, i: nat, pb: Pairing, rem: seq<nat>)
    requires 0 < i && i + 2 < |json| && pb != Unpaired
    requires json[i] == Ch('\\') && (json[i + 1] == Ch('"') || json[i + 1] == Ch('\\'))
    requires json[i + 1] == Ch('\\') ==> json[i + 2] != Ch('u')
    ensures ScanFrom(json, i, pb, rem)
            == ScanFrom(json, i + 2, if json[i + 1] == Ch('"') then Unpaired else Paired, rem + [i])
  {
  }

  /** Decoding an encoded text `t` at `i`, whose escapes are listed in `rs`
      from the `j`-th on, gives the text back. */
  lemma {:induction false} DecodeEncoded(json: Text, i: nat, hi: nat, t: Text, rs: seq<nat>, j: nat)
    requires Escapes(json, hi, rs) && i + |Encode(t)| == hi
    requires EncodedIn(json, i, t) && EncodedFrom(rs, j, i, t)
    ensures j <= |rs| && i <= NextEscape(hi, rs, j)
    ensures Forward(json, i, hi, rs, j) == t
    decreases |t|
  {
    if t == [] {
      assert json[i..i] == [];
    } else {
      EncodeLength(t);
      if EncWidth(t[0]) == 2 {
        DecodeEncoded(json, i + 2, hi, t[1..], rs, j + 1);
        assert EscChar(json, i) == t[0];
      } else {
        DecodeEncoded(json, i + 1, hi, t[1..], rs, j);
        ForwardCons(json, i, hi, rs, j);
      }
      assert [t[0]] + t[1..] == t;
    }
  }

  /** A character before the first escape is copied. */
  lemma ForwardCons(json: Text, i: nat, hi: nat, rs: seq<nat>, j: nat)
    requires Escapes(json, hi, rs) && j <= |rs| && i + 1 <= NextEscape(hi, rs, j)
    ensures Forward(json, i, hi, rs, j) == [json[i]] + Forward(json, i + 1, hi, rs, j)
  {
    var b := NextEscape(hi, rs, j);
    if j == |rs| {
      SliceCons(json, i, hi);
    } else if i + 1 < b {
      var rest := Forward(json, b, hi, rs, j);
      SliceCons(json, i, b);
      Assoc([json[i]], json[i + 1..b], rest);
    } else {
      assert json[i..b] == [json[i]];
    }
  }

  lemma SliceCons<X>(s: seq<X>, i: nat, j: nat)
    requires i < j <= |s|
    ensures s[i..j] == [s[i]] + s[i + 1..j]
  {
  }

  lemma Assoc<X>(a: seq<X>, b: seq<X>, c: seq<X>)
    ensures (a + b) + c == a + (b + c)
  {
  }

  /** decode(encode(s)) == s: a string token whose body is Encode(s) has
      the text `s`, for every `s` avoiding the two mishandled patterns. */
  lemma StringRoundTrip(json: Text, orig: nat, s: Text)
    requires Plain(s)
    requires orig + |Encode(s)| + 1 < |json| && json[orig] == Ch('"')
    requires json[orig + 1..orig + 1 + |Encode(s)|] == Encode(s)
    requires json[orig + 1 + |Encode(s)|] == Ch('"')
    ensures StringToken(json, orig) == Ok((orig + 1 + |Encode(s)|, s))
  {
    var hi := orig + 1 + |Encode(s)|;
    ScanOfEncoded(json, orig, s, hi);
    DecodeEncoded(json, orig + 1, hi, s, EncodedAcc([], orig + 1, s), 0);
  }

  /** The scan half of StringRoundTrip: the body scans up to the quote at
      `hi`, recording exactly the escapes Encode wrote. */
  lemma ScanOfEncoded(json: Text, orig: nat, s: Text, hi: nat)
    requires Plain(s) && hi == orig + 1 + |Encode(s)|
    requires hi < |json| && json[orig] == Ch('"')
    requires json[orig + 1..hi] == Encode(s) && json[hi] == Ch('"')
    ensures ScanFrom(json, orig + 1, NoneSeen, []) == Ok((hi, EncodedAcc([], orig + 1, s)))
    ensures Escapes(json, hi, EncodedAcc([], orig + 1, s)) && EncodedIn(json, orig + 1, s)
    ensures EncodedFrom(EncodedAcc([], orig + 1, s), 0, orig + 1, s)
  {
    EncodedInSlice(json, orig + 1, s);
    ScanEncoded(json, orig + 1, s, NoneSeen, []);
    ScanEscapes(json, orig + 1, orig + 1, NoneSeen, []);
    EncodedAccFrom([], orig + 1, s);
  }
}

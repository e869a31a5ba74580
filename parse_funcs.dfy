/** The C routine `lex_num` (json_parser/parse_funcs.c): the extent of a
    numeric literal in the wide-character buffer the newer tokenizer passes
    through ctypes. */
module ParseFuncs {
  import opened Common

  /** `wc_json[k]`: ctypes hands C a NUL-terminated copy of the text, so
      the element just past the text reads as 0. */
  function At(buf: Text, k: nat): CodePoint
    requires k <= |buf|
  {
    if k < |buf| then buf[k] else 0
  }

  /** Where the digits start: past one optional '-'. */
  function SignSkipped(buf: Text, start: nat): (a: nat)
    requires start <= |buf|
    ensures start <= a <= |buf|
  {
    if At(buf, start) == Ch('-') then start + 1 else start
  }

  /** The end of the fraction and exponent that follow a '.' at `b`: fraction
      digits, then an exponent marker whose digits are consumed only after a
      sign. */
  function AfterPoint(buf: Text, b: nat): (r: Result<nat>)
    requires b < |buf| && buf[b] == Ch('.')
    ensures r.Ok? ==> b + 1 < r.value <= |buf| && DigitRun(buf, b + 1) <= r.value
    ensures r.Err? ==> r.error == DecimalPointNoDigits
  {
    if !IsDigit(At(buf, b + 1)) then Err(DecimalPointNoDigits)
    else
      var c := DigitRun(buf, b + 1);
      if !IsExpMarker(At(buf, c)) then Ok(c)
      else if IsSign(At(buf, c + 1)) then Ok(DigitRun(buf, c + 2))
      else Ok(c + 1)
  }

  /** What `lex_num(start, buf, len(buf))` returns, stated through the digit
      runs it consumes: an optional '-', integer digits, and only when a '.'
      follows, what AfterPoint consumes. */
  function NumEnd(buf: Text, start: nat): (r: Result<nat>)
    requires start <= |buf|
    ensures r == Err(NumAssert) <==> !IsDigit(At(buf, SignSkipped(buf, start)))
    ensures r.Ok? ==> SignSkipped(buf, start) < r.value <= |buf|
    ensures r.Ok? || r == Err(NumAssert) || r == Err(DecimalPointNoDigits)
  {
    var a := SignSkipped(buf, start);
    if !IsDigit(At(buf, a)) then Err(NumAssert)
    else
      var b := DigitRun(buf, a);
      var e := if At(buf, b) != Ch('.') then Ok(b) else AfterPoint(buf, b);
      WithinBuffer(e, |buf|)
  }

  /** The final check of lex_num: an index past the buffer length exits. */
  function WithinBuffer(e: Result<nat>, len: nat): (r: Result<nat>)
    ensures r.Ok? ==> r.value <= len
    ensures e.Ok? && e.value <= len ==> r == e
  {
    if e.Ok? && e.value > len then Err(EscapedEnd) else e
  }

  /** The scan of parse_funcs.c:5-41, step by step over the buffer. */
  method LexNum(buf: Text, start: nat) returns (r: Result<nat>)
    requires start <= |buf|
    ensures r == NumEnd(buf, start)
  {
    var i := start;
    if At(buf, i) == Ch('-') {
      i := i + 1;
    }
    if !IsDigit(At(buf, i)) {
      return Err(NumAssert);
    }
    // A leading 0 not followed by '.' only prints a diagnostic on stderr.
    i := SkipDigits(buf, i);
    if At(buf, i) == Ch('.') {
      ghost var b := i;
      if !IsDigit(At(buf, i + 1)) {
        return Err(DecimalPointNoDigits);
      }
      i := SkipDigits(buf, i + 1);
      if IsExpMarker(At(buf, i)) {
        i := i + 1;
        if IsSign(At(buf, i)) {
          i := SkipDigits(buf, i + 1);
        }
      }
      assert Ok(i) == AfterPoint(buf, b);
    }
    r := WithinBuffer(Ok(i), |buf|);
  }

  /** One of lex_num's `while ('0' <= wc_json[i] && wc_json[i] <= '9') i++;`
      loops. */
  method SkipDigits(buf: Text, start: nat) returns (i: nat)
    requires start <= |buf|
    ensures i == DigitRun(buf, start)
  {
    i := start;
    while IsDigit(At(buf, i))
      invariant start <= i <= |buf|
      invariant DigitRun(buf, i) == DigitRun(buf, start)
      decreases |buf| - i
    {
      i := i + 1;
    }
  }

  // ---------------------------------------------------------------------
  // Properties of the scan

  /** A leading 0 followed by more digits is not an error: the digits after
      it are consumed with it. */
  lemma LeadingZeroOnlyWarns(buf: Text, start: nat)
    requires start <= |buf|
    requires At(buf, SignSkipped(buf, start)) == Ch('0')
    requires SignSkipped(buf, start) + 1 < |buf| && IsDigit(buf[SignSkipped(buf, start) + 1])
    ensures NumEnd(buf, start).Ok? || NumEnd(buf, start) == Err(DecimalPointNoDigits)
    ensures NumEnd(buf, start).Ok? ==> NumEnd(buf, start).value > SignSkipped(buf, start) + 1
  {
    var a := SignSkipped(buf, start);
    assert DigitRun(buf, a) == DigitRun(buf, a + 1);
  }

  /** A '.' after the integer digits must be followed by a digit. */
  lemma PointNeedsDigit(buf: Text, start: nat)
    requires start <= |buf|
    requires IsDigit(At(buf, SignSkipped(buf, start)))
    requires var b := DigitRun(buf, SignSkipped(buf, start));
             At(buf, b) == Ch('.') && !IsDigit(At(buf, b + 1))
    ensures NumEnd(buf, start) == Err(DecimalPointNoDigits)
  {
  }

  /** Without a fraction, the number ends with its integer digits: an 'e' or
      'E' there is not examined. */
  lemma ExponentOnlyAfterFraction(buf: Text, start: nat)
    requires start <= |buf|
    requires IsDigit(At(buf, SignSkipped(buf, start)))
    requires At(buf, DigitRun(buf, SignSkipped(buf, start))) != Ch('.')
    ensures NumEnd(buf, start) == Ok(DigitRun(buf, SignSkipped(buf, start)))
  {
  }

  /** After a fraction, an exponent marker not followed by a sign ends the
      number right after the marker; with a sign, the exponent digits are
      consumed. */
  lemma ExponentDigitsNeedSign(buf: Text, start: nat)
    requires start <= |buf|
    requires IsDigit(At(buf, SignSkipped(buf, start)))
    requires var b := DigitRun(buf, SignSkipped(buf, start));
             At(buf, b) == Ch('.') && IsDigit(At(buf, b + 1))
             && IsExpMarker(At(buf, DigitRun(buf, b + 1)))
    ensures var c := DigitRun(buf, DigitRun(buf, SignSkipped(buf, start)) + 1);
            NumEnd(buf, start)
            == if IsSign(At(buf, c + 1)) then Ok(DigitRun(buf, c + 2)) else Ok(c + 1)
  {
  }

  /** DigitRun over a slice is DigitRun over the whole, shifted, as long as the
      slice contains the whole run. */
  lemma {:induction false} DigitRunSlice(buf: Text, lo: nat, hi: nat, k: nat, j: nat)
    requires lo <= k <= hi <= |buf| && j == k - lo
    ensures DigitRun(buf[lo..hi], j) == (if DigitRun(buf, k) <= hi then DigitRun(buf, k) else hi) - lo
    decreases hi - k
  {
    if k < hi && IsDigit(buf[k]) {
      assert buf[lo..hi][j] == buf[k];
      DigitRunSlice(buf, lo, hi, k + 1, j + 1);
    }
  }

  /** What `float()` then makes of the scanned text `buf[start..e]`: it
      refuses exactly the numbers that end in an exponent marker or a sign,
      for instance `1.5e` (scanned from `1.5e3`) and `2.0e+`. */
  lemma FloatAcceptsScanned(buf: Text, start: nat)
    requires start < |buf|
    requires NumEnd(buf, start).Ok?
    ensures var e := NumEnd(buf, start).value;
            FloatAccepts(buf[start..e]) <==> !(IsExpMarker(buf[e - 1]) || IsSign(buf[e - 1]))
  {
    var e := NumEnd(buf, start).value;
    var t := buf[start..e];
    var a := SignSkipped(buf, start);
    var b := DigitRun(buf, a);
    assert SignLen(t) == a - start;
    DigitRunSlice(buf, start, e, a, SignLen(t));
    if At(buf, b) == Ch('.') {
      FloatAcceptsFraction(buf, start, a, b, e);
    } else {
      assert e == b;
      assert !HasPoint(t);
      DigitRunDigits(buf, a, b - 1);
    }
  }

  /** FloatAcceptsScanned, for a number with a fraction: one case for each
      way AfterPoint ends the number. */
  lemma FloatAcceptsFraction(buf: Text, start: nat, a: nat, b: nat, e: nat)
    requires start <= a <= b < |buf| && buf[b] == Ch('.') && AfterPoint(buf, b) == Ok(e)
    requires SignLen(buf[start..e]) == a - start && IntEnd(buf[start..e]) == b - start && a < b
    ensures FloatAccepts(buf[start..e]) <==> !(IsExpMarker(buf[e - 1]) || IsSign(buf[e - 1]))
  {
    var c := DigitRun(buf, b + 1);
    if !IsExpMarker(At(buf, c)) {
      FractionOnly(buf, start, b, e, buf[start..e], b - start, e - start);
    } else if IsSign(At(buf, c + 1)) {
      FractionSignedExponent(buf, start, b, c, e, buf[start..e], b - start, c - start, e - start);
    } else {
      FractionBareMarker(buf, start, b, c, buf[start..c + 1], b - start, c - start);
    }
  }

  /** The scanned text `t` ends with the fraction digits (`p` is the
      position of the point in `t`, `n` its length). */
  lemma FractionOnly(buf: Text, start: nat, b: nat, e: nat, t: Text, p: nat, n: nat)
    requires start <= b && b + 1 < e <= |buf| && buf[b] == Ch('.') && e == DigitRun(buf, b + 1)
    requires t == buf[start..e] && p == b - start && n == e - start
    requires IntEnd(t) == p && SignLen(t) < p
    ensures FloatAccepts(t) && IsDigit(buf[e - 1])
  {
    PointRun(buf, start, e, b, e, p, n);
    NoExponent(t, p, n);
    SliceAt(buf, start, e, e - 1, n - 1);
  }

  /** The scanned text `t` ends with an exponent marker right after the
      fraction digits (`p` is the position of the point in `t`, `m` that of
      the marker). */
  lemma FractionBareMarker(buf: Text, start: nat, b: nat, c: nat, t: Text, p: nat, m: nat)
    requires start <= b && b + 1 < c < |buf| && buf[b] == Ch('.') && c == DigitRun(buf, b + 1)
    requires t == buf[start..c + 1] && p == b - start && m == c - start
    requires IsExpMarker(buf[c]) && IntEnd(t) == p
    ensures !FloatAccepts(t) && IsExpMarker(buf[c])
  {
    PointRun(buf, start, c + 1, b, c, p, m);
    SliceAt(buf, start, c + 1, c, m);
    BareMarker(t, p, m);
  }

  /** The scanned text `t` ends with the digits, if any, after an exponent
      marker and a sign (`p` is the position of the point in `t`, `m` that of
      the marker, `n` the length of `t`). */
  lemma FractionSignedExponent(buf: Text, start: nat, b: nat, c: nat, e: nat, t: Text, p: nat, m: nat, n: nat)
    requires start <= b && b + 1 < c && c + 1 < |buf| && buf[b] == Ch('.') && c == DigitRun(buf, b + 1)
    requires IsExpMarker(buf[c]) && IsSign(buf[c + 1]) && e == DigitRun(buf, c + 2)
    requires t == buf[start..e] && p == b - start && m == c - start && n == e - start
    requires IntEnd(t) == p && SignLen(t) < p
    ensures FloatAccepts(t) <==> !(IsExpMarker(buf[e - 1]) || IsSign(buf[e - 1]))
  {
    PointRun(buf, start, e, b, c, p, m);
    ExponentRun(buf, start, c, e, m, n);
    SignedExponent(t, p, m);
  }

  /** Indexing a slice. */
  lemma SliceAt(buf: Text, lo: nat, hi: nat, k: nat, j: nat)
    requires lo <= k < hi <= |buf| && j == k - lo
    ensures buf[lo..hi][j] == buf[k]
  {
  }

  /** A point at `b` followed by digits up to `c`, seen in the slice from
      `lo` to `hi`: the point is at `p` and the digits run up to `m`. */
  lemma PointRun(buf: Text, lo: nat, hi: nat, b: nat, c: nat, p: nat, m: nat)
    requires lo <= b < c <= hi <= |buf| && buf[b] == Ch('.') && c == DigitRun(buf, b + 1)
    requires p == b - lo && m == c - lo
    ensures buf[lo..hi][p] == Ch('.') && DigitRun(buf[lo..hi], p + 1) == m
  {
    SliceAt(buf, lo, hi, b, p);
    DigitRunSlice(buf, lo, hi, b + 1, p + 1);
  }

  /** A marker at `c`, a sign and digits up to `e`, seen in the slice from
      `lo` to `e`: the marker is at `m` and the digits run up to the end `n`. */
  lemma ExponentRun(buf: Text, lo: nat, c: nat, e: nat, m: nat, n: nat)
    requires lo <= c && c + 1 < |buf| && e == DigitRun(buf, c + 2) && m == c - lo && n == e - lo
    ensures var t := buf[lo..e];
            |t| == n && t[m] == buf[c] && t[m + 1] == buf[c + 1] && DigitRun(t, m + 2) == n
            && t[n - 1] == buf[e - 1]
  {
    SliceAt(buf, lo, e, c, m);
    SliceAt(buf, lo, e, c + 1, m + 1);
    SliceAt(buf, lo, e, e - 1, n - 1);
    DigitRunSlice(buf, lo, e, c + 2, m + 2);
  }

  /** A number whose point at `p` is followed by digits up to its end `n`
      ends in a digit, and float() accepts it. */
  lemma NoExponent(t: Text, p: nat, n: nat)
    requires IntEnd(t) == p && SignLen(t) < p && p + 1 < n && n == |t|
    requires t[p] == Ch('.') && DigitRun(t, p + 1) == n
    ensures FloatAccepts(t) && IsDigit(t[n - 1])
  {
    DigitRunDigits(t, p + 1, n - 1);
  }

  /** A number whose fraction is followed by a bare exponent marker at `m`
      ends in it, and float() refuses it. */
  lemma BareMarker(t: Text, p: nat, m: nat)
    requires IntEnd(t) == p && p < m && m + 1 == |t|
    requires t[p] == Ch('.') && DigitRun(t, p + 1) == m && IsExpMarker(t[m])
    ensures !FloatAccepts(t) && IsExpMarker(t[|t| - 1])
  {
  }

  /** A number whose fraction is followed by a marker at `m`, a sign and
      digits: float() accepts it exactly when there is at least one digit. */
  lemma SignedExponent(t: Text, p: nat, m: nat)
    requires IntEnd(t) == p && SignLen(t) < p && p < m && m + 2 <= |t|
    requires t[p] == Ch('.') && DigitRun(t, p + 1) == m
    requires IsExpMarker(t[m]) && IsSign(t[m + 1]) && DigitRun(t, m + 2) == |t|
    ensures FloatAccepts(t) <==> !(IsExpMarker(t[|t| - 1]) || IsSign(t[|t| - 1]))
  {
    assert ExpDigitsStart(t, m) == m + 2;
    if m + 2 < |t| {
      DigitRunDigits(t, m + 2, |t| - 1);
    }
  }
}

/**
 Roles and their rate-limit text "<max>/<window>s"
 (vault/internal/tokens/role.go). Go's int and time.Duration are 64-bit, so
 saturation in Atoi and wrap-around in the Duration product are explicit.
 */
module RateText {
  import opened Wrappers

  const MAX_INT64: int := 0x7fff_ffff_ffff_ffff
  const TWO_63: int := 0x8000_0000_0000_0000
  const TWO_64: int := 0x1_0000_0000_0000_0000
  const SECOND: int := 1_000_000_000
  /** The largest number of whole seconds a time.Duration can hold. */
  const MAX_WINDOW_SECONDS: int := 9_223_372_036

  /** A parsed limit: requests allowed, and the window in nanoseconds. */
  datatype Limit = Limit(max: int, window: int)

  predicate IsDigit(c: char) { '0' <= c <= '9' }

  predicate AllDigits(s: string) { forall i :: 0 <= i < |s| ==> IsDigit(s[i]) }

  /** Length of the longest prefix of digits. */
  function DigitSpan(s: string): (n: nat)
    ensures n <= |s|
    ensures AllDigits(s[..n])
    ensures n < |s| ==> !IsDigit(s[n])
  {
    if s == [] || !IsDigit(s[0]) then 0
    else
      var m := DigitSpan(s[1..]);
      assert forall i :: 0 <= i < m ==> s[i + 1] == s[1..][..m][i];
      assert forall i :: 1 <= i < m + 1 ==> IsDigit(s[i]) by {
        forall i | 1 <= i < m + 1 ensures IsDigit(s[i]) { assert s[i] == s[1..][..m][i - 1]; }
      }
      1 + m
  }

  /** The regular expression ^(\d+)/(\d+)s$ with its two submatches. */
  function MatchRate(s: string): Option<(string, string)> {
    var a := DigitSpan(s);
    if a == 0 || a == |s| || s[a] != '/' then None
    else
      var rest := s[a + 1..];
      var b := DigitSpan(rest);
      if b == 0 || rest[b..] != "s" then None
      else Some((s[..a], rest[..b]))
  }

  function DecimalValue(s: string): nat
    requires AllDigits(s)
  {
    if s == [] then 0
    else 10 * DecimalValue(s[..|s| - 1]) + (s[|s| - 1] as int - '0' as int)
  }

  /** Decimal notation: the last digit counts once, the others ten times; leading zeros do not count. */
  lemma {:induction false} DecimalIs(s: string, c: char)
    requires AllDigits(s) && IsDigit(c)
    ensures AllDigits(s + [c]) && DecimalValue(s + [c]) == 10 * DecimalValue(s) + (c as int - '0' as int)
    ensures AllDigits("0" + s) && DecimalValue("0" + s) == DecimalValue(s)
  {
    assert (s + [c])[..|s|] == s;
    if s == "" {
      assert "0" + s == "0" && "0"[..0] == "";
    } else {
      var front, last := s[..|s| - 1], s[|s| - 1];
      DecimalIs(front, last);
      assert "0" + s == ("0" + front) + [last];
      assert ("0" + s)[..|s|] == "0" + front;
    }
  }

  /** strconv.Atoi with its range error dropped: the value saturates. */
  function Atoi(s: string): int
    requires AllDigits(s)
  {
    var v := DecimalValue(s);
    if v > MAX_INT64 then MAX_INT64 else v
  }

  /** Two's-complement reduction to 64 bits. */
  function Wrap64(n: int): int {
    (n + TWO_63) % TWO_64 - TWO_63
  }

  function RateLimitParsed(text: string): Result<Limit, string> {
    var m := MatchRate(text);
    if m.None? then Err(text)
    else
      MatchSubmatches(text);
      Ok(Limit(Atoi(m.value.0), Wrap64(Atoi(m.value.1) * SECOND)))
  }

  /** The regexp test AddRole and UpdateRole apply before storing a text. */
  predicate ValidateRateLimit(text: string) {
    MatchRate(text).Some?
  }

  lemma MatchSubmatches(s: string)
    ensures MatchRate(s).Some? ==>
      AllDigits(MatchRate(s).value.0) && AllDigits(MatchRate(s).value.1)
  {
  }

  // ---- the accepted language -------------------------------------------

  ghost predicate RateShape(s: string, a: string, b: string) {
    a != "" && b != "" && AllDigits(a) && AllDigits(b) && s == a + "/" + b + "s"
  }

  lemma DigitSpanOf(a: string, rest: string)
    requires AllDigits(a)
    requires rest != "" && !IsDigit(rest[0])
    ensures DigitSpan(a + rest) == |a|
  {
    var t, n := a + rest, DigitSpan(a + rest);
    assert t[|a|] == rest[0];
    assert forall i :: 0 <= i < |a| ==> t[i] == a[i];
    assert forall i :: 0 <= i < n ==> t[..n][i] == t[i];
  }

  lemma MatchSound(s: string)
    requires MatchRate(s).Some?
    ensures RateShape(s, MatchRate(s).value.0, MatchRate(s).value.1)
  {
    var n := DigitSpan(s);
    var rest := s[n + 1..];
    var m := DigitSpan(rest);
    assert s == s[..n] + "/" + rest;
    assert rest == rest[..m] + rest[m..];
  }

  lemma MatchComplete(a: string, b: string)
    requires a != "" && b != "" && AllDigits(a) && AllDigits(b)
    ensures MatchRate(a + "/" + b + "s") == Some((a, b))
  {
    var s := a + "/" + b + "s";
    assert s == a + ("/" + b + "s");
    DigitSpanOf(a, "/" + b + "s");
    var rest := b + "s";
    assert s == a + "/" + rest;
    assert s[..|a|] == a && s[|a|] == '/';
    assert s[|a| + 1..] == rest;
    TailMatch(b);
  }

  lemma TailMatch(b: string)
    requires AllDigits(b)
    ensures DigitSpan(b + "s") == |b| && (b + "s")[..|b|] == b && (b + "s")[|b|..] == "s"
  {
    DigitSpanOf(b, "s");
  }

  /** The matcher finds a split exactly when there is one, and there is only one. */
  lemma MatchExact(s: string, a: string, b: string)
    ensures MatchRate(s) == Some((a, b)) <==> RateShape(s, a, b)
  {
    if MatchRate(s) == Some((a, b)) {
      MatchSound(s);
    }
    if RateShape(s, a, b) {
      MatchComplete(a, b);
    }
  }

  /**
   The stored texts that AddRole and UpdateRole let through are exactly the
   ones Validate can later parse, and exactly "<digits>/<digits>s".
   */
  lemma ValidatedIffParsable(s: string)
    ensures ValidateRateLimit(s) <==> RateLimitParsed(s).Ok?
    ensures ValidateRateLimit(s) <==> exists a, b :: RateShape(s, a, b)
  {
    if ValidateRateLimit(s) {
      MatchExact(s, MatchRate(s).value.0, MatchRate(s).value.1);
    }
    forall a, b | RateShape(s, a, b) ensures ValidateRateLimit(s) {
      MatchExact(s, a, b);
    }
  }

  // ---- printing and parsing --------------------------------------------

  function PrintNat(n: nat): (s: string)
    ensures s != "" && AllDigits(s)
  {
    var d := [(('0' as int) + n % 10) as char];
    if n < 10 then d else PrintNat(n / 10) + d
  }

  lemma {:induction false} PrintedValue(n: nat)
    ensures DecimalValue(PrintNat(n)) == n
  {
    var s := PrintNat(n);
    if n >= 10 {
      PrintedValue(n / 10);
      assert s[..|s| - 1] == PrintNat(n / 10);
    } else {
      assert s[..|s| - 1] == "";
    }
  }

  function PrintRate(max: nat, seconds: nat): string {
    PrintNat(max) + "/" + PrintNat(seconds) + "s"
  }

  lemma PrintedRateParsed(max: nat, seconds: nat)
    ensures RateLimitParsed(PrintRate(max, seconds)) ==
            Ok(Limit(if max > MAX_INT64 then MAX_INT64 else max,
                     Wrap64((if seconds > MAX_INT64 then MAX_INT64 else seconds) * SECOND)))
  {
    MatchExact(PrintRate(max, seconds), PrintNat(max), PrintNat(seconds));
    PrintedValue(max);
    PrintedValue(seconds);
  }

  lemma WrapFixed(n: int)
    ensures -TWO_63 <= Wrap64(n) < TWO_63
    ensures Wrap64(n) == n <==> -TWO_63 <= n < TWO_63
  {
  }

  /**
   Printing a limit and parsing it back returns the limit exactly when the
   count fits in an int and the window's nanoseconds fit in a Duration.
   */
  lemma RateRoundTrip(max: nat, seconds: nat)
    ensures RateLimitParsed(PrintRate(max, seconds)) == Ok(Limit(max, seconds * SECOND))
            <==> max < TWO_63 && seconds <= MAX_WINDOW_SECONDS
  {
    PrintedRateParsed(max, seconds);
    WrapFixed((if seconds > MAX_INT64 then MAX_INT64 else seconds) * SECOND);
  }

  /**
   From one second past the bound on, until twice as far, a text both checks
   accept stands for a negative window: validation does not bound the value.
   */
  lemma WindowWraps(max: nat, seconds: nat)
    requires max < TWO_63 && TWO_63 <= seconds * SECOND < TWO_64
    ensures ValidateRateLimit(PrintRate(max, seconds))
    ensures RateLimitParsed(PrintRate(max, seconds)) == Ok(Limit(max, seconds * SECOND - TWO_64))
  {
    PrintedRateParsed(max, seconds);
    ValidatedIffParsable(PrintRate(max, seconds));
  }

  /** Every parsed limit has a non-negative count; only the window can wrap. */
  lemma ParsedLimitRange(s: string)
    requires RateLimitParsed(s).Ok?
    ensures 0 <= RateLimitParsed(s).value.max <= MAX_INT64
    ensures -TWO_63 <= RateLimitParsed(s).value.window < TWO_63
  {
    MatchSubmatches(s);
    WrapFixed(Atoi(MatchRate(s).value.1) * SECOND);
  }
}

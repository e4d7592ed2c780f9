/**
 Date texts, expiry and the lifetime arithmetic of rotation
 (vault/internal/tokens/token.go, and lines 256-296 and 607-612 of
 vault/internal/tokens/store.go).

 A date is a day number. A text field holds nothing, the print of a day, or
 some other text. time.Format prints any day, but time.Parse with the layout
 2006-01-02 reads back only years of four digits.
 */
module Dates {
  import opened Wrappers

  /** Day numbers of 0000-01-01 and 9999-12-31, counted from 1970-01-01. */
  const MIN_DAY: int := -719_528
  const MAX_DAY: int := 2_932_896

  const DAY_NANOS: int := 86_400_000_000_000
  const MAX_DURATION: int := 0x7fff_ffff_ffff_ffff
  const MIN_DURATION: int := -0x8000_0000_0000_0000
  /** Whole days in the largest time.Duration. */
  const MAX_SUB_DAYS: int := 106_751

  datatype DateText = Blank | Day(day: int) | Malformed(text: string)

  predicate FourDigitYear(day: int) { MIN_DAY <= day <= MAX_DAY }

  /** time.Parse(dateFormat, text) */
  function Parse(d: DateText): Option<int> {
    if d.Day? && FourDigitYear(d.day) then Some(d.day) else None
  }

  /** Token.IsExpiredAt on a token whose expires field is `expires`. */
  predicate IsExpiredAt(expires: DateText, today: int) {
    match Parse(expires)
    case None => false
    case Some(day) => day < today
  }

  /** Only a field that reads as a date expires, and only after its day. */
  lemma ExpiredIs(expires: DateText, today: int)
    ensures IsExpiredAt(expires, today) <==> exists d :: expires == Day(d) && MIN_DAY <= d <= MAX_DAY && d < today
  {
    if IsExpiredAt(expires, today) { assert expires == Day(expires.day); }
  }

  /** expiryDate: no count of days means no expiry. */
  function ExpiryDate(today: int, days: Option<int>): DateText {
    match days
    case None => Blank
    case Some(n) => Day(today + n)
  }

  /** Time.Sub on two midnights: nanoseconds, saturating at the Duration range. */
  function SubNanos(later: int, earlier: int): int {
    var n := (later - earlier) * DAY_NANOS;
    if n > MAX_DURATION then MAX_DURATION else if n < MIN_DURATION then MIN_DURATION else n
  }

  /** int(d.Hours() / 24): Go's conversion drops the fraction toward zero. */
  function TruncatedDays(nanos: int): int {
    if nanos >= 0 then nanos / DAY_NANOS else -(-nanos / DAY_NANOS)
  }

  /** The day count RotateToken passes on to expiryDate. */
  function CarriedDays(issued: DateText, expires: DateText): Option<int> {
    if expires == Blank then None
    else
      match (Parse(issued), Parse(expires))
      case (Some(i), Some(e)) => Some(TruncatedDays(SubNanos(e, i)))
      case _ => None
  }

  /** Days between issue and expiry, where both fields read as dates. */
  function Lifetime(issued: DateText, expires: DateText): Option<int> {
    match (Parse(issued), Parse(expires))
    case (Some(i), Some(e)) => Some(e - i)
    case _ => None
  }

  function Clamp(n: int): int {
    if n > MAX_SUB_DAYS then MAX_SUB_DAYS else if n < -MAX_SUB_DAYS then -MAX_SUB_DAYS else n
  }

  /** The issue and expiry fields after one rotation on day `today`. */
  function Rotated(dates: (DateText, DateText), today: int): (DateText, DateText) {
    (Day(today), ExpiryDate(today, CarriedDays(dates.0, dates.1)))
  }

  /** ... and after rotations on each of `days` in turn. */
  function RotatedOften(dates: (DateText, DateText), days: seq<int>): (DateText, DateText) {
    if days == [] then dates else Rotated(RotatedOften(dates, days[..|days| - 1]), days[|days| - 1])
  }

  /** The saturating subtraction and the truncation together clamp the count. */
  lemma CarriedIsClamped(issued: DateText, expires: DateText)
    ensures CarriedDays(issued, expires) ==
            match Lifetime(issued, expires) { case None => None case Some(n) => Some(Clamp(n)) }
  {
    if Lifetime(issued, expires).Some? {
      var n := expires.day - issued.day;
      WholeDays(n);
      WholeDays(-n);
      assert MAX_DURATION / DAY_NANOS == MAX_SUB_DAYS && -MIN_DURATION / DAY_NANOS == MAX_SUB_DAYS;
    }
  }

  lemma WholeDays(n: int)
    ensures n * DAY_NANOS / DAY_NANOS == n
  {
  }

  /**
   One rotation on a printable day: the token keeps its lifetime up to the
   Duration bound exactly when the new expiry still has a four-digit year.
   */
  lemma RotationKeepsLifetime(dates: (DateText, DateText), today: int)
    requires FourDigitYear(today)
    requires Lifetime(dates.0, dates.1).Some?
    ensures var n := Clamp(Lifetime(dates.0, dates.1).value);
            var r := Rotated(dates, today);
            && (Lifetime(r.0, r.1) == Some(n) <==> FourDigitYear(today + n))
            && (!FourDigitYear(today + n) ==> Lifetime(r.0, r.1) == None)
  {
    CarriedIsClamped(dates.0, dates.1);
  }

  /** A field that is no date never expires, and rotation blanks it. */
  lemma UnreadableExpiry(issued: DateText, expires: DateText, today: int)
    requires Parse(issued).None? || Parse(expires).None?
    ensures Parse(expires).None? ==> !IsExpiredAt(expires, today)
    ensures Rotated((issued, expires), today) == (Day(today), Blank)
  {
  }

  /** Past that bound the token never expires, and the next rotation blanks the field. */
  lemma LostExpiry(dates: (DateText, DateText), today: int, next: int, any: int)
    requires FourDigitYear(today)
    requires Lifetime(dates.0, dates.1).Some?
    requires !FourDigitYear(today + Clamp(Lifetime(dates.0, dates.1).value))
    ensures var r := Rotated(dates, today);
            !IsExpiredAt(r.1, any) && Rotated(r, next).1 == Blank
  {
    CarriedIsClamped(dates.0, dates.1);
  }

  ghost predicate PrintableExpiries(days: seq<int>, life: int) {
    forall i :: 0 <= i < |days| ==> FourDigitYear(days[i] + life)
  }

  /**
   Any number of rotations, at least one: the lifetime is the original one
   clamped once, as long as every expiry written had a four-digit year. From
   the first one that had not, the token has no lifetime and never regains one.
   */
  lemma {:induction false} RotationsKeepLifetime(dates: (DateText, DateText), days: seq<int>)
    requires days != []
    requires Lifetime(dates.0, dates.1).Some?
    requires forall i :: 0 <= i < |days| ==> FourDigitYear(days[i])
    ensures var life := Clamp(Lifetime(dates.0, dates.1).value);
            var r := RotatedOften(dates, days);
            && r.0 == Day(days[|days| - 1])
            && Lifetime(r.0, r.1) == if PrintableExpiries(days, life) then Some(life) else None
  {
    var n := |days| - 1;
    var life := Clamp(Lifetime(dates.0, dates.1).value);
    var before := RotatedOften(dates, days[..n]);
    assert days == days[..n] + [days[n]];
    if n > 0 {
      RotationsKeepLifetime(dates, days[..n]);
    } else {
      assert days[..n] == [];
    }
    CarriedIsClamped(before.0, before.1);
    assert Clamp(life) == life;
  }
}

/**
  The label text of the timer: a duration in seconds rendered as "MM : SS".

  The rendering follows the C code step by step: the minute count is a C
  integer division (truncating toward zero), each field gets a "0" prefix
  when it is below 10, the fields are written with `%d` and the whole text
  goes through `snprintf` into an 8-byte buffer, so at most 7 characters
  survive. `Parse` is an independent reading of the label used to state
  that the rendering loses nothing on the durations it was written for.
 */
module AmountText {
  import opened Options

  /** Size of the static label buffer, terminating NUL included. */
  const BufferSize: nat := 8
  /** Separator written between the minute and the second fields. */
  const Separator: string := " : "
  /** First duration whose minute field no longer fits in two digits. */
  const FormatLimit: int := 6000

  predicate IsDigit(c: char) {
    '0' <= c <= '9'
  }

  function Digit(d: int): (c: char)
    requires 0 <= d <= 9
    ensures IsDigit(c) && DigitValue(c) == d
  {
    (48 + d) as char
  }

  function DigitValue(c: char): int {
    c as int - 48
  }

  predicate AllDigits(s: string) {
    forall i :: 0 <= i < |s| ==> IsDigit(s[i])
  }

  /** The number a string of decimal digits denotes. */
  function Value(s: string): int
    requires AllDigits(s)
  {
    if |s| == 0 then 0 else Value(s[..|s| - 1]) * 10 + DigitValue(s[|s| - 1])
  }

  /** The decimal digits of a natural number, most significant first. */
  function Decimal(n: nat): (r: string)
    ensures 1 <= |r| && AllDigits(r)
    ensures Value(r) == n
    ensures 2 <= |r| <==> 10 <= n
    ensures |r| >= 2 ==> r[0] != '0'
  {
    if n < 10 then [Digit(n)]
    else
      var front := Decimal(n / 10);
      assert (front + [Digit(n % 10)])[..|front|] == front;
      front + [Digit(n % 10)]
  }

  /** What `%d` prints for a C int. */
  function IntText(n: int): (r: string)
    ensures 1 <= |r|
    ensures r[0] == '-' <==> n < 0
    ensures n >= 0 ==> AllDigits(r) && Value(r) == n
    ensures n < 0 ==> AllDigits(r[1..]) && Value(r[1..]) == -n
    ensures n >= 0 && |r| >= 2 ==> r[0] != '0'
    ensures n < 0 ==> |r| >= 2
    ensures n < 0 && |r| >= 3 ==> r[1] != '0'
  {
    if n < 0 then "-" + Decimal(-n) else Decimal(n)
  }

  /** C division of `a` by a positive `d`, which truncates toward zero. */
  function CQuotient(a: int, d: int): (q: int)
    requires d > 0
    ensures a >= 0 ==> 0 <= a - q * d < d
    ensures a < 0 ==> -d < a - q * d <= 0
  {
    if a >= 0 then a / d else -((-a) / d)
  }

  /** The zero the label puts in front of a field below ten. */
  function Pad(n: int): string {
    if n < 10 then "0" else ""
  }

  /** What `snprintf` leaves in the label buffer: at most `BufferSize - 1` characters. */
  function Fit(s: string): (r: string)
    ensures |r| < BufferSize
    ensures r <= s
    ensures |s| < BufferSize ==> r == s
    ensures |s| >= BufferSize ==> |r| == BufferSize - 1
  {
    if |s| < BufferSize then s else s[..BufferSize - 1]
  }

  /** The label `setTimerAmountText` writes for a duration of `amount` seconds. */
  function Text(amount: int): (r: string)
    ensures |r| < BufferSize
  {
    var minutes := CQuotient(amount, 60);
    var seconds := amount - minutes * 60;
    Fit(Field(minutes) + Separator + Field(seconds))
  }

  /** The shape of a well-formed label: two digits, " : ", two digits. */
  predicate WellFormed(t: string) {
    && |t| == 7
    && IsDigit(t[0]) && IsDigit(t[1])
    && t[2..5] == Separator
    && IsDigit(t[5]) && IsDigit(t[6])
  }

  function Minutes(t: string): int
    requires WellFormed(t)
  {
    DigitValue(t[0]) * 10 + DigitValue(t[1])
  }

  function Seconds(t: string): int
    requires WellFormed(t)
  {
    DigitValue(t[5]) * 10 + DigitValue(t[6])
  }

  /** Reads a label back into seconds; labels with a seconds field of 60 or more are rejected. */
  function Parse(t: string): (r: Option<int>)
    ensures r.Some? ==> 0 <= r.value < FormatLimit
    ensures r.Some? <==> WellFormed(t) && Seconds(t) < 60
  {
    if WellFormed(t) && Seconds(t) < 60 then Some(Minutes(t) * 60 + Seconds(t)) else None
  }

  /** One field of the label: the padding followed by what `%d` prints. */
  function Field(n: int): string {
    Pad(n) + IntText(n)
  }

  /** A field below one hundred is written as exactly two digits. */
  lemma TwoDigits(n: int)
    requires 0 <= n < 100
    ensures Field(n) == [Digit(n / 10), Digit(n % 10)]
  {
    if n >= 10 {
      assert Decimal(n) == Decimal(n / 10) + [Digit(n % 10)];
    }
  }

  /** A two-digit field reads back as the number it was written from. */
  lemma FieldValue(n: int)
    requires 0 <= n < 100
    ensures |Field(n)| == 2 && IsDigit(Field(n)[0]) && IsDigit(Field(n)[1])
    ensures DigitValue(Field(n)[0]) * 10 + DigitValue(Field(n)[1]) == n
  {
    TwoDigits(n);
  }

  /** Two digits are the field of the number they denote. */
  lemma FieldOfDigits(c0: char, c1: char)
    requires IsDigit(c0) && IsDigit(c1)
    ensures Field(DigitValue(c0) * 10 + DigitValue(c1)) == [c0, c1]
  {
    var n := DigitValue(c0) * 10 + DigitValue(c1);
    assert n / 10 == DigitValue(c0) && n % 10 == DigitValue(c1);
    TwoDigits(n);
  }

  /** Below `FormatLimit` nothing is cut off: the label is the two fields around the separator. */
  lemma TextSplit(amount: int)
    requires 0 <= amount < FormatLimit
    ensures Text(amount) == Field(amount / 60) + Separator + Field(amount % 60)
  {
    assert CQuotient(amount, 60) == amount / 60;
    assert amount - (amount / 60) * 60 == amount % 60;
    TwoDigits(amount / 60);
    TwoDigits(amount % 60);
  }

  /**
    Below `FormatLimit` the label is "MM : SS" with zero-padded two-digit
    fields, the seconds field is below 60 and the fields add back up to the
    duration.
   */
  lemma TextFields(amount: int)
    requires 0 <= amount < FormatLimit
    ensures WellFormed(Text(amount))
    ensures |Text(amount)| == BufferSize - 1
    ensures Seconds(Text(amount)) < 60
    ensures Minutes(Text(amount)) * 60 + Seconds(Text(amount)) == amount
  {
    var m := amount / 60;
    var s := amount % 60;
    var t := Text(amount);
    TextSplit(amount);
    FieldValue(m);
    FieldValue(s);
    var f := Field(m);
    var g := Field(s);
    assert t == f + Separator + g;
    assert t[0] == f[0] && t[1] == f[1] && t[5] == g[0] && t[6] == g[1];
    assert t[2..5] == Separator;
    assert Minutes(t) == m && Seconds(t) == s;
  }

  /** Reading a label back gives the duration it was rendered from. */
  lemma ParseText(amount: int)
    requires 0 <= amount < FormatLimit
    ensures Parse(Text(amount)) == Some(amount)
  {
    TextFields(amount);
  }

  /** Every label `Parse` accepts is the rendering of the duration it reads. */
  lemma TextParse(t: string)
    requires Parse(t).Some?
    ensures Text(Parse(t).value) == t
  {
    var m := Minutes(t);
    var s := Seconds(t);
    var a := m * 60 + s;
    assert Parse(t).value == a;
    assert a / 60 == m && a % 60 == s;
    TextSplit(a);
    FieldOfDigits(t[0], t[1]);
    FieldOfDigits(t[5], t[6]);
    Spelled(t);
  }

  /** A well-formed label, spelled out character by character. */
  lemma Spelled(t: string)
    requires WellFormed(t)
    ensures t == [t[0], t[1], ' ', ':', ' ', t[5], t[6]]
  {
    assert t[2] == t[2..5][0] && t[3] == t[2..5][1] && t[4] == t[2..5][2];
  }

  /** Rendering is one-to-one on the durations below `FormatLimit`. */
  lemma TextInjective(a: int, b: int)
    requires 0 <= a < FormatLimit && 0 <= b < FormatLimit
    requires Text(a) == Text(b)
    ensures a == b
  {
    ParseText(a);
    ParseText(b);
  }

  /** A negative minute count puts its '-' where the second minute digit belongs. */
  lemma NegativeMinutesUnreadable(amount: int)
    requires CQuotient(amount, 60) < 0
    ensures !WellFormed(Text(amount))
  {
    var minutes := CQuotient(amount, 60);
    var seconds := amount - minutes * 60;
    var head := Field(minutes);
    var raw := head + Separator + Field(seconds);
    assert head[1] == '-';
    assert raw[1] == head[1];
    assert Text(amount)[1] == raw[1];
  }

  /** Less than a minute below zero leaves "00 : 0" followed by the '-' of the seconds. */
  lemma NegativeSecondsUnreadable(amount: int)
    requires -60 < amount < 0
    ensures !WellFormed(Text(amount))
  {
    assert CQuotient(amount, 60) == 0;
    var head := Field(0);
    assert head == "00";
    var tail := Field(amount);
    assert tail[1] == '-';
    var raw := head + Separator + tail;
    assert raw[6] == tail[1];
    assert Text(amount)[6] == raw[6];
  }

  /** A minute count of three digits or more pushes a digit onto the separator. */
  lemma WideMinutesUnreadable(amount: int)
    requires amount >= FormatLimit
    ensures !WellFormed(Text(amount))
  {
    var minutes := CQuotient(amount, 60);
    var seconds := amount - minutes * 60;
    assert minutes >= 100;
    var head := Field(minutes);
    assert head == Decimal(minutes) by {
      assert Pad(minutes) == "" && IntText(minutes) == Decimal(minutes);
    }
    var front := Decimal(minutes / 10);
    assert Decimal(minutes) == front + [Digit(minutes % 10)];
    assert |front| >= 2;
    assert |head| >= 3 && IsDigit(head[2]);
    var raw := head + Separator + Field(seconds);
    assert raw[2] == head[2];
    var t := Text(amount);
    assert t[2] == raw[2];
    if |t| == 7 {
      assert t[2..5][0] == t[2];
    }
  }

  /**
    Exactly the durations in [0, `FormatLimit`) render to a readable label;
    every other duration renders to something `Parse` rejects.
   */
  lemma ReadableExactly(amount: int)
    ensures Parse(Text(amount)).Some? <==> 0 <= amount < FormatLimit
  {
    if 0 <= amount < FormatLimit {
      ParseText(amount);
    } else if amount >= FormatLimit {
      WideMinutesUnreadable(amount);
    } else if amount <= -60 {
      NegativeMinutesUnreadable(amount);
    } else {
      NegativeSecondsUnreadable(amount);
    }
  }
}

/**
 Dates and times of the configuration reader (cpptoml.h): the stream printers and the parser
 for local dates, local date-times and offset date-times (section 5.6 of RFC 3339). A parser
 takes the text from its current position on and returns what it leaves.
 */
module DateTimes {
  import opened Endian
  import opened Decimal

  datatype Date = Date(year: int, month: int, day: int)

  datatype Time = Time(hour: int, minute: int, second: int, microsecond: int)

  datatype Offset = Offset(hours: int, minutes: int)

  datatype Value =
    | LocalDate(date: Date)
    | LocalDateTime(date: Date, time: Time)
    | OffsetDateTime(date: Date, time: Time, offset: Offset)

  datatype Parsed<+T> = Malformed | Ok(value: T, rest: Bytes)

  predicate IsNumber(c: char) { '0' <= c <= '9' }

  // ----- printing

  function Zeros(n: nat): Bytes {
    seq(n, _ => '0')
  }

  /** os.fill('0') with setw(w), for a number that is not negative. */
  function Pad(w: nat, n: nat): Bytes {
    var s := ToDecimal(n);
    if |s| >= w then s else Zeros(w - |s|) + s
  }

  function PrintDate(d: Date): Bytes
    requires ValidDate(d)
  {
    Pad(4, d.year) + "-" + Pad(2, d.month) + "-" + Pad(2, d.day)
  }

  predicate TwoDigits(n: int) { 0 <= n < 100 }

  predicate ValidDate(d: Date) {
    0 <= d.year < 10000 && TwoDigits(d.month) && TwoDigits(d.day)
  }

  predicate ValidTime(t: Time) {
    TwoDigits(t.hour) && TwoDigits(t.minute) && TwoDigits(t.second) && 0 <= t.microsecond < 1000000
  }

  predicate ValidOffset(o: Offset) {
    -100 < o.hours < 100 && -100 < o.minutes < 100
  }

  predicate DecimalUnit(p: nat) {
    p == 100000 || p == 10000 || p == 1000 || p == 100 || p == 10 || p == 1
  }

  lemma UnitDivision(us: nat, power: nat)
    requires DecimalUnit(power) && us < 10 * power
    ensures us / power < 10 && us % power == us - us / power * power
    ensures us % power == 0 || (DecimalUnit(power / 10) && us % power < 10 * (power / 10))
  {
  }

  /** Digits of a fraction, the first worth `power`, none after the last that is not zero. */
  function MicroDigits(us: nat, power: nat): Bytes
    requires us == 0 || (DecimalUnit(power) && us < 10 * power)
    decreases power, us
  {
    if us == 0 then [] else
    UnitDivision(us, power);
    ToDecimal(us / power) + MicroDigits(us % power, power / 10)
  }

  /** Done so far, and what is left to print. */
  ghost predicate Printing(text: Bytes, curr: nat, power: nat, all: Bytes) {
    (curr == 0 || (DecimalUnit(power) && curr < 10 * power)) && text + MicroDigits(curr, power) == all
  }

  /** One turn of the printing loop. */
  method PrintDigit(text: Bytes, curr: nat, power: nat, ghost all: Bytes) returns (more: Bytes, left: nat, unit: nat)
    requires curr != 0 && Printing(text, curr, power, all)
    ensures unit < power && Printing(more, left, unit, all)
  {
    UnitDivision(curr, power);
    var num := curr / power;
    more := text + ToDecimal(num);
    left := curr - num * power;
    unit := power / 10;
  }

  /** The printing loop; the remainder stays below ten times the current power. */
  method PrintMicros(us: nat) returns (text: Bytes)
    requires us < 1000000
    ensures text == MicroDigits(us, 100000)
  {
    text := [];
    var power: nat, curr: nat := 100000, us;
    ghost var all := MicroDigits(curr, power);
    while curr != 0
      invariant Printing(text, curr, power, all)
      decreases power
    {
      text, curr, power := PrintDigit(text, curr, power, all);
    }
    assert text + [] == text;
  }

  function PrintTime(t: Time): Bytes
    requires ValidTime(t)
  {
    Pad(2, t.hour) + ":" + Pad(2, t.minute) + ":" + Pad(2, t.second)
    + if t.microsecond > 0 then "." + MicroDigits(t.microsecond, 100000) else []
  }

  function Abs(x: int): nat { if x < 0 then -x else x }

  function PrintOffset(o: Offset): Bytes {
    if o.hours != 0 || o.minutes != 0
    then (if o.hours > 0 then "+" else "-") + Pad(2, Abs(o.hours)) + ":" + Pad(2, Abs(o.minutes))
    else "Z"
  }

  function Print(v: Value): Bytes
    requires ValidDate(v.date) && (v.LocalDate? || ValidTime(v.time))
  {
    match v
    case LocalDate(d) => PrintDate(d)
    case LocalDateTime(d, t) => PrintDate(d) + "T" + PrintTime(t)
    case OffsetDateTime(d, t, o) => PrintDate(d) + "T" + PrintTime(t) + PrintOffset(o)
  }

  // ----- parsing

  function Eat(c: char, s: Bytes): Parsed<()> {
    if s == [] || s[0] != c then Malformed else Ok((), s[1..])
  }

  function EatDigits(len: nat, s: Bytes, acc: int): Parsed<int>
    decreases len
  {
    if len == 0 then Ok(acc, s)
    else if s == [] || !IsNumber(s[0]) then Malformed
    else EatDigits(len - 1, s[1..], 10 * acc + DigitValue(s[0]))
  }

  /** The digits after the point; those beyond the sixth are worth nothing. */
  function ReadMicros(s: Bytes, power: nat, acc: int): (r: Parsed<int>)
    ensures r.Ok?
    decreases |s|
  {
    if s == [] || !IsNumber(s[0]) then Ok(acc, s)
    else ReadMicros(s[1..], power / 10, acc + power * DigitValue(s[0]))
  }

  /** consumer::eat_digits as the loop it is. */
  method EatDigitsLoop(len: nat, s: Bytes) returns (r: Parsed<int>)
    ensures r == EatDigits(len, s, 0)
  {
    var val, rest, i := 0, s, 0;
    while i < len
      invariant i <= len
      invariant EatDigits(len - i, rest, val) == EatDigits(len, s, 0)
    {
      if rest == [] || !IsNumber(rest[0]) {
        return Malformed;
      }
      val, rest, i := 10 * val + DigitValue(rest[0]), rest[1..], i + 1;
    }
    r := Ok(val, rest);
  }

  /** The fraction loop of read_time. */
  method ReadMicrosLoop(s: Bytes) returns (r: Parsed<int>)
    ensures r == ReadMicros(s, 100000, 0)
  {
    var power, micros, rest := 100000, 0, s;
    while rest != [] && IsNumber(rest[0])
      invariant power >= 0
      invariant ReadMicros(rest, power, micros) == ReadMicros(s, 100000, 0)
      decreases |rest|
    {
      micros, rest := micros + power * DigitValue(rest[0]), rest[1..];
      power := power / 10;
    }
    r := Ok(micros, rest);
  }

  /** Length of the longest prefix of such characters: std::find_if of the negation. */
  function Span(s: Bytes, f: char -> bool): (n: nat)
    ensures n <= |s| && (forall i :: 0 <= i < n ==> f(s[i])) && (n < |s| ==> !f(s[n]))
  {
    if s == [] || !f(s[0]) then 0 else 1 + Span(s[1..], f)
  }

  predicate TimeChar(c: char) { IsNumber(c) || c == ':' || c == '.' }

  predicate DateChar(c: char) { IsNumber(c) || c == '-' }

  predicate DateTimeChar(c: char) { TimeChar(c) || c == 'T' || c == 'Z' || c == '-' || c == '+' }

  function EndOfDate(s: Bytes): (n: nat)
    ensures n <= |s|
  {
    var d := Span(s, DateChar);
    var e := if d + 1 < |s| && s[d] == ' ' && IsNumber(s[d + 1]) then d + 1 else d;
    e + Span(s[e..], DateTimeChar)
  }

  function Three(len: nat, mark: char, s: Bytes): Parsed<(int, int, int)> {
    var a := EatDigits(len, s, 0);
    if a.Malformed? then Malformed else
    var m := Eat(mark, a.rest);
    if m.Malformed? then Malformed else
    var b := EatDigits(2, m.rest, 0);
    if b.Malformed? then Malformed else
    var n := Eat(mark, b.rest);
    if n.Malformed? then Malformed else
    var c := EatDigits(2, n.rest, 0);
    if c.Malformed? then Malformed else Ok((a.value, b.value, c.value), c.rest)
  }

  function ReadFraction(s: Bytes): (r: Parsed<int>)
    ensures r.Ok?
  {
    if s != [] && s[0] == '.' then ReadMicros(s[1..], 100000, 0) else Ok(0, s)
  }

  /** Hours, minutes, seconds and fraction; nothing may be left. */
  function TimeOf(s: Bytes): Parsed<Time> {
    var hms := Three(2, ':', s);
    if hms.Malformed? then Malformed
    else
      var f := ReadFraction(hms.rest);
      if f.rest != [] then Malformed else Ok(Time(hms.value.0, hms.value.1, hms.value.2, f.value), [])
  }

  function ReadTime(s: Bytes): Parsed<Time> {
    var end := Span(s, TimeChar);
    var t := TimeOf(s[..end]);
    if t.Malformed? then Malformed else Ok(t.value, s[end..])
  }

  /** Two digits, a colon and two digits. */
  function HoursMinutes(s: Bytes): Parsed<(int, int)> {
    var h := EatDigits(2, s, 0);
    if h.Malformed? then Malformed else
    var c := Eat(':', h.rest);
    if c.Malformed? then Malformed else
    var m := EatDigits(2, c.rest, 0);
    if m.Malformed? then Malformed else Ok((h.value, m.value), m.rest)
  }

  function ReadOffset(s: Bytes): Parsed<Offset>
    requires s != []
  {
    if s[0] == '+' || s[0] == '-' then
      var hm := HoursMinutes(s[1..]);
      if hm.Malformed? then Malformed
      else Ok(if s[0] == '+' then Offset(hm.value.0, hm.value.1) else Offset(-hm.value.0, -hm.value.1), hm.rest)
    else Ok(Offset(0, 0), if s[0] == 'Z' then s[1..] else s)
  }

  /** The part of parse_date behind the date. */
  function ParseRest(date: Date, s: Bytes): Parsed<Value> {
    if s == [] then Ok(LocalDate(date), [])
    else if s[0] != 'T' && s[0] != ' ' then Malformed
    else
      var t := ReadTime(s[1..]);
      if t.Malformed? then Malformed
      else if t.rest == [] then Ok(LocalDateTime(date, t.value), [])
      else
        var o := ReadOffset(t.rest);
        if o.Malformed? || o.rest != [] then Malformed
        else Ok(OffsetDateTime(date, t.value, o.value), [])
  }

  function ParseDate(s: Bytes): Parsed<Value> {
    var end := EndOfDate(s);
    var ymd := Three(4, '-', s[..end]);
    if ymd.Malformed? then Malformed
    else
      var v := ParseRest(Date(ymd.value.0, ymd.value.1, ymd.value.2), ymd.rest);
      if v.Malformed? then Malformed else Ok(v.value, s[end..])
  }

  // ----- fields

  predicate AllDigits(s: Bytes) {
    forall i :: 0 <= i < |s| ==> IsNumber(s[i])
  }

  lemma {:induction false} EatAll(d: Bytes, rest: Bytes, acc: nat)
    requires AllDigits(d)
    ensures EatDigits(|d|, d + rest, acc) == Ok(ReadDigits(10, d, acc), rest)
    decreases |d|
  {
    if d == [] {
      assert d + rest == rest;
    } else {
      assert (d + rest)[1..] == d[1..] + rest;
      EatAll(d[1..], rest, 10 * acc + DigitValue(d[0]));
    }
  }

  lemma {:induction false} LeadingZeros(n: nat, s: Bytes)
    ensures ReadDigits(10, Zeros(n) + s, 0) == ReadDigits(10, s, 0)
  {
    if n == 0 {
      assert Zeros(0) + s == s;
    } else {
      assert (Zeros(n) + s)[1..] == Zeros(n - 1) + s;
      LeadingZeros(n - 1, s);
    }
  }

  lemma DecimalLength(n: nat)
    ensures n < 100 ==> |ToDecimal(n)| <= 2
    ensures n < 10000 ==> |ToDecimal(n)| <= 4
  {
    assert n < 10000 ==> n / 10 < 1000 && n / 10 / 10 < 100;
    assert n / 10 < 1000 ==> |ToDecimal(n / 10)| <= 3;
  }

  /** A padded field has its width, consists of digits, and reads back as its number. */
  lemma PadField(w: nat, n: nat)
    requires (w == 2 && n < 100) || (w == 4 && n < 10000)
    ensures |Pad(w, n)| == w && AllDigits(Pad(w, n)) && ReadDigits(10, Pad(w, n), 0) == n
  {
    DecimalLength(n);
    ReadDecimal(n);
    LeadingZeros(w - |ToDecimal(n)|, ToDecimal(n));
  }

  lemma EatField(w: nat, n: nat, rest: Bytes)
    requires (w == 2 && n < 100) || (w == 4 && n < 10000)
    ensures EatDigits(w, Pad(w, n) + rest, 0) == Ok(n, rest)
  {
    PadField(w, n);
    EatAll(Pad(w, n), rest, 0);
  }

  /** Three fields between two marks. */
  function ThreeText(w: nat, a: nat, mark: char, b: nat, c: nat): Bytes {
    Pad(w, a) + ([mark] + (Pad(2, b) + ([mark] + Pad(2, c))))
  }

  lemma Reassociate(a: Bytes, m: Bytes, b: Bytes, c: Bytes, rest: Bytes)
    ensures (a + (m + (b + (m + c)))) + rest == a + (m + (b + (m + (c + rest))))
  {
  }

  lemma EatThree(w: nat, a: nat, mark: char, b: nat, c: nat, rest: Bytes)
    requires (w == 2 && a < 100) || (w == 4 && a < 10000)
    requires b < 100 && c < 100
    ensures Three(w, mark, ThreeText(w, a, mark, b, c) + rest) == Ok((a, b, c), rest)
  {
    var tc := Pad(2, c) + rest;
    var tb := Pad(2, b) + ([mark] + tc);
    Reassociate(Pad(w, a), [mark], Pad(2, b), Pad(2, c), rest);
    EatField(w, a, [mark] + tb);
    assert ([mark] + tb)[1..] == tb;
    EatField(2, b, [mark] + tc);
    assert ([mark] + tc)[1..] == tc;
    EatField(2, c, rest);
  }

  // ----- fractions

  lemma MicroCons(us: nat, power: nat)
    requires us != 0 && DecimalUnit(power) && us < 10 * power
    ensures us / power < 10 && (us % power == 0 || (DecimalUnit(power / 10) && us % power < 10 * (power / 10)))
    ensures MicroDigits(us, power) == [Digit(us / power)] + MicroDigits(us % power, power / 10)
  {
    UnitDivision(us, power);
  }

  lemma {:induction false} MicroDigitsAreDigits(us: nat, power: nat)
    requires us == 0 || (DecimalUnit(power) && us < 10 * power)
    ensures AllDigits(MicroDigits(us, power))
    decreases power
  {
    if us != 0 {
      MicroCons(us, power);
      MicroDigitsAreDigits(us % power, power / 10);
    }
  }

  /** The digits after the point read back as the microseconds they were printed from. */
  lemma {:induction false} MicrosRoundTrip(us: nat, power: nat, acc: int)
    requires us == 0 || (DecimalUnit(power) && us < 10 * power)
    ensures ReadMicros(MicroDigits(us, power), power, acc) == Ok(acc + us, [])
    decreases power
  {
    if us != 0 {
      MicroCons(us, power);
      var q, r := us / power, us % power;
      var next := acc + power * q;
      ReadMicrosCons(Digit(q), MicroDigits(r, power / 10), power, acc);
      MicrosRoundTrip(r, power / 10, next);
      assert next + r == acc + us by { UnitDivision(us, power); }
    }
  }

  lemma ReadMicrosCons(d: char, rest: Bytes, power: nat, acc: int)
    requires IsNumber(d)
    ensures ReadMicros([d] + rest, power, acc) == ReadMicros(rest, power / 10, acc + power * DigitValue(d))
  {
    assert ([d] + rest)[1..] == rest;
  }

  // ----- times

  lemma {:induction false} SpanAll(a: Bytes, rest: Bytes, f: char -> bool)
    requires forall i :: 0 <= i < |a| ==> f(a[i])
    requires rest == [] || !f(rest[0])
    ensures Span(a + rest, f) == |a|
  {
    if a == [] {
      assert a + rest == rest;
    } else {
      assert (a + rest)[1..] == a[1..] + rest;
      SpanAll(a[1..], rest, f);
    }
  }

  function Fraction(us: nat): Bytes
    requires us < 1000000
  {
    if us > 0 then ['.'] + MicroDigits(us, 100000) else []
  }

  lemma PrintTimeIs(t: Time)
    requires ValidTime(t)
    ensures PrintTime(t) == ThreeText(2, t.hour, ':', t.minute, t.second) + Fraction(t.microsecond)
  {
  }

  lemma ThreeTextChars(w: nat, a: nat, mark: char, b: nat, c: nat, f: char -> bool)
    requires (w == 2 && a < 100) || (w == 4 && a < 10000)
    requires b < 100 && c < 100 && f(mark) && forall ch: char :: IsNumber(ch) ==> f(ch)
    ensures forall i :: 0 <= i < |ThreeText(w, a, mark, b, c)| ==> f(ThreeText(w, a, mark, b, c)[i])
  {
    PadField(w, a);
    PadField(2, b);
    PadField(2, c);
  }

  lemma PrintTimeChars(t: Time)
    requires ValidTime(t)
    ensures forall i :: 0 <= i < |PrintTime(t)| ==> TimeChar(PrintTime(t)[i])
  {
    PrintTimeIs(t);
    ThreeTextChars(2, t.hour, ':', t.minute, t.second, TimeChar);
    MicroDigitsAreDigits(t.microsecond, 100000);
  }

  lemma FractionRoundTrip(us: nat)
    requires us < 1000000
    ensures ReadFraction(Fraction(us)) == Ok(us, [])
  {
    if us > 0 {
      MicrosRoundTrip(us, 100000, 0);
      assert Fraction(us)[1..] == MicroDigits(us, 100000);
    }
  }

  lemma TimeOfPrinted(t: Time)
    requires ValidTime(t)
    ensures TimeOf(PrintTime(t)) == Ok(t, [])
  {
    var f := Fraction(t.microsecond);
    PrintTimeIs(t);
    EatThree(2, t.hour, ':', t.minute, t.second, f);
    FractionRoundTrip(t.microsecond);
  }

  lemma TimeRoundTrip(t: Time, rest: Bytes)
    requires ValidTime(t) && (rest == [] || !TimeChar(rest[0]))
    ensures ReadTime(PrintTime(t) + rest) == Ok(t, rest)
  {
    var text := PrintTime(t);
    PrintTimeChars(t);
    SpanAll(text, rest, TimeChar);
    assert (text + rest)[..|text|] == text && (text + rest)[|text|..] == rest;
    TimeOfPrinted(t);
  }

  // ----- offsets

  /** Printing keeps one sign for both parts: the hours'. */
  predicate SameSign(o: Offset) {
    (o.hours > 0 && o.minutes >= 0) || (o.hours <= 0 && o.minutes <= 0)
  }

  /** What comes back for an offset: both parts with the sign printed in front. */
  function Reread(o: Offset): Offset {
    Offset(o.hours, if o.hours > 0 then Abs(o.minutes) else -(Abs(o.minutes) as int))
  }

  lemma OffsetText(o: Offset)
    requires ValidOffset(o) && o != Offset(0, 0)
    ensures PrintOffset(o) == [if o.hours > 0 then '+' else '-'] + (Pad(2, Abs(o.hours)) + ([':'] + Pad(2, Abs(o.minutes))))
  {
  }

  lemma ReadHoursMinutes(h: nat, m: nat)
    requires h < 100 && m < 100
    ensures HoursMinutes(Pad(2, h) + ([':'] + Pad(2, m))) == Ok((h, m), [])
  {
    var minutes := Pad(2, m);
    EatField(2, h, [':'] + minutes);
    assert ([':'] + minutes)[1..] == minutes;
    assert minutes == minutes + [];
    EatField(2, m, []);
  }

  lemma ReadSigned(sign: char, digits: Bytes, h: int, m: int)
    requires (sign == '+' || sign == '-') && HoursMinutes(digits) == Ok((h, m), [])
    ensures ReadOffset([sign] + digits) == Ok(if sign == '+' then Offset(h, m) else Offset(-h, -m), [])
  {
    assert ([sign] + digits)[1..] == digits;
  }

  lemma ReadPrintedOffset(o: Offset)
    requires ValidOffset(o)
    ensures PrintOffset(o) != [] && ReadOffset(PrintOffset(o)) == Ok(Reread(o), [])
  {
    if o != Offset(0, 0) {
      OffsetText(o);
      ReadHoursMinutes(Abs(o.hours), Abs(o.minutes));
      ReadSigned(if o.hours > 0 then '+' else '-', Pad(2, Abs(o.hours)) + ([':'] + Pad(2, Abs(o.minutes))), Abs(o.hours), Abs(o.minutes));
    }
  }

  lemma OffsetChars(o: Offset)
    requires ValidOffset(o)
    ensures PrintOffset(o) != [] && !TimeChar(PrintOffset(o)[0])
    ensures forall i :: 0 <= i < |PrintOffset(o)| ==> DateTimeChar(PrintOffset(o)[i])
  {
    if o != Offset(0, 0) {
      OffsetText(o);
      PadField(2, Abs(o.hours));
      PadField(2, Abs(o.minutes));
    }
  }

  // ----- whole values

  predicate Valid(v: Value) {
    && ValidDate(v.date)
    && (!v.LocalDate? ==> ValidTime(v.time))
    && (v.OffsetDateTime? ==> ValidOffset(v.offset))
  }

  /** What may follow a value: nothing that could be taken for part of a date or time. */
  predicate Boundary(rest: Bytes) {
    rest == [] || (!DateTimeChar(rest[0]) && !(|rest| > 1 && rest[0] == ' ' && IsNumber(rest[1])))
  }

  lemma PrintDateIs(d: Date)
    requires ValidDate(d)
    ensures PrintDate(d) == ThreeText(4, d.year, '-', d.month, d.day)
  {
  }

  /** The printed text behind the date. */
  function Tail(v: Value): Bytes
    requires Valid(v)
  {
    match v
    case LocalDate(_) => []
    case LocalDateTime(_, t) => ['T'] + PrintTime(t)
    case OffsetDateTime(_, t, o) => ['T'] + (PrintTime(t) + PrintOffset(o))
  }

  lemma PrintIs(v: Value)
    requires Valid(v)
    ensures Print(v) == PrintDate(v.date) + Tail(v)
  {
  }

  lemma TailChars(v: Value)
    requires Valid(v)
    ensures forall i :: 0 <= i < |Tail(v)| ==> DateTimeChar(Tail(v)[i])
    ensures Tail(v) != [] ==> Tail(v)[0] == 'T'
  {
    if !v.LocalDate? {
      PrintTimeChars(v.time);
      if v.OffsetDateTime? {
        OffsetChars(v.offset);
      }
    }
  }

  lemma EndOfDateIs(s: Bytes, d: nat, n: nat)
    requires Span(s, DateChar) == d && !(d + 1 < |s| && s[d] == ' ' && IsNumber(s[d + 1]))
    requires Span(s[d..], DateTimeChar) == n
    ensures EndOfDate(s) == d + n
  {
  }

  /** A date of date characters, a tail of date-time characters, and something else. */
  lemma FindsEndOf(d: Bytes, t: Bytes, rest: Bytes)
    requires forall i :: 0 <= i < |d| ==> DateChar(d[i])
    requires forall i :: 0 <= i < |t| ==> DateTimeChar(t[i])
    requires (t != [] ==> t[0] == 'T') && Boundary(rest)
    ensures EndOfDate(d + (t + rest)) == |d| + |t|
  {
    var s := d + (t + rest);
    assert t == [] ==> t + rest == rest;
    SpanAll(d, t + rest, DateChar);
    assert s[|d|..] == t + rest;
    SpanAll(t, rest, DateTimeChar);
    EndOfDateIs(s, |d|, |t|);
  }

  lemma Associate(a: Bytes, b: Bytes, c: Bytes)
    ensures (a + b) + c == a + (b + c)
  {
  }

  lemma FindsEnd(v: Value, rest: Bytes)
    requires Valid(v) && Boundary(rest)
    ensures EndOfDate(Print(v) + rest) == |Print(v)|
  {
    PrintIs(v);
    Associate(PrintDate(v.date), Tail(v), rest);
    PrintDateIs(v.date);
    ThreeTextChars(4, v.date.year, '-', v.date.month, v.date.day, DateChar);
    TailChars(v);
    FindsEndOf(PrintDate(v.date), Tail(v), rest);
  }

  function Returned(v: Value): Value {
    if v.OffsetDateTime? then v.(offset := Reread(v.offset)) else v
  }

  lemma ParsePrintedRest(v: Value)
    requires Valid(v)
    ensures ParseRest(v.date, Tail(v)) == Ok(Returned(v), [])
  {
    var t := Tail(v);
    match v
    case LocalDate(_) =>
    case LocalDateTime(_, time) =>
      assert t[1..] == PrintTime(time) + [];
      TimeRoundTrip(time, []);
    case OffsetDateTime(_, time, offset) =>
      OffsetChars(offset);
      ReadPrintedOffset(offset);
      assert t[1..] == PrintTime(time) + PrintOffset(offset);
      TimeRoundTrip(time, PrintOffset(offset));
  }

  lemma ParseParts(text: Bytes, rest: Bytes, y: int, m: int, d: int, tail: Bytes, v: Value)
    requires EndOfDate(text + rest) == |text|
    requires Three(4, '-', text) == Ok((y, m, d), tail) && ParseRest(Date(y, m, d), tail) == Ok(v, [])
    ensures ParseDate(text + rest) == Ok(v, rest)
  {
    assert (text + rest)[..|text|] == text && (text + rest)[|text|..] == rest;
  }

  lemma ParsePrinted(v: Value, rest: Bytes)
    requires Valid(v) && Boundary(rest)
    ensures ParseDate(Print(v) + rest) == Ok(Returned(v), rest)
  {
    var d := v.date;
    FindsEnd(v, rest);
    PrintIs(v);
    PrintDateIs(d);
    EatThree(4, d.year, '-', d.month, d.day, Tail(v));
    ParsePrintedRest(v);
    ParseParts(Print(v), rest, d.year, d.month, d.day, Tail(v), Returned(v));
  }

  /** The two parts of the offset have the sign that is printed. */
  predicate SignsAgree(v: Value) {
    v.OffsetDateTime? ==> SameSign(v.offset)
  }

  /**
   Printing and then parsing returns the same value and stops at its end, in any text that goes
   on after it, exactly if the offset's parts agree in sign: an offset of zero hours and some
   minutes east, or of mixed signs, comes back as another one.
   */
  lemma RoundTripIffSignsAgree(v: Value, rest: Bytes)
    requires Valid(v) && Boundary(rest)
    ensures ParseDate(Print(v) + rest) == Ok(v, rest) <==> SignsAgree(v)
  {
    ParsePrinted(v, rest);
    SameIffSignsAgree(v);
  }

  lemma SameIffSignsAgree(v: Value)
    ensures Returned(v) == v <==> SignsAgree(v)
  {
  }

  lemma HalfHourEastTurnsWest(date: Date, time: Time)
    requires ValidDate(date) && ValidTime(time)
    ensures ParseDate(Print(OffsetDateTime(date, time, Offset(0, 30)))) ==
            Ok(OffsetDateTime(date, time, Offset(0, -30)), [])
  {
    var v := OffsetDateTime(date, time, Offset(0, 30));
    ParsePrinted(v, []);
    assert Print(v) + [] == Print(v);
  }

  // ----- the text itself

  /** The characters dates and times are made of. */
  lemma CharactersAre(c: char)
    ensures TimeChar(c) <==> c in "0123456789:."
    ensures DateChar(c) <==> c in "0123456789-"
    ensures DateTimeChar(c) <==> c in "0123456789:.TZ-+"
  {
    assert IsNumber(c) <==> c in "0123456789" by {
      if IsNumber(c) { assert "0123456789"[c as int - 48] == c; }
    }
    assert "0123456789:." == "0123456789" + ":.";
    assert "0123456789-" == "0123456789" + "-";
    assert "0123456789:.TZ-+" == "0123456789" + ":.TZ-+";
  }

  /** Exactly so many digits and their number, or an error. */
  lemma {:induction false} EatDigitsIff(len: nat, s: Bytes, acc: nat)
    ensures EatDigits(len, s, acc) ==
            if len <= |s| && AllDigits(s[..len]) then Ok(ReadDigits(10, s[..len], acc), s[len..]) else Malformed
    decreases len
  {
    if len > 0 && s != [] {
      if IsNumber(s[0]) {
        EatDigitsIff(len - 1, s[1..], 10 * acc + DigitValue(s[0]));
        if len <= |s| {
          assert s[..len][1..] == s[1..][..len - 1] && s[1..][len - 1..] == s[len..];
          assert AllDigits(s[..len]) <==> AllDigits(s[1..][..len - 1]) by {
            assert s[..len] == [s[0]] + s[1..][..len - 1];
          }
        }
      } else if len <= |s| {
        assert s[..len][0] == s[0];
      }
    }
  }

  /** The number of `k` digits, with zeros for those missing and nothing for those too many. */
  function FirstDigits(d: Bytes, k: nat): nat {
    if k == 0 || d == [] then 0 else DigitValue(d[0]) * Pow10(k - 1) + FirstDigits(d[1..], k - 1)
  }

  /** What the first of `k` digits is worth. */
  function Unit(k: nat): nat { if k == 0 then 0 else Pow10(k - 1) }

  lemma {:induction false} ReadMicrosIs(d: Bytes, rest: Bytes, k: nat, acc: int)
    requires AllDigits(d) && (rest == [] || !IsNumber(rest[0]))
    ensures ReadMicros(d + rest, Unit(k), acc) == Ok(acc + FirstDigits(d, k), rest)
    decreases |d|
  {
    if d == [] {
      assert d + rest == rest;
    } else {
      assert d + rest == [d[0]] + (d[1..] + rest);
      ReadMicrosCons(d[0], d[1..] + rest, Unit(k), acc);
      var j := if k == 0 then 0 else k - 1;
      assert Unit(k) / 10 == Unit(j);
      ReadMicrosIs(d[1..], rest, j, acc + Unit(k) * DigitValue(d[0]));
    }
  }

  /** Any number of digits behind the point: six of them count. */
  lemma SixDigitsCount(d: Bytes, rest: Bytes)
    requires AllDigits(d) && (rest == [] || !IsNumber(rest[0]))
    ensures ReadMicros(d + rest, 100000, 0) == Ok(FirstDigits(d, 6), rest)
  {
    ReadMicrosIs(d, rest, 6, 0);
    assert Pow10(2) == 100 && Pow10(3) == 1000 && Pow10(5) == 100000;
  }

  lemma ThreeShape(w: nat, a: nat, mark: char, b: nat, c: nat)
    requires (w == 2 && a < 100) || (w == 4 && a < 10000)
    requires b < 100 && c < 100
    ensures var s := ThreeText(w, a, mark, b, c);
            && |s| == w + 6 && s[w] == mark && s[w + 3] == mark
            && s[..w] == Pad(w, a) && s[w + 1..w + 3] == Pad(2, b) && s[w + 4..] == Pad(2, c)
  {
    PadField(w, a);
    PadField(2, b);
    PadField(2, c);
  }

  /** YYYY-MM-DD */
  lemma DateShape(d: Date)
    requires ValidDate(d)
    ensures var s := PrintDate(d);
            && |s| == 10 && s[4] == '-' && s[7] == '-'
            && ReadDigits(10, s[..4], 0) == d.year && ReadDigits(10, s[5..7], 0) == d.month && ReadDigits(10, s[8..], 0) == d.day
  {
    PrintDateIs(d);
    ThreeShape(4, d.year, '-', d.month, d.day);
    PadField(4, d.year);
    PadField(2, d.month);
    PadField(2, d.day);
  }

  lemma {:induction false} NoTrailingZero(us: nat, power: nat)
    requires us != 0 && DecimalUnit(power) && us < 10 * power
    ensures var s := MicroDigits(us, power); s != [] && s[|s| - 1] != '0'
    decreases power
  {
    MicroCons(us, power);
    if us % power != 0 {
      NoTrailingZero(us % power, power / 10);
    } else {
      assert us / power != 0 by { UnitDivision(us, power); }
    }
  }

  /** HH:MM:SS, and a point with the digits of the fraction if there is one, without trailing zeros. */
  lemma TimeShape(t: Time)
    requires ValidTime(t)
    ensures var s := PrintTime(t);
            && |s| >= 8 && s[2] == ':' && s[5] == ':'
            && ReadDigits(10, s[..2], 0) == t.hour && ReadDigits(10, s[3..5], 0) == t.minute && ReadDigits(10, s[6..8], 0) == t.second
            && if t.microsecond == 0 then |s| == 8
               else |s| > 9 && s[8] == '.' && AllDigits(s[9..]) && FirstDigits(s[9..], 6) == t.microsecond && s[|s| - 1] != '0'
  {
    var head, f := ThreeText(2, t.hour, ':', t.minute, t.second), Fraction(t.microsecond);
    PrintTimeIs(t);
    ClockShape(t.hour, t.minute, t.second);
    SameHead(head, f);
    if t.microsecond > 0 {
      FractionShape(t.microsecond);
      assert f[0] == '.' && f[1..] == MicroDigits(t.microsecond, 100000);
    }
  }

  lemma ClockShape(h: nat, m: nat, s: nat)
    requires h < 100 && m < 100 && s < 100
    ensures var c := ThreeText(2, h, ':', m, s);
            && |c| == 8 && c[2] == ':' && c[5] == ':'
            && ReadDigits(10, c[..2], 0) == h && ReadDigits(10, c[3..5], 0) == m && ReadDigits(10, c[6..8], 0) == s
  {
    var c := ThreeText(2, h, ':', m, s);
    ThreeShape(2, h, ':', m, s);
    assert c[6..8] == c[6..];
    PadField(2, h);
    PadField(2, m);
    PadField(2, s);
  }

  lemma SameHead(a: Bytes, b: Bytes)
    requires |a| == 8
    ensures var s := a + b;
            && s[..2] == a[..2] && s[2] == a[2] && s[3..5] == a[3..5] && s[5] == a[5] && s[6..8] == a[6..8]
            && (b == [] ==> |s| == 8) && (b != [] ==> s[8] == b[0] && s[9..] == b[1..] && s[|s| - 1] == b[|b| - 1])
  {
  }

  lemma FractionShape(us: nat)
    requires 0 < us < 1000000
    ensures var s := MicroDigits(us, 100000); s != [] && AllDigits(s) && FirstDigits(s, 6) == us && s[|s| - 1] != '0'
  {
    var s := MicroDigits(us, 100000);
    MicroDigitsAreDigits(us, 100000);
    NoTrailingZero(us, 100000);
    MicrosRoundTrip(us, 100000, 0);
    SixDigitsCount(s, []);
    assert s + [] == s;
  }

  /** Z, or a sign, which is that of the hours, and HH:MM. */
  lemma OffsetShape(o: Offset)
    requires ValidOffset(o)
    ensures var s := PrintOffset(o);
            if o == Offset(0, 0) then s == "Z"
            else |s| == 6 && s[0] == (if o.hours > 0 then '+' else '-') && s[3] == ':'
                 && ReadDigits(10, s[1..3], 0) == Abs(o.hours) && ReadDigits(10, s[4..], 0) == Abs(o.minutes)
  {
    if o != Offset(0, 0) {
      OffsetText(o);
      PadField(2, Abs(o.hours));
      PadField(2, Abs(o.minutes));
      assert PrintOffset(o)[1..3] == Pad(2, Abs(o.hours)) && PrintOffset(o)[4..] == Pad(2, Abs(o.minutes));
    }
  }

  // ----- what is accepted

  /** Three fields of digits with the mark between them. */
  predicate ThreeFields(len: nat, mark: char, s: Bytes) {
    && |s| >= len + 6 && s[len] == mark && s[len + 3] == mark
    && AllDigits(s[..len]) && AllDigits(s[len + 1..len + 3]) && AllDigits(s[len + 4..len + 6])
  }

  lemma ThreeIff(len: nat, mark: char, s: Bytes)
    ensures Three(len, mark, s).Ok? <==> ThreeFields(len, mark, s)
    ensures Three(len, mark, s).Ok? ==> Three(len, mark, s).rest == s[len + 6..]
  {
    EatDigitsIff(len, s, 0);
    if len < |s| {
      EatDigitsIff(2, s[len + 1..], 0);
      assert s[len..][1..] == s[len + 1..];
      if len + 3 < |s| {
        assert s[len + 1..][..2] == s[len + 1..len + 3] && s[len + 1..][2..] == s[len + 3..] && s[len + 3..][1..] == s[len + 4..];
        EatDigitsIff(2, s[len + 4..], 0);
        if len + 6 <= |s| {
          assert s[len + 4..][..2] == s[len + 4..len + 6] && s[len + 4..][2..] == s[len + 6..];
        }
      }
    }
  }

  predicate IsOffsetText(s: Bytes) {
    s == "Z" || (|s| == 6 && s[0] in {'+', '-'} && s[3] == ':' && AllDigits(s[1..3]) && AllDigits(s[4..]))
  }

  lemma HoursMinutesIff(s: Bytes)
    ensures HoursMinutes(s).Ok? && HoursMinutes(s).rest == [] <==> |s| == 5 && s[2] == ':' && AllDigits(s[..2]) && AllDigits(s[3..])
  {
    EatDigitsIff(2, s, 0);
    if |s| > 2 {
      assert s[2..][1..] == s[3..];
      EatDigitsIff(2, s[3..], 0);
      if |s| >= 5 {
        assert s[3..][..2] == s[3..5] && s[3..][2..] == s[5..];
        assert |s| == 5 ==> s[3..5] == s[3..];
      }
    }
  }

  /** Behind the time only an offset is accepted. */
  lemma OffsetAcceptedIff(s: Bytes)
    requires s != []
    ensures ReadOffset(s).Ok? && ReadOffset(s).rest == [] <==> IsOffsetText(s)
  {
    if s[0] == '+' || s[0] == '-' {
      HoursMinutesIff(s[1..]);
      if |s| == 6 {
        assert s[1..][..2] == s[1..3] && s[1..][3..] == s[4..];
      }
    }
  }

  // ----- a space instead of the T

  /** The printed text behind date and mark. */
  function TimeText(v: Value): Bytes
    requires Valid(v) && !v.LocalDate?
  {
    PrintTime(v.time) + if v.OffsetDateTime? then PrintOffset(v.offset) else []
  }

  lemma TimeTextChars(v: Value)
    requires Valid(v) && !v.LocalDate?
    ensures var s := TimeText(v); s != [] && IsNumber(s[0]) && forall i :: 0 <= i < |s| ==> DateTimeChar(s[i])
  {
    PrintTimeIs(v.time);
    PadField(2, v.time.hour);
    PrintTimeChars(v.time);
    if v.OffsetDateTime? { OffsetChars(v.offset); }
  }

  lemma ParseSpacedRest(v: Value)
    requires Valid(v) && !v.LocalDate?
    ensures ParseRest(v.date, [' '] + TimeText(v)) == Ok(Returned(v), [])
  {
    var s := [' '] + TimeText(v);
    assert s[1..] == TimeText(v);
    if v.OffsetDateTime? {
      OffsetChars(v.offset);
      ReadPrintedOffset(v.offset);
      TimeRoundTrip(v.time, PrintOffset(v.offset));
    } else {
      TimeRoundTrip(v.time, []);
    }
  }

  lemma EndBehindSpace(s: Bytes, d: nat, n: nat)
    requires Span(s, DateChar) == d && d + 1 < |s| && s[d] == ' ' && IsNumber(s[d + 1])
    requires Span(s[d + 1..], DateTimeChar) == n
    ensures EndOfDate(s) == d + 1 + n
  {
  }

  lemma FindsEndBehindSpace(d: Bytes, t: Bytes, rest: Bytes)
    requires forall i :: 0 <= i < |d| ==> DateChar(d[i])
    requires forall i :: 0 <= i < |t| ==> DateTimeChar(t[i])
    requires t != [] && IsNumber(t[0]) && (rest == [] || !DateTimeChar(rest[0]))
    ensures EndOfDate(d + ([' '] + t) + rest) == |d| + 1 + |t|
  {
    var s := d + ([' '] + t) + rest;
    assert s == d + ([' '] + (t + rest));
    SpanAll(d, [' '] + (t + rest), DateChar);
    assert s[|d| + 1..] == t + rest;
    SpanAll(t, rest, DateTimeChar);
    EndBehindSpace(s, |d|, |t|);
  }

  /** Date and time may also be separated by a space. */
  lemma SpaceParses(v: Value, rest: Bytes)
    requires Valid(v) && !v.LocalDate? && (rest == [] || !DateTimeChar(rest[0]))
    ensures ParseDate(PrintDate(v.date) + ([' '] + TimeText(v)) + rest) == Ok(Returned(v), rest)
  {
    var d, tail := v.date, [' '] + TimeText(v);
    PrintDateIs(d);
    ThreeTextChars(4, d.year, '-', d.month, d.day, DateChar);
    TimeTextChars(v);
    FindsEndBehindSpace(PrintDate(d), TimeText(v), rest);
    EatThree(4, d.year, '-', d.month, d.day, tail);
    ParseSpacedRest(v);
    ParseParts(PrintDate(d) + tail, rest, d.year, d.month, d.day, tail, Returned(v));
  }
}

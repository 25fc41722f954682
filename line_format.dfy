/** How one log line is read: the cookie name, the day part of the timestamp, and
    the integer key the binary search compares days by. A line is the first CSV
    field of a row, `name,timestamp`, with the timestamp `YYYY-MM-DDThh:mm:ss+zz:zz`. */
module LineFormat {

  /** The two Python exceptions reading a line or a date can raise. */
  datatype Failure = IndexError | ValueError

  datatype Result<T> = Ok(value: T) | Err(error: Failure)

  /** A line read as text: the cookie name and the day part of its timestamp. */
  datatype Record = Record(name: string, day: string)

  /** A line read as the binary search reads it: the cookie name and the day as an integer. */
  datatype Entry = Entry(name: string, key: nat)

  /** `s.split(c)[0]`: the text of `s` before its first `c`, or all of `s` when it has none. */
  function Before(s: string, c: char): (r: string)
  {
    if s == [] || s[0] == c then [] else [s[0]] + Before(s[1..], c)
  }

  /** `Before` gives a prefix of `s` without `c` that ends at the first `c` or at the end. */
  lemma {:induction false} BeforeSpec(s: string, c: char)
    ensures Before(s, c) <= s && c !in Before(s, c)
    ensures |Before(s, c)| == |s| || s[|Before(s, c)|] == c
  {
    if s != [] && s[0] != c {
      BeforeSpec(s[1..], c);
    }
  }

  /** The three facts `BeforeSpec` states determine the result. */
  lemma BeforeUnique(s: string, c: char, p: string)
    requires p <= s && c !in p
    requires |p| == |s| || s[|p|] == c
    ensures Before(s, c) == p
  {
    BeforeSpec(s, c);
    var r := Before(s, c);
    assert forall i :: 0 <= i < |r| ==> r[i] == s[i];
    assert forall i :: 0 <= i < |p| ==> p[i] == s[i];
  }

  /** Lines 35-39 (and 66-68, 93-94): the name is `line.split(',')[0]` and the day is
      `line.split(',')[1].split('T')[0]`; a line without a comma has no second field,
      and indexing it raises IndexError. */
  function ParseLine(line: string): (r: Result<Record>)
    ensures r.Err? <==> ',' !in line
    ensures r.Err? ==> r.error == IndexError
  {
    if ',' !in line then Err(IndexError)
    else
      var name := Before(line, ',');
      BeforeSpec(line, ',');
      assert |name| == |line| ==> name == line;
      Ok(Record(name, Before(Before(line[|name| + 1..], ','), 'T')))
  }

  /** A line that reads starts with its name, a comma and its day; neither the name
      nor the day holds a comma, nor the day a 'T'; and the day runs up to the next ','
      or 'T' after the name's comma, or to the end of the line. */
  lemma ParseLineSpec(line: string)
    requires ParseLine(line).Ok?
    ensures var rec := ParseLine(line).value;
      ',' !in rec.name && ',' !in rec.day && 'T' !in rec.day &&
      rec.name + "," + rec.day <= line &&
      (|rec.name| + 1 + |rec.day| == |line| || line[|rec.name| + 1 + |rec.day|] in {',', 'T'})
  {
    var name := Before(line, ',');
    BeforeSpec(line, ',');
    assert |name| == |line| ==> name == line;
    var rest := line[|name| + 1..];
    assert line == name + "," + rest;
    var second := Before(rest, ',');
    BeforeSpec(rest, ',');
    var day := Before(second, 'T');
    BeforeSpec(second, 'T');
    assert day <= rest;
    if |day| < |second| {
      assert line[|name| + 1 + |day|] == rest[|day|] == second[|day|] == 'T';
    } else if |second| < |rest| {
      assert line[|name| + 1 + |day|] == rest[|second|] == ',';
    }
  }

  /** Reading a line built from a name, a day and the rest of a timestamp gives back
      that name and that day. */
  lemma ParseLineOf(name: string, day: string, time: string)
    requires ',' !in name && ',' !in day && 'T' !in day
    ensures ParseLine(name + "," + day + "T" + time) == Ok(Record(name, day))
  {
    var line := name + "," + day + "T" + time;
    assert line[|name|] == ',';
    BeforeUnique(line, ',', name);
    var rest := line[|name| + 1..];
    assert rest == day + "T" + time;
    var tail := Before(time, ',');
    BeforeSpec(time, ',');
    assert rest == day + "T" + tail + time[|tail|..];
    BeforeUnique(rest, ',', day + "T" + tail);
    BeforeUnique(day + "T" + tail, 'T', day);
  }

  /** `''.join(s.split('-'))`: `s` with every '-' taken out. */
  function StripDashes(s: string): (r: string)
  {
    if s == [] then []
    else if s[0] == '-' then StripDashes(s[1..])
    else [s[0]] + StripDashes(s[1..])
  }

  /** The result holds no '-', and a text without '-' is left as it is. */
  lemma {:induction false} StripDashesSpec(s: string)
    ensures '-' !in StripDashes(s) && |StripDashes(s)| <= |s|
    ensures '-' !in s ==> StripDashes(s) == s
  {
    if s != [] {
      StripDashesSpec(s[1..]);
      assert '-' !in s ==> '-' !in s[1..];
    }
  }

  lemma {:induction false} StripDashesAppend(a: string, b: string)
    ensures StripDashes(a + b) == StripDashes(a) + StripDashes(b)
  {
    if a != [] {
      assert (a + b)[0] == a[0];
      assert (a + b)[1..] == a[1..] + b;
      StripDashesAppend(a[1..], b);
    } else {
      assert a + b == b;
    }
  }

  predicate IsDigit(ch: char) {
    '0' <= ch <= '9'
  }

  predicate AllDigits(s: string) {
    forall i :: 0 <= i < |s| ==> IsDigit(s[i])
  }

  function Pow10(n: nat): (p: nat)
    ensures p >= 1
  {
    if n == 0 then 1 else 10 * Pow10(n - 1)
  }

  /** The value of one decimal digit. */
  function DigitValue(ch: char): (d: nat)
    requires IsDigit(ch)
    ensures d < 10
  {
    (ch - '0') as int
  }

  /** The decimal value of a digit string, as Python's `int` reads it. */
  function DigitsValue(s: string): (v: nat)
    requires AllDigits(s)
    ensures v < Pow10(|s|)
  {
    if s == [] then 0
    else 10 * DigitsValue(s[..|s| - 1]) + DigitValue(s[|s| - 1])
  }

  lemma AllDigitsAppend(a: string, b: string)
    requires AllDigits(a) && AllDigits(b)
    ensures AllDigits(a + b)
  {
    forall i | 0 <= i < |a + b| ensures IsDigit((a + b)[i]) {
      if i < |a| { assert (a + b)[i] == a[i]; } else { assert (a + b)[i] == b[i - |a|]; }
    }
  }

  /** Appending digits shifts the value left by their number of places. */
  lemma {:induction false} DigitsValueAppend(a: string, b: string)
    requires AllDigits(a) && AllDigits(b)
    ensures AllDigits(a + b)
    ensures DigitsValue(a + b) == DigitsValue(a) * Pow10(|b|) + DigitsValue(b)
  {
    AllDigitsAppend(a, b);
    if b == [] {
      assert a + b == a;
    } else {
      var b' := b[..|b| - 1];
      assert (a + b)[..|a + b| - 1] == a + b';
      assert (a + b)[|a + b| - 1] == b[|b| - 1];
      DigitsValueAppend(a, b');
      var d := DigitValue(b[|b| - 1]);
      var x, y, p := DigitsValue(a), DigitsValue(b'), Pow10(|b'|);
      ShiftLeft(x, p, y, d);
    }
  }

  /** Arithmetic helper for `DigitsValueAppend` (kept apart: in the lemma's own context
      the solver does not find this step). */
  lemma ShiftLeft(x: int, p: int, y: int, d: int)
    ensures 10 * (x * p + y) + d == x * (10 * p) + (10 * y + d)
  {
  }

  /** Two digit strings of the same length with the same value are the same string. */
  lemma {:induction false} DigitsValueInjective(a: string, b: string)
    requires AllDigits(a) && AllDigits(b) && |a| == |b|
    requires DigitsValue(a) == DigitsValue(b)
    ensures a == b
  {
    if a != [] {
      var n := |a| - 1;
      var da, db := DigitValue(a[n]), DigitValue(b[n]);
      var xa, xb := DigitsValue(a[..n]), DigitsValue(b[..n]);
      assert 10 * xa + da == 10 * xb + db;
      assert xa == xb && da == db;
      DigitsValueInjective(a[..n], b[..n]);
      assert a == a[..n] + [a[n]] && b == b[..n] + [b[n]];
    }
  }

  /** Lines 53, 69, 90 and 112: `int(''.join(day.split('-')))`. Python's `int` raises
      ValueError on an empty or non-numeric string. */
  function DayKey(day: string): (k: Result<nat>)
    ensures k.Err? ==> k.error == ValueError
  {
    var digits := StripDashes(day);
    if digits != [] && AllDigits(digits) then Ok(DigitsValue(digits)) else Err(ValueError)
  }

  /** A day in the `YYYY-MM-DD` shape the log and the command line use
      (only the shape: the source checks no month or day range). */
  predicate IsCanonicalDay(d: string) {
    |d| == 10 && d[4] == '-' && d[7] == '-' &&
    AllDigits(d[..4]) && AllDigits(d[5..7]) && AllDigits(d[8..])
  }

  lemma CanonicalDigits(d: string)
    requires IsCanonicalDay(d)
    ensures StripDashes(d) == d[..4] + d[5..7] + d[8..]
  {
    assert d == d[..4] + "-" + d[5..7] + "-" + d[8..];
    DashedDigits(d[..4], d[5..7], d[8..]);
  }

  /** The key of a `YYYY-MM-DD` day is year * 10000 + month * 100 + day, so on such
      days comparing keys is comparing dates. */
  lemma CanonicalDayKey(d: string)
    requires IsCanonicalDay(d)
    ensures DayKey(d).Ok?
    ensures DayKey(d).value == DigitsValue(d[..4]) * 10000 + DigitsValue(d[5..7]) * 100 + DigitsValue(d[8..])
  {
    CanonicalDigits(d);
    var y, m, dd := d[..4], d[5..7], d[8..];
    DigitsValueAppend(y, m);
    DigitsValueAppend(y + m, dd);
    assert y + m + dd != [];
    assert Pow10(2) == 100;
    calc {
      DigitsValue(y + m + dd);
      DigitsValue(y + m) * 100 + DigitsValue(dd);
      (DigitsValue(y) * 100 + DigitsValue(m)) * 100 + DigitsValue(dd);
      DigitsValue(y) * 10000 + DigitsValue(m) * 100 + DigitsValue(dd);
    }
  }

  /** On `YYYY-MM-DD` days, equal keys mean equal day strings: the integer comparison of
      the binary search and the string comparison of the full scan agree. */
  lemma DayKeyInjective(d1: string, d2: string)
    requires IsCanonicalDay(d1) && IsCanonicalDay(d2)
    requires DayKey(d1) == DayKey(d2)
    ensures d1 == d2
  {
    CanonicalDigits(d1);
    CanonicalDigits(d2);
    var s1, s2 := StripDashes(d1), StripDashes(d2);
    DigitsValueInjective(s1, s2);
    assert d1[..4] == s1[..4] == d2[..4];
    assert d1[5..7] == s1[4..6] == d2[5..7];
    assert d1[8..] == s1[6..] == d2[8..];
    assert d1 == d1[..4] + "-" + d1[5..7] + "-" + d1[8..];
    assert d2 == d2[..4] + "-" + d2[5..7] + "-" + d2[8..];
  }

  /** A day given with fewer than eight digits, such as `2018-1-09` or `2018-12-`, is
      still read by `DayKey` without error, and its key is below 10000000: smaller
      than the key of every `YYYY-MM-DD` day from the year 1000 on. */
  lemma ShortDayKey(y: string, m: string, d: string)
    requires AllDigits(y) && AllDigits(m) && AllDigits(d)
    requires 0 < |y + m + d| < 8
    ensures DayKey(y + "-" + m + "-" + d) == Ok(DigitsValue(y + m + d))
    ensures DigitsValue(y + m + d) < 10000000
  {
    DashedDigits(y, m, d);
    AllDigitsAppend(y, m);
    AllDigitsAppend(y + m, d);
    Pow10Monotone(|y + m + d|, 7);
  }

  /** Taking the dashes out of `y-m-d` joins its three digit runs. */
  lemma DashedDigits(y: string, m: string, d: string)
    requires AllDigits(y) && AllDigits(m) && AllDigits(d)
    ensures StripDashes(y + "-" + m + "-" + d) == y + m + d
  {
    DigitsKeptWhole(y);
    DigitsKeptWhole(m);
    DigitsKeptWhole(d);
    assert StripDashes("-") == [];
    var a := y + "-";
    StripDashesAppend(y, "-");
    assert StripDashes(a) == y;
    var b := a + m;
    StripDashesAppend(a, m);
    assert StripDashes(b) == y + m;
    var c := b + "-";
    StripDashesAppend(b, "-");
    assert StripDashes(c) == y + m;
    StripDashesAppend(c, d);
  }

  lemma DigitsKeptWhole(s: string)
    requires AllDigits(s)
    ensures StripDashes(s) == s
  {
    assert '-' !in s by {
      assert forall i :: 0 <= i < |s| ==> s[i] != '-';
    }
    StripDashesSpec(s);
  }

  lemma {:induction false} Pow10Monotone(m: nat, n: nat)
    requires m <= n
    ensures Pow10(m) <= Pow10(n)
  {
    if m < n {
      Pow10Monotone(m, n - 1);
    }
  }

  /** The date check the command line evidently intends: a date not written
      `YYYY-MM-DD` raises ValueError, and a date so written reads as `DayKey` reads it,
      as an eight-digit key. */
  function DateKey(date: string): (k: Result<nat>)
    ensures k.Ok? <==> IsCanonicalDay(date)
    ensures k.Err? ==> k.error == ValueError
    ensures k.Ok? ==> DayKey(date) == k && k.value < 100000000
  {
    if IsCanonicalDay(date) then
      CanonicalDayKey(date);
      CanonicalDigits(date);
      assert |StripDashes(date)| == 8;
      DayKey(date)
    else Err(ValueError)
  }

  /** Lines 66-69 with 93-94: a line read as a name and a day key; a line without a
      comma raises IndexError before its day is converted, a day whose digits do not
      make an integer raises ValueError. */
  function ParseEntry(line: string): (r: Result<Entry>)
    ensures r.Err? ==> (r.error == IndexError <==> ',' !in line)
  {
    match ParseLine(line)
    case Err(e) => Err(e)
    case Ok(rec) =>
      match DayKey(rec.day)
      case Err(e) => Err(e)
      case Ok(key) => Ok(Entry(rec.name, key))
  }

  /** A line `name,dayTtime` whose day has no ',' or 'T' reads back as that name and the
      key of that day. */
  lemma ParseEntryOf(name: string, day: string, time: string, key: nat)
    requires ',' !in name && ',' !in day && 'T' !in day && DayKey(day) == Ok(key)
    ensures ParseEntry(name + "," + day + "T" + time) == Ok(Entry(name, key))
  {
    ParseLineOf(name, day, time);
  }
}

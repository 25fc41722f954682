/** The eight-line log the test suite uses, newest first, and what the model says
    the two searches do on it. */
module Fixtures {
  import opened LineFormat
  import opened Counting
  import opened CookieLog
  import opened BinarySearch
  import opened FullScan

  // The test days and the test log are passed in as parameters fixed by a `requires`
  // (`d == "2018-12-09"`, `lines == FixtureLines(d9, d8, d7)`) rather than written as
  // literals in the bodies: the solver then reasons about one named string and its
  // proved properties instead of unfolding the functions over each literal anew.

  lemma TwoDigits(s: string)
    requires |s| == 2 && AllDigits(s)
    ensures DigitsValue(s) == 10 * DigitValue(s[0]) + DigitValue(s[1])
  {
    assert s[..1][..0] == [];
  }

  lemma FourDigits(s: string)
    requires |s| == 4 && AllDigits(s)
    ensures DigitsValue(s) == 1000 * DigitValue(s[0]) + 100 * DigitValue(s[1]) + 10 * DigitValue(s[2]) + DigitValue(s[3])
  {
    DigitsValueAppend(s[..2], s[2..]);
    assert s[..2] + s[2..] == s;
    TwoDigits(s[..2]);
    TwoDigits(s[2..]);
  }

  /** The key of a `YYYY-MM-DD` day is the number its eight digits spell. */
  lemma DayKeyDigits(d: string)
    requires IsCanonicalDay(d)
    ensures DayKey(d) == Ok(10000000 * DigitValue(d[0]) + 1000000 * DigitValue(d[1]) + 100000 * DigitValue(d[2]) +
      10000 * DigitValue(d[3]) + 1000 * DigitValue(d[5]) + 100 * DigitValue(d[6]) + 10 * DigitValue(d[8]) + DigitValue(d[9]))
  {
    CanonicalDayKey(d);
    FourDigits(d[..4]);
    TwoDigits(d[5..7]);
    TwoDigits(d[8..]);
  }

  /** The cookies of the test log. */
  const CookieA := "AtY0laUfhglK3lC7"
  const CookieS := "SAZuXPGUrfbcn5UA"
  const CookieU := "5UAVanZf6UtGyKVS"
  const CookieM := "4sMM2LxV07bPJzwf"
  const CookieF := "fbcn5UAVanZf6UtG"

  /** The keys of the three days of the log. */
  lemma Day9(d: string)
    requires d == "2018-12-09"
    ensures IsCanonicalDay(d) && DayKey(d) == Ok(20181209)
  {
    DayKeyDigits(d);
  }

  lemma Day8(d: string)
    requires d == "2018-12-08"
    ensures IsCanonicalDay(d) && DayKey(d) == Ok(20181208)
  {
    DayKeyDigits(d);
  }

  lemma Day7(d: string)
    requires d == "2018-12-07"
    ensures IsCanonicalDay(d) && DayKey(d) == Ok(20181207)
  {
    DayKeyDigits(d);
  }

  lemma Day1(d: string)
    requires d == "2018-12-01"
    ensures IsCanonicalDay(d) && DayKey(d) == Ok(20181201)
  {
    DayKeyDigits(d);
  }

  lemma Day23(d: string)
    requires d == "2023-01-01"
    ensures IsCanonicalDay(d) && DayKey(d) == Ok(20230101)
  {
    DayKeyDigits(d);
  }

  /** The test log as the binary search reads it, one entry per line, newest first. */
  function FixtureEntries(): (es: seq<Result<Entry>>) {
    [Ok(Entry(CookieA, 20181209)),
     Ok(Entry(CookieS, 20181209)),
     Ok(Entry(CookieU, 20181209)),
     Ok(Entry(CookieA, 20181209)),
     Ok(Entry(CookieS, 20181208)),
     Ok(Entry(CookieM, 20181208)),
     Ok(Entry(CookieF, 20181208)),
     Ok(Entry(CookieM, 20181207))]
  }

  /** The search over the whole test log stops on line 3 for 2018-12-09 and on line 5
      for 2018-12-08, and crosses before line 0 for 2023-01-01, newer than every line. */
  lemma FixtureAnchors(es: seq<Result<Entry>>)
    requires es == FixtureEntries()
    ensures Search(es, 20181209, 0, 7) == Ok(Bounds(3, 3))
    ensures Search(es, 20181208, 0, 7) == Ok(Bounds(5, 5))
    ensures Search(es, 20230101, 0, 7) == Ok(Bounds(0, -1))
  {
    assert Search(es, 20181208, 4, 7) == Ok(Bounds(5, 5));
    assert Search(es, 20230101, 0, 0) == Ok(Bounds(0, -1));
    assert Search(es, 20230101, 0, 2) == Ok(Bounds(0, -1));
  }

  function Hit(e: Result<Entry>, name: string, key: nat): (n: nat) {
    if e == Ok(Entry(name, key)) then 1 else 0
  }

  lemma KeyCountPrefix(es: seq<Result<Entry>>, i: nat, name: string, key: nat)
    requires i < |es|
    ensures KeyCount(es[..i + 1], name, key) == KeyCount(es[..i], name, key) + Hit(es[i], name, key)
  {
    assert es[..i + 1][..i] == es[..i];
  }

  /** Counting a cookie over the eight lines of the test log, line by line. */
  lemma KeyCountOfEight(es: seq<Result<Entry>>, name: string, key: nat)
    requires |es| == 8
    ensures KeyCount(es, name, key) ==
      Hit(es[0], name, key) + Hit(es[1], name, key) + Hit(es[2], name, key) + Hit(es[3], name, key) +
      Hit(es[4], name, key) + Hit(es[5], name, key) + Hit(es[6], name, key) + Hit(es[7], name, key)
  {
    assert es[..0] == [];
    KeyCountPrefix(es, 0, name, key);
    KeyCountPrefix(es, 1, name, key);
    KeyCountPrefix(es, 2, name, key);
    KeyCountPrefix(es, 3, name, key);
    KeyCountPrefix(es, 4, name, key);
    KeyCountPrefix(es, 5, name, key);
    KeyCountPrefix(es, 6, name, key);
    KeyCountPrefix(es, 7, name, key);
    assert es[..8] == es;
  }

  /** The five cookies are different names. */
  lemma CookiesDiffer()
    ensures CookieA != CookieS && CookieA != CookieU && CookieA != CookieM && CookieA != CookieF
    ensures CookieS != CookieU && CookieS != CookieM && CookieS != CookieF
    ensures CookieU != CookieM && CookieU != CookieF && CookieM != CookieF
  {
  }

  /** The expected outputs of the test suite: for 2018-12-09 only AtY0laUfhglK3lC7,
      which has two lines; for 2018-12-08 the three cookies tied at one line; for
      2023-01-01 nothing. */
  lemma FixtureMostActive(es: seq<Result<Entry>>)
    requires es == FixtureEntries()
    ensures forall x :: MostActiveWithKey(es, 20181209, x) <==> x == CookieA
    ensures forall x :: MostActiveWithKey(es, 20181208, x) <==> x in {CookieS, CookieM, CookieF}
    ensures forall x :: !MostActiveWithKey(es, 20230101, x)
  {
    CookiesDiffer();
    forall x
      ensures KeyCount(es, x, 20181209) == if x == CookieA then 2 else if x in {CookieS, CookieU} then 1 else 0
      ensures KeyCount(es, x, 20181208) == if x in {CookieS, CookieM, CookieF} then 1 else 0
      ensures KeyCount(es, x, 20230101) == 0
    {
      KeyCountOfEight(es, x, 20181209);
      KeyCountOfEight(es, x, 20181208);
      KeyCountOfEight(es, x, 20230101);
    }
    assert KeyCount(es, CookieA, 20181209) == 2;
  }

  /** A log line as the generator writes it: name, comma, day, 'T', time of day. */
  function Line(name: string, day: string, time: string): (line: string) {
    name + "," + day + "T" + time
  }

  /** A line of the generator's shape reads as its name and the key of its day. */
  lemma LineReads(name: string, day: string, time: string, key: nat)
    requires ',' !in name && IsCanonicalDay(day) && DayKey(day) == Ok(key)
    ensures ParseLine(Line(name, day, time)) == Ok(Record(name, day))
    ensures ParseEntry(Line(name, day, time)) == Ok(Entry(name, key))
  {
    assert ',' !in day && 'T' !in day by {
      forall i | 0 <= i < |day| ensures day[i] != ',' && day[i] != 'T' {
        if i < 4 { assert day[i] == day[..4][i]; }
        else if 5 <= i < 7 { assert day[i] == day[5..7][i - 5]; }
        else if 8 <= i { assert day[i] == day[8..][i - 8]; }
      }
    }
    ParseLineOf(name, day, time);
    ParseEntryOf(name, day, time, key);
  }

  lemma NamesWithoutCommaAS()
    ensures ',' !in CookieA && ',' !in CookieS
  {
  }

  lemma NamesWithoutCommaUMF()
    ensures ',' !in CookieU && ',' !in CookieM && ',' !in CookieF
  {
  }

  /** The eight lines of the test log. */
  function FixtureLines(d9: string, d8: string, d7: string): (lines: seq<string>) {
    [Line(CookieA, d9, "14:19:00+00:00"),
     Line(CookieS, d9, "10:13:00+00:00"),
     Line(CookieU, d9, "07:25:00+00:00"),
     Line(CookieA, d9, "06:19:00+00:00"),
     Line(CookieS, d8, "22:03:00+00:00"),
     Line(CookieM, d8, "21:30:00+00:00"),
     Line(CookieF, d8, "09:30:00+00:00"),
     Line(CookieM, d7, "23:30:00+00:00")]
  }

  /** Line `i` of a log, written in the generator's shape, reads as its entry. */
  lemma LineAt(lines: seq<string>, i: nat, name: string, day: string, time: string, key: nat)
    requires i < |lines| && lines[i] == Line(name, day, time)
    requires ',' !in name && IsCanonicalDay(day) && DayKey(day) == Ok(key)
    ensures Entries(lines)[i] == Ok(Entry(name, key))
    ensures ParseLine(lines[i]).Ok? && IsCanonicalDay(ParseLine(lines[i]).value.day)
  {
    EntriesAt(lines, i);
    LineReads(name, day, time, key);
  }

  /** The test log is sorted newest first. */
  lemma FixtureSorted(es: seq<Result<Entry>>)
    requires es == FixtureEntries()
    ensures SortedNewestFirst(es)
  {
  }

  /** The test log reads as the entries above; its days are all `YYYY-MM-DD` and it is
      sorted newest first. */
  lemma FixtureLog(lines: seq<string>, d9: string, d8: string, d7: string)
    requires d9 == "2018-12-09" && d8 == "2018-12-08" && d7 == "2018-12-07"
    requires lines == FixtureLines(d9, d8, d7)
    ensures Entries(lines) == FixtureEntries()
    ensures Canonical(lines)
    ensures SortedNewestFirst(Entries(lines))
  {
    Day9(d9);
    Day8(d8);
    Day7(d7);
    NamesWithoutCommaAS();
    NamesWithoutCommaUMF();
    var es := FixtureEntries();
    forall i | 0 <= i < 8
      ensures Entries(lines)[i] == es[i]
      ensures ParseLine(lines[i]).Ok? && IsCanonicalDay(ParseLine(lines[i]).value.day)
    {
      if i == 0 { LineAt(lines, 0, CookieA, d9, "14:19:00+00:00", 20181209); }
      else if i == 1 { LineAt(lines, 1, CookieS, d9, "10:13:00+00:00", 20181209); }
      else if i == 2 { LineAt(lines, 2, CookieU, d9, "07:25:00+00:00", 20181209); }
      else if i == 3 { LineAt(lines, 3, CookieA, d9, "06:19:00+00:00", 20181209); }
      else if i == 4 { LineAt(lines, 4, CookieS, d8, "22:03:00+00:00", 20181208); }
      else if i == 5 { LineAt(lines, 5, CookieM, d8, "21:30:00+00:00", 20181208); }
      else if i == 6 { LineAt(lines, 6, CookieF, d8, "09:30:00+00:00", 20181208); }
      else { LineAt(lines, 7, CookieM, d7, "23:30:00+00:00", 20181207); }
    }
    FixtureSorted(FixtureEntries());
  }

  /** Helper for `OnlyMember`: names the first two members of a longer list, so that
      the impossible case closes with `assert false` alone. */
  lemma FirstTwo(s: seq<string>)
    requires |s| > 1
    ensures s[0] == s[..2][0] && s[1] == s[..2][1]
  {
  }

  /** A list with no repeats whose only member is `a` is `[a]`. */
  lemma OnlyMember(s: seq<string>, a: string)
    requires Distinct(s)
    requires forall x :: x in s <==> x == a
    ensures s == [a]
  {
    assert a in s;
    forall i | 0 <= i < |s| ensures s[i] == a {
      assert s[i] in s;
    }
    if |s| > 1 {
      FirstTwo(s);
      assert false;
    }
  }

  /** Both searches on the test log print only AtY0laUfhglK3lC7 for 2018-12-09, the
      cookie with two lines that day. */
  method FixtureDay9(lines: seq<string>, d9: string, d8: string, d7: string)
    returns (fast: Result<seq<string>>, full: Result<seq<string>>)
    requires d9 == "2018-12-09" && d8 == "2018-12-08" && d7 == "2018-12-07"
    requires lines == FixtureLines(d9, d8, d7)
    ensures fast.Ok? && full.Ok?
    ensures fast.value == [CookieA] && full.value == [CookieA]
  {
    FixtureLog(lines, d9, d8, d7);
    FixtureMostActive(Entries(lines));
    Day9(d9);
    forall x ensures MostActiveOnDay(lines, d9, x) <==> MostActiveWithKey(Entries(lines), 20181209, x) {
      MostActiveAgree(lines, d9, x);
    }
    assert forall i :: 0 <= i < |lines| ==> ',' in lines[i];
    assert KeyAt(Entries(lines), 7) < 20181209;
    fast := MostActiveCookieBinarySearch(lines, d9);
    full := MostActiveCookie(lines, d9);
    OnlyMember(fast.value, CookieA);
    OnlyMember(full.value, CookieA);
  }

  /** Both searches on the test log print the three cookies tied at one line for
      2018-12-08, in any order. */
  method FixtureDay8(lines: seq<string>, d9: string, d8: string, d7: string)
    returns (fast: Result<seq<string>>, full: Result<seq<string>>)
    requires d9 == "2018-12-09" && d8 == "2018-12-08" && d7 == "2018-12-07"
    requires lines == FixtureLines(d9, d8, d7)
    ensures fast.Ok? && full.Ok?
    ensures forall x :: x in fast.value <==> x in {CookieS, CookieM, CookieF}
    ensures forall x :: x in full.value <==> x in {CookieS, CookieM, CookieF}
  {
    FixtureLog(lines, d9, d8, d7);
    FixtureMostActive(Entries(lines));
    Day8(d8);
    forall x ensures MostActiveOnDay(lines, d8, x) <==> MostActiveWithKey(Entries(lines), 20181208, x) {
      MostActiveAgree(lines, d8, x);
    }
    assert forall i :: 0 <= i < |lines| ==> ',' in lines[i];
    assert KeyAt(Entries(lines), 7) < 20181208;
    fast := MostActiveCookieBinarySearch(lines, d8);
    full := MostActiveCookie(lines, d8);
  }

  /** Both searches on the test log print nothing for 2023-01-01, newer than every
      line. */
  method FixtureDay23(lines: seq<string>, d9: string, d8: string, d7: string, d23: string)
    returns (fast: Result<seq<string>>, full: Result<seq<string>>)
    requires d9 == "2018-12-09" && d8 == "2018-12-08" && d7 == "2018-12-07" && d23 == "2023-01-01"
    requires lines == FixtureLines(d9, d8, d7)
    ensures fast.Ok? && full.Ok?
    ensures forall x :: x !in fast.value && x !in full.value
  {
    FixtureLog(lines, d9, d8, d7);
    FixtureMostActive(Entries(lines));
    Day23(d23);
    forall x ensures MostActiveOnDay(lines, d23, x) <==> MostActiveWithKey(Entries(lines), 20230101, x) {
      MostActiveAgree(lines, d23, x);
    }
    assert forall i :: 0 <= i < |lines| ==> ',' in lines[i];
    assert KeyAt(Entries(lines), 0) < 20230101;
    fast := MostActiveCookieBinarySearch(lines, d23);
    full := MostActiveCookie(lines, d23);
  }

  /** Every line of the test log is newer than 2018-12-01, so no cookie is active then. */
  lemma FixtureOlder(es: seq<Result<Entry>>)
    requires es == FixtureEntries()
    ensures forall i :: 0 <= i < |es| ==> KeyAt(es, i) > 20181201
    ensures forall x :: !MostActiveWithKey(es, 20181201, x)
  {
    forall x ensures KeyCount(es, x, 20181201) == 0 {
      AllNewerCountsNothing(es, 20181201, x);
    }
  }

  /** A day older than every line of the test log: the binary search as written reads
      past the last line and raises IndexError, while the full scan and the guarded
      binary search output nothing. */
  method FixtureOlderDay(lines: seq<string>, d9: string, d8: string, d7: string, d1: string)
    returns (fast: Result<seq<string>>, checked: Result<seq<string>>, full: Result<seq<string>>)
    requires d9 == "2018-12-09" && d8 == "2018-12-08" && d7 == "2018-12-07" && d1 == "2018-12-01"
    requires lines == FixtureLines(d9, d8, d7)
    ensures fast == Err(IndexError)
    ensures checked.Ok? && full.Ok?
    ensures forall x :: x !in checked.value && x !in full.value
  {
    FixtureLog(lines, d9, d8, d7);
    Day1(d1);
    FixtureOlder(Entries(lines));
    forall x ensures !MostActiveOnDay(lines, d1, x) {
      MostActiveAgree(lines, d1, x);
    }
    assert forall i :: 0 <= i < |lines| ==> ',' in lines[i];
    fast := MostActiveCookieBinarySearch(lines, d1);
    checked := MostActiveCookieBinarySearchChecked(lines, d1);
    full := MostActiveCookie(lines, d1);
  }

  /** The malformed dates of the test suite: each still reads as a key, of fewer than
      eight digits, so older than every day of the test log, while the date check
      evidently intended rejects each with ValueError. */
  lemma MalformedDay(bad: string)
    requires bad in {"2018-12-0", "2018-12-", "201-12-09", "2018-1-09"}
    ensures DayKey(bad).Ok? && DayKey(bad).value < 10000000
    ensures DateKey(bad) == Err(ValueError)
  {
    if bad == "2018-12-0" {
      assert bad == "2018" + "-" + "12" + "-" + "0";
      ShortDayKey("2018", "12", "0");
    } else if bad == "2018-12-" {
      assert bad == "2018" + "-" + "12" + "-" + "";
      ShortDayKey("2018", "12", "");
    } else if bad == "201-12-09" {
      assert bad == "201" + "-" + "12" + "-" + "09";
      ShortDayKey("201", "12", "09");
    } else {
      assert bad == "2018" + "-" + "1" + "-" + "09";
      ShortDayKey("2018", "1", "09");
    }
  }

  /** Every line of the test log is newer than a key below its oldest day. */
  lemma FixtureNewerThan(es: seq<Result<Entry>>, key: nat)
    requires es == FixtureEntries() && key < 20181207
    ensures forall i :: 0 <= i < |es| ==> KeyAt(es, i) > key
  {
  }

  /** A malformed date on the test log: the binary search as written raises IndexError
      (the short key is older than every line, so the search leaves `l` past the last
      line and line 87 reads past the end), where the test suite expects ValueError; the
      binary search with the evidently intended date check raises ValueError. */
  method FixtureMalformedDay(lines: seq<string>, d9: string, d8: string, d7: string, bad: string)
    returns (fast: Result<seq<string>>, checked: Result<seq<string>>)
    requires d9 == "2018-12-09" && d8 == "2018-12-08" && d7 == "2018-12-07"
    requires bad in {"2018-12-0", "2018-12-", "201-12-09", "2018-1-09"}
    requires lines == FixtureLines(d9, d8, d7)
    ensures fast == Err(IndexError)
    ensures checked == Err(ValueError)
  {
    FixtureLog(lines, d9, d8, d7);
    MalformedDay(bad);
    FixtureNewerThan(Entries(lines), DayKey(bad).value);
    fast := MostActiveCookieBinarySearch(lines, bad);
    checked := MostActiveCookieBinarySearchChecked(lines, bad);
  }
}

/** What the two searches are asked for, stated over the whole log: how often each
    cookie occurs on a day, which cookies occur most often, and what "sorted newest
    first" means for the binary search. */
module CookieLog {
  import opened LineFormat

  /** The number of lines that read as cookie `name` on day `day` (compared as text). */
  function DayCount(lines: seq<string>, name: string, day: string): (n: nat)
  {
    if lines == [] then 0
    else
      DayCount(lines[..|lines| - 1], name, day)
      + (if ParseLine(lines[|lines| - 1]) == Ok(Record(name, day)) then 1 else 0)
  }

  /** Every line of the log read as the binary search reads it, with the error that
      reading it would raise. */
  function Entries(lines: seq<string>): (es: seq<Result<Entry>>)
    ensures |es| == |lines|
  {
    if lines == [] then [] else Entries(lines[..|lines| - 1]) + [ParseEntry(lines[|lines| - 1])]
  }

  lemma {:induction false} EntriesAt(lines: seq<string>, i: nat)
    requires i < |lines|
    ensures Entries(lines)[i] == ParseEntry(lines[i])
  {
    if i < |lines| - 1 {
      EntriesAt(lines[..|lines| - 1], i);
    }
  }

  /** Reading line `i` as the searches do (lines 64-67, 87-90 and 109-112). */
  method ReadEntry(lines: seq<string>, i: nat) returns (e: Result<Entry>)
    requires i < |lines|
    ensures e == Entries(lines)[i]
  {
    e := ParseEntry(lines[i]);
    EntriesAt(lines, i);
  }

  /** The number of read lines that are cookie `name` on the day with integer key `key`. */
  function KeyCount(es: seq<Result<Entry>>, name: string, key: nat): (n: nat)
  {
    if es == [] then 0
    else KeyCount(es[..|es| - 1], name, key) + (if es[|es| - 1] == Ok(Entry(name, key)) then 1 else 0)
  }

  /** The line read without error and its day has key `key`. */
  predicate HasKey(e: Result<Entry>, key: nat) {
    e.Ok? && e.value.key == key
  }

  /** `name` occurs on `day` and no cookie occurs on `day` more often. */
  ghost predicate MostActiveOnDay(lines: seq<string>, day: string, name: string) {
    DayCount(lines, name, day) > 0 &&
    forall other :: DayCount(lines, other, day) <= DayCount(lines, name, day)
  }

  /** `name` occurs on the day with key `key` and no cookie occurs on it more often. */
  ghost predicate MostActiveWithKey(es: seq<Result<Entry>>, key: nat, name: string) {
    KeyCount(es, name, key) > 0 &&
    forall other :: KeyCount(es, other, key) <= KeyCount(es, name, key)
  }

  /** Every line has a name and a day that converts to an integer. */
  ghost predicate WellFormed(es: seq<Result<Entry>>) {
    forall i :: 0 <= i < |es| ==> es[i].Ok?
  }

  function KeyAt(es: seq<Result<Entry>>, i: nat): (k: nat)
    requires i < |es| && es[i].Ok?
  {
    es[i].value.key
  }

  /** The order the binary search assumes: day keys never increase down the log. */
  ghost predicate SortedNewestFirst(es: seq<Result<Entry>>) {
    WellFormed(es) &&
    forall i, j :: 0 <= i < j < |es| ==> KeyAt(es, j) <= KeyAt(es, i)
  }

  /** Every line has a name and a day in `YYYY-MM-DD` form. */
  ghost predicate Canonical(lines: seq<string>) {
    forall i :: 0 <= i < |lines| ==> ParseLine(lines[i]).Ok? && IsCanonicalDay(ParseLine(lines[i]).value.day)
  }

  lemma CanonicalIsWellFormed(lines: seq<string>)
    requires Canonical(lines)
    ensures WellFormed(Entries(lines))
  {
    forall i | 0 <= i < |lines| ensures ParseEntry(lines[i]).Ok? {
      CanonicalDayKey(ParseLine(lines[i]).value.day);
    }
  }

  lemma {:induction false} KeyCountAppend(a: seq<Result<Entry>>, b: seq<Result<Entry>>, name: string, key: nat)
    ensures KeyCount(a + b, name, key) == KeyCount(a, name, key) + KeyCount(b, name, key)
    decreases |b|
  {
    if b == [] {
      assert a + b == a;
    } else {
      assert (a + b)[..|a + b| - 1] == a + b[..|b| - 1];
      assert (a + b)[|a + b| - 1] == b[|b| - 1];
      KeyCountAppend(a, b[..|b| - 1], name, key);
    }
  }

  /** A stretch of the log holds no more occurrences than the whole log. */
  lemma KeyCountSlice(es: seq<Result<Entry>>, lo: nat, hi: nat, name: string, key: nat)
    requires lo <= hi <= |es|
    ensures KeyCount(es[lo..hi], name, key) <= KeyCount(es, name, key)
  {
    assert es == es[..lo] + es[lo..hi] + es[hi..];
    KeyCountAppend(es[..lo] + es[lo..hi], es[hi..], name, key);
    KeyCountAppend(es[..lo], es[lo..hi], name, key);
  }

  /** Lines none of which has key `key` count nothing for any cookie. */
  lemma {:induction false} KeyCountNone(es: seq<Result<Entry>>, name: string, key: nat)
    requires forall i :: 0 <= i < |es| ==> !HasKey(es[i], key)
    ensures KeyCount(es, name, key) == 0
  {
    if es != [] {
      KeyCountNone(es[..|es| - 1], name, key);
    }
  }

  /** In a sorted log a later line is never newer. */
  lemma SortedAt(es: seq<Result<Entry>>, i: nat, j: nat)
    requires SortedNewestFirst(es) && i <= j < |es|
    ensures KeyAt(es, j) <= KeyAt(es, i)
  {
  }

  /** A run `[lo, hi)` with no line of key `key` around it holds every occurrence of
      that key: counting the run is counting the log. */
  lemma KeyCountOfRun(es: seq<Result<Entry>>, key: nat, lo: nat, hi: nat, name: string)
    requires lo <= hi <= |es|
    requires forall i :: 0 <= i < lo ==> !HasKey(es[i], key)
    requires forall i :: hi <= i < |es| ==> !HasKey(es[i], key)
    ensures KeyCount(es, name, key) == KeyCount(es[lo..hi], name, key)
  {
    var before, run, after := es[..lo], es[lo..hi], es[hi..];
    assert es == before + run + after;
    KeyCountAppend(before + run, after, name, key);
    KeyCountAppend(before, run, name, key);
    assert forall i :: 0 <= i < |before| ==> before[i] == es[i];
    KeyCountNone(before, name, key);
    assert forall i :: 0 <= i < |after| ==> after[i] == es[hi + i];
    KeyCountNone(after, name, key);
  }

  /** On `YYYY-MM-DD` days, counting a cookie by day text and by day key agree. */
  lemma {:induction false} DayCountIsKeyCount(lines: seq<string>, day: string, name: string)
    requires Canonical(lines) && IsCanonicalDay(day)
    ensures DayKey(day).Ok?
    ensures DayCount(lines, name, day) == KeyCount(Entries(lines), name, DayKey(day).value)
  {
    CanonicalDayKey(day);
    if lines != [] {
      var init, last := lines[..|lines| - 1], lines[|lines| - 1];
      assert Canonical(init) by {
        forall i | 0 <= i < |init| ensures ParseLine(init[i]).Ok? && IsCanonicalDay(ParseLine(init[i]).value.day) {
          assert init[i] == lines[i];
        }
      }
      DayCountIsKeyCount(init, day, name);
      assert Entries(lines)[..|lines| - 1] == Entries(init);
      var rec := ParseLine(last).value;
      CanonicalDayKey(rec.day);
      if DayKey(rec.day) == DayKey(day) {
        DayKeyInjective(rec.day, day);
      }
    }
  }

  /** On a log of `YYYY-MM-DD` days, the most active cookies by day text are the most
      active cookies by day key. */
  lemma MostActiveAgree(lines: seq<string>, day: string, name: string)
    requires Canonical(lines) && IsCanonicalDay(day)
    ensures DayKey(day).Ok?
    ensures MostActiveOnDay(lines, day, name) <==> MostActiveWithKey(Entries(lines), DayKey(day).value, name)
  {
    CanonicalDayKey(day);
    forall other {
      DayCountIsKeyCount(lines, day, other);
    }
  }
}

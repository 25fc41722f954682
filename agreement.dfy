/** The two searches side by side: on a log sorted newest first whose days, and the
    asked day, are written `YYYY-MM-DD`, the binary search outputs the same cookies as
    the full scan, except that as written it raises IndexError where every line is newer
    than the asked day (the full scan then outputs nothing); with that read guarded the
    two always agree. */
module Agreement {
  import opened LineFormat
  import opened CookieLog
  import opened BinarySearch
  import opened FullScan

  /** Run both searches on the same sorted log and the same day. */
  method SearchesAgree(lines: seq<string>, date: string) returns (full: Result<seq<string>>, fast: Result<seq<string>>)
    requires Canonical(lines) && IsCanonicalDay(date)
    requires SortedNewestFirst(Entries(lines))
    ensures full.Ok?
    ensures fast.Ok? ==> forall x :: x in fast.value <==> x in full.value
    ensures fast.Err? ==> fast.error == IndexError && forall x :: x !in full.value
  {
    CanonicalIsWellFormed(lines);
    CanonicalDayKey(date);
    assert forall i :: 0 <= i < |lines| ==> ',' in lines[i] by {
      forall i | 0 <= i < |lines| ensures ',' in lines[i] {
        assert ParseLine(lines[i]).Ok?;
      }
    }
    full := MostActiveCookie(lines, date);
    fast := MostActiveCookieBinarySearch(lines, date);
    var key := DayKey(date).value;
    forall x ensures MostActiveOnDay(lines, date, x) <==> MostActiveWithKey(Entries(lines), key, x) {
      MostActiveAgree(lines, date, x);
    }
    if fast.Err? {
      assert forall i :: 0 <= i < |lines| ==> KeyAt(Entries(lines), i) > key;
      forall x ensures x !in full.value {
        AllNewerCountsNothing(Entries(lines), key, x);
      }
    }
  }

  /** With the read past the end guarded, the binary search and the full scan output
      the same cookies on every sorted log whose days, and the asked date, are written
      `YYYY-MM-DD`. */
  method CheckedSearchesAgree(lines: seq<string>, date: string) returns (full: Result<seq<string>>, fast: Result<seq<string>>)
    requires Canonical(lines) && IsCanonicalDay(date)
    requires SortedNewestFirst(Entries(lines))
    ensures full.Ok? && fast.Ok?
    ensures forall x :: x in fast.value <==> x in full.value
  {
    CanonicalDayKey(date);
    assert forall i :: 0 <= i < |lines| ==> ',' in lines[i] by {
      forall i | 0 <= i < |lines| ensures ',' in lines[i] {
        assert ParseLine(lines[i]).Ok?;
      }
    }
    full := MostActiveCookie(lines, date);
    fast := MostActiveCookieBinarySearchChecked(lines, date);
    forall x ensures MostActiveOnDay(lines, date, x) <==> MostActiveWithKey(Entries(lines), DayKey(date).value, x) {
      MostActiveAgree(lines, date, x);
    }
  }
}

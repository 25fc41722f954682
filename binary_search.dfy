/** `most_active_cookie_binary_search`: on a log sorted newest first, a binary
    search finds one line of the asked day (the anchor), two linear scans count the
    cookies of the lines around it that have the same day, and the cookies with the
    largest count are output. */
module BinarySearch {
  import opened LineFormat
  import opened Counting
  import opened CookieLog

  /** Where the search loop left `l` and `r`: `l == r` on the anchor, or `l == r + 1`
      when the pointers crossed without meeting a line of the day. */
  datatype Bounds = Bounds(l: int, r: int)

  /** The counting state a scan leaves: the index it stopped at, the dict and `max_freq`. */
  datatype Tally = Tally(pos: int, counter: Counter<string>, maxFreq: nat)

  /** Lines 61-79 written as recursion over the interval `[l, r]` of the read lines:
      look at the middle line, go right when the target day is older than it (the log
      is newest first), go left when it is newer, stop on it when it is the same day.
      Reading the middle line can raise. */
  function Search(es: seq<Result<Entry>>, target: nat, l: int, r: int): (res: Result<Bounds>)
    requires 0 <= l <= r + 1 <= |es|
    ensures res.Ok? ==> l <= res.value.l <= r + 1
    decreases r - l
  {
    if l > r then Ok(Bounds(l, r))
    else
      var mid := l + (r - l) / 2;
      match es[mid]
      case Err(e) => Err(e)
      case Ok(entry) =>
        if target < entry.key then Search(es, target, mid + 1, r)
        else if target > entry.key then Search(es, target, l, mid - 1)
        else Ok(Bounds(mid, mid))
  }

  /** The search stops on a line of the target day inside `[l, r]`, or with the pointers
      crossed (`l == r + 1`) inside `[l, r + 1]`, or raises the error of a line in `[l, r]`. */
  lemma {:induction false} SearchSpec(es: seq<Result<Entry>>, target: nat, l: int, r: int)
    requires 0 <= l <= r + 1 <= |es|
    ensures var res := Search(es, target, l, r);
      (res.Ok? && res.value.l == res.value.r ==>
        l <= res.value.l <= r && HasKey(es[res.value.l], target)) &&
      (res.Ok? && res.value.l != res.value.r ==>
        res.value.l == res.value.r + 1 && l <= res.value.l <= r + 1) &&
      (res.Err? ==> exists i :: l <= i <= r && es[i] == Err(res.error))
    decreases r - l
  {
    var res := Search(es, target, l, r);
    if l <= r {
      var mid := l + (r - l) / 2;
      assert l <= mid <= r;
      match es[mid]
      case Err(e) =>
        assert res == Err(e) && es[mid] == Err(res.error);
      case Ok(entry) =>
        if target < entry.key {
          SearchSpec(es, target, mid + 1, r);
          assert res == Search(es, target, mid + 1, r);
        } else if target > entry.key {
          SearchSpec(es, target, l, mid - 1);
          assert res == Search(es, target, l, mid - 1);
        } else {
          assert res == Ok(Bounds(mid, mid)) && HasKey(es[mid], target);
        }
    }
  }

  /** One step of the search, once the middle line has been read. */
  lemma SearchStep(es: seq<Result<Entry>>, target: nat, l: int, r: int)
    requires 0 <= l <= r < |es|
    ensures var mid := l + (r - l) / 2;
      Search(es, target, l, r) ==
        match es[mid]
        case Err(e) => Err(e)
        case Ok(entry) =>
          if target < entry.key then Search(es, target, mid + 1, r)
          else if target > entry.key then Search(es, target, l, mid - 1)
          else Ok(Bounds(mid, mid))
  {
  }

  /** On a sorted log the search cannot fail, and when it finds no line of the day,
      every line before `l` is newer than the day and every line after `r` older. */
  lemma {:induction false} SearchSorted(es: seq<Result<Entry>>, target: nat, l: int, r: int)
    requires SortedNewestFirst(es)
    requires 0 <= l <= r + 1 <= |es|
    requires forall i :: 0 <= i < l ==> KeyAt(es, i) > target
    requires forall i :: r < i < |es| ==> KeyAt(es, i) < target
    ensures var res := Search(es, target, l, r);
      res.Ok? &&
      (res.value.l != res.value.r ==>
        0 <= res.value.l == res.value.r + 1 <= |es| &&
        (forall i :: 0 <= i < res.value.l ==> KeyAt(es, i) > target) &&
        (forall i :: res.value.r < i < |es| ==> KeyAt(es, i) < target))
    decreases r - l
  {
    if l <= r {
      var mid := l + (r - l) / 2;
      var key := KeyAt(es, mid);
      if target < key {
        forall i | 0 <= i < mid + 1 ensures KeyAt(es, i) > target {
          SortedAt(es, i, mid);
        }
        SearchSorted(es, target, mid + 1, r);
      } else if target > key {
        forall i | mid - 1 < i < |es| ensures KeyAt(es, i) < target {
          SortedAt(es, mid, i);
        }
        SearchSorted(es, target, l, mid - 1);
      }
    }
  }

  /** Lines 59-79: the binary search for an anchor, `mid = l + (r - l) // 2` over
      `[0, len - 1]`, stopping with `l = r = mid` on the first line of the day it meets. */
  method FindAnchor(lines: seq<string>, target: nat) returns (res: Result<Bounds>)
    ensures res == Search(Entries(lines), target, 0, |lines| - 1)
  {
    ghost var es := Entries(lines);
    var l, r := 0, |lines| - 1;
    while l <= r
      invariant 0 <= l <= r + 1 <= |lines|
      invariant Search(es, target, l, r) == Search(es, target, 0, |lines| - 1)
      decreases r - l
    {
      var mid := l + (r - l) / 2;
      var entry := ParseEntry(lines[mid]);
      EntriesAt(lines, mid);
      SearchStep(es, target, l, r);
      if entry.Err? {
        return Err(entry.error);
      }
      if target < entry.value.key {
        l := mid + 1;
      } else if target > entry.value.key {
        r := mid - 1;
      } else {
        l, r := mid, mid;
        break;
      }
    }
    res := Ok(Bounds(l, r));
  }

  /** The dict the left scan builds over a run of lines: the lines are counted from
      the last to the first, so the dict lists cookies in that order. Lines of
      another day count nothing. */
  function CountBackward(run: seq<Result<Entry>>, key: nat): (c: Counter<string>)
    ensures c.Valid()
  {
    if run == [] then Empty()
    else if HasKey(run[0], key) then CountBackward(run[1..], key).Bump(run[0].value.name)
    else CountBackward(run[1..], key)
  }

  /** The dict the right scan builds by going on counting the lines of a run, from the
      first to the last, into the dict `c` it was handed. */
  function CountForward(c: Counter<string>, run: seq<Result<Entry>>, key: nat): (d: Counter<string>)
    requires c.Valid()
    ensures d.Valid()
  {
    if run == [] then c
    else
      var d := CountForward(c, run[..|run| - 1], key);
      var e := run[|run| - 1];
      if HasKey(e, key) then d.Bump(e.value.name) else d
  }

  /** Counting a run backward gives each cookie its number of lines of the day in the run. */
  lemma {:induction false} CountBackwardCounts(run: seq<Result<Entry>>, key: nat)
    ensures forall x :: CountBackward(run, key).Get(x) == KeyCount(run, x, key)
    ensures Distinct(CountBackward(run, key).keys)
  {
    if run != [] {
      var rest := CountBackward(run[1..], key);
      CountBackwardCounts(run[1..], key);
      if HasKey(run[0], key) {
        BumpSpec(rest, run[0].value.name);
      }
      assert run == [run[0]] + run[1..];
      assert [run[0]][..0] == [];
      forall x ensures CountBackward(run, key).Get(x) == KeyCount(run, x, key) {
        KeyCountAppend([run[0]], run[1..], x, key);
      }
    }
  }

  /** Counting a run forward into `c` adds each cookie's number of lines of the day in the
      run to its count in `c`, and keeps the cookies of `c` first, in their order. */
  lemma {:induction false} CountForwardCounts(c: Counter<string>, run: seq<Result<Entry>>, key: nat)
    requires c.Valid()
    ensures forall x :: CountForward(c, run, key).Get(x) == c.Get(x) + KeyCount(run, x, key)
    ensures c.keys <= CountForward(c, run, key).keys
    ensures Distinct(c.keys) ==> Distinct(CountForward(c, run, key).keys)
  {
    if run != [] {
      CountForwardCounts(c, run[..|run| - 1], key);
      var e := run[|run| - 1];
      if HasKey(e, key) {
        BumpSpec(CountForward(c, run[..|run| - 1], key), e.value.name);
      }
    }
  }

  /** A run of lines of day `key` that ends at `hi` grows by one on the left. */
  lemma RunGrowsLeft(es: seq<Result<Entry>>, key: nat, lo: int, hi: int)
    requires 0 <= lo <= hi < |es| && HasKey(es[lo], key)
    requires forall i :: lo < i <= hi ==> HasKey(es[i], key)
    ensures forall i :: lo - 1 < i <= hi ==> HasKey(es[i], key)
  {
  }

  /** A run of lines of day `key` that starts at `lo` grows by one on the right. */
  lemma RunGrowsRight(es: seq<Result<Entry>>, key: nat, lo: int, hi: int)
    requires 0 <= lo <= hi < |es| && HasKey(es[hi], key)
    requires forall i :: lo <= i < hi ==> HasKey(es[i], key)
    ensures forall i :: lo <= i < hi + 1 ==> HasKey(es[i], key)
  {
  }

  /** Counting one more line on the left of a run. */
  lemma CountBackwardStep(es: seq<Result<Entry>>, lo: nat, hi: nat, key: nat)
    requires lo < hi <= |es| && HasKey(es[lo], key)
    ensures CountBackward(es[lo..hi], key) == CountBackward(es[lo + 1..hi], key).Bump(es[lo].value.name)
  {
    assert es[lo..hi][1..] == es[lo + 1..hi];
  }

  /** Counting one more line on the right of a run. */
  lemma CountForwardStep(c: Counter<string>, es: seq<Result<Entry>>, lo: nat, hi: nat, key: nat)
    requires c.Valid()
    requires lo <= hi < |es| && HasKey(es[hi], key)
    ensures CountForward(c, es[lo..hi + 1], key) == CountForward(c, es[lo..hi], key).Bump(es[hi].value.name)
  {
    assert es[lo..hi + 1][..hi - lo] == es[lo..hi];
  }

  /** Lines 82-104: starting from a fresh dict at `start`, count the cookie of each line
      of the target day while walking left, and stop at the first line of another day
      or past the first line. (When `start` is the length of the log the first read of
      this loop is out of range; the caller raises that `IndexError` before calling.) */
  method ScanLeft(lines: seq<string>, target: nat, start: nat) returns (res: Result<Tally>)
    requires start < |lines|
    ensures res.Ok? ==> ScannedLeft(Entries(lines), target, start, res.value)
    ensures res.Err? ==> FailedLeft(Entries(lines), target, start, res.error)
  {
    ghost var es := Entries(lines);
    var l: int := start;
    var counter := Empty<string>();
    var maxFreq := 0;
    ghost var lo: nat := start + 1;
    while l >= 0
      invariant lo == l + 1 && lo <= start + 1
      invariant forall i :: lo <= i <= start ==> HasKey(es[i], target)
      invariant counter == CountBackward(es[lo..start + 1], target)
      invariant maxFreq == counter.MaxCount()
    {
      var entry := ReadEntry(lines, l);
      if entry.Err? {
        LeftFails(es, target, start, l, entry.error);
        return Err(entry.error);
      }
      if entry.value.key == target {
        var name := entry.value.name;
        RunGrowsLeft(es, target, l, start);
        CountBackwardStep(es, l, start + 1, target);
        counter, maxFreq := CountOne(counter, maxFreq, name);
        l, lo := l - 1, l;
      } else {
        break;
      }
    }
    LeftScanDone(es, target, start, Tally(l, counter, maxFreq));
    res := Ok(Tally(l, counter, maxFreq));
  }

  /** What a left scan from `start` that raised nothing leaves: it stopped at `pos`, every
      line after `pos` up to `start` has the target day, the line at `pos` (if any) was read
      and has another day, the dict counts each cookie once per line of that run and lists
      it once, and `max_freq` is the dict's largest value. */
  ghost predicate ScannedLeft(es: seq<Result<Entry>>, target: nat, start: nat, t: Tally) {
    -1 <= t.pos <= start < |es| &&
    (forall i :: t.pos < i <= start ==> HasKey(es[i], target)) &&
    (t.pos >= 0 ==> es[t.pos].Ok? && !HasKey(es[t.pos], target)) &&
    t.counter.Valid() && Distinct(t.counter.keys) &&
    (forall x :: t.counter.Get(x) == KeyCount(es[t.pos + 1..start + 1], x, target)) &&
    t.maxFreq == t.counter.MaxCount()
  }

  /** What a right scan from `start` that raised nothing leaves, given the dict `counter`
      it started with: it stopped at `pos`, every line from `start` to before `pos` has the
      target day, the line at `pos` (if any) was read and has another day, each cookie's
      count grew by its number of lines of that run, the cookies already in the dict keep
      their place at the front, and `max_freq` is the dict's largest value. */
  ghost predicate ScannedRight(es: seq<Result<Entry>>, target: nat, start: nat, counter: Counter<string>, t: Tally) {
    start <= t.pos <= |es| &&
    (forall i :: start <= i < t.pos ==> HasKey(es[i], target)) &&
    (t.pos < |es| ==> es[t.pos].Ok? && !HasKey(es[t.pos], target)) &&
    t.counter.Valid() && counter.keys <= t.counter.keys &&
    (Distinct(counter.keys) ==> Distinct(t.counter.keys)) &&
    (forall x :: t.counter.Get(x) == counter.Get(x) + KeyCount(es[start..t.pos], x, target)) &&
    t.maxFreq == t.counter.MaxCount()
  }

  /** How a left scan from `start` raises: it walked left over lines of the target day
      down to a line `i`, and reading line `i` raised error `e`. */
  ghost predicate FailedLeft(es: seq<Result<Entry>>, target: nat, start: nat, e: Failure) {
    exists i :: 0 <= i <= start < |es| && es[i] == Err(e) &&
      forall j :: i < j <= start ==> HasKey(es[j], target)
  }

  /** How a right scan from `start` raises: it walked right over lines of the target day
      up to a line `i`, and reading line `i` raised error `e`. */
  ghost predicate FailedRight(es: seq<Result<Entry>>, target: nat, start: nat, e: Failure) {
    exists i :: start <= i < |es| && es[i] == Err(e) &&
      forall j :: start <= j < i ==> HasKey(es[j], target)
  }

  /** A left scan that reads an error at `l` after walking over lines of the day fails
      as `FailedLeft` states. */
  lemma LeftFails(es: seq<Result<Entry>>, target: nat, start: nat, l: nat, e: Failure)
    requires l <= start < |es| && es[l] == Err(e)
    requires forall j :: l < j <= start ==> HasKey(es[j], target)
    ensures FailedLeft(es, target, start, e)
  {
  }

  /** A right scan that reads an error at `r` after walking over lines of the day fails
      as `FailedRight` states. */
  lemma RightFails(es: seq<Result<Entry>>, target: nat, start: nat, r: nat, e: Failure)
    requires start <= r < |es| && es[r] == Err(e)
    requires forall j :: start <= j < r ==> HasKey(es[j], target)
    ensures FailedRight(es, target, start, e)
  {
  }

  /** A left scan whose first line reads and has another day stops there without error. */
  lemma LeftScanCannotFail(es: seq<Result<Entry>>, target: nat, start: nat)
    requires start < |es| && es[start].Ok? && !HasKey(es[start], target)
    ensures forall e :: !FailedLeft(es, target, start, e)
  {
  }

  /** A right scan whose first line reads and has another day stops there without error. */
  lemma RightScanCannotFail(es: seq<Result<Entry>>, target: nat, start: nat)
    requires start < |es| && es[start].Ok? && !HasKey(es[start], target)
    ensures forall e :: !FailedRight(es, target, start, e)
  {
  }

  /** A left scan that got through raised nothing: no line it could reach raises. */
  lemma LeftScanExcludesFailure(es: seq<Result<Entry>>, target: nat, start: nat, t: Tally)
    requires ScannedLeft(es, target, start, t)
    ensures !FailedLeft(es, target, start, IndexError) && !FailedLeft(es, target, start, ValueError)
  {
  }

  /** A right scan that got through raised nothing: no line it could reach raises. */
  lemma RightScanExcludesFailure(es: seq<Result<Entry>>, target: nat, start: nat, counter: Counter<string>, t: Tally)
    requires ScannedRight(es, target, start, counter, t)
    ensures !FailedRight(es, target, start, IndexError) && !FailedRight(es, target, start, ValueError)
  {
  }

  /** `res` raises exactly when the right scan from `start` raises, and then raises its error. */
  ghost predicate RaisesAsRightScan<T>(es: seq<Result<Entry>>, target: nat, start: nat, res: Result<T>) {
    (res.Err? <==> FailedRight(es, target, start, IndexError) || FailedRight(es, target, start, ValueError)) &&
    (res.Err? ==> FailedRight(es, target, start, res.error))
  }

  /** A right scan from `r + 1` that raises is matched by raising its error. It cannot
      happen on a sorted log (every line reads) nor after a crossed search (the scan's
      first line reads and has another day). */
  lemma RightScanRaised(es: seq<Result<Entry>>, target: nat, b: Bounds, res: Result<seq<string>>)
    requires Search(es, target, 0, |es| - 1) == Ok(b)
    requires 0 <= b.l && 0 <= b.r + 1 <= |es|
    requires res.Err? && FailedRight(es, target, b.r + 1, res.error)
    ensures RaisesAsRightScan(es, target, b.r + 1, res)
    ensures !SortedNewestFirst(es) && b.l != b.r + 1
  {
    if b.l == b.r + 1 {
      CrossedStopsAtOnce(es, target, b);
      RightScanCannotFail(es, target, b.r + 1);
      assert false;
    }
    match res.error {
      case IndexError =>
      case ValueError =>
    }
  }

  /** A right scan that got through is matched by raising nothing. */
  lemma RightScanQuiet(es: seq<Result<Entry>>, target: nat, start: nat, counter: Counter<string>, t: Tally, res: Result<seq<string>>)
    requires ScannedRight(es, target, start, counter, t) && res.Ok?
    ensures RaisesAsRightScan(es, target, start, res)
  {
    RightScanExcludesFailure(es, target, start, counter, t);
  }

  /** The scans around `b` raise `e`: the left scan from `l` reaches a line that raises
      `e`, or it gets through and the right scan from `r + 1` reaches one. */
  ghost predicate ScanRaises(es: seq<Result<Entry>>, target: nat, b: Bounds, e: Failure) {
    0 <= b.l < |es| && 0 <= b.r + 1 &&
    (FailedLeft(es, target, b.l, e) ||
     (!FailedLeft(es, target, b.l, IndexError) && !FailedLeft(es, target, b.l, ValueError) &&
      FailedRight(es, target, b.r + 1, e)))
  }

  /** The scans around `b` raise some error. */
  ghost predicate ScansRaise(es: seq<Result<Entry>>, target: nat, b: Bounds) {
    ScanRaises(es, target, b, IndexError) || ScanRaises(es, target, b, ValueError)
  }

  /** In a log where every line reads, the search raises nothing. */
  lemma WellFormedSearchOk(es: seq<Result<Entry>>, target: nat)
    requires WellFormed(es)
    ensures Search(es, target, 0, |es| - 1).Ok?
  {
    SearchSpec(es, target, 0, |es| - 1);
  }

  /** In a log where every line reads, the scans raise nothing. */
  lemma WellFormedScansQuiet(es: seq<Result<Entry>>, target: nat, b: Bounds)
    requires WellFormed(es)
    ensures !ScansRaise(es, target, b)
  {
  }

  /** A left scan raises at most one error: the one of the first unreadable line it reaches. */
  lemma FailedLeftUnique(es: seq<Result<Entry>>, target: nat, start: nat, e1: Failure, e2: Failure)
    requires FailedLeft(es, target, start, e1) && FailedLeft(es, target, start, e2)
    ensures e1 == e2
  {
    var i1 :| 0 <= i1 <= start < |es| && es[i1] == Err(e1) &&
      forall j :: i1 < j <= start ==> HasKey(es[j], target);
    var i2 :| 0 <= i2 <= start < |es| && es[i2] == Err(e2) &&
      forall j :: i2 < j <= start ==> HasKey(es[j], target);
    if i1 != i2 {
      assert false;
    }
  }

  /** A right scan raises at most one error: the one of the first unreadable line it reaches. */
  lemma FailedRightUnique(es: seq<Result<Entry>>, target: nat, start: nat, e1: Failure, e2: Failure)
    requires FailedRight(es, target, start, e1) && FailedRight(es, target, start, e2)
    ensures e1 == e2
  {
    var i1 :| start <= i1 < |es| && es[i1] == Err(e1) &&
      forall j :: start <= j < i1 ==> HasKey(es[j], target);
    var i2 :| start <= i2 < |es| && es[i2] == Err(e2) &&
      forall j :: start <= j < i2 ==> HasKey(es[j], target);
    if i1 != i2 {
      assert false;
    }
  }

  /** The scans around `b` raise at most one error. */
  lemma ScanRaisesUnique(es: seq<Result<Entry>>, target: nat, b: Bounds, e1: Failure, e2: Failure)
    requires ScanRaises(es, target, b, e1) && ScanRaises(es, target, b, e2)
    ensures e1 == e2
  {
    if FailedLeft(es, target, b.l, e1) && FailedLeft(es, target, b.l, e2) {
      FailedLeftUnique(es, target, b.l, e1, e2);
    } else if FailedRight(es, target, b.r + 1, e1) && FailedRight(es, target, b.r + 1, e2) {
      FailedRightUnique(es, target, b.r + 1, e1, e2);
    }
  }

  /** `res` raises exactly when the scans around `b` raise, and then raises their error. */
  ghost predicate RaisesAsScans<T>(es: seq<Result<Entry>>, target: nat, b: Bounds, res: Result<T>) {
    (res.Err? <==> ScansRaise(es, target, b)) &&
    (res.Err? ==> ScanRaises(es, target, b, res.error))
  }

  /** A left scan that raises `e` makes the scans raise `e`. */
  lemma LeftRaises(es: seq<Result<Entry>>, target: nat, b: Bounds, res: Result<seq<string>>)
    requires 0 <= b.l < |es| && 0 <= b.r + 1
    requires res.Err? && FailedLeft(es, target, b.l, res.error)
    ensures RaisesAsScans(es, target, b, res)
  {
    match res.error
    case IndexError => assert ScanRaises(es, target, b, IndexError);
    case ValueError => assert ScanRaises(es, target, b, ValueError);
  }

  /** After a left scan that got through, the scans raise as the right scan does. */
  lemma RightRaises(es: seq<Result<Entry>>, target: nat, b: Bounds, res: Result<seq<string>>)
    requires 0 <= b.l < |es| && 0 <= b.r + 1
    requires !FailedLeft(es, target, b.l, IndexError) && !FailedLeft(es, target, b.l, ValueError)
    requires RaisesAsRightScan(es, target, b.r + 1, res)
    ensures RaisesAsScans(es, target, b, res)
  {
  }

  /** Where the left loop ends, its invariant gives what `ScannedLeft` states. */
  lemma LeftScanDone(es: seq<Result<Entry>>, target: nat, start: nat, t: Tally)
    requires -1 <= t.pos <= start < |es|
    requires forall i :: t.pos < i <= start ==> HasKey(es[i], target)
    requires t.pos >= 0 ==> es[t.pos].Ok? && !HasKey(es[t.pos], target)
    requires t.counter == CountBackward(es[t.pos + 1..start + 1], target)
    requires t.maxFreq == t.counter.MaxCount()
    ensures ScannedLeft(es, target, start, t)
  {
    CountBackwardCounts(es[t.pos + 1..start + 1], target);
  }

  /** Where the right loop ends, its invariant gives what `ScannedRight` states. */
  lemma RightScanDone(es: seq<Result<Entry>>, target: nat, start: nat, counter: Counter<string>, t: Tally)
    requires counter.Valid()
    requires start <= t.pos <= |es|
    requires forall i :: start <= i < t.pos ==> HasKey(es[i], target)
    requires t.pos < |es| ==> es[t.pos].Ok? && !HasKey(es[t.pos], target)
    requires t.counter == CountForward(counter, es[start..t.pos], target)
    requires t.maxFreq == t.counter.MaxCount()
    ensures ScannedRight(es, target, start, counter, t)
  {
    CountForwardCounts(counter, es[start..t.pos], target);
  }

  /** Lines 106-126: from `start` (one past the anchor), go on counting into the dict
      the left scan left, walking right while the day matches, and stop at the first
      line of another day or at the end of the log. */
  method ScanRight(lines: seq<string>, target: nat, start: nat, counter: Counter<string>, maxFreq: nat)
    returns (res: Result<Tally>)
    requires start <= |lines|
    requires counter.Valid() && maxFreq == counter.MaxCount()
    ensures res.Ok? ==> ScannedRight(Entries(lines), target, start, counter, res.value)
    ensures res.Err? ==> FailedRight(Entries(lines), target, start, res.error)
  {
    ghost var es := Entries(lines);
    var r := start;
    var tally := counter;
    var maxSoFar := maxFreq;
    while r < |lines|
      invariant start <= r <= |lines|
      invariant forall i :: start <= i < r ==> HasKey(es[i], target)
      invariant tally == CountForward(counter, es[start..r], target)
      invariant maxSoFar == tally.MaxCount()
    {
      var entry := ReadEntry(lines, r);
      if entry.Err? {
        RightFails(es, target, start, r, entry.error);
        return Err(entry.error);
      }
      if entry.value.key == target {
        var name := entry.value.name;
        RunGrowsRight(es, target, start, r);
        CountForwardStep(counter, es, start, r, target);
        tally, maxSoFar := CountOne(tally, maxSoFar, name);
        r := r + 1;
      } else {
        break;
      }
    }
    RightScanDone(es, target, start, counter, Tally(r, tally, maxSoFar));
    res := Ok(Tally(r, tally, maxSoFar));
  }

  /** Lines 128-130: the keys of the dict whose count is `max_freq`, in the dict's order. */
  method EmitTies(counter: Counter<string>, maxFreq: nat) returns (out: seq<string>)
    requires counter.Valid()
    ensures out == counter.Select(counter.keys, maxFreq)
    ensures forall x :: x in out <==> x in counter.counts && counter.counts[x] == maxFreq
    ensures Distinct(counter.keys) ==> Distinct(out)
  {
    out := [];
    for i := 0 to |counter.keys|
      invariant out == counter.Select(counter.keys[..i], maxFreq)
    {
      var k := counter.keys[i];
      assert counter.keys[..i + 1] == counter.keys[..i] + [k];
      if counter.counts[k] == maxFreq {
        out := out + [k];
      }
    }
    assert counter.keys[..|counter.keys|] == counter.keys;
  }

  /** On a sorted log the search ends with `l` past the last line exactly when every line
      is newer than the target day; this is when the left scan's first read raises. */
  lemma AnchorPastEnd(es: seq<Result<Entry>>, target: nat)
    requires SortedNewestFirst(es)
    ensures var res := Search(es, target, 0, |es| - 1);
      res.Ok? && (res.value.l == |es| <==> forall i :: 0 <= i < |es| ==> KeyAt(es, i) > target)
  {
    SearchSorted(es, target, 0, |es| - 1);
    SearchSpec(es, target, 0, |es| - 1);
    var b := Search(es, target, 0, |es| - 1).value;
    if b.l == b.r {
      assert KeyAt(es, b.l) == target;
    } else if b.l < |es| {
      assert KeyAt(es, b.l) < target;
    }
  }

  /** On a sorted log, the line just outside a non-empty run of the target day is newer
      (on the left) or older (on the right) than the day, and so is every line beyond it. */
  lemma RunIsWhole(es: seq<Result<Entry>>, target: nat, lo: int, hi: int)
    requires SortedNewestFirst(es)
    requires 0 <= lo < hi <= |es|
    requires forall i :: lo <= i < hi ==> HasKey(es[i], target)
    requires lo > 0 ==> !HasKey(es[lo - 1], target)
    requires hi < |es| ==> !HasKey(es[hi], target)
    ensures forall i :: 0 <= i < lo ==> !HasKey(es[i], target)
    ensures forall i :: hi <= i < |es| ==> !HasKey(es[i], target)
  {
    forall i | 0 <= i < lo ensures !HasKey(es[i], target) {
      SortedAt(es, i, lo - 1);
      SortedAt(es, lo - 1, lo);
    }
    forall i | hi <= i < |es| ensures !HasKey(es[i], target) {
      SortedAt(es, hi, i);
      SortedAt(es, hi - 1, hi);
    }
  }

  /** Whatever the order of the log, a cookie counted in two stretches of it occurs on
      the target day. */
  lemma CountedOccurs(es: seq<Result<Entry>>, target: nat, lo: nat, mid: nat, rs: nat, hi: nat)
    requires lo <= mid <= |es| && rs <= hi <= |es|
    ensures forall x :: KeyCount(es[lo..mid], x, target) + KeyCount(es[rs..hi], x, target) > 0 ==>
      KeyCount(es, x, target) > 0
  {
    forall x ensures KeyCount(es[lo..mid], x, target) + KeyCount(es[rs..hi], x, target) > 0 ==> KeyCount(es, x, target) > 0 {
      KeyCountSlice(es, lo, mid, x, target);
      KeyCountSlice(es, rs, hi, x, target);
    }
  }

  /** On a sorted log, two adjacent stretches `[lo, mid)` and `[mid, hi)` of the target
      day with lines of other days (or the ends of the log) around them hold every line
      of the day: counting them is counting the whole log. */
  lemma RunCountsAreExact(es: seq<Result<Entry>>, target: nat, lo: nat, mid: nat, hi: nat)
    requires SortedNewestFirst(es)
    requires lo < mid <= hi <= |es|
    requires forall i :: lo <= i < mid ==> HasKey(es[i], target)
    requires forall i :: mid <= i < hi ==> HasKey(es[i], target)
    requires lo > 0 ==> !HasKey(es[lo - 1], target)
    requires hi < |es| ==> !HasKey(es[hi], target)
    ensures forall x :: KeyCount(es[lo..mid], x, target) + KeyCount(es[mid..hi], x, target) == KeyCount(es, x, target)
  {
    RunIsWhole(es, target, lo, hi);
    assert es[lo..hi] == es[lo..mid] + es[mid..hi];
    forall x ensures KeyCount(es, x, target) == KeyCount(es[lo..mid], x, target) + KeyCount(es[mid..hi], x, target) {
      KeyCountOfRun(es, target, lo, hi, x);
      KeyCountAppend(es[lo..mid], es[mid..hi], x, target);
    }
  }

  /** When no line has the target day, no stretch of the log counts anything, and
      neither does the log. */
  lemma AbsentCountsAreExact(es: seq<Result<Entry>>, target: nat, lo: nat, mid: nat, rs: nat, hi: nat)
    requires lo <= mid <= |es| && rs <= hi <= |es|
    requires forall i :: 0 <= i < |es| ==> !HasKey(es[i], target)
    ensures forall x :: KeyCount(es[lo..mid], x, target) + KeyCount(es[rs..hi], x, target) == KeyCount(es, x, target)
  {
    forall x ensures KeyCount(es, x, target) == 0 && KeyCount(es[lo..mid], x, target) == 0 && KeyCount(es[rs..hi], x, target) == 0 {
      KeyCountNone(es, x, target);
      KeyCountSlice(es, lo, mid, x, target);
      KeyCountSlice(es, rs, hi, x, target);
    }
  }

  /** On a sorted log where the search ends with crossed pointers, no line has the target day. */
  lemma CrossedMeansAbsent(es: seq<Result<Entry>>, target: nat)
    requires SortedNewestFirst(es)
    requires Search(es, target, 0, |es| - 1).Ok?
    requires Search(es, target, 0, |es| - 1).value.l != Search(es, target, 0, |es| - 1).value.r
    ensures forall i :: 0 <= i < |es| ==> !HasKey(es[i], target)
  {
    SearchSorted(es, target, 0, |es| - 1);
    var b := Search(es, target, 0, |es| - 1).value;
    forall i | 0 <= i < |es| ensures !HasKey(es[i], target) {
      if i < b.l {
        assert KeyAt(es, i) > target;
      } else {
        assert KeyAt(es, i) < target;
      }
    }
  }

  /** On a sorted log, after the search left `l` and `r` at `b`, a left scan that
      stopped just before `lo` and a right scan that stopped at `hi` together cover
      every line of the target day: the run `[lo, l]` and the run `[r + 1, hi)` count
      each cookie exactly as often as the whole log does. */
  lemma SortedScanCounts(es: seq<Result<Entry>>, target: nat, b: Bounds, lo: nat, hi: nat)
    requires SortedNewestFirst(es)
    requires Search(es, target, 0, |es| - 1) == Ok(b)
    requires lo <= b.l + 1 <= |es| && 0 <= b.r + 1 <= hi <= |es|
    requires forall i :: lo <= i <= b.l ==> HasKey(es[i], target)
    requires lo > 0 ==> !HasKey(es[lo - 1], target)
    requires forall i :: b.r + 1 <= i < hi ==> HasKey(es[i], target)
    requires hi < |es| ==> !HasKey(es[hi], target)
    ensures forall x :: KeyCount(es[lo..b.l + 1], x, target) + KeyCount(es[b.r + 1..hi], x, target) == KeyCount(es, x, target)
  {
    SearchSpec(es, target, 0, |es| - 1);
    if b.l == b.r {
      RunCountsAreExact(es, target, lo, b.l + 1, hi);
    } else {
      CrossedMeansAbsent(es, target);
      AbsentCountsAreExact(es, target, lo, b.l + 1, b.r + 1, hi);
    }
  }

  /** After a left scan from `l` and a right scan from `r + 1`, every cookie the dict
      counted occurs on the target day, whatever the order of the log. */
  lemma ScanOutcome(es: seq<Result<Entry>>, target: nat, b: Bounds, lt: Tally, rt: Tally)
    requires 0 <= b.l && 0 <= b.r + 1
    requires ScannedLeft(es, target, b.l, lt)
    requires ScannedRight(es, target, b.r + 1, lt.counter, rt)
    ensures forall x :: rt.counter.Get(x) > 0 ==> KeyCount(es, x, target) > 0
  {
    CountedOccurs(es, target, lt.pos + 1, b.l + 1, b.r + 1, rt.pos);
  }

  /** On a sorted log, after the search left `l` and `r` at `b`, the left scan from `l`
      and the right scan from `r + 1` leave each cookie's count at its number of lines
      of the target day in the whole log. */
  lemma SortedScanOutcome(es: seq<Result<Entry>>, target: nat, b: Bounds, lt: Tally, rt: Tally)
    requires SortedNewestFirst(es)
    requires Search(es, target, 0, |es| - 1) == Ok(b)
    requires 0 <= b.l && 0 <= b.r + 1
    requires ScannedLeft(es, target, b.l, lt)
    requires ScannedRight(es, target, b.r + 1, lt.counter, rt)
    ensures forall x :: rt.counter.Get(x) == KeyCount(es, x, target)
  {
    SortedScanCounts(es, target, b, lt.pos + 1, rt.pos);
  }

  /** When the dict holds every cookie's number of lines of the day, the keys at its
      largest value are exactly the most active cookies of that day. */
  lemma TiesAreMostActive(es: seq<Result<Entry>>, target: nat, counter: Counter<string>, out: seq<string>)
    requires counter.Valid()
    requires forall x :: counter.Get(x) == KeyCount(es, x, target)
    requires forall x :: x in out <==> x in counter.counts && counter.counts[x] == counter.MaxCount()
    ensures forall x :: x in out <==> MostActiveWithKey(es, target, x)
  {
    forall x ensures x in out <==> MostActiveWithKey(es, target, x) {
      AtMaxCount(counter, x);
    }
  }

  /** When the search crosses, the line at `l` (if any) is one it read and found older
      than the day: either `r` was last lowered to `l - 1` from that line, or `l` was
      raised to `r + 1` where line `r + 1` had lowered `r` earlier. This holds on any
      log, sorted or not. */
  lemma {:induction false} CrossedLineIsOlder(es: seq<Result<Entry>>, target: nat, l: int, r: int)
    requires 0 <= l <= r + 1 <= |es|
    requires r + 1 == |es| || (es[r + 1].Ok? && es[r + 1].value.key < target)
    requires Search(es, target, l, r).Ok?
    ensures var b := Search(es, target, l, r).value;
      b.l == b.r + 1 && 0 <= b.l < |es| ==> es[b.l].Ok? && es[b.l].value.key < target
    decreases r - l
  {
    if l <= r {
      var mid := l + (r - l) / 2;
      if target < es[mid].value.key {
        CrossedLineIsOlder(es, target, mid + 1, r);
      } else if target > es[mid].value.key {
        CrossedLineIsOlder(es, target, l, mid - 1);
      }
    }
  }

  /** After a crossed search over the whole log, both scans stop on their first read:
      the line at `l` reads without error and has another day. */
  lemma CrossedStopsAtOnce(es: seq<Result<Entry>>, target: nat, b: Bounds)
    requires Search(es, target, 0, |es| - 1) == Ok(b)
    requires 0 <= b.l == b.r + 1 < |es|
    ensures es[b.l].Ok? && !HasKey(es[b.l], target)
  {
    CrossedLineIsOlder(es, target, 0, |es| - 1);
  }

  /** A dict in which every count is 0 is empty, and the output loop prints nothing. */
  lemma NothingCounted(counter: Counter<string>, out: seq<string>)
    requires counter.Valid()
    requires forall x :: counter.Get(x) == 0
    requires forall x :: x in out <==> x in counter.counts && counter.counts[x] == counter.MaxCount()
    ensures out == []
  {
    if out != [] {
      HeadIsMember(out);
      assert false;
    }
  }

  /** Helper for `NothingCounted`: names the first member of a non-empty list, so that
      the impossible case closes with `assert false` alone. */
  lemma HeadIsMember(s: seq<string>)
    requires s != []
    ensures s[0] in s
  {
  }

  /** After a crossed search, the left scan stops at `l` with a fresh dict and the right
      scan stops at `r + 1 == l` adding nothing, so every count is 0. */
  lemma CrossedCountsNothing(es: seq<Result<Entry>>, target: nat, b: Bounds, lt: Tally, rt: Tally)
    requires Search(es, target, 0, |es| - 1) == Ok(b)
    requires 0 <= b.l == b.r + 1 < |es|
    requires ScannedLeft(es, target, b.l, lt)
    requires ScannedRight(es, target, b.r + 1, lt.counter, rt)
    ensures forall x :: rt.counter.Get(x) == 0
  {
    CrossedStopsAtOnce(es, target, b);
    assert lt.pos == b.l;
    assert rt.pos == b.l;
    assert es[lt.pos + 1..b.l + 1] == [] && es[b.r + 1..rt.pos] == [];
  }

  /** Lines 128-130 after both scans: the cookies output at `max_freq` all occur on the
      day; none is output when the search crossed; and on a sorted log they are exactly
      the most active cookies. */
  lemma EmitOutcome(es: seq<Result<Entry>>, target: nat, b: Bounds, lt: Tally, rt: Tally, out: seq<string>)
    requires Search(es, target, 0, |es| - 1) == Ok(b)
    requires 0 <= b.l && 0 <= b.r + 1
    requires ScannedLeft(es, target, b.l, lt)
    requires ScannedRight(es, target, b.r + 1, lt.counter, rt)
    requires forall x :: x in out <==> x in rt.counter.counts && rt.counter.counts[x] == rt.maxFreq
    ensures b.l == b.r + 1 ==> out == []
    ensures forall x :: x in out ==> KeyCount(es, x, target) > 0
    ensures SortedNewestFirst(es) ==> forall x :: x in out <==> MostActiveWithKey(es, target, x)
  {
    ScanOutcome(es, target, b, lt, rt);
    if b.l == b.r + 1 {
      CrossedCountsNothing(es, target, b, lt, rt);
      NothingCounted(rt.counter, out);
    }
    if SortedNewestFirst(es) {
      SortedScanOutcome(es, target, b, lt, rt);
      TiesAreMostActive(es, target, rt.counter, out);
    }
  }

  /** Lines 82-130, once the search has left `l` and `r` at `b`: scan left from `l`,
      then count on to the right and output the most frequent cookies. The left scan's
      first read raises IndexError when `l` is the length of the log. */
  method CountAroundAnchor(lines: seq<string>, target: nat, b: Bounds) returns (res: Result<seq<string>>)
    requires Search(Entries(lines), target, 0, |lines| - 1) == Ok(b)
    ensures b.l == |lines| ==> res == Err(IndexError)
    ensures b.l < |lines| ==> RaisesAsScans(Entries(lines), target, b, res)
    ensures b.l == b.r + 1 ==> res == (if b.l == |lines| then Err(IndexError) else Ok([]))
    ensures res.Ok? ==> Distinct(res.value)
    ensures res.Ok? ==> forall x :: x in res.value ==> KeyCount(Entries(lines), x, target) > 0
    ensures SortedNewestFirst(Entries(lines)) ==>
      (res.Err? <==> b.l == |lines|) &&
      (res.Ok? ==> forall x :: x in res.value <==> MostActiveWithKey(Entries(lines), target, x))
  {
    ghost var es := Entries(lines);
    assert Search(es, target, 0, |es| - 1) == Search(Entries(lines), target, 0, |lines| - 1);
    SearchSpec(es, target, 0, |es| - 1);
    if b.l == |lines| {
      // line 87: `csv_data[l]` with `l == len(csv_data)`
      return Err(IndexError);
    }
    if b.l == b.r + 1 {
      CrossedStopsAtOnce(es, target, b);
      LeftScanCannotFail(es, target, b.l);
    }
    var left := ScanLeft(lines, target, b.l);
    if left.Err? {
      res := Err(left.error);
      LeftRaises(es, target, b, res);
      return;
    }
    LeftScanExcludesFailure(es, target, b.l, left.value);
    res := CountRightAndEmit(lines, target, b, left.value);
    RightRaises(es, target, b, res);
  }

  /** Lines 128-130, once both scans got through: output the cookies whose count is
      `max_freq`. */
  method EmitAfterScans(lines: seq<string>, target: nat, b: Bounds, lt: Tally, rt: Tally) returns (out: seq<string>)
    requires Search(Entries(lines), target, 0, |lines| - 1) == Ok(b)
    requires 0 <= b.l && 0 <= b.r + 1
    requires ScannedLeft(Entries(lines), target, b.l, lt)
    requires ScannedRight(Entries(lines), target, b.r + 1, lt.counter, rt)
    ensures b.l == b.r + 1 ==> out == []
    ensures Distinct(out)
    ensures forall x :: x in out ==> KeyCount(Entries(lines), x, target) > 0
    ensures SortedNewestFirst(Entries(lines)) ==> forall x :: x in out <==> MostActiveWithKey(Entries(lines), target, x)
  {
    ghost var es := Entries(lines);
    assert Search(es, target, 0, |es| - 1) == Search(Entries(lines), target, 0, |lines| - 1);
    out := EmitTies(rt.counter, rt.maxFreq);
    EmitOutcome(es, target, b, lt, rt, out);
  }

  /** Lines 106-130, after a left scan that left `lt`: scan right from `r + 1` into its
      dict and output the cookies whose count is `max_freq`. */
  method CountRightAndEmit(lines: seq<string>, target: nat, b: Bounds, lt: Tally) returns (res: Result<seq<string>>)
    requires Search(Entries(lines), target, 0, |lines| - 1) == Ok(b)
    requires 0 <= b.l && 0 <= b.r + 1 <= |lines|
    requires ScannedLeft(Entries(lines), target, b.l, lt)
    ensures RaisesAsRightScan(Entries(lines), target, b.r + 1, res)
    ensures b.l == b.r + 1 ==> res == Ok([])
    ensures res.Ok? ==> Distinct(res.value)
    ensures res.Ok? ==> forall x :: x in res.value ==> KeyCount(Entries(lines), x, target) > 0
    ensures SortedNewestFirst(Entries(lines)) ==>
      res.Ok? && forall x :: x in res.value <==> MostActiveWithKey(Entries(lines), target, x)
  {
    ghost var es := Entries(lines);
    assert Search(es, target, 0, |es| - 1) == Search(Entries(lines), target, 0, |lines| - 1);
    var right := ScanRight(lines, target, b.r + 1, lt.counter, lt.maxFreq);
    if right.Err? {
      res := Err(right.error);
      RightScanRaised(es, target, b, res);
      return;
    }
    var out := EmitAfterScans(lines, target, b, lt, right.value);
    res := Ok(out);
    RightScanQuiet(es, target, b.r + 1, lt.counter, right.value, res);
  }

  /** Lines 52-130, `most_active_cookie_binary_search`: convert the date, search for an
      anchor, scan left from it and right from the line after it, and output the cookies
      whose count is the largest. A date that does not convert raises ValueError; a log
      whose every line is newer than the date (an empty log among them) raises IndexError
      when the left scan reads past its end. */
  method MostActiveCookieBinarySearch(lines: seq<string>, date: string) returns (res: Result<seq<string>>)
    ensures DayKey(date).Err? ==> res == Err(ValueError)
    ensures res.Ok? ==> DayKey(date).Ok? && Distinct(res.value)
    ensures res.Ok? ==> forall x :: x in res.value ==> KeyCount(Entries(lines), x, DayKey(date).value) > 0
    ensures DayKey(date).Ok? && SortedNewestFirst(Entries(lines)) ==>
      (res.Err? <==> forall i :: 0 <= i < |lines| ==> KeyAt(Entries(lines), i) > DayKey(date).value) &&
      (res.Err? ==> res.error == IndexError) &&
      (res.Ok? ==> forall x :: x in res.value <==> MostActiveWithKey(Entries(lines), DayKey(date).value, x))
    ensures DayKey(date).Ok? && Search(Entries(lines), DayKey(date).value, 0, |lines| - 1).Err? ==>
      res == Err(Search(Entries(lines), DayKey(date).value, 0, |lines| - 1).error)
    ensures DayKey(date).Ok? && Search(Entries(lines), DayKey(date).value, 0, |lines| - 1).Ok? ==>
      var b := Search(Entries(lines), DayKey(date).value, 0, |lines| - 1).value;
      (b.l == |lines| ==> res == Err(IndexError)) &&
      (b.l < |lines| ==> RaisesAsScans(Entries(lines), DayKey(date).value, b, res)) &&
      (b.l == b.r + 1 ==> res == (if b.l == |lines| then Err(IndexError) else Ok([])))
    ensures DayKey(date).Ok? && WellFormed(Entries(lines)) ==>
      Search(Entries(lines), DayKey(date).value, 0, |lines| - 1).Ok? &&
      (res.Err? <==> Search(Entries(lines), DayKey(date).value, 0, |lines| - 1).value.l == |lines|)
  {
    var key := DayKey(date);
    if key.Err? {
      return Err(key.error);
    }
    var target := key.value;
    var anchor := FindAnchor(lines, target);
    if SortedNewestFirst(Entries(lines)) {
      AnchorPastEnd(Entries(lines), target);
    }
    if WellFormed(Entries(lines)) {
      WellFormedSearchOk(Entries(lines), target);
    }
    if anchor.Err? {
      return Err(anchor.error);
    }
    if WellFormed(Entries(lines)) {
      WellFormedScansQuiet(Entries(lines), target, anchor.value);
    }
    res := CountAroundAnchor(lines, target, anchor.value);
  }

  /** A log whose every line is newer than the day holds no line of that day. */
  lemma AllNewerCountsNothing(es: seq<Result<Entry>>, key: nat, name: string)
    requires WellFormed(es)
    requires forall i :: 0 <= i < |es| ==> KeyAt(es, i) > key
    ensures KeyCount(es, name, key) == 0
  {
    forall i | 0 <= i < |es| ensures !HasKey(es[i], key) {
      assert KeyAt(es, i) > key;
    }
    KeyCountNone(es, name, key);
  }

  /** The binary search as evidently intended: a date not written `YYYY-MM-DD` raises
      ValueError (where the code as written goes on with a short key and may read past
      the end at line 87), and with the read at line 87 guarded, when the search leaves
      `l` past the last line, no line has the asked day and nothing is output, as the
      full scan does. */
  method MostActiveCookieBinarySearchChecked(lines: seq<string>, date: string) returns (res: Result<seq<string>>)
    ensures DateKey(date).Err? ==> res == Err(ValueError)
    ensures res.Ok? ==> DateKey(date).Ok? && Distinct(res.value)
    ensures res.Ok? ==> forall x :: x in res.value ==> KeyCount(Entries(lines), x, DateKey(date).value) > 0
    ensures DateKey(date).Ok? && SortedNewestFirst(Entries(lines)) ==>
      res.Ok? && forall x :: x in res.value <==> MostActiveWithKey(Entries(lines), DateKey(date).value, x)
    ensures DateKey(date).Ok? && Search(Entries(lines), DateKey(date).value, 0, |lines| - 1).Err? ==>
      res == Err(Search(Entries(lines), DateKey(date).value, 0, |lines| - 1).error)
    ensures DateKey(date).Ok? && Search(Entries(lines), DateKey(date).value, 0, |lines| - 1).Ok? ==>
      var b := Search(Entries(lines), DateKey(date).value, 0, |lines| - 1).value;
      (b.l == |lines| ==> res == Ok([])) &&
      (b.l < |lines| ==> RaisesAsScans(Entries(lines), DateKey(date).value, b, res)) &&
      (b.l == b.r + 1 ==> res == Ok([]))
    ensures DateKey(date).Ok? && WellFormed(Entries(lines)) ==> res.Ok?
  {
    var key := DateKey(date);
    if key.Err? {
      return Err(key.error);
    }
    var target := key.value;
    var anchor := FindAnchor(lines, target);
    if SortedNewestFirst(Entries(lines)) {
      AnchorPastEnd(Entries(lines), target);
    }
    if WellFormed(Entries(lines)) {
      WellFormedSearchOk(Entries(lines), target);
    }
    if anchor.Err? {
      return Err(anchor.error);
    }
    if WellFormed(Entries(lines)) {
      WellFormedScansQuiet(Entries(lines), target, anchor.value);
    }
    if anchor.value.l == |lines| {
      if SortedNewestFirst(Entries(lines)) {
        forall x ensures !MostActiveWithKey(Entries(lines), target, x) {
          AllNewerCountsNothing(Entries(lines), target, x);
        }
      }
      return Ok([]);
    }
    res := CountAroundAnchor(lines, target, anchor.value);
  }
}

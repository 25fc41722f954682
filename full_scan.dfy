/** `most_active_cookie`: one pass over the whole log that counts every (cookie, day)
    pair in a dict, keeps the largest count of a pair of the asked day beside it, and
    then outputs the cookies of that day whose pair count is the largest. Days are
    compared as text, so the log needs no order. */
module FullScan {
  import opened LineFormat
  import opened Counting
  import opened CookieLog

  /** The dict `freq` after the lines `lines` have been counted: one bump of the pair
      `(cookie_name, cookie_date)` per line, in the order of the log. */
  function Tabulate(lines: seq<string>): (c: Counter<Record>)
    ensures c.Valid()
  {
    if lines == [] then Empty()
    else
      match ParseLine(lines[|lines| - 1])
      case Err(_) => Tabulate(lines[..|lines| - 1])
      case Ok(rec) => Tabulate(lines[..|lines| - 1]).Bump(rec)
  }

  /** `max_freq` after the lines `lines` have been counted: raised to the new count of
      the pair just bumped when that pair has the asked day and its count is larger. */
  ghost function DayMax(lines: seq<string>, date: string): (m: nat)
  {
    if lines == [] then 0
    else
      var m := DayMax(lines[..|lines| - 1], date);
      match ParseLine(lines[|lines| - 1])
      case Err(_) => m
      case Ok(rec) =>
        var v := Tabulate(lines).Get(rec);
        if rec.day == date && v > m then v else m
  }

  /** The dict holds, for each pair, the number of lines that read as that pair. */
  lemma {:induction false} TabulateCount(lines: seq<string>, rec: Record)
    ensures Tabulate(lines).Get(rec) == DayCount(lines, rec.name, rec.day)
  {
    if lines != [] {
      var init := lines[..|lines| - 1];
      TabulateCount(init, rec);
      match ParseLine(lines[|lines| - 1])
      case Err(_) =>
      case Ok(r) => BumpSpec(Tabulate(init), r);
    }
  }

  /** The dict lists each pair once. */
  lemma {:induction false} TabulateDistinct(lines: seq<string>)
    ensures Distinct(Tabulate(lines).keys)
  {
    if lines != [] {
      var init := lines[..|lines| - 1];
      TabulateDistinct(init);
      match ParseLine(lines[|lines| - 1])
      case Err(_) =>
      case Ok(r) => BumpSpec(Tabulate(init), r);
    }
  }

  /** No cookie has more lines on the asked day than `max_freq`. */
  lemma {:induction false} DayMaxBound(lines: seq<string>, date: string, name: string)
    ensures DayCount(lines, name, date) <= DayMax(lines, date)
  {
    if lines != [] {
      var init := lines[..|lines| - 1];
      DayMaxBound(init, date, name);
      match ParseLine(lines[|lines| - 1])
      case Err(_) =>
      case Ok(rec) =>
        if rec == Record(name, date) {
          TabulateCount(lines, rec);
        }
    }
  }

  /** `max_freq` is 0 or the number of lines some cookie has on the asked day. */
  lemma {:induction false} DayMaxAttained(lines: seq<string>, date: string)
    ensures DayMax(lines, date) == 0 || exists name :: DayCount(lines, name, date) == DayMax(lines, date)
  {
    if lines != [] {
      var init := lines[..|lines| - 1];
      var m := DayMax(init, date);
      DayMaxAttained(init, date);
      match ParseLine(lines[|lines| - 1])
      case Err(_) =>
        if m != 0 {
          var name :| DayCount(init, name, date) == m;
          assert DayCount(lines, name, date) == DayMax(lines, date);
        }
      case Ok(rec) =>
        var v := Tabulate(lines).Get(rec);
        if rec.day == date && v > m {
          TabulateCount(lines, rec);
          assert DayCount(lines, rec.name, date) == DayMax(lines, date);
        } else if m != 0 {
          var name :| DayCount(init, name, date) == m;
          DayMaxBound(lines, date, name);
          assert DayCount(lines, name, date) >= m;
        }
    }
  }

  /** What a pass over the lines that raised nothing leaves: every line has a comma,
      the dict counts each pair once per line and lists it once, and `max_freq` is the
      largest count on the asked day. */
  ghost predicate Counted(lines: seq<string>, date: string, freq: Counter<Record>, maxFreq: nat) {
    (forall i :: 0 <= i < |lines| ==> ',' in lines[i]) &&
    freq.Valid() && Distinct(freq.keys) &&
    (forall rec :: freq.Get(rec) == DayCount(lines, rec.name, rec.day)) &&
    maxFreq == DayMax(lines, date) &&
    (forall name :: DayCount(lines, name, date) <= maxFreq) &&
    (maxFreq == 0 || exists name :: DayCount(lines, name, date) == maxFreq)
  }

  /** Where the loop ends, its invariant gives what `Counted` states. */
  lemma CountedDone(lines: seq<string>, date: string, freq: Counter<Record>, maxFreq: nat)
    requires forall i :: 0 <= i < |lines| ==> ',' in lines[i]
    requires freq == Tabulate(lines) && maxFreq == DayMax(lines, date)
    ensures Counted(lines, date, freq, maxFreq)
  {
    TabulateDistinct(lines);
    forall rec ensures freq.Get(rec) == DayCount(lines, rec.name, rec.day) {
      TabulateCount(lines, rec);
    }
    forall name ensures DayCount(lines, name, date) <= maxFreq {
      DayMaxBound(lines, date, name);
    }
    DayMaxAttained(lines, date);
  }

  /** One counted line extends both folds by that line. */
  lemma TabulateStep(lines: seq<string>, i: nat, date: string)
    requires i < |lines| && ParseLine(lines[i]).Ok?
    ensures var rec := ParseLine(lines[i]).value;
      Tabulate(lines[..i + 1]) == Tabulate(lines[..i]).Bump(rec) &&
      DayMax(lines[..i + 1], date) ==
        var v := Tabulate(lines[..i + 1]).Get(rec);
        if rec.day == date && v > DayMax(lines[..i], date) then v else DayMax(lines[..i], date)
  {
    assert lines[..i + 1][..i] == lines[..i];
  }

  /** Lines 33-42: read each line, raise IndexError on a line without a comma, bump the
      pair `(cookie_name, cookie_date)` and raise `max_freq` to its new count when the
      day is the asked one and the count is larger. */
  method CountPairs(lines: seq<string>, date: string) returns (res: Result<(Counter<Record>, nat)>)
    ensures res.Err? <==> exists i :: 0 <= i < |lines| && ',' !in lines[i]
    ensures res.Err? ==> res.error == IndexError
    ensures res.Ok? ==> Counted(lines, date, res.value.0, res.value.1)
  {
    var freq := Empty<Record>();
    var maxFreq := 0;
    var i := 0;
    while i < |lines|
      invariant 0 <= i <= |lines|
      invariant forall j :: 0 <= j < i ==> ',' in lines[j]
      invariant freq == Tabulate(lines[..i])
      invariant maxFreq == DayMax(lines[..i], date)
    {
      var parsed := ParseLine(lines[i]);
      if parsed.Err? {
        return Err(parsed.error);
      }
      var rec := parsed.value;
      TabulateStep(lines, i, date);
      freq := freq.Bump(rec);
      if date == rec.day && freq.Get(rec) > maxFreq {
        maxFreq := freq.Get(rec);
      }
      i := i + 1;
    }
    assert lines[..i] == lines;
    CountedDone(lines, date, freq, maxFreq);
    res := Ok((freq, maxFreq));
  }

  /** The names of the pairs in `ks` that have day `date` and count `m`, in the order
      of `ks`. */
  function DayTies(c: Counter<Record>, ks: seq<Record>, date: string, m: nat): (r: seq<string>)
    ensures forall x :: x in r <==> Record(x, date) in ks && c.Get(Record(x, date)) == m
    ensures Distinct(ks) ==> Distinct(r)
  {
    if ks == [] then []
    else
      var r := DayTies(c, ks[..|ks| - 1], date, m);
      var k := ks[|ks| - 1];
      assert ks == ks[..|ks| - 1] + [k];
      if k.day == date && c.Get(k) == m then r + [k.name] else r
  }

  /** Lines 45-47: walk the dict in insertion order and output the cookie of each pair
      whose day is the asked one and whose count is `max_freq`. */
  method EmitDay(freq: Counter<Record>, date: string, maxFreq: nat) returns (out: seq<string>)
    ensures out == DayTies(freq, freq.keys, date, maxFreq)
  {
    out := [];
    var i := 0;
    while i < |freq.keys|
      invariant 0 <= i <= |freq.keys|
      invariant out == DayTies(freq, freq.keys[..i], date, maxFreq)
    {
      var k := freq.keys[i];
      assert freq.keys[..i + 1][..i] == freq.keys[..i];
      if k.day == date && freq.Get(k) == maxFreq {
        out := out + [k.name];
      }
      i := i + 1;
    }
    assert freq.keys[..i] == freq.keys;
  }

  /** Once the pass has counted the log, the names the last loop outputs are exactly
      the most active cookies of the day. */
  lemma DayTiesAreMostActive(lines: seq<string>, date: string, freq: Counter<Record>, maxFreq: nat, out: seq<string>)
    requires Counted(lines, date, freq, maxFreq)
    requires forall x :: x in out <==> Record(x, date) in freq.keys && freq.Get(Record(x, date)) == maxFreq
    ensures forall x :: x in out <==> MostActiveOnDay(lines, date, x)
  {
    forall x ensures x in out <==> MostActiveOnDay(lines, date, x) {
      var rec := Record(x, date);
      assert freq.Get(rec) == DayCount(lines, x, date);
      if MostActiveOnDay(lines, date, x) && maxFreq != 0 {
        var name :| DayCount(lines, name, date) == maxFreq;
        assert DayCount(lines, name, date) <= DayCount(lines, x, date);
      }
    }
  }

  /** Lines 25-49, `most_active_cookie`: count every pair, then output the most active
      cookies of `date`, each once. A line without a comma raises IndexError before
      anything is output; nothing else can fail, since the day is never converted. */
  method MostActiveCookie(lines: seq<string>, date: string) returns (res: Result<seq<string>>)
    ensures res.Err? <==> exists i :: 0 <= i < |lines| && ',' !in lines[i]
    ensures res.Err? ==> res.error == IndexError
    ensures res.Ok? ==> Distinct(res.value)
    ensures res.Ok? ==> forall x :: x in res.value <==> MostActiveOnDay(lines, date, x)
  {
    var counted := CountPairs(lines, date);
    if counted.Err? {
      return Err(counted.error);
    }
    var (freq, maxFreq) := counted.value;
    var out := EmitDay(freq, date, maxFreq);
    DayTiesAreMostActive(lines, date, freq, maxFreq, out);
    res := Ok(out);
  }
}

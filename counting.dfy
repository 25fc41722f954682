/** The Python dict both searches count with: `d[k] = 1 + d.get(k, 0)` on each
    match, a running maximum beside it, and a last pass over `d.items()` that keeps
    the keys whose count equals that maximum. A dict lists its keys in the order
    they were first inserted, so the counter carries that order explicitly. */
module Counting {

  predicate Distinct<K(==,!new)>(s: seq<K>) {
    forall i, j :: 0 <= i < j < |s| ==> s[i] != s[j]
  }

  /** A counting dict: its keys in first-insertion order and the count of each. */
  datatype Counter<K(==,!new)> = Counter(keys: seq<K>, counts: map<K, nat>)
  {
    /** The order lists exactly the keys of the map, and every count is at least 1
        (a key only enters the dict by being counted). That each key is listed once is
        `Distinct(keys)`, kept apart because most proofs do not need it. */
    ghost predicate Valid() {
      (forall k :: k in counts <==> k in keys) &&
      (forall k :: k in counts ==> counts[k] >= 1)
    }

    /** `d.get(k, 0)` */
    function Get(k: K): (n: nat) {
      if k in counts then counts[k] else 0
    }

    /** `d[k] = 1 + d.get(k, 0)` */
    function Bump(k: K): (c: Counter<K>)
      requires Valid()
      ensures c.Valid()
    {
      var order := if k in counts then keys else keys + [k];
      assert forall j :: j in order <==> j in keys || j == k;
      Counter(order, counts[k := Get(k) + 1])
    }

    /** The largest count among the keys in `ks` (0 when `ks` is empty). */
    function MaxOf(ks: seq<K>): (m: nat)
    {
      if ks == [] then 0
      else
        var m := MaxOf(ks[..|ks| - 1]);
        var v := Get(ks[|ks| - 1]);
        if v > m then v else m
    }

    /** The largest value in the dict, 0 for an empty dict. */
    function MaxCount(): (m: nat)
    {
      MaxOf(keys)
    }

    /** The keys of `ks` whose count is `m`, in the order of `ks`. */
    function Select(ks: seq<K>, m: nat): (r: seq<K>)
      ensures forall k :: k in r <==> k in ks && Get(k) == m
      ensures Distinct(ks) ==> Distinct(r)
    {
      if ks == [] then []
      else
        var r := Select(ks[..|ks| - 1], m);
        var k := ks[|ks| - 1];
        assert ks == ks[..|ks| - 1] + [k];
        if Get(k) == m then r + [k] else r
    }
  }

  /** The count of `k` goes up by one, a key seen for the first time starts at 1 and
      goes to the end of the order, and nothing else changes. */
  lemma BumpSpec<K(!new)>(c: Counter<K>, k: K)
    requires c.Valid()
    ensures var c' := c.Bump(k);
      c'.Get(k) == c.Get(k) + 1 &&
      (forall j :: j != k ==> c'.Get(j) == c.Get(j)) &&
      c.keys <= c'.keys && |c'.keys| == |c.keys| + (if c.Get(k) == 0 then 1 else 0) &&
      (Distinct(c.keys) ==> Distinct(c'.keys))
  {
  }

  /** `MaxOf(ks)` bounds the count of every key in `ks` and is the count of one of them
      unless it is 0. */
  lemma {:induction false} MaxOfSpec<K(!new)>(c: Counter<K>, ks: seq<K>)
    ensures forall i :: 0 <= i < |ks| ==> c.Get(ks[i]) <= c.MaxOf(ks)
    ensures c.MaxOf(ks) == 0 || exists i :: 0 <= i < |ks| && c.Get(ks[i]) == c.MaxOf(ks)
  {
    if ks != [] {
      MaxOfSpec(c, ks[..|ks| - 1]);
    }
  }

  /** The running maximum is the largest value in the dict: no count exceeds it, some
      key holds it unless it is 0, and an empty dict has maximum 0. */
  lemma MaxCountSpec<K(!new)>(c: Counter<K>)
    requires c.Valid()
    ensures forall k :: c.Get(k) <= c.MaxCount()
    ensures c.MaxCount() == 0 || exists k :: k in c.counts && c.counts[k] == c.MaxCount()
    ensures c.counts == map[] ==> c.MaxCount() == 0
  {
    MaxOfSpec(c, c.keys);
    assert forall k :: k in c.counts ==> exists i :: 0 <= i < |c.keys| && c.keys[i] == k;
  }

  /** A fresh `{}`. */
  function Empty<K(==,!new)>(): (c: Counter<K>)
    ensures c.Valid() && c.keys == [] && Distinct(c.keys) && c.MaxCount() == 0
    ensures forall k :: c.Get(k) == 0
  {
    Counter([], map[])
  }

  /** The update `if d[k] > max_freq: max_freq = d[k]` after a bump keeps the
      running maximum equal to the largest value in the dict. */
  lemma MaxCountAfterBump<K(!new)>(c: Counter<K>, k: K)
    requires c.Valid()
    ensures var c' := c.Bump(k);
      c'.MaxCount() == if c'.Get(k) > c.MaxCount() then c'.Get(k) else c.MaxCount()
  {
    MaxCountGrows(c, k);
    MaxCountNoMore(c, k);
  }

  /** One counted line, lines 96-99 and 118-121: `d[k] = 1 + d.get(k, 0)`, then raise
      `max_freq` to the new count when it is larger. If `max_freq` was the dict's largest
      value before, it is so after. */
  method CountOne<K(!new)>(c: Counter<K>, maxFreq: nat, k: K) returns (c': Counter<K>, maxFreq': nat)
    requires c.Valid() && maxFreq == c.MaxCount()
    ensures c' == c.Bump(k) && c'.Valid()
    ensures maxFreq' == c'.MaxCount()
  {
    MaxCountAfterBump(c, k);
    c' := c.Bump(k);
    maxFreq' := maxFreq;
    if c'.Get(k) > maxFreq {
      maxFreq' := c'.Get(k);
    }
  }

  /** After a bump the maximum is at least the old maximum and the new count. */
  lemma MaxCountGrows<K(!new)>(c: Counter<K>, k: K)
    requires c.Valid()
    ensures c.Bump(k).MaxCount() >= c.MaxCount()
    ensures c.Bump(k).MaxCount() >= c.Bump(k).Get(k)
  {
    var c' := c.Bump(k);
    MaxCountSpec(c');
    if c.MaxCount() > 0 {
      MaxCountSpec(c);
      var j :| j in c.counts && c.counts[j] == c.MaxCount();
      BumpSpec(c, k);
      assert c'.Get(j) >= c.Get(j);
    }
  }

  /** After a bump the maximum is the new count or the old maximum. */
  lemma MaxCountNoMore<K(!new)>(c: Counter<K>, k: K)
    requires c.Valid()
    ensures c.Bump(k).MaxCount() <= c.MaxCount() || c.Bump(k).MaxCount() == c.Bump(k).Get(k)
  {
    var c' := c.Bump(k);
    MaxCountSpec(c');
    if c'.MaxCount() > 0 {
      var j :| j in c'.counts && c'.counts[j] == c'.MaxCount();
      BumpSpec(c, k);
      MaxCountSpec(c);
      assert j != k ==> c.Get(j) == c'.Get(j);
    }
  }

  /** A key holds the largest count exactly when it has been counted and no key has
      been counted more often: the keys the last pass keeps are the most frequent ones. */
  lemma AtMaxCount<K(!new)>(c: Counter<K>, k: K)
    requires c.Valid()
    ensures (k in c.counts && c.counts[k] == c.MaxCount()) <==> (c.Get(k) > 0 && forall j :: c.Get(j) <= c.Get(k))
  {
    MaxCountSpec(c);
    var m := c.MaxCount();
    if c.Get(k) > 0 && forall j :: c.Get(j) <= c.Get(k) {
      var j :| j in c.counts && c.counts[j] == m;
      assert c.Get(j) == m;
    }
  }

  /** The counter's own test: bump P, bump P again, then bump L; the counts read
      {P: 1} with maximum 1, then {P: 2} with maximum 2, then {P: 2, L: 1} with maximum 2. */
  lemma BumpSequenceExample(p: string, l: string)
    requires p != l
    ensures var c1 := Empty<string>().Bump(p);
      c1.Get(p) == 1 && c1.MaxCount() == 1 && c1.keys == [p]
    ensures var c2 := Empty<string>().Bump(p).Bump(p);
      c2.Get(p) == 2 && c2.MaxCount() == 2 && c2.keys == [p]
    ensures var c3 := Empty<string>().Bump(p).Bump(p).Bump(l);
      c3.Get(p) == 2 && c3.Get(l) == 1 && c3.MaxCount() == 2 && c3.keys == [p, l]
  {
    var c1 := Empty<string>().Bump(p);
    assert c1 == Counter([p], map[p := 1]);
    MaxCountSpec(c1);
    var c2 := c1.Bump(p);
    assert c2 == Counter([p], map[p := 2]);
    MaxCountSpec(c2);
    var c3 := c2.Bump(l);
    assert c3 == Counter([p, l], map[p := 2, l := 1]);
    MaxCountSpec(c3);
  }
}

/** `sorted(records, key=time, reverse=True)[:n]`: a stable newest-first
    sort followed by Python's prefix slice. */
module NewestFirst {
  import opened Records
  import opened Seqs

  /** Non-increasing in `time`. */
  ghost predicate Sorted(s: seq<Record>) {
    forall i, j :: 0 <= i < j < |s| ==> s[i].time >= s[j].time
  }

  /** Selects the records stamped with time `t`. */
  function TimeIs(t: int): Record -> bool {
    (r: Record) => r.time == t
  }

  /** Prepending a record at least as new as every element keeps order. */
  lemma SortedCons(h: Record, s: seq<Record>)
    requires Sorted(s)
    requires forall y :: y in s ==> h.time >= y.time
    ensures Sorted([h] + s)
  {
    forall i, j | 0 <= i < j < |[h] + s|
      ensures ([h] + s)[i].time >= ([h] + s)[j].time
    {
      if i == 0 {
        assert ([h] + s)[j] == s[j - 1];
      }
    }
  }

  /** Inserts `x` before the first record that is not newer than it, so it
      precedes every record of equal time. */
  function Insert(x: Record, s: seq<Record>): (r: seq<Record>)
    requires Sorted(s)
    ensures Sorted(r)
    ensures multiset(r) == multiset(s) + multiset{x}
    ensures forall y :: y in r ==> y == x || y in s
    decreases |s|
  {
    if s == [] || x.time >= s[0].time then
      SortedCons(x, s);
      [x] + s
    else
      var rest := Insert(x, s[1..]);
      assert s == [s[0]] + s[1..];
      SortedCons(s[0], rest);
      [s[0]] + rest
  }

  /** Python's stable sort by `time` with `reverse=True`. */
  function SortNewestFirst(s: seq<Record>): (r: seq<Record>)
    ensures Sorted(r)
    ensures multiset(r) == multiset(s)
    decreases |s|
  {
    if s == [] then []
    else
      assert s == [s[0]] + s[1..];
      Insert(s[0], SortNewestFirst(s[1..]))
  }

  /** Records of one time keep their relative order through an insertion. */
  lemma {:induction false} InsertStable(x: Record, s: seq<Record>, t: int)
    requires Sorted(s)
    ensures Filter(Insert(x, s), TimeIs(t))
         == (if x.time == t then [x] else []) + Filter(s, TimeIs(t))
    decreases |s|
  {
    var p := TimeIs(t);
    if s == [] || x.time >= s[0].time {
      assert Insert(x, s) == [x] + s;
      assert ([x] + s)[1..] == s;
      assert Filter([x] + s, p) == (if p(x) then [x] else []) + Filter(s, p);
    } else {
      var rest := Insert(x, s[1..]);
      assert Insert(x, s) == [s[0]] + rest;
      InsertStable(x, s[1..], t);
      assert ([s[0]] + rest)[1..] == rest;
      assert !p(s[0]) || !p(x);
      assert Filter([s[0]] + rest, p) == (if p(s[0]) then [s[0]] else []) + Filter(rest, p);
      assert Filter(s, p) == (if p(s[0]) then [s[0]] else []) + Filter(s[1..], p);
      if p(x) {
        assert Filter(Insert(x, s), p) == [x] + Filter(s[1..], p);
        assert Filter(s, p) == Filter(s[1..], p);
      } else {
        assert Filter(rest, p) == Filter(s[1..], p);
      }
    }
  }

  /** The sort is stable: for every time, the records of that time appear
      in the output in their input order. */
  lemma {:induction false} SortStable(s: seq<Record>, t: int)
    ensures Filter(SortNewestFirst(s), TimeIs(t)) == Filter(s, TimeIs(t))
    decreases |s|
  {
    if s != [] {
      SortStable(s[1..], t);
      InsertStable(s[0], SortNewestFirst(s[1..]), t);
      assert s == [s[0]] + s[1..];
    }
  }

  /** Python's `s[:n]`, including a negative `n`, which drops `-n`
      elements from the end. */
  function Take<T>(s: seq<T>, n: int): (r: seq<T>)
    ensures r <= s
    ensures 0 <= n ==> |r| == if n < |s| then n else |s|
    ensures n < 0 ==> |r| == if |s| + n > 0 then |s| + n else 0
  {
    if 0 <= n then (if n < |s| then s[..n] else s)
    else if |s| + n > 0 then s[..|s| + n]
    else []
  }

  /** A prefix of a sorted sequence is sorted. */
  lemma SortedPrefix(s: seq<Record>, p: seq<Record>)
    requires Sorted(s) && p <= s
    ensures Sorted(p)
  {
  }

  /** In a sorted sequence, the head is at least as new as every element. */
  lemma SortedHeadNewest(s: seq<Record>, y: Record)
    requires Sorted(s) && y in s
    ensures s[0].time >= y.time
  {
    var j :| 0 <= j < |s| && s[j] == y;
  }

  /** Splitting a sorted sequence, everything before the cut is at least as
      new as everything after it. */
  lemma SortedSplit(s: seq<Record>, k: nat, x: Record, y: Record)
    requires Sorted(s) && k <= |s|
    requires x in s[..k]
    requires y in multiset(s) - multiset(s[..k])
    ensures x.time >= y.time
  {
    assert s == s[..k] + s[k..];
    assert multiset(s) == multiset(s[..k]) + multiset(s[k..]);
    assert y in multiset(s[k..]);
    var j :| 0 <= j < |s[k..]| && s[k..][j] == y;
    var i :| 0 <= i < k && s[..k][i] == x;
    assert s[i] == x && s[k + j] == y;
  }
}

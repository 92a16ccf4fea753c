/** The relational store of one user: the `user_dialogues` and `summary` tables as sequences of
    rows in insertion (row id) order, and the SQL queries the memory clients run against them.

    `ORDER BY key DESC LIMIT n` is modelled by `OrderByDescLimit`: repeatedly take the row with the
    greatest key; among rows with equal keys the later row (the higher id) comes first. */
module Store {
  import opened Optional
  import opened Seqs

  datatype DialogueRecord = DialogueRecord(id: int, time: int, role: string, text: string)

  datatype SummaryRecord = SummaryRecord(id: int, startTime: int, endTime: int, summaryText: string)

  /** The number of rows SQLite's `LIMIT count` lets through out of `rows`: a negative limit
      means no limit. */
  function SqlLimit(count: int, rows: nat): (n: nat)
    ensures n <= rows
  {
    if count < 0 || count > rows then rows else count
  }

  /** The last position holding the greatest key. */
  function ArgMaxLast<T>(s: seq<T>, key: T -> int): (i: nat)
    requires |s| > 0
    ensures i < |s|
    ensures forall j :: 0 <= j < |s| ==> key(s[j]) <= key(s[i])
    ensures forall j :: i < j < |s| ==> key(s[j]) < key(s[i])
  {
    if |s| == 1 then 0
    else
      var k := ArgMaxLast(s[..|s| - 1], key);
      if key(s[|s| - 1]) >= key(s[k]) then |s| - 1 else k
  }

  function RemoveAt<T>(s: seq<T>, i: nat): (r: seq<T>)
    requires i < |s|
    ensures |r| == |s| - 1
    ensures forall x :: x in r ==> x in s
    ensures forall x :: x in s && x != s[i] ==> x in r
  {
    assert s == s[..i] + [s[i]] + s[i + 1..];
    s[..i] + s[i + 1..]
  }

  lemma RemoveAtMultiset<T>(s: seq<T>, i: nat)
    requires i < |s|
    ensures multiset{s[i]} + multiset(RemoveAt(s, i)) == multiset(s)
  {
    assert s == s[..i] + [s[i]] + s[i + 1..];
  }

  /** Every element of `a` occurs in `b` at least as often as in `a`. */
  ghost predicate SubBag<T>(a: seq<T>, b: seq<T>)
  {
    multiset(a) <= multiset(b)
  }

  /** Taking the element at `i` first and then a sub-bag of the rest gives a sub-bag. */
  lemma SubBagCons<T>(s: seq<T>, i: nat, rest: seq<T>)
    requires i < |s| && SubBag(rest, RemoveAt(s, i))
    ensures SubBag([s[i]] + rest, s)
  {
    RemoveAtMultiset(s, i);
    assert multiset([s[i]] + rest) == multiset{s[i]} + multiset(rest);
  }

  ghost predicate SortedDesc<T>(s: seq<T>, key: T -> int)
  {
    forall i, j :: 0 <= i < j < |s| ==> key(s[i]) >= key(s[j])
  }

  ghost predicate NonDecreasing<T>(s: seq<T>, key: T -> int)
  {
    forall i, j :: 0 <= i < j < |s| ==> key(s[i]) <= key(s[j])
  }

  /** `ORDER BY key DESC LIMIT n` over the rows `s`. */
  function OrderByDescLimit<T>(s: seq<T>, key: T -> int, n: nat): (r: seq<T>)
    ensures |r| == Min(n, |s|)
    ensures forall x :: x in r ==> x in s
    ensures SortedDesc(r, key)
    decreases n
  {
    if n == 0 || |s| == 0 then []
    else
      var i := ArgMaxLast(s, key);
      var rest := OrderByDescLimit(RemoveAt(s, i), key, n - 1);
      assert forall j :: 0 <= j < |rest| ==> key(rest[j]) <= key(s[i]) by {
        forall j | 0 <= j < |rest| ensures key(rest[j]) <= key(s[i]) {
          assert rest[j] in s;
          var k :| 0 <= k < |s| && s[k] == rest[j];
        }
      }
      [s[i]] + rest
  }

  /** The query returns each row of the table at most as often as the table holds it. */
  lemma {:induction false} OrderByDescLimitSubMultiset<T>(s: seq<T>, key: T -> int, n: nat)
    ensures SubBag(OrderByDescLimit(s, key, n), s)
    decreases n
  {
    if n > 0 && |s| > 0 {
      var i := ArgMaxLast(s, key);
      var s' := RemoveAt(s, i);
      var rest := OrderByDescLimit(s', key, n - 1);
      OrderByDescLimitSubMultiset(s', key, n - 1);
      var r := OrderByDescLimit(s, key, n);
      assert r == [s[i]] + rest;
      SubBagCons(s, i, rest);
    } else {
      assert OrderByDescLimit(s, key, n) == [];
    }
  }

  /** Every row the query leaves out ranks no higher than each row it returns. */
  lemma {:induction false} OrderByDescLimitKeepsTop<T>(s: seq<T>, key: T -> int, n: nat, x: T)
    requires x in s && x !in OrderByDescLimit(s, key, n)
    ensures forall y :: y in OrderByDescLimit(s, key, n) ==> key(x) <= key(y)
    decreases n
  {
    if n > 0 && |s| > 0 {
      var i := ArgMaxLast(s, key);
      var s' := RemoveAt(s, i);
      var rest := OrderByDescLimit(s', key, n - 1);
      var r := OrderByDescLimit(s, key, n);
      assert r == [s[i]] + rest;
      assert key(x) <= key(s[i]) by {
        var k :| 0 <= k < |s| && s[k] == x;
      }
      assert x != s[i] && x in s' && x !in rest;
      OrderByDescLimitKeepsTop(s', key, n - 1, x);
      forall y | y in r ensures key(x) <= key(y) {
        if y != s[i] {
          assert y in rest;
        }
      }
    }
  }

  /** The sequence read from its last element to its first. */
  function Reverse<T>(s: seq<T>): (r: seq<T>)
    ensures |r| == |s|
  {
    if s == [] then [] else [s[|s| - 1]] + Reverse(s[..|s| - 1])
  }

  /** On keys that never decrease, the query takes the last row first. */
  lemma OrderByDescLimitStep<T>(s: seq<T>, key: T -> int, n: nat)
    requires |s| > 0 && n > 0 && NonDecreasing(s, key)
    ensures OrderByDescLimit(s, key, n) == [s[|s| - 1]] + OrderByDescLimit(s[..|s| - 1], key, n - 1)
  {
    var i := ArgMaxLast(s, key);
    assert i == |s| - 1;
    assert RemoveAt(s, i) == s[..|s| - 1];
  }

  /** A suffix `s[k..]` reversed is the very last item followed by the rest of the suffix,
      taken from `s'`, the sequence without its last item, reversed. */
  lemma ReverseSuffixCons<T>(s: seq<T>, s': seq<T>, k: nat, rest: seq<T>)
    requires k < |s| && s' == s[..|s| - 1]
    requires rest == Reverse(s'[k..])
    ensures [s[|s| - 1]] + rest == Reverse(s[k..])
  {
    var t := s[k..];
    assert t[|t| - 1] == s[|s| - 1];
    assert t[..|t| - 1] == s'[k..];
  }

  /** On rows whose keys never decrease (in insertion order), `ORDER BY key DESC LIMIT n`
      returns the last `n` rows, newest first. */
  lemma {:induction false} OrderByDescOfNonDecreasing<T>(s: seq<T>, key: T -> int, n: nat)
    requires NonDecreasing(s, key)
    ensures OrderByDescLimit(s, key, n) == Reverse(s[|s| - Min(n, |s|)..])
    decreases n
  {
    if n > 0 && |s| > 0 {
      NonDecreasingPrefix(s, key, |s| - 1);
      OrderByDescOfNonDecreasing(s[..|s| - 1], key, n - 1);
      OrderByDescOfNonDecreasingStep(s, key, n);
    }
  }

  /** The inductive step of `OrderByDescOfNonDecreasing`: from the rows without the last one to
      all rows. */
  lemma OrderByDescOfNonDecreasingStep<T>(s: seq<T>, key: T -> int, n: nat)
    requires NonDecreasing(s, key) && n > 0 && |s| > 0
    requires OrderByDescLimit(s[..|s| - 1], key, n - 1) == Reverse(s[..|s| - 1][|s[..|s| - 1]| - Min(n - 1, |s[..|s| - 1]|)..])
    ensures OrderByDescLimit(s, key, n) == Reverse(s[|s| - Min(n, |s|)..])
  {
    var s' := s[..|s| - 1];
    var k := |s| - Min(n, |s|);
    assert OrderByDescLimit(s, key, n) == [s[|s| - 1]] + OrderByDescLimit(s', key, n - 1) by {
      OrderByDescLimitStep(s, key, n);
    }
    assert OrderByDescLimit(s', key, n - 1) == Reverse(s'[k..]) by {
      assert |s'| - Min(n - 1, |s'|) == k;
    }
    ReverseSuffixCons(s, s', k, OrderByDescLimit(s', key, n - 1));
  }

  function Time(d: DialogueRecord): int
  {
    d.time
  }

  function EndTime(s: SummaryRecord): int
  {
    s.endTime
  }

  /** On a time-ordered log, a later row is no older than an earlier one. */
  lemma TimeOrdered(ds: seq<DialogueRecord>, i: int, j: int)
    requires NonDecreasing(ds, Time)
    requires 0 <= i <= j < |ds|
    ensures ds[i].time <= ds[j].time
  {
    if i < j {
      assert Time(ds[i]) <= Time(ds[j]);
    }
  }

  /** The text column of the given rows, in the same order. */
  function Texts(ds: seq<DialogueRecord>): (ts: seq<string>)
    ensures |ts| == |ds|
    ensures forall i :: 0 <= i < |ds| ==> ts[i] == ds[i].text
  {
    if ds == [] then [] else Texts(ds[..|ds| - 1]) + [ds[|ds| - 1].text]
  }

  lemma TextsReverse(ds: seq<DialogueRecord>)
    ensures Texts(Reverse(ds)) == Reverse(Texts(ds))
  {
  }

  lemma TextsAppend(ds: seq<DialogueRecord>, es: seq<DialogueRecord>)
    ensures Texts(ds + es) == Texts(ds) + Texts(es)
  {
  }

  /** `SELECT id, time, role, text FROM user_dialogues ORDER BY time DESC LIMIT count`. */
  function LatestDialogues(ds: seq<DialogueRecord>, count: int): seq<DialogueRecord>
  {
    OrderByDescLimit(ds, Time, SqlLimit(count, |ds|))
  }

  /** What the latest-dialogues query returns: `count` rows (all rows when `count` is negative
      or exceeds the table), newest first, each row of the table at most once, and no row left
      out is newer than a row returned. */
  lemma LatestDialoguesSpec(ds: seq<DialogueRecord>, count: int)
    ensures count >= 0 ==> |LatestDialogues(ds, count)| == Min(count, |ds|)
    ensures count < 0 ==> |LatestDialogues(ds, count)| == |ds|
    ensures SubBag(LatestDialogues(ds, count), ds)
    ensures forall x :: x in LatestDialogues(ds, count) ==> x in ds
    ensures forall i, j :: 0 <= i < j < |LatestDialogues(ds, count)| ==>
      LatestDialogues(ds, count)[i].time >= LatestDialogues(ds, count)[j].time
    ensures forall x, j :: x in ds && x !in LatestDialogues(ds, count) && 0 <= j < |LatestDialogues(ds, count)| ==>
      x.time <= LatestDialogues(ds, count)[j].time
  {
    var r := LatestDialogues(ds, count);
    OrderByDescLimitSubMultiset(ds, Time, SqlLimit(count, |ds|));
    forall i, j | 0 <= i < j < |r| ensures r[i].time >= r[j].time {
      assert Time(r[i]) >= Time(r[j]);
    }
    forall x, j | x in ds && x !in r && 0 <= j < |r| ensures x.time <= r[j].time {
      OrderByDescLimitKeepsTop(ds, Time, SqlLimit(count, |ds|), x);
      assert r[j] in r;
      assert Time(x) <= Time(r[j]);
    }
  }

  /** When times never decrease along the table, the latest `count` dialogues are the last
      `count` rows, newest first. */
  lemma LatestOfNonDecreasing(ds: seq<DialogueRecord>, count: nat)
    requires NonDecreasing(ds, Time)
    ensures LatestDialogues(ds, count) == Reverse(ds[|ds| - Min(count, |ds|)..])
  {
    OrderByDescOfNonDecreasing(ds, Time, SqlLimit(count, |ds|));
  }

  /** The summaries whose `end_time` is at most `bound`, in table order. */
  function EndingBy(ss: seq<SummaryRecord>, bound: int): (r: seq<SummaryRecord>)
    ensures forall x :: x in r <==> x in ss && x.endTime <= bound
  {
    if ss == [] then []
    else
      var r := EndingBy(ss[..|ss| - 1], bound);
      assert ss == ss[..|ss| - 1] + [ss[|ss| - 1]];
      if ss[|ss| - 1].endTime <= bound then r + [ss[|ss| - 1]] else r
  }

  /** Filtering keeps each row at most once. */
  lemma {:induction false} EndingBySubBag(ss: seq<SummaryRecord>, bound: int)
    ensures SubBag(EndingBy(ss, bound), ss)
  {
    if ss != [] {
      var init := ss[..|ss| - 1];
      var last := ss[|ss| - 1];
      EndingBySubBag(init, bound);
      assert ss == init + [last];
      assert multiset(ss) == multiset(init) + multiset{last};
      var r := EndingBy(init, bound);
      if last.endTime <= bound {
        assert multiset(r + [last]) == multiset(r) + multiset{last};
      }
    }
  }

  /** The rows the `WHERE end_time <= max_end_time` clause lets through (all rows without a
      bound). */
  function Qualifying(ss: seq<SummaryRecord>, maxEndTime: Option<int>): (r: seq<SummaryRecord>)
    ensures forall x :: x in r <==> x in ss && (maxEndTime.Some? ==> x.endTime <= maxEndTime.value)
  {
    if maxEndTime.Some? then EndingBy(ss, maxEndTime.value) else ss
  }

  /** `SELECT ... FROM summary [WHERE end_time <= max_end_time] ORDER BY end_time DESC LIMIT count`. */
  function RetrieveSummaries(ss: seq<SummaryRecord>, maxEndTime: Option<int>, count: int): seq<SummaryRecord>
  {
    var rows := Qualifying(ss, maxEndTime);
    OrderByDescLimit(rows, EndTime, SqlLimit(count, |rows|))
  }

  /** What the summary query returns: `count` of the qualifying summaries (all of them when
      `count` is negative or exceeds their number), latest `end_time` first, each at most once,
      each ending at or before the bound when one is given, and no qualifying summary left out
      ends later than one returned. */
  lemma RetrieveSummariesSpec(ss: seq<SummaryRecord>, maxEndTime: Option<int>, count: int)
    ensures count >= 0 ==> |RetrieveSummaries(ss, maxEndTime, count)| == Min(count, |Qualifying(ss, maxEndTime)|)
    ensures count < 0 ==> |RetrieveSummaries(ss, maxEndTime, count)| == |Qualifying(ss, maxEndTime)|
    ensures SubBag(RetrieveSummaries(ss, maxEndTime, count), ss)
    ensures forall x :: x in RetrieveSummaries(ss, maxEndTime, count) ==> x in ss
    ensures forall i, j :: 0 <= i < j < |RetrieveSummaries(ss, maxEndTime, count)| ==>
      RetrieveSummaries(ss, maxEndTime, count)[i].endTime >= RetrieveSummaries(ss, maxEndTime, count)[j].endTime
    ensures maxEndTime.Some? ==> forall x :: x in RetrieveSummaries(ss, maxEndTime, count) ==> x.endTime <= maxEndTime.value
    ensures forall x, j ::
      x in Qualifying(ss, maxEndTime) && x !in RetrieveSummaries(ss, maxEndTime, count) &&
      0 <= j < |RetrieveSummaries(ss, maxEndTime, count)|
      ==> x.endTime <= RetrieveSummaries(ss, maxEndTime, count)[j].endTime
  {
    var rows := Qualifying(ss, maxEndTime);
    var n := SqlLimit(count, |rows|);
    var r := RetrieveSummaries(ss, maxEndTime, count);
    assert r == OrderByDescLimit(rows, EndTime, n);
    assert SubBag(r, ss) by {
      OrderByDescLimitSubMultiset(rows, EndTime, n);
      if maxEndTime.Some? {
        EndingBySubBag(ss, maxEndTime.value);
      }
    }
    forall i, j | 0 <= i < j < |r| ensures r[i].endTime >= r[j].endTime {
      assert EndTime(r[i]) >= EndTime(r[j]);
    }
    forall x, j | x in rows && x !in r && 0 <= j < |r| ensures x.endTime <= r[j].endTime {
      OrderByDescLimitKeepsTop(rows, EndTime, n, x);
      assert r[j] in r;
      assert EndTime(x) <= EndTime(r[j]);
    }
  }

  /** The summarization watermark: the `end_time` of the summary the query
      `ORDER BY end_time DESC LIMIT 1` returns, or 0 when there is none. */
  function Watermark(ss: seq<SummaryRecord>): int
  {
    var latest := RetrieveSummaries(ss, None, 1);
    if latest == [] then 0 else latest[0].endTime
  }

  /** The watermark is the greatest `end_time` of all summaries, or 0 without summaries. */
  lemma WatermarkIsMaxEnd(ss: seq<SummaryRecord>)
    ensures ss == [] ==> Watermark(ss) == 0
    ensures ss != [] ==> exists i :: 0 <= i < |ss| && Watermark(ss) == ss[i].endTime
    ensures forall i :: 0 <= i < |ss| ==> ss[i].endTime <= Watermark(ss)
  {
    if ss != [] {
      var i := ArgMaxLast(ss, EndTime);
      assert RetrieveSummaries(ss, None, 1) == [ss[i]];
      forall j | 0 <= j < |ss| ensures ss[j].endTime <= Watermark(ss) {
        assert EndTime(ss[j]) <= EndTime(ss[i]);
      }
    }
  }

  /** `SELECT ... FROM user_dialogues WHERE time > watermark ORDER BY time ASC`, for a table
      whose times never decrease along the rows: the rows newer than the watermark, in table order. */
  function NewDialogues(ds: seq<DialogueRecord>, watermark: int): (r: seq<DialogueRecord>)
    ensures forall x :: x in r <==> x in ds && x.time > watermark
    ensures |r| <= |ds|
  {
    if ds == [] then []
    else
      var r := NewDialogues(ds[..|ds| - 1], watermark);
      assert ds == ds[..|ds| - 1] + [ds[|ds| - 1]];
      if ds[|ds| - 1].time > watermark then r + [ds[|ds| - 1]] else r
  }

  /** Where the rows newer than the watermark start, counting back from the last row while
      the rows are newer. */
  function PendingStart(ds: seq<DialogueRecord>, watermark: int): (k: nat)
    ensures k <= |ds|
  {
    if ds == [] || ds[|ds| - 1].time <= watermark then |ds|
    else PendingStart(ds[..|ds| - 1], watermark)
  }

  /** On a table whose times never decrease, the rows newer than the watermark form a suffix of
      the table (ascending in time) that reaches its last row. */
  lemma {:induction false} NewDialoguesSuffix(ds: seq<DialogueRecord>, watermark: int)
    requires NonDecreasing(ds, Time)
    ensures NewDialogues(ds, watermark) == ds[PendingStart(ds, watermark)..]
  {
    if ds != [] {
      var init, last := ds[..|ds| - 1], ds[|ds| - 1];
      NewDialoguesStep(ds, watermark);
      if last.time > watermark {
        NonDecreasingPrefix(ds, Time, |ds| - 1);
        NewDialoguesSuffix(init, watermark);
        SnocSlice(ds, PendingStart(init, watermark));
      } else {
        NoneNewerThanLast(ds, watermark);
        NoNewDialogues(ds, watermark);
      }
    }
  }

  /** One step of `NewDialogues`: the last row is kept exactly when it is newer than the watermark. */
  lemma NewDialoguesStep(ds: seq<DialogueRecord>, watermark: int)
    requires ds != []
    ensures NewDialogues(ds, watermark) ==
      NewDialogues(ds[..|ds| - 1], watermark) + (if ds[|ds| - 1].time > watermark then [ds[|ds| - 1]] else [])
  {
  }

  lemma SnocSlice<T>(s: seq<T>, k: nat)
    requires k < |s|
    ensures s[..|s| - 1][k..] + [s[|s| - 1]] == s[k..]
  {
  }

  lemma NonDecreasingPrefix<T>(s: seq<T>, key: T -> int, n: nat)
    requires NonDecreasing(s, key) && n <= |s|
    ensures NonDecreasing(s[..n], key)
  {
    forall i, j | 0 <= i < j < n ensures key(s[..n][i]) <= key(s[..n][j]) {
      assert s[..n][i] == s[i] && s[..n][j] == s[j];
    }
  }

  /** When times never decrease and the last row is no newer than `w`, no row is. */
  lemma NoneNewerThanLast(ds: seq<DialogueRecord>, w: int)
    requires NonDecreasing(ds, Time) && ds != [] && ds[|ds| - 1].time <= w
    ensures forall i :: 0 <= i < |ds| ==> ds[i].time <= w
  {
    forall i | 0 <= i < |ds| ensures ds[i].time <= w {
      assert Time(ds[i]) <= Time(ds[|ds| - 1]);
    }
  }

  /** No row is newer than the watermark: nothing is new. */
  lemma {:induction false} NoNewDialogues(ds: seq<DialogueRecord>, watermark: int)
    requires forall i :: 0 <= i < |ds| ==> ds[i].time <= watermark
    ensures NewDialogues(ds, watermark) == []
  {
    if ds != [] {
      NoNewDialogues(ds[..|ds| - 1], watermark);
    }
  }
}

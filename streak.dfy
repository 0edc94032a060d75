/**
 * The streak analyzer: the longest run of consecutive calendar days in a list of
 * dates, computed in one pass with a running and a best counter.
 *
 * Dates are whole days numbered consecutively, so "same calendar day" is equality
 * and "the next calendar day" is the successor.
 */
module Streak {

  type Day = int

  /** The two counters the loop carries: the current run and the best run so far. */
  datatype Counters = Counters(current: int, best: int)

  /** True when `next` continues a run that reached `day`: the same day or the day after. */
  predicate Linked(day: Day, next: Day) {
    next == day || next == day + 1
  }

  /** How one adjacent pair changes the counters: a same-day pair changes nothing,
      a next-day pair extends the run, anything else resets the run to zero. */
  function Step(c: Counters, day: Day, next: Day): Counters {
    if next == day then c
    else if next == day + 1 then
      Counters(c.current + 1, if c.current + 1 > c.best then c.current + 1 else c.best)
    else Counters(0, c.best)
  }

  /** Number of adjacent pairs in `s` whose second day is the day after the first. */
  function NextDayPairs(s: seq<Day>): (n: nat)
    ensures |s| > 0 ==> n < |s|
    decreases |s|
  {
    if |s| < 2 then 0
    else NextDayPairs(s[..|s| - 1]) + (if s[|s| - 1] == s[|s| - 2] + 1 then 1 else 0)
  }

  /** The counters after the loop has looked at every adjacent pair of `s`, starting
      from a current and best run of one. */
  function Scan(s: seq<Day>): (c: Counters)
    requires |s| > 0
    ensures 0 <= c.current <= c.best
    ensures 1 <= c.best <= NextDayPairs(s) + 1
    decreases |s|
  {
    if |s| == 1 then Counters(1, 1)
    else Step(Scan(s[..|s| - 1]), s[|s| - 2], s[|s| - 1])
  }

  /** The value the analyzer returns for `s`; an empty list gives the initial best, one. */
  function BestSequence(s: seq<Day>): (r: int)
    ensures 1 <= r <= (if |s| == 0 then 1 else |s|)
    ensures r <= NextDayPairs(s) + 1
  {
    if |s| == 0 then 1 else Scan(s).best
  }

  /** The analyzer itself: a single pass over the dates with two mutable counters,
      skipping same-day pairs, resetting the run at a gap, and returning as soon as
      there is no next date. */
  method BestSequenceOfDates(days: seq<Day>) returns (bestSequence: int)
    ensures bestSequence == BestSequence(days)
  {
    bestSequence := 1;
    var currentSequence := 1;
    for i := 0 to |days|
      invariant i == 0 || i < |days|
      invariant |days| > 0 ==> Counters(currentSequence, bestSequence) == Scan(days[..i + 1])
      invariant |days| == 0 ==> bestSequence == 1
    {
      if i + 1 == |days| {
        assert days[..i + 1] == days;
        return;
      }
      var date := days[i];
      var nextDate := days[i + 1];
      assert days[..i + 2][..i + 1] == days[..i + 1];
      if date == nextDate {
        continue;
      }
      if nextDate != date + 1 {
        currentSequence := 0;
        continue;
      }
      currentSequence := currentSequence + 1;
      if currentSequence > bestSequence {
        bestSequence := currentSequence;
      }
    }
  }

  /** An empty list and a one-date list both give one: the loop never changes the counters. */
  lemma ShortInputsGiveOne(d: Day)
    ensures BestSequence([]) == 1
    ensures BestSequence([d]) == 1
  {
  }

  /** Two prefixes that leave the counters equal and end on the same day stay equal
      whatever follows them. */
  lemma {:induction false} ScanCongruence(p: seq<Day>, q: seq<Day>, r: seq<Day>)
    requires |p| > 0 && |q| > 0
    requires Scan(p) == Scan(q) && p[|p| - 1] == q[|q| - 1]
    ensures Scan(p + r) == Scan(q + r)
    decreases |r|
  {
    if r == [] {
      assert p + r == p && q + r == q;
    } else {
      var r' := r[..|r| - 1];
      ScanCongruence(p, q, r');
      assert (p + r)[..|p + r| - 1] == p + r';
      assert (q + r)[..|q + r| - 1] == q + r';
      assert (p + r)[|p + r| - 2] == (q + r)[|q + r| - 2];
    }
  }

  /** Duplicating a date in place (a second meal on the same day) leaves the result
      unchanged. */
  lemma DuplicateDayLeavesResultUnchanged(s: seq<Day>, k: nat)
    requires k < |s|
    ensures BestSequence(s[..k + 1] + [s[k]] + s[k + 1..]) == BestSequence(s)
  {
    var p := s[..k + 1] + [s[k]];
    var q := s[..k + 1];
    assert p[..|p| - 1] == q;
    ScanCongruence(p, q, s[k + 1..]);
    assert q + s[k + 1..] == s;
  }

  /** A pair that is neither the same day nor the next day sets the current run to
      zero, not one, and leaves the best run as it was. */
  lemma GapResetsRunToZero(s: seq<Day>, next: Day)
    requires |s| > 0 && !Linked(s[|s| - 1], next)
    ensures Scan(s + [next]) == Counters(0, Scan(s).best)
  {
    assert (s + [next])[..|s|] == s;
  }

  /** Pinned figures around a gap: the run after a gap is counted one short. */
  lemma GapExamples(d: Day)
    ensures BestSequence([d, d + 2, d + 3]) == 1
    ensures BestSequence([d, d + 1, d + 3]) == 2
    ensures BestSequence([d, d + 1]) == 2
    ensures BestSequence([d, d]) == 1
  {
    assert [d, d + 2, d + 3][..2] == [d, d + 2];
    assert [d, d + 2][..1] == [d];
    assert Scan([d, d + 2]) == Counters(0, 1);
    assert [d, d + 1, d + 3][..2] == [d, d + 1];
    assert [d, d + 1][..1] == [d];
    assert Scan([d, d + 1]) == Counters(2, 2);
    assert [d, d][..1] == [d];
  }

  /** The analyzer does not sort: dates in descending order are all gaps. */
  lemma UnsortedInputIsNotSorted(d: Day)
    ensures BestSequence([d + 2, d + 1, d]) == 1
    ensures BestSequence([d, d + 1, d + 2]) == 3
  {
    assert [d + 2, d + 1, d][..2] == [d + 2, d + 1];
    assert [d + 2, d + 1][..1] == [d + 2];
    assert Scan([d + 2, d + 1]) == Counters(0, 1);
    assert [d, d + 1, d + 2][..2] == [d, d + 1];
    assert [d, d + 1][..1] == [d];
    assert Scan([d, d + 1]) == Counters(2, 2);
  }

  /** Every adjacent pair between positions `i` and `j` is same-day or next-day. */
  ghost predicate LinkedBetween(s: seq<Day>, i: nat, j: nat)
    requires i <= j < |s|
  {
    forall k :: i <= k < j ==> Linked(s[k], s[k + 1])
  }

  /** A list whose adjacent pairs are all same-day or next-day reports the number of
      calendar days it spans: one plus its next-day pairs, that is last minus first
      plus one. */
  lemma {:induction false} LinkedListReportsDaysSpanned(s: seq<Day>)
    requires |s| > 0 && LinkedBetween(s, 0, |s| - 1)
    ensures Scan(s) == Counters(NextDayPairs(s) + 1, NextDayPairs(s) + 1)
    ensures NextDayPairs(s) == s[|s| - 1] - s[0]
    ensures BestSequence(s) == s[|s| - 1] - s[0] + 1
    decreases |s|
  {
    if |s| > 1 {
      var p := s[..|s| - 1];
      assert LinkedBetween(p, 0, |p| - 1) by {
        forall k | 0 <= k < |p| - 1 ensures Linked(p[k], p[k + 1]) {
          assert Linked(s[k], s[k + 1]);
        }
      }
      LinkedListReportsDaysSpanned(p);
      assert Linked(s[|s| - 2], s[|s| - 1]);
    }
  }

  /** The current run covers every linked run that ends the list: at least its span in
      days less one, and its full span when that run starts the list. */
  lemma {:induction false} CurrentCoversTrailingRun(s: seq<Day>, i: nat)
    requires i < |s| && LinkedBetween(s, i, |s| - 1)
    ensures Scan(s).current >= s[|s| - 1] - s[i] + (if i == 0 then 1 else 0)
    decreases |s|
  {
    if i < |s| - 1 {
      var p := s[..|s| - 1];
      assert LinkedBetween(p, i, |p| - 1) by {
        forall k | i <= k < |p| - 1 ensures Linked(p[k], p[k + 1]) {
          assert Linked(s[k], s[k + 1]);
        }
      }
      CurrentCoversTrailingRun(p, i);
      assert Linked(s[|s| - 2], s[|s| - 1]);
    }
  }

  /** Every run of linked dates from position `i` to `j` is reported: the result is at
      least the run's span in days less one (the undercount after a gap), and at least
      its full span when the run starts the list. */
  lemma {:induction false} EveryRunIsReported(s: seq<Day>, i: nat, j: nat)
    requires i <= j < |s| && LinkedBetween(s, i, j)
    ensures BestSequence(s) >= s[j] - s[i] + (if i == 0 then 1 else 0)
    decreases |s|
  {
    if j == |s| - 1 {
      CurrentCoversTrailingRun(s, i);
    } else {
      var p := s[..|s| - 1];
      assert LinkedBetween(p, i, j) by {
        forall k | i <= k < j ensures Linked(p[k], p[k + 1]) {
          assert Linked(s[k], s[k + 1]);
        }
      }
      EveryRunIsReported(p, i, j);
    }
  }

  /** Where the current run starts: a position `i` from which every pair to the end
      is linked, with the current run equal to that run's span in days less one, or
      its full span when it starts the list. */
  lemma {:induction false} CurrentRunStart(s: seq<Day>) returns (i: nat)
    requires |s| > 0
    ensures i < |s| && LinkedBetween(s, i, |s| - 1)
    ensures Scan(s).current == s[|s| - 1] - s[i] + (if i == 0 then 1 else 0)
    decreases |s|
  {
    if |s| == 1 {
      i := 0;
    } else {
      var p := s[..|s| - 1];
      var i' := CurrentRunStart(p);
      if Linked(s[|s| - 2], s[|s| - 1]) {
        i := i';
        forall k | i <= k < |s| - 1 ensures Linked(s[k], s[k + 1]) {
          if k < |s| - 2 {
            assert Linked(p[k], p[k + 1]);
          }
        }
      } else {
        i := |s| - 1;
      }
    }
  }

  /** Conversely, the result is the span of an actual run of linked dates from `i` to
      `j`: with `EveryRunIsReported`, the result is the largest such span, counted one
      short unless the run starts the list. */
  lemma {:induction false} BestSequenceIsAttainedByARun(s: seq<Day>) returns (i: nat, j: nat)
    requires |s| > 0
    ensures i <= j < |s| && LinkedBetween(s, i, j)
    ensures BestSequence(s) == s[j] - s[i] + (if i == 0 then 1 else 0)
    decreases |s|
  {
    if Scan(s).best == Scan(s).current {
      i := CurrentRunStart(s);
      j := |s| - 1;
    } else {
      var p := s[..|s| - 1];
      assert |s| > 1;
      i, j := BestSequenceIsAttainedByARun(p);
      forall k | i <= k < j ensures Linked(s[k], s[k + 1]) {
        assert Linked(p[k], p[k + 1]);
      }
    }
  }
}

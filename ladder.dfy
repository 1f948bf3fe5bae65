/** The spaced-repetition interval ladder shared by the test-submission path
    (`_mark_correct`) and the explicit review path (`mark_reviewed`): both
    carry their own copy of the list [1, 3, 7, 14, 30, 60] and the same
    "advance one rung, saturate at the top, off-ladder counts as rung 0"
    rule; here it is defined once. */
module Ladder {
  import opened Basics

  /** Review intervals, in days. */
  const Intervals: seq<int> := [1, 3, 7, 14, 30, 60]

  /** Index of the top rung, `len(intervals) - 1`. */
  const TopRung: nat := 5

  predicate OnLadder(v: int)
  {
    v in Intervals
  }

  /** Python's `s.index(v)`: the first position holding v. */
  function IndexOf(s: seq<int>, v: int): (i: nat)
    requires v in s
    ensures i < |s| && s[i] == v
    ensures forall j :: 0 <= j < i ==> s[j] != v
  {
    if s[0] == v then 0 else 1 + IndexOf(s[1..], v)
  }

  /** `intervals.index(v) if v in intervals else 0` */
  function RungIndex(v: int): (i: nat)
    ensures i <= TopRung
    ensures OnLadder(v) ==> Intervals[i] == v
    ensures !OnLadder(v) ==> i == 0
  {
    if OnLadder(v) then IndexOf(Intervals, v) else 0
  }

  /** `intervals[min(current_idx + 1, len(intervals) - 1)]`, written out
      rung by rung so that it unfolds cheaply; `NextRungByIndex` proves it
      is exactly that formula. */
  function NextRung(v: int): (r: int)
    ensures OnLadder(r)
    ensures r >= 3
  {
    if v == 1 then 3 else if v == 3 then 7 else if v == 7 then 14
    else if v == 14 then 30 else if v == 30 then 60 else if v == 60 then 60
    else 3
  }

  /** The table is the source's formula: one rung up from the current
      rung (rung 0 when off the ladder), saturating at the top. */
  lemma NextRungByIndex(v: int)
    ensures NextRung(v) == Intervals[Min(RungIndex(v) + 1, TopRung)]
  {
    if OnLadder(v) {
      var i := RungIndex(v);
      assert Intervals[i] == v;
      LadderIncreasing();
    }
  }

  /** The ladder is strictly increasing. */
  lemma LadderIncreasing()
    ensures forall a, b :: 0 <= a < b <= TopRung ==> Intervals[a] < Intervals[b]
  {
  }

  /** A correct answer moves rung i to rung min(i + 1, 5). */
  lemma NextRungAdvances(i: nat)
    requires i <= TopRung
    ensures RungIndex(Intervals[i]) == i
    ensures NextRung(Intervals[i]) == Intervals[Min(i + 1, TopRung)]
  {
    var v := Intervals[i];
    assert OnLadder(v);
    var k := RungIndex(v);
    // Equal values sit at equal rungs.
    assert Intervals[k] == v;
    LadderIncreasing();
  }

  /** The ladder saturates at 60 days and never wraps around. */
  lemma NextRungSaturates()
    ensures NextRung(60) == 60
  {
    NextRungAdvances(TopRung);
  }

  /** A corrupt interval is treated as rung 0, so it moves to 3 days. */
  lemma OffLadderRestarts(v: int)
    requires !OnLadder(v)
    ensures NextRung(v) == 3
  {
  }

  /** On the ladder, a correct answer never shortens the interval, and
      lengthens it everywhere below the top. */
  lemma NextRungGrows(v: int)
    requires OnLadder(v)
    ensures NextRung(v) >= v
    ensures v < 60 ==> NextRung(v) > v
  {
    var i := RungIndex(v);
    NextRungAdvances(i);
  }

  /** n consecutive correct answers. */
  function Climb(v: int, n: nat): int
    decreases n
  {
    if n == 0 then v else Climb(NextRung(v), n - 1)
  }

  /** From rung i, n correct answers land on rung min(i + n, 5): ten in a
      row from a fresh record stop at 60 days. */
  lemma {:induction false} ClimbFromRung(i: nat, n: nat)
    requires i <= TopRung
    ensures Climb(Intervals[i], n) == Intervals[Min(i + n, TopRung)]
    decreases n
  {
    if n > 0 {
      var j := Min(i + 1, TopRung);
      NextRungAdvances(i);
      assert Climb(Intervals[i], n) == Climb(Intervals[j], n - 1);
      ClimbFromRung(j, n - 1);
      assert Min(j + (n - 1), TopRung) == Min(i + n, TopRung);
    }
  }
}

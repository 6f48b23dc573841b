/**
 * The summarizer: turns the ordered list of metric evaluations into a 0-100 score, an overall status,
 * up to three ranked insights, an executive summary and a chat message.
 */
module Summarizer {
  import opened Wrappers
  import opened Schemas

  const FALLBACK_MESSAGE := "Stable performance across tracked metrics"
  const ON_TRACK_HEADLINE := "Performance on track"
  const AT_RISK_HEADLINE := "Performance at risk"

  /** Magnitude of relative variance above which an insight is HIGH rather than MEDIUM. */
  const HIGH_THRESHOLD: real := 0.1

  /** At most this many insights are reported. */
  const MAX_INSIGHTS: nat := 3

  // ---------------------------------------------------------------------------
  // Score
  // ---------------------------------------------------------------------------

  /** The number of evaluations that have the given status. */
  function CountStatus(evals: seq<MetricEvaluation>, status: Status): (n: nat)
    ensures n <= |evals|
  {
    if evals == [] then 0
    else CountStatus(evals[..|evals| - 1], status) + (if evals[|evals| - 1].status == status then 1 else 0)
  }

  /** 100, less 20 per BELOW_TARGET and 5 per NO_TARGET, clamped as `max(0, min(100, raw))`. */
  function Score(evals: seq<MetricEvaluation>): (score: int)
    ensures 0 <= score <= 100
  {
    var raw := 100 - 20 * CountStatus(evals, BelowTarget) - 5 * CountStatus(evals, NoTarget);
    var capped := if raw < 100 then raw else 100;
    if capped > 0 then capped else 0
  }

  /** `compute_score`: the accumulator loop over the evaluations. */
  method ComputeScore(evals: seq<MetricEvaluation>) returns (score: int)
    ensures score == Score(evals)
    ensures 0 <= score <= 100
  {
    score := 100;
    for i := 0 to |evals|
      invariant score == 100 - 20 * CountStatus(evals[..i], BelowTarget) - 5 * CountStatus(evals[..i], NoTarget)
    {
      assert evals[..i + 1][..i] == evals[..i];
      if evals[i].status == BelowTarget {
        score := score - 20;
      } else if evals[i].status == NoTarget {
        score := score - 5;
      }
    }
    assert evals[..|evals|] == evals;
    var capped := if score < 100 then score else 100;
    score := if capped > 0 then capped else 0;
  }

  /** Counting distributes over concatenation. */
  lemma {:induction false} CountAppend(a: seq<MetricEvaluation>, b: seq<MetricEvaluation>, status: Status)
    ensures CountStatus(a + b, status) == CountStatus(a, status) + CountStatus(b, status)
  {
    if b != [] {
      assert (a + b)[..|a + b| - 1] == a + b[..|b| - 1];
      CountAppend(a, b[..|b| - 1], status);
    } else {
      assert a + b == a;
    }
  }

  /** Some evaluation has the status exactly when its count is positive. */
  lemma {:induction false} CountPositiveIff(evals: seq<MetricEvaluation>, status: Status)
    ensures CountStatus(evals, status) > 0 <==> exists i | 0 <= i < |evals| :: evals[i].status == status
  {
    if evals != [] {
      var init := evals[..|evals| - 1];
      CountPositiveIff(init, status);
      if exists i | 0 <= i < |init| :: init[i].status == status {
        var i :| 0 <= i < |init| && init[i].status == status;
        assert evals[i].status == status;
      }
      if exists i | 0 <= i < |evals| :: evals[i].status == status {
        var i :| 0 <= i < |evals| && evals[i].status == status;
        if i < |init| {
          assert init[i].status == status;
        }
      }
    }
  }

  /** When every evaluation has the status, the count is the length. */
  lemma {:induction false} CountAll(evals: seq<MetricEvaluation>, status: Status)
    requires forall i | 0 <= i < |evals| :: evals[i].status == status
    ensures CountStatus(evals, status) == |evals|
  {
    if evals != [] {
      CountAll(evals[..|evals| - 1], status);
    }
  }

  /** ABOVE_TARGET and MEETS_TARGET entries never lower the score, wherever they appear. */
  lemma FavourableEntryKeepsScore(before: seq<MetricEvaluation>, e: MetricEvaluation, after: seq<MetricEvaluation>)
    requires e.status == AboveTarget || e.status == MeetsTarget
    ensures Score(before + [e] + after) == Score(before + after)
  {
    forall status: Status
      ensures CountStatus(before + [e] + after, status)
           == CountStatus(before + after, status) + (if e.status == status then 1 else 0)
    {
      CountEntry(before, e, after, status);
    }
  }

  /** No entry raises the score. */
  lemma EntryNeverRaisesScore(before: seq<MetricEvaluation>, e: MetricEvaluation, after: seq<MetricEvaluation>)
    ensures Score(before + [e] + after) <= Score(before + after)
  {
    CountEntry(before, e, after, BelowTarget);
    CountEntry(before, e, after, NoTarget);
  }

  /** The count after inserting one entry. */
  lemma CountEntry(before: seq<MetricEvaluation>, e: MetricEvaluation, after: seq<MetricEvaluation>, status: Status)
    ensures CountStatus(before + [e] + after, status)
         == CountStatus(before + after, status) + (if e.status == status then 1 else 0)
  {
    CountAppend(before + [e], after, status);
    CountAppend(before, [e], status);
    CountAppend(before, after, status);
    assert [e][..0] == [];
  }

  /** The score is 100 exactly when every evaluation is ABOVE_TARGET or MEETS_TARGET. */
  lemma FullScoreIff(evals: seq<MetricEvaluation>)
    ensures Score(evals) == 100 <==>
      forall i | 0 <= i < |evals| :: evals[i].status == AboveTarget || evals[i].status == MeetsTarget
  {
    CountPositiveIff(evals, BelowTarget);
    CountPositiveIff(evals, NoTarget);
    if Score(evals) == 100 {
      forall i | 0 <= i < |evals|
        ensures evals[i].status == AboveTarget || evals[i].status == MeetsTarget
      {
        assert evals[i].status != BelowTarget && evals[i].status != NoTarget;
      }
    }
  }

  /** A list made only of NO_TARGET entries scores `max(0, 100 - 5 * n)`, so twenty or more score 0. */
  lemma AllNoTargetScore(evals: seq<MetricEvaluation>)
    requires forall i | 0 <= i < |evals| :: evals[i].status == NoTarget
    ensures Score(evals) == if 100 - 5 * |evals| > 0 then 100 - 5 * |evals| else 0
  {
    CountAll(evals, NoTarget);
    CountPositiveIff(evals, BelowTarget);
  }

  // ---------------------------------------------------------------------------
  // Overall status
  // ---------------------------------------------------------------------------

  /**
   * `overall`: AT_RISK when some evaluation is BELOW_TARGET, else MEETING_TARGETS. The second test of the
   * source returns the same value as its fall-through, so FAILING and NO_TARGETS are never produced.
   */
  function Overall(evals: seq<MetricEvaluation>): (r: OverallStatus)
    ensures r == AtRisk <==> CountStatus(evals, BelowTarget) > 0
    ensures r == AtRisk || r == MeetingTargets
  {
    CountPositiveIff(evals, BelowTarget);
    if exists i | 0 <= i < |evals| :: evals[i].status == BelowTarget then AtRisk
    else if forall i | 0 <= i < |evals| :: evals[i].status in {MeetsTarget, AboveTarget, NoTarget} then MeetingTargets
    else MeetingTargets
  }

  /** An AT_RISK list scores at most 80. */
  lemma AtRiskCapsScore(evals: seq<MetricEvaluation>)
    requires Overall(evals) == AtRisk
    ensures Score(evals) <= 80
  {
  }

  // ---------------------------------------------------------------------------
  // Insights
  // ---------------------------------------------------------------------------

  /** `variance_pct or 0`. */
  function PctOrZero(e: MetricEvaluation): (p: real)
    ensures e.variancePct.None? ==> p == 0.0
    ensures e.variancePct.Some? ==> p == e.variancePct.value
  {
    if e.variancePct.Some? then e.variancePct.value else 0.0
  }

  /** The ranking key `abs(variance_pct or 0)`. */
  function Magnitude(e: MetricEvaluation): (m: real)
    ensures m >= 0.0
    ensures m == PctOrZero(e) || m == -PctOrZero(e)
  {
    var p := PctOrZero(e);
    if p < 0.0 then -p else p
  }

  /** Ordered by non-increasing magnitude. */
  ghost predicate SortedDesc(s: seq<MetricEvaluation>) {
    forall i, j | 0 <= i < j < |s| :: Magnitude(s[i]) >= Magnitude(s[j])
  }

  /** The evaluations that carry a target, in their original order. */
  function Tracked(evals: seq<MetricEvaluation>): (r: seq<MetricEvaluation>)
    ensures |r| <= |evals|
  {
    if evals == [] then []
    else
      var last := evals[|evals| - 1];
      Tracked(evals[..|evals| - 1]) + (if last.target.Some? then [last] else [])
  }

  /** Filtering a concatenation filters each part: the kept entries keep their order and multiplicity. */
  lemma {:induction false} TrackedAppend(a: seq<MetricEvaluation>, b: seq<MetricEvaluation>)
    ensures Tracked(a + b) == Tracked(a) + Tracked(b)
  {
    if b != [] {
      var init, last := b[..|b| - 1], b[|b| - 1];
      assert (a + b)[..|a + b| - 1] == a + init;
      TrackedAppend(a, init);
    } else {
      assert a + b == a;
    }
  }

  /** A single evaluation is kept exactly when it has a target. */
  lemma TrackedSingle(e: MetricEvaluation)
    ensures Tracked([e]) == if e.target.Some? then [e] else []
  {
    assert [e][..0] == [];
  }

  /** The filter keeps exactly the evaluations that carry a target. */
  lemma {:induction false} TrackedMembers(evals: seq<MetricEvaluation>, e: MetricEvaluation)
    ensures e in Tracked(evals) <==> e in evals && e.target.Some?
  {
    if evals != [] {
      var init, last := evals[..|evals| - 1], evals[|evals| - 1];
      assert evals == init + [last];
      TrackedMembers(init, e);
    }
  }

  /** The entries of `s` whose magnitude is `k`, in their order in `s`. */
  function WithMagnitude(s: seq<MetricEvaluation>, k: real): seq<MetricEvaluation> {
    if s == [] then []
    else (if Magnitude(s[0]) == k then [s[0]] else []) + WithMagnitude(s[1..], k)
  }

  /**
   * Places `x` after every leading entry whose magnitude is at least its own: on a sorted list this keeps
   * the list sorted and leaves `x` behind the equal entries already present.
   */
  function Insert(s: seq<MetricEvaluation>, x: MetricEvaluation): (r: seq<MetricEvaluation>)
    ensures |r| == |s| + 1
    ensures multiset(r) == multiset(s) + multiset{x}
  {
    if s == [] then [x]
    else if Magnitude(s[0]) >= Magnitude(x) then
      assert s == [s[0]] + s[1..];
      [s[0]] + Insert(s[1..], x)
    else
      [x] + s
  }

  lemma SortedTail(s: seq<MetricEvaluation>)
    requires s != [] && SortedDesc(s)
    ensures SortedDesc(s[1..])
  {
    var t := s[1..];
    forall i, j | 0 <= i < j < |t| ensures Magnitude(t[i]) >= Magnitude(t[j]) {
      assert t[i] == s[i + 1] && t[j] == s[j + 1];
    }
  }

  lemma SortedCons(h: MetricEvaluation, t: seq<MetricEvaluation>)
    requires SortedDesc(t)
    requires forall j | 0 <= j < |t| :: Magnitude(h) >= Magnitude(t[j])
    ensures SortedDesc([h] + t)
  {
    var r := [h] + t;
    forall i, j | 0 <= i < j < |r| ensures Magnitude(r[i]) >= Magnitude(r[j]) {
      assert r[j] == t[j - 1];
      if i > 0 {
        assert r[i] == t[i - 1];
      }
    }
  }

  /** A bound on the magnitudes of `s` and of `x` bounds those of `Insert(s, x)`. */
  lemma {:induction false} InsertBounded(s: seq<MetricEvaluation>, x: MetricEvaluation, bound: real)
    requires forall j | 0 <= j < |s| :: Magnitude(s[j]) <= bound
    requires Magnitude(x) <= bound
    ensures forall j | 0 <= j < |Insert(s, x)| :: Magnitude(Insert(s, x)[j]) <= bound
  {
    if s != [] && Magnitude(s[0]) >= Magnitude(x) {
      var tail := s[1..];
      assert forall j | 0 <= j < |tail| :: tail[j] == s[j + 1];
      InsertBounded(tail, x, bound);
      var r := [s[0]] + Insert(tail, x);
      assert Insert(s, x) == r;
      forall j | 0 <= j < |r| ensures Magnitude(r[j]) <= bound {
        if j > 0 {
          assert r[j] == Insert(tail, x)[j - 1];
        }
      }
    }
  }

  /** Inserting into a sorted list keeps it sorted. */
  lemma {:induction false} InsertSorted(s: seq<MetricEvaluation>, x: MetricEvaluation)
    requires SortedDesc(s)
    ensures SortedDesc(Insert(s, x))
  {
    if s == [] {
      assert Insert(s, x) == [x];
    } else if Magnitude(s[0]) >= Magnitude(x) {
      var tail := s[1..];
      SortedTail(s);
      InsertSorted(tail, x);
      assert forall j | 0 <= j < |tail| :: Magnitude(s[0]) >= Magnitude(tail[j]) by {
        forall j | 0 <= j < |tail| ensures Magnitude(s[0]) >= Magnitude(tail[j]) {
          assert tail[j] == s[j + 1];
        }
      }
      InsertBounded(tail, x, Magnitude(s[0]));
      SortedCons(s[0], Insert(tail, x));
      assert Insert(s, x) == [s[0]] + Insert(tail, x);
    } else {
      assert forall j | 0 <= j < |s| :: Magnitude(x) >= Magnitude(s[j]) by {
        forall j | 0 <= j < |s| ensures Magnitude(x) >= Magnitude(s[j]) {
          if j > 0 {
            assert Magnitude(s[0]) >= Magnitude(s[j]);
          }
        }
      }
      SortedCons(x, s);
      assert Insert(s, x) == [x] + s;
    }
  }

  /** `sorted(s, key=magnitude, reverse=True)`: a stable sort into non-increasing magnitude. */
  function SortDesc(s: seq<MetricEvaluation>): (r: seq<MetricEvaluation>)
    ensures SortedDesc(r)
    ensures multiset(r) == multiset(s)
    ensures |r| == |s|
  {
    if s == [] then []
    else
      var init, last := s[..|s| - 1], s[|s| - 1];
      assert s == init + [last];
      var sortedInit := SortDesc(init);
      InsertSorted(sortedInit, last);
      Insert(sortedInit, last)
  }

  lemma {:induction false} WithMagnitudeAppend(a: seq<MetricEvaluation>, b: seq<MetricEvaluation>, k: real)
    ensures WithMagnitude(a + b, k) == WithMagnitude(a, k) + WithMagnitude(b, k)
  {
    if a != [] {
      assert (a + b)[1..] == a[1..] + b;
      WithMagnitudeAppend(a[1..], b, k);
    } else {
      assert a + b == b;
    }
  }

  lemma {:induction false} WithMagnitudeNone(s: seq<MetricEvaluation>, k: real)
    requires forall i | 0 <= i < |s| :: Magnitude(s[i]) < k
    ensures WithMagnitude(s, k) == []
  {
    if s != [] {
      WithMagnitudeNone(s[1..], k);
    }
  }

  /** The filter on a list with a known first entry. */
  lemma WithMagnitudeCons(h: MetricEvaluation, t: seq<MetricEvaluation>, k: real)
    ensures WithMagnitude([h] + t, k) == (if Magnitude(h) == k then [h] else []) + WithMagnitude(t, k)
  {
    assert ([h] + t)[0] == h;
    assert ([h] + t)[1..] == t;
  }

  /** `x` goes past a first entry whose magnitude is at least its own. */
  lemma InsertPastHead(s: seq<MetricEvaluation>, x: MetricEvaluation)
    requires s != [] && Magnitude(s[0]) >= Magnitude(x)
    ensures Insert(s, x) == [s[0]] + Insert(s[1..], x)
  {
  }

  /** Putting `x` in front of a sorted list whose entries are all smaller than `x`. */
  lemma InsertFrontStable(s: seq<MetricEvaluation>, x: MetricEvaluation, k: real)
    requires SortedDesc(s)
    requires s != [] ==> Magnitude(s[0]) < Magnitude(x)
    ensures WithMagnitude([x] + s, k) == WithMagnitude(s, k) + WithMagnitude([x], k)
  {
    WithMagnitudeCons(x, s, k);
    WithMagnitudeCons(x, [], k);
    if Magnitude(x) == k {
      forall i | 0 <= i < |s| ensures Magnitude(s[i]) < k {
        if i > 0 {
          assert Magnitude(s[0]) >= Magnitude(s[i]);
        }
      }
      WithMagnitudeNone(s, k);
    }
  }

  /** Inserting into a sorted list appends `x` to the entries of its own magnitude and changes no other. */
  lemma {:induction false} InsertStable(s: seq<MetricEvaluation>, x: MetricEvaluation, k: real)
    requires SortedDesc(s)
    ensures WithMagnitude(Insert(s, x), k) == WithMagnitude(s, k) + WithMagnitude([x], k)
  {
    if s == [] {
      assert Insert(s, x) == [x] + s;
      InsertFrontStable(s, x, k);
    } else if Magnitude(s[0]) >= Magnitude(x) {
      var tail := s[1..];
      var head := if Magnitude(s[0]) == k then [s[0]] else [];
      SortedTail(s);
      calc {
        WithMagnitude(Insert(s, x), k);
      == { InsertPastHead(s, x); }
        WithMagnitude([s[0]] + Insert(tail, x), k);
      == { WithMagnitudeCons(s[0], Insert(tail, x), k); }
        head + WithMagnitude(Insert(tail, x), k);
      == { InsertStable(tail, x, k); }
        head + (WithMagnitude(tail, k) + WithMagnitude([x], k));
      ==
        (head + WithMagnitude(tail, k)) + WithMagnitude([x], k);
      == { assert s == [s[0]] + tail; WithMagnitudeCons(s[0], tail, k); }
        WithMagnitude(s, k) + WithMagnitude([x], k);
      }
    } else {
      assert Insert(s, x) == [x] + s;
      InsertFrontStable(s, x, k);
    }
  }

  /** The sort is stable: for every magnitude, the entries having it keep their relative order. */
  lemma {:induction false} SortDescStable(s: seq<MetricEvaluation>, k: real)
    ensures WithMagnitude(SortDesc(s), k) == WithMagnitude(s, k)
  {
    if s != [] {
      var init, last := s[..|s| - 1], s[|s| - 1];
      calc {
        WithMagnitude(SortDesc(s), k);
      ==
        WithMagnitude(Insert(SortDesc(init), last), k);
      == { InsertStable(SortDesc(init), last, k); }
        WithMagnitude(SortDesc(init), k) + WithMagnitude([last], k);
      == { SortDescStable(init, k); }
        WithMagnitude(init, k) + WithMagnitude([last], k);
      == { WithMagnitudeAppend(init, [last], k); assert s == init + [last]; }
        WithMagnitude(s, k);
      }
    }
  }

  /** The first three entries of the stable sort of the tracked evaluations. */
  function Ranked(evals: seq<MetricEvaluation>): (top: seq<MetricEvaluation>)
    ensures |top| == if |Tracked(evals)| < MAX_INSIGHTS then |Tracked(evals)| else MAX_INSIGHTS
    ensures SortedDesc(top)
  {
    var sorted := SortDesc(Tracked(evals));
    sorted[..if |sorted| < MAX_INSIGHTS then |sorted| else MAX_INSIGHTS]
  }

  /** ASCII upper-casing of one character. */
  function UpperChar(c: char): char {
    if 'a' <= c <= 'z' then (c as int - 32) as char else c
  }

  /** `str.upper()` restricted to ASCII letters. */
  function Upper(s: string): (r: string)
    ensures |r| == |s|
    ensures forall i | 0 <= i < |r| :: !('a' <= r[i] <= 'z')
    ensures forall i | 0 <= i < |s| :: 'a' <= s[i] <= 'z' ==> r[i] as int == s[i] as int - 32
    ensures forall i | 0 <= i < |s| :: !('a' <= s[i] <= 'z') ==> r[i] == s[i]
  {
    seq(|s|, i requires 0 <= i < |s| => UpperChar(s[i]))
  }

  /**
   * The insight for one ranked evaluation. `pctText` renders `round(x * 100, 2)` as Python's `str`
   * does, and is applied to `variance_pct or 0`.
   */
  function ToInsight(e: MetricEvaluation, pctText: real -> string): (k: KeyInsight)
    ensures k.importance == High <==> Magnitude(e) > HIGH_THRESHOLD
    ensures k.importance != Low
    ensures |k.message| > |e.name| && k.message[..|e.name|] == Upper(e.name)
    ensures k.message[|e.name|..] == " variance " + pctText(PctOrZero(e)) + "%"
    ensures k.message[|k.message| - 1] == '%'
  {
    var head := Upper(e.name);
    var tail := " variance " + pctText(PctOrZero(e)) + "%";
    assert (head + tail)[..|head|] == head && (head + tail)[|head|..] == tail;
    KeyInsight(head + tail, if Magnitude(e) > HIGH_THRESHOLD then High else Medium)
  }

  const FALLBACK := KeyInsight(FALLBACK_MESSAGE, Low)

  /** The insights `top_insights` reports: one per ranked evaluation, or the single fallback. */
  function KeyInsights(evals: seq<MetricEvaluation>, pctText: real -> string): (r: seq<KeyInsight>)
    ensures 1 <= |r| <= MAX_INSIGHTS
  {
    var top := Ranked(evals);
    if top == [] then [FALLBACK]
    else seq(|top|, i requires 0 <= i < |top| => ToInsight(top[i], pctText))
  }

  /** `top_insights`: the loop appending one insight per selected evaluation. */
  method TopInsights(evals: seq<MetricEvaluation>, pctText: real -> string) returns (insights: seq<KeyInsight>)
    ensures insights == KeyInsights(evals, pctText)
    ensures 1 <= |insights| <= MAX_INSIGHTS
  {
    var sorted := SortDesc(Tracked(evals));
    var top := sorted[..if |sorted| < MAX_INSIGHTS then |sorted| else MAX_INSIGHTS];
    insights := [];
    for i := 0 to |top|
      invariant |insights| == i
      invariant forall j | 0 <= j < i :: insights[j] == ToInsight(top[j], pctText)
    {
      insights := insights + [ToInsight(top[i], pctText)];
    }
    if insights == [] {
      insights := [FALLBACK];
    }
  }

  /** There is one insight per tracked evaluation up to three, and exactly one when none is tracked. */
  lemma InsightCount(evals: seq<MetricEvaluation>, pctText: real -> string)
    ensures |KeyInsights(evals, pctText)| == if |Tracked(evals)| == 0 then 1
                                            else if |Tracked(evals)| < MAX_INSIGHTS then |Tracked(evals)| else MAX_INSIGHTS
  {
  }

  /** The LOW fallback is reported exactly when no evaluation carries a target. */
  lemma FallbackIff(evals: seq<MetricEvaluation>, pctText: real -> string)
    ensures KeyInsights(evals, pctText) == [FALLBACK] <==> forall i | 0 <= i < |evals| :: evals[i].target.None?
  {
    var tracked := Tracked(evals);
    if forall i | 0 <= i < |evals| :: evals[i].target.None? {
      if tracked != [] {
        TrackedMembers(evals, tracked[0]);
      }
    } else {
      var i :| 0 <= i < |evals| && evals[i].target.Some?;
      TrackedMembers(evals, evals[i]);
      assert KeyInsights(evals, pctText)[0].importance != Low;
    }
  }

  /** Every selected evaluation carries a target and comes from the input. */
  lemma RankedAreTracked(evals: seq<MetricEvaluation>)
    ensures forall e | e in Ranked(evals) :: e in evals && e.target.Some?
  {
    var sorted := SortDesc(Tracked(evals));
    forall e | e in Ranked(evals) ensures e in evals && e.target.Some? {
      assert e in sorted;
      assert e in multiset(sorted);
      TrackedMembers(evals, e);
    }
  }

  /** No tracked evaluation left out of the selection has a larger magnitude than a selected one. */
  lemma RankedAreLargest(evals: seq<MetricEvaluation>, e: MetricEvaluation, i: nat)
    requires e in multiset(Tracked(evals)) - multiset(Ranked(evals))
    requires i < |Ranked(evals)|
    ensures Magnitude(e) <= Magnitude(Ranked(evals)[i])
  {
    var sorted := SortDesc(Tracked(evals));
    var n := |Ranked(evals)|;
    assert Ranked(evals) == sorted[..n];
    var m := NotInPrefix(sorted, n, e);
    assert SortedDesc(sorted);
    assert i < m;
    assert Magnitude(sorted[i]) >= Magnitude(sorted[m]);
  }

  /** An entry counted in `s` more often than in its first `n` entries sits at some index at or after `n`. */
  lemma NotInPrefix(s: seq<MetricEvaluation>, n: nat, e: MetricEvaluation) returns (m: nat)
    requires n <= |s|
    requires e in multiset(s) - multiset(s[..n])
    ensures n <= m < |s| && s[m] == e
  {
    var rest := s[n..];
    assert s == s[..n] + rest;
    assert multiset(s) == multiset(s[..n]) + multiset(rest);
    assert e in multiset(rest);
    var k :| 0 <= k < |rest| && rest[k] == e;
    m := n + k;
  }

  /** Ties keep the input order: the selected entries of each magnitude are a prefix of the tracked ones. */
  lemma RankedKeepsTieOrder(evals: seq<MetricEvaluation>, k: real)
    ensures WithMagnitude(Ranked(evals), k) <= WithMagnitude(Tracked(evals), k)
  {
    var sorted := SortDesc(Tracked(evals));
    var top := Ranked(evals);
    assert sorted == top + sorted[|top|..];
    WithMagnitudeAppend(top, sorted[|top|..], k);
    SortDescStable(Tracked(evals), k);
  }

  /** Three entries of strictly increasing magnitude come out of the sort reversed. */
  lemma SortThreeIncreasing(a: MetricEvaluation, b: MetricEvaluation, c: MetricEvaluation)
    requires Magnitude(a) < Magnitude(b) < Magnitude(c)
    ensures SortDesc([a, b, c]) == [c, b, a]
  {
    assert [a, b, c][..2] == [a, b] && [a, b][..1] == [a] && [a][..0] == [];
    assert SortDesc([a]) == [a] by {
      assert Insert([], a) == [a];
    }
    assert SortDesc([a, b]) == [b, a] by {
      assert Insert([a], b) == [b, a];
    }
    assert Insert([b, a], c) == [c, b, a];
  }

  /** When every evaluation carries a target, the filter keeps them all. */
  lemma {:induction false} TrackedAll(evals: seq<MetricEvaluation>)
    requires forall i | 0 <= i < |evals| :: evals[i].target.Some?
    ensures Tracked(evals) == evals
  {
    if evals != [] {
      var init := evals[..|evals| - 1];
      TrackedAll(init);
      assert evals == init + [evals[|evals| - 1]];
    }
  }

  /**
   * Three evaluations with targets and relative variances 0.02, -0.15 and 0.30, in that order, are
   * selected largest magnitude first.
   */
  lemma RankingExample(a: MetricEvaluation, b: MetricEvaluation, c: MetricEvaluation)
    requires a.target.Some? && b.target.Some? && c.target.Some?
    requires a.variancePct == Some(0.02) && b.variancePct == Some(-0.15) && c.variancePct == Some(0.3)
    ensures Ranked([a, b, c]) == [c, b, a]
  {
    var evals := [a, b, c];
    assert Tracked(evals) == evals by {
      assert forall i | 0 <= i < |evals| :: evals[i].target.Some?;
      TrackedAll(evals);
    }
    assert SortDesc(evals) == [c, b, a] by {
      assert Magnitude(a) == 0.02 && Magnitude(b) == 0.15 && Magnitude(c) == 0.3;
      SortThreeIncreasing(a, b, c);
    }
    assert [c, b, a][..3] == [c, b, a];
  }

  /** Each reported insight is HIGH exactly when its evaluation's magnitude exceeds 0.1, else MEDIUM. */
  lemma InsightImportance(evals: seq<MetricEvaluation>, pctText: real -> string, i: nat)
    requires i < |Ranked(evals)|
    ensures KeyInsights(evals, pctText)[i].importance == High <==> Magnitude(Ranked(evals)[i]) > HIGH_THRESHOLD
    ensures KeyInsights(evals, pctText)[i].importance != Low
  {
  }

  // ---------------------------------------------------------------------------
  // Summary texts
  // ---------------------------------------------------------------------------

  function DigitChar(d: nat): char
    requires d < 10
  {
    ('0' as int + d) as char
  }

  /** `str(n)` for a non-negative integer. */
  function NatToString(n: nat): (s: string)
    ensures |s| >= 1
    ensures forall i | 0 <= i < |s| :: '0' <= s[i] <= '9'
    ensures s[0] == '0' <==> n == 0
    ensures |s| == 1 <==> n < 10
  {
    if n < 10 then [DigitChar(n)] else NatToString(n / 10) + [DigitChar(n % 10)]
  }

  /** The value of a string of decimal digits. */
  function ParseNat(s: string): nat
    requires forall i | 0 <= i < |s| :: '0' <= s[i] <= '9'
  {
    if s == [] then 0 else 10 * ParseNat(s[..|s| - 1]) + (s[|s| - 1] as int - '0' as int)
  }

  /** The rendered number reads back as itself. */
  lemma {:induction false} NatToStringRoundTrip(n: nat)
    ensures ParseNat(NatToString(n)) == n
  {
    if n >= 10 {
      var s := NatToString(n);
      assert s[..|s| - 1] == NatToString(n / 10);
      NatToStringRoundTrip(n / 10);
    }
  }

  /** A digit string without a leading zero has a positive value. */
  lemma {:induction false} LeadingDigitPositive(s: string)
    requires |s| >= 1 && forall i | 0 <= i < |s| :: '0' <= s[i] <= '9'
    requires s[0] != '0'
    ensures ParseNat(s) >= 1
  {
    if |s| > 1 {
      LeadingDigitPositive(s[..|s| - 1]);
    }
  }

  /**
   * `str(n)` is the only digit string without a leading zero that reads back as `n`: the rendering is
   * the canonical one.
   */
  lemma {:induction false} NatToStringCanonical(t: string, n: nat)
    requires |t| >= 1 && forall i | 0 <= i < |t| :: '0' <= t[i] <= '9'
    requires |t| > 1 ==> t[0] != '0'
    requires ParseNat(t) == n
    ensures t == NatToString(n)
  {
    var d := t[|t| - 1] as int - '0' as int;
    if |t| == 1 {
      assert DigitChar(d) == t[0];
    } else {
      var init := t[..|t| - 1];
      LeadingDigitPositive(init);
      var m := ParseNat(init);
      assert n == 10 * m + d;
      assert n / 10 == m && n % 10 == d;
      NatToStringCanonical(init, m);
      assert DigitChar(d) == t[|t| - 1];
      assert t == init + [t[|t| - 1]];
    }
  }

  /** `sep.join(parts)`. */
  function Join(parts: seq<string>, sep: string): (r: string)
    ensures parts == [] ==> r == ""
    ensures |parts| == 1 ==> r == parts[0]
    ensures |parts| >= 1 ==> |r| >= |parts[|parts| - 1]|
  {
    if parts == [] then ""
    else if |parts| == 1 then parts[0]
    else Join(parts[..|parts| - 1], sep) + sep + parts[|parts| - 1]
  }

  /** The join of two or more parts is the first part, the separator, and the join of the rest. */
  lemma {:induction false} JoinCons(parts: seq<string>, sep: string)
    requires |parts| >= 2
    ensures Join(parts, sep) == parts[0] + sep + Join(parts[1..], sep)
  {
    var init, last := parts[..|parts| - 1], parts[|parts| - 1];
    if |parts| > 2 {
      JoinCons(init, sep);
      assert parts[1..][..|parts| - 2] == init[1..];
    }
  }

  function Messages(insights: seq<KeyInsight>): (r: seq<string>)
    ensures |r| == |insights|
    ensures forall i | 0 <= i < |r| :: r[i] == insights[i].message
  {
    seq(|insights|, i requires 0 <= i < |insights| => insights[i].message)
  }

  function Headline(overall: OverallStatus): (h: string)
    ensures h == ON_TRACK_HEADLINE <==> overall == MeetingTargets
    ensures h == ON_TRACK_HEADLINE || h == AT_RISK_HEADLINE
  {
    if overall == MeetingTargets then ON_TRACK_HEADLINE else AT_RISK_HEADLINE
  }

  function ExecutiveSummary(overall: OverallStatus, score: nat, insights: seq<KeyInsight>): (r: string)
    ensures var head := Headline(overall) + ". Score ";
      |r| > |head| && r[..|head|] == head
    ensures var body := Join(Messages(insights), "; ");
      |r| >= |body| && r[|r| - |body|..] == body
  {
    var head := Headline(overall) + ". Score ";
    var body := Join(Messages(insights), "; ");
    var r := head + NatToString(score) + ". " + body;
    assert r[..|head|] == head && r[|r| - |body|..] == body;
    r
  }

  function SlackMessage(overall: OverallStatus, score: nat): (r: string)
    ensures var head := "DMAIC \U{2022} " + Headline(overall) + " \U{2022} Score ";
      |r| > |head| + 1 && r[..|head|] == head && r[|r| - 1] == '.'
  {
    var head := "DMAIC \U{2022} " + Headline(overall) + " \U{2022} Score ";
    var r := head + NatToString(score) + ".";
    assert r[..|head|] == head;
    r
  }

  /** The headline says "at risk" exactly when some evaluation is BELOW_TARGET. */
  lemma HeadlineReportsRisk(evals: seq<MetricEvaluation>)
    ensures Headline(Overall(evals)) == AT_RISK_HEADLINE <==>
      exists i | 0 <= i < |evals| :: evals[i].status == BelowTarget
  {
    CountPositiveIff(evals, BelowTarget);
  }

  /**
   * The executive summary carries the score: after the headline and ". Score " come digits that read
   * back as the score, then ". " and the insight messages joined by "; ".
   */
  lemma ExecutiveSummaryCarriesScore(overall: OverallStatus, score: nat, insights: seq<KeyInsight>)
    ensures var head := Headline(overall) + ". Score ";
      var d := NatToString(score);
      var r := ExecutiveSummary(overall, score, insights);
      && |r| >= |head| + |d| + 2
      && r[..|head|] == head
      && (forall i | |head| <= i < |head| + |d| :: '0' <= r[i] <= '9')
      && ParseNat(r[|head|..|head| + |d|]) == score
      && r[|head| + |d|..|head| + |d| + 2] == ". "
      && r[|head| + |d| + 2..] == Join(Messages(insights), "; ")
  {
    var head := Headline(overall) + ". Score ";
    var d := NatToString(score);
    var body := Join(Messages(insights), "; ");
    var r := ExecutiveSummary(overall, score, insights);
    assert r == head + d + ". " + body;
    assert r[|head|..|head| + |d|] == d;
    assert r[|head| + |d|..|head| + |d| + 2] == ". ";
    assert r[|head| + |d| + 2..] == body;
    NatToStringRoundTrip(score);
  }

  /** The chat message carries the score: the digits between " Score " and the final "." read back as it. */
  lemma SlackMessageCarriesScore(overall: OverallStatus, score: nat)
    ensures var head := "DMAIC \U{2022} " + Headline(overall) + " \U{2022} Score ";
      var msg := SlackMessage(overall, score);
      && |head| < |msg|
      && msg[..|head|] == head
      && msg[|msg| - 1] == '.'
      && (forall i | |head| <= i < |msg| - 1 :: '0' <= msg[i] <= '9')
      && ParseNat(msg[|head|..|msg| - 1]) == score
      && msg[|head|..|msg| - 1] == NatToString(score)
  {
    var head := "DMAIC \U{2022} " + Headline(overall) + " \U{2022} Score ";
    var msg := SlackMessage(overall, score);
    assert msg == head + NatToString(score) + ".";
    assert msg[|head|..|msg| - 1] == NatToString(score);
    NatToStringRoundTrip(score);
  }

  /**
   * An empty list of evaluations scores 100, is MEETING_TARGETS, reports only the fallback insight and
   * summarises as "Performance on track. Score 100. Stable performance across tracked metrics".
   */
  lemma EmptyListSummary(pctText: real -> string)
    ensures Score([]) == 100
    ensures Overall([]) == MeetingTargets
    ensures KeyInsights([], pctText) == [FALLBACK]
    ensures ExecutiveSummary(Overall([]), Score([]), KeyInsights([], pctText))
         == ON_TRACK_HEADLINE + ". Score " + "100" + ". " + FALLBACK_MESSAGE
  {
    assert NatToString(10) == "10" by {
      assert NatToString(1) == "1";
    }
    assert NatToString(100) == "100";
    assert KeyInsights([], pctText) == [FALLBACK];
    assert Messages([FALLBACK]) == [FALLBACK_MESSAGE];
    assert Join([FALLBACK_MESSAGE], "; ") == FALLBACK_MESSAGE;
    assert Headline(MeetingTargets) == ON_TRACK_HEADLINE;
  }

  /** `summarize`: score, overall status, insights and the two texts. */
  method Summarize(evals: seq<MetricEvaluation>, pctText: real -> string)
    returns (score: int, overall: OverallStatus, insights: seq<KeyInsight>, execSummary: string, slack: string)
    ensures 0 <= score <= 100 && score == Score(evals)
    ensures overall == Overall(evals)
    ensures overall == AtRisk <==> exists i | 0 <= i < |evals| :: evals[i].status == BelowTarget
    ensures insights == KeyInsights(evals, pctText)
    ensures execSummary == ExecutiveSummary(overall, score, insights)
    ensures slack == SlackMessage(overall, score)
  {
    score := ComputeScore(evals);
    overall := Overall(evals);
    CountPositiveIff(evals, BelowTarget);
    insights := TopInsights(evals, pctText);
    execSummary := ExecutiveSummary(overall, score, insights);
    slack := SlackMessage(overall, score);
  }
}

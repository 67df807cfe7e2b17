/**
 The verify step `computeChanges` (static/js/gitfiti.js): collects the days with a
 positive count as commits, requires at least one use of the darkest bracket's
 count (14), and rewrites the first such count to the top of the colour scale (24).
 */
module Verification {
  import opened Brackets
  import opened Chart

  /** The count that marks a use of the darkest bracket. */
  const Placeholder: int := 14

  /** A commit to push; `date` stands for the day's UTC ISO-8601 string. */
  datatype Commit = Commit(date: int, count: int)

  /** The commits, their total, and whether a placeholder count was seen. */
  datatype Verdict = Verdict(commits: seq<Commit>, total: int, maxRangePresent: bool)

  lemma PlaceholderIsDarkestMinimum()
    ensures Placeholder == Table[|Table| - 1].min
  {
  }

  /** The records with a positive count, in chart order. */
  function Positives(data: seq<Day>): seq<Day> {
    if |data| == 0 then []
    else Positives(data[..|data| - 1]) + (if data[|data| - 1].count > 0 then [data[|data| - 1]] else [])
  }

  /** Filtering distributes over concatenation. */
  lemma {:induction false} PositivesAppend(a: seq<Day>, b: seq<Day>)
    ensures Positives(a + b) == Positives(a) + Positives(b)
    decreases |b|
  {
    if |b| > 0 {
      var b0 := b[..|b| - 1];
      assert (a + b)[..|a + b| - 1] == a + b0;
      PositivesAppend(a, b0);
    } else {
      assert a + b == a;
    }
  }

  /** A record is kept exactly when it is in the chart with a positive count. */
  lemma {:induction false} PositivesMembers(data: seq<Day>, x: Day)
    ensures x in Positives(data) <==> x in data && x.count > 0
  {
    if |data| > 0 {
      var prefix := data[..|data| - 1];
      PositivesMembers(prefix, x);
      assert data == prefix + [data[|data| - 1]];
    }
  }

  function DaySum(data: seq<Day>): int {
    if |data| == 0 then 0 else DaySum(data[..|data| - 1]) + data[|data| - 1].count
  }

  function CommitSum(commits: seq<Commit>): int {
    if |commits| == 0 then 0 else CommitSum(commits[..|commits| - 1]) + commits[|commits| - 1].count
  }

  /** `k` is the first record of `s` holding the placeholder count. */
  predicate FirstPlaceholder(s: seq<Day>, k: int) {
    && 0 <= k < |s|
    && s[k].count == Placeholder
    && forall j :: 0 <= j < k ==> s[j].count != Placeholder
  }

  /** Some record holds the placeholder count. */
  predicate HasPlaceholder(data: seq<Day>) {
    exists i :: 0 <= i < |data| && data[i].count == Placeholder
  }

  /** The last record decides whether a chart holds the placeholder beyond its prefix. */
  lemma HasPlaceholderSnoc(data: seq<Day>)
    requires |data| > 0
    ensures HasPlaceholder(data) <==> HasPlaceholder(data[..|data| - 1]) || data[|data| - 1].count == Placeholder
  {
  }

  /** Only positive records are kept, and the placeholder is positive, so filtering keeps every placeholder. */
  lemma {:induction false} PositivesKeepPlaceholder(data: seq<Day>)
    ensures HasPlaceholder(Positives(data)) <==> HasPlaceholder(data)
  {
    if |data| > 0 {
      var prefix := data[..|data| - 1];
      var d := data[|data| - 1];
      PositivesKeepPlaceholder(prefix);
      HasPlaceholderSnoc(data);
      var p0 := Positives(prefix);
      if d.count > 0 {
        assert Positives(data) == p0 + [d];
        HasPlaceholderSnoc(p0 + [d]);
        assert (p0 + [d])[..|p0|] == p0;
      } else {
        assert Positives(data) == p0;
      }
    }
  }

  /**
   The verify step over the chart data, as the loop in `computeChanges` computes it: one
   commit per positive record, and the first placeholder count becomes the
   scale maximum.
   */
  function ComputeChanges(data: seq<Day>): Verdict {
    if |data| == 0 then Verdict([], 0, false)
    else
      var v0 := ComputeChanges(data[..|data| - 1]);
      var d := data[|data| - 1];
      if d.count <= 0 then v0
      else
        var count := if !v0.maxRangePresent && d.count == Placeholder then MaxCount else d.count;
        Verdict(v0.commits + [Commit(d.date, count)], v0.total + count, v0.maxRangePresent || d.count == Placeholder)
  }

  /** The verify step succeeds exactly when some record holds the placeholder count. */
  lemma {:induction false} ComputeChangesSucceedsIff(data: seq<Day>)
    ensures ComputeChanges(data).maxRangePresent <==> HasPlaceholder(data)
  {
    if |data| > 0 {
      ComputeChangesSucceedsIff(data[..|data| - 1]);
      HasPlaceholderSnoc(data);
    }
  }

  /**
   The verify step emits exactly the positive records, in order, with their
   dates and counts, except that the first placeholder count (and only that
   one) becomes the scale maximum.
   */
  lemma {:induction false} ComputeChangesEmitsPositives(data: seq<Day>)
    ensures |ComputeChanges(data).commits| == |Positives(data)|
    ensures forall k :: 0 <= k < |Positives(data)| ==> ComputeChanges(data).commits[k].date == Positives(data)[k].date
    ensures forall k :: 0 <= k < |Positives(data)| ==>
      ComputeChanges(data).commits[k].count == if FirstPlaceholder(Positives(data), k) then MaxCount else Positives(data)[k].count
  {
    if |data| > 0 {
      var prefix := data[..|data| - 1];
      var d := data[|data| - 1];
      ComputeChangesEmitsPositives(prefix);
      if d.count > 0 {
        var v0 := ComputeChanges(prefix);
        var p0 := Positives(prefix);
        var c := ComputeChanges(data).commits;
        var p := Positives(data);
        assert p == p0 + [d];
        ComputeChangesSucceedsIff(prefix);
        PositivesKeepPlaceholder(prefix);
        assert c == v0.commits + [c[|c| - 1]];
        forall k | 0 <= k < |p0|
          ensures FirstPlaceholder(p, k) <==> FirstPlaceholder(p0, k)
        {
          assert forall j :: 0 <= j <= k ==> p[j] == p0[j];
        }
        if d.count == Placeholder && !HasPlaceholder(p0) {
          assert FirstPlaceholder(p, |p0|);
        } else if d.count == Placeholder {
          var j :| 0 <= j < |p0| && p0[j].count == Placeholder;
          assert p[j] == p0[j];
          assert !FirstPlaceholder(p, |p0|);
        }
      } else {
        assert Positives(data) == Positives(prefix);
      }
    }
  }

  /**
   The total is the sum of the emitted counts, which is the sum of the positive
   counts, plus the raise from placeholder to scale maximum when the verify
   step succeeds.
   */
  lemma {:induction false} ComputeChangesTotal(data: seq<Day>)
    ensures ComputeChanges(data).total == CommitSum(ComputeChanges(data).commits)
    ensures ComputeChanges(data).total ==
      DaySum(Positives(data)) + (if ComputeChanges(data).maxRangePresent then MaxCount - Placeholder else 0)
  {
    if |data| > 0 {
      var prefix := data[..|data| - 1];
      var d := data[|data| - 1];
      ComputeChangesTotal(prefix);
      if d.count > 0 {
        var p0 := Positives(prefix);
        var c := ComputeChanges(data).commits;
        assert Positives(data) == p0 + [d];
        assert (p0 + [d])[..|p0|] == p0;
        assert c[..|c| - 1] == ComputeChanges(prefix).commits;
      } else {
        assert Positives(data) == Positives(prefix);
      }
    }
  }

  /** Two placeholders and a 3: the first 14 becomes 24, the second stays 14, and the total is 41. */
  lemma TwoPlaceholdersExample()
    ensures var v := ComputeChanges([Day(0, 14), Day(1, 14), Day(2, 3)]);
      v == Verdict([Commit(0, 24), Commit(1, 14), Commit(2, 3)], 41, true)
  {
    var data := [Day(0, 14), Day(1, 14), Day(2, 3)];
    assert data[..2] == [Day(0, 14), Day(1, 14)];
    assert data[..2][..1] == [Day(0, 14)];
    assert ComputeChanges([Day(0, 14)]) == Verdict([Commit(0, 24)], 24, true);
    assert ComputeChanges(data[..2]) == Verdict([Commit(0, 24), Commit(1, 14)], 38, true);
  }

  /** Without a placeholder (a 10 is the darkest count used) the verify step fails. */
  lemma NoPlaceholderExample()
    ensures !ComputeChanges([Day(0, 10), Day(1, 15), Day(2, 0)]).maxRangePresent
  {
    var data := [Day(0, 10), Day(1, 15), Day(2, 0)];
    ComputeChangesSucceedsIff(data);
  }

  /** A chart holding the placeholder has a first placeholder record. */
  lemma {:induction false} FirstPlaceholderExists(s: seq<Day>)
    requires HasPlaceholder(s)
    ensures exists k :: FirstPlaceholder(s, k)
  {
    if s[0].count == Placeholder {
      assert FirstPlaceholder(s, 0);
    } else {
      var i :| 0 <= i < |s| && s[i].count == Placeholder;
      assert s[1..][i - 1] == s[i];
      FirstPlaceholderExists(s[1..]);
      var k :| FirstPlaceholder(s[1..], k);
      assert FirstPlaceholder(s, k + 1);
    }
  }

  /**
   Every emitted commit has a positive count, and a successful verify step
   emits a commit at the scale maximum.
   */
  lemma StagedCommits(data: seq<Day>)
    ensures forall k :: 0 <= k < |ComputeChanges(data).commits| ==> ComputeChanges(data).commits[k].count > 0
    ensures ComputeChanges(data).maxRangePresent ==>
      exists k :: 0 <= k < |ComputeChanges(data).commits| && ComputeChanges(data).commits[k].count == MaxCount
  {
    var v := ComputeChanges(data);
    var q := Positives(data);
    ComputeChangesEmitsPositives(data);
    forall k | 0 <= k < |q|
      ensures q[k].count > 0
    {
      PositivesMembers(data, q[k]);
    }
    if v.maxRangePresent {
      ComputeChangesSucceedsIff(data);
      PositivesKeepPlaceholder(data);
      FirstPlaceholderExists(q);
      var k :| FirstPlaceholder(q, k);
      assert v.commits[k].count == MaxCount;
    }
  }
}

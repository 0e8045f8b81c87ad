/** What the result-list ranking computes, proved against the reference
    definitions of module Scoring. */
module ScoringProofs {
  import opened Wrappers
  import opened Scoring

  /** How many assignments of `linked` have type `t`. */
  ghost function TypeCount(linked: seq<Assignment>, t: AssignmentType): nat
    decreases |linked|
  {
    if |linked| == 0 then 0
    else (if linked[0].assignmentType == t then 1 else 0) + TypeCount(linked[1..], t)
  }

  lemma {:induction false} LinkedTypeCount(assignments: seq<Assignment>, f: FacetteId, t: AssignmentType)
    ensures TypeCount(Linked(assignments, f), t) == LinkCount(assignments, f, t)
    decreases |assignments|
  {
    if |assignments| > 0 {
      LinkedTypeCount(assignments[1..], f, t);
      if f in assignments[0].facettes {
        var linked := Linked(assignments, f);
        assert linked[0] == assignments[0] && linked[1..] == Linked(assignments[1..], f);
      }
    }
  }

  /** The query for a facette's assignments keeps every assignment linked
      to the facette as often as the table holds it, and no other. */
  lemma {:induction false} LinkedMeaning(assignments: seq<Assignment>, f: FacetteId)
    ensures forall a :: multiset(Linked(assignments, f))[a] == if f in a.facettes then multiset(assignments)[a] else 0
    decreases |assignments|
  {
    if |assignments| > 0 {
      LinkedMeaning(assignments[1..], f);
      assert assignments == [assignments[0]] + assignments[1..];
      assert multiset(assignments) == multiset{assignments[0]} + multiset(assignments[1..]);
    }
  }

  /** The query keeps table order: querying a table split in two is
      querying each part in turn, and a single assignment is kept exactly
      when it is linked. */
  lemma {:induction false} LinkedConcat(as1: seq<Assignment>, as2: seq<Assignment>, f: FacetteId)
    ensures Linked(as1 + as2, f) == Linked(as1, f) + Linked(as2, f)
    ensures forall a :: Linked([a], f) == if f in a.facettes then [a] else []
    decreases |as1|
  {
    forall a ensures Linked([a], f) == if f in a.facettes then [a] else [] {
      assert [a][1..] == [];
    }
    if |as1| == 0 {
      assert as1 + as2 == as2;
    } else {
      assert (as1 + as2)[0] == as1[0];
      assert (as1 + as2)[1..] == as1[1..] + as2;
      LinkedConcat(as1[1..], as2, f);
      if f in as1[0].facettes {
        assert [as1[0]] + (Linked(as1[1..], f) + Linked(as2, f)) == ([as1[0]] + Linked(as1[1..], f)) + Linked(as2, f);
      }
    }
  }

  /** The inner loop over a list of assignments fails exactly when one of
      them has a type without a slot; otherwise it adds `w` once per
      assignment of each type and keeps the slot set. */
  lemma {:induction false} AddWeightSteps(scores: Scores, w: int, linked: seq<Assignment>)
    ensures var r := AddWeight(scores, w, linked);
      && (r.Success? <==> forall a | a in linked :: a.assignmentType in scores)
      && (r.Success? ==> r.value.Keys == scores.Keys
                         && forall t | t in scores :: r.value[t] == scores[t] + w * TypeCount(linked, t))
      && (r.Failure? ==> r.error.UnknownAssignmentType? && r.error.assignmentType !in scores
                         && exists a | a in linked :: a.assignmentType == r.error.assignmentType)
    decreases |linked|
  {
    if |linked| > 0 {
      var a := linked[0];
      var rest := linked[1..];
      assert linked == [a] + rest;
      var t0 := a.assignmentType;
      if t0 in scores {
        var next := scores[t0 := scores[t0] + 1 * w];
        AddWeightSteps(next, w, rest);
        var r := AddWeight(next, w, rest);
        if r.Success? {
          forall t | t in scores
            ensures r.value[t] == scores[t] + w * TypeCount(linked, t)
          {
            if t == t0 {
              assert w * (1 + TypeCount(rest, t)) == w + w * TypeCount(rest, t);
            }
          }
        }
      }
    }
  }

  /** The same, for the assignments linked to facette `f`, counted against
      the whole assignment table. */
  lemma AddWeightMeaning(scores: Scores, w: int, assignments: seq<Assignment>, f: FacetteId)
    ensures var r := AddWeight(scores, w, Linked(assignments, f));
      && (r.Success? <==> forall a | a in assignments && f in a.facettes :: a.assignmentType in scores)
      && (r.Success? ==> r.value.Keys == scores.Keys
                         && forall t | t in scores :: r.value[t] == scores[t] + w * LinkCount(assignments, f, t))
      && (r.Failure? ==> r.error.UnknownAssignmentType? && r.error.assignmentType !in scores
                         && exists a | a in assignments && f in a.facettes :: a.assignmentType == r.error.assignmentType)
  {
    AddWeightSteps(scores, w, Linked(assignments, f));
    forall t {
      LinkedTypeCount(assignments, f, t);
    }
  }

  /** The loop over selections fails exactly when some label or linked type
      is missing, and names a missing one; otherwise each slot grows by the
      reference score of its type. */
  lemma {:induction false} AccumulateMeaning(scores: Scores, weights: map<WeightLabel, int>, selections: seq<Selection>, assignments: seq<Assignment>)
    ensures var r := Accumulate(scores, weights, selections, assignments);
      && (r.Success? <==> Resolvable(scores.Keys, weights, selections, assignments))
      && (r.Success? ==> WeightsKnown(weights, selections) && r.value.Keys == scores.Keys
                         && forall t | t in scores :: r.value[t] == scores[t] + ExpectedScore(t, weights, selections, assignments))
      && (r.Failure? ==> Culprit(scores.Keys, weights, selections, assignments, r.error))
    decreases |selections|
  {
    if |selections| > 0 {
      var sel := selections[0];
      var rest := selections[1..];
      assert selections == [sel] + rest;
      if sel.weight in weights {
        var w := weights[sel.weight];
        AddWeightMeaning(scores, w, assignments, sel.facette);
        var inner := AddWeight(scores, w, Linked(assignments, sel.facette));
        if inner.Success? {
          var next := inner.value;
          AccumulateMeaning(next, weights, rest, assignments);
          var r := Accumulate(next, weights, rest, assignments);
          assert Accumulate(scores, weights, selections, assignments) == r;
          if r.Failure? {
            match r.error
            case UnknownWeight(l) =>
              var s :| s in rest && s.weight == l;
              assert s in selections;
            case UnknownAssignmentType(t) =>
              var s, a :| s in rest && a in assignments && s.facette in a.facettes && a.assignmentType == t;
              assert s in selections;
          }
        } else {
          var a :| a in assignments && sel.facette in a.facettes && a.assignmentType == inner.error.assignmentType;
          assert sel in selections;
        }
      }
    }
  }

  /** The score vector of one choosable is the reference vector, and it is
      computed exactly when everything it needs is configured. */
  lemma ScoresByTypeMeaning(cfg: Config, selections: seq<Selection>, assignments: seq<Assignment>)
    ensures var r := ScoresByType(cfg, selections, assignments);
      && (r.Success? <==> Resolvable(KnownTypes(cfg), cfg.weights, selections, assignments))
      && (r.Success? ==> WeightsKnown(cfg.weights, selections) && r.value == ExpectedScores(cfg, selections, assignments))
      && (r.Failure? ==> Culprit(KnownTypes(cfg), cfg.weights, selections, assignments, r.error))
  {
    var zero := ZeroScores(cfg.choices);
    AccumulateMeaning(zero, cfg.weights, selections, assignments);
    var r := ScoresByType(cfg, selections, assignments);
    if r.Success? {
      var e := ExpectedScores(cfg, selections, assignments);
      assert r.value.Keys == e.Keys;
      assert forall t | t in e :: r.value[t] == e[t];
    }
  }

  /** The loop over choosables, started from an arbitrary `ranking`. */
  lemma {:induction false} RankAllMeaning(cfg: Config, ranking: map<ChoosablePk, int>, choosables: seq<ChoosablePk>,
                                         selections: seq<Selection>, assignments: seq<Assignment>)
    ensures var r := RankAll(cfg, ranking, choosables, selections, assignments);
            var s := ScoresByType(cfg, selections, assignments);
      && (|choosables| == 0 ==> r == Success(ranking))
      && (|choosables| > 0 && s.Failure? ==> r == Failure(s.error))
      && (|choosables| > 0 && s.Success? ==>
            r.Success? && r.value.Keys == ranking.Keys + (set c | c in choosables)
            && forall c | c in r.value :: r.value[c] == if c in choosables then cfg.getScore(s.value) else ranking[c])
    decreases |choosables|
  {
    var s := ScoresByType(cfg, selections, assignments);
    if |choosables| > 0 && s.Success? {
      var c0 := choosables[0];
      var rest := choosables[1..];
      assert choosables == [c0] + rest;
      var next := ranking[c0 := cfg.getScore(s.value)];
      RankAllMeaning(cfg, next, rest, selections, assignments);
      if |rest| == 0 {
        assert (set c | c in choosables) == {c0};
      }
    }
  }

  /** `ranking` gets one entry per choosable pk and no other. Whenever there
      is a choosable, the ranking exists exactly when the score vector can be
      computed, and every entry is `get_score` of the reference vector. With
      no choosables the loop never runs, so nothing is looked up and nothing
      can fail. */
  lemma RankingMeaning(cfg: Config, choosables: seq<ChoosablePk>, selections: seq<Selection>, assignments: seq<Assignment>)
    ensures var r := Ranking(cfg, choosables, selections, assignments);
      && (|choosables| == 0 ==> r == Success(map[]))
      && (|choosables| > 0 ==> (r.Success? <==> Resolvable(KnownTypes(cfg), cfg.weights, selections, assignments)))
      && (|choosables| > 0 && r.Failure? ==> Culprit(KnownTypes(cfg), cfg.weights, selections, assignments, r.error))
      && (r.Success? ==> r.value.Keys == set c | c in choosables)
      && (r.Success? && |choosables| > 0 ==>
            WeightsKnown(cfg.weights, selections)
            && forall c | c in r.value :: r.value[c] == cfg.getScore(ExpectedScores(cfg, selections, assignments)))
  {
    RankAllMeaning(cfg, map[], choosables, selections, assignments);
    ScoresByTypeMeaning(cfg, selections, assignments);
  }

  /** The inner loop never looks at the assignment's targets, so every
      choosable gets the same rank, whichever choosables the assignments
      point at. */
  lemma SameRankForEveryChoosable(cfg: Config, choosables: seq<ChoosablePk>, selections: seq<Selection>, assignments: seq<Assignment>,
                                  c1: ChoosablePk, c2: ChoosablePk)
    requires Ranking(cfg, choosables, selections, assignments).Success?
    requires c1 in choosables && c2 in choosables
    ensures var ranking := Ranking(cfg, choosables, selections, assignments).value;
      GetRank(ranking, c1) == GetRank(ranking, c2)
  {
    RankingMeaning(cfg, choosables, selections, assignments);
  }

  /** Two assignment lists that differ only in their targets. */
  ghost predicate SameButTargets(as1: seq<Assignment>, as2: seq<Assignment>)
  {
    |as1| == |as2|
    && forall i | 0 <= i < |as1| :: as1[i].facettes == as2[i].facettes && as1[i].assignmentType == as2[i].assignmentType
  }

  lemma {:induction false} LinkedSameButTargets(as1: seq<Assignment>, as2: seq<Assignment>, f: FacetteId)
    requires SameButTargets(as1, as2)
    ensures SameButTargets(Linked(as1, f), Linked(as2, f))
    decreases |as1|
  {
    if |as1| > 0 {
      var rest1, rest2 := as1[1..], as2[1..];
      assert SameButTargets(rest1, rest2);
      LinkedSameButTargets(rest1, rest2, f);
      if f in as1[0].facettes {
        assert Linked(as1, f) == [as1[0]] + Linked(rest1, f);
        assert Linked(as2, f) == [as2[0]] + Linked(rest2, f);
      } else {
        assert Linked(as1, f) == Linked(rest1, f);
        assert Linked(as2, f) == Linked(rest2, f);
      }
    }
  }

  lemma {:induction false} AddWeightSameButTargets(scores: Scores, w: int, l1: seq<Assignment>, l2: seq<Assignment>)
    requires SameButTargets(l1, l2)
    ensures AddWeight(scores, w, l1) == AddWeight(scores, w, l2)
    decreases |l1|
  {
    if |l1| > 0 {
      assert SameButTargets(l1[1..], l2[1..]);
      var t := l1[0].assignmentType;
      if t in scores {
        AddWeightSameButTargets(scores[t := scores[t] + 1 * w], w, l1[1..], l2[1..]);
      }
    }
  }

  lemma AddWeightIgnoresTargets(scores: Scores, w: int, as1: seq<Assignment>, as2: seq<Assignment>, f: FacetteId)
    requires SameButTargets(as1, as2)
    ensures AddWeight(scores, w, Linked(as1, f)) == AddWeight(scores, w, Linked(as2, f))
  {
    LinkedSameButTargets(as1, as2, f);
    AddWeightSameButTargets(scores, w, Linked(as1, f), Linked(as2, f));
  }

  lemma {:induction false} AccumulateIgnoresTargets(scores: Scores, weights: map<WeightLabel, int>, selections: seq<Selection>,
                                                   as1: seq<Assignment>, as2: seq<Assignment>)
    requires SameButTargets(as1, as2)
    ensures Accumulate(scores, weights, selections, as1) == Accumulate(scores, weights, selections, as2)
    decreases |selections|
  {
    if |selections| > 0 && selections[0].weight in weights {
      var sel := selections[0];
      var w := weights[sel.weight];
      AddWeightIgnoresTargets(scores, w, as1, as2, sel.facette);
      var inner := AddWeight(scores, w, Linked(as1, sel.facette));
      if inner.Success? {
        AccumulateIgnoresTargets(inner.value, weights, selections[1..], as1, as2);
      }
    }
  }

  /** Changing which choosables the assignments target changes nothing in
      the ranking: a choosable no assignment targets is ranked exactly like
      one every assignment targets. */
  lemma TargetsIgnored(cfg: Config, choosables: seq<ChoosablePk>, selections: seq<Selection>, as1: seq<Assignment>, as2: seq<Assignment>)
    requires SameButTargets(as1, as2)
    ensures Ranking(cfg, choosables, selections, as1) == Ranking(cfg, choosables, selections, as2)
  {
    AccumulateIgnoresTargets(ZeroScores(cfg.choices), cfg.weights, selections, as1, as2);
    RankAllMeaning(cfg, map[], choosables, selections, as1);
    RankAllMeaning(cfg, map[], choosables, selections, as2);
    var r1 := Ranking(cfg, choosables, selections, as1);
    var r2 := Ranking(cfg, choosables, selections, as2);
    if r1.Success? && |choosables| > 0 {
      assert r2.Success? && r1.value.Keys == r2.value.Keys;
      assert forall c | c in r1.value :: r1.value[c] == r2.value[c];
      assert r1.value == r2.value;
    }
  }

  /** With no selections every slot stays 0 and every choosable is ranked
      with `get_score` of the all-zero vector. */
  lemma NoSelectionsAllZero(cfg: Config, choosables: seq<ChoosablePk>, assignments: seq<Assignment>)
    ensures ScoresByType(cfg, [], assignments) == Success(ZeroScores(cfg.choices))
    ensures var r := Ranking(cfg, choosables, [], assignments);
      r.Success? && r.value.Keys == (set c | c in choosables)
      && forall c | c in r.value :: r.value[c] == cfg.getScore(ZeroScores(cfg.choices))
  {
    RankAllMeaning(cfg, map[], choosables, [], assignments);
  }

  /** A selection with an unconfigured weight label aborts the ranking; it is
      not counted as weight 0. */
  lemma UnknownWeightAborts(cfg: Config, choosables: seq<ChoosablePk>, selections: seq<Selection>, assignments: seq<Assignment>, i: nat)
    requires |choosables| > 0
    requires i < |selections| && selections[i].weight !in cfg.weights
    ensures ScoresByType(cfg, selections, assignments).Failure?
    ensures Ranking(cfg, choosables, selections, assignments).Failure?
    ensures ResultList(cfg, choosables, selections, assignments).Failure?
  {
    assert selections[i] in selections;
    ScoresByTypeMeaning(cfg, selections, assignments);
    RankingMeaning(cfg, choosables, selections, assignments);
  }

  /** Rank lookup: a choosable of the catalog reads its ranking entry, which
      is `get_score` of the reference vector; any other pk reads the
      sentinel. */
  lemma RankLookup(cfg: Config, choosables: seq<ChoosablePk>, selections: seq<Selection>, assignments: seq<Assignment>, pk: ChoosablePk)
    requires Ranking(cfg, choosables, selections, assignments).Success?
    ensures var ranking := Ranking(cfg, choosables, selections, assignments).value;
      && (pk in choosables ==> WeightsKnown(cfg.weights, selections)
                               && GetRank(ranking, pk) == cfg.getScore(ExpectedScores(cfg, selections, assignments)))
      && (pk !in choosables ==> GetRank(ranking, pk) == Unranked)
  {
    RankingMeaning(cfg, choosables, selections, assignments);
  }

  /** `get_choosables` lists every choosable in query order, each carrying
      the same rank: `get_score` of the reference vector. */
  lemma ResultListMeaning(cfg: Config, choosables: seq<ChoosablePk>, selections: seq<Selection>, assignments: seq<Assignment>)
    ensures var r := ResultList(cfg, choosables, selections, assignments);
      && (|choosables| == 0 ==> r == Success([]))
      && (|choosables| > 0 ==> (r.Success? <==> Resolvable(KnownTypes(cfg), cfg.weights, selections, assignments)))
      && (r.Success? ==> |r.value| == |choosables|)
      && (r.Success? && |choosables| > 0 ==>
            WeightsKnown(cfg.weights, selections)
            && forall i | 0 <= i < |r.value| ::
                 r.value[i] == RankedChoosable(choosables[i], cfg.getScore(ExpectedScores(cfg, selections, assignments))))
  {
    RankingMeaning(cfg, choosables, selections, assignments);
    var r := ResultList(cfg, choosables, selections, assignments);
    if r.Success? && |choosables| > 0 {
      forall i | 0 <= i < |r.value|
        ensures r.value[i] == RankedChoosable(choosables[i], cfg.getScore(ExpectedScores(cfg, selections, assignments)))
      {
        assert choosables[i] in choosables;
      }
    }
  }

  // ---------------------------------------------------------------------
  // Selection order

  lemma {:induction false} ExpectedScoreRemove(t: AssignmentType, weights: map<WeightLabel, int>, selections: seq<Selection>,
                                              assignments: seq<Assignment>, k: nat)
    requires WeightsKnown(weights, selections) && k < |selections|
    ensures WeightsKnown(weights, selections[..k] + selections[k + 1..])
    ensures ExpectedScore(t, weights, selections, assignments)
         == Contribution(t, weights, assignments, selections[k]) + ExpectedScore(t, weights, selections[..k] + selections[k + 1..], assignments)
    decreases k
  {
    var removed := selections[..k] + selections[k + 1..];
    assert forall s | s in removed :: s in selections;
    if k == 0 {
      assert removed == selections[1..];
    } else {
      var tail := selections[1..];
      ExpectedScoreRemove(t, weights, tail, assignments, k - 1);
      assert removed == [selections[0]] + (tail[..k - 1] + tail[k..]);
    }
  }

  /** Removing the first element of `s1` and a matching element of `s2`
      keeps two equal multisets equal. */
  lemma MultisetRemoveMatching(s1: seq<Selection>, s2: seq<Selection>, k: nat)
    requires multiset(s1) == multiset(s2)
    requires |s1| > 0 && k < |s2| && s2[k] == s1[0]
    ensures multiset(s1[1..]) == multiset(s2[..k] + s2[k + 1..])
  {
    var x := s1[0];
    assert s2 == s2[..k] + [x] + s2[k + 1..];
    assert multiset(s2) == multiset(s2[..k]) + multiset([x]) + multiset(s2[k + 1..]);
    assert multiset(s2[..k] + s2[k + 1..]) == multiset(s2[..k]) + multiset(s2[k + 1..]);
    assert s1 == [x] + s1[1..];
    assert multiset(s1) == multiset([x]) + multiset(s1[1..]);
    assert multiset(s1[1..]) == multiset(s1) - multiset{x};
    assert multiset(s2[..k] + s2[k + 1..]) == multiset(s2) - multiset{x};
  }

  /** The reference score is a sum over selections, so reordering the
      selections leaves it unchanged. */
  lemma {:induction false} ExpectedScorePermutation(t: AssignmentType, weights: map<WeightLabel, int>, s1: seq<Selection>, s2: seq<Selection>,
                                                   assignments: seq<Assignment>)
    requires multiset(s1) == multiset(s2)
    requires WeightsKnown(weights, s1)
    ensures WeightsKnown(weights, s2)
    ensures ExpectedScore(t, weights, s1, assignments) == ExpectedScore(t, weights, s2, assignments)
    decreases |s1|
  {
    forall s | s in s2
      ensures s in s1
    {
      assert s in multiset(s2);
    }
    if |s1| == 0 {
      assert |multiset(s2)| == 0;
    } else {
      var x := s1[0];
      assert x in multiset(s2);
      var k :| 0 <= k < |s2| && s2[k] == x;
      ExpectedScoreRemove(t, weights, s2, assignments, k);
      MultisetRemoveMatching(s1, s2, k);
      ExpectedScorePermutation(t, weights, s1[1..], s2[..k] + s2[k + 1..], assignments);
    }
  }

  /** Whether the score vector can be computed, and its value when it can,
      do not depend on the order of the session's selections. (Which missing
      label is reported first does.) */
  lemma SelectionOrderIrrelevant(cfg: Config, s1: seq<Selection>, s2: seq<Selection>, assignments: seq<Assignment>)
    requires multiset(s1) == multiset(s2)
    ensures ScoresByType(cfg, s1, assignments).Success? == ScoresByType(cfg, s2, assignments).Success?
    ensures ScoresByType(cfg, s1, assignments).Success? ==> ScoresByType(cfg, s1, assignments).value == ScoresByType(cfg, s2, assignments).value
  {
    forall s
      ensures s in s1 <==> s in s2
    {
      assert s in s1 <==> s in multiset(s1);
      assert s in s2 <==> s in multiset(s2);
    }
    ScoresByTypeMeaning(cfg, s1, assignments);
    ScoresByTypeMeaning(cfg, s2, assignments);
    var r1 := ScoresByType(cfg, s1, assignments);
    if r1.Success? {
      forall t | t in cfg.choices
        ensures ExpectedScore(t, cfg.weights, s1, assignments) == ExpectedScore(t, cfg.weights, s2, assignments)
      {
        ExpectedScorePermutation(t, cfg.weights, s1, s2, assignments);
      }
    }
  }

  // ---------------------------------------------------------------------
  // Weight monotonicity

  lemma {:induction false} ExpectedScoreMonotone(t: AssignmentType, weights: map<WeightLabel, int>, selections: seq<Selection>,
                                                assignments: seq<Assignment>, i: nat, newWeight: WeightLabel)
    requires WeightsKnown(weights, selections) && i < |selections|
    requires newWeight in weights && weights[selections[i].weight] <= weights[newWeight]
    ensures WeightsKnown(weights, selections[i := selections[i].(weight := newWeight)])
    ensures ExpectedScore(t, weights, selections, assignments)
         <= ExpectedScore(t, weights, selections[i := selections[i].(weight := newWeight)], assignments)
    decreases i
  {
    var changed := selections[i := selections[i].(weight := newWeight)];
    assert forall s | s in changed :: s == changed[i] || s in selections;
    if i == 0 {
      assert changed[1..] == selections[1..];
      var n := LinkCount(assignments, selections[0].facette, t);
      assert weights[selections[0].weight] * n <= weights[newWeight] * n;
    } else {
      assert changed[1..] == selections[1..][i - 1 := selections[i].(weight := newWeight)];
      ExpectedScoreMonotone(t, weights, selections[1..], assignments, i - 1, newWeight);
    }
  }

  /** Giving a selection a label with a greater or equal numeric weight never
      lowers the score of any type. */
  lemma WeightIncreaseMonotone(cfg: Config, selections: seq<Selection>, assignments: seq<Assignment>, i: nat, newWeight: WeightLabel)
    requires ScoresByType(cfg, selections, assignments).Success?
    requires i < |selections| && selections[i].weight in cfg.weights && newWeight in cfg.weights
    requires cfg.weights[selections[i].weight] <= cfg.weights[newWeight]
    ensures var changed := selections[i := selections[i].(weight := newWeight)];
      var before := ScoresByType(cfg, selections, assignments);
      var after := ScoresByType(cfg, changed, assignments);
      after.Success? && after.value.Keys == before.value.Keys
      && forall t | t in before.value :: before.value[t] <= after.value[t]
  {
    var changed := selections[i := selections[i].(weight := newWeight)];
    ScoresByTypeMeaning(cfg, selections, assignments);
    ScoresByTypeMeaning(cfg, changed, assignments);
    assert selections[i] in selections;
    forall s | s in changed
      ensures s.facette in (set x | x in selections :: x.facette) && s.weight in cfg.weights
    {
      if s != changed[i] {
        assert s in selections;
      } else {
        assert s.facette == selections[i].facette;
      }
    }
    forall t | t in cfg.choices
      ensures ExpectedScore(t, cfg.weights, selections, assignments) <= ExpectedScore(t, cfg.weights, changed, assignments)
    {
      ExpectedScoreMonotone(t, cfg.weights, selections, assignments, i, newWeight);
    }
  }

  // ---------------------------------------------------------------------
  // A worked scenario: facette 1 selected "high" (3) and facette 2 selected
  // "low" (1); one "supports" assignment on facette 1 and one "opposes"
  // assignment on facette 2, both targeting choosable 10 only.

  function ScenarioConfig(): Config
  {
    Config(["supports", "opposes"], map["high" := 3, "low" := 1],
           (s: Scores) => if "supports" in s && "opposes" in s then s["supports"] - s["opposes"] else 0)
  }

  function ScenarioSelections(): seq<Selection>
  {
    [Selection(1, "high"), Selection(2, "low")]
  }

  function ScenarioAssignments(): seq<Assignment>
  {
    [Assignment({1}, "supports", {10}), Assignment({2}, "opposes", {10})]
  }

  lemma ScenarioScores()
    ensures ScoresByType(ScenarioConfig(), ScenarioSelections(), ScenarioAssignments()) == Success(map["supports" := 3, "opposes" := 1])
  {
    var cfg := ScenarioConfig();
    var assignments := ScenarioAssignments();
    var zero := ZeroScores(cfg.choices);
    assert zero == map["supports" := 0, "opposes" := 0];
    assert Linked(assignments, 1) == [assignments[0]];
    assert Linked(assignments, 2) == [assignments[1]];
    assert [assignments[0]][1..] == [] && [assignments[1]][1..] == [];
    var afterFirst := map["supports" := 3, "opposes" := 0];
    assert zero["supports" := zero["supports"] + 1 * 3] == afterFirst;
    assert AddWeight(zero, 3, [assignments[0]]) == AddWeight(afterFirst, 3, []);
    var scores := map["supports" := 3, "opposes" := 1];
    assert afterFirst["opposes" := afterFirst["opposes"] + 1 * 1] == scores;
    assert AddWeight(afterFirst, 1, [assignments[1]]) == AddWeight(scores, 1, []);
    assert Accumulate(afterFirst, cfg.weights, ScenarioSelections()[1..], assignments) == Success(scores);
  }

  /** The score vector is supports 3, opposes 1; with a supports-minus-opposes
      reduction, choosable 20, which nothing targets, is ranked 2 like
      choosable 10. */
  lemma UntargetedScenario()
    ensures ScoresByType(ScenarioConfig(), ScenarioSelections(), ScenarioAssignments()) == Success(map["supports" := 3, "opposes" := 1])
    ensures Ranking(ScenarioConfig(), [10, 20], ScenarioSelections(), ScenarioAssignments()) == Success(map[10 := 2, 20 := 2])
  {
    ScenarioScores();
    var cfg := ScenarioConfig();
    var scores := map["supports" := 3, "opposes" := 1];
    assert cfg.getScore(scores) == 2;
    RankAllMeaning(cfg, map[], [10, 20], ScenarioSelections(), ScenarioAssignments());
    var r := Ranking(cfg, [10, 20], ScenarioSelections(), ScenarioAssignments());
    assert (set c | c in [10, 20]) == {10, 20};
    assert r.value == map[10 := 2, 20 := 2];
  }
}

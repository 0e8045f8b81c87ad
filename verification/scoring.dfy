/** The result-list ranking of web/rest/widget.py: `get_choosables` of the
    result-list widget serializer, which scores every choosable against the
    session's facette selections, and `get_rank` of the ranked choosable
    serializer, which reads a choosable's rank back out of that ranking.

    The database queries become inputs: the choosables, the session's
    selections and the facette assignments are sequences, and the settings
    `WEIGHT_MAP`, the assignment-type choices and `AssignmentType.get_score`
    are gathered in a `Config`. */
module Scoring {
  import opened Wrappers

  type AssignmentType = string
  type WeightLabel = string
  type FacetteId = nat
  type ChoosablePk = nat

  /** Per-assignment-type score accumulator (`scores_by_type`). */
  type Scores = map<AssignmentType, int>

  /** The rank reported for a choosable that has no ranking entry. */
  const Unranked: int := 9999999999

  /** A facette selected by the session, with its symbolic weight. */
  datatype Selection = Selection(facette: FacetteId, weight: WeightLabel)

  /** Links facettes to an assignment type and to target choosables. */
  datatype Assignment = Assignment(facettes: set<FacetteId>, assignmentType: AssignmentType, targets: set<ChoosablePk>)

  /** The two KeyErrors the scoring loop can raise. */
  datatype ScoreError =
    | UnknownWeight(weightLabel: WeightLabel)
    | UnknownAssignmentType(assignmentType: AssignmentType)

  /** Static configuration: the identifiers of `AssignmentType.choices`,
      `WEIGHT_MAP`, and the opaque reduction `AssignmentType.get_score`. */
  datatype Config = Config(choices: seq<AssignmentType>, weights: map<WeightLabel, int>, getScore: Scores -> int)

  /** One serialized entry of the result list. */
  datatype RankedChoosable = RankedChoosable(pk: ChoosablePk, rank: int)

  /** One zero slot per assignment-type identifier. */
  function ZeroScores(choices: seq<AssignmentType>): (r: Scores)
    ensures r.Keys == set t | t in choices
    ensures forall t | t in r :: r[t] == 0
  {
    map t | t in choices :: 0
  }

  /** The assignments linked to facette `f`, in query order
      (`FacetteAssignment.objects.filter(facettes__in=[facette])`). */
  function Linked(assignments: seq<Assignment>, f: FacetteId): (r: seq<Assignment>)
    ensures |r| <= |assignments|
    ensures forall a :: a in r <==> a in assignments && f in a.facettes
  {
    if |assignments| == 0 then []
    else if f in assignments[0].facettes then [assignments[0]] + Linked(assignments[1..], f)
    else Linked(assignments[1..], f)
  }

  /** The inner loop: every linked assignment adds `1 * w` to the slot of
      its type; a type without a slot raises a KeyError. */
  function AddWeight(scores: Scores, w: int, linked: seq<Assignment>): Result<Scores, ScoreError>
    decreases |linked|
  {
    if |linked| == 0 then Success(scores)
    else
      var t := linked[0].assignmentType;
      if t !in scores then Failure(UnknownAssignmentType(t))
      else AddWeight(scores[t := scores[t] + 1 * w], w, linked[1..])
  }

  /** The loop over the session's selections: look the weight up in
      `WEIGHT_MAP` (a KeyError when absent), then add it for every linked
      assignment. */
  function Accumulate(scores: Scores, weights: map<WeightLabel, int>, selections: seq<Selection>, assignments: seq<Assignment>)
    : Result<Scores, ScoreError>
    decreases |selections|
  {
    if |selections| == 0 then Success(scores)
    else
      var sel := selections[0];
      if sel.weight !in weights then Failure(UnknownWeight(sel.weight))
      else
        match AddWeight(scores, weights[sel.weight], Linked(assignments, sel.facette))
        case Failure(e) => Failure(e)
        case Success(next) => Accumulate(next, weights, selections[1..], assignments)
  }

  /** The score vector computed in one iteration of the loop over
      choosables. Nothing about the choosable enters it. */
  function ScoresByType(cfg: Config, selections: seq<Selection>, assignments: seq<Assignment>): Result<Scores, ScoreError>
  {
    Accumulate(ZeroScores(cfg.choices), cfg.weights, selections, assignments)
  }

  /** The loop over choosables, extending `ranking` one pk at a time. */
  function RankAll(cfg: Config, ranking: map<ChoosablePk, int>, choosables: seq<ChoosablePk>,
                   selections: seq<Selection>, assignments: seq<Assignment>): Result<map<ChoosablePk, int>, ScoreError>
    decreases |choosables|
  {
    if |choosables| == 0 then Success(ranking)
    else
      match ScoresByType(cfg, selections, assignments)
      case Failure(e) => Failure(e)
      case Success(scores) => RankAll(cfg, ranking[choosables[0] := cfg.getScore(scores)], choosables[1..], selections, assignments)
  }

  /** The `ranking` dictionary built by `get_choosables`. */
  function Ranking(cfg: Config, choosables: seq<ChoosablePk>, selections: seq<Selection>, assignments: seq<Assignment>)
    : Result<map<ChoosablePk, int>, ScoreError>
  {
    RankAll(cfg, map[], choosables, selections, assignments)
  }

  /** `get_rank`: the ranking entry, or the sentinel when there is none. */
  function GetRank(ranking: map<ChoosablePk, int>, pk: ChoosablePk): int
  {
    if pk in ranking then ranking[pk] else Unranked
  }

  /** `get_choosables`: the choosables in query order, each with its rank. */
  function ResultList(cfg: Config, choosables: seq<ChoosablePk>, selections: seq<Selection>, assignments: seq<Assignment>)
    : Result<seq<RankedChoosable>, ScoreError>
  {
    match Ranking(cfg, choosables, selections, assignments)
    case Failure(e) => Failure(e)
    case Success(ranking) =>
      Success(seq(|choosables|, i requires 0 <= i < |choosables| => RankedChoosable(choosables[i], GetRank(ranking, choosables[i]))))
  }

  // ---------------------------------------------------------------------
  // Reference definitions, independent of the loop structure above.

  /** How many assignments of type `t` facette `f` is linked to. */
  ghost function LinkCount(assignments: seq<Assignment>, f: FacetteId, t: AssignmentType): nat
    decreases |assignments|
  {
    if |assignments| == 0 then 0
    else
      (if f in assignments[0].facettes && assignments[0].assignmentType == t then 1 else 0)
      + LinkCount(assignments[1..], f, t)
  }

  /** The assignment-type identifiers that have a slot. */
  ghost function KnownTypes(cfg: Config): set<AssignmentType>
  {
    set t | t in cfg.choices
  }

  /** Every selection's weight label is configured. */
  ghost predicate WeightsKnown(weights: map<WeightLabel, int>, selections: seq<Selection>)
  {
    forall s | s in selections :: s.weight in weights
  }

  /** Every assignment linked to a selected facette has a known type. */
  ghost predicate TypesKnown(known: set<AssignmentType>, selections: seq<Selection>, assignments: seq<Assignment>)
  {
    forall s, a | s in selections && a in assignments && s.facette in a.facettes :: a.assignmentType in known
  }

  /** The scoring loop can look up everything it needs. */
  ghost predicate Resolvable(known: set<AssignmentType>, weights: map<WeightLabel, int>, selections: seq<Selection>, assignments: seq<Assignment>)
  {
    WeightsKnown(weights, selections) && TypesKnown(known, selections, assignments)
  }

  /** What one selection adds to the score of type `t`. */
  ghost function Contribution(t: AssignmentType, weights: map<WeightLabel, int>, assignments: seq<Assignment>, s: Selection): int
    requires s.weight in weights
  {
    weights[s.weight] * LinkCount(assignments, s.facette, t)
  }

  /** The score of type `t`: the sum of all selections' contributions. */
  ghost function ExpectedScore(t: AssignmentType, weights: map<WeightLabel, int>, selections: seq<Selection>, assignments: seq<Assignment>): int
    requires WeightsKnown(weights, selections)
    decreases |selections|
  {
    if |selections| == 0 then 0
    else Contribution(t, weights, assignments, selections[0]) + ExpectedScore(t, weights, selections[1..], assignments)
  }

  /** The expected score vector over the configured types. */
  ghost function ExpectedScores(cfg: Config, selections: seq<Selection>, assignments: seq<Assignment>): Scores
    requires WeightsKnown(cfg.weights, selections)
  {
    map t | t in cfg.choices :: ExpectedScore(t, cfg.weights, selections, assignments)
  }

  /** `e` names a label or type that really is missing. */
  ghost predicate Culprit(known: set<AssignmentType>, weights: map<WeightLabel, int>, selections: seq<Selection>,
                          assignments: seq<Assignment>, e: ScoreError)
  {
    match e
    case UnknownWeight(l) =>
      l !in weights && exists s | s in selections :: s.weight == l
    case UnknownAssignmentType(t) =>
      t !in known && exists s, a | s in selections && a in assignments && s.facette in a.facettes :: a.assignmentType == t
  }
}

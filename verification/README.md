# kuusi result ranking and widget dispatch, modelled in Dafny

This project models two REST serializer cores of the kuusi (distrochooser)
web backend, and proves what they compute.

- **Result ranking** (`code/kuusi/web/rest/widget.py`). `get_choosables` of the
  result-list widget serializer scores each choosable. It starts with one
  zero slot per assignment type. For every facette selection of the session,
  it looks the selection's weight label up in `WEIGHT_MAP`. It then adds
  `1 * weight` to the slot of every facette assignment linked to the
  selection's facette. `AssignmentType.get_score` reduces the slots, and the
  result is stored as `ranking[pk]`. `get_rank` reads `ranking[pk]` and falls
  back to `9999999999`.
- **Widget dispatch** (`WidgetViewSet.list`, same file). For each widget of a
  page, in page order, the view scans an ordered registry for the first class
  the widget is an instance of. It then renders the widget with the
  serializer registered under the widget's exact class. Reading a result-list
  widget's rendering runs the ranking above.
- **Choosable endpoint** (`code/kuusi/web/rest/choosable.py`). `get_meta`
  unwraps metadata values, and `get_description` translates into `"en"`. The
  list view answers 412 for a language outside `LANGUAGE_CODES`.

Modules:

| file | module | contents |
|---|---|---|
| wrappers.dfy | `Wrappers` | `Option`, `Result` |
| scoring.dfy | `Scoring` | data model, the scoring loop as written, `GetRank`, and reference definitions (`LinkCount`, `ExpectedScore`, `Resolvable`) |
| scoring_proofs.dfy | `ScoringProofs` | lemmas relating the loop to the reference definitions |
| dispatch.dfy | `WidgetDispatch` | widget classes, the registry, the dispatch loop |
| dispatch_proofs.dfy | `WidgetDispatchProofs` | lemmas about dispatch |
| result_list_widget.dfy | `ResultListWidgetProofs` | how a scoring failure aborts a page listing |
| choosable.dfy | `ChoosableRest` | `get_meta`, the serializer, the language-gated list view |

The loops are modelled as they are written. The loop over selections raises a
KeyError for an unknown weight label, so the model returns
`Failure(UnknownWeight(..))`. The `+=` on `scores_by_type` raises a KeyError
for an assignment type outside the choices, so the model returns
`Failure(UnknownAssignmentType(..))`. A registered instance class whose exact
class is not a registry key makes `serializers[type(widget)]` raise, so the
model returns `Failure(SerializerKeyError(..))`. Reading `results.data` runs
the serializer's field methods, which can raise too (the result-list
serializer raises the scoring KeyErrors above). Whether that read completes
is a parameter `renders`, and when it does not the model returns
`Failure(RenderError(..))`.

Two consequences of the code as written:

- The scoring loop at widget.py:172-180 never uses `choosable`, and it never
  reads an assignment's target choosables. So every choosable gets the same
  score vector and the same rank (`SameRankForEveryChoosable`,
  `TargetsIgnored`, `UntargetedScenario`). A choosable that no assignment
  targets is still ranked, not given the sentinel.
- The comment at widget.py:242-243 says the serializers are ordered
  specialised before generic. Yet line 260 discards the matched key and looks
  the serializer up by the widget's exact class. So registration order has no
  effect on the output (`RegistryOrderIrrelevant`).

## Model

| member | source | states |
|---|---|---|
| Scoring.ZeroScores | code/kuusi/web/rest/widget.py:167-170 | before accumulation there is exactly one slot per assignment-type identifier, each 0 |
| Scoring.Linked | code/kuusi/web/rest/widget.py:176 | the assignments linked to a facette are exactly the table's assignments whose facettes include it, and there are no more of them than assignments |
| ScoringProofs.LinkedMeaning | code/kuusi/web/rest/widget.py:176 | the query keeps each assignment linked to the facette as many times as the table holds it, and no other assignment |
| ScoringProofs.LinkedConcat | code/kuusi/web/rest/widget.py:176 | the query keeps table order: querying a table split in two is querying each part in turn, and a single assignment is kept iff it is linked |
| ScoringProofs.AddWeightMeaning | code/kuusi/web/rest/widget.py:176-180 | the inner loop fails exactly when a linked assignment's type has no slot, and names that type; otherwise every slot grows by weight × the number of linked assignments of its type, and the slot set is unchanged |
| ScoringProofs.AccumulateMeaning | code/kuusi/web/rest/widget.py:172-180 | the selection loop succeeds exactly when every weight label and every linked type is known, and a failure names a missing one; on success each slot grows by the sum over selections of weight × linked assignments of that type |
| ScoringProofs.ScoresByTypeMeaning | code/kuusi/web/rest/widget.py:167-180 | one choosable's score vector equals the reference vector (sum of weight × link count per type), exactly when everything is configured |
| ScoringProofs.RankAllMeaning | code/kuusi/web/rest/widget.py:166-183 | the loop over choosables adds one entry per choosable pk, equal to `get_score` of the score vector, and keeps earlier entries; a scoring error aborts it |
| ScoringProofs.RankingMeaning | code/kuusi/web/rest/widget.py:165-183 | `ranking` has exactly the choosable pks as keys, each mapped to `get_score` of the reference vector; with at least one choosable it exists iff the weights and types resolve; with none it is empty and nothing can fail |
| ScoringProofs.SameRankForEveryChoosable | code/kuusi/web/rest/widget.py:166-183 | any two choosables of the catalog get the same rank |
| ScoringProofs.TargetsIgnored | code/kuusi/web/rest/widget.py:176-180 | changing only the assignments' target choosables leaves the ranking unchanged |
| ScoringProofs.NoSelectionsAllZero | code/kuusi/web/rest/widget.py:167-183 | with no selections every slot stays 0 and every choosable is ranked `get_score` of the all-zero vector |
| ScoringProofs.UnknownWeightAborts | code/kuusi/web/rest/widget.py:175 | a selection whose weight label is not in `WEIGHT_MAP` makes the score vector, the ranking and the result list fail rather than count as 0 |
| ScoringProofs.RankLookup | code/kuusi/web/rest/widget.py:145-146 | `get_rank` returns `get_score` of the reference vector for a catalog choosable and 9999999999 for any other pk |
| ScoringProofs.ResultListMeaning | code/kuusi/web/rest/widget.py:161-192 | the result list has one record per choosable, in query order, each with the choosable's pk and the common rank |
| ScoringProofs.ExpectedScorePermutation | code/kuusi/web/rest/widget.py:172-180 | the reference score is the same for any reordering of the selections |
| ScoringProofs.SelectionOrderIrrelevant | code/kuusi/web/rest/widget.py:164-180 | whether the score vector exists, and its value, do not depend on the order of the session's selections |
| ScoringProofs.WeightIncreaseMonotone | code/kuusi/web/rest/widget.py:174-180 | giving a selection a label with a greater or equal weight keeps the computation successful and lowers no slot |
| ScoringProofs.UntargetedScenario | code/kuusi/web/rest/widget.py:166-183 | a worked example: a "high" (3) and a "low" (1) selection give supports 3, opposes 1, and an untargeted choosable is ranked like the targeted one |
| WidgetDispatch.FirstInstanceKey | code/kuusi/web/rest/widget.py:258-259 | the scan finds a key iff some registry key accepts the widget's class, and the key found is the first such key in registry order |
| WidgetDispatchProofs.DispatchMeaning | code/kuusi/web/rest/widget.py:245-264 | the listing succeeds iff every accepted widget's exact class is registered and its serializer renders it; it then emits exactly the accepted widgets, in page order, one record each, rendered by the exact-class serializer and carrying the session id; a failure names an accepted widget whose class is unregistered or whose rendering raised |
| WidgetDispatchProofs.DispatchConcat | code/kuusi/web/rest/widget.py:257-264 | listing a page split in two is listing the parts in turn: records keep page order and the first error wins |
| WidgetDispatchProofs.RegistryOrderIrrelevant | code/kuusi/web/rest/widget.py:258-261 | reordering the registry keys leaves the output unchanged, because the matched key is discarded |
| WidgetDispatchProofs.OwnSerializerForRegisteredClass | code/kuusi/web/rest/widget.py:245-263 | with the view's registry, a widget of a registered class is rendered by that class's serializer (a radio selection widget by the radio serializer) whatever other keys accept it; if that serializer raises, the listing fails with the rendering error |
| WidgetDispatchProofs.SerializersWellFormed | code/kuusi/web/rest/widget.py:245-255 | the view's registry names each of its seven classes once, and its key order and its map hold the same classes |
| WidgetDispatchProofs.UnregisteredSubclassFails | code/kuusi/web/rest/widget.py:258-261 | a widget whose exact class is unregistered but which a registered key accepts makes the whole listing fail |
| WidgetDispatchProofs.UnmatchedWidgetSkipped | code/kuusi/web/rest/widget.py:257-264 | a widget that no key accepts contributes nothing: removing it from the page changes no output |
| ResultListWidgetProofs.UnknownWeightFailsResultPage | code/kuusi/web/rest/widget.py:258-263 | when the session selected a weight label outside `WEIGHT_MAP` (the KeyError at line 175), a result-list widget alone yields the rendering error and every page holding it fails to list |
| ChoosableRest.GetMeta | code/kuusi/web/rest/choosable.py:42-46 | the result has exactly the original key set, and each value is the `meta_value` of the wrapped value at that key |
| ChoosableRest.Serialize | code/kuusi/web/rest/choosable.py:32-46 | a serialized choosable carries its pk, name and both colours as stored, its description translated into "en", and its unwrapped metadata |
| ChoosableRest.List | code/kuusi/web/rest/choosable.py:61-65 | the response is 412 iff `lang` is missing or not a configured code; otherwise it lists every choosable in order, serialized with the "en" description whatever `lang` was |

## Left out

- Database queries (`Choosable.objects.all()`, `FacetteSelection.objects.filter`, `FacetteAssignment.objects.filter`, `Page.objects.filter`, `widget_list`) are inputs: sequences in query order.
- `FacetteAssignment.AssignmentType.choices` and `get_score` are defined in the models, which are not part of this model. They are a sequence of identifiers and an opaque function in `Scoring.Config`.
- The concrete values of `WEIGHT_MAP` and `LANGUAGE_CODES` are settings. They are parameters: a string-to-integer map and a set of strings.
- A session or page that is not found (widget.py:149, 162, 240, 257) is database absence handling. The model assumes the session's selections and the page's widgets are given.
- The translation `obj.__(field, lang)` is a parameter keyed by the choosable's pk.
- `RankedChoosableSerializer.get_description` (widget.py:148-150) translates into the session's language. It is not modelled: ranked records carry only the pk and the rank, not the other choosable fields.
- Rendered widget records carry the widget, the serializer kind and the session id. The serializers' own fields are not modelled: `widget_type`, `template`, `get_facettes`, `get_versions` and the nested choosables.
- The subclass relation between widget model classes is a parameter, because the model classes are not part of this model.
- Whether reading a serializer's `.data` completes is a parameter `renders`. The widget serializers' field methods are not modelled, except that a result-list widget renders only when its ranking can be computed (`ResultListRendersOnlyIfScored`).
- `get_meta` writes into `obj.meta` in place. Whether that dictionary is shared with the choosable depends on the models. The model returns a new map.
- Response objects, pagination inside `super().list`, schema decorators and the HTTP status other than 412/200 are not modelled.
- Python integers are unbounded, like Dafny's, so no wrap-around is modelled.
- ScoringProofs.SelectionOrderIrrelevant: it does not claim the same error on failure, because which missing label is reported first depends on the selection order.

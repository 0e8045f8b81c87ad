/** The widget listing meets the ranking: reading `.data` of the result-list
    widget serializer runs `get_choosables`, so a scoring KeyError there
    aborts the whole listing of the page. */
module ResultListWidgetProofs {
  import opened Wrappers
  import Scoring
  import ScoringProofs
  import opened WidgetDispatch
  import WidgetDispatchProofs

  /** Rendering a result-list widget for a session completes only when the
      ranked result list of that session's selections can be computed.
      `selectionsOf` maps a session result id to its selections. */
  ghost predicate ResultListRendersOnlyIfScored(renders: Renders, cfg: Scoring.Config, choosables: seq<Scoring.ChoosablePk>,
                                                selectionsOf: string -> seq<Scoring.Selection>, assignments: seq<Scoring.Assignment>)
  {
    forall w: Widget, pk: string :: renders(ResultListWidgetSerializer, w, pk) ==>
      Scoring.ResultList(cfg, choosables, selectionsOf(pk), assignments).Success?
  }

  /** A session that selected a facette with a weight label outside
      `WEIGHT_MAP` cannot list a page holding a result-list widget: the
      widget alone yields the rendering error, and any page holding it
      fails. */
  lemma UnknownWeightFailsResultPage(widgets: seq<Widget>, w: Widget, subclassOf: SubclassOf, renders: Renders, sessionPk: string,
                                     cfg: Scoring.Config, choosables: seq<Scoring.ChoosablePk>,
                                     selectionsOf: string -> seq<Scoring.Selection>, assignments: seq<Scoring.Assignment>, i: nat)
    requires ResultListRendersOnlyIfScored(renders, cfg, choosables, selectionsOf, assignments)
    requires w in widgets && w.kind == ResultListWidget && subclassOf(ResultListWidget, ResultListWidget)
    requires |choosables| > 0
    requires i < |selectionsOf(sessionPk)| && selectionsOf(sessionPk)[i].weight !in cfg.weights
    ensures Dispatch([w], Serializers, subclassOf, renders, sessionPk) == Failure(RenderError(w))
    ensures Dispatch(widgets, Serializers, subclassOf, renders, sessionPk).Failure?
  {
    ScoringProofs.UnknownWeightAborts(cfg, choosables, selectionsOf(sessionPk), assignments, i);
    assert !renders(ResultListWidgetSerializer, w, sessionPk);
    WidgetDispatchProofs.OwnSerializerForRegisteredClass(w, subclassOf, renders, sessionPk);
    assert HasInstanceKey(Serializers.order, subclassOf, w.kind) by {
      assert Serializers.order[5] == ResultListWidget;
    }
    WidgetDispatchProofs.DispatchMeaning(widgets, Serializers, subclassOf, renders, sessionPk);
  }
}

/** The polymorphic widget listing of web/rest/widget.py (`WidgetViewSet.list`).
    For each widget of a page, in page order, the registry of serializers is
    scanned in its `OrderedDict` order for the first class the widget is an
    instance of; the widget is then rendered by the serializer registered
    under its EXACT class, which raises a KeyError when that class has no
    entry, and its `.data` is read, which raises whatever the serializer's
    own field methods raise. Widgets that are an instance of no registered
    class are skipped.

    The widget model classes are not part of this model, so the subclass
    relation behind `isinstance` is a parameter; so is whether reading a
    serializer's `.data` completes. */
module WidgetDispatch {
  import opened Wrappers

  /** Runtime classes a widget can have. `OtherWidget` stands for any class
      of the model hierarchy that is not listed by name. */
  datatype WidgetClass =
    | BaseWidget
    | HTMLWidget
    | NavigationWidget
    | SessionVersionWidget
    | FacetteRadioSelectionWidget
    | FacetteSelectionWidget
    | ResultListWidget
    | ResultShareWidget
    | OtherWidget(name: string)

  datatype SerializerKind =
    | HTMLWidgetSerializer
    | NavigationWidgetSerializer
    | SessionVersionWidgetSerializer
    | FacetteRadioSelectionWidgetSerializer
    | FacetteSelectionWidgetSerializer
    | ResultListWidgetSerializer
    | ResultShareWidgetSerializer

  /** A widget of a page, with its runtime class. */
  datatype Widget = Widget(id: nat, row: int, col: int, width: int, kind: WidgetClass)

  /** An `OrderedDict` from class to serializer: its key order and its map. */
  datatype Registry = Registry(order: seq<WidgetClass>, serializers: map<WidgetClass, SerializerKind>)

  /** One entry of the response: a widget, the serializer that rendered it,
      and the session result id put into the serializer's context. */
  datatype Rendered = Rendered(serializer: SerializerKind, widget: Widget, sessionPk: string)

  /** `serializers[type(widget)]` found no entry, or reading `results.data`
      for the widget raised. */
  datatype DispatchError =
    | SerializerKeyError(kind: WidgetClass)
    | RenderError(widget: Widget)

  /** `subclassOf(c, k)` holds when an instance of class `c` passes
      `isinstance(_, k)`. */
  type SubclassOf = (WidgetClass, WidgetClass) -> bool

  /** `renders(s, w, sessionPk)` holds when `s(w).data`, with `sessionPk` in
      the context, completes instead of raising. */
  type Renders = (SerializerKind, Widget, string) -> bool

  /** The registry of `WidgetViewSet.list`. */
  const Serializers: Registry := Registry(
    [HTMLWidget, NavigationWidget, SessionVersionWidget, FacetteRadioSelectionWidget,
     FacetteSelectionWidget, ResultListWidget, ResultShareWidget],
    map[
      HTMLWidget := HTMLWidgetSerializer,
      NavigationWidget := NavigationWidgetSerializer,
      SessionVersionWidget := SessionVersionWidgetSerializer,
      FacetteRadioSelectionWidget := FacetteRadioSelectionWidgetSerializer,
      FacetteSelectionWidget := FacetteSelectionWidgetSerializer,
      ResultListWidget := ResultListWidgetSerializer,
      ResultShareWidget := ResultShareWidgetSerializer
    ])

  /** Some registry key accepts an instance of `kind`. */
  ghost predicate HasInstanceKey(order: seq<WidgetClass>, subclassOf: SubclassOf, kind: WidgetClass)
  {
    exists i | 0 <= i < |order| :: subclassOf(kind, order[i])
  }

  /** The scan over the registry keys: the first key in order that accepts
      an instance of `kind`. */
  function FirstInstanceKey(order: seq<WidgetClass>, subclassOf: SubclassOf, kind: WidgetClass): (r: Option<WidgetClass>)
    ensures r.Some? <==> HasInstanceKey(order, subclassOf, kind)
    ensures r.Some? ==> exists i | 0 <= i < |order| ::
      order[i] == r.value && subclassOf(kind, order[i]) && forall j | 0 <= j < i :: !subclassOf(kind, order[j])
    decreases |order|
  {
    if |order| == 0 then None
    else if subclassOf(kind, order[0]) then Some(order[0])
    else
      var r := FirstInstanceKey(order[1..], subclassOf, kind);
      assert forall i | 0 <= i < |order| - 1 :: order[1..][i] == order[i + 1];
      r
  }

  /** The body of the loop for one widget: nothing, one record, the
      KeyError of the exact-class lookup, or the error raised while
      rendering. */
  function DispatchOne(w: Widget, registry: Registry, subclassOf: SubclassOf, renders: Renders, sessionPk: string): Result<seq<Rendered>, DispatchError>
  {
    match FirstInstanceKey(registry.order, subclassOf, w.kind)
    case None => Success([])
    case Some(_) =>
      if w.kind !in registry.serializers then Failure(SerializerKeyError(w.kind))
      else if !renders(registry.serializers[w.kind], w, sessionPk) then Failure(RenderError(w))
      else Success([Rendered(registry.serializers[w.kind], w, sessionPk)])
  }

  /** The loop over the page's widgets; the first error aborts it. */
  function Dispatch(widgets: seq<Widget>, registry: Registry, subclassOf: SubclassOf, renders: Renders, sessionPk: string): Result<seq<Rendered>, DispatchError>
    decreases |widgets|
  {
    if |widgets| == 0 then Success([])
    else
      match DispatchOne(widgets[0], registry, subclassOf, renders, sessionPk)
      case Failure(e) => Failure(e)
      case Success(head) =>
        match Dispatch(widgets[1..], registry, subclassOf, renders, sessionPk)
        case Failure(e) => Failure(e)
        case Success(tail) => Success(head + tail)
  }

  /** The widgets of the records, in record order. */
  function WidgetsOf(records: seq<Rendered>): (ws: seq<Widget>)
    ensures |ws| == |records|
    ensures forall i | 0 <= i < |records| :: ws[i] == records[i].widget
  {
    seq(|records|, i requires 0 <= i < |records| => records[i].widget)
  }

  /** The page's widgets that some registry key accepts, in page order. */
  ghost function MatchedWidgets(widgets: seq<Widget>, order: seq<WidgetClass>, subclassOf: SubclassOf): seq<Widget>
    decreases |widgets|
  {
    if |widgets| == 0 then []
    else (if HasInstanceKey(order, subclassOf, widgets[0].kind) then [widgets[0]] else [])
         + MatchedWidgets(widgets[1..], order, subclassOf)
  }

  /** Every widget some key accepts has its exact class registered, and its
      exact-class serializer renders it. */
  ghost predicate ExactClassesRender(widgets: seq<Widget>, registry: Registry, subclassOf: SubclassOf, renders: Renders, sessionPk: string)
  {
    forall w | w in widgets && HasInstanceKey(registry.order, subclassOf, w.kind) ::
      w.kind in registry.serializers && renders(registry.serializers[w.kind], w, sessionPk)
  }

  /** The registry lists each class once, and its key order lists exactly
      the classes of its map. */
  ghost predicate WellFormedRegistry(registry: Registry)
  {
    && (forall i, j | 0 <= i < j < |registry.order| :: registry.order[i] != registry.order[j])
    && (forall k :: k in registry.order <==> k in registry.serializers)
  }
}

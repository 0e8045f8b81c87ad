/** What the widget listing emits, proved from module WidgetDispatch. */
module WidgetDispatchProofs {
  import opened Wrappers
  import opened WidgetDispatch

  /** The listing succeeds exactly when every widget that some key accepts
      has its exact class registered and is rendered by that class's
      serializer, and then emits one record per such widget, in page order,
      skipping the others. Each record is rendered by the serializer of the
      widget's exact class and carries the session result id. A failure
      names an accepted widget whose class has no entry of its own, or whose
      rendering raised. */
  lemma {:induction false} DispatchMeaning(widgets: seq<Widget>, registry: Registry, subclassOf: SubclassOf, renders: Renders, sessionPk: string)
    ensures var r := Dispatch(widgets, registry, subclassOf, renders, sessionPk);
      && (r.Success? <==> ExactClassesRender(widgets, registry, subclassOf, renders, sessionPk))
      && (r.Success? ==> WidgetsOf(r.value) == MatchedWidgets(widgets, registry.order, subclassOf))
      && (r.Success? ==> forall i | 0 <= i < |r.value| ::
            && r.value[i].sessionPk == sessionPk
            && r.value[i].widget.kind in registry.serializers
            && r.value[i].serializer == registry.serializers[r.value[i].widget.kind])
      && (r.Failure? ==> exists w | w in widgets ::
            && HasInstanceKey(registry.order, subclassOf, w.kind)
            && (w.kind !in registry.serializers ==> r.error == SerializerKeyError(w.kind))
            && (w.kind in registry.serializers ==>
                  !renders(registry.serializers[w.kind], w, sessionPk) && r.error == RenderError(w)))
    decreases |widgets|
  {
    if |widgets| > 0 {
      var w := widgets[0];
      var rest := widgets[1..];
      assert widgets == [w] + rest;
      DispatchMeaning(rest, registry, subclassOf, renders, sessionPk);
      var one := DispatchOne(w, registry, subclassOf, renders, sessionPk);
      var tail := Dispatch(rest, registry, subclassOf, renders, sessionPk);
      if one.Success? && tail.Success? {
        var r := one.value + tail.value;
        assert WidgetsOf(r) == WidgetsOf(one.value) + WidgetsOf(tail.value);
        assert forall i | |one.value| <= i < |r| :: r[i] == tail.value[i - |one.value|];
      } else if one.Success? {
        var x :| x in rest && HasInstanceKey(registry.order, subclassOf, x.kind)
          && (x.kind !in registry.serializers ==> tail.error == SerializerKeyError(x.kind))
          && (x.kind in registry.serializers ==>
                !renders(registry.serializers[x.kind], x, sessionPk) && tail.error == RenderError(x));
        assert x in widgets;
      }
    }
  }

  /** Listing two parts of a page is listing each part in turn: records
      keep page order, and the first error wins. */
  lemma {:induction false} DispatchConcat(w1: seq<Widget>, w2: seq<Widget>, registry: Registry, subclassOf: SubclassOf, renders: Renders, sessionPk: string)
    ensures var r1 := Dispatch(w1, registry, subclassOf, renders, sessionPk);
            var r2 := Dispatch(w2, registry, subclassOf, renders, sessionPk);
      Dispatch(w1 + w2, registry, subclassOf, renders, sessionPk) ==
        if r1.Failure? then r1
        else if r2.Failure? then r2
        else Success(r1.value + r2.value)
    decreases |w1|
  {
    if |w1| == 0 {
      assert w1 + w2 == w2;
      var r2 := Dispatch(w2, registry, subclassOf, renders, sessionPk);
      if r2.Success? {
        assert [] + r2.value == r2.value;
      }
    } else {
      assert (w1 + w2)[0] == w1[0];
      assert (w1 + w2)[1..] == w1[1..] + w2;
      DispatchConcat(w1[1..], w2, registry, subclassOf, renders, sessionPk);
      var one := DispatchOne(w1[0], registry, subclassOf, renders, sessionPk);
      if one.Success? {
        var t1 := Dispatch(w1[1..], registry, subclassOf, renders, sessionPk);
        var r2 := Dispatch(w2, registry, subclassOf, renders, sessionPk);
        if t1.Success? && r2.Success? {
          assert one.value + (t1.value + r2.value) == (one.value + t1.value) + r2.value;
        }
      }
    }
  }

  /** The key the scan stops at is thrown away: only whether some key
      accepts the widget matters. So reordering the registry's keys, for
      instance putting a generic class before a specialised one, changes no
      output. */
  lemma {:induction false} RegistryOrderIrrelevant(widgets: seq<Widget>, reg1: Registry, reg2: Registry, subclassOf: SubclassOf, renders: Renders, sessionPk: string)
    requires reg1.serializers == reg2.serializers
    requires forall k :: k in reg1.order <==> k in reg2.order
    ensures Dispatch(widgets, reg1, subclassOf, renders, sessionPk) == Dispatch(widgets, reg2, subclassOf, renders, sessionPk)
    decreases |widgets|
  {
    if |widgets| > 0 {
      var kind := widgets[0].kind;
      if HasInstanceKey(reg1.order, subclassOf, kind) {
        var i :| 0 <= i < |reg1.order| && subclassOf(kind, reg1.order[i]);
        assert reg1.order[i] in reg2.order;
        var j :| 0 <= j < |reg2.order| && reg2.order[j] == reg1.order[i];
        assert HasInstanceKey(reg2.order, subclassOf, kind);
      }
      if HasInstanceKey(reg2.order, subclassOf, kind) {
        var j :| 0 <= j < |reg2.order| && subclassOf(kind, reg2.order[j]);
        assert reg2.order[j] in reg1.order;
        var i :| 0 <= i < |reg1.order| && reg1.order[i] == reg2.order[j];
        assert HasInstanceKey(reg1.order, subclassOf, kind);
      }
      RegistryOrderIrrelevant(widgets[1..], reg1, reg2, subclassOf, renders, sessionPk);
    }
  }

  /** Position of a registered class among the registry keys. */
  lemma RegisteredPosition(k: WidgetClass) returns (i: nat)
    requires k in Serializers.serializers
    ensures i < |Serializers.order| && Serializers.order[i] == k
  {
    match k
    case HTMLWidget => i := 0;
    case NavigationWidget => i := 1;
    case SessionVersionWidget => i := 2;
    case FacetteRadioSelectionWidget => i := 3;
    case FacetteSelectionWidget => i := 4;
    case ResultListWidget => i := 5;
    case ResultShareWidget => i := 6;
  }

  /** With the registry of `WidgetViewSet.list`, a widget whose class is
      registered and accepted by its own key is rendered by its own
      serializer, whatever other keys also accept it: a radio selection
      widget gets the radio serializer even when the generic facette
      selection key would accept it too. When that serializer raises, the
      listing fails with the rendering error. */
  lemma OwnSerializerForRegisteredClass(w: Widget, subclassOf: SubclassOf, renders: Renders, sessionPk: string)
    requires w.kind in Serializers.serializers
    requires subclassOf(w.kind, w.kind)
    ensures Dispatch([w], Serializers, subclassOf, renders, sessionPk) ==
      if renders(Serializers.serializers[w.kind], w, sessionPk)
      then Success([Rendered(Serializers.serializers[w.kind], w, sessionPk)])
      else Failure(RenderError(w))
    ensures w.kind == FacetteRadioSelectionWidget && renders(FacetteRadioSelectionWidgetSerializer, w, sessionPk) ==>
      Dispatch([w], Serializers, subclassOf, renders, sessionPk) == Success([Rendered(FacetteRadioSelectionWidgetSerializer, w, sessionPk)])
  {
    var i := RegisteredPosition(w.kind);
    assert HasInstanceKey(Serializers.order, subclassOf, w.kind);
    var s := Serializers.serializers[w.kind];
    var record := Rendered(s, w, sessionPk);
    assert [w][1..] == [];
    if renders(s, w, sessionPk) {
      assert DispatchOne(w, Serializers, subclassOf, renders, sessionPk) == Success([record]);
      assert [record] + [] == [record];
    } else {
      assert DispatchOne(w, Serializers, subclassOf, renders, sessionPk) == Failure(RenderError(w));
    }
  }

  /** The registry of `WidgetViewSet.list` names each class once, and its
      key order and its map hold the same seven classes. */
  lemma SerializersWellFormed()
    ensures WellFormedRegistry(Serializers)
    ensures |Serializers.order| == 7
  {
    var order := Serializers.order;
    forall i, j | 0 <= i < j < |order| ensures order[i] != order[j] {
      assert order[i] == order[..7][i] && order[j] == order[..7][j];
    }
    forall k ensures k in order <==> k in Serializers.serializers {
      if k in Serializers.serializers {
        var i := RegisteredPosition(k);
      }
    }
  }

  /** A widget of an unregistered class that some registered key accepts
      (an unlisted subclass) makes the whole listing fail, wherever it sits
      on the page. */
  lemma UnregisteredSubclassFails(widgets: seq<Widget>, w: Widget, subclassOf: SubclassOf, renders: Renders, sessionPk: string, k: WidgetClass)
    requires w in widgets
    requires w.kind !in Serializers.serializers
    requires k in Serializers.serializers && subclassOf(w.kind, k)
    ensures Dispatch(widgets, Serializers, subclassOf, renders, sessionPk).Failure?
  {
    var i := RegisteredPosition(k);
    assert HasInstanceKey(Serializers.order, subclassOf, w.kind);
    DispatchMeaning(widgets, Serializers, subclassOf, renders, sessionPk);
  }

  /** A widget that no key accepts contributes nothing, so dropping it from
      the page changes nothing. */
  lemma UnmatchedWidgetSkipped(before: seq<Widget>, w: Widget, after: seq<Widget>, registry: Registry, subclassOf: SubclassOf, renders: Renders, sessionPk: string)
    requires forall i | 0 <= i < |registry.order| :: !subclassOf(w.kind, registry.order[i])
    ensures Dispatch(before + [w] + after, registry, subclassOf, renders, sessionPk) == Dispatch(before + after, registry, subclassOf, renders, sessionPk)
  {
    DispatchConcat(before + [w], after, registry, subclassOf, renders, sessionPk);
    DispatchConcat(before, [w], registry, subclassOf, renders, sessionPk);
    DispatchConcat(before, after, registry, subclassOf, renders, sessionPk);
    assert Dispatch([w], registry, subclassOf, renders, sessionPk) == Success([]) by {
      assert [w][1..] == [];
    }
    var r1 := Dispatch(before, registry, subclassOf, renders, sessionPk);
    if r1.Success? {
      assert r1.value + [] == r1.value;
    }
  }
}

/** The no-op view manager of the stats SPI: a name -> view table that hands out
    empty snapshots, with a cache of the exported views that every registration
    invalidates. */
module ViewRegistry {
  import opened Wrappers
  import opened StatsTypes

  const DifferentViewMessage: string := "A different view with the same name already exists."

  /** A view goes to exporters unless its window is Interval. */
  predicate IsExported(v: View)
  {
    !v.window.Interval?
  }

  /** The exported views among the registered ones. */
  ghost function ExportedViews(registered: map<Name, View>): set<View>
  {
    set v | v in registered.Values && IsExported(v)
  }

  /** Registering a view under a fresh name adds it to the exported set exactly when it is exported. */
  lemma ExportedAfterRegister(registered: map<Name, View>, v: View)
    requires v.name !in registered
    ensures ExportedViews(registered[v.name := v])
         == ExportedViews(registered) + (if IsExported(v) then {v} else {})
  {
    var after := registered[v.name := v];
    assert after.Values == registered.Values + {v} by {
      forall w | w in after.Values ensures w in registered.Values + {v} {
        var n :| n in after && after[n] == w;
        if n != v.name { assert registered[n] == w; }
      }
      assert after[v.name] == v;
      forall w | w in registered.Values ensures w in after.Values {
        var n :| n in registered && registered[n] == w;
        assert after[n] == w;
      }
    }
  }

  /** An exported view is exactly a registered view with a Cumulative window. */
  lemma ExportedIsCumulative(registered: map<Name, View>, v: View)
    ensures v in ExportedViews(registered)
        <==> (exists n :: n in registered && registered[n] == v) && v.window == Cumulative
  {
    if v in ExportedViews(registered) {
      var n :| n in registered && registered[n] == v;
    }
  }

  /** The snapshot the no-op manager returns for a registered view: no data, and window
      data of the view's window kind at time zero. */
  function EmptySnapshot(view: View): StatsViewData
  {
    var windowData := match view.window
      case Cumulative => CumulativeData(ZeroTimestamp, ZeroTimestamp)
      case Interval(_) => IntervalData(ZeroTimestamp);
    StatsViewData(view, map[], windowData)
  }

  /** `filterExportedViews`: walks the views and keeps those whose window is not Interval. */
  method FilterExportedViews(allViews: set<View>) returns (views: set<View>)
    ensures views == set v | v in allViews && IsExported(v)
  {
    views := {};
    var rest := allViews;
    while rest != {}
      invariant rest <= allViews
      invariant views == set v | v in allViews - rest && IsExported(v)
    {
      var view :| view in rest;
      rest := rest - {view};
      if view.window.Interval? {
        continue;
      }
      views := views + {view};
    }
  }

  class NoopViewManager {
    /** The registered views by name. */
    var registeredViews: map<Name, View>
    /** The cached exported views; `None` is the null the cache is reset to. */
    var exportedViews: Option<set<View>>

    /** Every view is filed under its own name, and a present cache is never stale. */
    ghost predicate Valid()
      reads this
    {
      && (forall n :: n in registeredViews ==> registeredViews[n].name == n)
      && (exportedViews.Some? ==> exportedViews.value == ExportedViews(registeredViews))
    }

    constructor ()
      ensures Valid()
      ensures registeredViews == map[] && exportedViews == None
    {
      registeredViews := map[];
      exportedViews := None;
    }

    /** `registerView`: null is refused before anything happens; otherwise the cache is
        dropped, a different view under a taken name is refused, and a fresh name is added. */
    method RegisterView(newView: Option<View>) returns (r: Outcome)
      requires Valid()
      modifies this
      ensures Valid()
      ensures newView == None ==> r == Fail(NullPointer("newView")) && unchanged(this)
      ensures newView.Some? ==> exportedViews == None
      ensures newView.Some? && newView.value.name !in old(registeredViews) ==>
                r == Pass && registeredViews == old(registeredViews)[newView.value.name := newView.value]
      ensures newView.Some? && newView.value.name in old(registeredViews)
              && old(registeredViews)[newView.value.name] == newView.value ==>
                r == Pass && registeredViews == old(registeredViews)
      ensures newView.Some? && newView.value.name in old(registeredViews)
              && old(registeredViews)[newView.value.name] != newView.value ==>
                r == Fail(IllegalArgument(DifferentViewMessage)) && registeredViews == old(registeredViews)
    {
      if newView == None {
        return Fail(NullPointer("newView"));
      }
      var view := newView.value;
      exportedViews := None;
      if view.name in registeredViews && registeredViews[view.name] != view {
        return Fail(IllegalArgument(DifferentViewMessage));
      }
      if view.name !in registeredViews {
        registeredViews := registeredViews[view.name := view];
      }
      r := Pass;
    }

    /** `getView`: null is refused; an unknown name gives null; a registered view gives
        an empty snapshot whose window data matches the view's window, at time zero. */
    method GetView(name: Option<Name>) returns (r: Result<Option<StatsViewData>>)
      requires Valid()
      ensures name == None ==> r == Err(NullPointer("name"))
      ensures name.Some? && name.value !in registeredViews ==> r == Ok(None)
      ensures name.Some? && name.value in registeredViews ==>
                && r.Ok? && r.value.Some?
                && r.value.value.view == registeredViews[name.value]
                && r.value.value.view.name == name.value
                && r.value.value.aggregationMap == map[]
                && (r.value.value.view.window.Cumulative? ==>
                      r.value.value.windowData == CumulativeData(ZeroTimestamp, ZeroTimestamp))
                && (r.value.value.view.window.Interval? ==>
                      r.value.value.windowData == IntervalData(ZeroTimestamp))
                && r.value.value == EmptySnapshot(registeredViews[name.value])
    {
      if name == None {
        return Err(NullPointer("name"));
      }
      if name.value !in registeredViews {
        return Ok(None);
      }
      r := Ok(Some(EmptySnapshot(registeredViews[name.value])));
    }

    /** `getAllExportedViews`: the cache if present, otherwise the filtered registrations,
        which then become the cache. Never stale, whichever path is taken. */
    method GetAllExportedViews() returns (views: set<View>)
      requires Valid()
      modifies this`exportedViews
      ensures Valid()
      ensures views == ExportedViews(registeredViews)
      ensures exportedViews == Some(views)
    {
      if exportedViews.Some? {
        return exportedViews.value;
      }
      views := FilterExportedViews(registeredViews.Values);
      exportedViews := Some(views);
    }
  }

  /** Parts of the registry's tests (a different view under a taken name is refused, the same
      view may be registered twice, only non-interval views are exported), as a client sees
      them through the contracts. */
  method RegistryScenario(cumulative1: View, cumulative2: View, interval: View)
    requires cumulative1.window == Cumulative && cumulative2.window == Cumulative
    requires interval.window.Interval?
    requires cumulative1.name != cumulative2.name
    requires interval.name != cumulative1.name && interval.name != cumulative2.name
  {
    var vm := new NoopViewManager();
    var none := vm.GetAllExportedViews();
    assert none == {};
    var r1 := vm.RegisterView(Some(cumulative1));
    var r2 := vm.RegisterView(Some(cumulative2));
    var r3 := vm.RegisterView(Some(interval));
    assert r1 == Pass && r2 == Pass && r3 == Pass;
    var again := vm.RegisterView(Some(cumulative1));
    assert again == Pass;
    var clash := vm.RegisterView(Some(cumulative1.(description := cumulative1.description + "!")));
    assert clash == Fail(IllegalArgument(DifferentViewMessage));
    var got := vm.GetView(Some(cumulative1.name));
    assert got.value.value.view == cumulative1;
    var exported := vm.GetAllExportedViews();
    assert vm.registeredViews[cumulative2.name] == cumulative2;
    ExportedIsCumulative(vm.registeredViews, cumulative1);
    ExportedIsCumulative(vm.registeredViews, cumulative2);
    ExportedIsCumulative(vm.registeredViews, interval);
    assert cumulative1 in exported && cumulative2 in exported && interval !in exported;
  }
}

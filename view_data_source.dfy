/** The exporter-side source of view data: walks the exported views of a view manager and
    turns each cumulative one's snapshot into an exporter snapshot. */
module ViewDataSource {
  import opened Wrappers
  import opened StatsTypes
  import opened ViewDescriptions
  import opened ExportedViewData
  import ViewRegistry

  const OpenCensusName: string := "opencensus.io"
  const IntervalNotSupported: string := "IntervalData not supported"

  /** `getName`: the fixed name of this source. */
  function GetName(): (r: string)
    ensures r == OpenCensusName
  {
    OpenCensusName
  }

  /** `getStartTime`: the start of cumulative window data; interval data is refused. */
  function GetStartTime(w: AggregationWindowData): (r: Result<Timestamp>)
    ensures r.Ok? <==> w.CumulativeData?
    ensures r.Ok? ==> r.value == w.start
    ensures r.Err? ==> r.error == IllegalArgument(IntervalNotSupported)
  {
    match w
    case CumulativeData(start, _) => Ok(start)
    case IntervalData(_) => Err(IllegalArgument(IntervalNotSupported))
  }

  /** `getEndTime`: the end of cumulative window data; interval data is refused. */
  function GetEndTime(w: AggregationWindowData): (r: Result<Timestamp>)
    ensures r.Ok? <==> w.CumulativeData?
    ensures r.Ok? ==> r.value == w.end
    ensures r.Err? ==> r.error == IllegalArgument(IntervalNotSupported)
  {
    match w
    case CumulativeData(_, end) => Ok(end)
    case IntervalData(_) => Err(IllegalArgument(IntervalNotSupported))
  }

  /** `isCumulativeView` */
  predicate IsCumulativeView(view: View)
  {
    view.window.Cumulative?
  }

  /** A view yields output when it is cumulative and the manager has a snapshot for it;
      `getView` is given as a map, and a name outside it stands for a null snapshot. */
  predicate Contributes(view: View, getView: map<Name, StatsViewData>)
  {
    IsCumulativeView(view) && view.name in getView
  }

  /** What one exported view adds to the output: nothing, one snapshot, or an exception. */
  function ViewEntry(view: View, getView: map<Name, StatsViewData>): Result<seq<ViewData>>
  {
    if !Contributes(view, getView) then Ok([])
    else
      var snapshot := getView[view.name];
      var start := GetStartTime(snapshot.windowData);
      var end := GetEndTime(snapshot.windowData);
      if start.Err? then Err(start.error)
      else
        match Snapshot(CreateFromView(view), start.value, end.value, snapshot.aggregationMap)
        case Ok(data) => Ok([data])
        case Err(e) => Err(e)
  }

  /** The output of `getViewData` for the exported views in iteration order: the entries
      concatenated, or the first exception. */
  function Collect(views: seq<View>, getView: map<Name, StatsViewData>): Result<seq<ViewData>>
    decreases |views|
  {
    if views == [] then Ok([])
    else
      match Collect(views[..|views| - 1], getView)
      case Err(e) => Err(e)
      case Ok(init) =>
        match ViewEntry(views[|views| - 1], getView)
        case Err(e) => Err(e)
        case Ok(last) => Ok(init + last)
  }

  /** Concatenating two runs of exported views concatenates the outputs, in order; an
      exception in the first run is the result. */
  lemma {:induction false} CollectAppend(a: seq<View>, b: seq<View>, getView: map<Name, StatsViewData>)
    ensures Collect(a + b, getView) ==
      match Collect(a, getView)
      case Err(e) => Err(e)
      case Ok(x) =>
        match Collect(b, getView)
        case Err(e) => Err(e)
        case Ok(y) => Ok(x + y)
  {
    if b == [] {
      assert a + b == a;
      if Collect(a, getView).Ok? {
        assert Collect(a, getView).value + [] == Collect(a, getView).value;
      }
    } else {
      var b' := b[..|b| - 1];
      assert (a + b)[..|a + b| - 1] == a + b';
      assert (a + b)[|a + b| - 1] == b[|b| - 1];
      CollectAppend(a, b', getView);
      if Collect(a, getView).Ok? && Collect(b', getView).Ok? && ViewEntry(b[|b| - 1], getView).Ok? {
        var x, y, z := Collect(a, getView).value, Collect(b', getView).value, ViewEntry(b[|b| - 1], getView).value;
        assert x + y + z == x + (y + z);
      }
    }
  }

  /** The number of views in `views` that yield output. */
  function CountContributing(views: seq<View>, getView: map<Name, StatsViewData>): (n: nat)
    ensures n <= |views|
  {
    if views == [] then 0
    else CountContributing(views[..|views| - 1], getView)
         + (if Contributes(views[|views| - 1], getView) then 1 else 0)
  }

  /** On success there is exactly one snapshot per contributing view, so never more than
      there are exported views. */
  lemma {:induction false} CollectLength(views: seq<View>, getView: map<Name, StatsViewData>)
    requires Collect(views, getView).Ok?
    ensures |Collect(views, getView).value| == CountContributing(views, getView) <= |views|
  {
    if views != [] {
      CollectLength(views[..|views| - 1], getView);
    }
  }

  /** `getViewData` succeeds exactly when every contributing view's snapshot has
      cumulative window data and data of the classes its aggregation calls for. */
  lemma {:induction false} CollectOk(views: seq<View>, getView: map<Name, StatsViewData>)
    ensures Collect(views, getView).Ok? <==>
      forall j :: 0 <= j < |views| && Contributes(views[j], getView) ==>
        && getView[views[j].name].windowData.CumulativeData?
        && AllMatch(CreateFromView(views[j]), getView[views[j].name].aggregationMap)
  {
    if views != [] {
      var init := views[..|views| - 1];
      CollectOk(init, getView);
      forall j | 0 <= j < |init| ensures init[j] == views[j] { }
    }
  }

  /** `data` is the exporter snapshot of the contributing view `view`: the view's description,
      the window's times and the manager's map unchanged. */
  predicate SnapshotOf(data: ViewData, view: View, getView: map<Name, StatsViewData>)
  {
    && Contributes(view, getView)
    && getView[view.name].windowData.CumulativeData?
    && data == ViewData(CreateFromView(view), getView[view.name].windowData.start,
                        getView[view.name].windowData.end, getView[view.name].aggregationMap)
  }

  /** Each output snapshot comes from a contributing exported view. */
  lemma {:induction false} CollectElement(views: seq<View>, getView: map<Name, StatsViewData>, i: nat)
    requires Collect(views, getView).Ok? && i < |Collect(views, getView).value|
    ensures exists j :: 0 <= j < |views| && SnapshotOf(Collect(views, getView).value[i], views[j], getView)
  {
    var init := views[..|views| - 1];
    var prefix := Collect(init, getView).value;
    if i < |prefix| {
      CollectElement(init, getView, i);
      var j :| 0 <= j < |init| && SnapshotOf(prefix[i], init[j], getView);
      assert views[j] == init[j];
    } else {
      assert SnapshotOf(Collect(views, getView).value[i], views[|views| - 1], getView);
    }
  }

  /** `getViewData`: walks the exported views in iteration order; a non-cumulative view and a
      null snapshot are skipped; an interval window or a data mismatch throws. */
  method GetViewData(exported: seq<View>, getView: map<Name, StatsViewData>)
    returns (r: Result<seq<ViewData>>)
    ensures r == Collect(exported, getView)
  {
    var viewDataList: seq<ViewData> := [];
    var i := 0;
    while i < |exported|
      invariant 0 <= i <= |exported|
      invariant Collect(exported[..i], getView) == Ok(viewDataList)
    {
      var view := exported[i];
      assert exported[..i + 1][..i] == exported[..i];
      CollectAppend(exported[..i + 1], exported[i + 1..], getView);
      assert exported[..i + 1] + exported[i + 1..] == exported;
      if IsCumulativeView(view) && view.name in getView {
        var viewData := getView[view.name];
        var startTime := GetStartTime(viewData.windowData);
        if startTime.Err? {
          return Err(startTime.error);
        }
        var endTime := GetEndTime(viewData.windowData);
        var data := ExportedViewData.Create(CreateFromView(view), startTime.value, endTime.value, viewData.aggregationMap);
        if data.Err? {
          return Err(data.error);
        }
        assert ViewEntry(view, getView) == Ok([data.value]);
        viewDataList := viewDataList + [data.value];
      } else {
        assert ViewEntry(view, getView) == Ok([]);
        assert viewDataList + [] == viewDataList;
      }
      i := i + 1;
    }
    assert exported[..i] == exported;
    r := Ok(viewDataList);
  }

  /** The view manager `getView` of the no-op manager, as a map: an empty snapshot per name.
      The data source reads the stats API's view manager, a different class from the SPI
      no-op manager of `ViewRegistry`, and the model uses one `View` type for both; this
      bridge relies on the API-side manager answering `getView` as the SPI no-op manager does. */
  function NoopGetView(registered: map<Name, View>): map<Name, StatsViewData>
  {
    map n | n in registered :: ViewRegistry.EmptySnapshot(registered[n])
  }

  /** Over the no-op manager, every exported view yields one empty snapshot at time zero,
      in the exported views' order, and nothing throws (relying on what is stated at
      `NoopGetView`). */
  lemma {:induction false} CollectFromNoopManager(registered: map<Name, View>, exported: seq<View>)
    requires forall j :: 0 <= j < |exported| ==>
      exported[j].name in registered && registered[exported[j].name] == exported[j]
      && ViewRegistry.IsExported(exported[j])
    ensures Collect(exported, NoopGetView(registered)) ==
      Ok(seq(|exported|, j requires 0 <= j < |exported| =>
        ViewData(CreateFromView(exported[j]), ZeroTimestamp, ZeroTimestamp, map[])))
  {
    if exported != [] {
      var init := exported[..|exported| - 1];
      CollectFromNoopManager(registered, init);
      var last := exported[|exported| - 1];
      var getView := NoopGetView(registered);
      var data := ViewData(CreateFromView(last), ZeroTimestamp, ZeroTimestamp, map[]);
      assert getView[last.name] == ViewRegistry.EmptySnapshot(last);
      assert AllMatch(CreateFromView(last), map[]);
      assert ViewEntry(last, getView) == Ok([data]);
      var expected := seq(|exported|, j requires 0 <= j < |exported| =>
        ViewData(CreateFromView(exported[j]), ZeroTimestamp, ZeroTimestamp, map[]));
      var expectedInit := seq(|init|, j requires 0 <= j < |init| =>
        ViewData(CreateFromView(init[j]), ZeroTimestamp, ZeroTimestamp, map[]));
      assert expected == expectedInit + [data];
      assert Collect(init, getView) == Ok(expectedInit);
      assert Collect(exported, getView) == Ok(expectedInit + [data]);
    } else {
      assert seq(|exported|, j requires 0 <= j < |exported| =>
        ViewData(CreateFromView(exported[j]), ZeroTimestamp, ZeroTimestamp, map[])) == [];
    }
  }
}

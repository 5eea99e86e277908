/** The exporter's snapshot of one view: its description, time range and the aggregation
    data per tuple of tag values, checked against the view's aggregation and measure. */
module ExportedViewData {
  import opened Wrappers
  import opened StatsTypes
  import opened ViewDescriptions

  /** The fixed start of the mismatch message (the rest prints the two objects). */
  const MismatchMessage: string := "Aggregation and AggregationData types mismatch."

  datatype ViewData = ViewData(viewDescription: ViewDescription, startTime: Timestamp,
                               endTime: Timestamp, aggregationMap: map<TagValues, AggregationData>)

  function CheckArgument(condition: bool): (r: Outcome)
  {
    if condition then Pass else Fail(IllegalArgument(MismatchMessage))
  }

  /** `checkAggregation`: the data must be of the class the aggregation calls for; for Sum
      the measure's numeric kind decides between the double and the long sum. */
  function CheckAggregation(aggregation: Aggregation, data: AggregationData, measure: Measure): (r: Outcome)
  {
    match aggregation
    case Sum =>
      (match measure
       case MeasureDouble(_, _, _) => CheckArgument(data.SumDataDouble?)
       case MeasureLong(_, _, _) => CheckArgument(data.SumDataLong?))
    case Count => CheckArgument(data.CountData?)
    case Mean => CheckArgument(data.MeanData?)
    case Distribution(_) => CheckArgument(data.DistributionData?)
  }

  /** The classes of aggregation data. */
  datatype DataKind = SumDoubleKind | SumLongKind | CountKind | MeanKind | DistributionKind

  function KindOf(data: AggregationData): DataKind
  {
    match data
    case SumDataDouble(_) => SumDoubleKind
    case SumDataLong(_) => SumLongKind
    case CountData(_) => CountKind
    case MeanData(_, _) => MeanKind
    case DistributionData(_, _, _, _, _, _) => DistributionKind
  }

  /** The one data class each (aggregation, measure) pair admits. */
  function ExpectedKind(aggregation: Aggregation, measure: Measure): DataKind
  {
    match aggregation
    case Sum => if measure.MeasureDouble? then SumDoubleKind else SumLongKind
    case Count => CountKind
    case Mean => MeanKind
    case Distribution(_) => DistributionKind
  }

  /** The check passes exactly for the admitted class, and otherwise fails with the
      mismatch message. */
  lemma CheckAggregationKind(aggregation: Aggregation, data: AggregationData, measure: Measure)
    ensures CheckAggregation(aggregation, data, measure).Pass?
        <==> KindOf(data) == ExpectedKind(aggregation, measure)
    ensures CheckAggregation(aggregation, data, measure).Fail? ==>
              CheckAggregation(aggregation, data, measure).error == IllegalArgument(MismatchMessage)
  {
  }

  /** Every entry of the map holds data of the class the description calls for. */
  predicate AllMatch(d: ViewDescription, m: map<TagValues, AggregationData>)
  {
    forall k :: k in m ==> CheckAggregation(d.aggregation, m[k], d.measure).Pass?
  }

  /** What `create` returns, as a value. */
  function Snapshot(d: ViewDescription, start: Timestamp, end: Timestamp,
                    m: map<TagValues, AggregationData>): Result<ViewData>
  {
    if AllMatch(d, m) then Ok(ViewData(d, start, end, m)) else Err(IllegalArgument(MismatchMessage))
  }

  /** `create`: checks every entry and copies it into a new map; the description and the two
      times are stored as given, with no check that start precedes end. The copy is a value,
      so later changes to the caller's map cannot reach it. */
  method Create(d: ViewDescription, start: Timestamp, end: Timestamp,
                m: map<TagValues, AggregationData>) returns (r: Result<ViewData>)
    ensures r.Ok? <==> AllMatch(d, m)
    ensures r.Ok? ==> r.value.viewDescription == d && r.value.startTime == start
                      && r.value.endTime == end && r.value.aggregationMap == m
    ensures r.Err? ==> r.error == IllegalArgument(MismatchMessage)
    ensures r == Snapshot(d, start, end, m)
  {
    var deepCopy: map<TagValues, AggregationData> := map[];
    var rest := m.Keys;
    while rest != {}
      invariant rest <= m.Keys
      invariant deepCopy.Keys == m.Keys - rest
      invariant forall k :: k in deepCopy ==> deepCopy[k] == m[k]
      invariant forall k :: k in deepCopy ==> CheckAggregation(d.aggregation, m[k], d.measure).Pass?
    {
      var key :| key in rest;
      var check := CheckAggregation(d.aggregation, m[key], d.measure);
      if check.Fail? {
        return Err(check.error);
      }
      deepCopy := deepCopy[key := m[key]];
      rest := rest - {key};
    }
    assert deepCopy == m;
    r := Ok(ViewData(d, start, end, deepCopy));
  }
}

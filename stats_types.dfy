/** The value types the stats code passes around: measures, aggregations and their
    running data, views and their windows, timestamps and the collection state.
    Their own source files are not part of this model: each is an immutable value
    compared field by field, which is what a datatype is. */
module StatsTypes {
  import opened Wrappers

  type Name = string      // View.Name wraps the view's name string
  type TagKey = string
  type TagValue = string

  /** A tuple of tag values, one per view column; a position may be null. */
  type TagValues = seq<Option<TagValue>>

  datatype Timestamp = Timestamp(seconds: int, nanos: int)
  datatype Duration = Duration(seconds: int, nanos: int)

  const ZeroTimestamp: Timestamp := Timestamp(0, 0)

  /** What is measured; the numeric kind decides which Sum data a view may hold. */
  datatype Measure =
    | MeasureDouble(name: string, description: string, unit: string)
    | MeasureLong(name: string, description: string, unit: string)

  /** How a view folds its measure. */
  datatype Aggregation =
    | Sum
    | Count
    | Mean
    | Distribution(bucketBoundaries: seq<real>)

  /** The running result of an aggregation, one variant per data class. */
  datatype AggregationData =
    | SumDataDouble(sum: real)
    | SumDataLong(sumLong: int)
    | CountData(count: int)
    | MeanData(mean: real, meanCount: int)
    | DistributionData(distMean: real, distCount: int, min: real, max: real,
                       sumOfSquaredDeviations: real, bucketCounts: seq<int>)

  /** The time window of a view. */
  datatype AggregationWindow = Cumulative | Interval(duration: Duration)

  /** The time window of a snapshot. */
  datatype AggregationWindowData =
    | CumulativeData(start: Timestamp, end: Timestamp)
    | IntervalData(end: Timestamp)

  datatype View = View(name: Name, description: string, measure: Measure,
                       aggregation: Aggregation, columns: seq<TagKey>,
                       window: AggregationWindow)

  /** The stats snapshot a view manager returns from `getView`. */
  datatype StatsViewData = StatsViewData(view: View,
                                         aggregationMap: map<TagValues, AggregationData>,
                                         windowData: AggregationWindowData)

  /** The collection state seen by users of the stats library. */
  datatype StatsCollectionState = ENABLED | DISABLED
}

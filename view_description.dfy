/** The exporter's description of a view: the view without its window. */
module ViewDescriptions {
  import opened StatsTypes

  datatype ViewDescription = ViewDescription(name: Name, description: string, measure: Measure,
                                             aggregation: Aggregation, columns: seq<TagKey>)

  /** The five-argument `create`: stores its arguments as they are, with no check on the
      columns (duplicates are kept). */
  function Create(name: Name, description: string, measure: Measure, aggregation: Aggregation,
                  columns: seq<TagKey>): (d: ViewDescription)
    ensures d.name == name && d.description == description && d.measure == measure
    ensures d.aggregation == aggregation && d.columns == columns
  {
    ViewDescription(name, description, measure, aggregation, columns)
  }

  /** `create(view)`: the view's fields except its window. */
  function CreateFromView(view: View): (d: ViewDescription)
    ensures d == Create(view.name, view.description, view.measure, view.aggregation, view.columns)
  {
    ViewDescription(view.name, view.description, view.measure, view.aggregation, view.columns)
  }

  /** The view a description and a window make up (what `View.create` would build). */
  function WithWindow(d: ViewDescription, window: AggregationWindow): View
  {
    View(d.name, d.description, d.measure, d.aggregation, d.columns, window)
  }

  /** Nothing but the window is lost: putting it back gives the view again, and
      describing a rebuilt view gives the description again. */
  lemma DescriptionRoundTrip(view: View, d: ViewDescription, window: AggregationWindow)
    ensures WithWindow(CreateFromView(view), view.window) == view
    ensures CreateFromView(WithWindow(d, window)) == d
  {
  }

  /** Two views have the same description exactly when they differ at most in their window. */
  lemma SameDescription(v1: View, v2: View)
    ensures CreateFromView(v1) == CreateFromView(v2) <==> v1 == v2.(window := v1.window)
  {
    if CreateFromView(v1) == CreateFromView(v2) {
      DescriptionRoundTrip(v1, CreateFromView(v2), v1.window);
      DescriptionRoundTrip(v2, CreateFromView(v2), v1.window);
    }
  }
}

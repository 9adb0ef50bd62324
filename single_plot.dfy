/** The "generate specific plots" branch of the menu: one plot chosen by
    number, with the column names the user types for it, is rendered only
    when every named column is one of the dataset's columns. */
module SinglePlot {
  import opened Columns
  import opened Plots
  import opened Planner

  datatype Outcome =
    | Render(request: PlotRequest, path: string)
    | NotFound(message: string)
    | InvalidChoice

  /** The menu entries of the branch. */
  const Choices: set<string> := {"1", "2", "3", "4", "5"}

  /** The columns the user is asked for after picking `choice`: one for the
      histogram and the pie chart, two for the scatter plot, none otherwise. */
  function AskedColumns(choice: string, first: string, second: string): seq<string>
  {
    if choice == "1" || choice == "5" then [first]
    else if choice == "2" then [first, second]
    else []
  }

  /** One plot request from the menu, checked against `df.columns`. */
  function SpecificPlot(schema: seq<Column>, choice: string, first: string, second: string): (r: Outcome)
    ensures r.Render? <==>
            choice in Choices && forall c :: c in AskedColumns(choice, first, second) ==> c in ColumnNames(schema)
    ensures r.Render? ==> r.path == ArtifactName(r.request)
                          && RequestColumns(r.request) == AskedColumns(choice, first, second)
    ensures r.Render? ==>
              && (choice == "1" <==> r.request.Histogram?)
              && (choice == "2" <==> r.request.Scatter?)
              && (choice == "3" <==> r.request == Pairplot)
              && (choice == "4" <==> r.request == CorrelationHeatmap)
              && (choice == "5" <==> r.request.PieChart?)
    ensures r == InvalidChoice <==> choice !in Choices
    ensures r.NotFound? ==> r.message == if choice == "2" then "One or both columns not found." else "Column not found."
  {
    var columns := ColumnNames(schema);
    if choice == "1" then
      if first in columns then Render(Histogram(first), "histogram_" + first + ".png")
      else NotFound("Column not found.")
    else if choice == "2" then
      if first in columns && second in columns then
        Render(Scatter(first, second), "scatter_" + first + "vs" + second + ".png")
      else NotFound("One or both columns not found.")
    else if choice == "3" then Render(Pairplot, "pairplot.png")
    else if choice == "4" then Render(CorrelationHeatmap, "correlation_heatmap.png")
    else if choice == "5" then
      if first in columns then Render(PieChart(first), "pie_chart_" + first + ".png")
      else NotFound("Column not found.")
    else InvalidChoice
  }

  /** The requests that the automatic planner makes too: a histogram of a
      numerical column, a scatter plot of numerical columns i < j, the heatmap
      and the pairplot once there is a numerical column, and a pie chart of an
      object column. */
  predicate Planned(num: seq<string>, cat: seq<string>, r: PlotRequest)
  {
    match r
    case Histogram(c) => c in num
    case Scatter(x, y) => exists i, j :: 0 <= i < j < |num| && num[i] == x && num[j] == y
    case CorrelationHeatmap => |num| >= 1
    case Pairplot => |num| >= 1
    case PieChart(c) => c in cat
  }

  lemma RequestInPlan(num: seq<string>, cat: seq<string>, r: PlotRequest)
    requires Planned(num, cat, r)
    ensures r in PlanRequests(num, cat)
  {
    var plan := PlanRequests(num, cat);
    match r {
      case Histogram(c) =>
        var i :| 0 <= i < |num| && num[i] == c;
        PlanHistogramsFirst(num, cat);
        assert plan[i] == r;
      case Scatter(x, y) =>
        var i, j :| 0 <= i < j < |num| && num[i] == x && num[j] == y;
        PlanScatterPairs(num, cat, i, j);
      case CorrelationHeatmap =>
        PlanHeatmapAndPairplotOnce(num, cat);
      case Pairplot =>
        PlanHeatmapAndPairplotOnce(num, cat);
      case PieChart(c) =>
        var i :| 0 <= i < |cat| && cat[i] == c;
        PlanPiesLast(num, cat);
        assert plan[|plan| - |cat| + i] == r;
    }
  }

  /** A request the planner makes has its file name among the planner's paths. */
  lemma PlannedPath(num: seq<string>, cat: seq<string>, r: PlotRequest)
    requires Planned(num, cat, r)
    ensures ArtifactName(r) in ArtifactNames(PlanRequests(num, cat))
  {
    RequestInPlan(num, cat, r);
    var plan := PlanRequests(num, cat);
    var a :| 0 <= a < |plan| && plan[a] == r;
    assert ArtifactNames(plan)[a] == ArtifactName(r);
  }

  /** A single plot the planner would also have drawn gets the very file name
      the planner gives it. */
  lemma SpecificPlotMatchesPlanner(schema: seq<Column>, choice: string, first: string, second: string)
    requires SpecificPlot(schema, choice, first, second).Render?
    requires Planned(NumericalColumns(schema), CategoricalColumns(schema),
                     SpecificPlot(schema, choice, first, second).request)
    ensures SpecificPlot(schema, choice, first, second).path in PlotPaths(schema)
  {
    PlannedPath(NumericalColumns(schema), CategoricalColumns(schema),
                SpecificPlot(schema, choice, first, second).request);
  }
}

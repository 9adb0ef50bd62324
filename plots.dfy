/** Plot requests and the file names of the images the renderer writes for
    them. The renderer itself (the seaborn and matplotlib calls) is not
    modelled: rendering a request always succeeds and leaves an image at the
    request's artifact name. */
module Plots {

  datatype PlotRequest =
    | Histogram(column: string)
    | Scatter(x: string, y: string)
    | CorrelationHeatmap
    | Pairplot
    | PieChart(column: string)

  /** The image file name used for a request, both by the automatic planner
      and by the single-plot menu. */
  function ArtifactName(r: PlotRequest): string
  {
    match r
    case Histogram(c) => "histogram_" + c + ".png"
    case Scatter(x, y) => "scatter_" + x + "vs" + y + ".png"
    case CorrelationHeatmap => "correlation_heatmap.png"
    case Pairplot => "pairplot.png"
    case PieChart(c) => "pie_chart_" + c + ".png"
  }

  /** The dataset columns a request draws from. */
  function RequestColumns(r: PlotRequest): seq<string>
  {
    match r
    case Histogram(c) => [c]
    case Scatter(x, y) => [x, y]
    case CorrelationHeatmap => []
    case Pairplot => []
    case PieChart(c) => [c]
  }

  function ArtifactNames(rs: seq<PlotRequest>): seq<string>
  {
    seq(|rs|, i requires 0 <= i < |rs| => ArtifactName(rs[i]))
  }

  lemma ArtifactNamesAppend(rs: seq<PlotRequest>, ts: seq<PlotRequest>)
    ensures ArtifactNames(rs + ts) == ArtifactNames(rs) + ArtifactNames(ts)
  {
    var lhs := ArtifactNames(rs + ts);
    var rhs := ArtifactNames(rs) + ArtifactNames(ts);
    forall i | 0 <= i < |lhs| ensures lhs[i] == rhs[i] {
      if i < |rs| { assert (rs + ts)[i] == rs[i]; } else { assert (rs + ts)[i] == ts[i - |rs|]; }
    }
  }

  lemma ArtifactNamesSnoc(rs: seq<PlotRequest>, r: PlotRequest)
    ensures ArtifactNames(rs + [r]) == ArtifactNames(rs) + [ArtifactName(r)]
  {
    ArtifactNamesAppend(rs, [r]);
  }

  /** The column of a single-column request sits between its kind prefix and
      the ".png" suffix. */
  lemma ColumnInName(prefix: string, c: string)
    ensures (prefix + c + ".png")[|prefix|..|prefix| + |c|] == c
  {
    var s := prefix + c + ".png";
    forall i | 0 <= i < |c| ensures s[|prefix| + i] == c[i] {
      assert s == prefix + (c + ".png");
    }
  }

  /** Every file name but a scatter plot's names one request only: the first
      two letters tell the kinds apart and the single column is spelled out
      in full. */
  lemma ArtifactNameDeterminesRequest(r: PlotRequest, s: PlotRequest)
    requires !s.Scatter?
    ensures ArtifactName(r) == ArtifactName(s) ==> r == s
  {
    var n, m := ArtifactName(r), ArtifactName(s);
    if n == m {
      assert n[0] == m[0] && n[1] == m[1];
      match s {
        case Histogram(c) =>
          assert r.Histogram?;
          ColumnInName("histogram_", c);
          ColumnInName("histogram_", r.column);
          assert |c| == |m| - 14 == |r.column|;
        case PieChart(c) =>
          assert r.PieChart?;
          ColumnInName("pie_chart_", c);
          ColumnInName("pie_chart_", r.column);
          assert |c| == |m| - 14 == |r.column|;
        case CorrelationHeatmap =>
        case Pairplot =>
      }
    }
  }

  /** Two different scatter requests can share one file name: a column name
      containing "vs" makes `scatter_{x}vs{y}.png` ambiguous. */
  lemma ScatterNamesCanCollide()
    ensures Scatter("a", "vsb") != Scatter("avs", "b")
    ensures ArtifactName(Scatter("a", "vsb")) == ArtifactName(Scatter("avs", "b"))
  {
    assert ArtifactName(Scatter("a", "vsb")) == "scatter_avsvsb.png";
    assert ArtifactName(Scatter("avs", "b")) == "scatter_avsvsb.png";
  }

  /** For any request other than a scatter plot, its file name occurs in a
      list of file names exactly as often as the request occurs in the list of
      requests. */
  lemma {:induction false} NameCountMatchesRequestCount(rs: seq<PlotRequest>, s: PlotRequest)
    requires !s.Scatter?
    ensures multiset(ArtifactNames(rs))[ArtifactName(s)] == multiset(rs)[s]
  {
    if rs != [] {
      var init := rs[..|rs| - 1];
      var last := rs[|rs| - 1];
      assert rs == init + [last];
      ArtifactNamesAppend(init, [last]);
      assert ArtifactNames([last]) == [ArtifactName(last)];
      NameCountMatchesRequestCount(init, s);
      ArtifactNameDeterminesRequest(last, s);
    }
  }
}

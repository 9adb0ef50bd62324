/** The plot planner (`auto_generate_plots`): from the classified columns it
    renders, in a fixed order, one histogram per numerical column, one scatter
    plot per pair of numerical columns, the correlation heatmap and the
    pairplot, and one pie chart per categorical column, and returns the list
    of image paths. */
module Planner {
  import opened Columns
  import opened Plots

  /** The scatter pairs (i, i+1), ..., (i, j-1) that the inner loop of row i
      has visited once it has reached j. */
  function RowPairs(i: nat, j: nat): seq<(nat, nat)>
  {
    seq(if j <= i + 1 then 0 else j - i - 1, a requires a >= 0 => (i, i + 1 + a))
  }

  /** The scatter pairs of the first `rows` rows of the outer loop over k
      numerical columns. */
  function PairsBefore(rows: nat, k: nat): (ps: seq<(nat, nat)>)
    ensures forall p :: p in ps ==> p.0 < rows && p.0 < p.1 < k
  {
    if rows == 0 then [] else PairsBefore(rows - 1, k) + RowPairs(rows - 1, k)
  }

  /** All scatter pairs for k numerical columns, in the loops' order. */
  function Pairs(k: nat): seq<(nat, nat)>
  {
    PairsBefore(k, k)
  }

  /** Lexicographic order on index pairs: the order of the nested loops. */
  predicate LexLess(p: (nat, nat), q: (nat, nat))
  {
    p.0 < q.0 || (p.0 == q.0 && p.1 < q.1)
  }

  /** The number of pairs i < j among k items, counted row by row as the
      loops count them. */
  function Choose2(k: nat): nat
  {
    if k == 0 then 0 else Choose2(k - 1) + (k - 1)
  }

  lemma {:induction false} Choose2Double(k: nat)
    ensures 2 * Choose2(k) == k * (k - 1)
  {
    if k > 0 {
      Choose2Double(k - 1);
      assert k * (k - 1) == (k - 1) * (k - 2) + 2 * (k - 1);
    }
  }

  lemma Choose2Closed(k: nat)
    ensures Choose2(k) == k * (k - 1) / 2
  {
    Choose2Double(k);
  }

  function HistogramRequests(num: seq<string>): seq<PlotRequest>
  {
    seq(|num|, i requires 0 <= i < |num| => Histogram(num[i]))
  }

  function ScatterRequests(num: seq<string>, ps: seq<(nat, nat)>): seq<PlotRequest>
    requires forall p :: p in ps ==> p.0 < |num| && p.1 < |num|
  {
    seq(|ps|, a requires 0 <= a < |ps| => Scatter(num[ps[a].0], num[ps[a].1]))
  }

  function PieRequests(cat: seq<string>): seq<PlotRequest>
  {
    seq(|cat|, i requires 0 <= i < |cat| => PieChart(cat[i]))
  }

  /** The auto-generation policy, stated on the classified column names. */
  function PlanRequests(num: seq<string>, cat: seq<string>): seq<PlotRequest>
  {
    HistogramRequests(num)
    + (if |num| > 1 then ScatterRequests(num, Pairs(|num|)) else [])
    + (if |num| > 0 then [CorrelationHeatmap, Pairplot] else [])
    + PieRequests(cat)
  }

  /** The plan for a schema. */
  function PlanFor(columns: seq<Column>): seq<PlotRequest>
  {
    PlanRequests(NumericalColumns(columns), CategoricalColumns(columns))
  }

  /** The list of image paths `auto_generate_plots` returns. */
  function PlotPaths(columns: seq<Column>): seq<string>
  {
    ArtifactNames(PlanFor(columns))
  }

  lemma ScatterRequestsAppend(num: seq<string>, ps: seq<(nat, nat)>, p: (nat, nat))
    requires forall q :: q in ps ==> q.0 < |num| && q.1 < |num|
    requires p.0 < |num| && p.1 < |num|
    ensures ScatterRequests(num, ps + [p]) == ScatterRequests(num, ps) + [Scatter(num[p.0], num[p.1])]
  {
    var lhs := ScatterRequests(num, ps + [p]);
    var rhs := ScatterRequests(num, ps) + [Scatter(num[p.0], num[p.1])];
    forall a | 0 <= a < |lhs| ensures lhs[a] == rhs[a] {
      if a < |ps| { assert (ps + [p])[a] == ps[a]; }
    }
  }

  lemma HistogramRequestsPrefix(num: seq<string>, n: nat)
    requires n < |num|
    ensures HistogramRequests(num[..n + 1]) == HistogramRequests(num[..n]) + [Histogram(num[n])]
  {
  }

  lemma PieRequestsPrefix(cat: seq<string>, n: nat)
    requires n < |cat|
    ensures PieRequests(cat[..n + 1]) == PieRequests(cat[..n]) + [PieChart(cat[n])]
  {
  }

  /** The scatter requests of the outer loop's first i rows. */
  ghost function ScatterRows(num: seq<string>, i: nat): seq<PlotRequest>
    requires i <= |num|
  {
    ScatterRequests(num, PairsBefore(i, |num|))
  }

  /** The scatter requests made once the inner loop of row i has reached j. */
  ghost function ScatterPrefix(num: seq<string>, i: nat, j: nat): seq<PlotRequest>
    requires i < |num| && j <= |num|
  {
    ScatterRequests(num, PairsBefore(i, |num|) + RowPairs(i, j))
  }

  lemma ScatterPrefixStart(num: seq<string>, i: nat)
    requires i < |num|
    ensures ScatterPrefix(num, i, i + 1) == ScatterRows(num, i)
  {
    assert PairsBefore(i, |num|) + RowPairs(i, i + 1) == PairsBefore(i, |num|);
  }

  lemma ScatterPrefixStep(num: seq<string>, i: nat, j: nat)
    requires i < j < |num|
    ensures ScatterPrefix(num, i, j + 1) == ScatterPrefix(num, i, j) + [Scatter(num[i], num[j])]
  {
    var ps := PairsBefore(i, |num|) + RowPairs(i, j);
    assert PairsBefore(i, |num|) + RowPairs(i, j + 1) == ps + [(i, j)];
    ScatterRequestsAppend(num, ps, (i, j));
  }

  lemma ScatterPrefixEnd(num: seq<string>, i: nat)
    requires i < |num|
    ensures ScatterPrefix(num, i, |num|) == ScatterRows(num, i + 1)
  {
  }

  /** The body of `auto_generate_plots` after the dtype split: each `plot_*`
      call renders one request (the ghost `plan` records it) and the loops
      append its path. */
  method PlanPlots(numericalCols: seq<string>, categoricalCols: seq<string>) returns (plotPaths: seq<string>)
    ensures plotPaths == ArtifactNames(PlanRequests(numericalCols, categoricalCols))
  {
    var k := |numericalCols|;
    ghost var plan: seq<PlotRequest> := [];
    plotPaths := [];

    if k > 0 {
      for n := 0 to k
        invariant plan == HistogramRequests(numericalCols[..n])
        invariant plotPaths == ArtifactNames(plan)
      {
        var col := numericalCols[n];
        var plotPath := "histogram_" + col + ".png";
        ArtifactNamesSnoc(plan, Histogram(col));
        HistogramRequestsPrefix(numericalCols, n);
        plan := plan + [Histogram(col)];
        plotPaths := plotPaths + [plotPath];
      }
    }
    assert numericalCols[..k] == numericalCols;
    assert plan == HistogramRequests(numericalCols);

    if k > 1 {
      for i := 0 to k
        invariant plan == HistogramRequests(numericalCols) + ScatterRows(numericalCols, i)
        invariant plotPaths == ArtifactNames(plan)
      {
        ScatterPrefixStart(numericalCols, i);
        for j := i + 1 to k
          invariant plan == HistogramRequests(numericalCols) + ScatterPrefix(numericalCols, i, j)
          invariant plotPaths == ArtifactNames(plan)
        {
          var plotPath := "scatter_" + numericalCols[i] + "vs" + numericalCols[j] + ".png";
          var request := Scatter(numericalCols[i], numericalCols[j]);
          ScatterPrefixStep(numericalCols, i, j);
          ArtifactNamesSnoc(plan, request);
          plan := plan + [request];
          plotPaths := plotPaths + [plotPath];
        }
        ScatterPrefixEnd(numericalCols, i);
      }
    }
    assert plan == HistogramRequests(numericalCols)
                   + (if k > 1 then ScatterRequests(numericalCols, Pairs(k)) else []);

    if k > 0 {
      ArtifactNamesSnoc(plan, CorrelationHeatmap);
      plan := plan + [CorrelationHeatmap];
      plotPaths := plotPaths + ["correlation_heatmap.png"];
    }

    if k > 0 {
      ArtifactNamesSnoc(plan, Pairplot);
      plan := plan + [Pairplot];
      plotPaths := plotPaths + ["pairplot.png"];
    }
    ghost var beforePies := plan;

    if |categoricalCols| > 0 {
      for n := 0 to |categoricalCols|
        invariant plan == beforePies + PieRequests(categoricalCols[..n])
        invariant plotPaths == ArtifactNames(plan)
      {
        var col := categoricalCols[n];
        var plotPath := "pie_chart_" + col + ".png";
        ArtifactNamesSnoc(plan, PieChart(col));
        PieRequestsPrefix(categoricalCols, n);
        plan := plan + [PieChart(col)];
        plotPaths := plotPaths + [plotPath];
      }
    }
    assert categoricalCols[..|categoricalCols|] == categoricalCols;
    assert plan == PlanRequests(numericalCols, categoricalCols);
  }

  /** `auto_generate_plots`: split the schema into numerical and object
      columns, keeping their order, and plan the plots. */
  method AutoGeneratePlots(columns: seq<Column>) returns (plotPaths: seq<string>)
    ensures plotPaths == PlotPaths(columns)
  {
    var numericalCols := NumericalColumns(columns);
    var categoricalCols := CategoricalColumns(columns);
    plotPaths := PlanPlots(numericalCols, categoricalCols);
  }

  // ---------------------------------------------------------------------------
  // The scatter pairs

  lemma {:induction false} PairsBeforeLength(rows: nat, k: nat)
    requires rows <= k
    ensures |PairsBefore(rows, k)| + Choose2(k - rows) == Choose2(k)
  {
    if rows > 0 {
      PairsBeforeLength(rows - 1, k);
      assert |RowPairs(rows - 1, k)| == k - rows;
      assert Choose2(k - rows + 1) == Choose2(k - rows) + (k - rows);
    }
  }

  lemma {:induction false} PairsBeforeSorted(rows: nat, k: nat)
    ensures forall a, b :: 0 <= a < b < |PairsBefore(rows, k)| ==>
              LexLess(PairsBefore(rows, k)[a], PairsBefore(rows, k)[b])
  {
    if rows > 0 {
      PairsBeforeSorted(rows - 1, k);
      var head, row := PairsBefore(rows - 1, k), RowPairs(rows - 1, k);
      var ps := PairsBefore(rows, k);
      forall a, b | 0 <= a < b < |ps| ensures LexLess(ps[a], ps[b]) {
        if b < |head| {
          assert ps[a] == head[a] && ps[b] == head[b];
        } else if a < |head| {
          assert ps[a] == head[a] && head[a] in head;
          assert ps[b] == row[b - |head|];
        } else {
          assert ps[a] == row[a - |head|] && ps[b] == row[b - |head|];
        }
      }
    }
  }

  /** Pair (i, j) sits right after the pairs of the rows before i. */
  lemma {:induction false} PairsBeforeAt(rows: nat, k: nat, i: nat, j: nat)
    requires i < rows && i < j < k
    ensures |PairsBefore(i, k)| + (j - i - 1) < |PairsBefore(rows, k)|
    ensures PairsBefore(rows, k)[|PairsBefore(i, k)| + (j - i - 1)] == (i, j)
  {
    var head, row := PairsBefore(rows - 1, k), RowPairs(rows - 1, k);
    assert PairsBefore(rows, k) == head + row;
    if i < rows - 1 {
      PairsBeforeAt(rows - 1, k, i, j);
    } else {
      assert row[j - i - 1] == (i, j);
    }
  }

  lemma PairsBeforeComplete(rows: nat, k: nat)
    ensures forall i, j :: 0 <= i < rows && i < j < k ==> (i, j) in PairsBefore(rows, k)
  {
    forall i, j | 0 <= i < rows && i < j < k ensures (i, j) in PairsBefore(rows, k) {
      PairsBeforeAt(rows, k, i, j);
    }
  }

  /** The nested loops visit exactly the pairs i < j of the k numerical
      columns, each once, in lexicographic order; there are k(k-1)/2 of them
      and none when k <= 1. */
  lemma PairsEnumerate(k: nat)
    ensures forall p :: p in Pairs(k) ==> p.0 < p.1 < k
    ensures forall i, j :: 0 <= i < j < k ==> (i, j) in Pairs(k)
    ensures forall a, b :: 0 <= a < b < |Pairs(k)| ==> LexLess(Pairs(k)[a], Pairs(k)[b])
    ensures |Pairs(k)| == Choose2(k)
    ensures k <= 1 ==> Pairs(k) == []
  {
    PairsBeforeLength(k, k);
    PairsBeforeComplete(k, k);
    PairsBeforeSorted(k, k);
  }

  /** Strictly increasing means no pair is visited twice. */
  lemma PairsDistinct(k: nat)
    ensures forall a, b :: 0 <= a < b < |Pairs(k)| ==> Pairs(k)[a] != Pairs(k)[b]
  {
    PairsEnumerate(k);
  }

  // ---------------------------------------------------------------------------
  // The layout of a plan

  /** k histograms, k(k-1)/2 scatter plots, the heatmap and pairplot when
      k >= 1, and m pie charts. */
  lemma PlanCount(num: seq<string>, cat: seq<string>)
    ensures |PlanRequests(num, cat)| == |num| + Choose2(|num|) + (if |num| >= 1 then 2 else 0) + |cat|
  {
    PairsBeforeLength(|num|, |num|);
  }

  lemma PlanLength(num: seq<string>, cat: seq<string>)
    ensures |PlanRequests(num, cat)|
            == |num| + |num| * (|num| - 1) / 2 + (if |num| >= 1 then 2 else 0) + |cat|
  {
    PlanCount(num, cat);
    Choose2Closed(|num|);
  }

  /** The plan opens with one histogram per numerical column, in column order. */
  lemma PlanHistogramsFirst(num: seq<string>, cat: seq<string>)
    ensures forall i :: 0 <= i < |num| ==> PlanRequests(num, cat)[i] == Histogram(num[i])
  {
  }

  /** After the histograms come the scatter plots of the pairs in loop order. */
  lemma PlanScattersNext(num: seq<string>, cat: seq<string>)
    ensures |num| + |Pairs(|num|)| <= |PlanRequests(num, cat)|
    ensures forall a :: 0 <= a < |Pairs(|num|)| ==>
              PlanRequests(num, cat)[|num| + a] == Scatter(num[Pairs(|num|)[a].0], num[Pairs(|num|)[a].1])
  {
    PairsEnumerate(|num|);
  }

  /** Every scatter plot of the plan names two numerical columns i < j, and
      every such pair has a scatter plot. */
  lemma PlanScatterPairs(num: seq<string>, cat: seq<string>, i: nat, j: nat)
    requires i < j < |num|
    ensures exists a :: 0 <= a < |Pairs(|num|)| && Pairs(|num|)[a] == (i, j)
                        && PlanRequests(num, cat)[|num| + a] == Scatter(num[i], num[j])
  {
    PairsEnumerate(|num|);
    PlanScattersNext(num, cat);
    var a :| 0 <= a < |Pairs(|num|)| && Pairs(|num|)[a] == (i, j);
  }

  /** The plan as its four segments. */
  lemma PlanSegments(num: seq<string>, cat: seq<string>)
    returns (hist: seq<PlotRequest>, scat: seq<PlotRequest>, mid: seq<PlotRequest>, pies: seq<PlotRequest>)
    ensures PlanRequests(num, cat) == hist + scat + mid + pies
    ensures |hist| == |num| && forall r :: r in hist ==> r.Histogram?
    ensures |scat| == Choose2(|num|) && forall r :: r in scat ==> r.Scatter?
    ensures mid == if |num| >= 1 then [CorrelationHeatmap, Pairplot] else []
    ensures |pies| == |cat| && forall r :: r in pies ==> r.PieChart?
  {
    PairsEnumerate(|num|);
    hist, pies := HistogramRequests(num), PieRequests(cat);
    scat := if |num| > 1 then ScatterRequests(num, Pairs(|num|)) else [];
    mid := if |num| > 0 then [CorrelationHeatmap, Pairplot] else [];
  }

  /** The heatmap and the pairplot each occur exactly once when there is a
      numerical column, and never otherwise. */
  lemma PlanHeatmapAndPairplotOnce(num: seq<string>, cat: seq<string>)
    ensures multiset(PlanRequests(num, cat))[CorrelationHeatmap] == (if |num| >= 1 then 1 else 0)
    ensures multiset(PlanRequests(num, cat))[Pairplot] == (if |num| >= 1 then 1 else 0)
  {
    var hist, scat, mid, pies := PlanSegments(num, cat);
    assert multiset(PlanRequests(num, cat)) == multiset(hist) + multiset(scat) + multiset(mid) + multiset(pies);
    assert CorrelationHeatmap !in hist && Pairplot !in hist;
    assert CorrelationHeatmap !in scat && Pairplot !in scat;
    assert CorrelationHeatmap !in pies && Pairplot !in pies;
  }

  /** The heatmap and then the pairplot stand right after the scatter plots,
      so before every pie chart. */
  lemma PlanHeatmapAndPairplotPosition(num: seq<string>, cat: seq<string>)
    requires |num| >= 1
    ensures var plan, c := PlanRequests(num, cat), |num| + Choose2(|num|);
            c + 1 < |plan| && plan[c] == CorrelationHeatmap && plan[c + 1] == Pairplot
            && |plan| - |cat| == c + 2
  {
    var hist, scat, mid, pies := PlanSegments(num, cat);
    var c := |num| + Choose2(|num|);
    var plan := PlanRequests(num, cat);
    assert plan[c] == mid[0] && plan[c + 1] == mid[1];
  }

  /** The plan closes with one pie chart per categorical column, in column order. */
  lemma PlanPiesLast(num: seq<string>, cat: seq<string>)
    ensures |cat| <= |PlanRequests(num, cat)|
    ensures forall i :: 0 <= i < |cat| ==>
              PlanRequests(num, cat)[|PlanRequests(num, cat)| - |cat| + i] == PieChart(cat[i])
  {
  }

  /** A schema with no numerical and no object column gives an empty plan,
      and only such a schema does. */
  lemma PlanEmpty(columns: seq<Column>)
    ensures PlanFor(columns) == [] <==> forall i :: 0 <= i < |columns| ==> columns[i].kind == Other
  {
    var num, cat := NumericalColumns(columns), CategoricalColumns(columns);
    if PlanFor(columns) == [] {
      forall i | 0 <= i < |columns| ensures columns[i].kind == Other {
        SelectedMembership(columns, Numeric, columns[i].name);
        SelectedMembership(columns, Object, columns[i].name);
      }
    } else if forall i :: 0 <= i < |columns| ==> columns[i].kind == Other {
      if num != [] {
        SelectedMembership(columns, Numeric, num[0]);
      } else {
        SelectedMembership(columns, Object, cat[0]);
      }
    }
  }

  /** A column that is neither numerical nor an object column changes nothing,
      wherever it stands. */
  lemma OtherColumnsIgnored(pre: seq<Column>, c: Column, post: seq<Column>)
    requires c.kind == Other
    ensures PlanFor(pre + [c] + post) == PlanFor(pre + post)
  {
    SelectedSkipsOtherKinds(pre, c, post, Numeric);
    SelectedSkipsOtherKinds(pre, c, post, Object);
  }

  /** The names of a plan that opens with the histograms of `num`. */
  lemma HistogramNames(plan: seq<PlotRequest>, num: seq<string>)
    requires |num| <= |plan|
    requires forall i :: 0 <= i < |num| ==> plan[i] == Histogram(num[i])
    ensures forall i :: 0 <= i < |num| ==> ArtifactNames(plan)[i] == "histogram_" + num[i] + ".png"
  {
  }

  /** The names of a plan that closes with the pie charts of `cat`. */
  lemma PieNames(plan: seq<PlotRequest>, cat: seq<string>)
    requires |cat| <= |plan|
    requires forall i :: 0 <= i < |cat| ==> plan[|plan| - |cat| + i] == PieChart(cat[i])
    ensures forall i :: 0 <= i < |cat| ==>
              ArtifactNames(plan)[|plan| - |cat| + i] == "pie_chart_" + cat[i] + ".png"
  {
  }

  /** The planner returns one path per request. */
  lemma PlanPathsCount(num: seq<string>, cat: seq<string>)
    ensures |ArtifactNames(PlanRequests(num, cat))|
            == |num| + Choose2(|num|) + (if |num| >= 1 then 2 else 0) + |cat|
  {
    PlanCount(num, cat);
  }

  /** The returned paths open with `histogram_{col}.png` for each numerical
      column, in schema order. */
  lemma PlanPathsHistograms(num: seq<string>, cat: seq<string>)
    ensures |num| <= |ArtifactNames(PlanRequests(num, cat))|
    ensures forall i :: 0 <= i < |num| ==>
              ArtifactNames(PlanRequests(num, cat))[i] == "histogram_" + num[i] + ".png"
  {
    PlanHistogramsFirst(num, cat);
    HistogramNames(PlanRequests(num, cat), num);
  }

  /** The returned paths close with `pie_chart_{col}.png` for each object
      column, in schema order. */
  lemma PlanPathsPies(num: seq<string>, cat: seq<string>)
    ensures |cat| <= |ArtifactNames(PlanRequests(num, cat))|
    ensures var paths := ArtifactNames(PlanRequests(num, cat));
            forall i :: 0 <= i < |cat| ==> paths[|paths| - |cat| + i] == "pie_chart_" + cat[i] + ".png"
  {
    PlanPiesLast(num, cat);
    PieNames(PlanRequests(num, cat), cat);
  }

  /** The heatmap and pairplot paths each occur once exactly when a numerical
      column exists, and never otherwise. */
  lemma PlanPathsHeatmapAndPairplotOnce(num: seq<string>, cat: seq<string>)
    ensures multiset(ArtifactNames(PlanRequests(num, cat)))["correlation_heatmap.png"] == (if |num| >= 1 then 1 else 0)
    ensures multiset(ArtifactNames(PlanRequests(num, cat)))["pairplot.png"] == (if |num| >= 1 then 1 else 0)
  {
    var plan := PlanRequests(num, cat);
    PlanHeatmapAndPairplotOnce(num, cat);
    NameCountMatchesRequestCount(plan, CorrelationHeatmap);
    NameCountMatchesRequestCount(plan, Pairplot);
    assert ArtifactName(CorrelationHeatmap) == "correlation_heatmap.png";
    assert ArtifactName(Pairplot) == "pairplot.png";
  }

  /** Two numerical columns followed by an object column, such as age,
      income and city, give six plots. */
  lemma TwoNumericOneObjectPlan(x: string, y: string, z: string)
    ensures PlanFor([Column(x, Numeric), Column(y, Numeric), Column(z, Object)])
            == [Histogram(x), Histogram(y), Scatter(x, y), CorrelationHeatmap, Pairplot, PieChart(z)]
  {
    TwoNumericOneObjectSplit(Column(x, Numeric), Column(y, Numeric), Column(z, Object));
    assert Pairs(2) == [(0, 1)];
    assert ScatterRequests([x, y], [(0, 1)]) == [Scatter(x, y)];
  }

  lemma TwoNumericOneObjectSplit(a: Column, b: Column, c: Column)
    requires a.kind == Numeric && b.kind == Numeric && c.kind == Object
    ensures NumericalColumns([a, b, c]) == [a.name, b.name]
    ensures CategoricalColumns([a, b, c]) == [c.name]
  {
    assert [] + [a] == [a] && [a] + [b] == [a, b] && [a, b] + [c] == [a, b, c];
    SelectedSnoc([], a, Numeric);
    SelectedSnoc([], a, Object);
    SelectedSnoc([a], b, Numeric);
    SelectedSnoc([a], b, Object);
    SelectedSnoc([a, b], c, Numeric);
    SelectedSnoc([a, b], c, Object);
  }
}

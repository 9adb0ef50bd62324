# Data visualization report: plot planning and pagination

This project models the decision logic of `Python-Data-Visualization.py`, a
script that reads a CSV dataset, picks charts for its columns, renders them
to PNG files and lays them out in a PDF report. It has three parts.

- **Plot planner** (`auto_generate_plots`). Columns are split, in schema
  order, into numerical columns (`np.number`) and object columns. The planner
  then renders and lists, in this order:
  - one histogram per numerical column;
  - one scatter plot per pair `i < j` of numerical columns, with `i` in the
    outer loop;
  - the correlation heatmap, then the pairplot, when any numerical column
    exists;
  - one pie chart per object column.

  It returns the list of image paths.
- **Paginator** (`generate_pdf_report`). It draws the title on each letter
  page (612 × 792 points). A cursor starts at y = 642. Each image is drawn at
  (100, y), 400 × 300 points, and the cursor then drops by 350. After each
  image, a cursor below 100 starts a new page, redraws the title and resets
  the cursor.
- **Single-plot menu** (option 2 of `main`). It renders one chosen plot, but
  only when the column names typed for it are columns of the dataset.

Modules, one per component: `Columns` (columns.dfy), `Plots` (plots.dfy),
`Planner` (planner.dfy), `Report` (report.dfy) and `SinglePlot`
(single_plot.dfy).

How it is modelled:

- The planner is the method `Planner.PlanPlots`. It has the source's three
  loops, including the nested scatter loops, and appends to a list of paths.
  It is proved equal to the pure plan `Planner.PlanRequests`, mapped through
  the naming scheme `Plots.ArtifactName`.
- The PDF canvas is the class `Report.Canvas`. Its fields are the closed
  pages, the operations of the current page and a saved flag. Each canvas
  call of the source updates them in place.
- `Report.GeneratePdfReport` runs the cursor loop on that canvas. It is
  proved to produce `Report.ReportPages`, a closed-form layout: page `p` holds
  the title, then image `2p` at y = 642 and image `2p+1` at y = 292, where
  those images exist.
- The menu validation is the pure function `SinglePlot.SpecificPlot`.

Behaviour that the model keeps as the code has it:

- File names are not guaranteed unique. `scatter_{x}vs{y}.png` is ambiguous
  when a column name contains `vs` (`Plots.ScatterNamesCanCollide`). Every
  other file name identifies its request.
- The page-break test comes after each image is placed. So any even number
  of images, including two and zero, ends with a page that holds only the
  title (`Report.TwoImagesMakeTwoPages`, `Report.PageStructure`).
- A missing column gives the fixed message "Column not found." or "One or
  both columns not found.". The message does not name the column.
- The single-plot menu checks only that a column exists, not its dtype. A
  histogram of an object column passes validation.

## Model

| member | source | states |
|---|---|---|
| `Columns.IndicesOf` | Python-Data-Visualization.py:74-75 | the selected positions are exactly the columns of the requested dtype, strictly increasing, so schema order is kept |
| `Columns.SelectedMembership` | Python-Data-Visualization.py:74-75 | a name is selected iff some column of that dtype carries it |
| `Columns.PartitionSize` | Python-Data-Visualization.py:74-75 | every column falls in exactly one of numerical, object and other |
| `Columns.SelectedSkipsOtherKinds` | Python-Data-Visualization.py:74-75 | a column of another dtype, wherever it stands, adds nothing to a selection |
| `Plots.ArtifactNameDeterminesRequest` | Python-Data-Visualization.py:81-104 | every file name except a scatter plot's names exactly one request |
| `Plots.ScatterNamesCanCollide` | Python-Data-Visualization.py:88 | two different scatter pairs can share one file name |
| `Plots.NameCountMatchesRequestCount` | Python-Data-Visualization.py:77-108 | a non-scatter file name occurs in the path list exactly as often as its request occurs in the plan |
| `Planner.PairsBefore` | Python-Data-Visualization.py:86-87 | every pair the outer loop has visited has i < j < k |
| `Planner.Choose2Closed` | Python-Data-Visualization.py:86-87 | the pair count Choose2(k), built row by row, equals k(k-1)/2 |
| `Planner.PairsBeforeLength` | Python-Data-Visualization.py:86-87 | the first r rows hold Choose2(k) - Choose2(k-r) pairs, the pairs not among the last k-r columns |
| `Planner.PairsBeforeSorted` | Python-Data-Visualization.py:86-87 | the visited pairs are strictly increasing in lexicographic order |
| `Planner.PairsBeforeAt` | Python-Data-Visualization.py:86-87 | pair (i, j) is visited right after all pairs of the rows before i, at offset j-i-1 |
| `Planner.PairsBeforeComplete` | Python-Data-Visualization.py:86-87 | every pair i < j < k whose row was visited is present |
| `Planner.PairsEnumerate` | Python-Data-Visualization.py:85-90 | the scatter pairs are exactly the i < j < k, in lexicographic order, k(k-1)/2 of them, and none when k <= 1 |
| `Planner.PairsDistinct` | Python-Data-Visualization.py:85-90 | no pair is visited twice |
| `Planner.PlanPlots` | Python-Data-Visualization.py:77-108 | the loops return exactly the file names of the plan, in plan order |
| `Planner.AutoGeneratePlots` | Python-Data-Visualization.py:70-108 | the returned paths are the plan of the schema's numerical and object columns |
| `Planner.PlanCount` | Python-Data-Visualization.py:77-108 | the plan has k + Choose2(k) + (2 if k >= 1 else 0) + m requests |
| `Planner.PlanLength` | Python-Data-Visualization.py:77-108 | the plan has k + k(k-1)/2 + (2 if k >= 1 else 0) + m requests |
| `Planner.PlanHistogramsFirst` | Python-Data-Visualization.py:79-83 | the first k requests are the histograms of the numerical columns in order |
| `Planner.PlanScattersNext` | Python-Data-Visualization.py:85-90 | the requests after the histograms are the scatter plots of the pairs in loop order |
| `Planner.PlanScatterPairs` | Python-Data-Visualization.py:85-90 | each pair i < j has its scatter plot at the pair's position |
| `Planner.PlanSegments` | Python-Data-Visualization.py:77-108 | the plan is histograms, scatters, heatmap and pairplot, pies, each segment of the expected size and kind |
| `Planner.PlanHeatmapAndPairplotOnce` | Python-Data-Visualization.py:92-100 | heatmap and pairplot occur exactly once each iff k >= 1 |
| `Planner.PlanHeatmapAndPairplotPosition` | Python-Data-Visualization.py:92-106 | heatmap then pairplot come right after the scatter plots and right before the pie charts |
| `Planner.PlanPiesLast` | Python-Data-Visualization.py:102-106 | the last m requests are the pie charts of the object columns in order |
| `Planner.PlanEmpty` | Python-Data-Visualization.py:74-108 | the plan is empty iff no column is numerical or object |
| `Planner.OtherColumnsIgnored` | Python-Data-Visualization.py:74-75 | inserting a column of another dtype leaves the plan unchanged |
| `Planner.PlanPathsCount` | Python-Data-Visualization.py:77-108 | the planner returns k + Choose2(k) + (2 if k >= 1 else 0) + m paths |
| `Planner.PlanPathsHistograms` | Python-Data-Visualization.py:79-83 | the returned paths open with `histogram_{col}.png` for each numerical column, in order |
| `Planner.PlanPathsPies` | Python-Data-Visualization.py:102-106 | the returned paths close with `pie_chart_{col}.png` for each object column, in order |
| `Planner.PlanPathsHeatmapAndPairplotOnce` | Python-Data-Visualization.py:92-100 | `correlation_heatmap.png` and `pairplot.png` each occur in the returned paths exactly once iff k >= 1, never otherwise |
| `Planner.TwoNumericOneObjectPlan` | Python-Data-Visualization.py:70-108 | two numerical columns and an object column give the six requests in order |
| `Planner.TwoNumericOneObjectSplit` | Python-Data-Visualization.py:74-75 | numerical, numerical, object columns split into two and one names |
| `Report.Canvas.constructor` | Python-Data-Visualization.py:114 | a new canvas has no pages, no operations and is not saved |
| `Report.Canvas.SetFont` | Python-Data-Visualization.py:117 | the font change is appended to the current page |
| `Report.Canvas.DrawString` | Python-Data-Visualization.py:118 | the string is appended to the current page |
| `Report.Canvas.DrawImage` | Python-Data-Visualization.py:123 | the image is appended to the current page |
| `Report.Canvas.ShowPage` | Python-Data-Visualization.py:127 | the current page is closed and a new empty one begins |
| `Report.Canvas.Save` | Python-Data-Visualization.py:132 | a non-empty current page is closed and the document is saved |
| `Report.GeneratePdfReport` | Python-Data-Visualization.py:110-132 | the canvas is letter-sized and saved with no pending page, and its document is exactly the two-images-per-page layout |
| `Report.ImagePathsAppend` | Python-Data-Visualization.py:122-124 | the images of two operation lists are the images of each, in order |
| `Report.PageImages` | Python-Data-Visualization.py:122-130 | page p draws images 2p and 2p+1, those that exist |
| `Report.DocumentImagesPrefix` | Python-Data-Visualization.py:122-130 | the first q pages draw the first 2q images |
| `Report.DocumentImagesInOrder` | Python-Data-Visualization.py:122-124 | every input path is drawn exactly once, in input order |
| `Report.ImagePlacement` | Python-Data-Visualization.py:120-130 | image i is on page i/2, at (100, 642 - 350·(i mod 2)), 400 × 300 |
| `Report.PageStructure` | Python-Data-Visualization.py:114-132 | there are N div 2 + 1 pages; each starts with the title at (100, 692) and holds at most two images; all but the last hold two; the last holds only the title iff N is even |
| `Report.ImagesWithinMargins` | Python-Data-Visualization.py:120-126 | every image is at x = 100, 400 × 300, at y = 642 or 292, never below 100 |
| `Report.TwoImagesMakeTwoPages` | Python-Data-Visualization.py:120-132 | two images give a full first page and a title-only second page |
| `SinglePlot.SpecificPlot` | Python-Data-Visualization.py:163-194 | a plot is produced iff the choice is 1-5 and every column asked for is a dataset column; choice 1 gives a histogram, 2 a scatter plot, 3 the pairplot, 4 the heatmap and 5 a pie chart, of the columns asked for; its path follows the planner's naming; otherwise the not-found or invalid-choice outcome |
| `SinglePlot.RequestInPlan` | Python-Data-Visualization.py:77-108 | a histogram of a numerical column, a scatter of numerical columns i < j, heatmap and pairplot when k >= 1, and a pie of an object column are each in the plan |
| `SinglePlot.PlannedPath` | Python-Data-Visualization.py:77-108 | the file name of each such request is among the planner's returned paths |
| `SinglePlot.SpecificPlotMatchesPlanner` | Python-Data-Visualization.py:165-191 | a rendered single plot whose request the planner also makes has its path in the planner's list for that schema |

## Left out

- Chart drawing (`plot_histogram`, `plot_scatter`, `plot_pairplot`, `plot_correlation_heatmap`, `plot_pie_chart`, lines 17-68): these are matplotlib and seaborn calls. The model treats them as a renderer that always succeeds, and records only the request and its path.
- `load_data` (line 15): CSV reading through pandas is I/O. The schema is an input.
- dtype inference (`select_dtypes`, lines 74-75): each column's dtype family is given as `Numeric`, `Object` or `Other`.
- ReportLab internals: image decoding, fonts, and writing the PDF file. The canvas keeps only the drawing operations and the page breaks. `Report.Canvas.Save` takes it that saving closes a page that holds operations.
- `Report.GeneratePdfReport`: it does not model a path that cannot be read as an image. In ReportLab that raises an error and aborts the report.
- Page size: letter is (612.0, 792.0) in floating point, but all of its arithmetic here is integral. It is modelled with integers.
- The menu handling (`input`, `print`, choices 1 and 3 of `main`) and the `os.remove` cleanup (lines 134-206): these are console and file-system side effects. Choice 3 is `AutoGeneratePlots` followed by `GeneratePdfReport`.
- The entry guard `_name_ == "_main_"` (line 208): it raises a NameError when the module is loaded, so it has nothing to model.
- Uniqueness of file names: it does not hold. `Plots.ScatterNamesCanCollide` exhibits a clash.

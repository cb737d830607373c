# Supervoxel segmentation tool chain: a verified model of its core helpers

The repository segments 3-D microscopy volumes into supervoxels and trains
structured models on them. This project models, in Dafny, the parts of it
that do the bookkeeping around that pipeline:

- the plotting scripts that read a column out of a training log
  (`plotData.py`) and turn the driver's options into directory patterns, a
  time window and an output directory (`plotAll.py`);
- pieces of the bundled libDAI 0.2.4:
  - the reader of tab-separated evidence files (`evidence.cpp`);
  - the cluster graph (`clustergraph.h`);
  - the probability vector `TProb` (`prob.h`);
  - the bookkeeping helpers of clamped BP (`cbp.cpp`) and of HAK (`hak.cpp`);
  - the general utilities (`util.h`);
- the active-node queues, the orphan list, the changed list and
  `maxflow_init` of the Boykov-Kolmogorov max-flow solver (`maxflow.cpp`);
- the SLIC driver's path, contour-drawing and pixel-unpacking helpers
  (`superpixel_test.cpp`);
- the feature-file bookkeeping of `F_LoadFromFile` and the volume object
  `Slice3d`.

The model follows the form of each source file:

- Pure code is written as datatypes, functions and lemmas.
- Code that works step by step is written as methods with loops and
  invariants. Each method is proved against a function that specifies it.
- Objects whose fields the source updates are written as classes with
  `modifies` and `reads` frames. These are the evidence store, `ClusterGraph`,
  `TProb`, the CBP beliefs, the HAK properties, the max-flow `Graph`, the
  feature source and `Slice3d`.

The max-flow lists are modelled at two levels:

- Module `MaxflowLists` states each list operation on values and proves what
  it does to the queues it represents.
- Module `Maxflow` performs the same updates in place. Its methods are proved
  equal to those value operations, and they keep the invariant stated in the
  comment at maxflow.cpp:19-30.

Files:

- wrappers.dfy: Option and Result.
- decimal.dfy: decimal text of naturals.
- plot_data.dfy, plot_all.dfy: the plotting scripts.
- evidence.dfy, cluster_graph.dfy, prob.dfy, cbp.dfy, hak.dfy, dai_util.dfy:
  the libDAI parts.
- maxflow_lists.dfy, maxflow.dfy: the max-flow solver.
- superpixel.dfy: the SLIC driver helpers.
- load_from_file.dfy, slice3d.dfy: `F_LoadFromFile` and `Slice3d`.

Conventions:

- A text stream is modelled as the sequence of its lines.
- A pointer into a block of records is modelled as an index, with NULL as -1.
- Reals stand for C++ doubles.

## Model

| member | source | states |
|---|---|---|
| PlotData.WordLength | scripts/plotData.py:27 | The first token of a line is the longest whitespace-free prefix, and it ends at whitespace or at the end of the line. |
| PlotData.Words | scripts/plotData.py:27 | `split()` yields non-empty tokens without whitespace; a line that is one token splits into itself. |
| PlotData.BlankLineHasNoWords | scripts/plotData.py:36-38 | A line of whitespace splits into no tokens: this is the line that ends the data. |
| PlotData.WordLengthOfToken | scripts/plotData.py:36 | A token followed by a space is cut exactly at its own length. |
| PlotData.WordsOfTokenAndRest | scripts/plotData.py:36 | Splitting a token, a space and the rest gives the token and then the split of the rest. |
| PlotData.DeadRejects | scripts/plotData.py:10-15 | Once the float scanner has failed, no continuation is a float. |
| PlotData.DigitsAccepted | scripts/plotData.py:10-15 | Digits after a digit state keep the literal acceptable. |
| PlotData.DigitsAreFloat | scripts/plotData.py:10-15 | `isFloat` holds on every non-empty run of digits. |
| PlotData.EmptyIsNotFloat | scripts/plotData.py:10-15 | `isFloat("")` is false. |
| PlotData.LetterTokenIsNotFloat | scripts/plotData.py:10-15 | A token starting with a letter other than i/n (any case) is not a float, so such a first line is a header. |
| PlotData.PointNumeralIsFloat | scripts/plotData.py:10-15 | A numeral `d.d` is a float. |
| PlotData.FirstDataIndex | scripts/plotData.py:24-30 | Indexing the first token fails (IndexError) exactly when the first line has no token; otherwise the data start at 1 exactly when that token is not a float, and at 0 when it is. |
| PlotData.ExtractedValuesAreNumbers | scripts/plotData.py:34-39 | At most one value is read per line, and every value read is a float literal. |
| PlotData.Placeholders | scripts/plotData.py:32 | `objs` gets one slot per line from the first data line on. |
| PlotData.PrependNothing | scripts/plotData.py:33 | Starting with no values read changes no outcome. |
| PlotData.ExtractStops | scripts/plotData.py:37-39 | The end of the file, a line without tokens, or a short line under the stop policy ends the read with the values so far. |
| PlotData.ExtractSkips | scripts/plotData.py:39 | Under the skip policy, a short line is passed over. |
| PlotData.ExtractRejects | scripts/plotData.py:34-39 | A column token that is not a float ends the read with ValueError naming that token. |
| PlotData.ExtractTakes | scripts/plotData.py:34-39 | A float in the column is appended, and reading goes on with the next line. |
| PlotData.ReadLine | scripts/plotData.py:35-39 | One pass of the loop: its outcome (end, rejection or next line) keeps the values read plus the rest of the read equal to the specification. |
| PlotData.FillSlot | scripts/plotData.py:32-39 | Filling slot `n` extends the filled prefix of `objs` by exactly that value. |
| PlotData.ReadDataLines | scripts/plotData.py:32-39 | The loop over the data lines returns exactly the column read of those lines, with one slot per data line. |
| PlotData.ReadColumnFromFile | scripts/plotData.py:17-39 | `readColumnFromFile` equals its specification `ReadColumn`: an empty file gives `[]`, a successful read has one slot per data line and never more values than slots. |
| PlotData.StopsAtFirstBlankLine | scripts/plotData.py:37-38 | Nothing after the first line without tokens affects the result. |
| PlotData.WellFormedLinesReadInOrder | scripts/plotData.py:34-39 | When every data line has a float in the column, the result has one value per line, in file order: the column token of that line. |
| PlotData.HeaderIsSkipped | scripts/plotData.py:24-30 | A first line whose first token is not a float is skipped and is not data. |
| PlotData.NumericFirstLineIsData | scripts/plotData.py:24-30 | A first line that starts with a float is read as data. |
| PlotAll.PyIndex | scripts/plotAll.py:16 | `row[i]` is defined exactly for `-len <= i < len`, and a negative index counts from the end. |
| PlotAll.Column | scripts/plotAll.py:15-16 | `column(matrix, i)` succeeds exactly when every row can be indexed by `i`; it then has one entry per row, each being that row's `row[i]`. |
| PlotAll.IndexOf | scripts/plotAll.py:42 | The position of the first separator, or the length when there is none. |
| PlotAll.Split | scripts/plotAll.py:42 | `split(',')` always yields at least one piece. |
| PlotAll.SplitPiecesLackSeparator | scripts/plotAll.py:42 | No piece contains the separator. |
| PlotAll.JoinSplit | scripts/plotAll.py:42 | Joining the pieces with the separator gives the option text back. |
| PlotAll.SplitJoin | scripts/plotAll.py:42 | Pieces without the separator are recovered exactly by splitting their join. |
| PlotAll.SplitAtFirst | scripts/plotAll.py:42 | The first piece runs up to the first separator, and the rest is split again. |
| PlotAll.JoinCons | scripts/plotAll.py:42 | Joining puts exactly one separator between consecutive pieces. |
| PlotAll.CutAt | scripts/plotAll.py:42 | A string is its prefix, the character at the cut, and its suffix. |
| PlotAll.ReplacePlus | scripts/plotAll.py:45 | No `+` remains in the pattern, and a pattern without `+` is unchanged. |
| PlotAll.ReplacePlusLength | scripts/plotAll.py:45 | Each `+` lengthens the pattern by one character. |
| PlotAll.ReplacePlusConcat | scripts/plotAll.py:45 | The rewrite commutes with concatenation. |
| PlotAll.ReplacePlusUnchangedIff | scripts/plotAll.py:45 | A pattern is left as it is if and only if it holds no `+`. |
| PlotAll.CountPositive | scripts/plotAll.py:45 | A pattern with a `+` has a positive count of them. |
| PlotAll.RewriteDirNames | scripts/plotAll.py:44-45 | The in-place loop replaces every entry of the list by its rewritten pattern. |
| PlotAll.DirNamePatterns | scripts/plotAll.py:42-45 | There is one pattern per comma-separated piece of the option, in order, each with `+` read as `.*`, and none contains `+`. |
| PlotAll.StripLeading | scripts/plotAll.py:30 | `int()` skips leading whitespace: the result is a suffix that does not start with whitespace. |
| PlotAll.StripTrailing | scripts/plotAll.py:30 | `int()` skips trailing whitespace: the result is a prefix that does not end with whitespace. |
| PlotAll.MaxDeltaTime | scripts/plotAll.py:28-30 | The default gives 0. A given value is accepted exactly when `int()` accepts it, and the window is then `1440 * int(value)` minutes: a whole number of days. |
| PlotAll.StripLeadingSpaces | scripts/plotAll.py:30 | Any run of leading whitespace is skipped, whatever follows it. |
| PlotAll.StripTrailingSpaces | scripts/plotAll.py:30 | Any run of trailing whitespace is dropped, whatever precedes it. |
| PlotAll.ParseIntTrims | scripts/plotAll.py:30 | Whitespace around a text that starts and ends with something else does not change what `int()` reads. |
| PlotAll.ParseIntNeedsDigit | scripts/plotAll.py:30 | `int()` (`ParseInt`) accepts no text without a digit. |
| PlotAll.ParseIntUnsigned | scripts/plotAll.py:30 | Digits with whitespace around them read as their decimal value. |
| PlotAll.ParseIntSigned | scripts/plotAll.py:30 | A `+` or `-`, optional whitespace, then digits, with whitespace around, read as the signed value (Python 2 reads `" - 5 "` as -5). |
| PlotAll.SignedDecimal | scripts/plotAll.py:30 | `str(n)` of an integer is non-empty and starts with a non-space. |
| PlotAll.ParseIntRoundTrip | scripts/plotAll.py:30 | `int(str(n)) == n` for every integer, negative ones included, with any whitespace around the text. |
| PlotAll.DaysInMinutes | scripts/plotAll.py:30 | `60*24*days` is a multiple of 1440 whose quotient is the day count. |
| PlotAll.MaxDeltaTimeOfPrintedDays | scripts/plotAll.py:28-30 | An option printed as `str(d)` for any integer `d`, with any whitespace around it, gives exactly `1440*d` minutes. |
| PlotAll.OutputDir | scripts/plotAll.py:36 | The output directory is HOME, then `/public_html/`, then the option, with nothing else. |
| Decimal.DigitValue | lib/libDAI024/src/evidence.cpp:75 | A digit's value is below ten. |
| Decimal.DigitChar | lib/libDAI024/src/evidence.cpp:28-30 | The character printed for a digit value reads back as that value. |
| Decimal.NatToString | lib/libDAI024/src/evidence.cpp:28-30 | A label prints as a non-empty string of digits without a leading zero. |
| Decimal.NatToStringRoundTrip | lib/libDAI024/src/evidence.cpp:28-30 | Reading back a printed number gives the number. |
| Decimal.NatToStringInjective | lib/libDAI024/src/evidence.cpp:28-30 | Distinct labels print differently. |
| Evidence.LabelMap | lib/libDAI024/src/evidence.cpp:26-31 | Every variable's printed label is a key, and each key maps to a variable printed as that key. |
| Evidence.LabelMapValues | lib/libDAI024/src/evidence.cpp:27-31 | The map holds only variables of the graph. |
| Evidence.LabelMapFindsVariable | lib/libDAI024/src/evidence.cpp:27-31 | With distinct labels, each variable is found under its own printed label. |
| Evidence.BuildLabelMap | lib/libDAI024/src/evidence.cpp:27-31 | The loop builds exactly `LabelMap`. |
| Evidence.NamedVars | lib/libDAI024/src/evidence.cpp:49-55 | The header succeeds exactly when every field is a known label, giving their variables in order. Otherwise the error names an unknown field. |
| Evidence.HeaderVars | lib/libDAI024/src/evidence.cpp:43-55 | An empty header line, and only that, is `EmptyHeader`; success gives one variable per field. |
| Evidence.ReadHeader | lib/libDAI024/src/evidence.cpp:49-55 | The lookup loop computes exactly `HeaderVars`. |
| Evidence.NamedVarsAfterNothing | lib/libDAI024/src/evidence.cpp:49 | With no variables read yet, the outcome is unchanged. |
| Evidence.NamedVarsAfterAppend | lib/libDAI024/src/evidence.cpp:54 | Pushing one more variable extends the variables read. |
| Evidence.RowFrom | lib/libDAI024/src/evidence.cpp:71-80 | A rejected field reports InvalidState or StateTooLarge with the current line number. |
| Evidence.RowAcceptedIff | lib/libDAI024/src/evidence.cpp:71-80 | A row is accepted if and only if each field is empty, or is all digits with a value below the variable's state count. |
| Evidence.RowErrorAtFirstBadField | lib/libDAI024/src/evidence.cpp:72-77 | A rejected row's error comes from its first bad field: InvalidState for a non-digit, StateTooLarge for a value too large. |
| Evidence.RowContents | lib/libDAI024/src/evidence.cpp:72-78 | A variable is observed exactly when a non-empty field is in its column; its value is the last such field's number; missing fields leave it unobserved. |
| Evidence.ParseLine | lib/libDAI024/src/evidence.cpp:65-68 | A line is InvalidFieldCount(line number) exactly when its field count differs from the header's. |
| Evidence.AllMissingObservesNothing | lib/libDAI024/src/evidence.cpp:72 | A row of empty fields is accepted and observes nothing. |
| Evidence.ReadSampleLine | lib/libDAI024/src/evidence.cpp:65-80 | The inner loop reads a line exactly as `ParseLine` specifies. |
| Evidence.Samples | lib/libDAI024/src/evidence.cpp:62-82 | No more samples than lines are read. |
| Evidence.SamplesCount | lib/libDAI024/src/evidence.cpp:62-82 | Without error there is one observation per line; an error leaves fewer observations than lines. |
| Evidence.SamplesStopAtError | lib/libDAI024/src/evidence.cpp:62-82 | The reported error is the parse error of the line right after the accepted ones, under that line's number. |
| Evidence.SampleIsItsLine | lib/libDAI024/src/evidence.cpp:62-81 | The k-th observation is what the k-th sample line, numbered k+1, parses to. |
| Evidence.SamplesUnfold | lib/libDAI024/src/evidence.cpp:62-81 | The first observation is the first line's, followed by those of the remaining lines. |
| Evidence.SamplesAdvance | lib/libDAI024/src/evidence.cpp:62-81 | An accepted line moves one observation into the result and the read on to the next line. |
| Evidence.SamplesHalt | lib/libDAI024/src/evidence.cpp:66-77 | A rejected line stops the read with the observations so far and its error. |
| Evidence.ReadEvidence | lib/libDAI024/src/evidence.cpp:37-83 | A missing or empty header is EmptyHeader. A good header not followed by an empty line is ExpectingEmptyLine. Neither error records any observation. |
| Evidence.ReadEvidenceCountsSamples | lib/libDAI024/src/evidence.cpp:57-82 | A file read without error has an empty second line and one observation per line after it. |
| Evidence.EvidenceSet.constructor | lib/libDAI024/src/evidence.cpp:37 | A new store holds no samples. |
| Evidence.EvidenceSet.AddEvidenceTabFile | lib/libDAI024/src/evidence.cpp:37-83 | The store gains the observations of the lines read before any error, in order, and the error is reported. |
| Evidence.EvidenceSet.AddEvidenceFromGraph | lib/libDAI024/src/evidence.cpp:25-34 | The same, with the graph's variables known by their printed labels. |
| DaiUtil.Abs | lib/libDAI024/include/dai/util.h:125-128 | `abs(t)` is non-negative and is `t` or `-t`. |
| DaiUtil.AbsNegate | lib/libDAI024/include/dai/util.h:125-128 | `abs(-t) == abs(t)`. |
| DaiUtil.AbsTriangle | lib/libDAI024/include/dai/util.h:125-128 | `abs(a+b) <= abs(a)+abs(b)`. |
| DaiUtil.Concat | lib/libDAI024/include/dai/util.h:187-196 | The result holds `u`, then `v`, and nothing else. |
| DaiUtil.ShowItemsConcat | lib/libDAI024/include/dai/util.h:153-154 | Printing two non-empty runs in a row puts exactly one `", "` between them. |
| DaiUtil.ShowVector | lib/libDAI024/include/dai/util.h:150-157 | A vector prints between parentheses; empty is `()`, a single element `(x)`. |
| DaiUtil.WriteVector | lib/libDAI024/include/dai/util.h:150-157 | The loop appends exactly `ShowVector` to the stream. |
| DaiUtil.ShowSet | lib/libDAI024/include/dai/util.h:160-167 | A set prints between braces, in ascending order; empty is `{}`. |
| DaiUtil.WriteSet | lib/libDAI024/include/dai/util.h:160-167 | The loop appends exactly `ShowSet`. |
| DaiUtil.ShowMap | lib/libDAI024/include/dai/util.h:170-177 | A map prints between braces as `k->v` in key order; one entry is `{k->v}`. |
| DaiUtil.WriteMap | lib/libDAI024/include/dai/util.h:170-177 | The loop appends exactly `ShowMap`. |
| DaiUtil.ShowPair | lib/libDAI024/include/dai/util.h:180-184 | A pair prints as `(`, the first part, `, `, the second part, `)`, each piece at its own position. |
| DaiUtil.PairPrintsLikeVector | lib/libDAI024/include/dai/util.h:150-184 | A pair prints exactly like the two-element vector of its parts. |
| DaiUtil.FirstDelimiter | lib/libDAI024/include/dai/util.h:199 | Finds the first tab or newline, or the end of the text. |
| DaiUtil.Tokenize | lib/libDAI024/include/dai/util.h:199 | The text yields no field exactly when it is empty, and no field contains a delimiter. |
| DaiUtil.FirstDelimiterAfterField | lib/libDAI024/include/dai/util.h:199 | A field followed by a tab ends at that tab. |
| DaiUtil.TokenizeJoinTabs | lib/libDAI024/include/dai/util.h:199 | Tokenizing a tab-joined row gives its fields back, provided no field holds a delimiter and the last field is non-empty. |
| ClusterGraphs.Union | lib/libDAI024/include/dai/clustergraph.h:78 | `a \| b` is ascending and holds exactly the variables of `a` and of `b`. |
| ClusterGraphs.Without | lib/libDAI024/include/dai/clustergraph.h:84 | `s / x` is ascending and holds exactly the variables of `s` other than `x`. |
| ClusterGraphs.NeighbourIff | lib/libDAI024/include/dai/clustergraph.h:91 | Variable `i` is in a cluster's `nb2` list if and only if the cluster holds `vars[i]`. |
| ClusterGraphs.Erase | lib/libDAI024/include/dai/clustergraph.h:141-142 | Erasing position `p` shifts the later clusters down by one and keeps the others. |
| ClusterGraphs.KeptMaximal | lib/libDAI024/include/dai/clustergraph.h:138-147 | A cluster maximal among all clusters stays maximal among any ordered subset that keeps it. |
| ClusterGraphs.EraseKeepsMaximal | lib/libDAI024/include/dai/clustergraph.h:141-142 | Erasing one cluster keeps every other maximal cluster maximal. |
| ClusterGraphs.ProgressStart | lib/libDAI024/include/dai/clustergraph.h:139 | The walk of `eraseNonMaximal` starts with every cluster kept and none examined. |
| ClusterGraphs.ProgressKeep | lib/libDAI024/include/dai/clustergraph.h:143-144 | Stepping past a maximal cluster keeps the walk's invariant. |
| ClusterGraphs.ProgressErase | lib/libDAI024/include/dai/clustergraph.h:140-142 | Erasing a non-maximal cluster keeps the invariant: it was not maximal among the original clusters either. |
| ClusterGraphs.ClustersWithout | lib/libDAI024/include/dai/clustergraph.h:150-156 | The clusters that do not hold `v`, in order. |
| ClusterGraphs.EraseHolderKeepsOthers | lib/libDAI024/include/dai/clustergraph.h:152-153 | Erasing a cluster holding `v` does not change the clusters without `v`. |
| ClusterGraphs.NoHolderKeepsAll | lib/libDAI024/include/dai/clustergraph.h:151 | When no cluster holds `v`, every cluster remains. |
| ClusterGraphs.NewVars | lib/libDAI024/include/dai/clustergraph.h:125-132 | The members of the cluster not yet among the variables, in cluster order. |
| ClusterGraphs.NewVarsStep | lib/libDAI024/include/dai/clustergraph.h:125-132 | One more member is new exactly when it is not an old variable. |
| ClusterGraphs.AppendStep | lib/libDAI024/include/dai/clustergraph.h:126-131 | Appending a member that was not found keeps `vars` equal to the old variables plus the new ones seen so far. |
| ClusterGraphs.PositionStep | lib/libDAI024/include/dai/clustergraph.h:126-127 | Each recorded position names the variable of its member. |
| ClusterGraphs.NewVarsDistinct | lib/libDAI024/include/dai/clustergraph.h:125-132 | The new variables contain no repeats. |
| ClusterGraphs.AppendNewVarsDistinct | lib/libDAI024/include/dai/clustergraph.h:125-132 | After insertion, `vars` has no repeats and holds every member of the cluster. |
| ClusterGraphs.LinkedAfterAppend | lib/libDAI024/include/dai/clustergraph.h:129-130 | Appending variables keeps every existing cluster's positions valid. |
| ClusterGraphs.ClusterGraph.constructor | lib/libDAI024/include/dai/clustergraph.h:53 | The default graph has no variables and no clusters, and is valid. |
| ClusterGraphs.ClusterGraph.Size | lib/libDAI024/include/dai/clustergraph.h:65-67 | The number of cluster nodes equals the number of clusters. |
| ClusterGraphs.ClusterGraph.FindVar | lib/libDAI024/include/dai/clustergraph.h:70-72 | The index of the first variable equal to `n`, or the number of variables when there is none. |
| ClusterGraphs.ClusterGraph.Delta | lib/libDAI024/include/dai/clustergraph.h:75-80 | Holds exactly the variables that share a cluster with variable `i`, `i` included, in ascending order. |
| ClusterGraphs.ClusterGraph.DeltaOthers | lib/libDAI024/include/dai/clustergraph.h:83-85 | Holds exactly the variables other than `i` that share a cluster with it. |
| ClusterGraphs.ClusterGraph.Adj | lib/libDAI024/include/dai/clustergraph.h:88-96 | True if and only if some cluster holds both variables. |
| ClusterGraphs.ClusterGraph.IsMaximal | lib/libDAI024/include/dai/clustergraph.h:99-114 | True if and only if no other cluster sharing a variable with cluster `I` contains it. |
| ClusterGraphs.ClusterGraph.EraseCluster | lib/libDAI024/include/dai/clustergraph.h:141-142 | The cluster and its node are erased together, and the graph stays valid. |
| ClusterGraphs.ClusterGraph.AppendNewVars | lib/libDAI024/include/dai/clustergraph.h:124-132 | `vars` gains exactly the cluster's new variables, in order; the recorded neighbours link the cluster to its variables. |
| ClusterGraphs.ClusterGraph.Insert | lib/libDAI024/include/dai/clustergraph.h:120-135 | A present cluster changes nothing. A new one is appended with its new variables, so the size grows by one. The graph stays valid. |
| ClusterGraphs.ClusterGraph.EraseNonMaximal | lib/libDAI024/include/dai/clustergraph.h:138-147 | Every remaining cluster is maximal; the survivors keep their order; only clusters that were not maximal were dropped; `vars` is unchanged. |
| ClusterGraphs.ClusterGraph.FirstHolder | lib/libDAI024/include/dai/clustergraph.h:152 | `nb1(i)[0]`: the first cluster holding variable `i`, or the size when there is none. |
| ClusterGraphs.ClusterGraph.EraseSubsuming | lib/libDAI024/include/dai/clustergraph.h:150-156 | Exactly the clusters holding variable `i` are erased; the others keep their order. |
| TProbs.Max | lib/libDAI024/include/dai/prob.h:162-167 | `fo_max` is an upper bound of both arguments and equals one of them. |
| TProbs.AbsDiff | lib/libDAI024/include/dai/prob.h:180-185 | `fo_absdiff` is non-negative and is `x-y` or `y-x`. |
| TProbs.Divides0 | lib/libDAI024/include/dai/prob.h:116-124 | Division by zero gives zero; otherwise the result times the divisor is the dividend. |
| TProbs.PwUnaryTr | lib/libDAI024/include/dai/prob.h:387-392 | Same length; entry `i` is `op` of entry `i`. |
| TProbs.PwBinaryTr | lib/libDAI024/include/dai/prob.h:614-620 | Same length; entry `i` is `op` of the two entries at `i`. |
| TProbs.Quotient | lib/libDAI024/include/dai/prob.h:641 | The pointwise quotient is zero where the divisor is zero, and an exact quotient elsewhere. |
| TProbs.TotalConstant | lib/libDAI024/include/dai/prob.h:326 | A constant vector sums to its length times the constant. |
| TProbs.TotalScaled | lib/libDAI024/include/dai/prob.h:326 | Dividing every entry by `z` divides the sum by `z`. |
| TProbs.LargestAbsBounds | lib/libDAI024/include/dai/prob.h:332 | `maxAbs` is non-negative, bounds every entry's absolute value, and is zero or attained by some entry. |
| TProbs.LargestAbsZeroIff | lib/libDAI024/include/dai/prob.h:332 | `maxAbs` is zero if and only if every entry is zero. |
| TProbs.LargestAbsScaled | lib/libDAI024/include/dai/prob.h:332 | Dividing every entry by `z > 0` divides `maxAbs` by `z`. |
| TProbs.LInfBounds | lib/libDAI024/include/dai/prob.h:673-674 | The L-infinity distance bounds every pointwise difference and is zero or attained at some position. |
| TProbs.LInfBelowL1 | lib/libDAI024/include/dai/prob.h:671-674 | `0 <= Linf <= L1`. |
| TProbs.L1BelowLengthTimesLInf | lib/libDAI024/include/dai/prob.h:671-674 | `L1 <= n * Linf`. |
| TProbs.TVHalfL1 | lib/libDAI024/include/dai/prob.h:675-676 | The total-variation distance is half the L1 distance. |
| TProbs.DistSelf | lib/libDAI024/include/dai/prob.h:669-676 | Every distance from a vector to itself is zero. |
| TProbs.DistSymmetric | lib/libDAI024/include/dai/prob.h:669-676 | Every distance is symmetric. |
| TProbs.L1Triangle | lib/libDAI024/include/dai/prob.h:671-672 | The L1 distance satisfies the triangle inequality. |
| TProbs.NormScaled | lib/libDAI024/include/dai/prob.h:479-490 | Dividing by a non-zero norm gives norm one, for both the sum and the largest absolute value. |
| TProbs.TProb.constructor | lib/libDAI024/include/dai/prob.h:222 | The default vector is empty. |
| TProbs.TProb.Uniform | lib/libDAI024/include/dai/prob.h:225 | `n` entries, each `1/n`, summing to one when `n > 0`. |
| TProbs.TProb.Filled | lib/libDAI024/include/dai/prob.h:228 | `n` entries equal to `x`, summing to `n*x`. |
| TProbs.TProb.Fill | lib/libDAI024/include/dai/prob.h:496-499 | Every entry becomes `x`, and the length is kept. |
| TProbs.TProb.Accumulate | lib/libDAI024/include/dai/prob.h:309-314 | The loop computes the front-to-back fold `Accumulated`. |
| TProbs.TProb.Sum | lib/libDAI024/include/dai/prob.h:326 | Returns the sum of the entries. |
| TProbs.TProb.MaxAbs | lib/libDAI024/include/dai/prob.h:332 | Returns the largest absolute value: it bounds all entries and is zero or attained. |
| TProbs.TProb.Argmax | lib/libDAI024/include/dai/prob.h:351-361 | Returns the index of the first largest entry, together with that entry. |
| TProbs.TProb.PwUnaryOp | lib/libDAI024/include/dai/prob.h:443-446 | The in-place transform equals the pure `pwUnaryTr` of the old vector. |
| TProbs.TProb.PwBinaryOp | lib/libDAI024/include/dai/prob.h:568-572 | The in-place transform equals the pure `pwBinaryTr` of the old vector. |
| TProbs.TProb.AddScalar | lib/libDAI024/include/dai/prob.h:502-507 | Adds `x` to each entry; adding zero is the identity. |
| TProbs.TProb.MulScalar | lib/libDAI024/include/dai/prob.h:518-523 | Multiplies each entry by `x`; multiplying by one is the identity. |
| TProbs.TProb.DivScalar | lib/libDAI024/include/dai/prob.h:526-532 | Divides each entry by the non-zero `x`. |
| TProbs.TProb.DivAssign | lib/libDAI024/include/dai/prob.h:593 | Divides pointwise, giving zero where the divisor is zero. |
| TProbs.TProb.Divide | lib/libDAI024/include/dai/prob.h:599 | Plain pointwise division by non-zero divisors. |
| TProbs.TProb.Normalize | lib/libDAI024/include/dai/prob.h:479-490 | Fails (NOT_NORMALIZABLE, vector unchanged) if and only if the chosen norm is zero. Otherwise it returns the norm Z, divides every entry by Z, and leaves a vector of norm one. |
| Cbp.ComplementBelow | lib/libDAI024/src/cbp.cpp:36-47 | Holds exactly the states below `n` that are not in `xis`, in strictly ascending order. |
| Cbp.AppendAbove | lib/libDAI024/src/cbp.cpp:43 | Pushing a state above all previous ones keeps the result ascending. |
| Cbp.ComplementCount | lib/libDAI024/src/cbp.cpp:45 | The complement's size plus the number of distinct states of `xis` below `n` is `n`. |
| Cbp.ElemsCount | lib/libDAI024/src/cbp.cpp:45 | A sequence has as many distinct values as entries if and only if it has no repeats. |
| Cbp.ComplementSizeIff | lib/libDAI024/src/cbp.cpp:45 | The assertion's count check holds if and only if `xis` has no repeats and all its states are below `n`. |
| Cbp.Complement | lib/libDAI024/src/cbp.cpp:36-47 | The assertion passes exactly for repeat-free in-range `xis`, and then the result is `ComplementBelow`. Otherwise it is AssertionFailed. |
| Cbp.Uniformized | lib/libDAI024/src/cbp.cpp:99-101 | `fill(1); normalize()` throws NOT_NORMALIZABLE exactly for an empty table; otherwise it keeps the factor's variables and table size, and the entries are all equal and sum to one. |
| Cbp.VarBelief | lib/libDAI024/src/cbp.cpp:95 | `Factor(v).normalized()` throws exactly for a variable with no states; otherwise it is a belief over `v` alone, with one entry per state, summing to one. |
| Cbp.BeliefsNormalised | lib/libDAI024/src/cbp.cpp:94-102 | Every belief built by `construct` is over its own variable or factor, and sums to one. |
| Cbp.CbpBeliefs.constructor | lib/libDAI024/src/cbp.cpp:91 | The object holds the graph's variables and factors, which `construct` reads. |
| Cbp.CbpBeliefs.Construct | lib/libDAI024/src/cbp.cpp:91-103 | Throws NOT_NORMALIZABLE exactly when a variable has no states or a factor table is empty. Otherwise there are `nrVars` variable beliefs, each the normalised uniform belief of its variable, and `nrFactors` factor beliefs, each the factor filled with ones and normalised, all in graph order. |
| Cbp.CbpBeliefs.SetBeliefs | lib/libDAI024/src/cbp.cpp:77-88 | The first `nrVars` beliefs become the variable beliefs and the next `nrFactors` the factor beliefs, in order; `logZ` is stored. |
| Cbp.MixBeliefs | lib/libDAI024/src/cbp.cpp:120-129 | Fails its assertion exactly when the lengths differ; otherwise entry `i` is the mixture of `b[i]` and `c[i]`. |
| Hak.PositiveEntryProperties | lib/libDAI024/src/hak.cpp:28-34 | After `makePositive`, no entry lies strictly between 0 and epsilon. Entries outside that range are kept, those inside become epsilon, and a second pass is the identity. |
| Hak.ZeroedEntryProperties | lib/libDAI024/src/hak.cpp:37-43 | After `makeZero`, every entry is 0 or lies outside (-epsilon, epsilon). Other entries are kept, and a second pass is the identity. |
| Hak.MakePositive | lib/libDAI024/src/hak.cpp:28-34 | The in-place loop applies the entry rule to every entry. |
| Hak.MakeZero | lib/libDAI024/src/hak.cpp:37-43 | The in-place loop applies the entry rule to every entry. |
| Hak.HakProperties.SetProperties | lib/libDAI024/src/hak.cpp:46-71 | A missing required key fails with nothing changed. Success requires the five keys, correct types, and `loopdepth` unless clusters is LOOP. Success reads each option, and `damping` and `init` default to 0 and UNIFORM. A LOOP without `loopdepth` fails after the five required options have been stored. |
| MaxflowLists.ChainedHaveNext | lib/maxflow-v3.01.src/maxflow.cpp:19-23 | A queued node never has a NULL `next`. |
| MaxflowLists.RepresentsFrame | lib/maxflow-v3.01.src/maxflow.cpp:19-30 | Changing nodes without changing queued nodes' links keeps both queues. |
| MaxflowLists.SameLinks | lib/maxflow-v3.01.src/maxflow.cpp:19-30 | Changing only fields other than `next` keeps both queues and the listed-iff-linked invariant. |
| MaxflowLists.Link | lib/maxflow-v3.01.src/maxflow.cpp:38-42 | Only the old tail and the new node change, and only in `next`; the new node links to itself and becomes the tail. |
| MaxflowLists.LinkExtendsQueue1 | lib/maxflow-v3.01.src/maxflow.cpp:38-42 | Linking an unqueued node appends it to queue 1. |
| MaxflowLists.LinkKeepsQueue0 | lib/maxflow-v3.01.src/maxflow.cpp:38-42 | Linking into queue 1 leaves queue 0 intact. |
| MaxflowLists.SetActiveAppends | lib/maxflow-v3.01.src/maxflow.cpp:33-44 | `set_active` on an unlinked node appends it to queue 1 and keeps the invariant; on a listed node it changes nothing. |
| MaxflowLists.Pop0Removes | lib/maxflow-v3.01.src/maxflow.cpp:67-70 | Unlinking the front of queue 0 removes exactly that node. |
| MaxflowLists.Pop0KeepsListed | lib/maxflow-v3.01.src/maxflow.cpp:67-70 | The popped node's `next` becomes NULL, so the listed-iff-linked invariant survives. |
| MaxflowLists.TakeOverMoves | lib/maxflow-v3.01.src/maxflow.cpp:58-63 | An empty queue 0 takes over queue 1 whole, and the invariant is kept. |
| MaxflowLists.QueuedNodes | lib/maxflow-v3.01.src/maxflow.cpp:19-30 | Every queued node is a node of the block. |
| MaxflowLists.FirstWithParent | lib/maxflow-v3.01.src/maxflow.cpp:73 | The first queued node with a parent: every node before it has none. |
| MaxflowLists.ClearNext | lib/maxflow-v3.01.src/maxflow.cpp:70 | Clearing the links of the taken nodes keeps the block size. |
| MaxflowLists.ClearNextAt | lib/maxflow-v3.01.src/maxflow.cpp:70 | Exactly the taken nodes lose their `next`, and nothing else changes. |
| MaxflowLists.NextActiveReturnsNull | lib/maxflow-v3.01.src/maxflow.cpp:51-75 | `next_active` returns NULL if and only if no queued node has a parent; then both queues are empty and every queued node is unlinked. |
| MaxflowLists.NextActiveReturnsNode | lib/maxflow-v3.01.src/maxflow.cpp:51-75 | Otherwise it returns the first queued node with a parent. The queues keep what followed that node, and exactly the nodes up to it are unlinked. |
| MaxflowLists.NextActiveNone | lib/maxflow-v3.01.src/maxflow.cpp:58-65 | With no parent anywhere, every queued node is taken and unlinked. |
| MaxflowLists.NextActiveFound | lib/maxflow-v3.01.src/maxflow.cpp:67-73 | Stopping at the first node with a parent unlinks exactly the prefix up to it. |
| MaxflowLists.NextActiveFoundAt | lib/maxflow-v3.01.src/maxflow.cpp:67-73 | The same, with the returned node named. |
| MaxflowLists.ClearedPrefix | lib/maxflow-v3.01.src/maxflow.cpp:70 | Clearing a prefix unlinks exactly its nodes. |
| MaxflowLists.ConcatDistinct | lib/maxflow-v3.01.src/maxflow.cpp:19-30 | Two disjoint repeat-free queues concatenate without repeats. |
| MaxflowLists.NextActiveKeepsListed | lib/maxflow-v3.01.src/maxflow.cpp:19-23 | `next_active` keeps the invariant that a node is listed if and only if its `next` is not NULL. |
| MaxflowLists.ListedAfterTaking | lib/maxflow-v3.01.src/maxflow.cpp:67-70 | After the scan, a node is linked if and only if it was queued and not taken. |
| MaxflowLists.ScanStart | lib/maxflow-v3.01.src/maxflow.cpp:56 | The loop invariant of `next_active` holds before the first pass. |
| MaxflowLists.ScanTakeOver | lib/maxflow-v3.01.src/maxflow.cpp:58-63 | Refilling queue 0 from queue 1 keeps the loop invariant. |
| MaxflowLists.ScanEmpty | lib/maxflow-v3.01.src/maxflow.cpp:64 | With both queues empty, returning NULL meets the specification. |
| MaxflowLists.ScanPop | lib/maxflow-v3.01.src/maxflow.cpp:67-73 | Taking the front node either returns it, when it has a parent, meeting the specification, or keeps the invariant one node further. |
| MaxflowLists.ScanPopFacts | lib/maxflow-v3.01.src/maxflow.cpp:67-70 | The front of queue 0 is the next node of the scan. |
| MaxflowLists.ScanPopFound | lib/maxflow-v3.01.src/maxflow.cpp:73 | A front node with a parent meets the specification of the result. |
| MaxflowLists.NextActiveResultAt | lib/maxflow-v3.01.src/maxflow.cpp:73 | Stopping at the first node with a parent meets the specification. |
| MaxflowLists.TailQueueSide | lib/maxflow-v3.01.src/maxflow.cpp:58-63 | Queue 1 is untouched while queue 0 lasts, and empty after. |
| MaxflowLists.RecordChanged | lib/maxflow-v3.01.src/maxflow.cpp:105-114 | Recording an unflagged node and flagging it keeps the changed list repeat-free and fully flagged. |
| MaxflowLists.InitNode | lib/maxflow-v3.01.src/maxflow.cpp:129-155 | A reset node is unlinked, with TS 0 and both flags cleared. A terminal capacity gives a TERMINAL parent, distance 1 and the side by sign. Zero capacity gives no parent and keeps the rest. |
| MaxflowLists.ReplaceUnqueued | lib/maxflow-v3.01.src/maxflow.cpp:131 | Rewriting a node that is not queued keeps both queues. |
| MaxflowLists.TerminalNodes | lib/maxflow-v3.01.src/maxflow.cpp:129-155 | The terminal nodes among the first `j`. |
| MaxflowLists.TerminalNodesOrdered | lib/maxflow-v3.01.src/maxflow.cpp:129-155 | They lie below `j`, have non-zero capacity, and ascend. |
| MaxflowLists.TerminalNodesMember | lib/maxflow-v3.01.src/maxflow.cpp:135-154 | A node below `j` is among them if and only if its capacity is non-zero. |
| MaxflowLists.TerminalNodesBelow | lib/maxflow-v3.01.src/maxflow.cpp:129 | Node `j` is not yet among them, and step `j` adds it exactly when it is terminal. |
| MaxflowLists.InitStep | lib/maxflow-v3.01.src/maxflow.cpp:131-154 | One pass keeps the block size and makes node `j` the tail of queue 1, or leaves the tail. |
| MaxflowLists.InitStepNodes | lib/maxflow-v3.01.src/maxflow.cpp:131-154 | A pass initialises node `j`, which is linked exactly when it is terminal, and relinks no other node. |
| MaxflowLists.InitStepQueues | lib/maxflow-v3.01.src/maxflow.cpp:131-154 | A pass appends node `j` to queue 1 exactly when it is terminal. |
| MaxflowLists.InitStepQueuesAt | lib/maxflow-v3.01.src/maxflow.cpp:131-154 | The same, with the result named. |
| MaxflowLists.InitRun | lib/maxflow-v3.01.src/maxflow.cpp:129-155 | The state after `j` passes keeps the block size and has a tail below `j`. |
| MaxflowLists.InitRunQueues | lib/maxflow-v3.01.src/maxflow.cpp:129-155 | After `j` passes, queue 0 is empty and queue 1 holds the terminal nodes below `j`, in order. |
| MaxflowLists.InitRunQueuesStep | lib/maxflow-v3.01.src/maxflow.cpp:129-155 | One pass extends that queue by node `j-1` exactly when it is terminal. |
| MaxflowLists.InitRunStepFacts | lib/maxflow-v3.01.src/maxflow.cpp:129-155 | Pass `j-1` meets node `j-1` untouched and not queued. |
| MaxflowLists.InitRunPending | lib/maxflow-v3.01.src/maxflow.cpp:129 | The next node to visit is still as it was. |
| MaxflowLists.InitRunTail | lib/maxflow-v3.01.src/maxflow.cpp:40-41 | The tail of queue 1 is linked. |
| MaxflowLists.InitRunNodes | lib/maxflow-v3.01.src/maxflow.cpp:129-155 | After `j` passes, the first `j` nodes are initialised and linked exactly when terminal, and the others are untouched. |
| MaxflowLists.InitRunNodesStep | lib/maxflow-v3.01.src/maxflow.cpp:129-155 | One pass extends the initialised prefix by one node. |
| MaxflowLists.InitStepNodesAt | lib/maxflow-v3.01.src/maxflow.cpp:131-154 | The same, for a pass over any state that meets the loop's invariant. |
| MaxflowLists.InitListed | lib/maxflow-v3.01.src/maxflow.cpp:19-23 | Once every node is initialised, exactly the terminal nodes are linked. |
| MaxflowLists.InitFinished | lib/maxflow-v3.01.src/maxflow.cpp:118-156 | At the end, queue 1 holds each terminal node once in index order, the invariant holds, and every node is initialised. |
| MaxflowLists.EmptyOrphans | lib/maxflow-v3.01.src/maxflow.cpp:124 | A NULL head is the empty orphan list, whatever the tail names. |
| MaxflowLists.PushFront | lib/maxflow-v3.01.src/maxflow.cpp:79-88 | A new cell for `i` points to the old head and becomes the head; the tail pointer is untouched. |
| MaxflowLists.PushRear | lib/maxflow-v3.01.src/maxflow.cpp:90-101 | A new cell for `i` with a NULL `next` is allocated and becomes the tail. |
| MaxflowLists.PushFrontPrepends | lib/maxflow-v3.01.src/maxflow.cpp:79-88 | Front insertion puts the new cell before the whole list. The tail stays consistent on a non-empty list, but not on an empty one whose tail is NULL. |
| MaxflowLists.IndexOf | lib/maxflow-v3.01.src/maxflow.cpp:95-96 | The position of the cell the tail pointer names. |
| MaxflowLists.PushRearLinks | lib/maxflow-v3.01.src/maxflow.cpp:90-101 | Rear insertion yields a well-formed list cut after the tail cell and extended by the new cell, whatever the tail names. |
| MaxflowLists.PushRearFacts | lib/maxflow-v3.01.src/maxflow.cpp:90-101 | The same, and with a consistent tail the new cell is appended. |
| MaxflowLists.PushRearAppends | lib/maxflow-v3.01.src/maxflow.cpp:90-101 | With a consistent tail, rear insertion appends the new cell and keeps the tail consistent. |
| Maxflow.Graph.SetActive | lib/maxflow-v3.01.src/maxflow.cpp:33-44 | Performs `MaxflowLists.SetActive`. An unlinked node is appended to queue 1; both queues and the invariant are kept. |
| Maxflow.Graph.PopFront0 | lib/maxflow-v3.01.src/maxflow.cpp:67-70 | Removes the front of queue 0 and clears only its `next`. |
| Maxflow.Graph.TakeOverQueue1 | lib/maxflow-v3.01.src/maxflow.cpp:58-63 | Queue 0 becomes the old queue 1, and queue 1 becomes empty. |
| Maxflow.Graph.NextActivePass | lib/maxflow-v3.01.src/maxflow.cpp:56-74 | One loop pass either finishes meeting the specification or advances the scan by one node. |
| Maxflow.Graph.RefillForScan | lib/maxflow-v3.01.src/maxflow.cpp:58-65 | The refill either returns NULL, meeting the specification, or leaves a non-empty queue 0. |
| Maxflow.Graph.PopForScan | lib/maxflow-v3.01.src/maxflow.cpp:67-73 | The pop either returns a node with a parent, meeting the specification, or advances the scan. |
| Maxflow.Graph.NextActive | lib/maxflow-v3.01.src/maxflow.cpp:51-75 | The returned node and the new queues and nodes meet `NextActiveResult` of the old queues (see the two lemmas). The invariant is kept. |
| Maxflow.Graph.SetOrphanFront | lib/maxflow-v3.01.src/maxflow.cpp:79-88 | Marks `i` as an orphan and puts its new cell at the front of the orphan list. |
| Maxflow.Graph.SetOrphanRear | lib/maxflow-v3.01.src/maxflow.cpp:90-101 | Marks `i` as an orphan and links its new cell after the tail cell. With a consistent tail, this appends it. |
| Maxflow.Graph.AddToChangedList | lib/maxflow-v3.01.src/maxflow.cpp:105-114 | When a changed list exists and `i` is unflagged, `i` is recorded once and flagged; otherwise nothing changes. |
| Maxflow.Graph.InitNodeAt | lib/maxflow-v3.01.src/maxflow.cpp:131-154 | Performs one `InitStep`. |
| Maxflow.Graph.InitNodes | lib/maxflow-v3.01.src/maxflow.cpp:129-155 | The node loop performs `InitRun` over all nodes, so queue 1 ends as the terminal nodes. |
| Maxflow.Graph.InitActive | lib/maxflow-v3.01.src/maxflow.cpp:122-155 | Queue 0 ends empty and queue 1 holds the terminal nodes in order. Every node is reset, and the invariant holds. |
| Maxflow.Graph.MaxflowInit | lib/maxflow-v3.01.src/maxflow.cpp:118-156 | Also empties the orphan list and sets the time to 0; the orphan tail pointer is left unchanged. |
| Superpixel.FindLastOf | lib/slic/superpixel_test.cpp:24-25 | `find_last_of`: the last matching position, or `npos` exactly when nothing matches. |
| Superpixel.BaseName | lib/slic/superpixel_test.cpp:24 | The part after the last `/` or `\`, which contains no separator. |
| Superpixel.DropExtension | lib/slic/superpixel_test.cpp:25 | The prefix before the last dot; a name without a dot is kept whole. |
| Superpixel.NameOfComposedPath | lib/slic/superpixel_test.cpp:23-27 | A path `dir/name.ext` gives `name` back. |
| Superpixel.NoSeparatorInFileName | lib/slic/superpixel_test.cpp:24 | `name.ext` has no separator when neither part has one. |
| Superpixel.DropExtensionAfterDot | lib/slic/superpixel_test.cpp:25 | The extension after the last dot is dropped. |
| Superpixel.FindLastOfAt | lib/slic/superpixel_test.cpp:24-25 | A match with no match after it is what `find_last_of` returns. |
| Superpixel.BaseNameAfterSeparator | lib/slic/superpixel_test.cpp:24 | The part after the last separator is the base name. |
| Superpixel.BareNameUnchanged | lib/slic/superpixel_test.cpp:23-27 | A name without separators or dots is returned as it is. |
| Superpixel.RowStartIsProduct | lib/slic/superpixel_test.cpp:63 | Counting rows gives `y*width`. |
| Superpixel.RowStartMonotone | lib/slic/superpixel_test.cpp:77 | Later rows start later. |
| Superpixel.IndexBound | lib/slic/superpixel_test.cpp:63 | `y*width + x` lies inside the image. |
| Superpixel.Neighbour | lib/slic/superpixel_test.cpp:58-63 | A neighbour that exists lies inside the image. |
| Superpixel.CountDiffering | lib/slic/superpixel_test.cpp:55-70 | At most one count per neighbour examined. |
| Superpixel.TakenRows | lib/slic/superpixel_test.cpp:51-79 | No pixel in the rows not yet visited is taken. |
| Superpixel.TakenInRow | lib/slic/superpixel_test.cpp:53-78 | No pixel not yet visited is taken. |
| Superpixel.VisitStep | lib/slic/superpixel_test.cpp:71-73 | Visiting a pixel decides its own flag, from `np > 1`, and no other. |
| Superpixel.SettledInRow | lib/slic/superpixel_test.cpp:53-78 | A flag once decided is not changed by later pixels of the row. |
| Superpixel.SettledRows | lib/slic/superpixel_test.cpp:51-79 | A flag once decided is not changed by later rows. |
| Superpixel.PixelDecision | lib/slic/superpixel_test.cpp:55-73 | A pixel ends up taken exactly when more than one in-image neighbour, not taken when it was visited, has another label. |
| Superpixel.TakingLowersCount | lib/slic/superpixel_test.cpp:65 | Taken neighbours only lower the count. |
| Superpixel.TakenHasTwoBorders | lib/slic/superpixel_test.cpp:65-73 | A taken pixel has at least two in-image neighbours with another label. |
| Superpixel.UniformCountsZero | lib/slic/superpixel_test.cpp:67 | With a single label, no neighbour counts. |
| Superpixel.UniformImageHasNoContours | lib/slic/superpixel_test.cpp:51-79 | An image with one label gets no contour. |
| Superpixel.InsideNeighbour | lib/slic/superpixel_test.cpp:61-68 | An in-image neighbour counts exactly when it is not taken and has another label. |
| Superpixel.OutsideNeighbour | lib/slic/superpixel_test.cpp:61 | A neighbour outside the image never counts. |
| Superpixel.Painted | lib/slic/superpixel_test.cpp:74 | Taken pixels carry the colour; all others keep their value. |
| Superpixel.PaintedStep | lib/slic/superpixel_test.cpp:73-74 | Taking a pixel paints exactly that pixel. |
| Superpixel.CountNeighbours | lib/slic/superpixel_test.cpp:55-70 | `np` is the number of in-image, not-taken neighbours with another label, at most 8. |
| Superpixel.ContourRow | lib/slic/superpixel_test.cpp:53-78 | One row of the loop extends the flags and the painting by that row. |
| Superpixel.DrawContoursAroundSegments | lib/slic/superpixel_test.cpp:35-80 | The image ends up as the original with exactly the taken pixels painted (see PixelDecision). |
| Superpixel.ChannelsRoundTrip | lib/slic/superpixel_test.cpp:103-105 | Unpacking loses only the top eight bits, and unpacking undoes packing. |
| Superpixel.UnpackImage | lib/slic/superpixel_test.cpp:97-107 | One channel triple per pixel, in buffer order. |
| Superpixel.UnpackedPacksBack | lib/slic/superpixel_test.cpp:103-105 | Every unpacked pixel packs back to the low 24 bits of its buffer entry. |
| LoadFromFile.NonEmptyLines | core/F_LoadFromFile.cpp:56-61 | Holds exactly the non-empty lines, and no more entries than there were lines. |
| LoadFromFile.NonEmptyLinesAppend | core/F_LoadFromFile.cpp:56-61 | Filtering distributes over concatenation. |
| LoadFromFile.NonEmptyLinesKeepsAll | core/F_LoadFromFile.cpp:58 | Lines that are all non-empty are kept whole. |
| LoadFromFile.FindLast | core/F_LoadFromFile.cpp:72 | `rfind`: the last occurrence, or `npos` exactly when there is none. |
| LoadFromFile.FindLastAt | core/F_LoadFromFile.cpp:72 | An occurrence with none after it is what `rfind` returns. |
| LoadFromFile.AbsoluteFeaturePath | core/F_LoadFromFile.cpp:65-76 | A success starts with the feature file name and a `/`, and ends with `/`. |
| LoadFromFile.AbsoluteFeaturePathExample | core/F_LoadFromFile.cpp:65-76 | `("f", "/a/b/")` gives `"f/b/"`. |
| LoadFromFile.AbsoluteFeaturePathOfDir | core/F_LoadFromFile.cpp:65-76 | `parent/name`, with or without a trailing `/`, gives `feature/name/`. |
| LoadFromFile.LastSlashBeforeName | core/F_LoadFromFile.cpp:72 | The last `/` of `parent/name` is the one before `name`. |
| LoadFromFile.SuffixFromSlash | core/F_LoadFromFile.cpp:72-74 | Cutting at that `/` keeps `/name`. |
| LoadFromFile.AbsoluteFeaturePathAt | core/F_LoadFromFile.cpp:68-75 | With the last `/` at `pos`, the result is the file name, the suffix from `pos`, and `/`. |
| LoadFromFile.TrailingSlashDropped | core/F_LoadFromFile.cpp:70-71 | Exactly one trailing `/` is removed. |
| LoadFromFile.AbsoluteFeaturePathFails | core/F_LoadFromFile.cpp:70-72 | The call throws out_of_range (`substr(npos)`) if and only if no `/` comes before the last character of the directory. |
| LoadFromFile.FeatureSource.constructor | core/F_LoadFromFile.cpp:31-35 | No features, an empty path, not initialised. |
| LoadFromFile.FeatureSource.LoadFeatureFilenames | core/F_LoadFromFile.cpp:42-63 | An unopenable list fails, leaving the path unchanged. Otherwise the first line is the path and the later non-empty lines are appended in order. |
| LoadFromFile.FeatureSource.PickLoader | core/F_LoadFromFile.cpp:89-124 | Listed files pick the loader by the first file's extension (tif, bin, otherwise text). With none listed, the volume's own file is used, then its `.bin`, otherwise nothing. |
| LoadFromFile.FeatureSource.Init | core/F_LoadFromFile.cpp:78-127 | A second call is a no-op. Otherwise the list is read, the loader chosen as in PickLoader, and the source marked initialised. An unopenable list stops before that. |
| Slice3dVolume.ClampStep | core/Slice3d.cpp:46-50 | The supernode step is at most the depth and at most the request, and equals one of them. |
| Slice3dVolume.ClampStepCases | core/Slice3d.cpp:46-50 | A step that fits is kept, a larger one becomes the depth, and clamping twice is clamping once. |
| Slice3dVolume.Slice3d.FromRawData | core/Slice3d.cpp:30-53 | The caller keeps the buffer. The dimensions are as given, the slice size is `width*height`, and the step is clamped. |
| Slice3dVolume.Slice3d.FromDirectory | core/Slice3d.cpp:55-77 | Takes the loaded dimensions and owns the buffer; one channel; the step is clamped. |
| Slice3dVolume.Slice3d.FromDirectoryWithSize | core/Slice3d.cpp:79-103 | Takes the given dimensions and owns the buffer; one channel; the step is clamped. |
| Slice3dVolume.Slice3d.Region | core/Slice3d.cpp:105-131 | The dimensions are the box's extents and the start offsets are its corner; it owns the buffer; the step is clamped. |
| Slice3dVolume.Slice3d.constructor | core/Slice3d.cpp:133-135 | Only `init`: no buffer, which it will own, and zero offsets. |
| Slice3dVolume.Slice3d.Init | core/Slice3d.cpp:137-157 | Resets the supervoxel, edge and label state, clears the buffer with ownership, and zeroes the start offsets. |
| Slice3dVolume.Slice3d.Release | core/Slice3d.cpp:159-172 | Frees the supervoxels when present, and the buffer only when owned and present. |
| Slice3dVolume.Slice3d.VoxelIndex | core/Slice3d.cpp:174-177 | `z*sliceSize + y*width + x` lies inside the buffer. |
| Slice3dVolume.Slice3d.VoxelIndexInjective | core/Slice3d.cpp:174-177 | Distinct voxels have distinct indices. |
| Slice3dVolume.Slice3d.At | core/Slice3d.cpp:174-177 | `at` reads the buffer at the voxel's index. |
| Slice3dVolume.Slice3d.Raw2Double | core/Slice3d.cpp:179-198 | Returns status 0 and `depth` rows of `sliceSize` reals; row `z` is slice `z` of the buffer, in order. |
| Slice3dVolume.Slice3d.AtMatchesRows | core/Slice3d.cpp:174-198 | `at(x, y, z)` equals entry `y*width + x` of row `z` of `raw2Double`. |

## Left out

- File and stream I/O is not modelled. A file or `std::istream` is given as the sequence of its lines, without line ends, and an output stream as the text written so far. `printf`, `exit` and the plotting calls have no model.
- `scripts/plotData.py` ends at line 39, so the body of the short-line branch is not part of this model. `PlotData.ReadColumnFromFile` therefore takes it as a policy parameter (skip the line, or stop reading).
- PlotData.ReadColumnFromFile: the column index is a `nat`. A negative `col_idx`, which Python would count from the end of the line, is not modelled; the column indices listed at `scripts/plotAll.py:48-67` are all non-negative.
- PlotData.ReadColumnFromFile: a value read is kept as its float literal. The conversion to a floating-point number is not modelled, and `isFloat` is a grammar of the literals that `float()` accepts.
- `scripts/plotAll.py`:
  - `HOME` is a parameter;
  - `os.access`/`os.mkdir` are not modelled;
  - `coeff_y_lim` and `show_legend` are only converted, and the conversion is not modelled;
  - the variable table and the plotting loop after line 45 are not part of this model.
- `tokenizeString` (util.h:199) is only declared in the header. `DaiUtil.Tokenize` follows libDAI 0.2.4's behaviour: split at every tab or newline, keep empty fields, give no field for the empty string, and do not open a field after a final delimiter.
- libDAI compares and orders variables by label alone; `Evidence.Var` values compare as a whole (label and state count). The two agree for the variables of one graph, whose labels are distinct. var.h is not part of this model.
- `int()` is read in base 10 only, as it is called with no base argument. Python's arbitrary-precision integers are Dafny's unbounded `int`.
- Evidence.RowFrom: `atoi` and the `size_t` state are unbounded here, so the overflow of very long digit strings is not modelled.
- Evidence.EvidenceSet.AddEvidenceTabFile: an error is a returned value rather than an exception. Samples appended before the error stay in the store, as in the source.
- The `ClusterGraph` constructor from a vector of clusters (clustergraph.h:56) and `operator<<` are defined outside the header and are not part of this model. The bipartite graph `G` is kept as its `nb2` lists, and `nb1` is derived from them.
- TProbs: entries are exact reals, so IEEE infinities and NaN are not modelled. The entropy, log, exp, pow, inverse, KL and Hellinger members, random sampling and the iterator constructors are not part of this model.
- TProbs.TProb.Divide: requires non-zero divisors, because a division by zero gives +Inf in the source and reals have no infinity.
- TProbs.TProb.DivScalar: requires a non-zero divisor, as the source's debug assertion does.
- TProbs.TProb.Argmax: requires a non-empty vector, because the source reads the first entry unconditionally.
- Cbp.Complement: requires sorted input, which is the precondition documented at cbp.cpp:35.
- Cbp.CbpBeliefs.Construct: the partly filled belief lists left behind when `normalize` throws are not stated. The counters `_sum_level`, `_num_leaves`, `_maxdiff` and `_iters`, and the clamp output file, are not part of this model (cbp.h, which declares them, is not part of this model). `construct` never sets `_logZ`, and the model leaves `logZ` unconstrained until `SetBeliefs`.
- Cbp.MixBeliefs: the normalise-and-mix of factors is the parameter `mix`. `unSoftMax`, `logSumExp`, `dist` of factor vectors and the CBP algorithm itself are not part of this model.
- Hak.HakProperties.SetProperties: `getStringAs` conversions are modelled as values already of their type. A value of the wrong type gives `BadValue`.
- The `HakProperties` constructor leaves every field arbitrary, as uninitialised C++ members are.
- util.h: `toc`, the `rnd_*` functions and the hash helpers are not part of this model.
- maxflow.cpp:
  - node pointers are indices into the node block, and nodeptr cells are indices into an arena that only grows (`Delete` is not modelled);
  - the comment at maxflow.cpp:46-49 says a sink-connected node "stays in the list", but the code removes every node it visits, and the model follows the code;
  - `maxflow_init` does not reset `orphan_last`, and neither does the model;
  - `augment`, `process_source_orphan`, `process_sink_orphan`, `maxflow` itself, `maxflow_reuse_trees_init` and the test of the `changed_list` block allocator are not part of this model.
- Maxflow.Graph.SetOrphanRear: requires the tail pointer to be NULL or an allocated cell, which the source takes for granted.
- superpixel_test.cpp:
  - the label buffer is a sequence;
  - the unused counter `cind` is omitted;
  - `cvCreateImage`/`cvSaveImage` and `main` are not modelled;
  - `UnpackImage` returns the channel triples rather than writing an `IplImage`.
- F_LoadFromFile:
  - `fileExists` and `getExtension` (core/utils.h) are parameters, and core/utils.h is not part of this model;
  - the TIF, binary and text feature loaders are represented by the choice `Init` returns;
  - the program's `exit(-1)` is the `CannotOpen` result.
- LoadFromFile.AbsoluteFeaturePath: requires a non-empty `inputDir`, because the source indexes `length()-1` of it without a check.
- Slice3d:
  - `loadFromDir` is not part of this model: the dimensions and buffer it produces are constructor parameters;
  - the supervoxel map is reduced to whether it exists;
  - `raw2Double`'s allocation check is not modelled, because `new` never returns 0 here;
  - `raw2RGB` and the supervoxel code are not part of this model.

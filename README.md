# CROTON label compilation, encoders and search helpers in Dafny

CROTON predicts the repair outcomes of CRISPR/Cas9 cuts from a 60 bp target window. Its core is a
pipeline:

- It reads FORECasT and Sprout (Leenay et al.) outcome counts and target sequences.
- It turns them into summary-statistic labels: the deletion frequency, the 1 bp insertion and
  deletion probabilities, and the frameshift frequencies.
- It encodes each target window one-hot for the network.

Small helpers sit at the pipeline's edges: the web form's input validator and the web view's
encoder, and the arithmetic of the architecture search (filter schedule, sampled architecture
layout, best-row selection, label-column selection).

This project models that core and proves properties of it. Each module follows one source file:

- `ReadForecastData` (`read_forecast_data.dfy`), after `model_creation/data_compilation/read_forecast_data.py`: PAM re-centring, reverse complement, the oligo table, the outcome-file line fold, the directory and file filter.
- `CompileForecast` (`compile_forecast.dfy`), after `model_creation/data_compilation/compile_forecast.py`: the SelfTarget indel-token parser, the deletion and 1 bp insertion ratios, the train/validation/test split, the aligned selection, the label oligos.
- `ReadSproutData` (`read_sprout_data.dfy`), after `model_creation/data_compilation/read_sprout_data.py`: outcome classification and per-file totals, refseq duplicate groups, the key table and its collapse of duplicate genes, per-gene totals.
- `CompileSprout` (`compile_sprout.dfy`), after `model_creation/data_compilation/compile_sprout.py`: exclusions, master tables (outer merges that sum counts), `id_ending` parsing, the 1 bp probabilities, the frameshift frequencies.
- `OneHot`, `Evaluate` (`onehot.dfy`, `evaluate.dfy`), after `model_creation/model_evaluation/evaluate.py`: the N-aware one-hot encoder and the stacked, reshaped column encoder.
- `Forms` (`forms.dfy`), after `app/forms.py`: `validate_base`.
- `Views` (`views.dfy`), after `app/views.py`: the view's one-hot encoder and its (1, 60, 4) reshape.
- `Amber` (`amber.dfy`), after `model_creation/model_search/amber_cnn_sumstats.py`: `load_pickle_data`, `get_model_space`, `random_sample_controller`, `read_controller_train_history`.

Three modules provide shared pieces:

- `Wrappers` (`wrappers.dfy`): `Option`, `Result` and the Python exceptions the model raises (`PyError`), plus `MapAll`, a list comprehension that stops at the first exception.
- `PyStr` (`pystr.dfy`): the Python string built-ins the source uses: `strip`, `split`, `join`, `find`, `replace`, `count`, `upper`, `int()`, `eval` of an integer literal, `str(int)` and `str(list)`.
- `Sums` (`sums.dfy`): sums over sequences and sets, `int()` of a float, and numpy's division.

Modelling conventions:

- Files, directories and pickles are passed in as their contents: sequences of lines, of records, or maps from names to contents.
- pandas tables are sequences of records. Python dictionaries are maps.
- A merged pandas table (outer join on a key, missing totals filled with 0, then summed) is a map from key to total.
- Floats are exact reals. NaN and infinity are `None` of an `Option<real>`. A zero denominator therefore never raises: it yields `None`.
- Exceptions are the `Failure` case of a `Result`, carrying the Python exception type that would be raised.
- Random draws (`np.random.choice`) are parameters. Their `requires` state what numpy guarantees: a permutation, or distinct in-range positions.
- The iteration order of a Python `set` is also a parameter, with `requires` that it lists each member once.
- Every loop of the source is a method with a loop. Each such method is proved equal to a function of its inputs, and the properties are proved about that function.

## Model

| member | source | states |
|---|---|---|
| ReadForecastData.RecenterPamWindow | model_creation/data_compilation/read_forecast_data.py:88-97 | with the cut index (PAM - 3 on FORWARD, PAM + 3 otherwise) inside the sequence, `get_recenter_pam` returns the window of `out_len // 2` positions either side of the cut, each the base there or N beyond an end |
| ReadForecastData.WindowInterior | model_creation/data_compilation/read_forecast_data.py:91-97 | a window that fits inside the sequence is the plain slice around the cut, with no N padding |
| ReadForecastData.WindowAlphabet | model_creation/data_compilation/read_forecast_data.py:93-96 | a sequence of A/C/G/T/N gives a window of A/C/G/T/N |
| ReadForecastData.RecenterPastEnd | model_creation/data_compilation/read_forecast_data.py:90-97 | a cut past the end of the sequence right-aligns the sequence's tail against the cut instead of keeping positions ("ACGT", REVERSE PAM 3, length 6 gives "NNTNNN") |
| ReadForecastData.RecenterNegativeCut | model_creation/data_compilation/read_forecast_data.py:90-97 | a forward PAM before index 3 gives a negative cut, Python slicing counts it from the end, and the result is longer than `out_len` |
| ReadForecastData.RecenterExample | model_creation/data_compilation/read_forecast_data.py:88-97 | a forward PAM at 6 in "AAACCCGGGTTT" with `out_len` 6 gives "AAACCC" |
| ReadForecastData.Complement | model_creation/data_compilation/read_forecast_data.py:101-102 | the complement letter exists exactly for A, C, G, T and N |
| ReadForecastData.ReverseComplement | model_creation/data_compilation/read_forecast_data.py:100-103 | succeeds exactly when every letter is in `letter_match` (otherwise the KeyError path); the result has the same length and position i is the complement of position len - 1 - i |
| ReadForecastData.ComplementPair | model_creation/data_compilation/read_forecast_data.py:101 | every letter's complement is a letter whose complement is the original |
| ReadForecastData.ReverseComplementInvolution | model_creation/data_compilation/read_forecast_data.py:100-103 | reverse-complementing twice gives back the sequence |
| ReadForecastData.CenteredSeq | model_creation/data_compilation/read_forecast_data.py:72-79 | the only way the per-row computation fails is the KeyError of a non-ACGTN letter on a REVERSE row |
| ReadForecastData.CenteredSeqLength | model_creation/data_compilation/read_forecast_data.py:72-79 | the stored sequence has length 60 whenever the cut index is not negative |
| ReadForecastData.ReverseRowPositions | model_creation/data_compilation/read_forecast_data.py:72-78 | on a REVERSE row, position i of the stored sequence is the complement of the original base at PAM + 3 + 29 - i (or N) |
| ReadForecastData.ForwardRowPositions | model_creation/data_compilation/read_forecast_data.py:72-79 | on a FORWARD row the stored sequence never fails and position j is the original base at PAM - 33 + j (or N) |
| ReadForecastData.OtherStrandNotComplemented | model_creation/data_compilation/read_forecast_data.py:72-79 | a strand that is neither FORWARD nor REVERSE is cut at PAM + 3 like a reverse one but stored without complementing |
| ReadForecastData.LastIndex | model_creation/data_compilation/read_forecast_data.py:82-83 | names the last row carrying a given ID |
| ReadForecastData.ToDictSpec | model_creation/data_compilation/read_forecast_data.py:82-83 | `to_dict` on a column indexed by the IDs has exactly the IDs as keys, and each maps to the value of the last row with that ID |
| ReadForecastData.OligoDictRows | model_creation/data_compilation/read_forecast_data.py:68-85 | `read_oligo_seq` succeeds exactly when every row does; its keys are the row IDs and each maps to the centred sequence of the last row with that ID |
| ReadForecastData.KeyedColumn | model_creation/data_compilation/read_forecast_data.py:82-83 | indexing a successfully computed column by ID keeps, per ID, the last row's value |
| ReadForecastData.ReadOligoSeq | model_creation/data_compilation/read_forecast_data.py:59-85 | the row loop computes the dictionary of `OligoDictRows` and `n_rev` counts the REVERSE rows |
| ReadForecastData.AddCountsEffect | model_creation/data_compilation/read_forecast_data.py:27 | `label_dict[oligo][key] += count` raises exactly that entry by `count`, leaves every other entry as it was and adds the oligo to the keys |
| ReadForecastData.AddKeepsValid | model_creation/data_compilation/read_forecast_data.py:27 | the increment keeps the table well formed |
| ReadForecastData.ReadLinesStopsAtFailure | model_creation/data_compilation/read_forecast_data.py:18-30 | once a line raises, later lines do not matter |
| ReadForecastData.ReadLinesValid | model_creation/data_compilation/read_forecast_data.py:18-30 | a file read to the end leaves a well formed table |
| ReadForecastData.ReadLine | model_creation/data_compilation/read_forecast_data.py:19-30 | one iteration of the line loop performs one `Step` on the parsed line |
| ReadForecastData.ReadSingleOutcome | model_creation/data_compilation/read_forecast_data.py:15-31 | the line loop computes `ReadFile` of the table and the file's lines |
| ReadForecastData.HeaderLineAddsNothing | model_creation/data_compilation/read_forecast_data.py:20-22 | an `@@@` line adds no count and makes the line without its leading @ the current oligo |
| ReadForecastData.DataLineAddsOne | model_creation/data_compilation/read_forecast_data.py:23-30 | a data line adds its count to (current oligo, key) and changes nothing else, the current oligo included |
| ReadForecastData.TokenLineFields | model_creation/data_compilation/read_forecast_data.py:23-27 | in token mode a data line's key is its first tab field and its count the integer in the second |
| ReadForecastData.ReadLinesIsApply | model_creation/data_compilation/read_forecast_data.py:18-30 | reading lines succeeds exactly when collecting their (oligo, key, count) entries does, and the resulting counts are those entries applied to the old counts |
| ReadForecastData.BumpCommute | model_creation/data_compilation/read_forecast_data.py:27 | two increments of an oligo's inner dictionary commute |
| ReadForecastData.AddCountsCommute | model_creation/data_compilation/read_forecast_data.py:27 | two increments of the nested dictionary commute |
| ReadForecastData.ApplyCommutes | model_creation/data_compilation/read_forecast_data.py:23-30 | applying two lists of increments in either order gives the same counts |
| ReadForecastData.FileOrderIrrelevant | model_creation/data_compilation/read_forecast_data.py:54-55 | reading file a then b succeeds exactly when b then a does, and gives the same counts |
| ReadForecastData.DirSelectedUnderscores | model_creation/data_compilation/read_forecast_data.py:37-40 | a run directory is read only if its name has exactly six underscores (the seven-field unpacking), and with no filters every such name is read |
| ReadForecastData.IndelFilesMembers | model_creation/data_compilation/read_forecast_data.py:50 | a sample's files kept are exactly those ending in `_processedindels.txt` |
| ReadForecastData.FilesOfMembers | model_creation/data_compilation/read_forecast_data.py:50 | the file list holds exactly the `_processedindels.txt` files of the sample directories |
| ReadForecastData.SelectedSamplesMembers | model_creation/data_compilation/read_forecast_data.py:36-49 | the sample directories collected are exactly those of the selected run directories |
| ReadForecastData.SelectedFilesMembers | model_creation/data_compilation/read_forecast_data.py:36-50 | a file is read exactly when it ends in `_processedindels.txt` and lies in a sample directory of a selected run directory |
| ReadForecastData.ReadFilesStopsAtFailure | model_creation/data_compilation/read_forecast_data.py:54-55 | once a file raises, later files do not matter |
| ReadForecastData.ReadFilesValid | model_creation/data_compilation/read_forecast_data.py:53-55 | reading all files leaves a well formed table |
| ReadForecastData.CollectSampleDirs | model_creation/data_compilation/read_forecast_data.py:35-49 | the directory loop collects `SelectedSamples` |
| ReadForecastData.CollectOutcomeFiles | model_creation/data_compilation/read_forecast_data.py:50 | the comprehension collects `FilesOf` the sample directories |
| ReadForecastData.ReadAllFiles | model_creation/data_compilation/read_forecast_data.py:53-55 | the file loop computes `ReadFiles` from the empty table |
| ReadForecastData.ReadOutcomes | model_creation/data_compilation/read_forecast_data.py:34-56 | `read_outcomes` reads exactly the selected files, in order, from an empty table |
| CompileForecast.TokenToFullIndel | model_creation/data_compilation/compile_forecast.py:10-31 | the statement-by-statement `token_to_full_indel` (details filled match by match, mutations appended one by one) computes `FullIndelOf`, the value or the exception |
| CompileForecast.FillDetails | model_creation/data_compilation/compile_forecast.py:18-20 | the `details[letter] = eval(val)` loop gives the defaults I, D, C = 0 overwritten by the matches in order, or the first evaluation error |
| CompileForecast.CollectMutations | model_creation/data_compilation/compile_forecast.py:22-26 | the `muts.append` loop gives one mutation per match, or the first evaluation error |
| CompileForecast.FindCigarShaped | model_creation/data_compilation/compile_forecast.py:17 | every match of `([CLRDI]+)(-?\d+)` has a non-empty letter group of C/L/R/D/I and a number of the form -?digits |
| CompileForecast.FindMutShaped | model_creation/data_compilation/compile_forecast.py:22 | every match of `([MNDSI]+)(-?\d+)(\[[ATGC]+\])?` has the three groups of that shape, the bracket group possibly absent |
| CompileForecast.FindCigarRender | model_creation/data_compilation/compile_forecast.py:17 | the matcher finds back exactly the matches of a string written out from well-shaped matches (`findall` after rendering is the identity) |
| CompileForecast.FindMutRender | model_creation/data_compilation/compile_forecast.py:22 | the same round trip for the mutation pattern |
| CompileForecast.FindCigarNoLetters | model_creation/data_compilation/compile_forecast.py:17 | a string without any of C, L, R, D, I has no details match |
| CompileForecast.DetailsSucceed | model_creation/data_compilation/compile_forecast.py:18-20 | filling details succeeds exactly when every matched number evaluates |
| CompileForecast.DetailsSpec | model_creation/data_compilation/compile_forecast.py:18-20 | the details keys are I, D, C and every matched letter group; a matched key holds the value of its last match, an unmatched default holds 0 |
| CompileForecast.DetailsExtend | model_creation/data_compilation/compile_forecast.py:19-20 | one more match overwrites exactly its letter group's entry |
| CompileForecast.TokenKindSize | model_creation/data_compilation/compile_forecast.py:27-31 | the kind is the first character of the first segment; its size is 0 after `-` and otherwise the evaluation of the rest of the segment |
| CompileForecast.TokenSucceeds | model_creation/data_compilation/compile_forecast.py:10-31 | `token_to_full_indel` returns exactly for the tokens that parse (a non-empty type segment, and numbers that are optionally negated decimal literals without a leading zero) and raises for every other token |
| CompileForecast.MutationsSucceed | model_creation/data_compilation/compile_forecast.py:23-26 | the mutations are read exactly when every matched number evaluates |
| CompileForecast.ToMutationSpec | model_creation/data_compilation/compile_forecast.py:24-26 | one mutation keeps the letters, evaluates the position and takes the bases inside the brackets, "" when the bracket group is absent |
| CompileForecast.MutationsSpec | model_creation/data_compilation/compile_forecast.py:22-26 | the mutation list has one entry per match, in order, each as `ToMutationSpec` states |
| CompileForecast.TokenMutations | model_creation/data_compilation/compile_forecast.py:21-26 | mutations come only from the last segment, and only with three segments or more, or two after a `-` type; otherwise the list is empty |
| CompileForecast.TwoSegmentsNoMutations | model_creation/data_compilation/compile_forecast.py:21 | a two-segment token whose type is not `-` never yields mutations, whatever its second segment holds |
| CompileForecast.DashSegmentReadTwice | model_creation/data_compilation/compile_forecast.py:14-22 | after a bare `-` type the second segment is read both for details and for mutations |
| CompileForecast.SegmentsOf | model_creation/data_compilation/compile_forecast.py:13 | splitting `a_b` with no underscore in a or b gives the two segments |
| CompileForecast.TallyIndels | model_creation/data_compilation/compile_forecast.py:38-45 | the inner loop of `get_indel_freq` sums the D tokens' and the I tokens' counts, raising on the first other token |
| CompileForecast.GetIndelFreq | model_creation/data_compilation/compile_forecast.py:34-50 | the oligo loop computes `IndelFreq` |
| CompileForecast.DelInsTotal | model_creation/data_compilation/compile_forecast.py:40-43 | when every token starts with D or I, the deletion and insertion sums make up the oligo's total |
| CompileForecast.IndelFreqSpec | model_creation/data_compilation/compile_forecast.py:34-50 | `get_indel_freq` succeeds exactly when some oligo is listed and all tokens of every listed oligo start with D or I, an oligo the table lacks reading as no tokens (the defaultdict); entry i is then the deletion sum over the total of oligo i |
| CompileForecast.IndelFreqMissingOligo | model_creation/data_compilation/compile_forecast.py:37-49 | a listed oligo the table lacks contributes `[0, 0]`, so its share is NaN and the function does not fail on it |
| CompileForecast.RatioBounds | model_creation/data_compilation/compile_forecast.py:49 | `a / (a + b)` on non-negative counts is defined exactly when a + b > 0 and then lies in [0, 1] |
| CompileForecast.IndelFreqBounds | model_creation/data_compilation/compile_forecast.py:49 | every deletion share is in [0, 1], and undefined (NaN) exactly for an oligo without counts, including one the table lacks |
| CompileForecast.AllParseKeys | model_creation/data_compilation/compile_forecast.py:57-58 | a listing of an oligo's tokens parses exactly when every token of the oligo does |
| CompileForecast.TallyOneBp | model_creation/data_compilation/compile_forecast.py:57-63 | the inner loop of `get_1bp_insertion` succeeds exactly when every token parses, giving (1-bp insertion count, other count); a failure is the error of some token that does not parse |
| CompileForecast.TallyOneBpOver | model_creation/data_compilation/compile_forecast.py:57-63 | the same loop over one listing of the tokens: on success the two sums over the listing, on failure a token that raises |
| CompileForecast.TokenFails | model_creation/data_compilation/compile_forecast.py:58 | a token that raises makes its oligo fail with that error |
| CompileForecast.OneBpRowOf | model_creation/data_compilation/compile_forecast.py:56-64 | one oligo of `get_1bp_insertion`, looked up through the defaultdict, either extends the rows by that oligo's pair or stops the function with a token's error |
| CompileForecast.GetOneBpInsertion | model_creation/data_compilation/compile_forecast.py:53-67 | `get_1bp_insertion` succeeds exactly when some oligo is listed and every token of every listed oligo parses (an oligo the table lacks has none), giving each oligo's 1-bp insertion share; otherwise it stops at some oligo with a token's error, or with IndexError for an empty list |
| CompileForecast.OneBpTotal | model_creation/data_compilation/compile_forecast.py:60-63 | the 1-bp insertions and the rest make up the oligo's total |
| CompileForecast.OneBpBounds | model_creation/data_compilation/compile_forecast.py:66 | every 1-bp insertion share is in [0, 1] and undefined only for an oligo without counts |
| CompileForecast.OneBpMissingOligo | model_creation/data_compilation/compile_forecast.py:55-64 | an oligo the table lacks parses trivially and contributes `[0, 0]`, whose share is NaN |
| CompileForecast.SetSizes | model_creation/data_compilation/compile_forecast.py:71-73 | `int(n * prop)` is non-negative, and the test and validation sizes add up to at most n when the proportions do to at most 1 |
| CompileForecast.SplitConcat | model_creation/data_compilation/compile_forecast.py:76 | the test, validation and training slices, in order, are exactly the drawn index array |
| CompileForecast.SplitSizes | model_creation/data_compilation/compile_forecast.py:71-76 | the test set has `int(n * test_prop)` indices, the validation set `int(n * val_prop)` and the training set the rest |
| CompileForecast.SplitAtParts | model_creation/data_compilation/compile_forecast.py:76 | the three slices hold exactly the drawn indices, and are pairwise disjoint when the draw has no repeats |
| CompileForecast.SplitPartition | model_creation/data_compilation/compile_forecast.py:70-77 | for a draw that is a permutation of 0 .. n - 1, the three sets partition the oligo indices |
| CompileForecast.DumpAligned | model_creation/data_compilation/compile_forecast.py:80-92 | `dump_pickle` succeeds exactly when every index is in bounds (IndexError otherwise) and the labels are a list or an array (the exception otherwise); entry k of x and of every label comes from the same input position, a negative index counting from the end |
| CompileForecast.SplitSelectable | model_creation/data_compilation/compile_forecast.py:107-112 | each of the three index sets selects from inputs and labels as long as the oligo list without error |
| CompileForecast.LabelOligosSpec | model_creation/data_compilation/compile_forecast.py:97 | the label oligos are exactly the table's oligos with a target sequence, each once |
| CompileForecast.LabelOligosInTable | model_creation/data_compilation/compile_forecast.py:97-101 | every label oligo is a key of the count table and of the sequence dictionary, so the label functions cannot raise KeyError on them |
| ReadSproutData.ClassesDisjoint | model_creation/data_compilation/read_sprout_data.py:64-69 | an outcome is never both a single insertion and a single deletion, and neither is complex |
| ReadSproutData.IndicesWhereSpec | model_creation/data_compilation/read_sprout_data.py:63-69 | a position list built by the classification loop holds exactly the positions whose outcome is in the class |
| ReadSproutData.ClassifyRows | model_creation/data_compilation/read_sprout_data.py:60-69 | the classification loop computes the insertion, deletion and complex position lists |
| ReadSproutData.SumAtIndices | model_creation/data_compilation/read_sprout_data.py:75-79 | summing the rows at the listed positions is summing the rows of the class |
| ReadSproutData.SumWhereDisjoint | model_creation/data_compilation/read_sprout_data.py:73-79 | with non-negative counts two disjoint classes inside a third sum to at most its total |
| ReadSproutData.FileStats | model_creation/data_compilation/read_sprout_data.py:57-81 | the per-file part of `add_num_indels` computes `StatsOf`: `total_out` over the simple rows, insertions, deletions, keyed by the first column name |
| ReadSproutData.SimpleRowsSum | model_creation/data_compilation/read_sprout_data.py:71-73 | dropping the rows labelled complex leaves exactly the simple rows' counts |
| ReadSproutData.StatsBound | model_creation/data_compilation/read_sprout_data.py:73-79 | with non-negative counts a file's insertions and deletions are non-negative and add up to at most its `total_out` |
| ReadSproutData.AddNumIndels | model_creation/data_compilation/read_sprout_data.py:49-89 | `add_num_indels` fails exactly when reading some file does, with its error; otherwise every row is its cleared row with the files' statistics applied in listing order |
| ReadSproutData.ReadStatsStops | model_creation/data_compilation/read_sprout_data.py:55-57 | once a file fails, later files do not matter |
| ReadSproutData.FinalUnmatched | model_creation/data_compilation/read_sprout_data.py:51 | a row that no file's first column matches keeps NaN in the three columns |
| ReadSproutData.FinalLastMatch | model_creation/data_compilation/read_sprout_data.py:82-87 | a row matched by some file ends with the totals of the last file matching it |
| ReadSproutData.FinalOthers | model_creation/data_compilation/read_sprout_data.py:85-87 | applying statistics changes only the three added columns |
| ReadSproutData.GetRefseqDups | model_creation/data_compilation/read_sprout_data.py:101-117 | the two loops of `get_refseq_dups` compute the groups of size other than 1, without repeats |
| ReadSproutData.DupGroupsSpec | model_creation/data_compilation/read_sprout_data.py:105-109 | each collected group is some row's group and not a single name, and every such group is collected |
| ReadSproutData.RefseqDupsSpec | model_creation/data_compilation/read_sprout_data.py:101-117 | the groups are distinct, each has at least two names sharing a refseq (or is the empty group of a row without refseq), and every refseq shared by two different names gives a group |
| ReadSproutData.GroupShape | model_creation/data_compilation/read_sprout_data.py:107-108 | a row with a refseq is in its own group; a row without one (NaN) has the empty group |
| ReadSproutData.SharedGroup | model_creation/data_compilation/read_sprout_data.py:107-109 | two names sharing a refseq make a group of at least two |
| ReadSproutData.EndingsSpec | model_creation/data_compilation/read_sprout_data.py:129-131 | a gene's endings are `'-' + str(Number)` of its rows, one per row, in row order |
| ReadSproutData.IndicesNameBounded | model_creation/data_compilation/read_sprout_data.py:129 | the rows selected for gene g are exactly its rows |
| ReadSproutData.KeyTable | model_creation/data_compilation/read_sprout_data.py:121-132 | the first loop of `create_key_df` gives each distinct (gene, refseq) pair the endings of its gene |
| ReadSproutData.Shortest | model_creation/data_compilation/read_sprout_data.py:135 | `min(dup_lst, key=len)` is a member no longer than any other |
| ReadSproutData.ShortestFirst | model_creation/data_compilation/read_sprout_data.py:135 | ties go to the earliest name |
| ReadSproutData.FirstRowSpec | model_creation/data_compilation/read_sprout_data.py:141 | the lookup finds the first row of the gene, and none exactly when it has no row (the IndexError of `[0]`) |
| ReadSproutData.WithoutSpec | model_creation/data_compilation/read_sprout_data.py:144 | the filter keeps exactly the rows of the other genes |
| ReadSproutData.Prefixed | model_creation/data_compilation/read_sprout_data.py:142 | each ending is prefixed by the member's name less the base |
| ReadSproutData.AbsorbRows | model_creation/data_compilation/read_sprout_data.py:138-144 | absorbing a member keeps only rows that were there, none of the member when its prefix is non-empty, and every row of another gene |
| ReadSproutData.CreateKeyDf | model_creation/data_compilation/read_sprout_data.py:119-148 | `create_key_df` builds the key table and collapses every duplicate group, with each group listed in the set's iteration order |
| ReadSproutData.CollapseAllStops | model_creation/data_compilation/read_sprout_data.py:134-146 | once a group fails, later groups do not matter |
| ReadSproutData.CollapseGroupLoop | model_creation/data_compilation/read_sprout_data.py:134-146 | the body of the group loop computes `CollapseGroup` |
| ReadSproutData.RebuildName | model_creation/data_compilation/read_sprout_data.py:136-142 | a member named base + suffix keeps the suffix as its prefix, so base + prefixed ending rebuilds the member's own file name |
| ReadSproutData.CollectKeepsOthers | model_creation/data_compilation/read_sprout_data.py:138-144 | collecting keeps every row of the base and only rows of the table |
| ReadSproutData.CollapseGroupSpec | model_creation/data_compilation/read_sprout_data.py:134-146 | after a collapse the base's rows hold all collected endings, no member with a non-empty prefix has a row left, and every row of a gene outside the group is kept |
| ReadSproutData.CollectRemoves | model_creation/data_compilation/read_sprout_data.py:138-144 | after the first n members no row is left of a member with a non-empty prefix |
| ReadSproutData.GetIndelsAndTotalOut | model_creation/data_compilation/read_sprout_data.py:150-165 | per key row, the sums over the final rows of its gene and the deletion frequency `deletions / (deletions + insertions)` |
| ReadSproutData.GeneSumsBounded | model_creation/data_compilation/read_sprout_data.py:155-165 | with every final row filled and bounded, each gene's sums are numbers, its indels stay within `total_out` and its deletion frequency lies in [0, 1] or is NaN for a gene without indels |
| ReadSproutData.FinalBounded | model_creation/data_compilation/read_sprout_data.py:82-87 | every row's statistics come from a file, so for non-negative counts they are bounded |
| CompileSprout.MasterExclusions | model_creation/data_compilation/compile_sprout.py:33-40 | the exclusion loop of `get_master_df` lists exactly the positions of the SNV, no-variant, two-indel and "Other" outcomes (possibly twice) |
| CompileSprout.FrameshiftExclusions | model_creation/data_compilation/compile_sprout.py:144-150 | the exclusion loop of `add_frameshift_freq`, in its own order, lists the positions of the same outcomes, each once and in order |
| CompileSprout.DropExcluded | model_creation/data_compilation/compile_sprout.py:151 | dropping the listed positions keeps, in order, the rows of the outcomes that are not excluded |
| CompileSprout.KeptSpec | model_creation/data_compilation/compile_sprout.py:42 | a kept row is a row of the table whose outcome is not excluded |
| CompileSprout.SeqLens | model_creation/data_compilation/compile_sprout.py:153-162 | the `seqlens` loop computes `SeqLensOf`, stopping at the first length that cannot be read |
| CompileSprout.SeqLensNext | model_creation/data_compilation/compile_sprout.py:154-162 | each outcome appends 60 - n for a deletion, then 60 + n for an insertion |
| CompileSprout.SeqLensStops | model_creation/data_compilation/compile_sprout.py:154-162 | once an outcome's length cannot be read, later outcomes do not matter |
| CompileSprout.KeptOneKind | model_creation/data_compilation/compile_sprout.py:149-150 | a kept outcome never holds both D and I, and holds one exactly when it counts one |
| CompileSprout.SeqLensLength | model_creation/data_compilation/compile_sprout.py:153-163 | over kept outcomes `seqlens` has one entry per outcome exactly when every outcome holds D or I; otherwise it is shorter and the column assignment fails |
| CompileSprout.Mod3 | model_creation/data_compilation/compile_sprout.py:164 | `(seqlen - 60) % 3` is in 0 .. 2 and congruent to the length change, Python's remainder being non-negative |
| CompileSprout.FileTotalsBounded | model_creation/data_compilation/compile_sprout.py:164-170 | with non-negative counts, the rows with mod3 equal to 1 and to 2 add up to at most a file's total |
| CompileSprout.ReadFileTotals | model_creation/data_compilation/compile_sprout.py:141-170 | one replicate file is read (FileNotFound when missing), its excluded outcomes dropped, its lengths read and its three totals summed |
| CompileSprout.GeneFrameshiftLoop | model_creation/data_compilation/compile_sprout.py:139-170 | the replicate loop of a gene computes `GeneFrameshift`, the totals summed over its files |
| CompileSprout.GeneFrameshiftStep | model_creation/data_compilation/compile_sprout.py:140-170 | one more replicate file either fails the gene or adds its totals to the running totals |
| CompileSprout.GeneFrameshiftStops | model_creation/data_compilation/compile_sprout.py:140-170 | once a replicate file fails, later files do not matter |
| CompileSprout.GeneFrameshiftBounded | model_creation/data_compilation/compile_sprout.py:168-170 | with non-negative counts, a gene's frameshift buckets never exceed its total |
| CompileSprout.FreqsSpec | model_creation/data_compilation/compile_sprout.py:172-177 | the frameshift frequency is the share of the total in the two buckets, each frequency in [0, 1] for bucket totals within a non-zero total, NaN for a zero total |
| CompileSprout.Merge | model_creation/data_compilation/compile_sprout.py:81-84 | an outer merge with missing totals filled with 0 holds the keys of both tables, each with the sum of its two totals |
| CompileSprout.MergeWeight | model_creation/data_compilation/compile_sprout.py:81-84 | merging adds the weights under any filter on the key: no total is lost or counted twice |
| CompileSprout.MergeCommutes | model_creation/data_compilation/compile_sprout.py:81 | the order of two merged tables does not change the result |
| CompileSprout.TallyWeight | model_creation/data_compilation/compile_sprout.py:56-57 | reading rows as a merged table keeps their total weight |
| CompileSprout.TallyKeys | model_creation/data_compilation/compile_sprout.py:56-57 | the tally of rows holds exactly the rows' keys |
| CompileSprout.InsMasters | model_creation/data_compilation/compile_sprout.py:52-60 | each insertion row becomes a master row under the `Allele`, `insseq`, `seqlen` key |
| CompileSprout.MergeSamples | model_creation/data_compilation/compile_sprout.py:49-58 | the sample merge loop computes `SampleMerge` |
| CompileSprout.OfSamplesSplit | model_creation/data_compilation/compile_sprout.py:53-57 | merging in one more sample merges in its rows |
| CompileSprout.SampleMergeRows | model_creation/data_compilation/compile_sprout.py:49-58 | after n samples the merged table is the tally of those samples' rows |
| CompileSprout.InsertionMerge | model_creation/data_compilation/compile_sprout.py:49-58 | with the samples of the file listed once each, the merged insertion table is the tally of all the file's rows, in whatever order the set gives the samples |
| CompileSprout.TallyGet | model_creation/data_compilation/compile_sprout.py:56-57 | each key's merged total is the sum of the totals of the rows with that key |
| CompileSprout.GetMasterDf | model_creation/data_compilation/compile_sprout.py:22-64 | with `order` listing every sample once and `keys` every merged key once, the method computes `MasterOf`: kept counts rows, then the merged and `maxlen`-filtered insertion rows, upper-cased |
| CompileSprout.UpperTwice | model_creation/data_compilation/compile_sprout.py:87 | upper-casing twice is upper-casing once |
| CompileSprout.ListedSpec | model_creation/data_compilation/compile_sprout.py:59-60 | the listed insertion rows are rows of the merged table within `maxlen` whose keys are listed, every such listed key has a row, and no key has two rows when the listing repeats none |
| CompileSprout.MasterOfSpec | model_creation/data_compilation/compile_sprout.py:42-62 | a master table holds the kept counts outcomes first, in order and never excluded, then insertion rows with `seqlen <= maxlen`; every sequence is upper case |
| CompileSprout.InsPartSpec | model_creation/data_compilation/compile_sprout.py:45-61 | with the merge orders pandas and `set` give, every insertion row carries the sum of the counts of all the file's rows with its key, every key of the file within `maxlen` has a row, and no key has two |
| CompileSprout.ParseIdEndingRoundTrip | model_creation/data_compilation/compile_sprout.py:70-72 | parsing `id_ending` inverts `str(list)` for a non-empty list of plain endings |
| CompileSprout.ParseEmptyList | model_creation/data_compilation/compile_sprout.py:71-72 | an empty list, written "[]", reads back as one empty ending |
| CompileSprout.QuotesRemoved | model_creation/data_compilation/compile_sprout.py:72 | removing the quotes of `repr(x)` gives back a plain x |
| CompileSprout.GenePaths | model_creation/data_compilation/compile_sprout.py:73 | one path `genename + end + '.txt'` per ending, in order |
| CompileSprout.MergeReplicates | model_creation/data_compilation/compile_sprout.py:75-85 | the replicate merge loop computes `GeneMaster` |
| CompileSprout.CreateMasterFile | model_creation/data_compilation/compile_sprout.py:68-89 | the body of the gene loop yields the master file name and the merged table |
| CompileSprout.ReplicateMergeWeight | model_creation/data_compilation/compile_sprout.py:75-85 | for any filter on the key, the merged master table's weight is the sum of the replicates' weights |
| CompileSprout.ReplicateMergeKeys | model_creation/data_compilation/compile_sprout.py:75-85 | the merged master table holds exactly the replicates' keys |
| CompileSprout.ReplicateMergeUpper | model_creation/data_compilation/compile_sprout.py:87 | when every replicate table is upper case so is the merge: the second `.str.upper()` changes nothing |
| CompileSprout.Proba | model_creation/data_compilation/compile_sprout.py:107 | `total_1bp / total_indels` is NaN when a count is NaN or the indels add up to 0, and the quotient otherwise |
| CompileSprout.AddProba | model_creation/data_compilation/compile_sprout.py:98-107 | the key-row loop shared by the two probability labels computes `ProbaColumn` |
| CompileSprout.AddProba1bpInsertion | model_creation/data_compilation/compile_sprout.py:95-109 | `add_proba_1bp_insertion` computes the column of 1 bp insertion counts (sequence length 61) over all indels |
| CompileSprout.AddProba1bpDeletion | model_creation/data_compilation/compile_sprout.py:112-126 | `add_proba_1bp_deletion` computes the column of 1 bp deletion counts (sequence length 59) over all indels |
| CompileSprout.ProbaColumnSpec | model_creation/data_compilation/compile_sprout.py:98-107 | the column is filled exactly when every gene has a master file (FileNotFound otherwise), and row i is the counts at the length in that gene's master over its indels |
| CompileSprout.WrittenWeight | model_creation/data_compilation/compile_sprout.py:103-105 | a merged table written out with each key once keeps its weight when read back |
| CompileSprout.ProbaFromReplicates | model_creation/data_compilation/compile_sprout.py:103-107 | read from the master file, the numerator of a 1 bp probability is the sum over the gene's replicates of their counts at that length |
| CompileSprout.AddFrameshiftFreq | model_creation/data_compilation/compile_sprout.py:129-178 | `add_frameshift_freq` computes `FrameshiftColumn` |
| CompileSprout.GeneFreqsRow | model_creation/data_compilation/compile_sprout.py:134-173 | one key row of `add_frameshift_freq` computes that gene's frequencies, or the error of its replicate files |
| CompileSprout.GeneFreqsOk | model_creation/data_compilation/compile_sprout.py:172-177 | with non-negative counts a gene's frequencies are NaN or in [0, 1] and the frameshift frequency is the sum of the two others |
| CompileSprout.FrameshiftColumnSpec | model_creation/data_compilation/compile_sprout.py:133-177 | the columns are filled exactly when every gene's files are, and then row i holds gene i's own frequencies |
| OneHot.Unit | model_creation/model_evaluation/evaluate.py:17 | row i of `np.eye(4)` has 1 at position i and 0 elsewhere |
| OneHot.UnitSum | model_creation/model_evaluation/evaluate.py:17 | every identity row sums to 1 |
| OneHot.ZipSpec | model_creation/model_evaluation/evaluate.py:14 | the dictionary of the first n pairs of `zip(base_map, range(4))` has exactly those characters as keys, each mapped to the position of its last occurrence |
| OneHot.MappingSpec | model_creation/model_evaluation/evaluate.py:14 | `dict(zip(base_map, range(4)))` keys exactly the characters among the first four of `base_map`, each mapped to the index of its last occurrence there |
| OneHot.MappingIndex | app/views.py:10 | when the first four characters are distinct each maps to its own index |
| OneHot.MappingACGT | app/views.py:24 | the map of "ACGT" sends A, C, G, T to columns 0 to 3 |
| OneHot.MappingBounded | model_creation/model_evaluation/evaluate.py:14 | every mapped value is a row index of the identity matrix |
| Evaluate.OneHotEncode | model_creation/model_evaluation/evaluate.py:13-24 | the chunk loop over `seq.split('N')`, stacking a row of 0.25 between chunks, computes `OneHotOf`, the character-by-character encoding or its KeyError |
| Evaluate.ChunkRows | model_creation/model_evaluation/evaluate.py:16-17 | on a chunk between Ns the identity-row encoding and the per-character encoding agree |
| Evaluate.StackStep | model_creation/model_evaluation/evaluate.py:18-23 | one more chunk appends the 0.25 row and the chunk's rows |
| Evaluate.RejectedChunk | model_creation/model_evaluation/evaluate.py:21 | a chunk with a character not in the map makes the whole encoding fail with KeyError |
| Evaluate.OneHotRejects | model_creation/model_evaluation/evaluate.py:16 | a character that is neither N nor a key fails the encoding with KeyError |
| Evaluate.OneHotSpec | model_creation/model_evaluation/evaluate.py:13-24 | the encoding succeeds exactly when every character is N or a key; it then has one row per character, 0.25 four times for N and the identity row of the character's column otherwise, each summing to 1 |
| Evaluate.OneHotError | model_creation/model_evaluation/evaluate.py:16-21 | KeyError is the only error of the encoding |
| Evaluate.OneHotIdentity | model_creation/model_evaluation/evaluate.py:13-24 | encoding four distinct non-N letters of the base map itself gives the identity matrix |
| Evaluate.Blocks | model_creation/model_evaluation/evaluate.py:34 | `np.reshape(stack, (number, len_, 4))` cuts the stack into `number` blocks of `len_` rows |
| Evaluate.OneHotEncodeLst | model_creation/model_evaluation/evaluate.py:27-38 | the loop over the column, concatenating and counting, computes `EncodedColumn`: KeyError for an empty column, the first encoding error, or the reshaped stack |
| Evaluate.BlocksConcat | model_creation/model_evaluation/evaluate.py:32-34 | reshaping the concatenation of equal-length encodings gives back the encodings |
| Evaluate.ConcatLength | model_creation/model_evaluation/evaluate.py:32 | the stack has as many rows as the sequences have characters |
| Evaluate.ColumnBlocks | model_creation/model_evaluation/evaluate.py:26-34 | for sequences of length `len_` that encode, block k of the result is the encoding of sequence k |
| Evaluate.ColumnTotalOnly | model_creation/model_evaluation/evaluate.py:34 | when every sequence encodes, the reshape succeeds exactly when the characters add up to `number * len_`; sequences of unequal length are not rejected as long as the total fits |
| Evaluate.ColumnRejects | model_creation/model_evaluation/evaluate.py:29-31 | one sequence that does not encode makes the column fail with KeyError |
| Forms.ValidateBase | app/forms.py:4-18 | no error exactly when the input has only a/c/g/t in either case and 79 characters; the alphabet error exactly when some character is outside, the length error, carrying the length, exactly when the length is not 79, alphabet first; an empty input gives only the length error |
| Views.ViewOneHotSpec | app/views.py:8-12 | the view's encoding upper-cases the input and succeeds exactly when every upper-cased character is a key; row i is then the identity row of its column |
| Views.ViewCaseInsensitive | app/views.py:9 | encoding an upper-cased input is encoding the input |
| Views.ModelInput | app/views.py:25 | `np.reshape(input_seq, (1, 60, 4))` succeeds exactly for 60 rows |
| Views.AcceptedInputRejected | app/forms.py:12-15 | every input the form accepts encodes to 79 rows, which the (1, 60, 4) reshape of the view rejects with ValueError |
| Amber.LoadPickleData | model_creation/model_search/amber_cnn_sumstats.py:31-41 | the loop over `tasks` computes `Loaded`: the label column of each requested task, in order, transposed |
| Amber.LoadedSpec | model_creation/model_search/amber_cnn_sumstats.py:36-40 | loading succeeds exactly when every task is a known name whose column exists (KeyError, IndexError otherwise) and the selected columns have equal length (ValueError otherwise); y[i][k] is then sample i of task k's column and x is passed through |
| Amber.LayerOps | model_creation/model_search/amber_cnn_sumstats.py:153-161 | each layer offers seven operations, all with the layer's filter count |
| Amber.ExpandLayers | model_creation/model_search/amber_cnn_sumstats.py:151 | one expansion layer per pooling step |
| Amber.GetModelSpace | model_creation/model_search/amber_cnn_sumstats.py:150-164 | `get_model_space` gives `num_layers` layers, layer i offering the seven operations with `out_filters` doubled once per expansion layer before i |
| Amber.DoublingsBound | model_creation/model_search/amber_cnn_sumstats.py:162-163 | the filters double at most `num_pool - 1` times (the first expansion layer is -1, never reached), and never with a single pooling step |
| Amber.DoublingsMonotone | model_creation/model_search/amber_cnn_sumstats.py:162-163 | filter counts never decrease from one layer to the next |
| Amber.DefaultFilters | model_creation/model_search/amber_cnn_sumstats.py:151-163 | with the defaults (64, 9, 4) the expansion layers are -1, 1, 3, 5 and the filters 64, 64, 128, 128, 256, 256, 512, 512, 512 |
| Amber.TriClosed | model_creation/model_search/amber_cnn_sumstats.py:62 | `sum(range(n))` is n(n - 1)/2 |
| Amber.TriMonotone | model_creation/model_search/amber_cnn_sumstats.py:71 | the skips taken by the first i layers fit in those of any later layer count |
| Amber.SkipBits | model_creation/model_search/amber_cnn_sumstats.py:63-66 | the skip list has `num_skips` entries |
| Amber.OnesSkipBits | model_creation/model_search/amber_cnn_sumstats.py:63-65 | the skip list holds one 1 per distinct drawn position |
| Amber.Arc | model_creation/model_search/amber_cnn_sumstats.py:68-73 | after l layers the architecture has l operation tokens and l(l - 1)/2 skip tokens |
| Amber.RandomSampleController | model_creation/model_search/amber_cnn_sumstats.py:44-74 | the layer loop, popping `layer_id` skips from the front of the list, computes `Sampled` from the given draws; ValueError for a negative or too large sample size or a layer without operations |
| Amber.SampleLayers | model_creation/model_search/amber_cnn_sumstats.py:68-74 | the layer loop gives ValueError when some layer has no operation to draw from, and otherwise the full layer-by-layer token list `Arc` |
| Amber.ArcStep | model_creation/model_search/amber_cnn_sumstats.py:68-73 | layer l appends its operation token, then the next l skip bits |
| Amber.ArcLayout | model_creation/model_search/amber_cnn_sumstats.py:68-73 | in the final architecture, layer l's operation token sits at l + l(l - 1)/2, followed by skip bits l(l - 1)/2 .. l(l - 1)/2 + l - 1 |
| Amber.DistinctCard | model_creation/model_search/amber_cnn_sumstats.py:64 | a draw without replacement of k positions covers k positions |
| Amber.SampledSpec | model_creation/model_search/amber_cnn_sumstats.py:60-74 | a sampled architecture has n + n(n - 1)/2 tokens and exactly `int(num_skips * skip_target)` skip connections |
| Amber.RecentFromSpec | model_creation/model_search/amber_cnn_sumstats.py:96-97 | with `last_only` the rows kept are exactly those whose episode is at least the row count minus `last_only` |
| Amber.ReadControllerTrainHistory | model_creation/model_search/amber_cnn_sumstats.py:95-106 | no row gives (None, -inf); otherwise the result is the arc and auc of the first row with the largest auc among the kept rows |

## Left out

- File and directory I/O is not modelled: `open`, `os.listdir`, `os.path.exists`, `pd.read_csv`, `to_csv`, `pickle`, `np.save`, `h5py` and `tqdm`. File and directory contents are parameters. A missing file becomes `FileNotFound` where the source would fail on it. Writing a table out is modelled only as the rows that would be written.
- Randomness is not modelled. The permutation of `split_train_val_test`, the skip and operation draws of `random_sample_controller`, and the iteration order of Python sets are parameters, constrained by `requires` to what numpy and Python guarantee.
- `print(np.mean(skips))` in `random_sample_controller` is output only, and is left out.
- Integers are unbounded: numpy's int64 overflow is not modelled.
- Floats are exact reals. NaN and infinity are `None`.
- Amber.ReadControllerTrainHistory: does not model a NaN reward, which Python's `>` never selects; rewards are reals. The model's `None` reward stands for the initial `-inf`.
- Amber.LoadedSpec: a ragged label selection is the `ValueError` that numpy 1.24 and later raise for `np.array` of unequal rows. Older numpy built an object array instead; that case is not modelled.
- Amber.LoadPickleData: `data[0]` is passed through unchanged and is not inspected.
- `PyStr.Upper` covers ASCII letters only, since every input here is a DNA sequence. Full Unicode case mapping is not modelled.
- Digits are ASCII only. Python's `\d` in the token patterns and `int()` also accept every Unicode decimal digit; those inputs are not modelled.
- CompileForecast.TokenSucceeds: only optionally negated decimal literals evaluate, and every evaluation failure is a `SyntaxError`. Python's `eval` also accepts forms such as `+1`, ` 1`, `1.0`, `0x1` and `True`, and raises `NameError` for a name. CompileForecast.TokenKindSize shares this scope.
- The texts of the validation messages are not modelled; `Forms.FormError` records which error occurred and, for the length error, the length.
- Model training, prediction, Keras/TensorFlow, the Amber library objects and scipy statistics are not modelled. This covers `main`, `robust_spearmanr`, `get_croton_obs`, `get_croton_pred`, `get_aucroc_stats` and `get_input_view` beyond its reshape.
- `seq_to_matrix` (`compile_forecast.py:104`) is a foreign call, so the encoded sequences of the FORECasT `main` are not modelled. Of that `main` only the label-oligo list (line 97) is modelled.
- `get_binary_cols` in `evaluate.py` is not modelled: it compares a list with a float, which raises in Python 3.
- `model_creation/model_search/get_randomized_distr.py` is not part of this model. It is a plotting script.
- `create_clean_csv` and `create_final_df` are not part of this model. The final table they produce is a parameter of `add_num_indels`. As written, `create_clean_csv` returns the uncleaned table.
- The FORECasT `main` calls `read_data_main()` without its `token` argument, which raises `TypeError`. `ReadForecastData.ReadOutcomes` takes `token` as a parameter instead.
- ReadSproutData.AddNumIndels: skips listing position 822 as the source does. Which file sits there depends on the directory listing order, which is a parameter.
- CompileSprout.GetMasterDf: the counts table after `dropna` is assumed complete, so positions and index labels coincide. The source collects positions but filters by labels, which differ once `dropna` has removed a row. The first exclusion loop (lines 27-31) is not modelled: its result is overwritten at line 42. `dropna` on the insertions file is likewise assumed to remove nothing.
- `compile_sprout.py` line 8 imports `final_df` from `read_sprout_data.py`, which defines no such name at module level, so the import raises `ImportError`. The model treats the functions of `compile_sprout.py` as if the import succeeded.
- ReadSproutData.CreateKeyDf: a collapsed base keeps its endings as a list. The source stores `str(list)`, so a later duplicate group that contains an already collapsed base walks the characters of that string. The model prefixes whole endings in that case, so it covers only inputs where no base of one group is a member of a later group. ReadSproutData.CollapseGroup shares this scope.
- `get_indel_freq` and `get_1bp_insertion` insert an empty entry into the defaultdict for each listed oligo it lacks. The model does not return the table, so that side effect is not modelled; the results are.
- CompileSprout.Merge: sums the totals of rows with the same key inside one table. pandas would pair such rows up (a cartesian product); that case is not modelled.
- ReadSproutData.Shortest: takes the first shortest name in the group's listing. The listing order is a parameter standing for Python's set order, so ties are resolved by that parameter, not by any fixed rule.
- Evaluate.OneHotEncodeLst: `len_` is a natural number. numpy's `-1` (infer this dimension) is not modelled. An empty column is the `KeyError` of the pandas label lookup `seq_col[0]`.
- Evaluate.ColumnTotalOnly: the source comment says the function only works for sequences of equal length, but the reshape checks only the total. The model states what the code checks.
- Views: `round` and the string formatting of the predictions are not modelled.

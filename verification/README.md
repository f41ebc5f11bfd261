# RustRegressor ID3 core in Dafny

A Dafny model of the decision-tree part of RustRegressor and of the code around it:

- **The ID3 classifier** (`src/id_3.rs`).
  - An encoded data set (`ProcessedData`): one column of `u32` category codes per attribute.
  - The count table (`Counter`) fed to the split score.
  - The tree (`Node` = `Internal` | `Leaf`), its query, and the recursive training.
    - Training picks the attribute with the lowest score; `min_by` keeps the first such attribute.
    - It groups the instances by that attribute's code.
    - It removes the attribute from a shared candidate buffer with `swap_remove`.
    - It builds one child per group: a leaf with the majority target, a leaf with the common target, or an internal node that is trained further.
- **The crate-level helpers** (`src/lib.rs`): `swap_remove`, `all_equal`, `majority_vote_ordered` and `majority_vote`.
- **The ARFF header reader** (`src/data_set.rs`).
  - The `Parser` cursor: `parse_string`, `parse_attribute`, `parse_nominal`.
  - The `Nominal` coding table, which maps declared values to `u8` ids.
  - `DataSet::get_data_len`.
- **The prediction counters** (`src/test_statistics.rs`): `TestStats` and `RightVsWrong`.

## Modelling choices

The Dafny modules follow the Rust files:

| module | Rust source |
|---|---|
| `Lib` | `lib.rs` |
| `Id3Data`, `Id3Counter`, `Id3Tree`, `Id3` | `id_3.rs` |
| `DataSets` | `data_set.rs` |
| `TestStatistics` | `test_statistics.rs` |

`Base` holds `Option`, `Result` and the fixed-width integer types.

### Panics and floats

- **Panics** (`unwrap`, `expect`, out-of-bounds indexing, `todo!`) become an `Option` or `Result` error value. The error names the panic that the Rust code raises first.
- **Entropy** is `f32` arithmetic with `log2`. The model does not compute it.
  - It is the parameter `score: (Counts, nat) -> real`, applied to the count table and the instance count.
  - Only the selection rule built on the score is modelled and proved.
  - A NaN score, which makes `partial_cmp(..).expect(..)` panic, is not modelled.
- **`NumericType::convert`** is modelled from the integer its `as i64` cast produces. Since that cast saturates, any integer can arrive.

### State and iteration

- **The candidate list** of `InternalNode::train` is one `&mut [usize]` buffer shared by the whole recursion. The model keeps it as an `array<nat>` and a prefix length.
  - Each `swap_remove` permutes the buffer in place.
  - Siblings therefore see the same candidates, possibly in a different order.
  - Each training step states the first-minimum tie-break on the slice order it actually sees.
- **`HashMap` iteration order** (children of a node, `majority_vote`) is unspecified, and the model makes no assumption about it.
  - The loops pick the next key with `:|`.
  - The tree specification (`Trained`) describes the children as a set keyed by code, with no two children sharing a key.
- **`BTreeMap` iteration** in `majority_vote_ordered` is modelled as repeatedly taking the least remaining key. `max_by_key` keeps the last maximum it sees.
- **Mutable state becomes classes.**
  - Classes: `ID3`, `Counter`, `Parser`, `Nominal`, `TestStats`, `RightVsWrong`.
  - Their methods carry `modifies` clauses and state their whole new state.
  - The counter classes keep a ghost count of recorded calls, so that the invariant "the cells add up to the number of calls" can be stated.

### Positions

- Parser positions count characters, not bytes.

### Behaviour of the code kept as written

- **Split score.** It is computed from the attribute's and the target's whole columns, not from the instances at the node (`AttrScore`). In the model the score is a function of that count table, so an attribute scores the same at every node; the `f32` sums of the code need not agree to the last bit (see `Id3Tree.ChooseSplit` under "Left out").
- **Candidate sets.** Siblings do not get their own copies; they share and permute one buffer.
- **Query is not total.** An instance shorter than a split attribute's index makes indexing panic (`QueryNode` answers `None`).
  - It is total on instances with a value for every column (`Id3.TrainedRootAnswers`).
- **Training errors.** Besides the empty data set, training also panics when:
  - there are no columns;
  - the target index is out of range;
  - there is no attribute other than the target.
  The last of these strikes after the root's fallback has been written (`Id3.ID3.Train`).
- **Nominal ids.** `Nominal::new` does not number values in first-seen order of distinct values.
  - It gives each declared value its position, truncated to `u8`.
  - A later duplicate overwrites an earlier one.
- **`buckets == 0`** is not guarded: `buckets - 1` underflows. `Convert` answers `None`, the overflow panic of a build with overflow checks on (see `Id3Data.Convert` under "Left out").

### Parser behaviour kept as written

- `parse_string` on a quoted token searches for the closing quote from the second character after the opening one.
  - So `''` does not read an empty token; the search skips its closing quote (`DataSets.EmptyQuotesExample`).
- When no whitespace follows a token, the cursor moves to the token's end plus the length of the whole line.
  - This is past the end (`DataSets.KeywordAttributeExample`).
  - The next read fails with `CursorPastEnd`.

## Model

| member | source | states |
|---|---|---|
| Lib.SwapRemoved | src/lib.rs:12-15 | the slice `swap_remove` hands back is one shorter, holds the old last element at `index`, and is unchanged elsewhere |
| Lib.SwapRemovedMultiset | src/lib.rs:13-14 | nothing is lost: the returned slice plus the removed element is the old slice as a multiset |
| Lib.SwapRemovedDistinct | src/lib.rs:12-15 | on a slice without repetitions the result is still without repetitions and holds exactly the old elements except the removed one |
| Lib.SwapRemove | src/lib.rs:12-15 | fails exactly on an empty slice or an index past its end; otherwise swaps `index` with the last position in place, answers the shorter length, whose prefix is `SwapRemoved`, and the buffer stays a permutation of itself |
| Lib.AllEqual | src/lib.rs:25-33 | fails exactly on empty input; otherwise true iff every element equals the first |
| Lib.CountVotes | src/lib.rs:44-51 | the count map has one key per distinct element, holding its number of occurrences |
| Lib.MajorityVoteOrdered | src/lib.rs:37-56 | fails exactly on empty input; otherwise answers an element of maximal count that is the greatest among equally frequent ones |
| Lib.OrderedMajorityUnique | src/lib.rs:53-55 | the ordered vote is deterministic: at most one value is a greatest most frequent element |
| Lib.OrderedMajorityExample | src/lib.rs:35-55 | the tie in `[1, 1, 2, 2, 3]` goes to `2` |
| Lib.MajorityVote | src/lib.rs:60-76 | fails exactly on empty input; otherwise answers some element of maximal count, with no tie-break promised |
| Id3Data.Convert | src/id_3.rs:139-148 | with at least one bucket the code lies in `0..buckets`: values at or above `buckets` go to the top bucket, negatives to 0, others unchanged; with no buckets and a non-negative value `buckets - 1` underflows and panics (`None`), as in a build with overflow checks on |
| Id3Data.ConvertMonotone | src/id_3.rs:139-148 | the clamp keeps the order of the values |
| Id3Data.ProcessedData.DataLen | src/id_3.rs:19-21 | the length of the first column, failing when there are no columns |
| Id3Data.ProcessedData.GetValue | src/id_3.rs:32-37 | `Ok(data[attribute][index])` exactly when both indices are in bounds, otherwise the matching error message |
| Id3Data.GetValueInShape | src/id_3.rs:32-37 | in rectangular data every in-shape lookup succeeds, so the `unwrap` calls of training never fail |
| Id3Counter.Counter.constructor | src/id_3.rs:168-173 | an empty table with `len` zero, satisfying the invariant |
| Id3Counter.Counter.Insert | src/id_3.rs:175-186 | raises `len` and the count of the pair by one, creating missing entries with count 1, and keeps `len` equal to the sum of all counts |
| Id3Counter.TotalBump | src/id_3.rs:175-186 | one insertion raises the sum of all counts by exactly one |
| Id3Counter.Zip | src/id_3.rs:372-374 | the pairs of two columns up to the end of the shorter one |
| Id3Counter.TallyCounts | src/id_3.rs:371-377 | after feeding a sequence of pairs, each count is the number of times its pair occurs and the table holds exactly the pairs fed |
| Id3Counter.TallyTotal | src/id_3.rs:371-377 | the sum of all counts is the number of pairs fed |
| Id3Counter.TallyColumns | src/id_3.rs:371-377 | a fresh counter fed the pairs of two whole columns holds their tally and their number |
| Id3Tree.FindChild | src/id_3.rs:347 | the first child with the key, or none when no child has it |
| Id3Tree.HasKey | src/id_3.rs:299-304 | an internal node and a leaf alike match a key exactly when their own key equals it |
| Id3Tree.QueryNode | src/id_3.rs:345-352 | a leaf answers its value; an internal node descends into the first child whose key matches the instance's code at the split attribute; one whose split code matches no child answers its fallback; a split attribute past the instance's end fails |
| Id3Tree.ScoreAttribute | src/id_3.rs:370-379 | the score of a candidate is that of the count table of its whole column against the whole target column |
| Id3Tree.ChooseSplit | src/id_3.rs:367-382 | the chosen position holds a minimal score and every earlier position scores strictly more, the first minimum `min_by` keeps |
| Id3Tree.ChosenSplit | src/id_3.rs:367-384 | the chosen attribute is the first minimum of the slice and no candidate scores lower |
| Id3Tree.GroupMembers | src/id_3.rs:387-396 | a group holds exactly the instances whose code is its key |
| Id3Tree.KeysOfGroups | src/id_3.rs:387-396 | a code is a key of the children map exactly when its group is non-empty |
| Id3Tree.GroupsPartition | src/id_3.rs:387-396 | the groups partition the instances: each lies in the group of its own code and in no other, and groups hold nothing else |
| Id3Tree.GroupBy | src/id_3.rs:387-396 | the map built by appending each instance to its code's group is the grouping of the instances |
| Id3Tree.GroupByStep | src/id_3.rs:391-395 | appending one instance to the group of its code (creating it when absent) yields the grouping of the longer list |
| Id3Tree.PickSplit | src/id_3.rs:367-396 | the chosen attribute is the first minimum of the slice, and its groups are non-empty and within the data |
| Id3Tree.SplitOn | src/id_3.rs:367-399 | picks and groups as above, then leaves the candidates minus the chosen attribute in the shorter prefix, free of repetitions, with the chosen attribute at the old last position and the buffer beyond untouched |
| Id3Tree.RemovedCandidate | src/id_3.rs:399 | after `swap_remove` the candidates are free of repetitions and are the old ones minus the chosen attribute |
| Id3Tree.PermutedCandidates | src/id_3.rs:433 | a sibling's in-place permutation leaves the next sibling the same candidate set |
| Id3Tree.TrainInternal | src/id_3.rs:358-438 | the node keeps its key and fallback, splits on the first minimum of its slice, and is `Trained` for its instances and candidates; the candidate prefix comes back permuted and the buffer beyond it untouched |
| Id3Tree.TrainChildren | src/id_3.rs:402-437 | one child per group, keyed by the group's code with no key twice, each fitting its group with the reduced candidates, in any order |
| Id3Tree.TrainChild | src/id_3.rs:404-435 | a leaf with the ordered majority when no candidates remain, a leaf with the common target when all targets agree, and otherwise an internal node with the ordered majority as fallback, trained further |
| Id3Tree.TrainedSplitsWithin | src/id_3.rs:399-433 | a trained node splits only on its candidates, each at most once along a path |
| Id3Tree.SplitsWithinDistinct | src/id_3.rs:399 | splitting within candidates disjoint from the used attributes repeats no attribute along a path |
| Id3Tree.SplitsWithinDepth | src/id_3.rs:399 | the number of internal nodes on a path is at most the number of candidates |
| Id3Tree.ChildValueIsTarget | src/id_3.rs:404-435 | every child's value is the target code of some instance of its group |
| Id3Tree.QueryAnswersTraining | src/id_3.rs:345-352 | a trained node queried with an instance that has every candidate attribute always answers, and answers a target code of one of its training instances |
| Id3Tree.PureGroupsMakeLeaves | src/id_3.rs:416-422 | when every group has a single target code, every child is a leaf answering exactly its group's target code |
| Id3.AllBut | src/id_3.rs:225-227 | the attribute list holds exactly the columns other than the target, in ascending order |
| Id3.AllButDistinct | src/id_3.rs:225-227 | the attribute list has no repetitions |
| Id3.ID3.constructor | src/id_3.rs:209-212 | the untrained root is an internal node with every field zero and no children |
| Id3.ID3.Train | src/id_3.rs:214-229 | each panic comes back as its own error, exactly in its case and in source order, leaving the root untouched except for the fallback written before the last one; on success the root keeps its key, its fallback is the ordered majority of the target column, it splits on the first minimum of the non-target columns and is `Trained` on all instances |
| Id3.TrainedRootShape | src/id_3.rs:224-228 | a trained root never splits on the target, never on one column twice along a path, and is no deeper than the number of non-target columns |
| Id3.TrainedRootAnswers | src/id_3.rs:250-252 | after training, querying any instance with a value for every column answers, and answers a code occurring in the target column |
| DataSets.SkipSpace | src/data_set.rs:285-288 | the first non-whitespace position at or after the cursor, or the end |
| DataSets.NextSpace | src/data_set.rs:307-309 | the first whitespace position at or after a position, or the end |
| DataSets.Find | src/data_set.rs:297-299 | the first position at or after a position holding a character, or the end |
| DataSets.ScanString | src/data_set.rs:284-319 | a read token lies between the cursor and the end of the line, and the cursor lands at or after its end |
| DataSets.ScanAtEnd | src/data_set.rs:285-288 | a cursor past the end fails, and reading fails with end of file exactly when only whitespace remains |
| DataSets.ScanBare | src/data_set.rs:307-316 | an unquoted token is the maximal non-empty run of non-whitespace from the first non-whitespace character, and the cursor lands on the whitespace after it |
| DataSets.ScanQuoted | src/data_set.rs:294-306 | a quoted token with content succeeds exactly when a matching quote follows, is the content up to it without the quotes, and otherwise fails with the missing-quote error of its kind |
| DataSets.EmptyQuotesExample | src/data_set.rs:295-300 | `'' x'` reads the token `' x` and moves the cursor past the end of the line |
| DataSets.Parser.constructor | src/data_set.rs:275-277 | a cursor over the line at the given position |
| DataSets.Parser.ParseString | src/data_set.rs:284-319 | answers the token and moves the cursor as `ScanString` describes, leaves the cursor on failure, and never moves it back |
| DataSets.Parser.ParseNominal | src/data_set.rs:344-359 | a fresh, valid nominal table with the first tokens of the list's pieces and no data, with the cursor just past the `}`, or the failure of `ScanNominal` |
| DataSets.Parser.ParseAttribute | src/data_set.rs:321-342 | the label, then a fresh nominal table after a `{` or the column a type keyword announces, exactly as `ScanAttribute` describes |
| DataSets.Split | src/data_set.rs:353 | at least one piece and no piece holding the separator |
| DataSets.SplitJoin | src/data_set.rs:353 | splitting loses nothing: joining the pieces gives the text back |
| DataSets.JoinSplit | src/data_set.rs:353 | pieces free of the separator are what splitting their join gives |
| DataSets.FirstTokens | src/data_set.rs:352-355 | on success one token per piece, each the first token of its piece; on failure the error of the first piece that has no token, every earlier piece having one |
| DataSets.FirstTokensOf | src/data_set.rs:352-355 | a fresh parser per piece yields exactly `FirstTokens` |
| DataSets.FirstTokensFail | src/data_set.rs:354-355 | a failing prefix makes the whole list fail with the same error |
| DataSets.ScanNominal | src/data_set.rs:344-359 | a read list ends just past a `}` after the cursor |
| DataSets.ScanNominalAt | src/data_set.rs:344-359 | from the cursor, a text whose first `{` is at `open` and whose first `}` after it is at `close` reads exactly the first tokens of the comma-separated pieces between them (or the error of the first piece without one), and the cursor ends just past the `}` |
| DataSets.SplitExample | src/data_set.rs:353 | `a, b` splits into `a` and ` b` |
| DataSets.FirstTokensExample | src/data_set.rs:354 | the pieces `a` and ` b` hold the tokens `a` and `b` |
| DataSets.NominalExample | src/data_set.rs:344-359 | `{a, b}` declares `a` and `b`, with the cursor just past the brace |
| DataSets.EmptyNominalFails | src/data_set.rs:352-355 | `{}` fails with end of file, since its one empty piece has no token |
| DataSets.ScanAttribute | src/data_set.rs:321-342 | the cursor never moves back over a declaration |
| DataSets.DataFor | src/data_set.rs:333-339 | each of `numeric`, `string`, `date`, `real` gives its own empty column, and any other word is kept as a type that is not implemented |
| DataSets.NominalAttributeExample | src/data_set.rs:321-342 | `name {a, b}` declares the nominal attribute `name` with values `a` and `b` |
| DataSets.LabelName | src/data_set.rs:322 | the label of `name {a, b}` is `name` |
| DataSets.NominalAfterName | src/data_set.rs:329-330 | the list after that label holds `a` and `b` |
| DataSets.KeywordAttributeExample | src/data_set.rs:321-342 | `age numeric` declares the numeric attribute `age`, and the cursor overshoots the line |
| DataSets.LabelAge | src/data_set.rs:322 | the label of `age numeric` is `age` |
| DataSets.KeywordNumeric | src/data_set.rs:332-334 | the type keyword of `age numeric` is `numeric`, and the cursor lands past the end |
| DataSets.IdMap | src/data_set.rs:179-189 | the id map has exactly the declared values as keys, each with an id below the number of values |
| DataSets.IdMapLast | src/data_set.rs:181-186 | a value's id is the position of its last occurrence, truncated to 8 bits |
| DataSets.IdRoundTrip | src/data_set.rs:191-204 | with at most 256 declared values, looking an id up in the field list gives the value back |
| DataSets.IdWraps | src/data_set.rs:185 | with more than 256 distinct values the ids wrap, so value 256 reads back as value 0 |
| DataSets.Nominal.constructor | src/data_set.rs:179-189 | the table holds the given values, the id map built from them and an empty column |
| DataSets.Nominal.Push | src/data_set.rs:191-196 | appends the id of a declared value and fails exactly on an undeclared one; with at most 256 values the new last entry reads back as the pushed value |
| DataSets.Nominal.Size | src/data_set.rs:198-200 | the number of distinct declared values |
| DataSets.Nominal.Get | src/data_set.rs:202-204 | fails exactly past the column's end; otherwise the declared value `fields[data[index]]` named by the stored id; with at most 256 values the id map sends that value back to the stored id |
| DataSets.GetDataLen | src/data_set.rs:95-105 | zero without attributes; otherwise the first attribute's column length, failing on string, date and unknown columns |
| TestStatistics.TestStats.constructor | src/test_statistics.rs:1-8 | every counter zero and no outcome recorded |
| TestStatistics.TestStats.Size | src/test_statistics.rs:39-40 | the size bounds every cell |
| TestStatistics.TestStats.AddTruePositive | src/test_statistics.rs:12-14 | raises exactly the true positives by one and keeps the cells summing to the recorded outcomes |
| TestStatistics.TestStats.AddFalsePositive | src/test_statistics.rs:17-19 | raises exactly the false positives by one and keeps the cells summing to the recorded outcomes |
| TestStatistics.TestStats.AddTrueNegative | src/test_statistics.rs:22-24 | raises exactly the true negatives by one and keeps the cells summing to the recorded outcomes |
| TestStatistics.TestStats.AddFalseNegative | src/test_statistics.rs:27-29 | raises exactly the false negatives by one and keeps the cells summing to the recorded outcomes |
| TestStatistics.TestStats.DisplayMatrix | src/test_statistics.rs:32-35 | the printed cells in order, summing to the recorded outcomes, with no counter changed |
| TestStatistics.TestStats.PrintStats | src/test_statistics.rs:38-52 | the matrix size is the number of recorded outcomes; accuracy is `tp + tn` over it, precision `tp` over `tp + fp`, recall `tp` over `tp + fn`, each numerator no greater than its denominator |
| TestStatistics.RightVsWrong.constructor | src/test_statistics.rs:55-60 | both counters zero and nothing recorded |
| TestStatistics.RightVsWrong.WasRight | src/test_statistics.rs:64-66 | raises exactly the right count by one, keeping right plus wrong equal to the recorded predictions |
| TestStatistics.RightVsWrong.WasWrong | src/test_statistics.rs:69-71 | raises exactly the wrong count by one, keeping right plus wrong equal to the recorded predictions |
| TestStatistics.RightVsWrong.Display | src/test_statistics.rs:74-79 | the accuracy is the right predictions out of all recorded ones |

## Left out

- Id3Data.Convert: models a build with overflow checks on, where `buckets - 1` with no buckets panics (`None`). A release build, the profile src/bin/run_linear.rs:4-5 asks for, does not check: there `buckets - 1` wraps and `convert` answers `u32::MAX` (4294967295) for every value that is not negative.
- `Counter::entropy`, `normalize` and the float arithmetic of `NumericType::convert`: `f32`/`log2` arithmetic. They are the score parameter and the scaled-integer parameter.
- `ProcessedData::import`, `import_test_data`, `process_nominal`, `process_numeric`, `process_numeric_from_layout`, `DataType::new_nominal`, `NominalType::convert`:
  - they build codes with floats (`sqrt`, min/max);
  - they read the data set;
  - `NominalType::convert` is never called.
- `ProcessedData::get_attribute`: modelled as direct access to a column. `ProcessedData::attribute_len` is the column count and has no contract of its own.
- `ID3::test`, `ID3::display`, `Node::display`, `InternalNode::display`, `LeafNode::display`, `DataSet::display`: printing only.
- `DataSet::import` and file reading, `Attribute::parse_value` (float parsing from text), `Parser::parse_date` (`todo!`), `DataEntry` and its byte-hashing `Hash`, and the accessors `DataSet::get_value`/`get_len`/`get_attributes`: I/O or outside the modelled core.
- Id3.ID3.Query: has no contract of its own. It is `QueryNode` on the root; `QueryNode`'s contract and `Id3.TrainedRootAnswers` state what it answers.
- Id3.ID3.Train: requires columns of equal length. A data row with fewer values than attributes leaves the later columns shorter, and the import does not fail. That input is not modelled: on it the source either panics at an `unwrap` (src/id_3.rs:390, 412, 420, 430) or scores a truncated zip (src/id_3.rs:372-374).
- Id3.ID3.Train: the root vote runs over `Result` values in the source. The model checks the target column first and then votes over its codes, which answers the same code whenever the column exists.
- Id3Tree.TrainInternal: states the first-minimum tie-break for the node it builds. For the nodes below it, `Trained` records only that the split has minimal score, because the order a descendant sees depends on the permutations made by earlier siblings.
- Id3Tree.ChooseSplit: equal count tables are taken to score equally. The code sums `f32` terms in the iteration order of freshly seeded hash maps, so two equal tables (two identical columns, say) may score differently in the last bits and `min_by` may then pick the later one.
- Id3Tree.ChooseSplit: a NaN score, on which `partial_cmp(..).expect(..)` panics, is not modelled, since the score is a real.
- Id3Counter.Counter.Insert: the `u32` counts and the `usize` length are unbounded; overflow is not modelled.
- TestStatistics.TestStats.AddTruePositive: the `u64` counter is unbounded; overflow is not modelled.
- TestStatistics.TestStats.AddFalsePositive: the `u64` counter is unbounded; overflow is not modelled.
- TestStatistics.TestStats.AddTrueNegative: the `u64` counter is unbounded; overflow is not modelled.
- TestStatistics.TestStats.AddFalseNegative: the `u64` counter is unbounded; overflow is not modelled.
- TestStatistics.RightVsWrong.WasRight: the `u64` counter is unbounded; overflow is not modelled.
- TestStatistics.RightVsWrong.WasWrong: the `u64` counter is unbounded; overflow is not modelled.
- TestStatistics.TestStats.PrintStats: answers the integer numerators and denominators instead of printing `f32` ratios. Division by zero (NaN output) is not modelled.
- TestStatistics.RightVsWrong.Display: answers the numerator and denominator instead of printing the `f64` ratio.
- TestStatistics.TestStats.DisplayMatrix: answers the two printed lines as numbers instead of printing them.
- DataSets.ScanString: positions are characters, not UTF-8 byte offsets. The panics of `get(start..=start)` on a multi-byte first character, and of slicing inside a character, are not modelled.
- DataSets.Parser.ParseAttribute: on failure the cursor's final position is not stated. The source panics there.
- Lib.MajorityVote: the hash map's iteration order is an arbitrary choice, so only "some most frequent element" is stated, as the source promises.

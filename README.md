# FCBF feature selection and the spectra column split

This project models two pieces of a spectroscopy pipeline.

The first is the Fast Correlation-Based Filter (FCBF) of `FeatureSelector`.

- It takes a p x p matrix of absolute feature-feature correlations, a p x k matrix of absolute feature-target correlations and two thresholds, `levelXX` and `levelXy`.
- It reduces each feature's row of target correlations to one relevance score: the product of the row.
- It then repeats one round while the largest working score is strictly above `levelXy`:
  - pick the first index holding that maximum;
  - mark it selected and zero its score;
  - zero the score of every unselected, positive feature whose correlation with the pick is strictly above `levelXX`.
- `transform` keeps the selected columns of the feature table, in their order.

The second is the column partition in `DataProcessor.load_data`. It cuts the raw table's columns into Raman spectra `[0, r)`, absorption spectra `[r, r + a)` and ion concentrations `[r + a, n)`, with Python's clamping slice semantics.

Module `FeatureSelection` (`feature_selection.dfy`) models the selector:

- The loop is specified by a functional trace. `Round` is one iteration, `Picks` is the sequence of picked indices and `Final` is the exit state. `FcbfMask` is the mask `fcbf` stores.
- `Select` runs the same loop imperatively over an `array<real>` working vector and an `array<bool>` mask, as the source does. Its postcondition ties the result to `FcbfMask`.
- `FeatureSelector` is a class with the selector's fields.
  - `Fcbf` sets `mask`.
  - `Transform` overwrites `dfX` with the filtered columns and returns them.

Module `ColumnSplit` (`column_split.dfy`) models the partition once. The code is identical in `spectroscopy/dataset.py` and `code/data/preprocess.py`, so one function serves both.

Module `FcbfExamples` (`fcbf_examples.dfy`) works through concrete runs of the loop.

Correlations are `real`s. The correlation matrices are inputs: the model does not compute them. The constructor receives them where the source calls `calculate_correlations`.

Raising `levelXX` can lower the number of selected features. `FcbfExamples.RedundancyLevelNotMonotone` proves a four-feature case: 3 features are selected at `levelXX` = 0.4 and 2 at `levelXX` = 0.6.

## Model

| member | source | states |
|---|---|---|
| FeatureSelection.Product | spectroscopy/features.py:45 | the product of a row of correlations in [0, 1] lies in [0, 1] |
| FeatureSelection.ProductZeroFactor | spectroscopy/features.py:45 | a zero correlation with any one target makes the product 0 |
| FeatureSelection.Relevance | spectroscopy/features.py:43-45 | one relevance score per feature, equal to the product of its target correlations, in [0, 1] when the correlations are |
| FeatureSelection.FirstMax | spectroscopy/features.py:48 | the result is an index holding the maximum, and no earlier index holds it (`np.argmax` takes the first occurrence) |
| FeatureSelection.FirstMaxUnique | spectroscopy/features.py:48 | the first-maximum index is unique: any index with that property is the one `FirstMax` returns |
| FeatureSelection.ArgMax | spectroscopy/features.py:48 | a linear scan of the working array returns the first index of its maximum |
| FeatureSelection.Continue | spectroscopy/features.py:47 | the guard `np.max(corr_Xy) > level_Xy`: the vector is non-empty and its first maximum is above `levelXy` (an empty vector gives NaN, which compares false) |
| FeatureSelection.ContinueIff | spectroscopy/features.py:47 | the loop guard `max(work) > levelXy` holds exactly when some entry is above `levelXy`; it is false on an empty vector |
| FeatureSelection.Prune | spectroscopy/features.py:51-54 | the redundancy step only sets entries to 0 |
| FeatureSelection.Round | spectroscopy/features.py:48-54 | one round: the pick becomes selected and 0; every other entry is zeroed exactly when it is unselected, positive and correlated with the pick above `levelXX`, and is otherwise unchanged; no other mask entry changes; selected entries stay 0; when the pick is positive, the positive count strictly drops |
| FeatureSelection.Picks | spectroscopy/features.py:47-50 | the indices `i_bestXY` picked by the remaining rounds, in order: each is a feature, and there are at most as many as there are positive working entries |
| FeatureSelection.Final | spectroscopy/features.py:47-54 | at loop exit every working entry is at most `levelXy` and the shapes are kept |
| FeatureSelection.RoundProgress | spectroscopy/features.py:47-54 | a round taken while the guard holds keeps the exit state and strictly lowers the number of positive entries (termination) |
| FeatureSelection.FinalStop | spectroscopy/features.py:47 | when the guard is false the loop body does not run |
| FeatureSelection.Initial | spectroscopy/features.py:43-46 | the loop starts with the relevance scores as its working vector and an all-false mask of length p |
| FeatureSelection.FcbfMask | spectroscopy/features.py:46 | the mask has one entry per row of `corr_XX` |
| FeatureSelection.SelectionOrder | spectroscopy/features.py:46-50 | the order in which `fcbf` selects features: each pick is a feature and there are at most p rounds |
| FeatureSelection.RetireRedundant | spectroscopy/features.py:51-54 | the in-place `for` loop leaves the working array equal to `Prune` of its old contents |
| FeatureSelection.ApplyRound | spectroscopy/features.py:49-54 | setting the mask, zeroing the pick and retiring redundant features leads from a state to its `Round` |
| FeatureSelection.Guard | spectroscopy/features.py:47-48 | the guard value equals `Continue`, and when it holds the index returned is the first maximum |
| FeatureSelection.StartArrays | spectroscopy/features.py:43-46 | the working array holds a fresh copy of the relevance scores and the mask array is fresh and all false |
| FeatureSelection.Step | spectroscopy/features.py:47-54 | one loop iteration keeps the exit state, strictly lowers the number of positive entries and re-evaluates the guard and the pick |
| FeatureSelection.Select | spectroscopy/features.py:43-54 | the greedy `while` loop over the working and mask arrays produces exactly `FcbfMask` |
| FeatureSelection.KeptIndices | spectroscopy/features.py:70 | the kept positions are the true mask positions, strictly increasing, one per true entry |
| FeatureSelection.Keep | spectroscopy/features.py:70 | the filter returns the columns at the kept positions, in order |
| FeatureSelection.KeepExactlySelected | spectroscopy/features.py:69-71 | `transform` keeps exactly the columns whose mask entry is true, in their original order, and as many as there are true entries |
| FeatureSelection.FeatureSelector.Valid | spectroscopy/features.py:22-30 | the shape invariant: `corr_XX` square, `corr_Xy` with one row per feature, a stored mask with one entry per feature (features.py:46) |
| FeatureSelection.FeatureSelector.constructor | spectroscopy/features.py:10-12 | the selector holds the feature table and the correlation matrices, with no mask yet, and starts in the shapes `df_X.corr()` guarantees |
| FeatureSelection.FeatureSelector.Fcbf | spectroscopy/features.py:38-59 | `fcbf` stores the FCBF mask, keeps the shape invariant and changes no other field; the correlation inputs are only read |
| FeatureSelection.FeatureSelector.Transform | spectroscopy/features.py:69-71 | `transform` overwrites the feature table with its selected columns, keeps the shape invariant and returns the new table |
| FeatureSelection.FinalMaskIsPicks | spectroscopy/features.py:49 | at exit a feature is marked exactly when it was marked before or was picked in some round |
| FeatureSelection.PickedWasAbove | spectroscopy/features.py:47-50 | a picked feature's working score was above `levelXy` before the rounds ran |
| FeatureSelection.PicksDistinct | spectroscopy/features.py:49-50 | no feature is picked twice |
| FeatureSelection.PicksNonRedundant | spectroscopy/features.py:51-54 | a feature picked in an earlier round correlates at most `levelXX` with every feature picked later |
| FeatureSelection.SelectedCountIsRounds | spectroscopy/features.py:49 | the number of marked features grows by exactly the number of rounds |
| FeatureSelection.PicksPrefix | spectroscopy/features.py:47-54 | the pick sequence for a higher `levelXy` is a prefix of the one for a lower `levelXy` |
| FeatureSelection.NegativeLevelNeverExits | spectroscopy/features.py:47-54 | with a negative `levelXy` and a non-empty input the guard holds before and after every round, so the loop does not end |
| FeatureSelection.SelectedIffPicked | spectroscopy/features.py:49-59 | a feature is selected in the mask exactly when it is one of the picks |
| FeatureSelection.IrrelevantNeverSelected | spectroscopy/features.py:45-50 | a feature whose product relevance is at most `levelXy` is never selected |
| FeatureSelection.UncorrelatedTargetNeverSelected | spectroscopy/features.py:45-50 | a feature with zero correlation to any one target is never selected |
| FeatureSelection.SelectedAreRelevant | spectroscopy/features.py:47-50 | every selected feature has relevance strictly above `levelXy` |
| FeatureSelection.SelectedNonRedundant | spectroscopy/features.py:51-54 | with a symmetric `corr_XX`, any two distinct selected features correlate at most `levelXX` |
| FeatureSelection.CountTrue | spectroscopy/features.py:60 | the `self.mask['Targets'].sum()` count of selected entries, at most the mask length |
| FeatureSelection.CountTrueAppend | spectroscopy/features.py:60 | the number of selected entries of a concatenation is the sum over its parts |
| FeatureSelection.SelectedCount | spectroscopy/features.py:60 | the number of selected features equals the number of rounds |
| FeatureSelection.RaisingRelevanceLevelShrinks | spectroscopy/features.py:47-54 | raising `levelXy` gives a prefix of the same picks, a subset of the selected features and no larger a count |
| FcbfExamples.OnlyRelevantFeatureSelected | spectroscopy/features.py:38-59 | identity correlations and relevance [0.9, 0.1, 0.05] at levels 0.8/0.5 select only feature 0 |
| FcbfExamples.RedundantFeatureRetired | spectroscopy/features.py:38-59 | two features correlated 0.95 with relevance [0.9, 0.85] at levels 0.8/0.5: the second is retired as redundant |
| FcbfExamples.ZeroTargetGivesZeroRelevance | spectroscopy/features.py:45 | a zero correlation with one of two targets gives relevance 0 |
| FcbfExamples.LowRedundancyLevelSelectsThree | spectroscopy/features.py:47-54 | on the four-feature case, `levelXX` 0.4 selects A, C and D |
| FcbfExamples.HighRedundancyLevelSelectsTwo | spectroscopy/features.py:47-54 | on the four-feature case, `levelXX` 0.6 selects A and B |
| FcbfExamples.RedundancyLevelNotMonotone | spectroscopy/features.py:47-54 | raising `levelXX` from 0.4 to 0.6 lowers the selection count from 3 to 2 |
| FcbfExamples.ReselectAfterTransform | spectroscopy/features.py:38-71 | `fcbf`, then `transform`, then `fcbf` with new thresholds: the kept columns follow the first mask and the second mask is computed from the unchanged correlations |
| ColumnSplit.Slice | spectroscopy/dataset.py:45-53 | a Python slice with non-negative bounds clamps both bounds to the length; the result has the clamped length and the elements at the offsets |
| ColumnSplit.Split | spectroscopy/dataset.py:45-53 | the part lengths are `min(r,n)`, `min(r+a,n) - min(r,n)` and `n - min(r+a,n)`, and the parts concatenate back to the original columns |
| ColumnSplit.RamanIsPrefix | spectroscopy/dataset.py:45 | the Raman part is the first `r` columns |
| ColumnSplit.AbsorptionIsMiddle | spectroscopy/dataset.py:49 | the absorption part is the columns at positions `[r, r + a)` that exist |
| ColumnSplit.IonsIsSuffix | spectroscopy/dataset.py:53 | the ions part is every column from position `r + a` on |
| ColumnSplit.PartitionExact | code/data/preprocess.py:39-47 | every column lands in exactly one part, at its offset from that part's start, so the parts are disjoint |

## Left out

- Correlation computation (`calculate_correlations` and `save_correlations` at `spectroscopy/features.py:15-36`, `get_XX_Xy_correlations` and `compute_correlations` in `code/data/features.py`): Pearson correlation is floating-point work inside pandas, and saving is I/O. The matrices are given inputs.
- Floating point: correlations are exact `real`s. Rounding in the product and in comparisons is not modelled.
- NaN handling: pandas skips NaN in `prod`, and zero-variance columns produce NaN. The model takes NaN-free inputs.
- All I/O, configuration and logging: `read_csv`, the feather writes, `save_mask`, the YAML config modules and the log messages.
- `FeatureSelector.fit` (`spectroscopy/features.py:65-67`) is not modelled, because it calls `fcbf` without its two required arguments and cannot run as written.
- Model training (`spectroscopy/modeling/train.py`) and orchestration (`main.py`) are calls into libraries and modules outside this model.
- FeatureSelection.FeatureSelector.Transform requires `fcbf` to have run; the source raises AttributeError otherwise, because `__init__` never sets `self.mask`. It also requires the feature table to still have one column per row of `corr_XX`, so a second `transform` is not modelled: pandas aligns the mask to the remaining columns by label, and the model filters by position.
- FeatureSelection.FeatureSelector.constructor requires `corr_XX` to be square with one row per feature column and `corr_Xy` to have as many rows. The source gets these shapes from `df_X.corr()` and `corrwith` (`spectroscopy/features.py:22-30`), which the model does not compute.
- FeatureSelection.FeatureSelector.Fcbf requires `levelXy >= 0`. With a negative level and at least one feature, the source loop never ends; `NegativeLevelNeverExits` shows why. With a negative level and no features, the source returns an empty mask, and this case is also excluded.
- FeatureSelection.FeatureSelector.Fcbf requires the shape invariant `Valid`: `corr_XX` is square, `corr_Xy` has as many rows, and a stored mask has one entry per row of `corr_XX`. The constructor establishes it and `fcbf` and `transform` keep it, so `fcbf` can run again after `transform`. The source would fail with an index error or misalign on a shape mismatch.
- FeatureSelection.FeatureSelector.Transform filters columns by position, not by pandas label. The selector's mask is indexed by `corr_XX`'s labels, which are `df_X`'s columns in order, so the two coincide.
- FeatureSelection.FcbfMask returns a plain `seq<bool>`. The one-column `Targets` DataFrame wrapper and its index labels are not modelled.
- FeatureSelection.SelectedNonRedundant requires a symmetric `corr_XX`, as a correlation matrix is. Without symmetry, `PicksNonRedundant` states the order-based guarantee with the earlier pick's row.
- ColumnSplit.Slice takes natural-number bounds. Negative configuration values, which Python reads as counted from the end, are not modelled.
- Monotonicity of the selection in `levelXX` is not claimed, because it does not hold (see `FcbfExamples.RedundancyLevelNotMonotone`).

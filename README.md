# yoloX-tester post-processing in Dafny

This project models the discrete core of the yoloX-tester backend and proves properties about it. The backend runs a YOLOX object detector through ONNX and then turns the raw network output into labelled crops. The model covers:

- **Grid decoding** (`YoloX.demo_postprocess`). Every output row is matched to a grid cell of one of the feature maps with strides 8, 16 and 32 (and 64 with the P6 head). Its centre becomes `(raw + cell) * stride` and its size `exp(raw) * stride`.
- **Box transform** (`YoloX.predict`, lines 65-72). Each row's score is objectness times class score. Its box goes from centre/size to corners and is divided by the resize ratio.
- **Greedy non-maximum suppression** (`YoloX.nms`). Candidates are sorted by score, descending. The head is kept, and every remaining box whose inclusive-area IoU with it exceeds the threshold is dropped.
- **The class-aware and class-agnostic multiclass wrappers** (`multiclass_nms*`). Both return `None` when nothing survives. `multiclass_nms` is the dispatch between them.
- **`extract_crops_info`**. It keeps detections with `score >= conf`, truncates each box to integers and looks up the class name. A bad class index raises `IndexError`.
- **The `image_summary` histogram and the `image_data` record** built by `CoreFunctions.predict_yolox`.
- **`to_camel`**. It turns the snake_case field names of the stored record into document keys.

### Form of the model

The model follows the form of the source:

- Code whose loops change state is written as methods with loops and invariants. These are `nms`, the class loop, the grid construction, the in-place decoding of the output array, the box transform, the crop loop, the histogram loop and the `to_camel` loop.
- Each such method is proved equal to a specification function. The properties the source promises are then proved about that function as lemmas.
- The mask/argmax selection of the class-agnostic variant is pure, so it is a function.

### Modules

| module | file |
|---|---|
| `Wrappers` | `wrappers.dfy` |
| `Suppression` | `nms.dfy` |
| `Multiclass` | `multiclass.dfy` |
| `Decode` | `decode.dfy` |
| `Crops` | `crops.dfy` |
| `Predict` | `predict.dfy` |
| `Summary` | `summary.dfy` |
| `Camel` | `camel.dfy` |

### Representation choices

- Coordinates and scores are `real`.
- `np.exp` is a parameter `exp: real -> real`.
- The class-name table is a parameter `classNames`.
- Python's `int()` on a float becomes `Trunc`, which rounds toward zero.
- `class_names[i]` follows Python's indexing, negative indices included (`PyIndex`). An index out of range gives `Failure("list index out of range")`.
- The IoU test `ovr <= nms_thr` is modelled as total. A zero denominator makes the comparison false, as a NaN or infinite `ovr` does in numpy. So `Survives` holds exactly when the union is non-zero and `inter / union <= thr`.
- The model's `ArgsortDesc` puts tied scores in descending index order. This is a choice of the model: numpy's default sort is not stable, so the source fixes no tie order. The `Greedy*` lemmas hold for any score-sorted order (`GreedyNms`). The `Nms*` lemmas are stated for `ArgsortDesc`, and they follow from the `Greedy*` ones.

### Two paths of the source that cannot be taken

- The class-agnostic variant returns `dets` at line 224, but `dets` is bound only when `keep` is non-empty. `NmsSpec` proves that `keep` is empty only when no score passed the mask, and then the function has already returned `None` (line 215). So the unbound-variable path is unreachable. The model marks that branch with `assert false`.
- The `else` branch of `predict` (lines 81-83) writes a variable that is never bound, so it would raise `NameError`. The model takes `None` from suppression to mean "no crops", which is what that branch evidently intends to return.

## Model

| member | source | states |
|---|---|---|
| Suppression.IoUBounds | backend/app/ml/yolox_model.py:92-107 | for well-formed boxes (x1 <= x2, y1 <= y2) the inclusive union is at least 1 and the IoU lies in [0, 1] |
| Suppression.InterLeArea | backend/app/ml/yolox_model.py:99-106 | the clipped intersection `w * h` is non-negative and at most the inclusive area of either box |
| Suppression.AreaAtLeastOne | backend/app/ml/yolox_model.py:92 | a well-formed box has inclusive area `(x2-x1+1)*(y2-y1+1)` of at least 1 |
| Suppression.ArgsortPermutes | backend/app/ml/yolox_model.py:93 | `ArgsortDesc`, the descending argsort, lists every index below `len(scores)` exactly once, in non-increasing score order |
| Suppression.SortSortedDistinct | backend/app/ml/yolox_model.py:93 | sorting indices by score gives a score-descending list, and a list without repeats stays without repeats |
| Suppression.Survivors | backend/app/ml/yolox_model.py:107-110 | the filter step keeps exactly those remaining candidates that satisfy `Survives` against the head, without growing the list. `Survives` models the test `ovr <= nms_thr` of lines 107-109 |
| Suppression.GreedyNms | backend/app/ml/yolox_model.py:95-112 | `keep` is no longer than the order and holds only candidates from it |
| Suppression.GreedyHead | backend/app/ml/yolox_model.py:96-98 | on a non-empty order the first kept index is the head of the order |
| Suppression.GreedyDistinct | backend/app/ml/yolox_model.py:96-110 | an order without repeats yields a `keep` without repeats |
| Suppression.GreedySorted | backend/app/ml/yolox_model.py:96-110 | a score-descending order yields a score-descending `keep` of in-range indices |
| Suppression.GreedyPairwise | backend/app/ml/yolox_model.py:96-110 | every later kept index survived the filter against every earlier kept index |
| Suppression.GreedyDropped | backend/app/ml/yolox_model.py:99-110 | every dropped candidate failed the test against some kept index of greater or equal score |
| Suppression.GreedyKeepsAll | backend/app/ml/yolox_model.py:99-110 | when every pair survives, nothing is dropped and `keep` is the whole order |
| Suppression.NmsSpec | backend/app/ml/yolox_model.py:85-112 | `nms` returns in-range indices, and the result is empty exactly when there are no scores |
| Suppression.NmsDistinctSorted | backend/app/ml/yolox_model.py:93-112 | the kept indices are distinct and listed in non-increasing score order |
| Suppression.NmsLeadsWithMax | backend/app/ml/yolox_model.py:93-98 | on non-empty input the first kept index has the maximum score |
| Suppression.NmsPairwise | backend/app/ml/yolox_model.py:99-110 | any two kept boxes pass the IoU test: their IoU is at most `nms_thr` |
| Suppression.NmsDropped | backend/app/ml/yolox_model.py:99-110 | every index not kept fails `Survives` against some kept box of greater or equal score: their union is zero or their IoU exceeds `nms_thr`. For well-formed boxes the union is at least 1 (`IoUBounds`), so the IoU exceeds `nms_thr` |
| Suppression.NmsKeepsAll | backend/app/ml/yolox_model.py:99-110 | for well-formed boxes and `nms_thr >= 1` nothing is dropped: the result is every index in score order |
| Suppression.Nms | backend/app/ml/yolox_model.py:85-112 | the `while order.size > 0` loop computes `NmsSpec`: distinct, in range, score-descending, led by a maximum, pairwise below the threshold, empty iff the input is |
| Multiclass.PassingMembers | backend/app/ml/yolox_model.py:190-191 | the mask `cls_scores > score_thr` selects exactly the indices whose score exceeds the threshold |
| Multiclass.PassingAscending | backend/app/ml/yolox_model.py:195-196 | boolean masking keeps the selected rows in their input order |
| Multiclass.PassingEmpty | backend/app/ml/yolox_model.py:192 | `valid_score_mask.sum() == 0` exactly when no score exceeds the threshold |
| Multiclass.ChannelNms | backend/app/ml/yolox_model.py:190-203 | one class channel's rows are the masked boxes picked by `nms`, with their scores and the class index |
| Multiclass.ChannelFrom | backend/app/ml/yolox_model.py:195-201 | every row of channel `c` carries class `c`, the box of some input row and that row's score in channel `c`, which exceeds `score_thr` |
| Multiclass.ChannelEmpty | backend/app/ml/yolox_model.py:191-198 | a channel contributes no rows exactly when none of its scores exceeds the threshold |
| Multiclass.ChannelsEmpty | backend/app/ml/yolox_model.py:189-198 | the previous fact holds for every class channel at once |
| Multiclass.ChannelRowsSuppressed | backend/app/ml/yolox_model.py:197-201 | within a channel the rows are score-descending and pairwise pass the IoU test |
| Multiclass.GroupsFlatten | backend/app/ml/yolox_model.py:203-206 | concatenating the appended `final_dets` blocks gives all channel rows in class order, and there is no block exactly when there is no row |
| Multiclass.ConcatGrouped | backend/app/ml/yolox_model.py:203-206 | rows tagged with their channel and concatenated by ascending channel are grouped by ascending class below the class count |
| Multiclass.ClassLoop | backend/app/ml/yolox_model.py:187-203 | the `for cls_ind` loop appends exactly the non-empty channel blocks, in class order |
| Multiclass.AwareResult | backend/app/ml/yolox_model.py:204-206 | after the loop, `None` for no blocks and the concatenation otherwise is the class-aware result |
| Multiclass.MulticlassNmsClassAware | backend/app/ml/yolox_model.py:185-206 | the class-aware variant computes its specification; it is `None` iff no score exceeds `score_thr`; rows are grouped by ascending class |
| Multiclass.AwareNoneIff | backend/app/ml/yolox_model.py:189-205 | the class-aware result is `None` exactly when no box has any class score above `score_thr` |
| Multiclass.AwareGrouped | backend/app/ml/yolox_model.py:189-206 | every class-aware row has a class below the class count, comes from an input box with that class score above `score_thr`, and rows ascend by class |
| Multiclass.ArgMax | backend/app/ml/yolox_model.py:210 | `argmax` returns an in-range index of a maximum score, the first one when several tie |
| Multiclass.AgnosticRows | backend/app/ml/yolox_model.py:210-223 | every row of `MulticlassNmsClassAgnostic` (lines 208-224) is some input box, tagged with its argmax class, scored with that box's maximum score, which exceeds `score_thr` |
| Multiclass.AgnosticNoneIff | backend/app/ml/yolox_model.py:210-215 | `MulticlassNmsClassAgnostic` returns `None` exactly when no box has any class score above `score_thr` |
| Multiclass.AgnosticSuppressed | backend/app/ml/yolox_model.py:219-223 | class-agnostic rows are score-descending and pairwise pass the IoU test |
| Multiclass.AgnosticCount | backend/app/ml/yolox_model.py:216-223 | the row count, `len(keep)`, is at most the number of boxes that pass the mask, and equals it for well-formed boxes with `nms_thr >= 1` |
| Multiclass.MulticlassNms | backend/app/ml/yolox_model.py:177-183 | dispatch to the agnostic variant iff `class_agnostic`, else to the aware one, with the arguments unchanged; `None` iff no score passes |
| Decode.Strides | backend/app/ml/yolox_model.py:158 | the strides are 8, 16, 32 (and 64 with P6), positive and strictly ascending |
| Decode.Levels | backend/app/ml/yolox_model.py:160-163 | level `i` has stride `s = strides[i]`, and its row count `hsize` is the floor division `H // s`, characterised as `hsize * s <= H < (hsize + 1) * s`. The same holds for `wsize` and `W` |
| Decode.BlockSize | backend/app/ml/yolox_model.py:164-165 | a feature map of `h` rows and `w` columns has `h * w` cells |
| Decode.CellsProduct | backend/app/ml/yolox_model.py:164-165 | the row offset used for indexing is `y * w` |
| Decode.BlockAt | backend/app/ml/yolox_model.py:164-165 | within a block, cell `y * wsize + x` is column `x`, row `y`, with the block's stride |
| Decode.GridCount | backend/app/ml/yolox_model.py:170-171 | the concatenated grid has the sum over levels of `hsize * wsize` cells |
| Decode.GridPrefix | backend/app/ml/yolox_model.py:170 | the grid of the first levels is a prefix of the whole grid |
| Decode.GridRegion | backend/app/ml/yolox_model.py:170 | each level's block sits in the grid right after the blocks of the finer levels |
| Decode.GridAt | backend/app/ml/yolox_model.py:163-171 | cell `(x, y)` of level `b` is at the offset of level `b` plus `y * wsize + x` and holds `(x, y)` with level `b`'s stride |
| Decode.DefaultLayout | backend/app/ml/yolox_model.py:158-171 | without P6 the grid is the stride-8 block, then the stride-16 block, then the stride-32 block |
| Decode.DefaultSize | backend/app/ml/yolox_model.py:160-171 | without P6 the grid has `(H//8)(W//8) + (H//16)(W//16) + (H//32)(W//32)` cells |
| Decode.DefaultCount | backend/app/ml/yolox_model.py:57-63 | for the 640 by 640 input of `predict` the grid has 8400 cells |
| Decode.BuildGrids | backend/app/ml/yolox_model.py:156-171 | the loop over `zip(hsizes, wsizes, strides)` builds exactly the concatenated grid |
| Decode.DemoPostprocess | backend/app/ml/yolox_model.py:155-175 | the in-place update of the output array leaves every row decoded against its grid cell |
| Decode.DecodeAt | backend/app/ml/yolox_model.py:172-173 | the row of cell `(x, y)` of level `b` gets centre `(raw + (x, y)) * stride` and size `exp(raw) * stride`, other fields unchanged |
| Decode.DecodePositive | backend/app/ml/yolox_model.py:173 | with a positive `exp` every decoded width and height is positive |
| Decode.CornersShape | backend/app/ml/yolox_model.py:67-72 | the corner box has width `w/ratio` and height `h/ratio`, and its midpoints are `cx/ratio` and `cy/ratio` |
| Decode.CornersRoundTrip | backend/app/ml/yolox_model.py:67-72 | centre and size can be recovered from the corners and the ratio: the transform loses nothing |
| Decode.CornersWellFormed | backend/app/ml/yolox_model.py:67-72 | for a positive ratio and non-negative size the corner box is well formed, as `nms` expects |
| Decode.ScaleInPlace | backend/app/ml/yolox_model.py:72 | `boxes_xyxy /= ratio` divides every coordinate of every box by the ratio |
| Decode.BoxTransform | backend/app/ml/yolox_model.py:65-72 | one corner box per row, equal to the centre/size conversion divided by the ratio, and scores equal to objectness times each class score |
| Crops.Trunc | backend/app/ml/yolox_model.py:119-126 | `int()` on a float rounds toward zero: the result lies within one of the value, on the side of zero |
| Crops.TruncWhole | backend/app/ml/yolox_model.py:119 | `int()` of a whole float class index is that index |
| Crops.PyIndexRange | backend/app/ml/yolox_model.py:128 | `class_names[i]` succeeds exactly for `-len <= i < len`, and a non-negative index gives that element |
| Crops.KeptMembers | backend/app/ml/yolox_model.py:116-122 | the loop keeps exactly the indices with `score >= conf`, so `score == conf` is kept |
| Crops.KeptAscending | backend/app/ml/yolox_model.py:116-122 | kept indices stay in input order |
| Crops.KeptNone | backend/app/ml/yolox_model.py:121-122 | when every score is below `conf` nothing is kept |
| Crops.KeptLength | backend/app/ml/yolox_model.py:116-122 | no more entries are kept than there are boxes |
| Crops.CropRowsAt | backend/app/ml/yolox_model.py:123-130 | the `k`-th crop is built from the `k`-th kept detection |
| Crops.ExtractCropsInfo | backend/app/ml/yolox_model.py:114-132 | the crop loop computes its specification: the kept crops in order, or `IndexError` when a kept entry names an unknown class |
| Crops.CropsFailure | backend/app/ml/yolox_model.py:119-128 | extraction raises exactly when some kept entry's truncated class index is out of range of the names |
| Crops.CropsRows | backend/app/ml/yolox_model.py:114-132 | on success, one crop per kept entry in order, at most one per box, with truncated corners, the looked-up class and confidence `score * 100` |
| Crops.CropsSucceed | backend/app/ml/yolox_model.py:128 | with every class index in range extraction does not raise |
| Crops.CropsNone | backend/app/ml/yolox_model.py:121-122 | with every score below `conf` the result is the empty list |
| Predict.Postprocess | backend/app/ml/yolox_model.py:65-80 | box transform, class-aware suppression with 0.6 and 0.1, and crop extraction with 0.45 compute the crops of `predict` |
| Predict.PredictSucceeds | backend/app/ml/yolox_model.py:73-77 | with a name for every class `predict` never raises `IndexError` |
| Predict.PredictEmpty | backend/app/ml/yolox_model.py:66-83 | when no objectness times class score exceeds 0.1 there are no crops |
| Predict.PredictCrops | backend/app/ml/yolox_model.py:73-77 | every crop comes from a surviving detection of score at least 0.45, carries its truncated corners and names its class |
| Summary.HistogramSnoc | backend/app/core/core_functions.py:78-82 | one more crop increments its class's count, or adds its class with count 1 |
| Summary.ImageSummary | backend/app/core/core_functions.py:76-82 | the counting loop builds the histogram of the crops' classes |
| Summary.MultiplicityIsOccurrences | backend/app/core/core_functions.py:77-82 | the histogram entry of a class is the number of crops with that class |
| Summary.HistogramCounts | backend/app/core/core_functions.py:76-82 | the keys are exactly the classes that occur, and each count is the number of crops of that class, so at least 1 |
| Summary.HistogramEmpty | backend/app/core/core_functions.py:76-77 | the summary is empty exactly when there are no crops |
| Summary.TotalRemove | backend/app/core/core_functions.py:76-82 | the sum of counts splits into any key's count plus the rest |
| Summary.HistogramTotal | backend/app/core/core_functions.py:76-82 | the counts add up to `len(crops_info)` |
| Summary.NamesPermutation | backend/app/core/core_functions.py:77-78 | reordering the crops reorders their class names the same way |
| Summary.HistogramPermutation | backend/app/core/core_functions.py:77-82 | the summary does not depend on the order of the crops |
| Summary.PredictRecord | backend/app/core/core_functions.py:73-83 | the record holds the file name, the crops unmodified, the path `"../data-files/" + filename` and the histogram of the crops |
| Camel.Split | backend/app/util/camel_base_model.py:5 | `split("_")` always yields at least one part |
| Camel.SplitParts | backend/app/util/camel_base_model.py:5 | no part contains `'_'` |
| Camel.SplitJoin | backend/app/util/camel_base_model.py:5 | joining the parts with `'_'` gives back the string |
| Camel.JoinSplit | backend/app/util/camel_base_model.py:5 | splitting underscore-free parts joined with `'_'` gives back the parts |
| Camel.SplitCount | backend/app/util/camel_base_model.py:5 | there is one part more than there are underscores, and the parts hold every other character |
| Camel.LowerAllShape | backend/app/util/camel_base_model.py:8 | ASCII lower-casing keeps the length and the underscores |
| Camel.CapitalizeShape | backend/app/util/camel_base_model.py:8 | `capitalize` keeps the length and neither adds nor removes `'_'` |
| Camel.ToCamel | backend/app/util/camel_base_model.py:4-10 | the loop capitalises every part after the first and the join concatenates them |
| Camel.CamelNoUnderscore | backend/app/util/camel_base_model.py:5-10 | the result contains no `'_'` |
| Camel.CamelUnchanged | backend/app/util/camel_base_model.py:5-8 | a name without `'_'` is returned unchanged, because part 0 is never capitalised |
| Camel.CamelLength | backend/app/util/camel_base_model.py:5-10 | the result is as long as the input minus its underscores |
| Camel.CamelIdempotent | backend/app/util/camel_base_model.py:5-10 | `to_camel(to_camel(s)) == to_camel(s)` |
| Camel.CamelTwoWords | backend/app/util/camel_base_model.py:5-10 | `a_b` becomes `a` followed by `capitalize(b)` for underscore-free words |
| Camel.CamelThreeWords | backend/app/util/camel_base_model.py:5-10 | `a_b_d` becomes `a`, `capitalize(b)`, `capitalize(d)` for underscore-free words |
| Camel.CamelOriginalFileName | backend/app/core/data_models.py:10 | `original_file_name` becomes `originalFileName`, the key written at core_functions.py line 83 |
| Camel.CamelFilePath | backend/app/core/data_models.py:13 | `file_path` becomes `filePath`, the key read back at core_functions.py line 53 |
| Camel.CamelImageSummary | backend/app/core/data_models.py:14 | `image_summary` becomes `imageSummary`, the key read back at core_functions.py line 103 |

## Left out

- The ONNX session (`load_model`, `session.run`) is a foreign inference call. The decoded rows are an input of `Predict.Postprocess`, and the raw output is an input of `Decode.DemoPostprocess`.
- OpenCV is foreign image code and is not modelled. This covers `normalize_input`, `preprocess` (resize, padding, the ratio `r`), `annotate_image` and `cv2.imwrite`/`imencode`/`imdecode`. The resize ratio is a parameter.
- `np.exp` is a parameter `exp`. The only property assumed of it is positivity, and only where a lemma needs it.
- Crops.CropsRows: the confidence is `score * 100` without `round(…, 1)`, because float rounding to one decimal is not modelled.
- Floating point is modelled as exact real arithmetic. There is no float32 rounding, NaN or infinity. `int()` of a NaN or infinite coordinate would raise and is not modelled.
- Decode.Levels: `Positive(strides)` is required. The source only ever passes the positive strides of line 158.
- Several members require `ratio != 0.0`, to exclude a division by zero. In decode.dfy these are `Scaled`, `Corners`, `CornersShape`, `CornersRoundTrip`, `ScaleInPlace` and `BoxTransform`; `CornersWellFormed` requires `ratio > 0.0`. In predict.dfy they are `CornerBoxes`, `PredictSpec`, `Postprocess`, `PredictSucceeds`, `PredictEmpty` and `PredictCrops`. The source never produces a zero ratio.
- Decode.DemoPostprocess requires the output array to have exactly as many rows as the grid has cells. For any other row count numpy's broadcasting raises `ValueError`, and that error path is not modelled.
- Default arguments are not modelled. Every member takes `class_agnostic` (default `True`, line 177), `conf` (default `0.5`, line 114) and `p6` (default `False`, line 155) as explicit parameters. `predict` passes `class_agnostic=False` and `conf=0.45` explicitly, and it leaves `p6` at its default. The lemmas `DefaultLayout`, `DefaultSize` and `DefaultCount` cover that case, `Strides(false)`.
- Crops.ExtractCropsInfo requires the score and class columns to be at least as long as the box column. `predict` passes three columns of the same `dets` array, so this always holds.
- Multiclass.MulticlassNms requires at least one class on the agnostic path. `argmax` over an empty axis raises in numpy and is not modelled.
- The `else` branch of `predict` (lines 81-83) is not modelled: it refers to an unbound `annotated_image`. `None` from suppression is treated as an empty crop list.
- The batch dimension of the output array (`[0]` at line 63) is not modelled: the model works on one image.
- The tie order of `argsort` is fixed by the model's choice to descending index, because numpy's default sort is not stable. The `Greedy*` lemmas hold for any score-sorted order, and the `Nms*` lemmas are stated for `ArgsortDesc`.
- `COCO_CLASSES` and `_COLORS` live in `yolox_utils`, which is not part of this model; the class names are a parameter.
- Dictionary insertion order of `image_summary` is not modelled: the summary is a `map`.
- The record's `id` and `created_on` fields are generated from `uuid4` and the clock. They and the MongoDB insert (`save_image_to_db`) are I/O and are left out.
- Camel.LowerAllShape, Camel.CapitalizeShape: `str.capitalize` and `str.lower` are modelled for ASCII letters only. Other characters are left unchanged, so Unicode case mapping, title case and length-changing mappings such as `'ß'` are not captured.
- The rest of `core_functions.py` is database and image I/O with logging, and is left out. So are the API routes, the database client, the logger and the frontend.

# Auralizer core in Dafny

A model of the deterministic core of the Auralizer prototype. The Auralizer
is a camera pipeline that finds an object of a sought class in each frame,
estimates its 3-D position from the bounding box and a depth map, and hands
that position to a spatial audio player. The model covers five parts:

- **Position fusion** (`PositionFusion`, auralize.py). This part turns the
  first detection box and a depth grid into the normalised position
  `(x, y, z)`. It keeps Python's `int()` truncation, the slice-bound
  clamping and numpy's NaN mean of an empty slice.
- **Frame processing and the main loop** (`Auralize`). Sound is emitted
  only when the detector returned boxes. Every present frame is processed
  until the quit key is read.
- **The detector's rule-based parts** (`Detection`, object_detection/detect_YCB.py):
  - the configuration dictionary, its path extension and overrides;
  - the letterbox size;
  - the loop that picks the reported box;
  - the rounded and clamped rectangle, the label placement and the line
    thickness.
- **The webcam frame buffer** (`FrameBuffer`, calibration/webcam.py). This
  is a queue of capacity 2 that evicts its oldest frame. The consumer drains
  it and keeps the newest frame. The sequential mode retries until a read
  succeeds. The start/quit flag logic is also modelled.
- **Calibration bookkeeping** (`Calibration`, calibration/calibrate.py):
  - the 11 x 7 chessboard object points;
  - the result contract of `processImage`;
  - the filtering that keeps image and object points aligned;
  - the camera-matrix-to-YAML field mapping;
  - the command-line defaults;
  - the debug file names shared by the processing and undistortion passes.

`Common` holds the shared vocabulary: `Option`, `Result` (an exception is
`Err` with the exception's name), `Present`, row-major `Flatten` and `Sum`.
Arithmetic is exact (`real`, unbounded `int`).

The model follows the code where it departs from what its names and
comments suggest:

- `get_position_bbox` unpacks `img.shape` into `im_width, im_height`. numpy
  shapes are (rows, columns), so `x` is normalised against the frame's height
  (`shape[0]`) and `y` against its width (`shape[1]`). The depth map's rows
  are sliced by `left:right` and its columns by `top:bottom`. The model
  keeps this crossing, naming the two dimensions `dim0` and `dim1`.
  `PositionFusion.CrossedFullFrameBoxCentredOnlyIfSquare` shows that the
  full-frame box `(0, 0, H, W)` maps to the centre only when the frame is
  square.
- The comment above the selection loop in `detect_image` says it picks the
  highest score. The loop resets `max_score` on every iteration, so it keeps
  the last match; see `Detection.LastMatchIgnoresHigherEarlierScore`.
- An empty depth slice does not raise. numpy's mean gives NaN, and a
  position is still emitted (`Depth.NotANumber`).
- The sequential webcam never returns None; it loops until a read succeeds.
  `FrameBuffer.ReadSequential` works on a finite read script, and `None`
  there only means the script ran out.

## Model

| member | source | states |
|---|---|---|
| PositionFusion.Trunc | auralize.py:53 | `int()` on a float truncates toward zero: the result is within one of `x` and not farther from 0 than `x` |
| PositionFusion.SliceBound | auralize.py:57 | a slice bound counts from the end when negative and is clamped to `[0, n]` |
| PositionFusion.Normalize | auralize.py:51-52 | scaling the normalised coordinate back by the dimension and adding half of it recovers the coordinate; a coordinate inside the frame maps into `[-0.5, 0.5]` |
| PositionFusion.AxisPosition | auralize.py:46-52 | the normalised centre of `[lo, hi]` maps back to the midpoint `(lo + hi) / 2` |
| PositionFusion.SelectedRows | auralize.py:57 | the chosen rows, each cut to the column range, in order |
| PositionFusion.Region | auralize.py:57 | the 2-D slice is empty exactly when the clamped row range or the clamped column range is empty |
| PositionFusion.RegionLength | auralize.py:57 | the 2-D slice has (clamped row span) x (clamped column span) entries |
| PositionFusion.RegionAt | auralize.py:57 | entry (i, j) of the slice is depth cell (r0 + i, c0 + j), at row-major offset `i * width + j` |
| PositionFusion.Mean | auralize.py:59 | the mean is NaN exactly when the slice is empty |
| PositionFusion.GetPositionBbox | auralize.py:44-61 | only the first box is used; x and y map back to the box midpoints along the frame's dim0 and dim1; z is the mean of the box's depth slice |
| PositionFusion.DepthWithinRegionRange | auralize.py:57-59 | z is NaN iff the slice is empty, and otherwise lies between the smallest and largest depth in the slice |
| PositionFusion.ConstantDepthGivesDepth | auralize.py:57-59 | a depth grid constant at v gives z == v for any box with a non-empty slice |
| PositionFusion.ZeroAreaBoxIsNaN | auralize.py:53-59 | a box whose truncated bounds coincide on one axis gives z == NaN |
| PositionFusion.CentredZeroIff | auralize.py:51-52 | a normalised coordinate is 0 exactly when the interval's midpoint is the axis centre |
| PositionFusion.CentredBoxGivesOrigin | auralize.py:44-52 | the box (0, 0, dim1, dim0) maps to x == y == 0 |
| PositionFusion.CrossedFullFrameBoxCentredOnlyIfSquare | auralize.py:44-52 | the box (0, 0, dim0, dim1) maps to x == y == 0 iff the frame is square |
| PositionFusion.FullFrameConstantDepthScenario | auralize.py:44-61 | the centred full-frame box over a depth grid constant at 0.05 gives the position (0, 0, 0.05) |
| PositionFusion.OnlyFirstBoxUsed | auralize.py:45 | later boxes never change the position |
| Auralize.ProcessFrame | auralize.py:84-126 | a position is set and sound played iff there are boxes, and then the position of the first box is set right before playback, with no other position or playback effect before that pair; without boxes only the frame is shown |
| Auralize.TicksRun | auralize.py:129-135 | the loop runs up to and including the first tick whose key code masked with 0xFF is `q` |
| Auralize.RunLoop | auralize.py:129-135 | the frames processed are the present frames of the ticks run, in order |
| Auralize.NoQuitProcessesEveryPresentFrame | auralize.py:129-135 | without a quit key every present frame is processed, in order, and no absent one |
| Common.Present | calibration/calibrate.py:72 | filtering out None keeps only present values, and every present value |
| Common.FlattenAt | calibration/calibrate.py:133 | row i, column j of a rectangular grid sits at position `i * width + j` of its row-major flattening |
| Detection.GetDefaults | object_detection/detect_YCB.py:32-36 | a known name gives its current class default; an unknown name gives the "Unrecognized attribute name" text |
| Detection.UnrecognizedExactlyForUnknownNames | object_detection/detect_YCB.py:32-36 | on the pristine defaults, the "Unrecognized" text comes back exactly for unknown names |
| Detection.PrefixPaths | object_detection/detect_YCB.py:39-42 | exactly the keys containing "path" get `ext + "/"` in front; every other value and the key set stay as they were |
| Detection.PathKeysOfDefaults | object_detection/detect_YCB.py:21-29 | of the seven default keys, exactly the three file names contain "path" |
| Detection.Construct | object_detection/detect_YCB.py:38-48 | the class dictionary is rewritten in place: path keys get the extension in front and all other keys keep their values. The instance has exactly the class keys, the keyword arguments and (for `model == 1`) the two model files. Keyword overrides win over the rewritten defaults, and `model == 1` then replaces the model and class files. Without an extension `model == 1` raises TypeError |
| Detection.InstanceAttrsDetermined | object_detection/detect_YCB.py:38-48 | the constructor's attribute specification leaves exactly one possible instance dictionary |
| Detection.DefaultPathsAreText | object_detection/detect_YCB.py:21-29 | every path key of the class as loaded holds a string, so the extension loop cannot raise |
| Detection.PlainConstructionAttr | object_detection/detect_YCB.py:38-44 | with no keyword arguments and `model == 0`, each attribute is its class default, with the extension in front when the key contains "path" |
| Detection.ExtendedConstructionOfDefaults | object_detection/detect_YCB.py:21-44 | `YOLO(ext)` on the class as loaded has the seven default keys: the three file paths carry the extension once, and score 0.3, iou 0.45, size (416, 416) and gpu_num 1 are kept |
| Detection.SecondConstructionDoublesPrefix | object_detection/detect_YCB.py:39-43 | a second construction with an extension gives every path attribute the extension twice |
| Detection.ConstructFresh | object_detection/detect_YCB.py:38-48 | the corrected constructor: TypeError exactly for `model == 1` without an extension. Otherwise the instance meets the same attribute specification as `Construct`'s: the same keys, keyword overrides, extended class defaults and model files |
| Detection.FreshConstructionPrefixesOnce | object_detection/detect_YCB.py:39-43 | with the corrected constructor, any construction prefixes the extension exactly once |
| Detection.LetterboxSize | object_detection/detect_YCB.py:106-113 | a fixed size must be a multiple of 32 in both entries (AssertionError otherwise) and is passed reversed; `(None, None)` rounds the image size down to multiples of 32 |
| Detection.SelectIndex | object_detection/detect_YCB.py:127-137 | the loop ends with the last detection of the sought class with a positive score, or -1 when there is none |
| Detection.LastMatchIsUnique | object_detection/detect_YCB.py:127-137 | the selected index is determined by the inputs |
| Detection.LastMatchIgnoresHigherEarlierScore | object_detection/detect_YCB.py:130-137 | with scores 0.9 then 0.5 of the sought class, the second is selected, not the higher-scoring one |
| Detection.RoundHalfUp | object_detection/detect_YCB.py:155-158 | `floor(v + 0.5)` is the nearest integer, halves rounded up |
| Detection.ClampBox | object_detection/detect_YCB.py:154-158 | the rounded box is clamped at 0 above and left and at the image height and width below and right |
| Detection.LabelOrigin | object_detection/detect_YCB.py:161-164 | the label sits above the box when it fits, otherwise one pixel inside |
| Detection.LabelStartsInsideImage | object_detection/detect_YCB.py:155-164 | for a clamped box the label never starts above the image |
| Detection.Thickness | object_detection/detect_YCB.py:167 | the thickness is the floor of (width + height) / 300 |
| Detection.DetectImage | object_detection/detect_YCB.py:103-184 | fails exactly when the letterbox size fails, with the letterbox exception; otherwise returns the box of the last match with its clamped rectangle and a label placed by `LabelOrigin` inside the image, or no box when nothing matched |
| FrameBuffer.Window | calibration/webcam.py:17 | the newest at most two entries, a suffix of the input |
| FrameBuffer.Push | calibration/webcam.py:43-45 | a push keeps the newest two of the queue and the new frame, which comes last |
| FrameBuffer.ProducerStep | calibration/webcam.py:40-45 | a failed read leaves the queue unchanged; a successful one pushes its frame |
| FrameBuffer.ProduceKeepsNewest | calibration/webcam.py:39-45 | after any run of the producer the queue holds the newest two of the earlier queue followed by the successfully read frames |
| FrameBuffer.Drain | calibration/webcam.py:55-58 | draining leaves the queue empty and returns the newest frame, or None for an empty queue |
| FrameBuffer.ConsumerSeesNewestFrame | calibration/webcam.py:39-58 | the consumer gets the frame of the last successful read, and nothing when no read succeeded |
| FrameBuffer.FirstSuccess | calibration/webcam.py:31-35 | the sequential loop performs reads up to and including the first successful one |
| FrameBuffer.ReadSequential | calibration/webcam.py:31-35 | the sequential read returns the frame of the first successful read, skipping failed ones |
| FrameBuffer.Init | calibration/webcam.py:8-19 | the flag (set to 1) exists only in non-sequential mode; nothing is started |
| FrameBuffer.Start | calibration/webcam.py:22-24 | only a non-sequential webcam launches its producer; starting it a second time raises AssertionError |
| FrameBuffer.Quit | calibration/webcam.py:26-29 | quitting sets the flag to 0, changes nothing else, and stops the producer. A sequential webcam raises AttributeError, and joining a producer that was never started raises AssertionError |
| FrameBuffer.ProducerTick | calibration/webcam.py:39-45 | the producer reads only while launched with the flag at 1 |
| FrameBuffer.ProducerLifecycle | calibration/webcam.py:22-39 | a sequential webcam never runs a producer. A started non-sequential one does until `quit`, after which reads no longer reach the queue. A second `start` raises, and so does `quit` before `start` |
| Calibration.IndexGridT | calibration/calibrate.py:133 | transposing `np.indices((11, 7))` gives 7 rows of 11 cells, cell [a][b] holding (b, a) |
| Calibration.PatternPoints | calibration/calibrate.py:132-134 | the board has 11 * 7 = 77 object points |
| Calibration.PatternPointAt | calibration/calibrate.py:132-134 | point k is (k mod 11, k div 11, 0) times the square size |
| Calibration.PatternPointsDistinct | calibration/calibrate.py:132-134 | for a non-zero square size no two object points coincide |
| Calibration.Join | calibration/calibrate.py:47 | `os.path.join` ends with the file name and starts with the directory unless the file name is absolute |
| Calibration.ProcessImage | calibration/calibrate.py:30-55 | load failure gives None; AssertionError is raised exactly for a loaded image of the wrong size, so a right-sized image without a board gives None; the chess image is written iff the image loaded with the right size and a debug directory is set, whether or not the board was found; a board is returned iff it was found |
| Calibration.ProcessAll | calibration/calibrate.py:65 | the per-image results in order, or, when some image raised, the exception of the first image in input order that did |
| Calibration.GetChessboardInfo | calibration/calibrate.py:72-77 | image and object points have equal length, the number of found boards, and entry i of each comes from the i-th found board |
| Calibration.PresentKeepsOrder | calibration/calibrate.py:72 | a board of an earlier image comes before one of a later image |
| Calibration.PresentRank | calibration/calibrate.py:72 | the board of image `i` sits in the kept list at the number of boards found before it; with `PresentCount` this fixes the list to the found boards in image order |
| Calibration.PresentCount | calibration/calibrate.py:72-77 | as many boards are kept as images succeeded |
| Calibration.WriteYamlConfig | calibration/calibrate.py:91-106 | the nine camera fields are added, every other template entry is kept, and a too-small matrix or vector raises IndexError |
| Calibration.WrittenConfigReadsBack | calibration/calibrate.py:98-106 | reading the written fields back gives fx = K[0][0], fy = K[1][1], cx = K[0][2], cy = K[1][2] and k1, k2, p1, p2, k3 = dist[0..4] |
| Calibration.KeysDistinct | calibration/calibrate.py:98-106 | the nine field names are pairwise different |
| Calibration.OptionDict | calibration/calibrate.py:115 | the last option given is in the dictionary with its value |
| Calibration.OptionDictLastWins | calibration/calibrate.py:114-115 | an option is in the dictionary iff it was given, and the value of its last occurrence wins |
| Calibration.WithDefaults | calibration/calibrate.py:116-118 | given options keep their text; missing ones get `./output/`, 1.0 and 4 |
| Calibration.ImageMask | calibration/calibrate.py:120-123 | the first positional argument, else `./calib_images/*.bmp` |
| Calibration.UndistortOutputs | calibration/calibrate.py:153-165 | without a debug directory nothing is written; at most one output per image |
| Calibration.ChessAndUndistortedDiffer | calibration/calibrate.py:155-156 | an image's chess file and undistorted file never share a name |
| Calibration.ChessFileInjective | calibration/calibrate.py:47 | different plain names give different chess files in the same directory |
| Calibration.WrittenFiles | calibration/calibrate.py:43-48 | exactly the chess files the processing pass wrote |
| Calibration.UndistortMatches | calibration/calibrate.py:153-165 | an undistorted image is written for exactly the inputs whose chess image loads |
| Calibration.UndistortFollowsChessFiles | calibration/calibrate.py:153-165 | the correspondence holds under two conditions: the input names are pairwise different, and the debug directory holds only the chess files this run's processing wrote. The undistortion pass then writes an undistorted image for exactly the inputs whose processing wrote a chess image, board found or not |
| Calibration.DuplicateNamesBreakCorrespondence | calibration/calibrate.py:153-165 | two inputs with the same name (`a/x.bmp`, `b/x.bmp`) share one chess file: when only the first wrote it, both get an undistorted output |
| Calibration.StaleChessFileGivesOutput | calibration/calibrate.py:127-165 | the debug directory is never cleared: a chess file from an earlier run gives an undistorted output for an image that did not load |

## Left out

- OpenCV's corner detection, sub-pixel refinement, `calibrateCamera`, `getOptimalNewCameraMatrix`, `undistort` and `VideoCapture`: library numerics and camera hardware. Their results are inputs (`detected`, the camera matrix and distortion vector, the read script). `undistort_image` is not part of this model.
- The YOLO network, the session, `generate`, `letterbox_image` itself, the MonoDepth forward pass and the PIL resize of the depth map: learned models and image resampling. The depth grid is taken as already resized.
- auralize.py imports its detector from object_detection/detect_bananas.py, which is not part of this model. Its `detect_image` returns three values, while the modelled detect_YCB.py returns two. `Auralize.ProcessFrame` takes the detector's image shape and boxes as inputs.
- Auralize.ProcessFrame: `if out_boxes:` is modelled as the test for a non-empty list. If the detector returned its boxes as a numpy array, as `sess.run` does in detect_YCB.py, the truth test would raise ValueError for any non-empty result, since each box has four coordinates. That error is not modelled.
- Real multiprocessing: the `Process`, `Queue` and `Value` objects, interleavings, `join(timeout=5)` and `sleep`. The buffer is a single-threaded state machine.
- The module-level calibration load and `quit()` in auralize.py, argument parsing there, the choice between `Webcam` and `VideoInput`, and `VideoInput`: start-up I/O.
- All file and display I/O: `np.load`/`np.save`, YAML reading and dumping, `glob`, `imread`/`imwrite`, `imshow`, `waitKey`, fonts, the drawing calls and the audio player. Display calls appear only as `Auralize.Effect` markers.
- Class-name lookups (`class_names[...]` at object_detection/detect_YCB.py:134, 147, 177), their IndexError, and the label text: the class file is I/O. The label's rendered height is an input.
- `detect_video`: a timer-driven display loop whose `detect_image` call does not match the method's signature.
- `splitfn`: a thin wrapper over `os.path.split`/`splitext`. Its `name` result is carried with each `ImageFile`.
- `float(args['--square_size'])` and `int(args['--threads'])`: text-to-number parsing. `getopt` rejecting unknown options is also left out.
- Calibration.ProcessAll: models the sequential comprehension (`--threads` at most 1) only. With the default of 4 threads, `pool.map` hands every image to the workers. Images after a failing one may still be processed and write their chess files, and the exception re-raised is the first failure to complete, which need not be the first in input order. When no image raises, `pool.map` gives the same results in input order as the comprehension.
- Calibration.WriteYamlConfig: takes the distortion coefficients as a flat vector. OpenCV returns them as a 1 x 5 array, which `float(dist_coefs[0])` would reject. The function is not called in the script.
- PositionFusion.GetPositionBbox: float32/float64 rounding is not modelled (exact reals). Python's `int()` raising on a NaN or infinite box coordinate is not modelled either.
- Detection.ClampBox: the `int32` cast of the rounded coordinates is not modelled; coordinates beyond 32 bits do not occur for image boxes.
- FrameBuffer.ReadSequential: a finite read script stands in for a camera that may never deliver; the source would loop forever where the model returns None.
- FrameBuffer.Quit: when `join` raises on a producer that was never started, the flag has already been set to 0. The error result does not carry that state. The five-second `join` timeout is not modelled either.
- Calibration.UndistortFollowsChessFiles: the one-to-one correspondence is stated only for pairwise different names and a debug directory with no chess files from earlier runs. The source has neither guarantee; `DuplicateNamesBreakCorrespondence` and `StaleChessFileGivesOutput` show what happens otherwise.

## Findings

| source | as written | input that shows it | evidently intended | confidence | as-written member | corrected member |
|---|---|---|---|---|---|---|
| object_detection/detect_YCB.py:39-43 | `_defaults` is a class attribute and `__init__` rewrites it in place before copying it, so every construction with a path extension adds the extension again | two `YOLO("object_detection")` constructions: the second gets `model_path == "object_detection/object_detection/keras_yolo3/..."` | each instance's paths carry the extension once; the class defaults stay pristine | not executed | Detection.SecondConstructionDoublesPrefix | Detection.FreshConstructionPrefixesOnce |

/** The rule-based parts of the YOLO wrapper in object_detection/detect_YCB.py:
    the configuration dictionary and its overrides, the letterbox size, the
    choice of the box to report, and the geometry of the drawn box and
    label. The network, the session and the drawing calls stay outside. */
module Detection {
  import opened Common
  import opened PositionFusion

  /** A configuration value of the detector. */
  datatype Value =
    | Text(s: string)
    | Number(r: real)
    | Count(n: int)
    | SizePair(first: Option<int>, second: Option<int>)

  type Config = map<string, Value>

  const ModelPath := "keras_yolo3/model_data/tiny_yolo_ycb.h5"
  const AnchorsPath := "keras_yolo3/model_data/tiny_yolo_anchors.txt"
  const ClassesPath := "keras_yolo3/model_data/ycb_classes.txt"

  /** `YOLO._defaults` as the class is loaded. */
  const DefaultConfig: Config := map[
    "model_path" := Text(ModelPath),
    "anchors_path" := Text(AnchorsPath),
    "classes_path" := Text(ClassesPath),
    "score" := Number(0.3),
    "iou" := Number(0.45),
    "model_image_size" := SizePair(Some(416), Some(416)),
    "gpu_num" := Count(1)
  ]

  const UnrecognizedPrefix := "Unrecognized attribute name '"

  /** `get_defaults(n)` against the class dictionary `cls` as it currently
      stands. */
  function GetDefaults(cls: Config, n: string): (r: Value)
    ensures n in cls ==> r == cls[n]
    ensures n !in cls ==> r == Text(UnrecognizedPrefix + n + "'")
  {
    if n in cls then cls[n] else Text(UnrecognizedPrefix + n + "'")
  }

  /** Python's `sub in s` on strings. */
  predicate Contains(s: string, sub: string)
  {
    |sub| <= |s| && (s[..|sub|] == sub || Contains(s[1..], sub))
  }

  /** Whether a key is one that a path extension rewrites. */
  predicate IsPathKey(key: string)
  {
    Contains(key, "path")
  }

  /** Every key whose name contains "path" holds a string (otherwise the
      concatenation in `__init__` raises). */
  predicate PathsAreText(cls: Config)
  {
    forall k :: k in cls && IsPathKey(k) ==> cls[k].Text?
  }

  /** The loop over `_defaults` in `__init__`: the values of exactly the keys
      whose name contains "path" get `ext + "/"` in front. */
  function PrefixPaths(cls: Config, ext: string): (r: Config)
    requires PathsAreText(cls)
    ensures r.Keys == cls.Keys
    ensures forall k :: k in cls && IsPathKey(k) ==> r[k] == Text(ext + "/" + cls[k].s)
    ensures forall k :: k in cls && !IsPathKey(k) ==> r[k] == cls[k]
    ensures PathsAreText(r)
  {
    map k | k in cls :: if IsPathKey(k) then Text(ext + "/" + cls[k].s) else cls[k]
  }

  /** What `YOLO(...)` leaves behind: the class dictionary after the call
      (it is a class attribute, changed in place) and the instance's
      attributes. */
  datatype Construction = Construction(classDefaults: Config, attrs: Config)

  const TinyModelPath := "keras_yolo3/model_data/tiny_yolo.h5"
  const CocoClassesPath := "keras_yolo3/model_data/coco_classes.txt"

  /** The two attributes that `model == 1` replaces. */
  predicate IsModelFile(k: string)
  {
    k == "model_path" || k == "classes_path"
  }

  /** The keys `model == 1` adds to the instance. */
  function ModelFiles(model: int): set<string>
  {
    if model == 1 then {"model_path", "classes_path"} else {}
  }

  /** The class default of `k` once the path extension has been applied
      to it: keys whose name contains "path" get `ext + "/"` in front. */
  function Extended(cls: Config, ext: Option<string>, k: string): Value
    requires PathsAreText(cls) && k in cls
  {
    if ext.Some? && IsPathKey(k) then Text(ext.value + "/" + cls[k].s) else cls[k]
  }

  /** The instance attributes `__init__` leaves behind for a class
      dictionary `cls` as it stood before the call: exactly the class keys,
      the keyword arguments and the model files; the keyword arguments
      override the (extended) class defaults, and `model == 1` then
      overrides the model and class files. */
  predicate InstanceAttrs(cls: Config, ext: Option<string>, model: int, kwargs: Config, attrs: Config)
    requires PathsAreText(cls)
    requires model == 1 ==> ext.Some?
  {
    && attrs.Keys == cls.Keys + kwargs.Keys + ModelFiles(model)
    && (forall k :: k in kwargs && !(model == 1 && IsModelFile(k)) ==> attrs[k] == kwargs[k])
    && (forall k :: k in cls && k !in kwargs && !(model == 1 && IsModelFile(k)) ==>
          attrs[k] == Extended(cls, ext, k))
    && (model == 1 ==>
          && attrs["model_path"] == Text(ext.value + "/" + TinyModelPath)
          && attrs["classes_path"] == Text(ext.value + "/" + CocoClassesPath))
  }

  /** `InstanceAttrs` determines the instance completely. */
  lemma {:induction false} InstanceAttrsDetermined(cls: Config, ext: Option<string>, model: int, kwargs: Config,
                                                   a: Config, b: Config)
    requires PathsAreText(cls)
    requires model == 1 ==> ext.Some?
    requires InstanceAttrs(cls, ext, model, kwargs, a) && InstanceAttrs(cls, ext, model, kwargs, b)
    ensures a == b
  {
    forall k | k in a ensures a[k] == b[k] {
      if model == 1 && IsModelFile(k) {
        assert k == "model_path" || k == "classes_path";
      } else if k in kwargs {
      } else {
        assert k in cls;
      }
    }
  }

  /** The class dictionary after the loop over `_defaults`. */
  function Rewritten(cls: Config, ext: Option<string>): (r: Config)
    requires PathsAreText(cls)
    ensures r.Keys == cls.Keys
    ensures forall k :: k in cls ==> r[k] == Extended(cls, ext, k)
  {
    if ext.Some? then PrefixPaths(cls, ext.value) else cls
  }

  /** The two `update` calls: the extended defaults, then `kwargs`. */
  lemma MergedAttrs(cls: Config, ext: Option<string>, model: int, kwargs: Config)
    requires PathsAreText(cls) && model != 1
    ensures InstanceAttrs(cls, ext, model, kwargs, Rewritten(cls, ext) + kwargs)
  {
  }

  /** The two assignments of `model == 1` after the updates. */
  lemma ModelFileAttrs(cls: Config, ext: string, kwargs: Config)
    requires PathsAreText(cls)
    ensures InstanceAttrs(cls, Some(ext), 1, kwargs,
                          (Rewritten(cls, Some(ext)) + kwargs)["model_path" := Text(ext + "/" + TinyModelPath)]
                                                               ["classes_path" := Text(ext + "/" + CocoClassesPath)])
  {
    var m := Rewritten(cls, Some(ext)) + kwargs;
    var a := m["model_path" := Text(ext + "/" + TinyModelPath)]["classes_path" := Text(ext + "/" + CocoClassesPath)];
    assert a.Keys == m.Keys + {"model_path", "classes_path"};
    assert ModelFiles(1) == {"model_path", "classes_path"};
    forall k | k in kwargs && !IsModelFile(k) ensures a[k] == kwargs[k] {
      assert a[k] == m[k];
    }
    forall k | k in cls && k !in kwargs && !IsModelFile(k) ensures a[k] == Extended(cls, Some(ext), k) {
      assert a[k] == m[k];
    }
  }

  /** `__init__` up to the model loading, as written: the class dictionary is
      rewritten in place, copied into the instance, overridden by `kwargs`,
      and `model == 1` then replaces the two model files. */
  function Construct(cls: Config, ext: Option<string>, model: int, kwargs: Config): (r: Result<Construction>)
    requires PathsAreText(cls)
    ensures r.Err? <==> model == 1 && ext.None?
    ensures r.Ok? ==>
              && r.value.classDefaults.Keys == cls.Keys
              && (ext.None? ==> r.value.classDefaults == cls)
              && (ext.Some? ==> forall k :: k in cls && IsPathKey(k) ==>
                                 r.value.classDefaults[k] == Text(ext.value + "/" + cls[k].s))
              && (ext.Some? ==> forall k :: k in cls && !IsPathKey(k) ==>
                                 r.value.classDefaults[k] == cls[k])
    ensures r.Ok? ==> InstanceAttrs(cls, ext, model, kwargs, r.value.attrs)
  {
    var updated := Rewritten(cls, ext);
    if model == 1 then
      if ext.None? then Err("TypeError")
      else
        ModelFileAttrs(cls, ext.value, kwargs);
        Ok(Construction(updated, (updated + kwargs)["model_path" := Text(ext.value + "/" + TinyModelPath)]
                                                    ["classes_path" := Text(ext.value + "/" + CocoClassesPath)]))
    else
      MergedAttrs(cls, ext, model, kwargs);
      Ok(Construction(updated, updated + kwargs))
  }

  /** The corrected constructor: the path extension is applied to a copy of
      the class dictionary, which is left as it was; only the instance's
      attributes are produced. */
  function ConstructFresh(cls: Config, ext: Option<string>, model: int, kwargs: Config): (r: Result<Config>)
    requires PathsAreText(cls)
    ensures r.Err? <==> model == 1 && ext.None?
    ensures r.Ok? ==> InstanceAttrs(cls, ext, model, kwargs, r.value)
  {
    match Construct(cls, ext, model, kwargs)
    case Ok(c) => Ok(c.attrs)
    case Err(m) => Err(m)
  }

  /** As written, a second construction with a path extension sees the class
      dictionary the first one rewrote, so every path attribute carries the
      extension twice. */
  lemma SecondConstructionDoublesPrefix(cls: Config, ext: string, k: string)
    requires PathsAreText(cls) && k in cls && IsPathKey(k)
    ensures var first := Construct(cls, Some(ext), 0, map[]);
            first.Ok? && PathsAreText(first.value.classDefaults) &&
            var second := Construct(first.value.classDefaults, Some(ext), 0, map[]);
            second.Ok? && k in second.value.attrs &&
            second.value.attrs[k] == Text(ext + "/" + ext + "/" + cls[k].s)
  {
    var first := Construct(cls, Some(ext), 0, map[]);
    var second := Construct(first.value.classDefaults, Some(ext), 0, map[]);
    assert second.value.attrs[k] == Text(ext + "/" + (ext + "/" + cls[k].s));
  }

  /** With the corrected constructor, a second construction from the
      untouched class dictionary prefixes the extension exactly once. */
  lemma FreshConstructionPrefixesOnce(cls: Config, ext: string, k: string)
    requires PathsAreText(cls) && k in cls && IsPathKey(k)
    ensures var r := ConstructFresh(cls, Some(ext), 0, map[]);
            r.Ok? && k in r.value && r.value[k] == Text(ext + "/" + cls[k].s)
  {
  }

  /** For the pristine defaults, `get_defaults` answers with the
      "Unrecognized attribute name" message exactly for unknown names. */
  lemma UnrecognizedExactlyForUnknownNames(n: string)
    ensures (GetDefaults(DefaultConfig, n).Text? &&
             UnrecognizedPrefix <= GetDefaults(DefaultConfig, n).s) <==> n !in DefaultConfig
  {
    if n in DefaultConfig && GetDefaults(DefaultConfig, n).Text? {
      var s := GetDefaults(DefaultConfig, n).s;
      assert s[0] == 'k';
      assert UnrecognizedPrefix[0] == 'U';
    }
  }

  /** A string without the first character of `sub` does not contain it. */
  lemma {:induction false} MissingFirstCharNotContains(s: string, sub: string)
    requires |sub| > 0 && forall i :: 0 <= i < |s| ==> s[i] != sub[0]
    ensures !Contains(s, sub)
  {
    if |sub| <= |s| {
      assert s[..|sub|][0] == s[0];
      MissingFirstCharNotContains(s[1..], sub);
    }
  }

  lemma FileKeysArePathKeys()
    ensures IsPathKey("model_path") && IsPathKey("anchors_path") && IsPathKey("classes_path")
  {
    assert "model_path"[6..] == "path";
    assert "anchors_path"[8..] == "path";
    assert "classes_path"[8..] == "path";
  }

  lemma TunablesAreNotPathKeys()
    ensures !IsPathKey("score") && !IsPathKey("iou") && !IsPathKey("model_image_size")
  {
    MissingFirstCharNotContains("score", "path");
    MissingFirstCharNotContains("iou", "path");
    MissingFirstCharNotContains("model_image_size", "path");
  }

  lemma GpuNumIsNotPathKey()
    ensures !IsPathKey("gpu_num")
  {
    var s := "gpu_num";
    assert s[..4] != "path" by { assert s[0] == 'g'; }
    assert s[1..][..4] != "path" by { assert s[2] == 'u'; }
    MissingFirstCharNotContains(s[2..], "path");
  }

  /** Of the default keys, exactly the three file names contain "path". */
  lemma PathKeysOfDefaults()
    ensures IsPathKey("model_path") && IsPathKey("anchors_path") && IsPathKey("classes_path")
    ensures !IsPathKey("score") && !IsPathKey("iou") && !IsPathKey("model_image_size") && !IsPathKey("gpu_num")
  {
    FileKeysArePathKeys();
    TunablesAreNotPathKeys();
    GpuNumIsNotPathKey();
  }

  /** The class as loaded holds text under every path key. */
  lemma DefaultPathsAreText()
    ensures PathsAreText(DefaultConfig)
  {
    PathKeysOfDefaults();
    forall k | k in DefaultConfig && IsPathKey(k) ensures DefaultConfig[k].Text? {
      DefaultKey(k);
      if k == "score" || k == "iou" || k == "model_image_size" || k == "gpu_num" {
        assert false;
      }
      DefaultValues();
    }
  }

  /** The seven values of the class dictionary as loaded. */
  lemma DefaultValues()
    ensures "model_path" in DefaultConfig && DefaultConfig["model_path"] == Text(ModelPath)
    ensures "anchors_path" in DefaultConfig && DefaultConfig["anchors_path"] == Text(AnchorsPath)
    ensures "classes_path" in DefaultConfig && DefaultConfig["classes_path"] == Text(ClassesPath)
    ensures "score" in DefaultConfig && DefaultConfig["score"] == Number(0.3)
    ensures "iou" in DefaultConfig && DefaultConfig["iou"] == Number(0.45)
    ensures "model_image_size" in DefaultConfig && DefaultConfig["model_image_size"] == SizePair(Some(416), Some(416))
    ensures "gpu_num" in DefaultConfig && DefaultConfig["gpu_num"] == Count(1)
  {
  }

  /** The seven keys of the class dictionary as loaded. */
  lemma DefaultKey(k: string)
    requires k in DefaultConfig
    ensures k == "model_path" || k == "anchors_path" || k == "classes_path" ||
            k == "score" || k == "iou" || k == "model_image_size" || k == "gpu_num"
  {
  }

  /** Without keyword arguments and with `model == 0`, an instance attribute
      is its class default with the extension applied. */
  lemma PlainConstructionAttr(cls: Config, ext: string, k: string)
    requires PathsAreText(cls) && k in cls
    ensures var c := Construct(cls, Some(ext), 0, map[]);
            c.Ok? && k in c.value.attrs &&
            c.value.attrs[k] == (if IsPathKey(k) then Text(ext + "/" + cls[k].s) else cls[k])
  {
  }

  /** `YOLO(ext)` on the class as loaded, as auralize.py constructs it: the
      three file paths carry the extension once and the tunables keep their
      defaults. */
  lemma ExtendedConstructionOfDefaults(ext: string)
    ensures PathsAreText(DefaultConfig)
    ensures var c := Construct(DefaultConfig, Some(ext), 0, map[]);
            && c.Ok?
            && c.value.attrs.Keys == DefaultConfig.Keys
            && c.value.attrs["model_path"] == Text(ext + "/" + ModelPath)
            && c.value.attrs["anchors_path"] == Text(ext + "/" + AnchorsPath)
            && c.value.attrs["classes_path"] == Text(ext + "/" + ClassesPath)
            && c.value.attrs["score"] == Number(0.3)
            && c.value.attrs["iou"] == Number(0.45)
            && c.value.attrs["model_image_size"] == SizePair(Some(416), Some(416))
            && c.value.attrs["gpu_num"] == Count(1)
  {
    DefaultPathsAreText();
    PathKeysOfDefaults();
    DefaultValues();
    var d := DefaultConfig;
    PlainConstructionAttr(d, ext, "model_path");
    PlainConstructionAttr(d, ext, "anchors_path");
    PlainConstructionAttr(d, ext, "classes_path");
    PlainConstructionAttr(d, ext, "score");
    PlainConstructionAttr(d, ext, "iou");
    PlainConstructionAttr(d, ext, "model_image_size");
    PlainConstructionAttr(d, ext, "gpu_num");
  }

  /** The letterbox target `(width, height)` handed to `letterbox_image`, or
      the exception `detect_image` raises. A fixed `model_image_size` is
      `(height, width)` and must be a multiple of 32 in both entries; `(None,
      None)` rounds the image size down to multiples of 32. */
  function LetterboxSize(modelSize: (Option<int>, Option<int>), width: nat, height: nat): (r: Result<(int, int)>)
    ensures modelSize == (None, None) ==>
              && r.Ok?
              && r.value.0 % 32 == 0 && r.value.0 <= width < r.value.0 + 32
              && r.value.1 % 32 == 0 && r.value.1 <= height < r.value.1 + 32
    ensures modelSize.0.Some? && modelSize.1.Some? ==>
              (r.Ok? <==> modelSize.0.value % 32 == 0 && modelSize.1.value % 32 == 0)
    ensures modelSize.0.Some? && modelSize.1.Some? && r.Ok? ==>
              r.value == (modelSize.1.value, modelSize.0.value)
    ensures modelSize != (None, None) && (modelSize.0.None? || modelSize.1.None?) ==> r.Err?
    ensures modelSize.0.Some? && modelSize.1.Some? && r.Err? ==> r.message == "AssertionError"
  {
    if modelSize != (None, None) then
      if modelSize.0.None? then Err("TypeError")
      else if modelSize.0.value % 32 != 0 then Err("AssertionError")
      else if modelSize.1.None? then Err("TypeError")
      else if modelSize.1.value % 32 != 0 then Err("AssertionError")
      else Ok((modelSize.1.value, modelSize.0.value))
    else
      Ok((width - width % 32, height - height % 32))
  }

  /** Detection `i` is of the sought class and clears the `max_score` of 0
      that the loop starts every iteration with. */
  predicate Matches(scores: seq<real>, classes: seq<int>, search: int, i: int)
    requires 0 <= i < |scores| && i < |classes|
  {
    classes[i] == search && scores[i] > 0.0
  }

  function ZipLength(a: nat, b: nat, c: nat): nat
  {
    if a <= b && a <= c then a else if b <= c then b else c
  }

  /** The index the selection loop ends with: the last matching detection,
      or -1 when none matches. */
  predicate IsLastMatch(scores: seq<real>, classes: seq<int>, search: int, n: nat, index: int)
    requires n <= |scores| && n <= |classes|
  {
    && -1 <= index < n
    && (index == -1 <==> forall i :: 0 <= i < n ==> !Matches(scores, classes, search, i))
    && (index >= 0 ==> Matches(scores, classes, search, index) &&
                       forall j :: index < j < n ==> !Matches(scores, classes, search, j))
  }

  /** The selection loop of `detect_image` over `zip(out_boxes, out_scores,
      out_classes)`. `max_score` is reset to 0 on every iteration, so the
      loop keeps the last match rather than the best one. */
  method SelectIndex(boxes: seq<Box>, scores: seq<real>, classes: seq<int>, search: int)
    returns (index: int)
    ensures IsLastMatch(scores, classes, search, ZipLength(|boxes|, |scores|, |classes|), index)
  {
    var n := ZipLength(|boxes|, |scores|, |classes|);
    index := -1;
    var i := 0;
    while i < n
      invariant 0 <= i <= n
      invariant IsLastMatch(scores, classes, search, i, index)
    {
      var maxScore := 0.0;
      if classes[i] == search && scores[i] > maxScore {
        maxScore := scores[i];
        index := i;
        assert Matches(scores, classes, search, i);
      } else {
        assert !Matches(scores, classes, search, i);
        assert (forall j :: 0 <= j < i + 1 ==> !Matches(scores, classes, search, j)) <==>
               (forall j :: 0 <= j < i ==> !Matches(scores, classes, search, j));
      }
      i := i + 1;
    }
  }

  /** The selection is determined: at most one index is the last match. */
  lemma LastMatchIsUnique(scores: seq<real>, classes: seq<int>, search: int, n: nat, a: int, b: int)
    requires n <= |scores| && n <= |classes|
    requires IsLastMatch(scores, classes, search, n, a) && IsLastMatch(scores, classes, search, n, b)
    ensures a == b
  {
  }

  /** Two detections of the sought class with scores 0.9 then 0.5: the loop
      reports the second, although the first scores higher. */
  lemma LastMatchIgnoresHigherEarlierScore()
    ensures IsLastMatch([0.9, 0.5], [7, 7], 7, 2, 1)
    ensures !IsLastMatch([0.9, 0.5], [7, 7], 7, 2, 0)
  {
    assert Matches([0.9, 0.5], [7, 7], 7, 1);
  }

  /** `np.floor(v + 0.5)`: the nearest integer, halves rounded up. */
  function RoundHalfUp(v: real): (r: int)
    ensures r as real - 0.5 <= v < r as real + 0.5
  {
    (v + 0.5).Floor
  }

  /** The integer rectangle the box is drawn with. */
  datatype DrawBox = DrawBox(top: int, left: int, bottom: int, right: int)

  /** Rounds the raw box and clamps it: `top`/`left` at 0 from below,
      `bottom` at the image height and `right` at the image width from
      above. */
  function ClampBox(b: Box, width: nat, height: nat): (r: DrawBox)
    ensures 0 <= r.top && 0 <= r.left && r.bottom <= height && r.right <= width
    ensures r.top == (if RoundHalfUp(b.top) < 0 then 0 else RoundHalfUp(b.top))
    ensures r.left == (if RoundHalfUp(b.left) < 0 then 0 else RoundHalfUp(b.left))
    ensures r.bottom == (if RoundHalfUp(b.bottom) > height then height else RoundHalfUp(b.bottom))
    ensures r.right == (if RoundHalfUp(b.right) > width then width else RoundHalfUp(b.right))
  {
    DrawBox(Max(0, RoundHalfUp(b.top)), Max(0, RoundHalfUp(b.left)),
            Min(height, RoundHalfUp(b.bottom)), Min(width, RoundHalfUp(b.right)))
  }

  function Max(a: int, b: int): int { if a >= b then a else b }
  function Min(a: int, b: int): int { if a <= b then a else b }

  /** Where the label is drawn: on top of the box when it fits above the
      image edge, otherwise just inside the box. */
  function LabelOrigin(left: int, top: int, labelHeight: int): (r: (int, int))
    ensures r.0 == left
    ensures top - labelHeight >= 0 ==> r.1 + labelHeight == top
    ensures top - labelHeight < 0 ==> r.1 == top + 1
  {
    if top - labelHeight >= 0 then (left, top - labelHeight) else (left, top + 1)
  }

  /** For a clamped box the label never starts above the image. */
  lemma LabelStartsInsideImage(b: Box, width: nat, height: nat, labelHeight: nat)
    ensures LabelOrigin(ClampBox(b, width, height).left, ClampBox(b, width, height).top, labelHeight).1 >= 0
  {
  }

  /** `(image.size[0] + image.size[1]) // 300`. */
  function Thickness(width: nat, height: nat): (r: nat)
    ensures 300 * r <= width + height < 300 * (r + 1)
  {
    (width + height) / 300
  }

  /** The overlay drawn for a selected box. */
  datatype Drawing = Drawing(frame: DrawBox, labelOrigin: (int, int), thickness: nat)

  /** `detect_image`'s result: the raw box of the selected detection (None
      when nothing was selected) and what is drawn for it. */
  datatype DetectResult = DetectResult(box: Option<Box>, drawing: Option<Drawing>)

  /** `detect_image` after inference: `boxes`, `scores` and `classes` are the
      network's outputs for the image of size `width` x `height`, and
      `labelHeight` is the rendered height of the label text. */
  method DetectImage(modelSize: (Option<int>, Option<int>), width: nat, height: nat,
                     boxes: seq<Box>, scores: seq<real>, classes: seq<int>,
                     search: int, labelHeight: int)
    returns (r: Result<DetectResult>)
    ensures r.Err? <==> LetterboxSize(modelSize, width, height).Err?
    ensures r.Err? ==> r.message == LetterboxSize(modelSize, width, height).message
    ensures r.Ok? ==> (r.value.box.None? <==> r.value.drawing.None?)
    ensures r.Ok? ==> (r.value.box.None? <==>
              forall i :: 0 <= i < ZipLength(|boxes|, |scores|, |classes|) ==> !Matches(scores, classes, search, i))
    ensures r.Ok? && r.value.box.Some? ==>
              exists i :: IsLastMatch(scores, classes, search, ZipLength(|boxes|, |scores|, |classes|), i) &&
                          0 <= i < |boxes| && r.value.box.value == boxes[i] &&
                          r.value.drawing.value.frame == ClampBox(boxes[i], width, height)
    ensures r.Ok? && r.value.drawing.Some? ==>
              && 0 <= r.value.drawing.value.frame.top
              && 0 <= r.value.drawing.value.labelOrigin.1
              && r.value.drawing.value.labelOrigin ==
                 LabelOrigin(r.value.drawing.value.frame.left, r.value.drawing.value.frame.top, labelHeight)
              && r.value.drawing.value.thickness == Thickness(width, height)
  {
    var size := LetterboxSize(modelSize, width, height);
    if size.Err? {
      return Err(size.message);
    }
    var index := SelectIndex(boxes, scores, classes, search);
    if index > -1 {
      var frame := ClampBox(boxes[index], width, height);
      var origin := LabelOrigin(frame.left, frame.top, labelHeight);
      var drawing := Drawing(frame, origin, Thickness(width, height));
      r := Ok(DetectResult(Some(boxes[index]), Some(drawing)));
    } else {
      r := Ok(DetectResult(None, None));
    }
  }
}

/** The bookkeeping of calibration/calibrate.py around OpenCV's calibration:
    the chessboard's object points, the per-image result contract, the
    filtering that keeps image and object points aligned, the mapping of the
    camera matrix and distortion vector to named configuration fields, the
    command-line defaults and the debug file names. Corner detection and
    the calibration itself are inputs. */
module Calibration {
  import opened Common

  /** `pattern_size`: inner corners per row and per column. */
  const PatternCols: nat := 11
  const PatternRows: nat := 7

  /** `np.indices((n0, n1))`: plane 0 holds the first index of each cell,
      plane 1 the second. */
  function Indices(n0: nat, n1: nat): (r: seq<seq<seq<int>>>)
  {
    [seq(n0, i => seq(n1, j => i)), seq(n0, i => seq(n1, j => j))]
  }

  /** `np.indices((n0, n1)).T`, which reverses all three axes: cell `[a][b]`
      holds the pair `(plane 0, plane 1)` of the index cell `[b][a]`. */
  function IndexGridT(n0: nat, n1: nat): (g: seq<seq<(int, int)>>)
    ensures |g| == n1 && Rectangular(g, n0)
    ensures forall a, b :: 0 <= a < n1 && 0 <= b < n0 ==> g[a][b] == (b, a)
  {
    var ind := Indices(n0, n1);
    seq(n1, a requires 0 <= a < n1 =>
      seq(n0, b requires 0 <= b < n0 => (ind[0][b][a], ind[1][b][a])))
  }

  /** A point of the chessboard in its own plane. */
  datatype Point3 = Point3(x: real, y: real, z: real)

  /** `pattern_points`: zeros of shape (77, 3), the first two columns set
      from `np.indices(pattern_size).T.reshape(-1, 2)`, then scaled by the
      square size. */
  function PatternPoints(squareSize: real): (r: seq<Point3>)
    ensures |r| == PatternCols * PatternRows
  {
    var g := IndexGridT(PatternCols, PatternRows);
    FlattenLength(g, PatternCols);
    var flat := Flatten(g);
    seq(|flat|, k requires 0 <= k < |flat| =>
      Point3(Scaled(flat[k].0, squareSize), Scaled(flat[k].1, squareSize), 0.0))
  }

  /** One grid coordinate after `pattern_points *= square_size`. */
  function Scaled(c: int, squareSize: real): real
  {
    c as real * squareSize
  }

  /** Point `k` is column `k mod 11`, row `k div 11` of the board, scaled by
      the square size, and lies in the plane z = 0. */
  lemma PatternPointAt(squareSize: real, k: nat)
    requires k < PatternCols * PatternRows
    ensures PatternPoints(squareSize)[k] ==
            Point3(Scaled(k % PatternCols, squareSize), Scaled(k / PatternCols, squareSize), 0.0)
  {
    var g := IndexGridT(PatternCols, PatternRows);
    var a, b := k / PatternCols, k % PatternCols;
    assert a * PatternCols + b == k;
    FlattenAt(g, PatternCols, a, b);
  }

  /** The board has 77 points, none of them repeated for a non-zero square
      size. */
  lemma PatternPointsDistinct(squareSize: real, k: nat, m: nat)
    requires squareSize != 0.0
    requires k < m < PatternCols * PatternRows
    ensures PatternPoints(squareSize)[k] != PatternPoints(squareSize)[m]
  {
    if PatternPoints(squareSize)[k] == PatternPoints(squareSize)[m] {
      var ck, cm, rk, rm := k % PatternCols, m % PatternCols, k / PatternCols, m / PatternCols;
      assert Scaled(ck, squareSize) == Scaled(cm, squareSize) && Scaled(rk, squareSize) == Scaled(rm, squareSize) by {
        PatternPointAt(squareSize, k);
        PatternPointAt(squareSize, m);
      }
      ScaledCancels(ck, cm, squareSize);
      ScaledCancels(rk, rm, squareSize);
      DivModDetermine(k, m, PatternCols);
      assert false;
    }
  }

  lemma ScaledCancels(u: int, v: int, s: real)
    requires Scaled(u, s) == Scaled(v, s) && s != 0.0
    ensures u == v
  {
    assert (u as real - v as real) * s == 0.0;
  }

  lemma DivModDetermine(k: nat, m: nat, d: nat)
    requires d > 0 && k % d == m % d && k / d == m / d
    ensures k == m
  {
    assert k == (k / d) * d + k % d;
    assert m == (m / d) * d + m % d;
  }

  /** An image as far as the bookkeeping is concerned: its size. */
  datatype Image = Image(width: nat, height: nat)

  /** What `processImage` returns for a board: the detected corners and the
      object points they correspond to. */
  datatype Board = Board(corners: seq<(real, real)>, pattern: seq<Point3>)

  /** `os.path.join(dir, file)` for a file name: an absolute file name
      replaces the directory, an empty directory or one ending in a separator
      is used as it is, otherwise a separator is inserted. */
  function Join(dir: string, file: string): (r: string)
    ensures |file| > 0 && file[0] == '/' ==> r == file
    ensures !(|file| > 0 && file[0] == '/') ==> |file| <= |r| && r[|r| - |file|..] == file
    ensures !(|file| > 0 && file[0] == '/') && dir != [] ==> dir <= r
  {
    if |file| > 0 && file[0] == '/' then file
    else if dir == [] || dir[|dir| - 1] == '/' then dir + file
    else dir + "/" + file
  }

  const ChessSuffix := "_chess.png"
  const UndistortedSuffix := "_undistorted.png"

  /** The debug image of the detected corners for the image named `name`
      (the file name without directory and extension). */
  function ChessFile(debugDir: string, name: string): string
  {
    Join(debugDir, name + ChessSuffix)
  }

  function UndistortedFile(debugDir: string, name: string): string
  {
    Join(debugDir, name + UndistortedSuffix)
  }

  /** One input image: the file name and the `name` part `splitfn` yields. */
  datatype ImageFile = ImageFile(path: string, name: string)

  /** `processImage`'s outcome: its value (or the exception it raises) and
      the debug file it writes, if any. */
  datatype Processed = Processed(result: Result<Option<Board>>, written: Option<string>)

  /** `processImage(fn)` with the image load, the corner detection and the
      reference size `(w, h)` as inputs: `loaded` is what `cv.imread` gave
      and `detected` the refined corners when the board was found. */
  function ProcessImage(file: ImageFile, loaded: Option<Image>, w: nat, h: nat,
                        detected: Option<seq<(real, real)>>, debugDir: string,
                        pattern: seq<Point3>): (p: Processed)
    ensures loaded.None? ==> p == Processed(Ok(None), None)
    ensures loaded.Some? && (loaded.value.width != w || loaded.value.height != h) ==>
              p.result.Err? && p.written.None?
    ensures p.result.Err? <==> loaded.Some? && (loaded.value.width != w || loaded.value.height != h)
    ensures p.result.Err? ==> p.result.message == "AssertionError"
    ensures p.written.Some? <==> loaded == Some(Image(w, h)) && debugDir != []
    ensures p.written.Some? ==> p.written.value == ChessFile(debugDir, file.name)
    ensures p.result.Ok? && p.result.value.Some? <==> loaded == Some(Image(w, h)) && detected.Some?
    ensures p.result.Ok? && p.result.value.Some? ==>
              p.result.value.value == Board(detected.value, pattern)
  {
    if loaded.None? then Processed(Ok(None), None)
    else if loaded.value.width != w || loaded.value.height != h then Processed(Err("AssertionError"), None)
    else
      var written := if debugDir != [] then Some(ChessFile(debugDir, file.name)) else None;
      if detected.None? then Processed(Ok(None), written)
      else Processed(Ok(Some(Board(detected.value, pattern))), written)
  }

  /** The outcomes of `processImage` over the images in order; the list
      comprehension stops at the first exception and raises it. */
  function ProcessAll(outcomes: seq<Processed>): (r: Result<seq<Option<Board>>>)
    ensures r.Err? <==> exists i :: 0 <= i < |outcomes| && outcomes[i].result.Err?
    ensures r.Err? ==> exists i :: 0 <= i < |outcomes| && outcomes[i].result.Err? &&
                                   r.message == outcomes[i].result.message &&
                                   forall j :: 0 <= j < i ==> outcomes[j].result.Ok?
    ensures r.Ok? ==> |r.value| == |outcomes| &&
                      forall i :: 0 <= i < |outcomes| ==> r.value[i] == outcomes[i].result.value
  {
    if |outcomes| == 0 then Ok([])
    else if outcomes[0].result.Err? then Err(outcomes[0].result.message)
    else match ProcessAll(outcomes[1..])
         case Err(m) =>
           ghost var i :| 0 <= i < |outcomes[1..]| && outcomes[1..][i].result.Err? &&
                          m == outcomes[1..][i].result.message &&
                          forall j :: 0 <= j < i ==> outcomes[1..][j].result.Ok?;
           assert outcomes[i + 1] == outcomes[1..][i];
           assert forall j :: 1 <= j < i + 1 ==> outcomes[j] == outcomes[1..][j - 1];
           Err(m)
         case Ok(rest) => Ok([outcomes[0].result.value] + rest)
  }

  /** The filter and the unzip of `get_chessboard_info`: the boards that were
      found, split into image points and object points. */
  method GetChessboardInfo(chessboards: seq<Option<Board>>)
    returns (imgPoints: seq<seq<(real, real)>>, objPoints: seq<seq<Point3>>)
    ensures |imgPoints| == |objPoints| == |Present(chessboards)|
    ensures forall i :: 0 <= i < |imgPoints| ==>
              Board(imgPoints[i], objPoints[i]) == Present(chessboards)[i]
  {
    var found := Present(chessboards);
    imgPoints, objPoints := [], [];
    var i := 0;
    while i < |found|
      invariant 0 <= i <= |found|
      invariant |imgPoints| == |objPoints| == i
      invariant forall j :: 0 <= j < i ==> Board(imgPoints[j], objPoints[j]) == found[j]
    {
      imgPoints := imgPoints + [found[i].corners];
      objPoints := objPoints + [found[i].pattern];
      i := i + 1;
    }
  }

  /** The boards kept are exactly the successful ones, and they keep the
      order of the images: a board from an earlier image comes first. */
  lemma {:induction false} PresentKeepsOrder<F>(xs: seq<Option<F>>, i: nat, j: nat)
    requires i < j < |xs| && xs[i].Some? && xs[j].Some?
    ensures exists a, b :: 0 <= a < b < |Present(xs)| &&
                           Present(xs)[a] == xs[i].value && Present(xs)[b] == xs[j].value
    decreases |xs|
  {
    var head := if xs[0].Some? then [xs[0].value] else [];
    assert Present(xs) == head + Present(xs[1..]);
    if i == 0 {
      assert xs[1..][j - 1] == xs[j];
      var b' :| 0 <= b' < |Present(xs[1..])| && Present(xs[1..])[b'] == xs[j].value by {
        assert xs[j].value in Present(xs[1..]);
      }
      assert Present(xs)[0] == xs[i].value && Present(xs)[b' + 1] == xs[j].value;
    } else {
      assert xs[1..][i - 1] == xs[i] && xs[1..][j - 1] == xs[j];
      PresentKeepsOrder(xs[1..], i - 1, j - 1);
      var a', b' :| 0 <= a' < b' < |Present(xs[1..])| &&
                    Present(xs[1..])[a'] == xs[i].value && Present(xs[1..])[b'] == xs[j].value;
      assert Present(xs)[|head| + a'] == xs[i].value && Present(xs)[|head| + b'] == xs[j].value;
    }
  }

  /** The rank of a found board: the board of image `i` sits in the kept
      list right after the boards of the images before it. Together with
      `PresentCount` this fixes the kept list to the found boards in image
      order. */
  lemma {:induction false} PresentRank<F>(xs: seq<Option<F>>, i: nat)
    requires i < |xs| && xs[i].Some?
    ensures CountPresent(xs[..i]) < |Present(xs)|
    ensures Present(xs)[CountPresent(xs[..i])] == xs[i].value
    decreases |xs|
  {
    var head := if xs[0].Some? then [xs[0].value] else [];
    assert Present(xs) == head + Present(xs[1..]);
    if i == 0 {
      assert xs[..0] == [];
    } else {
      assert xs[1..][i - 1] == xs[i];
      PresentRank(xs[1..], i - 1);
      assert xs[..i][1..] == xs[1..][..i - 1];
      assert CountPresent(xs[..i]) == |head| + CountPresent(xs[1..][..i - 1]);
    }
  }

  /** Number of present entries. */
  function CountPresent<F>(xs: seq<Option<F>>): nat
  {
    if |xs| == 0 then 0 else (if xs[0].Some? then 1 else 0) + CountPresent(xs[1..])
  }

  /** As many boards are kept as images succeeded. */
  lemma {:induction false} PresentCount<F>(xs: seq<Option<F>>)
    ensures |Present(xs)| == CountPresent(xs)
  {
    if |xs| > 0 {
      PresentCount(xs[1..]);
    }
  }

  /** A value of the configuration file. */
  datatype YamlValue = Float(r: real) | Other(text: string)

  const KeyFx := "Camera.fx"
  const KeyFy := "Camera.fy"
  const KeyCx := "Camera.cx"
  const KeyCy := "Camera.cy"
  const KeyK1 := "Camera.k1"
  const KeyK2 := "Camera.k2"
  const KeyP1 := "Camera.p1"
  const KeyP2 := "Camera.p2"
  const KeyK3 := "Camera.k3"

  /** The intrinsics and distortion coefficients ORB-SLAM reads. */
  datatype Intrinsics = Intrinsics(fx: real, fy: real, cx: real, cy: real,
                                   k1: real, k2: real, p1: real, p2: real, k3: real)

  /** The indexing `write_yaml_config` performs succeeds: a camera matrix
      with two rows of at least three columns and at least five distortion
      coefficients. */
  predicate Indexable(k: seq<seq<real>>, dist: seq<real>)
  {
    |k| >= 2 && |k[0]| >= 3 && |k[1]| >= 3 && |dist| >= 5
  }

  /** The parameters set by `write_yaml_config`, read off the camera matrix
      `k` and the distortion vector `dist`. */
  function IntrinsicsOf(k: seq<seq<real>>, dist: seq<real>): (r: Intrinsics)
    requires Indexable(k, dist)
  {
    Intrinsics(k[0][0], k[1][1], k[0][2], k[1][2], dist[0], dist[1], dist[2], dist[3], dist[4])
  }

  /** `write_yaml_config` on the loaded template: nine camera fields set,
      every other template entry kept. An index outside the matrix or the
      vector raises. */
  function WriteYamlConfig(template: map<string, YamlValue>, k: seq<seq<real>>, dist: seq<real>)
    : (r: Result<map<string, YamlValue>>)
    ensures r.Ok? <==> Indexable(k, dist)
    ensures r.Ok? ==> r.value.Keys == template.Keys + {KeyFx, KeyFy, KeyCx, KeyCy, KeyK1, KeyK2, KeyP1, KeyP2, KeyK3}
    ensures r.Ok? ==> forall key :: key in template && key !in {KeyFx, KeyFy, KeyCx, KeyCy, KeyK1, KeyK2, KeyP1, KeyP2, KeyK3} ==>
                        r.value[key] == template[key]
  {
    if !Indexable(k, dist) then Err("IndexError")
    else Ok(template[KeyFx := Float(k[0][0])][KeyFy := Float(k[1][1])]
                    [KeyCx := Float(k[0][2])][KeyCy := Float(k[1][2])]
                    [KeyK1 := Float(dist[0])][KeyK2 := Float(dist[1])]
                    [KeyP1 := Float(dist[2])][KeyP2 := Float(dist[3])]
                    [KeyK3 := Float(dist[4])])
  }

  /** What a reader of the configuration file recovers. */
  function ReadIntrinsics(cfg: map<string, YamlValue>): (r: Option<Intrinsics>)
  {
    if && KeyFx in cfg && cfg[KeyFx].Float? && KeyFy in cfg && cfg[KeyFy].Float?
       && KeyCx in cfg && cfg[KeyCx].Float? && KeyCy in cfg && cfg[KeyCy].Float?
       && KeyK1 in cfg && cfg[KeyK1].Float? && KeyK2 in cfg && cfg[KeyK2].Float?
       && KeyP1 in cfg && cfg[KeyP1].Float? && KeyP2 in cfg && cfg[KeyP2].Float?
       && KeyK3 in cfg && cfg[KeyK3].Float?
    then Some(Intrinsics(cfg[KeyFx].r, cfg[KeyFy].r, cfg[KeyCx].r, cfg[KeyCy].r,
                         cfg[KeyK1].r, cfg[KeyK2].r, cfg[KeyP1].r, cfg[KeyP2].r, cfg[KeyK3].r))
    else None
  }

  /** Reading the written file back gives `fx = K[0][0]`, `fy = K[1][1]`,
      `cx = K[0][2]`, `cy = K[1][2]` and `k1, k2, p1, p2, k3` the five
      distortion coefficients in order, whatever the template held. */
  lemma WrittenConfigReadsBack(template: map<string, YamlValue>, k: seq<seq<real>>, dist: seq<real>)
    requires Indexable(k, dist)
    ensures ReadIntrinsics(WriteYamlConfig(template, k, dist).value) == Some(IntrinsicsOf(k, dist))
  {
    KeysDistinct();
  }

  /** The nine field names are pairwise different. */
  lemma KeysDistinct()
    ensures KeyFx != KeyFy && KeyFx != KeyCx && KeyFx != KeyCy && KeyFx != KeyK1 && KeyFx != KeyK2 && KeyFx != KeyP1 && KeyFx != KeyP2 && KeyFx != KeyK3
    ensures KeyFy != KeyCx && KeyFy != KeyCy && KeyFy != KeyK1 && KeyFy != KeyK2 && KeyFy != KeyP1 && KeyFy != KeyP2 && KeyFy != KeyK3
    ensures KeyCx != KeyCy && KeyCx != KeyK1 && KeyCx != KeyK2 && KeyCx != KeyP1 && KeyCx != KeyP2 && KeyCx != KeyK3
    ensures KeyCy != KeyK1 && KeyCy != KeyK2 && KeyCy != KeyP1 && KeyCy != KeyP2 && KeyCy != KeyK3
    ensures KeyK1 != KeyK2 && KeyK1 != KeyP1 && KeyK1 != KeyP2 && KeyK1 != KeyK3
    ensures KeyK2 != KeyP1 && KeyK2 != KeyP2 && KeyK2 != KeyK3
    ensures KeyP1 != KeyP2 && KeyP1 != KeyK3
    ensures KeyP2 != KeyK3
  {
    assert KeyFx[7] == 'f' && KeyFy[7] == 'f' && KeyCx[7] == 'c' && KeyCy[7] == 'c';
    assert KeyK1[7] == 'k' && KeyK2[7] == 'k' && KeyP1[7] == 'p' && KeyP2[7] == 'p' && KeyK3[7] == 'k';
    assert KeyFx[8] == 'x' && KeyFy[8] == 'y' && KeyCx[8] == 'x' && KeyCy[8] == 'y';
    assert KeyK1[8] == '1' && KeyK2[8] == '2' && KeyP1[8] == '1' && KeyP2[8] == '2' && KeyK3[8] == '3';
  }

  /** An option value: what `getopt` hands back is text; the defaults put
      in by `setdefault` keep their Python types. */
  datatype Arg = Str(s: string) | Real(r: real) | Int(i: int)

  /** `dict(opts)`: the options in order, a later occurrence of a key
      replacing an earlier one. */
  function OptionDict(opts: seq<(string, string)>): (r: map<string, string>)
    ensures opts != [] ==> opts[|opts| - 1].0 in r && r[opts[|opts| - 1].0] == opts[|opts| - 1].1
    decreases |opts|
  {
    if |opts| == 0 then map[]
    else OptionDict(opts[..|opts| - 1])[opts[|opts| - 1].0 := opts[|opts| - 1].1]
  }

  /** An option is in the dictionary exactly when it was given, and its
      value is the one of its last occurrence. */
  lemma {:induction false} OptionDictLastWins(opts: seq<(string, string)>)
    ensures forall key :: key in OptionDict(opts) <==> exists i :: 0 <= i < |opts| && opts[i].0 == key
    ensures forall i :: 0 <= i < |opts| && (forall j :: i < j < |opts| ==> opts[j].0 != opts[i].0) ==>
              opts[i].0 in OptionDict(opts) && OptionDict(opts)[opts[i].0] == opts[i].1
    decreases |opts|
  {
    if |opts| > 0 {
      var n := |opts|;
      var init, last := opts[..n - 1], opts[n - 1];
      OptionDictLastWins(init);
      assert OptionDict(opts) == OptionDict(init)[last.0 := last.1];
      forall key ensures key in OptionDict(opts) <==> exists i :: 0 <= i < n && opts[i].0 == key {
        if key == last.0 {
          assert opts[n - 1].0 == key;
        } else {
          if key in OptionDict(init) {
            var i :| 0 <= i < |init| && init[i].0 == key;
            assert opts[i].0 == key;
          }
          if exists i :: 0 <= i < n && opts[i].0 == key {
            var i :| 0 <= i < n && opts[i].0 == key;
            assert init[i].0 == key;
          }
        }
      }
      forall i | 0 <= i < n && (forall j :: i < j < n ==> opts[j].0 != opts[i].0)
        ensures opts[i].0 in OptionDict(opts) && OptionDict(opts)[opts[i].0] == opts[i].1
      {
        if i < n - 1 {
          assert opts[n - 1].0 != opts[i].0;
          assert init[i] == opts[i];
          forall j | i < j < |init| ensures init[j].0 != init[i].0 {
            assert init[j] == opts[j];
          }
        }
      }
    }
  }

  /** `args` after the three `setdefault` calls. */
  function WithDefaults(given: map<string, string>): (r: map<string, Arg>)
    ensures r.Keys == given.Keys + {"--debug", "--square_size", "--threads"}
    ensures forall key :: key in given ==> r[key] == Str(given[key])
    ensures "--debug" !in given ==> r["--debug"] == Str("./output/")
    ensures "--square_size" !in given ==> r["--square_size"] == Real(1.0)
    ensures "--threads" !in given ==> r["--threads"] == Int(4)
  {
    var args := map key | key in given :: Str(given[key]);
    var args := if "--debug" in args then args else args["--debug" := Str("./output/")];
    var args := if "--square_size" in args then args else args["--square_size" := Real(1.0)];
    if "--threads" in args then args else args["--threads" := Int(4)]
  }

  /** The image mask: the first positional argument, else the default. */
  function ImageMask(positional: seq<string>): (r: string)
    ensures positional == [] ==> r == "./calib_images/*.bmp"
    ensures positional != [] ==> r == positional[0]
  {
    if positional == [] then "./calib_images/*.bmp" else positional[0]
  }

  /** The undistortion pass: for each image (only when a debug directory is
      set) the chess image is loaded, and when it loads the undistorted
      image is written. `loads` is the set of files `cv.imread` can read.
      The result lists the files written, in order. */
  function UndistortOutputs(debugDir: string, files: seq<ImageFile>, loads: set<string>): (r: seq<string>)
    ensures debugDir == [] ==> r == []
    ensures |r| <= |files|
  {
    if debugDir == [] || |files| == 0 then []
    else
      var head := if ChessFile(debugDir, files[0].name) in loads
                  then [UndistortedFile(debugDir, files[0].name)] else [];
      head + UndistortOutputs(debugDir, files[1..], loads)
  }

  /** The undistorted images of the inputs marked in `wrote`, in order. */
  function UndistortedOf(debugDir: string, files: seq<ImageFile>, wrote: seq<bool>): (r: seq<string>)
    requires |wrote| == |files|
  {
    if |files| == 0 then []
    else (if wrote[0] then [UndistortedFile(debugDir, files[0].name)] else [])
         + UndistortedOf(debugDir, files[1..], wrote[1..])
  }

  /** The undistortion pass writes the undistorted image of exactly those
      inputs whose chess image loads. */
  lemma {:induction false} UndistortMatches(debugDir: string, files: seq<ImageFile>, loads: set<string>, wrote: seq<bool>)
    requires debugDir != [] && |wrote| == |files|
    requires forall i :: 0 <= i < |files| ==> (ChessFile(debugDir, files[i].name) in loads <==> wrote[i])
    ensures UndistortOutputs(debugDir, files, loads) == UndistortedOf(debugDir, files, wrote)
  {
    if |files| > 0 {
      assert ChessFile(debugDir, files[0].name) in loads <==> wrote[0];
      forall i | 0 <= i < |files| - 1
        ensures ChessFile(debugDir, files[1..][i].name) in loads <==> wrote[1..][i]
      {
        assert files[1..][i] == files[i + 1] && wrote[1..][i] == wrote[i + 1];
      }
      UndistortMatches(debugDir, files[1..], loads, wrote[1..]);
    }
  }

  /** A file name produced by `splitfn`: it has no directory part. */
  predicate PlainName(name: string)
  {
    forall i :: 0 <= i < |name| ==> name[i] != '/'
  }

  /** Different plain names give different debug files in the same
      directory. */
  lemma ChessFileInjective(debugDir: string, n1: string, n2: string)
    requires PlainName(n1) && PlainName(n2)
    requires ChessFile(debugDir, n1) == ChessFile(debugDir, n2)
    ensures n1 == n2
  {
    var f1, f2 := n1 + ChessSuffix, n2 + ChessSuffix;
    assert f1[0] != '/' by { if |n1| > 0 { assert f1[0] == n1[0]; } else { assert f1[0] == '_'; } }
    assert f2[0] != '/' by { if |n2| > 0 { assert f2[0] == n2[0]; } else { assert f2[0] == '_'; } }
    var pre := if debugDir == [] || debugDir[|debugDir| - 1] == '/' then debugDir else debugDir + "/";
    assert ChessFile(debugDir, n1) == pre + f1;
    assert ChessFile(debugDir, n2) == pre + f2;
    assert f1 == (pre + f1)[|pre|..];
    assert f2 == (pre + f2)[|pre|..];
    assert n1 == f1[..|f1| - |ChessSuffix|];
    assert n2 == f2[..|f2| - |ChessSuffix|];
  }

  /** The files the processing pass wrote. */
  function WrittenFiles(processed: seq<Processed>): (r: set<string>)
    ensures forall i :: 0 <= i < |processed| && processed[i].written.Some? ==> processed[i].written.value in r
    ensures forall f :: f in r ==> exists i :: 0 <= i < |processed| && processed[i].written == Some(f)
  {
    set i | 0 <= i < |processed| && processed[i].written.Some? :: processed[i].written.value
  }

  /** With a debug directory set and the inputs' names all different, the
      undistortion pass, which can load only the chess images the processing
      pass wrote, writes an undistorted image for exactly the inputs whose
      processing wrote a chess image: every image that loaded with the right
      size, whether or not its board was found. */
  lemma UndistortFollowsChessFiles(debugDir: string, files: seq<ImageFile>, processed: seq<Processed>)
    requires debugDir != [] && |processed| == |files|
    requires forall i :: 0 <= i < |files| ==> PlainName(files[i].name)
    requires forall i, j :: 0 <= i < j < |files| ==> files[i].name != files[j].name
    requires forall i :: 0 <= i < |files| && processed[i].written.Some? ==>
               processed[i].written.value == ChessFile(debugDir, files[i].name)
    ensures UndistortOutputs(debugDir, files, WrittenFiles(processed)) ==
            UndistortedOf(debugDir, files, seq(|files|, i requires 0 <= i < |files| => processed[i].written.Some?))
  {
    var loads := WrittenFiles(processed);
    var wrote := seq(|files|, i requires 0 <= i < |files| => processed[i].written.Some?);
    forall i | 0 <= i < |files| ensures ChessFile(debugDir, files[i].name) in loads <==> wrote[i] {
      if ChessFile(debugDir, files[i].name) in loads {
        var j :| 0 <= j < |processed| && processed[j].written == Some(ChessFile(debugDir, files[i].name));
        ChessFileInjective(debugDir, files[j].name, files[i].name);
        assert i == j;
      }
    }
    UndistortMatches(debugDir, files, loads, wrote);
  }

  /** An image's chess file and undistorted file never coincide: the fifth
      character from the end is the 's' of "_chess.png" in one and the 'd'
      of "_undistorted.png" in the other. */
  lemma ChessAndUndistortedDiffer(debugDir: string, name: string)
    ensures ChessFile(debugDir, name) != UndistortedFile(debugDir, name)
  {
    var c, u := ChessFile(debugDir, name), UndistortedFile(debugDir, name);
    var fc, fu := name + ChessSuffix, name + UndistortedSuffix;
    assert c[|c| - |fc|..] == fc;
    assert u[|u| - |fu|..] == fu;
    assert c[|c| - 5] == fc[|fc| - 5] == 's';
    assert u[|u| - 5] == fu[|fu| - 5] == 'd';
  }

  /** Two inputs with the same name, say `a/x.bmp` and `b/x.bmp`, share one
      chess file: when only the first wrote it, the undistortion pass still
      writes an output for both, where the per-image correspondence gives
      one. */
  lemma DuplicateNamesBreakCorrespondence()
    ensures var files := [ImageFile("a/x.bmp", "x"), ImageFile("b/x.bmp", "x")];
            var processed := [Processed(Ok(None), Some(ChessFile("out", "x"))), Processed(Ok(None), None)];
            && UndistortOutputs("out", files, WrittenFiles(processed)) ==
               [UndistortedFile("out", "x"), UndistortedFile("out", "x")]
            && UndistortedOf("out", files, [true, false]) == [UndistortedFile("out", "x")]
  {
    var files := [ImageFile("a/x.bmp", "x"), ImageFile("b/x.bmp", "x")];
    var processed := [Processed(Ok(None), Some(ChessFile("out", "x"))), Processed(Ok(None), None)];
    assert processed[0].written == Some(ChessFile("out", "x"));
    assert ChessFile("out", "x") in WrittenFiles(processed);
    assert files[1..] == [ImageFile("b/x.bmp", "x")];
    assert files[1..][1..] == [];
  }

  /** The debug directory is not cleared: a chess file left by an earlier
      run makes the undistortion pass write an output for an image that
      did not load this time. */
  lemma StaleChessFileGivesOutput()
    ensures var files := [ImageFile("x.bmp", "x")];
            var processed := [Processed(Ok(None), None)];
            && WrittenFiles(processed) == {}
            && UndistortOutputs("out", files, {ChessFile("out", "x")}) == [UndistortedFile("out", "x")]
            && UndistortedOf("out", files, [false]) == []
  {
    var files := [ImageFile("x.bmp", "x")];
    assert files[1..] == [];
  }
}

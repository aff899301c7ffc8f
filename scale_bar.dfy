/** The checks, geometry and file naming of add_scale_bar_cm30.py, which burns
    a 200 µm scale bar into 1280 x 960 images from an Olympus CM30 incubation
    monitor, for one file or for every file of a directory. */
module ScaleBar {

  import opened Wrappers
  import opened Strings

  /** Whether the "200 μm" text is drawn above the bar. */
  const DisplayScaleNumber: bool := true

  /** Calibration: 200 µm span 90 pixels. */
  const ScalePixels200um: int := 90
  const BarXOffset: int := 30
  const BarYOffset: int := 45
  const BarThickness: int := 15

  /** The only image size accepted: `image.shape[0]` rows by `image.shape[1]` columns. */
  const RequiredRows: nat := 960
  const RequiredCols: nat := 1280

  /** The file name endings accepted, compared after lower-casing. */
  const SupportedExtensions: set<string> := {".tif", ".png", ".jpg"}

  /** The marker `process_directory` uses to recognise its own outputs. */
  const ScaledMarker: string := "_scaled"

  /** The rows and columns of a decoded image (`image.shape[:2]`). */
  datatype Shape = Shape(rows: nat, cols: nat)

  /** A filled rectangle from (left, top) to (right, bottom), as given to `cv2.rectangle`. */
  datatype Rect = Rect(left: int, top: int, right: int, bottom: int)

  /** What `add_scale_bar` draws and where it saves the result. */
  datatype ScaleBarJob = ScaleBarJob(bar: Rect, caption: string, outputPath: string)

  /** Why `add_scale_bar` returned early without writing anything. */
  datatype Rejection = NotFound | UnsupportedExtension | WrongSize

  /** The extension check: the lower-cased path ends in ".tif", ".png" or ".jpg". */
  predicate HasSupportedExtension(path: string)
  {
    EndsWith(Lower(path), ".tif") || EndsWith(Lower(path), ".png") || EndsWith(Lower(path), ".jpg")
  }

  /** The extension check looks only at the last four characters: a path passes
      exactly when they, lower-cased, are one of the three extensions. */
  lemma SupportedExtensionIsLastFour(path: string)
    ensures HasSupportedExtension(path) <==>
      |path| >= 4 && Lower(path[|path| - 4..]) in SupportedExtensions
  {
    if |path| >= 4 {
      LowerSuffix(path, |path| - 4);
    }
  }

  /** Any capitalisation of an accepted extension is accepted. */
  lemma AnyCaseAccepted(stem: string, ext: string)
    requires |ext| == 4 && Lower(ext) in SupportedExtensions
    ensures HasSupportedExtension(stem + ext)
  {
    SupportedExtensionIsLastFour(stem + ext);
    assert (stem + ext)[|stem + ext| - 4..] == ext;
  }

  /** ".jpeg", in any capitalisation, is not among the accepted extensions. */
  lemma JpegRejected(stem: string, ext: string)
    requires |ext| == 5 && Lower(ext) == ".jpeg"
    ensures !HasSupportedExtension(stem + ext)
  {
    var p := stem + ext;
    SupportedExtensionIsLastFour(p);
    var last := p[|p| - 4..];
    assert last == ext[1..];
    assert Lower(last)[0] == Lower(ext)[1] == 'j';
  }

  /** The scale bar's rectangle: its top-left corner 90 + 30 pixels left of the
      right edge and 45 pixels above the bottom edge; its corners 90 apart
      horizontally and 15 vertically. */
  function BarRect(shape: Shape): (r: Rect)
    ensures r.right - r.left == ScalePixels200um && r.bottom - r.top == BarThickness
    ensures r.right == shape.cols - BarXOffset && r.bottom == shape.rows - BarYOffset + BarThickness
  {
    var left := shape.cols - ScalePixels200um - BarXOffset;
    var top := shape.rows - BarYOffset;
    Rect(left, top, left + ScalePixels200um, top + BarThickness)
  }

  /** The text drawn above the bar. */
  function BarLabel(displayNumber: bool): (text: string)
    ensures displayNumber ==> text == "200 \U{03BC}m"
    ensures !displayNumber ==> text == ""
  {
    if displayNumber then "200 \U{03BC}m" else ""
  }

  /** The output path: the input without its last four characters, then
      "_scaled.png" (Python's `path[:-4]` is empty for shorter paths). */
  function ScaledOutputPath(path: string): string
  {
    (if |path| >= 4 then path[..|path| - 4] else []) + ScaledMarker + ".png"
  }

  /** For an accepted input, the output path replaces exactly the extension. */
  lemma OutputReplacesExtension(stem: string, ext: string)
    requires |ext| == 4 && Lower(ext) in SupportedExtensions
    ensures ScaledOutputPath(stem + ext) == stem + "_scaled.png"
    ensures HasSupportedExtension(stem + ext)
  {
    assert (stem + ext)[..|stem + ext| - 4] == stem;
    AnyCaseAccepted(stem, ext);
  }

  /** Every output path carries the marker that makes `process_directory` skip it. */
  lemma OutputIsMarked(path: string)
    ensures Contains(ScaledOutputPath(path), ScaledMarker)
  {
    var prefix := if |path| >= 4 then path[..|path| - 4] else [];
    assert ScaledOutputPath(path) == prefix + ScaledMarker + ".png";
    ContainsInfix(prefix, ScaledMarker, ".png");
  }

  /** `add_scale_bar(path)`, given whether the path exists and what `cv2.imread`
      returned. The checks run in the source's order: existence, extension,
      then a decoded image of exactly 960 rows and 1280 columns. */
  function AddScaleBar(path: string, present: bool, decoded: Option<Shape>): (r: Result<ScaleBarJob, Rejection>)
    ensures !present ==> r == Err(NotFound)
    ensures present && !HasSupportedExtension(path) ==> r == Err(UnsupportedExtension)
    ensures present && HasSupportedExtension(path) && decoded != Some(Shape(RequiredRows, RequiredCols))
      ==> r == Err(WrongSize)
    ensures r.Ok? <==> present && HasSupportedExtension(path) && decoded == Some(Shape(RequiredRows, RequiredCols))
    ensures r.Ok? ==>
      && r.value.bar == Rect(1160, 915, 1250, 930)
      && 0 <= r.value.bar.left < r.value.bar.right <= RequiredCols
      && 0 <= r.value.bar.top < r.value.bar.bottom <= RequiredRows
      && r.value.caption == "200 \U{03BC}m"
      && r.value.outputPath == path[..|path| - 4] + "_scaled.png"
  {
    if !present then Err(NotFound)
    else if !HasSupportedExtension(path) then Err(UnsupportedExtension)
    else if decoded.None? || decoded.value.rows != RequiredRows || decoded.value.cols != RequiredCols then Err(WrongSize)
    else
      SupportedExtensionIsLastFour(path);
      Ok(ScaleBarJob(BarRect(decoded.value), BarLabel(DisplayScaleNumber), ScaledOutputPath(path)))
  }

  // ---------------------------------------------------------------------------
  // process_directory

  /** One entry of the directory listing, with what the file system and
      `cv2.imread` report for it. */
  datatype Entry = Entry(path: string, present: bool, decoded: Option<Shape>)

  /** One call of `add_scale_bar` made by `process_directory`, and its result. */
  datatype Run = Run(path: string, result: Result<ScaleBarJob, Rejection>)

  /** `process_directory` leaves out every path containing "_scaled" (the
      whole path, directory included). */
  predicate Skipped(path: string)
  {
    Contains(path, ScaledMarker)
  }

  /** The calls `process_directory` makes for a listing, in listing order. */
  function Plan(entries: seq<Entry>): seq<Run>
    decreases |entries|
  {
    if entries == [] then []
    else
      var e := entries[|entries| - 1];
      Plan(entries[..|entries| - 1])
        + (if Skipped(e.path) then [] else [Run(e.path, AddScaleBar(e.path, e.present, e.decoded))])
  }

  /** `process_directory(directory_path)` over the entries `glob` listed. */
  method ProcessDirectory(entries: seq<Entry>) returns (runs: seq<Run>)
    ensures runs == Plan(entries)
    ensures forall r :: r in runs ==> !Skipped(r.path)
  {
    runs := [];
    for i := 0 to |entries|
      invariant runs == Plan(entries[..i])
    {
      var e := entries[i];
      assert entries[..i + 1][..i] == entries[..i];
      if !Contains(e.path, ScaledMarker) {
        runs := runs + [Run(e.path, AddScaleBar(e.path, e.present, e.decoded))];
      }
    }
    assert entries[..|entries|] == entries;
    PlanRunsExactlyUnskipped(entries);
  }

  /** The calls made are exactly those for the entries without "_scaled" in
      their path, each with that entry's result. */
  lemma {:induction false} PlanRunsExactlyUnskipped(entries: seq<Entry>)
    ensures forall r :: r in Plan(entries) ==>
      && !Skipped(r.path)
      && exists e :: e in entries && r == Run(e.path, AddScaleBar(e.path, e.present, e.decoded))
    ensures forall e :: e in entries && !Skipped(e.path) ==>
      Run(e.path, AddScaleBar(e.path, e.present, e.decoded)) in Plan(entries)
    decreases |entries|
  {
    if entries != [] {
      var init := entries[..|entries| - 1];
      PlanRunsExactlyUnskipped(init);
      assert entries == init + [entries[|entries| - 1]];
      forall e | e in entries && !Skipped(e.path)
        ensures Run(e.path, AddScaleBar(e.path, e.present, e.decoded)) in Plan(entries)
      {
        if e in init {
        } else {
          assert e == entries[|entries| - 1];
        }
      }
    }
  }

  /** Outputs are never processed again: adding to a listing any number of
      files written by this script leaves the calls made unchanged. */
  lemma {:induction false} OutputsNeverReprocessed(entries: seq<Entry>, outputs: seq<Entry>)
    requires forall o :: o in outputs ==> exists p :: o.path == ScaledOutputPath(p)
    ensures Plan(entries + outputs) == Plan(entries)
    decreases |outputs|
  {
    if outputs != [] {
      var last := outputs[|outputs| - 1];
      var init := outputs[..|outputs| - 1];
      assert (entries + outputs)[..|entries + outputs| - 1] == entries + init;
      assert (entries + outputs)[|entries + outputs| - 1] == last;
      var p :| last.path == ScaledOutputPath(p);
      OutputIsMarked(p);
      OutputsNeverReprocessed(entries, init);
    } else {
      assert entries + outputs == entries;
    }
  }
}

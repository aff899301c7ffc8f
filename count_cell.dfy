/** The manual cell-marking session of count_cell.py: the `CellCounter`
    window's state (count, marks, grid flag, image path, decoded image, the
    grid lines on the canvas and the texts of its labels) and the operations
    that change it.

    The transitions are pure functions on a `Session` value; their contracts
    and the lemmas after them state what the tool promises. The class
    `CellCounter` holds the same state in mutable fields and each of its
    methods is proved to perform the corresponding transition. */
module CountCell {

  import opened Wrappers
  import opened Strings
  import opened PosixPath

  /** Spacing of the grid overlay, in image pixels. */
  const GridSpacing: nat := 100

  /** Half the side of the box each marker circle is drawn in. */
  const MarkRadius: nat := 8

  /** A placed marker: the canvas item handle `create_oval` returned for it,
      and the click position (event coordinates, used as they are). */
  datatype Mark = Mark(handle: int, x: int, y: int)

  /** The decoded image, reduced to its size in pixels. */
  datatype Image = Image(width: nat, height: nat)

  /** A canvas line from (x0, y0) to (x1, y1). */
  datatype Line = Line(x0: int, y0: int, x1: int, y1: int)

  /** The bounding box of an ellipse drawn into the exported copy. */
  datatype Box = Box(left: int, top: int, right: int, bottom: int)

  /** The exported copy of the image: its size and the ellipses burned into it. */
  datatype Export = Export(width: nat, height: nat, ellipses: seq<Box>)

  /** A successful save: the path written and what was written there. */
  datatype Saved = Saved(path: string, image: Export)

  /** Why `save_image` wrote nothing. `NoImageBuffer` is the AttributeError the
      source raises when an image path was recorded by a load that failed
      before any image was ever decoded. */
  datatype SaveError = NoImageLoaded | NoImageBuffer | NoCellsMarked

  /** The whole state of one `CellCounter` window.
      - `image` is the decoded image; a canvas exists exactly when one has
        been decoded, since both are created by the same successful load.
      - `gridLines` are the canvas items tagged "grid_line".
      - `countLabel`, `nameLabel`, `saveLabel`, `errorLabel` are the texts of
        the count label, the image-name label, the save-status label and the
        error label (absent until the first error). */
  datatype Session = Session(
    cellCount: nat,
    marks: seq<Mark>,
    showGrid: bool,
    imgPath: Option<string>,
    image: Option<Image>,
    gridLines: seq<Line>,
    countLabel: string,
    nameLabel: string,
    saveLabel: string,
    errorLabel: Option<string>)

  /** The count label's text. */
  function CountLabel(n: nat): string
  {
    "Cell Count: " + NatToString(n)
  }

  /** The error label's text after a failed load; `reason` is the exception's message. */
  function LoadErrorMessage(reason: string): string
  {
    "Error loading image: " + reason
  }

  /** The state right after the window is built: no image, no marks, grid on. */
  function Initial(): (s: Session)
    ensures Consistent(s)
  {
    Session(0, [], true, None, None, [], CountLabel(0), "No image loaded", "", None)
  }

  // ---------------------------------------------------------------------------
  // The grid overlay

  /** The number of values in Python's `range(0, n, GridSpacing)`. */
  function TickCount(n: nat): nat
  {
    (n + GridSpacing - 1) / GridSpacing
  }

  /** One vertical line per value of `range(0, w, 100)`, each spanning the height `h`. */
  function VerticalLines(w: nat, h: nat): (lines: seq<Line>)
  {
    seq(TickCount(w), k => Line(k * GridSpacing, 0, k * GridSpacing, h))
  }

  /** One horizontal line per value of `range(0, h, 100)`, each spanning the width `w`. */
  function HorizontalLines(w: nat, h: nat): (lines: seq<Line>)
  {
    seq(TickCount(h), k => Line(0, k * GridSpacing, w, k * GridSpacing))
  }

  /** The grid drawn over an image: the vertical lines, then the horizontal ones. */
  function GridLines(img: Image): seq<Line>
  {
    VerticalLines(img.width, img.height) + HorizontalLines(img.width, img.height)
  }

  /** A vertical line at `x` is part of the grid exactly when `x` is a multiple
      of 100 inside the image's width. */
  lemma VerticalLineAt(w: nat, h: nat, x: int)
    ensures Line(x, 0, x, h) in VerticalLines(w, h) <==> 0 <= x < w && x % GridSpacing == 0
  {
    var lines := VerticalLines(w, h);
    if 0 <= x < w && x % GridSpacing == 0 {
      var k := x / GridSpacing;
      assert k < TickCount(w);
      assert lines[k] == Line(x, 0, x, h);
    }
    if Line(x, 0, x, h) in lines {
      var k :| 0 <= k < |lines| && lines[k] == Line(x, 0, x, h);
      assert x == k * GridSpacing;
    }
  }

  /** A horizontal line at `y` is part of the grid exactly when `y` is a
      multiple of 100 inside the image's height. */
  lemma HorizontalLineAt(w: nat, h: nat, y: int)
    ensures Line(0, y, w, y) in HorizontalLines(w, h) <==> 0 <= y < h && y % GridSpacing == 0
  {
    var lines := HorizontalLines(w, h);
    if 0 <= y < h && y % GridSpacing == 0 {
      var k := y / GridSpacing;
      assert k < TickCount(h);
      assert lines[k] == Line(0, y, w, y);
    }
    if Line(0, y, w, y) in lines {
      var k :| 0 <= k < |lines| && lines[k] == Line(0, y, w, y);
      assert y == k * GridSpacing;
    }
  }

  /** The grid has ceil(w/100) + ceil(h/100) lines, every one of them inside the image. */
  lemma GridLinesInsideImage(img: Image)
    ensures |GridLines(img)| == TickCount(img.width) + TickCount(img.height)
    ensures forall l :: l in GridLines(img) ==>
      0 <= l.x0 <= l.x1 <= img.width && 0 <= l.y0 <= l.y1 <= img.height
  {
    var v := VerticalLines(img.width, img.height);
    var hz := HorizontalLines(img.width, img.height);
    forall l | l in GridLines(img)
      ensures 0 <= l.x0 <= l.x1 <= img.width && 0 <= l.y0 <= l.y1 <= img.height
    {
      if l in v {
        var k :| 0 <= k < |v| && v[k] == l;
        assert k * GridSpacing < img.width;
      } else {
        assert l in hz;
        var k :| 0 <= k < |hz| && hz[k] == l;
        assert k * GridSpacing < img.height;
      }
    }
  }

  /** One more step of `range(0, ., 100)` adds one vertical line at the end. */
  lemma VerticalLinesGrow(i: nat, h: nat)
    requires i % GridSpacing == 0
    ensures VerticalLines(i + GridSpacing, h) == VerticalLines(i, h) + [Line(i, 0, i, h)]
  {
    assert TickCount(i + GridSpacing) == TickCount(i) + 1;
  }

  /** One more step of `range(0, ., 100)` adds one horizontal line at the end. */
  lemma HorizontalLinesGrow(w: nat, j: nat)
    requires j % GridSpacing == 0
    ensures HorizontalLines(w, j + GridSpacing) == HorizontalLines(w, j) + [Line(0, j, w, j)]
  {
    assert TickCount(j + GridSpacing) == TickCount(j) + 1;
  }

  /** A loop counter stepping by 100 from 0 stops at the first multiple of 100
      not below the bound, having made as many steps as `range(0, n, 100)` has
      values. */
  lemma RangeEnd(i: nat, n: nat)
    requires n <= i < n + GridSpacing && i % GridSpacing == 0
    ensures TickCount(i) == TickCount(n)
    ensures forall h :: VerticalLines(i, h) == VerticalLines(n, h)
    ensures forall w :: HorizontalLines(w, i) == HorizontalLines(w, n)
  {
  }

  /** The grid lines the canvas shows for a flag and an image: all of them when
      the flag is on and there is a canvas, none otherwise. */
  function GridFor(showGrid: bool, image: Option<Image>): seq<Line>
  {
    if showGrid && image.Some? then GridLines(image.value) else []
  }

  // ---------------------------------------------------------------------------
  // The session invariant and the transitions

  /** What holds in every state the window can reach: marks only exist on a
      canvas; with a canvas the count is the number of marks; the grid shown
      is the one the flag asks for; the count label shows the count last
      displayed (which stays 0 until there is a canvas). */
  ghost predicate Consistent(s: Session)
  {
    && (s.image.Some? ==> s.imgPath.Some? && s.cellCount == |s.marks|)
    && (s.image.None? ==> s.marks == [])
    && s.gridLines == GridFor(s.showGrid, s.image)
    && s.countLabel == CountLabel(if s.image.Some? then s.cellCount else 0)
  }

  /** `load_image(path)`, given what decoding the file produced (the image, or
      the message of the exception raised). The path is recorded before
      decoding, so it changes even when decoding fails; everything else
      changes only on success. */
  function LoadStep(s: Session, path: string, decoded: Result<Image, string>): (t: Session)
    ensures t.imgPath == Some(path)
    ensures decoded.Ok? ==>
      && t.image == Some(decoded.value)
      && t.cellCount == 0 && t.marks == []
      && t.countLabel == "Cell Count: 0" && t.saveLabel == ""
      && t.nameLabel == Basename(path)
      && t.showGrid == s.showGrid
      && t.gridLines == GridFor(s.showGrid, t.image)
      && t.errorLabel == s.errorLabel
    ensures decoded.Err? ==>
      t == s.(imgPath := Some(path), errorLabel := Some(LoadErrorMessage(decoded.error)))
    ensures Consistent(s) ==> Consistent(t)
  {
    match decoded
    case Err(reason) =>
      s.(imgPath := Some(path), errorLabel := Some(LoadErrorMessage(reason)))
    case Ok(img) =>
      s.(imgPath := Some(path), image := Some(img), gridLines := GridFor(s.showGrid, Some(img)),
         nameLabel := Basename(path), cellCount := 0, marks := [], countLabel := CountLabel(0),
         saveLabel := "")
  }

  /** `draw_grid()`: with a canvas, removes the grid lines and draws them
      again if the flag is on; without a canvas, does nothing. */
  function DrawGridStep(s: Session): (t: Session)
    ensures t.image.Some? ==> t.gridLines == GridFor(t.showGrid, t.image)
    ensures t.image.None? ==> t == s
    ensures t.(gridLines := s.gridLines) == s
  {
    if s.image.Some? then s.(gridLines := GridFor(s.showGrid, s.image)) else s
  }

  /** A click on the grid checkbox: the checkbox flips the flag, then
      `toggle_grid()` redraws the grid when there is a canvas. */
  function ToggleStep(s: Session): (t: Session)
    ensures t.showGrid == !s.showGrid
    ensures t.(showGrid := s.showGrid, gridLines := s.gridLines) == s
    ensures Consistent(s) ==> Consistent(t)
  {
    DrawGridStep(s.(showGrid := !s.showGrid))
  }

  /** `add_mark(event)` for a click at (x, y) whose circle got the canvas
      handle `handle`. The count always goes up by one; the mark is recorded
      and the label updated only when there is a canvas. */
  function AddMarkStep(s: Session, handle: int, x: int, y: int): (t: Session)
    ensures t.cellCount == s.cellCount + 1
    ensures s.image.Some? ==> t.marks == s.marks + [Mark(handle, x, y)]
    ensures s.image.None? ==> t.marks == s.marks
    ensures s.image.Some? ==> t.countLabel == CountLabel(t.cellCount)
    ensures s.image.None? ==> t.countLabel == s.countLabel
    ensures t.(cellCount := s.cellCount, marks := s.marks, countLabel := s.countLabel) == s
    ensures Consistent(s) ==> Consistent(t)
  {
    if s.image.Some? then
      s.(cellCount := s.cellCount + 1, marks := s.marks + [Mark(handle, x, y)],
         countLabel := CountLabel(s.cellCount + 1))
    else
      s.(cellCount := s.cellCount + 1)
  }

  /** `remove_previous_mark()`: nothing when the count is 0; otherwise the count
      goes down by one and the last mark is removed. (When the count is
      positive but no mark was recorded, `list.pop` raises IndexError after
      the count was decremented; that is the state this returns then.) */
  function UndoStep(s: Session): (t: Session)
    ensures s.cellCount == 0 ==> t == s
    ensures s.cellCount > 0 ==> t.cellCount == s.cellCount - 1
    ensures s.cellCount > 0 && s.marks != [] ==> t.marks == s.marks[..|s.marks| - 1]
    ensures s.cellCount > 0 && s.marks == [] ==> t.marks == [] && t.countLabel == s.countLabel
    ensures s.cellCount > 0 && s.marks != [] && s.image.Some? ==> t.countLabel == CountLabel(t.cellCount)
    ensures s.image.None? ==> t.countLabel == s.countLabel
    ensures t.(cellCount := s.cellCount, marks := s.marks, countLabel := s.countLabel) == s
    ensures Consistent(s) ==> Consistent(t)
  {
    if s.cellCount == 0 then s
    else if s.marks == [] then s.(cellCount := s.cellCount - 1)
    else if s.image.Some? then
      s.(cellCount := s.cellCount - 1, marks := s.marks[..|s.marks| - 1],
         countLabel := CountLabel(s.cellCount - 1))
    else
      s.(cellCount := s.cellCount - 1, marks := s.marks[..|s.marks| - 1])
  }

  // ---------------------------------------------------------------------------
  // Saving

  /** The box a mark's circle is drawn in: (x-8, y-8, x+8, y+8). */
  function MarkBox(m: Mark): Box
  {
    Box(m.x - MarkRadius, m.y - MarkRadius, m.x + MarkRadius, m.y + MarkRadius)
  }

  /** The ellipses burned into the exported copy: one per mark, in mark order,
      each a circle of radius 8 centred on its mark. */
  function ExportEllipses(marks: seq<Mark>): (boxes: seq<Box>)
    ensures |boxes| == |marks|
    ensures forall i :: 0 <= i < |marks| ==>
      && (boxes[i].left + boxes[i].right) / 2 == marks[i].x
      && (boxes[i].top + boxes[i].bottom) / 2 == marks[i].y
      && boxes[i].right - boxes[i].left == 2 * MarkRadius
      && boxes[i].bottom - boxes[i].top == 2 * MarkRadius
  {
    seq(|marks|, i requires 0 <= i < |marks| => MarkBox(marks[i]))
  }

  /** The exported file's name: `<stem>_cell_count_<n><ext>`, where stem and
      extension come from `os.path.splitext` of the image's file name. */
  function SaveName(name: string, n: nat): string
  {
    var (stem, ext) := SplitExt(name);
    stem + "_cell_count_" + NatToString(n) + ext
  }

  /** The exported file's path: `SaveName` joined to the image's folder. */
  function SavePath(imgPath: string, n: nat): string
  {
    var (folder, name) := Split(imgPath);
    Join(folder, SaveName(name, n))
  }

  /** What `save_image()` produces, checking in the source's order: an image
      path must have been recorded, an image must have been decoded, and
      there must be at least one mark. Grid state plays no part. */
  function SaveResult(s: Session): (r: Result<Saved, SaveError>)
    ensures s.imgPath.None? ==> r == Err(NoImageLoaded)
    ensures s.imgPath.Some? && s.image.None? ==> r == Err(NoImageBuffer)
    ensures s.imgPath.Some? && s.image.Some? && s.marks == [] ==> r == Err(NoCellsMarked)
    ensures r.Ok? <==> s.imgPath.Some? && s.image.Some? && s.marks != []
    ensures r.Ok? ==>
      && r.value.path == SavePath(s.imgPath.value, |s.marks|)
      && r.value.image.width == s.image.value.width
      && r.value.image.height == s.image.value.height
      && r.value.image.ellipses == ExportEllipses(s.marks)
  {
    if s.imgPath.None? then Err(NoImageLoaded)
    else if s.image.None? then Err(NoImageBuffer)
    else if |s.marks| == 0 then Err(NoCellsMarked)
    else
      var img := s.image.value;
      Ok(Saved(SavePath(s.imgPath.value, |s.marks|), Export(img.width, img.height, ExportEllipses(s.marks))))
  }

  /** The window after `save_image()`: the error label shows the reason for a
      refusal, the save label the path written; nothing else changes. */
  function AfterSave(s: Session): (t: Session)
    ensures t.(errorLabel := s.errorLabel, saveLabel := s.saveLabel) == s
    ensures SaveResult(s).Ok? ==> t.saveLabel == "Image saved to:\n" + SaveResult(s).value.path
    ensures SaveResult(s) == Err(NoImageLoaded) ==> t.errorLabel == Some("No image loaded")
    ensures SaveResult(s) == Err(NoCellsMarked) ==> t.errorLabel == Some("No cells marked")
    ensures SaveResult(s) == Err(NoImageBuffer) ==> t == s
    ensures Consistent(s) ==> Consistent(t)
  {
    match SaveResult(s)
    case Err(NoImageLoaded) => s.(errorLabel := Some("No image loaded"))
    case Err(NoImageBuffer) => s
    case Err(NoCellsMarked) => s.(errorLabel := Some("No cells marked"))
    case Ok(saved) => s.(saveLabel := "Image saved to:\n" + saved.path)
  }

  /** The grid never reaches the exported file: saving gives the same result
      whatever the grid flag and the grid lines on the canvas. */
  lemma SaveIgnoresGrid(s: Session, showGrid: bool, lines: seq<Line>)
    ensures SaveResult(s.(showGrid := showGrid, gridLines := lines)) == SaveResult(s)
  {
  }

  /** A failed load keeps the previous image and marks but records the new
      path, so the next save writes the previous image, with its marks,
      under a name made from the path that failed to load. */
  lemma FailedLoadSavesPreviousImage(s: Session, path: string, reason: string)
    requires Consistent(s) && s.image.Some? && s.marks != []
    ensures var t := LoadStep(s, path, Err(reason));
      && SaveResult(t).Ok?
      && SaveResult(t).value.path == SavePath(path, |s.marks|)
      && SaveResult(t).value.image == Export(s.image.value.width, s.image.value.height, ExportEllipses(s.marks))
  {
  }

  // ---------------------------------------------------------------------------
  // Properties of the file-name rule

  /** The saved name splits back into `<stem>_cell_count_<n>` and the image's
      own extension, so the export keeps the original format. */
  lemma SaveNameKeepsExtension(name: string, n: nat)
    requires Sep !in name
    ensures SplitExt(SaveName(name, n)) == (SplitExt(name).0 + "_cell_count_" + NatToString(n), SplitExt(name).1)
  {
    var mid := "_cell_count_" + NatToString(n);
    assert ExtSep !in mid && Sep !in mid;
    var (stem, ext) := SplitExt(name);
    assert SaveName(name, n) == stem + mid + ext;
    assert stem + "_cell_count_" + NatToString(n) == stem + mid;
    if ext == [] {
      assert stem == name;
      assert stem + mid + ext == name + mid;
      SplitExtWithoutExtension(name, mid);
    } else {
      SplitExtWithExtension(name, mid);
    }
  }

  /** Text without '.' or '/' added to a name that has no extension leaves it
      without one. */
  lemma SplitExtWithoutExtension(name: string, mid: string)
    requires Sep !in name && ExtSep !in mid && Sep !in mid
    requires SplitExt(name).1 == []
    ensures SplitExt(name + mid) == (name + mid, [])
  {
    var saved := name + mid;
    RFindIs(name, Sep, -1);
    RFindIs(saved, Sep, -1);
    var dot := RFind(name, ExtSep);
    RFindIs(saved, ExtSep, dot);
    if dot > -1 {
      assert !(exists k :: -1 < k < dot && name[k] != ExtSep);
      assert forall k :: -1 < k < dot ==> saved[k] == name[k];
      assert !(exists k :: -1 < k < dot && saved[k] != ExtSep);
    }
  }

  /** Text without '.' or '/' inserted before a name's extension keeps that
      extension. */
  lemma SplitExtWithExtension(name: string, mid: string)
    requires Sep !in name && ExtSep !in mid && Sep !in mid
    requires SplitExt(name).1 != []
    ensures SplitExt(SplitExt(name).0 + mid + SplitExt(name).1) == (SplitExt(name).0 + mid, SplitExt(name).1)
  {
    var (stem, ext) := SplitExt(name);
    var saved := stem + mid + ext;
    RFindIs(name, Sep, -1);
    assert Sep !in saved by {
      assert forall k :: 0 <= k < |stem| ==> stem[k] == name[k];
    }
    RFindIs(saved, Sep, -1);
    var dot := RFind(name, ExtSep);
    assert dot == |stem|;
    var newDot := |stem| + |mid|;
    assert saved[newDot] == ExtSep;
    assert forall k :: newDot < k < |saved| ==> saved[k] == ext[k - newDot];
    RFindIs(saved, ExtSep, newDot);
    var k :| -1 < k < dot && name[k] != ExtSep;
    assert saved[k] == name[k];
    assert saved[..newDot] == stem + mid;
    assert saved[newDot..] == ext;
  }

  /** The export goes into the image's own folder, under the name `SaveName`. */
  lemma SavePathInSameFolder(imgPath: string, n: nat)
    ensures Split(SavePath(imgPath, n)) == (Split(imgPath).0, SaveName(Split(imgPath).1, n))
  {
    var (folder, name) := Split(imgPath);
    var (stem, ext) := SplitExt(name);
    var saved := SaveName(name, n);
    assert Sep !in stem by {
      assert forall k :: 0 <= k < |stem| ==> stem[k] == name[k];
    }
    assert Sep !in NatToString(n);
    assert Sep !in saved;
    SplitJoin(folder, saved);
  }

  /** The export never overwrites the image it was made from. */
  lemma SavePathDiffersFromImage(imgPath: string, n: nat)
    ensures SavePath(imgPath, n) != imgPath
  {
    SavePathInSameFolder(imgPath, n);
    var name := Split(imgPath).1;
    assert |SaveName(name, n)| > |name|;
  }

  /** Exports of different counts from one image go to different files. */
  lemma SavePathsDistinguishCounts(imgPath: string, m: nat, n: nat)
    requires m != n
    ensures SavePath(imgPath, m) != SavePath(imgPath, n)
  {
    SavePathInSameFolder(imgPath, m);
    SavePathInSameFolder(imgPath, n);
    var name := Split(imgPath).1;
    var (stem, ext) := SplitExt(name);
    var a := SaveName(name, m);
    var b := SaveName(name, n);
    if a == b {
      var p := stem + "_cell_count_";
      assert a == p + NatToString(m) + ext;
      assert b == p + NatToString(n) + ext;
      assert |NatToString(m)| == |NatToString(n)|;
      assert NatToString(m) == a[|p|..|p| + |NatToString(m)|];
      assert NatToString(n) == b[|p|..|p| + |NatToString(n)|];
      NatToStringInjective(m, n);
    }
  }

  /** How `os.path.splitext` splits "photo.png": stem "photo", extension ".png". */
  lemma PhotoPathParts()
    ensures SplitExt("photo.png") == ("photo", ".png")
  {
    var p := "photo.png";
    RFindIs(p, Sep, -1);
    RFindIs(p, ExtSep, 5);
    assert -1 < 0 < 5 && p[0] != ExtSep;
    assert p[..5] == "photo" && p[5..] == ".png";
  }

  /** "photo.png" with one mark gets the name "photo_cell_count_1.png". */
  lemma PhotoSaveName()
    ensures SaveName("photo.png", 1) == "photo_cell_count_1.png"
  {
    PhotoPathParts();
    assert NatToString(1) == "1";
    assert SaveName("photo.png", 1) == "photo" + "_cell_count_" + "1" + ".png";
    PhotoNameSpelled();
  }

  /** The pieces of the name above, spelled out. */
  lemma PhotoNameSpelled()
    ensures "photo" + "_cell_count_" + "1" + ".png" == "photo_cell_count_1.png"
  {
    var name := "photo" + "_cell_count_" + "1" + ".png";
    forall i | 0 <= i < |name| ensures name[i] == "photo_cell_count_1.png"[i] {}
  }

  /** A worked instance of the rule: "photo.png" with one mark is saved as
      "photo_cell_count_1.png" in the same (current) folder. */
  lemma PhotoSavePath()
    ensures SavePath("photo.png", 1) == "photo_cell_count_1.png"
  {
    SplitBareName("photo.png");
    PhotoSaveName();
    assert SavePath("photo.png", 1) == Join("", "photo_cell_count_1.png");
  }

  // ---------------------------------------------------------------------------
  // Sequences of clicks and undos

  /** The session after the clicks `clicks`, in order, each with its handle. */
  function AddAll(s: Session, clicks: seq<Mark>): Session
    decreases |clicks|
  {
    if clicks == [] then s
    else AddAll(AddMarkStep(s, clicks[0].handle, clicks[0].x, clicks[0].y), clicks[1..])
  }

  /** The session after `m` undos. */
  function UndoTimes(s: Session, m: nat): Session
    decreases m
  {
    if m == 0 then s else UndoTimes(UndoStep(s), m - 1)
  }

  /** On a canvas, clicks append their marks in order and keep the invariant. */
  lemma {:induction false} AddAllAppends(s: Session, clicks: seq<Mark>)
    requires Consistent(s) && s.image.Some?
    ensures Consistent(AddAll(s, clicks))
    ensures AddAll(s, clicks).image == s.image
    ensures AddAll(s, clicks).marks == s.marks + clicks
    decreases |clicks|
  {
    if clicks != [] {
      var c := clicks[0];
      var s' := AddMarkStep(s, c.handle, c.x, c.y);
      AddAllAppends(s', clicks[1..]);
      assert s.marks + [c] + clicks[1..] == s.marks + clicks;
    }
  }

  /** Each undo removes the most recent mark: `m` undos drop the last `m`. */
  lemma {:induction false} UndoTimesDropsLast(s: Session, m: nat)
    requires Consistent(s) && s.image.Some? && m <= |s.marks|
    ensures Consistent(UndoTimes(s, m))
    ensures UndoTimes(s, m).image == s.image
    ensures UndoTimes(s, m).marks == s.marks[..|s.marks| - m]
    decreases m
  {
    if m > 0 {
      var s' := UndoStep(s);
      UndoTimesDropsLast(s', m - 1);
      assert s.marks[..|s.marks| - 1][..|s.marks| - 1 - (m - 1)] == s.marks[..|s.marks| - m];
    }
  }

  /** N clicks followed by M <= N undos leave N - M new marks, the first N - M
      clicked, after the marks already there; the count agrees. */
  lemma AddsThenUndos(s: Session, clicks: seq<Mark>, m: nat)
    requires Consistent(s) && s.image.Some? && m <= |clicks|
    ensures UndoTimes(AddAll(s, clicks), m).marks == s.marks + clicks[..|clicks| - m]
    ensures UndoTimes(AddAll(s, clicks), m).cellCount == |s.marks| + |clicks| - m
  {
    AddAllAppends(s, clicks);
    var t := AddAll(s, clicks);
    UndoTimesDropsLast(t, m);
    assert (s.marks + clicks)[..|s.marks| + |clicks| - m] == s.marks + clicks[..|clicks| - m];
  }

  /** Undo never goes below zero: on a canvas, any number of undos on a
      session without marks changes nothing. */
  lemma {:induction false} UndoOnEmptyIsNoOp(s: Session, m: nat)
    requires Consistent(s) && s.image.Some? && s.marks == []
    ensures UndoTimes(s, m) == s
    decreases m
  {
    if m > 0 {
      UndoOnEmptyIsNoOp(UndoStep(s), m - 1);
    }
  }

  /** Clicking the grid checkbox twice restores the session. */
  lemma ToggleTwice(s: Session)
    requires Consistent(s)
    ensures ToggleStep(ToggleStep(s)) == s
  {
  }

  // ---------------------------------------------------------------------------
  // The window object

  /** The `CellCounter` window. Its fields are updated in place by the methods
      below, each proved to perform the transition of the same name above. */
  class CellCounter {
    var cellCount: nat
    var marks: seq<Mark>
    var showGrid: bool
    var imgPath: Option<string>
    var image: Option<Image>
    var gridLines: seq<Line>
    var countLabel: string
    var nameLabel: string
    var saveLabel: string
    var errorLabel: Option<string>

    /** The window's state as a value. */
    function State(): Session
      reads this
    {
      Session(cellCount, marks, showGrid, imgPath, image, gridLines,
              countLabel, nameLabel, saveLabel, errorLabel)
    }

    ghost predicate Valid()
      reads this
    {
      Consistent(State())
    }

    /** `__init__`: no image, no canvas, count 0, grid checkbox ticked. */
    constructor ()
      ensures Valid() && State() == Initial()
    {
      cellCount, marks, showGrid := 0, [], true;
      imgPath, image, gridLines := None, None, [];
      countLabel, nameLabel, saveLabel, errorLabel := CountLabel(0), "No image loaded", "", None;
    }

    /** `load_image(path)`; `decoded` is what reading and converting the file gave. */
    method LoadImage(path: string, decoded: Result<Image, string>)
      requires Valid()
      modifies this
      ensures Valid() && State() == LoadStep(old(State()), path, decoded)
    {
      ghost var s0 := State();
      ghost var t := LoadStep(s0, path, decoded);
      assert Consistent(t);
      imgPath := Some(path);
      match decoded {
        case Err(reason) =>
          errorLabel := Some(LoadErrorMessage(reason));
          assert State() == t;
        case Ok(img) =>
          image := Some(img);
          gridLines := [];  // the old canvas is destroyed, its items with it
          nameLabel := Basename(path);
          cellCount, marks := 0, [];
          countLabel := CountLabel(0);
          saveLabel := "";
          assert State() == t.(gridLines := []);
          if showGrid {
            DrawGrid();
          }
          assert State() == t;
      }
    }

    /** `draw_grid()`: one line per value of `range(0, width, 100)` and of
        `range(0, height, 100)`. */
    method DrawGrid()
      modifies this`gridLines
      ensures State() == DrawGridStep(old(State()))
    {
      if image.Some? {
        gridLines := [];
      }
      if showGrid && image.Some? {
        var w, h := image.value.width, image.value.height;
        var i := 0;
        while i < w
          invariant 0 <= i < w + GridSpacing && i % GridSpacing == 0
          invariant gridLines == VerticalLines(i, h)
        {
          VerticalLinesGrow(i, h);
          gridLines := gridLines + [Line(i, 0, i, h)];
          i := i + GridSpacing;
        }
        RangeEnd(i, w);
        var j := 0;
        while j < h
          invariant 0 <= j < h + GridSpacing && j % GridSpacing == 0
          invariant gridLines == VerticalLines(w, h) + HorizontalLines(w, j)
        {
          HorizontalLinesGrow(w, j);
          gridLines := gridLines + [Line(0, j, w, j)];
          j := j + GridSpacing;
        }
        RangeEnd(j, h);
      }
    }

    /** The grid checkbox: the flag flips, then `toggle_grid()` redraws when
        there is a canvas. */
    method ToggleGrid()
      requires Valid()
      modifies this`showGrid, this`gridLines
      ensures Valid() && State() == ToggleStep(old(State()))
    {
      showGrid := !showGrid;
      if image.Some? {
        DrawGrid();
      }
    }

    /** `add_mark(event)` for a click at (x, y); `handle` is what the canvas's
        `create_oval` returned for the mark's circle. */
    method AddMark(handle: int, x: int, y: int)
      requires Valid()
      modifies this`cellCount, this`marks, this`countLabel
      ensures Valid() && State() == AddMarkStep(old(State()), handle, x, y)
    {
      cellCount := cellCount + 1;
      if image.Some? {
        marks := marks + [Mark(handle, x, y)];
        countLabel := CountLabel(cellCount);
      }
    }

    /** `remove_previous_mark()`. */
    method RemovePreviousMark()
      requires Valid()
      modifies this`cellCount, this`marks, this`countLabel
      ensures Valid() && State() == UndoStep(old(State()))
    {
      if cellCount > 0 {
        cellCount := cellCount - 1;
        if marks == [] {
          return;  // list.pop() raises IndexError here
        }
        marks := marks[..|marks| - 1];
        if image.Some? {
          countLabel := CountLabel(cellCount);
        }
      }
    }

    /** `save_image()`: the outcome, and the labels updated as the source does. */
    method SaveImage() returns (result: Result<Saved, SaveError>)
      requires Valid()
      modifies this`errorLabel, this`saveLabel
      ensures Valid()
      ensures result == SaveResult(old(State())) && State() == AfterSave(old(State()))
    {
      if imgPath.None? {
        errorLabel := Some("No image loaded");
        return Err(NoImageLoaded);
      }
      if image.None? {
        return Err(NoImageBuffer);  // self.image_pil does not exist: AttributeError
      }
      ghost var s0 := State();
      var ellipses := [];
      for i := 0 to |marks|
        invariant ellipses == ExportEllipses(marks[..i])
      {
        assert marks[..i + 1] == marks[..i] + [marks[i]];
        ellipses := ellipses + [MarkBox(marks[i])];
      }
      assert marks[..|marks|] == marks;
      var numCells := |marks|;
      if numCells == 0 {
        errorLabel := Some("No cells marked");
        return Err(NoCellsMarked);
      }
      var path := SavePath(imgPath.value, numCells);
      result := Ok(Saved(path, Export(image.value.width, image.value.height, ellipses)));
      assert result == SaveResult(s0);
      saveLabel := "Image saved to:\n" + path;
    }
  }

  /** The first part of a session: load photo.png (800 x 600), click at
      (100, 100) and (200, 150), undo. One mark remains, the first one. */
  method MarkPhoto() returns (c: CellCounter)
    ensures fresh(c) && c.Valid()
    ensures c.imgPath == Some("photo.png") && c.image == Some(Image(800, 600))
    ensures c.cellCount == 1 && c.marks == [Mark(1, 100, 100)]
  {
    c := new CellCounter();
    c.LoadImage("photo.png", Ok(Image(800, 600)));
    assert c.marks == [] && c.image == Some(Image(800, 600)) && c.imgPath == Some("photo.png");
    c.AddMark(1, 100, 100);
    assert c.marks == [Mark(1, 100, 100)];
    c.AddMark(2, 200, 150);
    assert c.cellCount == 2 && c.marks == [Mark(1, 100, 100), Mark(2, 200, 150)];
    c.RemovePreviousMark();
  }

  /** The walk-through of a session: after `MarkPhoto`, save. The export is
      photo_cell_count_1.png at the image's size with one circle around
      (100, 100). */
  method PhotoWalkthrough()
  {
    var c := MarkPhoto();
    PhotoSavePath();
    assert ExportEllipses(c.marks) == [Box(92, 92, 108, 108)];
    var r := c.SaveImage();
    assert r == Ok(Saved("photo_cell_count_1.png", Export(800, 600, [Box(92, 92, 108, 108)])));
  }
}

# Cell counter tools — a Dafny model

This project models three small image tools used with an Olympus CM30
incubation microscope and proves properties about them:

- **`count_cell.py`**: a window where the user loads a micrograph and clicks
  each cell. Each click places a red circle and raises the count.
  `remove_previous_mark` removes the last circle; the Delete and Backspace
  bindings meant to call it do not reach it (see "## Left out"). An optional
  100-pixel grid can be toggled. "Save Image" writes a copy with the circles burned in, named
  `<stem>_cell_count_<n><ext>`, next to the original image. The window is
  modelled as the class `CountCell.CellCounter`, with fields for the state the
  source keeps. Each method is proved to perform a pure transition on a `Session`
  value (`LoadStep`, `AddMarkStep`, `UndoStep`, `DrawGridStep`, `ToggleStep`,
  `AfterSave`). The lemmas about those transitions carry what the tool
  promises: the count matches the marks, undo removes the most recent mark,
  the grid covers exactly the multiples of 100, and the export stays in the
  image's folder and never overwrites it.
- **`add_scale_bar_cm30.py`**: burns a 200 µm scale bar into 1280×960 images
  and saves the result as `<path minus 4 chars>_scaled.png`. In directory
  mode, every path containing `_scaled` is skipped. Module `ScaleBar` models
  the checks in their source order, the bar geometry, the caption, the output
  path and the directory filter. `ProcessDirectory` is a loop proved to
  produce exactly the runs that the reference function `Plan` defines.
- **`add_fig_letter.py`**: stamps a figure letter ("4a", "12B", "-c") in a
  black box in the top-left corner of a figure. Module `FigLetter` models:
  - the `re.match` parse;
  - lower-casing the letter;
  - the sizes at a scale and the three letter placements;
  - the output path;
  - the command-line argument count.

Python's `os.path` is modelled as `posixpath`, in module `PosixPath`:
`split`, `basename`, `splitext`, `join` and `str.rfind`. ASCII helpers and
decimal rendering of counts are in module `Strings`.

In `count_cell.py`, a failed load records the new path but keeps the
previous image and marks, so a later save writes the previous image under a
name made from the new path (`CountCell.FailedLoadSavesPreviousImage`). A
mark is the canvas handle of its circle and the click position; click
positions are used as image coordinates unchanged.

## Model

| member | source | states |
|---|---|---|
| CountCell.Initial | count_cell.py:49-66 | the freshly built window (count 0, no marks, grid flag on, no image) satisfies the session invariant `Consistent` |
| CountCell.LoadStep | count_cell.py:107-144 | the path is recorded even when decoding fails. A successful load resets count, marks, count label and save label, shows the base name, draws the grid if the flag is on, and keeps the flag and the error label. A failed load changes only the path and the error label. The invariant is preserved |
| CountCell.CellCounter.LoadImage | count_cell.py:107-144 | the window's fields become exactly `LoadStep` of the old state, and the invariant is kept |
| CountCell.VerticalLineAt | count_cell.py:165-171 | a vertical grid line at x exists iff 0 <= x < width and x is a multiple of 100 |
| CountCell.HorizontalLineAt | count_cell.py:172-178 | a horizontal grid line at y exists iff 0 <= y < height and y is a multiple of 100 |
| CountCell.GridLinesInsideImage | count_cell.py:165-178 | the grid has ceil(w/100) + ceil(h/100) lines, all inside the image |
| CountCell.DrawGridStep | count_cell.py:159-178 | with a canvas, the grid shown is the one the flag asks for. Without a canvas nothing changes. Nothing but the grid lines ever changes |
| CountCell.CellCounter.DrawGrid | count_cell.py:159-178 | the two `range(0, n, 100)` loops rebuild `gridLines` as `DrawGridStep` prescribes, touching no other field |
| CountCell.ToggleStep | count_cell.py:66-74 | a checkbox click flips the flag, changes nothing but the flag and the grid lines, and keeps the invariant |
| CountCell.CellCounter.ToggleGrid | count_cell.py:180-182 | the window's fields become `ToggleStep` of the old state |
| CountCell.ToggleTwice | count_cell.py:180-182 | clicking the checkbox twice restores the session |
| CountCell.AddMarkStep | count_cell.py:184-192 | the count always rises by one. The mark is appended and the count label updated only when there is a canvas. Nothing but count, marks and count label changes. The invariant is kept |
| CountCell.CellCounter.AddMark | count_cell.py:184-192 | the window's fields become `AddMarkStep` of the old state |
| CountCell.UndoStep | count_cell.py:194-200 | nothing changes at count 0. Otherwise the count drops by one and the most recent mark is removed; with no mark to pop (the IndexError) the marks and label stay. Nothing but count, marks and count label changes. The invariant is kept |
| CountCell.CellCounter.RemovePreviousMark | count_cell.py:194-200 | the window's fields become `UndoStep` of the old state, including the IndexError branch |
| CountCell.AddAllAppends | count_cell.py:184-192 | on a canvas, a series of clicks appends their marks in order and keeps the invariant |
| CountCell.UndoTimesDropsLast | count_cell.py:194-200 | m undos drop exactly the last m marks and keep the invariant |
| CountCell.AddsThenUndos | count_cell.py:184-200 | N clicks then M <= N undos leave the first N - M new marks, and the count equals the number of marks |
| CountCell.UndoOnEmptyIsNoOp | count_cell.py:194-195 | on a canvas, any number of undos with no marks leaves the session unchanged (the count never goes negative) |
| CountCell.ExportEllipses | count_cell.py:207-210 | one ellipse per mark, in order. Each is a circle of diameter 16 centred on its mark |
| CountCell.SaveResult | count_cell.py:202-223 | checks run in source order: no path → "No image loaded"; path but no decoded buffer → failure; no marks → "No cells marked". Success iff all three hold, giving `SavePath` for the mark count and an export of the image's size whose ellipses are `ExportEllipses` of the marks, in order |
| CountCell.AfterSave | count_cell.py:202-225 | only the error label (on refusal) or the save label (on success, "Image saved to:\n" + path) changes, and the invariant is kept |
| CountCell.CellCounter.SaveImage | count_cell.py:202-226 | the loop builds the ellipses, the result equals `SaveResult` of the state, and the fields become `AfterSave` of it |
| CountCell.FailedLoadSavesPreviousImage | count_cell.py:107-144 | after a failed load, saving writes the previous image with its marks under a name made from the path that failed to load |
| CountCell.SaveIgnoresGrid | count_cell.py:207-223 | the grid flag and grid lines never influence the saved file or path |
| CountCell.SaveNameKeepsExtension | count_cell.py:219-221 | the saved name splits back into `<stem>_cell_count_<n>` and the image's own extension |
| CountCell.SavePathInSameFolder | count_cell.py:218-222 | the export lands in the image's own folder under `SaveName` |
| CountCell.SavePathDiffersFromImage | count_cell.py:218-223 | the export never overwrites the image it came from |
| CountCell.SavePathsDistinguishCounts | count_cell.py:212-222 | exports with different counts from one image go to different files |
| CountCell.PhotoSavePath | count_cell.py:218-222 | "photo.png" with one mark is saved as "photo_cell_count_1.png" |
| CountCell.CellCounter.constructor | count_cell.py:9-98 | the new window's state is `Initial()` and satisfies the invariant |
| Strings.NatToString | count_cell.py:221 | the decimal rendering of a count is non-empty, all digits, and has no leading zero unless it is "0" |
| Strings.DecimalRoundTrip | count_cell.py:221 | reading the decimal rendering back gives the count |
| Strings.NatToStringInjective | count_cell.py:221 | different counts render differently |
| PosixPath.Split | count_cell.py:218 | the tail is a suffix with no '/'. The head is a prefix that does not end in '/' unless it is only '/'. The head is empty iff the path has no '/' |
| PosixPath.SplitAtLastSep | count_cell.py:218 | `Split` cuts at the last '/': the tail is preceded by '/' or is the whole path, and only '/' lie between head and tail; a head made only of '/' (as for "//b") keeps every one of them |
| PosixPath.SplitExt | count_cell.py:219 | stem + extension is the name. The extension is empty, or is one '.' followed by text with no '.' or '/' |
| PosixPath.SplitExtFindsExtension | count_cell.py:219 | the extension is non-empty iff the last component has a '.' with a character other than '.' somewhere before it |
| PosixPath.SplitJoin | count_cell.py:218-222 | splitting a joined folder and file name gives both back |
| Strings.LowerChar | add_fig_letter.py:17 | upper-case ASCII letters map to lower case. Everything else is unchanged. Letters stay letters |
| ScaleBar.SupportedExtensionIsLastFour | add_scale_bar_cm30.py:38-42 | a path is accepted iff its last four characters, lower-cased, are ".tif", ".png" or ".jpg" |
| ScaleBar.AnyCaseAccepted | add_scale_bar_cm30.py:38-42 | any capitalisation of a supported extension is accepted |
| ScaleBar.JpegRejected | add_scale_bar_cm30.py:38-46 | ".jpeg", in any case, is rejected |
| ScaleBar.BarRect | add_scale_bar_cm30.py:57-76 | the corners passed to the filled rectangle are 90 apart horizontally and 15 vertically. The right corner is 30 px left of the image's width and the top corner 45 px above its height |
| ScaleBar.BarLabel | add_scale_bar_cm30.py:58-61 | the caption is "200 μm" when the number is displayed, empty otherwise |
| ScaleBar.OutputReplacesExtension | add_scale_bar_cm30.py:102 | for an accepted path, the output replaces the four-character extension with "_scaled.png" |
| ScaleBar.OutputIsMarked | add_scale_bar_cm30.py:102 | every output path contains "_scaled" |
| ScaleBar.AddScaleBar | add_scale_bar_cm30.py:29-104 | refusals in source order: missing file, unsupported extension, then unreadable or not 960 × 1280. Success iff all checks pass, with bar (1160, 915)-(1250, 930) inside the image, caption "200 μm" and output path `path[:-4] + "_scaled.png"` |
| ScaleBar.ProcessDirectory | add_scale_bar_cm30.py:22-26 | the loop's runs equal `Plan` of the listing, and no run is for a path containing "_scaled" |
| ScaleBar.PlanRunsExactlyUnskipped | add_scale_bar_cm30.py:22-26 | every planned run is for a listed, unskipped entry, with `AddScaleBar`'s result. Every unskipped entry is run |
| ScaleBar.OutputsNeverReprocessed | add_scale_bar_cm30.py:24-26 | adding the tool's own outputs to the directory changes nothing in the next run |
| FigLetter.DigitRun | add_fig_letter.py:11 | the leading digit run is all digits and maximal |
| FigLetter.ParseFigArg | add_fig_letter.py:11-16 | an accepted argument starts with "-" or a digit run, followed by an ASCII letter, and these are the parsed groups |
| FigLetter.ParseFigArgComplete | add_fig_letter.py:11-16 | every well-formed number and letter, whatever follows, parses back to themselves |
| FigLetter.RejectedHasNoFigure | add_fig_letter.py:11-14 | a rejected argument does not start with any well-formed number and letter |
| FigLetter.SizesAt | add_fig_letter.py:21-24 | at scale 1.0 the sizes are font 190, box 200, position (40, 40). At any non-negative scale the font fits the box and the position is on the diagonal |
| FigLetter.PlacementsDiffer | add_fig_letter.py:34-48 | 'f'/'i' sit further right than other letters at the same height. 'g' sits higher at the same horizontal position |
| FigLetter.SlashBackslashes | add_fig_letter.py:57-59 | each backslash becomes '/', every other character is unchanged, and the length stays |
| FigLetter.AsWrittenEscapesToRoot | add_fig_letter.py:55-59 | as written, "photo.png" with "4a" is saved as "/fig_4a.png", in the file-system root rather than the image's folder |
| FigLetter.AsWrittenForBareName | add_fig_letter.py:55-59 | as written, any image path with no folder part sends the figure to "/" + `fig_<number><letter>.png` |
| FigLetter.FigOutputPathAgreesWithAsWritten | add_fig_letter.py:55-59 | the corrected path equals the script's whenever the folder part is neither empty nor only '/' |
| FigLetter.FigOutputStaysInFolder | add_fig_letter.py:53-59 | with the corrected path, a backslash-free image path gets its figure in the same folder as "fig_<number><letter>.png" |
| FigLetter.FigOutputPathName | add_fig_letter.py:55-59 | for any image path, backslashes included, the file written is named "fig_<number><letter>.png" |
| FigLetter.AddFigureLetter | add_fig_letter.py:7-61 | it fails iff the argument does not parse. On success: the letter is the parsed one lower-cased; the sizes follow the scale; the placement branch is 'f'/'i', 'g' or other; "-" writes back to the input; otherwise the file is "fig_<number><letter>.png", in the image's own folder when the path has no backslash |
| FigLetter.LetterCaseIgnored | add_fig_letter.py:16-17 | upper- and lower-case letters give the same job |
| FigLetter.DashOverwritesInput | add_fig_letter.py:53-54 | "-<letter>" always succeeds and writes over the input image |
| FigLetter.RunFromCommandLine | add_fig_letter.py:64-72 | argument counts other than two or three are a usage error. The scale is 1.0 (sizes 190/200/40) unless a third argument is given |

## Left out

- Widgets, fonts, colours, layout, window title and maximising, key bindings, the file dialog and the main loop of `count_cell.py` are not modelled. A click, the checkbox and the dialog's chosen path are method calls with their data as parameters.
- The circles and grid lines on the Tk canvas are not modelled as canvas items. The model keeps each mark's canvas handle and position, and the grid as a list of line segments; `canvas.delete` is covered by those lists.
- Image decoding and encoding (OpenCV, PIL, `ImageTk`) are parameters. A decoded image is its width and height. Loading is all-or-nothing: a failure raised after `cv2.imread` succeeded but before the canvas was rebuilt is treated like a decoding failure.
- CountCell.CellCounter.RemovePreviousMark: Tk calls a bound key handler with an event argument, and `remove_previous_mark` takes none (count_cell.py:97-98, 194), so each Delete or Backspace press raises TypeError and undoes nothing. The model treats undo as a direct call without arguments, as the method is written.
- CountCell.CellCounter.SaveImage: writing the file is assumed to succeed. An exception from `output_image.save` is not modelled.
- Pixel contents are not modelled: the colours, the alpha channel, the text drawn in the scale bar caption, and the letter box's black fill and white glyph.
- ScaleBar.AddScaleBar: success means the three checks passed. The script can still raise after them: `cv2.cvtColor` on a single-channel image, `Image.fromarray` on a 16-bit image, or `ImageFont.truetype` when fonts/Roboto-Regular.ttf is missing from the working directory (add_scale_bar_cm30.py:79-83). Writing the output is assumed to succeed.
- ScaleBar.ProcessDirectory: an exception from `add_scale_bar` ends the loop at that file (add_scale_bar_cm30.py:24-26). The model, and `PlanRunsExactlyUnskipped`, assume every call returns, so the later files are still run.
- Centring the scale-bar caption needs font metrics (`draw.textlength`), so the caption's position is not modelled. Only its text is.
- `print` messages are not modelled. The wrong-size message in `add_scale_bar_cm30.py` says "1920x1080" while the check is for 960 rows by 1280 columns. The model follows the check.
- `os.path.exists`, `os.path.isdir`, `os.path.isfile`, `glob.glob` and `argparse` are parameters. The directory listing is a sequence of entries, each saying whether the file is present and what `cv2.imread` decoded.
- `os.path` is modelled as `posixpath`, with '/' as the only separator. On Windows, `ntpath` also splits on '\\' and drive letters. `add_fig_letter.py`'s backslash replacement is modelled character by character.
- Strings.Lower: only ASCII letters are lower-cased. Python's `str.lower` also maps non-ASCII upper-case letters, which cannot change whether a path ends in one of the three ASCII extensions but can change the text around them.
- FigLetter.SizesAt: computed on exact reals rather than IEEE doubles. At scale 1.0 both give 190/200/40. `float(argv[3])` is a parameter (`thirdAsFloat`), and a third argument that does not parse as a float is not modelled.
- FigLetter.AddFigureLetter: uses the corrected output path (see Findings). Opening a missing or unreadable image is not modelled, and neither are the font file, drawing and saving.
- FigLetter.RunFromCommandLine: `sys.exit(1)` is the `Err` result; the usage text is not modelled.

## Findings

| source | as written | input that shows it | evidently intended | confidence | as-written member | corrected member |
|---|---|---|---|---|---|---|
| add_fig_letter.py:55-59 | the output path is the image's folder, a literal "/", then `fig_<number><letter>.png` | image path "photo.png" (no folder part) with figure argument "4a": the folder is "", so the figure is written to "/fig_4a.png" in the file-system root | the figure is written next to the image, as `os.path.join(folder, name)` gives: "fig_4a.png" | high; not executed | FigLetter.FigOutputPathAsWritten, FigLetter.AsWrittenEscapesToRoot | FigLetter.FigOutputPath, FigLetter.FigOutputStaysInFolder |

/** add_fig_letter.py: parsing the figure argument ("4a", "12B", "-c"), the
    sizes and letter placement of the black letter box, and the path the
    lettered figure is saved to. */
module FigLetter {

  import opened Wrappers
  import opened Strings
  import opened PosixPath

  /** The parsed figure argument: "-" or a run of digits, then one letter. */
  datatype FigArg = FigArg(number: string, letter: char)

  /** The letter box at a scale: font size, box side, and box position. */
  datatype Sizes = Sizes(fontSize: int, squareSize: int, squareX: int, squareY: int)

  /** The three placements of the letter inside its box. */
  datatype Placement = Narrow | Descender | Regular

  /** What one run draws and where it saves the result. */
  datatype FigureJob = FigureJob(letter: char, sizes: Sizes, placement: Placement, outputPath: string)

  /** Why the script exits with status 1 without writing anything. */
  datatype Failure = UsageError | BadFigureArgument

  predicate AllDigits(s: string)
  {
    forall i :: 0 <= i < |s| ==> IsDigit(s[i])
  }

  /** A figure number as the pattern `(-|[0-9]+)` accepts it. */
  predicate IsFigureNumber(n: string)
  {
    n == "-" || (n != [] && AllDigits(n))
  }

  /** The length of the run of ASCII digits that `s` starts with. */
  function DigitRun(s: string): (n: nat)
    ensures n <= |s| && AllDigits(s[..n])
    ensures n < |s| ==> !IsDigit(s[n])
    decreases |s|
  {
    if s != [] && IsDigit(s[0]) then
      var rest := DigitRun(s[1..]);
      assert s[..rest + 1] == [s[0]] + s[1..][..rest];
      1 + rest
    else 0
  }

  /** `re.match(r"(-|[0-9]+)([a-zA-Z])", s)`: a match at the start of `s`
      (anything after it is ignored). The "-" alternative is tried first;
      `[0-9]+` takes the longest digit run, and no shorter run can be
      followed by a letter. */
  function ParseFigArg(s: string): (r: Option<FigArg>)
    ensures r.Some? ==>
      && IsFigureNumber(r.value.number)
      && IsAsciiLetter(r.value.letter)
      && |r.value.number| < |s|
      && s[..|r.value.number| + 1] == r.value.number + [r.value.letter]
  {
    if |s| >= 2 && s[0] == '-' && IsAsciiLetter(s[1]) then
      assert s[..2] == "-" + [s[1]];
      Some(FigArg("-", s[1]))
    else
      var n := DigitRun(s);
      if 0 < n < |s| && IsAsciiLetter(s[n]) then
        assert s[..n + 1] == s[..n] + [s[n]];
        Some(FigArg(s[..n], s[n]))
      else None
  }

  /** A digit run followed by a non-digit is found exactly. */
  lemma {:induction false} DigitRunOf(n: string, rest: string)
    requires AllDigits(n)
    requires rest == [] || !IsDigit(rest[0])
    ensures DigitRun(n + rest) == |n|
    decreases |n|
  {
    if n != [] {
      assert (n + rest)[1..] == n[1..] + rest;
      DigitRunOf(n[1..], rest);
    } else {
      assert n + rest == rest;
    }
  }

  /** Every well-formed figure argument is accepted and parsed back into its
      number and letter, whatever follows them. */
  lemma ParseFigArgComplete(number: string, letter: char, rest: string)
    requires IsFigureNumber(number) && IsAsciiLetter(letter)
    ensures ParseFigArg(number + [letter] + rest) == Some(FigArg(number, letter))
  {
    var s := number + [letter] + rest;
    if number != "-" {
      assert s == number + ([letter] + rest);
      DigitRunOf(number, [letter] + rest);
      assert s[|number|] == letter;
      assert s[..|number|] == number;
      assert s[0] != '-' by { assert IsDigit(number[0]); }
    }
  }

  /** An argument is accepted exactly when it starts with a well-formed number
      and letter: `ParseFigArg`'s contract gives one direction, `ParseFigArgComplete`
      the other. Here: a rejected argument has no such start. */
  lemma RejectedHasNoFigure(s: string, number: string, letter: char)
    requires ParseFigArg(s).None?
    requires IsFigureNumber(number) && IsAsciiLetter(letter)
    ensures |s| < |number| + 1 || s[..|number| + 1] != number + [letter]
  {
    if |s| >= |number| + 1 && s[..|number| + 1] == number + [letter] {
      assert s == number + [letter] + s[|number| + 1..];
      ParseFigArgComplete(number, letter, s[|number| + 1..]);
    }
  }

  /** Python's `int()` on a float: truncation toward zero. */
  function Trunc(x: real): int
  {
    if x >= 0.0 then x.Floor else -((-x).Floor)
  }

  /** `int(190 * scale)`, `int(200 * scale)` and `int(40 * scale)`. */
  function SizesAt(scale: real): (z: Sizes)
    ensures scale == 1.0 ==> z == Sizes(190, 200, 40, 40)
    ensures scale >= 0.0 ==> 0 <= z.fontSize <= z.squareSize && z.squareX == z.squareY >= 0
  {
    Sizes(Trunc(190.0 * scale), Trunc(200.0 * scale), Trunc(40.0 * scale), Trunc(40.0 * scale))
  }

  /** The placement branch for a (lower-cased) letter: 'f' and 'i', 'g', and every other letter. */
  function PlacementOf(letter: char): (p: Placement)
  {
    if letter == 'f' || letter == 'i' then Narrow
    else if letter == 'g' then Descender
    else Regular
  }

  /** Where the letter is drawn inside its box, as multiples of the box side
      and the font size. */
  function LetterPosition(p: Placement, z: Sizes): (real, real)
  {
    var half := 0.5 * z.squareSize as real;
    var font := z.fontSize as real;
    match p
    case Narrow => (half - 0.155 * font, half - 0.60 * font)
    case Descender => (half - 0.275 * font, half - 0.75 * font)
    case Regular => (half - 0.275 * font, half - 0.60 * font)
  }

  /** The three placements differ as the source intends: narrow letters sit
      further right, 'g' sits higher, at any positive font size. */
  lemma PlacementsDiffer(z: Sizes)
    requires z.fontSize > 0
    ensures LetterPosition(Narrow, z).0 > LetterPosition(Regular, z).0
    ensures LetterPosition(Narrow, z).1 == LetterPosition(Regular, z).1
    ensures LetterPosition(Descender, z).0 == LetterPosition(Regular, z).0
    ensures LetterPosition(Descender, z).1 < LetterPosition(Regular, z).1
  {
  }

  /** `s.replace("\\", "/")`. */
  function SlashBackslashes(s: string): (r: string)
    ensures |r| == |s| && '\\' !in r
    ensures forall i :: 0 <= i < |s| && s[i] != '\\' ==> r[i] == s[i]
    ensures forall i :: 0 <= i < |s| && s[i] == '\\' ==> r[i] == Sep
  {
    seq(|s|, i requires 0 <= i < |s| => if s[i] == '\\' then '/' else s[i])
  }

  /** The output file name `fig_<number><letter>.png`. */
  function FigName(number: string, letter: char): string
  {
    "fig_" + number + [letter] + ".png"
  }

  /** The output path as the script builds it: the input itself for "-";
      otherwise the input's folder, "/", and `FigName`, with every backslash
      turned into "/". */
  function FigOutputPathAsWritten(imagePath: string, number: string, letter: char): string
  {
    if number == "-" then imagePath
    else SlashBackslashes(Split(imagePath).0 + "/" + FigName(number, letter))
  }

  /** As written, a figure whose path has no folder part is saved at the root
      of the file system instead of next to it. */
  lemma AsWrittenEscapesToRoot()
    ensures Split("photo.png").0 == ""
    ensures FigOutputPathAsWritten("photo.png", "4", 'a') == "/fig_4a.png"
    ensures Split("/fig_4a.png").0 == "/"
  {
    var name := FigName("4", 'a');
    FigNameIsPlain("4", 'a');
    SplitBareName("photo.png");
    AsWrittenForBareName("photo.png", "4", 'a');
    RootFigNameSpelled();
    SplitRootFile(name);
    assert [Sep] + name == "/" + name;
  }

  /** As written, an image path with no folder part and no backslash gives the
      figure the path "/" + `FigName`. */
  lemma AsWrittenForBareName(imagePath: string, number: string, letter: char)
    requires Sep !in imagePath
    requires number != "-" && AllDigits(number) && IsAsciiLetter(letter)
    ensures FigOutputPathAsWritten(imagePath, number, letter) == "/" + FigName(number, letter)
  {
    SplitBareName(imagePath);
    var name := FigName(number, letter);
    FigNameIsPlain(number, letter);
    SlashBackslashesAppend("/", name);
    assert SlashBackslashes("/") == "/";
    assert "" + "/" + name == "/" + name;
  }

  /** The name above, spelled out. */
  lemma RootFigNameSpelled()
    ensures "/" + FigName("4", 'a') == "/fig_4a.png"
  {
    var path := "/" + FigName("4", 'a');
    forall i | 0 <= i < |path| ensures path[i] == "/fig_4a.png"[i] {}
  }

  /** The output path as intended: the folder and `FigName` joined as
      `os.path.join` does, so an empty folder leaves the name alone. */
  function FigOutputPath(imagePath: string, number: string, letter: char): string
  {
    if number == "-" then imagePath
    else SlashBackslashes(Join(Split(imagePath).0, FigName(number, letter)))
  }

  /** The corrected path differs from the script's only when the folder part is
      empty or consists of '/' alone. */
  lemma FigOutputPathAgreesWithAsWritten(imagePath: string, number: string, letter: char)
    requires Split(imagePath).0 != [] && !AllSeps(Split(imagePath).0)
    ensures FigOutputPath(imagePath, number, letter) == FigOutputPathAsWritten(imagePath, number, letter)
  {
  }

  /** For a path without backslashes, the lettered figure goes into the
      image's own folder under the name `fig_<number><letter>.png`. */
  lemma FigOutputStaysInFolder(imagePath: string, number: string, letter: char)
    requires '\\' !in imagePath
    requires number != "-" && AllDigits(number) && IsAsciiLetter(letter)
    ensures Split(FigOutputPath(imagePath, number, letter)) == (Split(imagePath).0, FigName(number, letter))
  {
    var folder := Split(imagePath).0;
    var name := FigName(number, letter);
    assert Sep !in name && '\\' !in name by {
      assert forall i :: 0 <= i < |number| ==> IsDigit(number[i]);
    }
    var joined := Join(folder, name);
    assert '\\' !in folder by {
      assert forall i :: 0 <= i < |folder| ==> folder[i] == imagePath[i];
    }
    assert '\\' !in joined;
    assert SlashBackslashes(joined) == joined;
    SplitJoin(folder, name);
  }

  /** Replacing backslashes in text followed by a backslash-free part leaves
      that part alone. */
  lemma SlashBackslashesAppend(a: string, b: string)
    requires '\\' !in b
    ensures SlashBackslashes(a + b) == SlashBackslashes(a) + b
  {
    var l := SlashBackslashes(a + b);
    var r := SlashBackslashes(a) + b;
    forall i | 0 <= i < |l| ensures l[i] == r[i] {
      if i >= |a| {
        assert (a + b)[i] == b[i - |a|];
      }
    }
  }

  /** A figure file name has neither kind of separator and is not absolute. */
  lemma FigNameIsPlain(number: string, letter: char)
    requires AllDigits(number) && IsAsciiLetter(letter)
    ensures Sep !in FigName(number, letter) && '\\' !in FigName(number, letter)
    ensures FigName(number, letter)[0] != Sep
  {
    var name := FigName(number, letter);
    forall i | 0 <= i < |name| ensures name[i] != Sep && name[i] != '\\' {
      if 4 <= i < 4 + |number| {
        assert name[i] == number[i - 4];
        assert IsDigit(number[i - 4]);
      }
    }
  }

  /** Whatever the input path, backslashes included, the file written is
      named `fig_<number><letter>.png`. */
  lemma FigOutputPathName(imagePath: string, number: string, letter: char)
    requires number != "-" && AllDigits(number) && IsAsciiLetter(letter)
    ensures Split(FigOutputPath(imagePath, number, letter)).1 == FigName(number, letter)
  {
    var folder := Split(imagePath).0;
    var name := FigName(number, letter);
    FigNameIsPlain(number, letter);
    var pre := if folder == [] || folder[|folder| - 1] == Sep then folder else folder + [Sep];
    assert Join(folder, name) == pre + name;
    SlashBackslashesAppend(pre, name);
    var slashed := SlashBackslashes(pre);
    assert slashed == [] || slashed[|slashed| - 1] == Sep by {
      if pre != [] {
        assert pre[|pre| - 1] == Sep;
      }
    }
    SplitTailAfterSep(slashed, name);
  }

  /** `add_figure_letter(image_path, fig_arg, scale)`: the argument is parsed,
      its letter lower-cased, and the box sized and placed; a malformed
      argument ends the script. */
  function AddFigureLetter(imagePath: string, figArg: string, scale: real): (r: Result<FigureJob, Failure>)
    ensures r.Err? <==> ParseFigArg(figArg).None?
    ensures r.Err? ==> r.error == BadFigureArgument
    ensures r.Ok? ==> IsAsciiLower(r.value.letter) && r.value.sizes == SizesAt(scale)
    ensures r.Ok? ==> r.value.letter == LowerChar(ParseFigArg(figArg).value.letter)
    ensures r.Ok? ==> (r.value.placement == Narrow <==> r.value.letter == 'f' || r.value.letter == 'i')
    ensures r.Ok? ==> (r.value.placement == Descender <==> r.value.letter == 'g')
    ensures r.Ok? && ParseFigArg(figArg).value.number == "-" ==> r.value.outputPath == imagePath
    ensures r.Ok? && ParseFigArg(figArg).value.number != "-" ==>
      Split(r.value.outputPath).1 == FigName(ParseFigArg(figArg).value.number, r.value.letter)
    ensures r.Ok? && ParseFigArg(figArg).value.number != "-" && '\\' !in imagePath ==>
      Split(r.value.outputPath).0 == Split(imagePath).0
  {
    match ParseFigArg(figArg)
    case None => Err(BadFigureArgument)
    case Some(FigArg(number, raw)) =>
      var letter := LowerChar(raw);
      var job := FigureJob(letter, SizesAt(scale), PlacementOf(letter), FigOutputPath(imagePath, number, letter));
      if number == "-" then Ok(job)
      else
        FigOutputPathName(imagePath, number, letter);
        if '\\' in imagePath then Ok(job)
        else
          FigOutputStaysInFolder(imagePath, number, letter);
          Ok(job)
  }

  /** The letter's case does not matter: upper and lower case give the same
      drawing and the same output path. */
  lemma LetterCaseIgnored(imagePath: string, number: string, letter: char, rest: string, scale: real)
    requires IsFigureNumber(number) && IsAsciiLetter(letter)
    ensures AddFigureLetter(imagePath, number + [letter] + rest, scale)
         == AddFigureLetter(imagePath, number + [LowerChar(letter)] + rest, scale)
  {
    ParseFigArgComplete(number, letter, rest);
    ParseFigArgComplete(number, LowerChar(letter), rest);
  }

  /** "-<letter>" letters the figure in place. */
  lemma DashOverwritesInput(imagePath: string, letter: char, rest: string, scale: real)
    requires IsAsciiLetter(letter)
    ensures AddFigureLetter(imagePath, "-" + [letter] + rest, scale).Ok?
    ensures AddFigureLetter(imagePath, "-" + [letter] + rest, scale).value.outputPath == imagePath
  {
    ParseFigArgComplete("-", letter, rest);
  }

  /** The command line: exactly two or three arguments after the script name;
      the scale is 1.0 unless the third is given, in which case it is
      `thirdAsFloat`, the value `float()` made of it. */
  function RunFromCommandLine(argv: seq<string>, thirdAsFloat: real): (r: Result<FigureJob, Failure>)
    ensures |argv| != 3 && |argv| != 4 ==> r == Err(UsageError)
    ensures |argv| == 3 ==> r == AddFigureLetter(argv[1], argv[2], 1.0)
    ensures |argv| == 4 ==> r == AddFigureLetter(argv[1], argv[2], thirdAsFloat)
    ensures |argv| == 3 && r.Ok? ==> r.value.sizes == Sizes(190, 200, 40, 40)
  {
    if |argv| != 3 && |argv| != 4 then Err(UsageError)
    else AddFigureLetter(argv[1], argv[2], if |argv| == 4 then thirdAsFloat else 1.0)
  }
}

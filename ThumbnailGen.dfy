/**
 * The compositor of thumbnail_generator/thumbnail_gen.py: the `START-END` range
 * parser, the validation of `--part` / `--range`, the list of parts processed,
 * and the ImageMagick command vector built for each part.  Running the command
 * is an oracle: `runOk(k)` tells whether the k-th invocation exits with status 0.
 */
module ThumbnailGen {
  import opened Wrappers
  import opened PyText

  const Outer: nat := 20
  const Inner: nat := 4
  const Width: nat := 1280
  const Height: nat := 720

  /** The outer rectangle; Python formats its coordinates as floats. */
  const OuterRectangle: string := "rectangle 10.0,10.0 1310.0,750.0"

  /** A Python `range(start, stop)` object: start, start + 1, ..., stop - 1. */
  datatype Range = Range(start: int, stop: int)

  function Elements(r: Range): seq<int>
  {
    if r.stop <= r.start then [] else seq(r.stop - r.start, i requires 0 <= i < r.stop - r.start => r.start + i)
  }

  /** Rendering options of one run (the command-line flags other than the part selection). */
  datatype Config = Config(base: string, title: string, font: string, fontsize: int, color: string, outdir: string)

  /** How a run ends. */
  datatype Status =
    | Completed
    | UsageError(message: string)
    | BaseImageMissing
    | CommandFailed(part: int)

  const RangeError: string := "Range must be in form START-END"
  const NoSelectionError: string := "You must specify --part or --range"
  const BothSelectedError: string := "Use only one of --part or --range"

  /** `parse_range`: `START-END` becomes `range(START, END + 1)`. */
  function ParseRange(text: string): (r: Result<Range>)
    ensures r.Err? ==> r.error == RangeError
    ensures r.Ok? ==> '-' in text
  {
    SplitDashFree(text);
    var fields := Split(text, '-');
    if |fields| == 2 && ParseInt(fields[0]).Some? && ParseInt(fields[1]).Some? then
      Ok(Range(ParseInt(fields[0]).value, ParseInt(fields[1]).value + 1))
    else
      Err(RangeError)
  }

  /** Two dash-free fields that both parse as integers give the inclusive range between them. */
  lemma ParseRangeAccepts(x: string, y: string)
    requires '-' !in x && '-' !in y
    requires ParseInt(x).Some? && ParseInt(y).Some?
    ensures ParseRange(x + "-" + y) == Ok(Range(ParseInt(x).value, ParseInt(y).value + 1))
  {
    SplitTwoFields(x + "-" + y, '-', x, y);
  }

  /** Whatever is accepted is two integer fields around a single dash. */
  lemma ParseRangeShape(text: string) returns (dash: nat)
    requires ParseRange(text).Ok?
    ensures dash < |text| && text[dash] == '-'
    ensures '-' !in text[..dash] && '-' !in text[dash + 1..]
    ensures ParseInt(text[..dash]).Some? && ParseInt(text[dash + 1..]).Some?
    ensures ParseRange(text).value == Range(ParseInt(text[..dash]).value, ParseInt(text[dash + 1..]).value + 1)
  {
    var fields := Split(text, '-');
    SplitTwoFields(text, '-', fields[0], fields[1]);
    dash := |fields[0]|;
    assert text[..dash] == fields[0];
    assert text[dash + 1..] == fields[1];
  }

  /** A text without a dash, or with two or more (a negative START, say), is rejected. */
  lemma ParseRangeRejectsDashCount(text: string, i: nat, j: nat)
    requires '-' !in text || (i < j < |text| && text[i] == '-' && text[j] == '-')
    ensures ParseRange(text).Err?
  {
    if ParseRange(text).Ok? {
      var dash := ParseRangeShape(text);
    }
  }

  /** The parsed range counts up by one from START to END inclusive, and is empty (not an error) when START > END. */
  lemma RangeElements(a: int, b: int)
    ensures |Elements(Range(a, b + 1))| == if a <= b then b - a + 1 else 0
    ensures var e := Elements(Range(a, b + 1)); forall i :: 0 <= i < |e| ==> e[i] == a + i
  {
  }

  /** Python truthiness of `args.part`: given and not 0. */
  predicate PartGiven(part: Option<int>) { part.Some? && part.value != 0 }

  /** Python truthiness of `args.range`: given and not empty. */
  predicate RangeGiven(range: Option<Range>) { range.Some? && Elements(range.value) != [] }

  /** The checks of `main` on `--part` / `--range` and the parts it then loops over. */
  function SelectParts(part: Option<int>, range: Option<Range>): (r: Result<seq<int>>)
    ensures r.Ok? <==> (PartGiven(part) != RangeGiven(range))
    ensures r.Ok? ==> |r.value| > 0
    ensures r.Ok? && PartGiven(part) ==> r.value == [part.value]
    ensures r.Ok? && RangeGiven(range) ==> r.value == Elements(range.value)
    ensures !PartGiven(part) && !RangeGiven(range) ==> r == Err(NoSelectionError)
    ensures PartGiven(part) && RangeGiven(range) ==> r == Err(BothSelectedError)
  {
    if !PartGiven(part) && !RangeGiven(range) then Err(NoSelectionError)
    else if PartGiven(part) && RangeGiven(range) then Err(BothSelectedError)
    else if PartGiven(part) then Ok([part.value])
    else Ok(Elements(range.value))
  }

  /** `--part 0` is no selection at all, and an empty range (START > END) does not count as one either. */
  lemma ZeroPartIsAbsent(range: Option<Range>)
    ensures SelectParts(Some(0), range) == SelectParts(None, range)
    ensures range.Some? && range.value.stop <= range.value.start ==> SelectParts(Some(0), range) == Err(NoSelectionError)
  {
  }

  /** The file name written for a part: no zero padding. */
  function OutputName(part: int): string
  {
    "thumbnail_part_" + IntToString(part) + ".png"
  }

  /** `outdir / name`, with `/` as the separator. */
  function JoinPath(dir: string, name: string): string
  {
    dir + "/" + name
  }

  function OutputPath(outdir: string, part: int): string
  {
    JoinPath(outdir, OutputName(part))
  }

  /** Different parts are written to different files. */
  lemma OutputPathInjective(outdir: string, a: int, b: int)
    requires OutputPath(outdir, a) == OutputPath(outdir, b)
    ensures a == b
  {
    OutputPathDigits(outdir, a);
    OutputPathDigits(outdir, b);
    IntToStringInjective(a, b);
  }

  /** The canvas size argument `WIDTHxHEIGHT`. */
  function CanvasSize(): string
  {
    IntToString(Width) + "x" + IntToString(Height)
  }

  /** The inner (white) rectangle, drawn on the original image bounds inside the border. */
  function InnerRectangle(): string
  {
    "rectangle " + IntToString(Outer) + "," + IntToString(Outer) + " "
      + IntToString(Width + Outer) + "," + IntToString(Height + Outer)
  }

  /** Fill the 1280x720 canvas from the base image. */
  function FitArgs(cfg: Config): seq<string>
  {
    [ "magick", cfg.base,
      "-resize", CanvasSize() + "^",
      "-gravity", "center",
      "-extent", CanvasSize() ]
  }

  /** The transparent border and the two-tone frame drawn around the image. */
  function FrameArgs(): seq<string>
  {
    [ "-bordercolor", "none",
      "-border", IntToString(Outer),
      "-stroke", "black",
      "-strokewidth", IntToString(Outer),
      "-fill", "none",
      "-draw", OuterRectangle,
      "-stroke", "white",
      "-strokewidth", IntToString(Inner),
      "-fill", "none",
      "-draw", InnerRectangle() ]
  }

  /** The title, word-wrapped in a 1200x200 caption box at the top centre. */
  function CaptionArgs(cfg: Config): seq<string>
  {
    [ "-gravity", "north",
      "-font", cfg.font,
      "-pointsize", IntToString(cfg.fontsize),
      "-fill", cfg.color,
      "-stroke", "black",
      "-strokewidth", "3",
      "-background", "none",
      "-size", "1200x200",
      "caption:" + cfg.title,
      "-geometry", "+0+40",
      "-composite" ]
  }

  /** The `PART n` label in the bottom-right corner. */
  function LabelArgs(cfg: Config, part: int): seq<string>
  {
    [ "-gravity", "southeast",
      "-pointsize", IntToString(cfg.fontsize),
      "-annotate", "+40+30",
      "PART " + IntToString(part) ]
  }

  /** The ImageMagick command vector of `generate_thumbnail` for one part. */
  function Command(cfg: Config, part: int): (cmd: seq<string>)
    ensures |cmd| == 56 && cmd[0] == "magick"
    ensures cmd[|cmd| - 1] == OutputPath(cfg.outdir, part)
  {
    FitArgs(cfg) + FrameArgs() + CaptionArgs(cfg) + LabelArgs(cfg, part) + [OutputPath(cfg.outdir, part)]
  }

  /** The output file name carries the part exactly as `str(part)` writes it. */
  lemma OutputPathDigits(outdir: string, part: int)
    ensures var out := OutputPath(outdir, part);
      out[|outdir| + 16..|out| - 4] == IntToString(part) && out[|out| - 4..] == ".png"
  {
    var out := OutputPath(outdir, part);
    assert out == (outdir + "/thumbnail_part_") + IntToString(part) + ".png";
  }

  /**
   * Where the text fields and the output go in the command: the caption is the
   * title, the label is `PART` and the same digits as the file name, and the
   * output path comes last.
   */
  lemma CommandFields(cfg: Config, part: int)
    ensures var cmd := Command(cfg, part);
      && |cmd| == 56
      && cmd[0] == "magick" && cmd[1] == cfg.base
      && cmd[44] == "caption:" + cfg.title
      && cmd[54] == "PART " + IntToString(part)
      && cmd[55] == OutputPath(cfg.outdir, part)
  {
    var fitArgs, frameArgs, captionArgs, labelArgs := FitArgs(cfg), FrameArgs(), CaptionArgs(cfg), LabelArgs(cfg, part);
    assert |fitArgs| == 8 && |frameArgs| == 20 && |captionArgs| == 20 && |labelArgs| == 7;
  }

  /** The decimal forms of the geometry constants. */
  lemma GeometryDecimals()
    ensures IntToString(Outer) == "20" && IntToString(Inner) == "4"
    ensures IntToString(Width) == "1280" && IntToString(Height) == "720"
    ensures IntToString(Width + Outer) == "1300" && IntToString(Height + Outer) == "740"
  {
    assert NatToString(20) == NatToString(2) + "0";
    assert NatToString(1280) == NatToString(128) + "0";
    assert NatToString(128) == NatToString(12) + "8";
    assert NatToString(12) == NatToString(1) + "2";
    assert NatToString(720) == NatToString(72) + "0";
    assert NatToString(72) == NatToString(7) + "2";
    assert NatToString(1300) == NatToString(130) + "0";
    assert NatToString(130) == NatToString(13) + "0";
    assert NatToString(13) == NatToString(1) + "3";
    assert NatToString(740) == NatToString(74) + "0";
    assert NatToString(74) == NatToString(7) + "4";
  }

  /**
   * The command first fits the image to exactly 1280x720, then adds a 20-pixel
   * border and draws the inner rectangle from 20,20 to 1300,740.
   */
  lemma CanvasGeometry(cfg: Config, part: int)
    ensures Command(cfg, part)[..28] == FitArgs(cfg) + FrameArgs()
    ensures FitArgs(cfg)[2..] == ["-resize", "1280x720^", "-gravity", "center", "-extent", "1280x720"]
    ensures FrameArgs()[2..4] == ["-border", "20"]
    ensures FrameArgs()[18..] == ["-draw", "rectangle 20,20 1300,740"]
  {
    GeometryDecimals();
    assert CanvasSize() == "1280x720";
    assert CanvasSize() + "^" == "1280x720^";
    assert InnerRectangle() == "rectangle 20,20 1300,740";
    var cmd := Command(cfg, part);
    assert |FitArgs(cfg) + FrameArgs()| == 28;
    assert cmd == (FitArgs(cfg) + FrameArgs()) + (CaptionArgs(cfg) + LabelArgs(cfg, part) + [OutputPath(cfg.outdir, part)]);
  }

  /**
   * The `for part in parts` loop of `main`: the command `command(part)` is run
   * for each part in order; the first one that fails ends the run (`sys.exit(1)`
   * in `run`).  `main` passes the command of `generate_thumbnail`.
   */
  method GenerateAll(parts: seq<int>, command: int -> seq<string>, runOk: nat -> bool)
    returns (status: Status, issued: seq<seq<string>>)
    ensures |issued| <= |parts|
    ensures forall i :: 0 <= i < |issued| ==> issued[i] == command(parts[i])
    ensures status == Completed <==> |issued| == |parts| && forall i :: 0 <= i < |issued| ==> runOk(i)
    ensures status != Completed ==>
      && |issued| > 0 && status == CommandFailed(parts[|issued| - 1])
      && !runOk(|issued| - 1) && forall i :: 0 <= i < |issued| - 1 ==> runOk(i)
  {
    issued, status := [], Completed;
    var k := 0;
    while k < |parts| && status == Completed
      invariant 0 <= k <= |parts| && |issued| == k
      invariant forall i :: 0 <= i < k ==> issued[i] == command(parts[i])
      invariant forall i :: 0 <= i < k - 1 ==> runOk(i)
      invariant status == Completed ==> forall i :: 0 <= i < k ==> runOk(i)
      invariant status != Completed ==> k > 0 && !runOk(k - 1) && status == CommandFailed(parts[k - 1])
    {
      issued := issued + [command(parts[k])];
      if !runOk(k) {
        status := CommandFailed(parts[k]);
      }
      k := k + 1;
    }
  }

  /**
   * `main` after argument parsing: validate the selection, check the base
   * image, then generate every selected part.
   */
  method RunCompositor(cfg: Config, part: Option<int>, range: Option<Range>, baseExists: bool, runOk: nat -> bool)
    returns (status: Status, issued: seq<seq<string>>)
    ensures SelectParts(part, range).Err? ==> status == UsageError(SelectParts(part, range).error) && issued == []
    ensures SelectParts(part, range).Ok? && !baseExists ==> status == BaseImageMissing && issued == []
    ensures SelectParts(part, range).Ok? && baseExists ==>
      var parts := SelectParts(part, range).value;
      && 0 < |issued| <= |parts|
      && (forall i :: 0 <= i < |issued| ==> issued[i] == Command(cfg, parts[i]))
      && (status == Completed <==> |issued| == |parts| && forall i :: 0 <= i < |issued| ==> runOk(i))
      && (status != Completed ==>
            && status == CommandFailed(parts[|issued| - 1]) && !runOk(|issued| - 1)
            && forall i :: 0 <= i < |issued| - 1 ==> runOk(i))
  {
    var selection := SelectParts(part, range);
    if selection.Err? {
      return UsageError(selection.error), [];
    }
    if !baseExists {
      return BaseImageMissing, [];
    }
    status, issued := GenerateAll(selection.value, part => Command(cfg, part), runOk);
  }
}

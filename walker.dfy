/**
 * main.py of the YOLO dataset augmenter: the check of the dataset root, the
 * creation of the output directories, the walk over the listing of the
 * dataset's `images` directory, the names of the files each image is read
 * from and written to, and the per-file `try`/`except` that lets one failing
 * image not stop the others.
 *
 * Files are named by their name inside their directory: the input images
 * and annotation files by their names in `<data>/images` and `<data>/labels`,
 * the outputs by their names in `<out>/images` and `<out>/labels`.
 */
module Walker {
  import opened Wrappers
  import opened Text
  import opened Utils

  /**
   * The command-line arguments `--data`, `--out` and `--prefix`. The run
   * never reads `out` here: the `Output` object stands for the directory it
   * names.
   */
  datatype Config = Config(data: string, out: string, prefix: string)

  /**
   * The dataset as the run finds it: whether `--data` exists, the
   * `os.listdir` of its `images` directory (`None` when that directory does
   * not exist), the images there that `cv2.imread` decodes, and the contents
   * of the annotation files in `labels`.
   */
  datatype Dataset = Dataset(rootExists: bool, listing: Option<seq<string>>,
                             images: map<string, Image>, labels: map<string, string>)

  // ---------------------------------------------------------------------------
  // Names and messages

  /** `filename.endswith('.jpg')`. */
  predicate IsImageName(f: string) {
    EndsWith(f, ".jpg")
  }

  /** The annotation file of an image: `filename.replace('.jpg', '.txt')`. */
  function LabelName(f: string): string {
    Replace(f, ".jpg", ".txt")
  }

  /** `'aug_' + filename`. */
  function OutputImageName(f: string): string {
    "aug_" + f
  }

  /** `'aug_' + filename.replace('.jpg', '.txt')`. */
  function OutputLabelName(f: string): string {
    "aug_" + LabelName(f)
  }

  /** What the per-file `except` prints. */
  function FailureMessage(f: string): string {
    "Failed to augment image: " + f + " due to bounding box conversion error"
  }

  /** The message of the `FileNotFoundError` raised for a missing dataset root. */
  const InvalidPathMessage := "Invalid dataset path."

  /** The message of the `FileNotFoundError` that `os.listdir` raises for a missing `images` directory. */
  function MissingDirMessage(data: string): string {
    "[Errno 2] No such file or directory: '" + JoinPath(data, "images") + "'"
  }

  // ---------------------------------------------------------------------------
  // The run as a value

  /** Everything a run can change: the output directories, the written files and the printed lines. */
  datatype RunState = RunState(outputDirs: bool, images: map<string, Image>,
                               labels: map<string, string>, log: seq<string>)

  function StateOf(out: Output): RunState
    reads out
  {
    RunState(out.outputDirs, out.images, out.labels, out.log)
  }

  /** What one listed name comes to. */
  datatype FileOutcome = Skipped | Failed | Saved(augmentation: Augmentation)

  /**
   * The body of the `for` loop on one name: names not ending in `.jpg` are
   * skipped; a missing or undecodable image, a missing annotation file, a
   * line that does not convert, or a pipeline that raises all end in the
   * `except`; otherwise the augmentation is saved.
   */
  function Process(ds: Dataset, f: string, transform: Transform, render: Render): FileOutcome {
    if !IsImageName(f) then Skipped
    else if f !in ds.images || LabelName(f) !in ds.labels then Failed
    else match Convert(ReadYoloAnnotation(ds.labels[LabelName(f)]))
      case Err(_) => Failed
      case Ok(boxes) =>
        match Augment(ds.images[f], boxes, transform, render)
        case None => Failed
        case Some(a) => Saved(a)
  }

  /** The state after one name. */
  function Step(st: RunState, ds: Dataset, f: string, transform: Transform, render: Render): RunState {
    match Process(ds, f, transform, render)
    case Skipped => st
    case Failed => st.(log := st.log + [FailureMessage(f)])
    case Saved(a) =>
      st.(images := st.images[OutputImageName(f) := a.image],
          labels := st.labels[OutputLabelName(f) := Concat(a.lines)])
  }

  /** The state after the names of `files`, in order. */
  function RunFiles(st: RunState, ds: Dataset, files: seq<string>, transform: Transform, render: Render): RunState
    decreases |files|
  {
    if files == [] then st
    else Step(RunFiles(st, ds, files[..|files| - 1], transform, render), ds, files[|files| - 1], transform, render)
  }

  /**
   * `main()`: a missing root is reported before anything is created; then the
   * output directories are made and a missing `images` directory is reported;
   * otherwise every listed name is processed.
   */
  function RunSpec(st: RunState, cfg: Config, ds: Dataset, transform: Transform, render: Render): RunState {
    if !ds.rootExists then st.(log := st.log + [InvalidPathMessage])
    else
      var made := st.(outputDirs := true);
      match ds.listing
      case None => made.(log := made.log + [MissingDirMessage(cfg.data)])
      case Some(files) => RunFiles(made, ds, files, transform, render)
  }

  // ---------------------------------------------------------------------------
  // The run as it executes

  /** One iteration of the `for` loop, with its `try`/`except`. */
  method ProcessFile(out: Output, ds: Dataset, f: string, transform: Transform, render: Render)
    modifies out
    ensures StateOf(out) == Step(old(StateOf(out)), ds, f, transform, render)
  {
    if !IsImageName(f) {
      return;
    }
    var labelName := LabelName(f);
    if f !in ds.images || labelName !in ds.labels {
      out.Print(FailureMessage(f));
      return;
    }
    var image := ds.images[f];
    var annotations := ReadYoloAnnotation(ds.labels[labelName]);
    var converted := ConvertAnnotation(annotations, image.width, image.height);
    if converted.Err? {
      out.Print(FailureMessage(f));
      return;
    }
    var ok := AugmentAndSave(out, image, converted.value, OutputImageName(f), OutputLabelName(f), transform, render);
    if !ok {
      out.Print(FailureMessage(f));
    }
  }

  /** `main()`. */
  method Run(out: Output, cfg: Config, ds: Dataset, transform: Transform, render: Render)
    modifies out
    ensures StateOf(out) == RunSpec(old(StateOf(out)), cfg, ds, transform, render)
  {
    if !ds.rootExists {
      out.Print(InvalidPathMessage);
      return;
    }
    out.MakeOutputDirs();
    if ds.listing.None? {
      out.Print(MissingDirMessage(cfg.data));
      return;
    }
    var files := ds.listing.value;
    ghost var start := StateOf(out);
    var i := 0;
    while i < |files|
      invariant 0 <= i <= |files|
      invariant StateOf(out) == RunFiles(start, ds, files[..i], transform, render)
    {
      ProcessFile(out, ds, files[i], transform, render);
      assert files[..i + 1][..i] == files[..i];
      i := i + 1;
    }
    assert files[..i] == files;
  }

  // ---------------------------------------------------------------------------
  // Properties of a run

  /** Without a dataset root nothing is created or written, and only the error is printed. */
  lemma RootMissing(st: RunState, cfg: Config, ds: Dataset, transform: Transform, render: Render)
    requires !ds.rootExists
    ensures var r := RunSpec(st, cfg, ds, transform, render);
      && r.outputDirs == st.outputDirs && r.images == st.images && r.labels == st.labels
      && r.log == st.log + ["Invalid dataset path."]
  {
  }

  /** Without an `images` directory the output directories exist, nothing is written, and the error is printed. */
  lemma ImagesDirMissing(st: RunState, cfg: Config, ds: Dataset, transform: Transform, render: Render)
    requires ds.rootExists && ds.listing.None?
    ensures var r := RunSpec(st, cfg, ds, transform, render);
      && r.outputDirs && r.images == st.images && r.labels == st.labels
      && r.log == st.log + [MissingDirMessage(cfg.data)]
  {
  }

  /** `--prefix` has no effect on the run. */
  lemma PrefixIgnored(st: RunState, cfg: Config, prefix: string, ds: Dataset, transform: Transform, render: Render)
    ensures RunSpec(st, cfg, ds, transform, render) == RunSpec(st, cfg.(prefix := prefix), ds, transform, render)
  {
  }

  /** Processing a concatenation of listings is processing one, then the other. */
  lemma {:induction false} RunFilesAppend(st: RunState, ds: Dataset, a: seq<string>, b: seq<string>, transform: Transform, render: Render)
    ensures RunFiles(st, ds, a + b, transform, render)
      == RunFiles(RunFiles(st, ds, a, transform, render), ds, b, transform, render)
    decreases |b|
  {
    if b == [] {
      assert a + b == a;
    } else {
      var b' := b[..|b| - 1];
      RunFilesAppend(st, ds, a, b', transform, render);
      assert (a + b)[..|a + b| - 1] == a + b';
    }
  }

  /** The processing of the names never touches the output directories. */
  lemma {:induction false} RunFilesKeepsDirs(st: RunState, ds: Dataset, files: seq<string>, transform: Transform, render: Render)
    ensures RunFiles(st, ds, files, transform, render).outputDirs == st.outputDirs
    decreases |files|
  {
    if files != [] {
      RunFilesKeepsDirs(st, ds, files[..|files| - 1], transform, render);
    }
  }

  /** The names of the listing that end in `.jpg`, in order. */
  function ImageNames(files: seq<string>): (names: seq<string>)
    ensures forall i :: 0 <= i < |names| ==> IsImageName(names[i])
    ensures forall f :: f in names <==> f in files && IsImageName(f)
    decreases |files|
  {
    if files == [] then []
    else
      var f := files[|files| - 1];
      assert files == files[..|files| - 1] + [f];
      ImageNames(files[..|files| - 1]) + (if IsImageName(f) then [f] else [])
  }

  /** Only the names ending in `.jpg` matter: dropping the others changes nothing. */
  lemma {:induction false} OthersSkipped(st: RunState, ds: Dataset, files: seq<string>, transform: Transform, render: Render)
    ensures RunFiles(st, ds, files, transform, render) == RunFiles(st, ds, ImageNames(files), transform, render)
    decreases |files|
  {
    if files != [] {
      var init := files[..|files| - 1];
      var f := files[|files| - 1];
      OthersSkipped(st, ds, init, transform, render);
      if IsImageName(f) {
        var names := ImageNames(init) + [f];
        assert names[..|names| - 1] == ImageNames(init);
      } else {
        assert ImageNames(files) == ImageNames(init);
      }
    }
  }

  /** The messages printed for the names of `files`: one per failing name, in order. */
  function FailureLog(ds: Dataset, files: seq<string>, transform: Transform, render: Render): (log: seq<string>)
    ensures |log| <= |files|
    decreases |files|
  {
    if files == [] then []
    else
      var f := files[|files| - 1];
      FailureLog(ds, files[..|files| - 1], transform, render)
        + (if Process(ds, f, transform, render).Failed? then [FailureMessage(f)] else [])
  }

  /** What a run prints is one failure message per failing name, in the order of the listing. */
  lemma {:induction false} RunFilesLog(st: RunState, ds: Dataset, files: seq<string>, transform: Transform, render: Render)
    ensures RunFiles(st, ds, files, transform, render).log == st.log + FailureLog(ds, files, transform, render)
    decreases |files|
  {
    if files != [] {
      RunFilesLog(st, ds, files[..|files| - 1], transform, render);
    }
  }

  /**
   * A failing name is reported and the loop goes on: the names after it are
   * processed from the state before it, with only its message added.
   */
  lemma FailureContinues(st: RunState, ds: Dataset, before: seq<string>, f: string, after: seq<string>,
                         transform: Transform, render: Render)
    requires Process(ds, f, transform, render).Failed?
    ensures var mid := RunFiles(st, ds, before, transform, render);
      RunFiles(st, ds, before + [f] + after, transform, render)
        == RunFiles(mid.(log := mid.log + [FailureMessage(f)]), ds, after, transform, render)
  {
    RunFilesAppend(st, ds, before + [f], after, transform, render);
    var upTo := before + [f];
    assert upTo[..|upTo| - 1] == before;
  }

  /** A written image is kept by every later name whose output image name differs. */
  lemma {:induction false} ImageKept(st: RunState, ds: Dataset, files: seq<string>, name: string,
                                     transform: Transform, render: Render)
    requires forall i :: 0 <= i < |files| ==> OutputImageName(files[i]) != name
    ensures var r := RunFiles(st, ds, files, transform, render);
      (name in r.images <==> name in st.images) && (name in st.images ==> r.images[name] == st.images[name])
    decreases |files|
  {
    if files != [] {
      ImageKept(st, ds, files[..|files| - 1], name, transform, render);
    }
  }

  /** An annotation file is kept by every later name whose output annotation name differs. */
  lemma {:induction false} LabelKept(st: RunState, ds: Dataset, files: seq<string>, name: string,
                                     transform: Transform, render: Render)
    requires forall i :: 0 <= i < |files| ==> OutputLabelName(files[i]) != name
    ensures var r := RunFiles(st, ds, files, transform, render);
      (name in r.labels <==> name in st.labels) && (name in st.labels ==> r.labels[name] == st.labels[name])
    decreases |files|
  {
    if files != [] {
      LabelKept(st, ds, files[..|files| - 1], name, transform, render);
    }
  }

  /** Different names have different output image names. */
  lemma OutputImageNameInjective(f: string, g: string)
    ensures OutputImageName(f) == OutputImageName(g) ==> f == g
  {
    assert f == OutputImageName(f)[4..];
    assert g == OutputImageName(g)[4..];
  }

  /** Equal output annotation names come from equal annotation names. */
  lemma OutputLabelNameOfLabel(f: string, g: string)
    ensures OutputLabelName(f) == OutputLabelName(g) ==> LabelName(f) == LabelName(g)
  {
    assert LabelName(f) == OutputLabelName(f)[4..];
    assert LabelName(g) == OutputLabelName(g)[4..];
  }

  /** A run splits at any name: the names before it, that name, and the names after it. */
  lemma RunFilesAround(st: RunState, ds: Dataset, files: seq<string>, i: nat, transform: Transform, render: Render)
    requires i < |files|
    ensures RunFiles(st, ds, files, transform, render)
      == RunFiles(Step(RunFiles(st, ds, files[..i], transform, render), ds, files[i], transform, render),
                  ds, files[i + 1..], transform, render)
  {
    var upTo := files[..i + 1];
    assert files == upTo + files[i + 1..];
    RunFilesAppend(st, ds, upTo, files[i + 1..], transform, render);
    assert upTo[..|upTo| - 1] == files[..i];
  }

  lemma LaterImageNamesDiffer(files: seq<string>, i: nat)
    requires i < |files|
    requires forall j :: i < j < |files| ==> files[j] != files[i]
    ensures var after := files[i + 1..];
      forall j :: 0 <= j < |after| ==> OutputImageName(after[j]) != OutputImageName(files[i])
  {
    var after := files[i + 1..];
    forall j | 0 <= j < |after| ensures OutputImageName(after[j]) != OutputImageName(files[i]) {
      assert after[j] == files[i + 1 + j];
      OutputImageNameInjective(after[j], files[i]);
    }
  }

  lemma LaterLabelNamesDiffer(files: seq<string>, i: nat)
    requires i < |files|
    requires forall j :: i < j < |files| ==> LabelName(files[j]) != LabelName(files[i])
    ensures var after := files[i + 1..];
      forall j :: 0 <= j < |after| ==> OutputLabelName(after[j]) != OutputLabelName(files[i])
  {
    var after := files[i + 1..];
    forall j | 0 <= j < |after| ensures OutputLabelName(after[j]) != OutputLabelName(files[i]) {
      assert after[j] == files[i + 1 + j];
      OutputLabelNameOfLabel(after[j], files[i]);
    }
  }

  /**
   * In a listing without repeated names, the image saved for a name is the
   * one in the output directory at the end of the run.
   */
  lemma SavedImageSurvives(st: RunState, ds: Dataset, files: seq<string>, i: nat, transform: Transform, render: Render)
    requires i < |files| && Process(ds, files[i], transform, render).Saved?
    requires forall j :: i < j < |files| ==> files[j] != files[i]
    ensures var r := RunFiles(st, ds, files, transform, render);
      var name := OutputImageName(files[i]);
      name in r.images && r.images[name] == Process(ds, files[i], transform, render).augmentation.image
  {
    RunFilesAround(st, ds, files, i, transform, render);
    LaterImageNamesDiffer(files, i);
    var mid := Step(RunFiles(st, ds, files[..i], transform, render), ds, files[i], transform, render);
    ImageKept(mid, ds, files[i + 1..], OutputImageName(files[i]), transform, render);
  }

  /**
   * The annotation file saved for a name is the one in the output directory
   * at the end of the run, unless a later name has the same annotation name.
   */
  lemma SavedLabelSurvives(st: RunState, ds: Dataset, files: seq<string>, i: nat, transform: Transform, render: Render)
    requires i < |files| && Process(ds, files[i], transform, render).Saved?
    requires forall j :: i < j < |files| ==> LabelName(files[j]) != LabelName(files[i])
    ensures var r := RunFiles(st, ds, files, transform, render);
      var name := OutputLabelName(files[i]);
      name in r.labels && r.labels[name] == Concat(Process(ds, files[i], transform, render).augmentation.lines)
  {
    RunFilesAround(st, ds, files, i, transform, render);
    LaterLabelNamesDiffer(files, i);
    var mid := Step(RunFiles(st, ds, files[..i], transform, render), ds, files[i], transform, render);
    LabelKept(mid, ds, files[i + 1..], OutputLabelName(files[i]), transform, render);
  }

  // ---------------------------------------------------------------------------
  // Properties of the names

  lemma ImageSuffixDoesNotOverlap()
    ensures forall k :: 0 < k < |".jpg"| ==> ".jpg"[k] != ".jpg"[0]
  {
  }

  /**
   * For an image name whose stem holds no other `.jpg`, the annotation name
   * swaps the suffix for `.txt`, and the output names add `aug_` in front.
   */
  lemma NamesOfPlainImage(stem: string)
    requires forall k :: !OccursAt(stem, ".jpg", k)
    ensures IsImageName(stem + ".jpg")
    ensures LabelName(stem + ".jpg") == stem + ".txt"
    ensures OutputImageName(stem + ".jpg") == "aug_" + stem + ".jpg"
    ensures OutputLabelName(stem + ".jpg") == "aug_" + stem + ".txt"
  {
    var f := stem + ".jpg";
    assert f[|f| - 4..] == ".jpg";
    ImageSuffixDoesNotOverlap();
    ReplaceOnlySuffix(stem, ".jpg", ".txt");
  }

  /** A pattern with a character that `s` lacks does not occur in `s`. */
  lemma MissingCharNoOccurrence(s: string, pat: string, i: nat)
    requires i < |pat| && pat[i] !in s
    ensures forall k :: !OccursAt(s, pat, k)
  {
  }

  /**
   * The first `.jpg` of a name becomes `.txt` and the rest of the name is
   * renamed the same way, wherever that `.jpg` stands: `a.jpg_b.jpg` gives
   * `a.txt` followed by the annotation name of `_b.jpg`.
   */
  lemma LabelNameOfOccurrence(a: string, b: string)
    requires forall k :: !OccursAt(a, ".jpg", k)
    ensures LabelName(a + ".jpg" + b) == a + ".txt" + LabelName(b)
  {
    ImageSuffixDoesNotOverlap();
    ReplaceFirst(a, ".jpg", ".txt", b);
  }

  /** Every `.jpg` is replaced, not just the suffix: `<stem>.jpg.jpg` reads `<stem>.txt.txt`. */
  lemma LabelNameReplacesAll(stem: string)
    requires 'j' !in stem
    ensures IsImageName(stem + ".jpg.jpg")
    ensures LabelName(stem + ".jpg.jpg") == stem + ".txt.txt"
  {
    ImageSuffixDoesNotOverlap();
    MissingCharNoOccurrence(stem, ".jpg", 1);
    ReplaceAbsent(stem, ".jpg", ".txt");
    ReplaceAppended(stem, ".jpg", ".txt");
    ReplaceAppended(stem + ".jpg", ".jpg", ".txt");
    assert stem + ".jpg" + ".jpg" == stem + ".jpg.jpg";
    assert stem + ".txt" + ".txt" == stem + ".txt.txt";
    var f := stem + ".jpg.jpg";
    assert f[|f| - 4..] == ".jpg";
  }

  lemma PlainLabelName(stem: string)
    requires 'j' !in stem
    ensures IsImageName(stem + ".txt.jpg") && LabelName(stem + ".txt.jpg") == stem + ".txt.txt"
  {
    assert 'j' !in stem + ".txt";
    MissingCharNoOccurrence(stem + ".txt", ".jpg", 1);
    NamesOfPlainImage(stem + ".txt");
    assert stem + ".txt" + ".jpg" == stem + ".txt.jpg";
    assert stem + ".txt" + ".txt" == stem + ".txt.txt";
  }

  /**
   * So two different image names, `<stem>.jpg.jpg` and `<stem>.txt.jpg`,
   * share one annotation file, and one output annotation file.
   */
  lemma LabelNamesCollide(stem: string)
    requires 'j' !in stem
    ensures IsImageName(stem + ".jpg.jpg") && IsImageName(stem + ".txt.jpg")
    ensures stem + ".jpg.jpg" != stem + ".txt.jpg"
    ensures LabelName(stem + ".jpg.jpg") == LabelName(stem + ".txt.jpg") == stem + ".txt.txt"
  {
    LabelNameReplacesAll(stem);
    PlainLabelName(stem);
    assert (stem + ".jpg.jpg")[|stem| + 1] != (stem + ".txt.jpg")[|stem| + 1];
  }
}

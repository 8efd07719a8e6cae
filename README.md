# YOLO dataset augmenter: a Dafny model

This project models the core of a small Python tool. The tool augments a YOLO
object-detection dataset. For every `.jpg` image of `<data>/images` it does five things:

1. It reads the matching annotation file of `<data>/labels`.
2. It converts each stored line `"<class> <x> <y> <w> <h>"` into the tuple
   `(x, y, w, h, class)`.
3. It calls an augmentation pipeline on the image, the tuples and their class
   labels.
4. It re-encodes the boxes the pipeline returns, paired with the labels it
   returns.
5. It writes the augmented image and the re-encoded annotation file under
   `<out>/images` and `<out>/labels`, named `aug_<name>`.

A failure on one image prints one message and the walk goes on.

The model has five modules:

- `Wrappers`: `Option`, `Result` and `Min`.
- `Text`: the Python string operations the tool relies on. These are
  `str.strip()`, `str.split(' ')`, `str.endswith`, `str.replace`, the line
  splitting of `readlines()` on a file opened in text mode, the concatenation
  done by `writelines`, and `os.path.join`.
- `Numbers`: `float(token)` as CPython's grammar accepts it, and `int(x)` of a
  float (truncation toward zero). It also has `str(n)` of an `int`, which is how
  an f-string writes a class label. A float is kept as its exact real value.
- `Utils` (utils.py):
  - `convert_annotation`, specified by the function `Convert` and implemented
    by the loop `ConvertAnnotation`;
  - the class-label comprehension and the re-encoding loop of
    `augment_and_save` (`ClassLabels`, `Encode`, `EncodeAnnotations`);
  - `read_yolo_annotation` over the text of a file;
  - `write_yolo_annotation` as an update of `Output`.
  
  `Output` is a class holding the output directories, the written files and
  the printed lines.
- `Walker` (main.py): `main()`.
  - The root check runs before the output directories are created.
  - The name derivations are `.jpg` → `.txt` and `aug_`.
  - The per-file `try`/`except` is the method `ProcessFile`.
  - The loop over the listing is the method `Run`.
  - `Run` is proved equal to the fold `RunSpec`, and the properties of a run are
    lemmas about that fold.

The central result is that the annotation format round-trips
(`Utils.AugmentReadsBack`). Suppose the pipeline returns a box list and a label
list, and `str()` writes each coordinate as a token that `float()` reads back.
Then reading the written file and converting it again gives the returned boxes.
Each box has the label paired to it by `zip` in its last slot, and there are as
many boxes as the shorter of the two lists.

Behaviour of the code worth noting:

- A line is split on a single space (`split(' ')`), not on whitespace. A doubled,
  leading or trailing space gives an empty token, and that token fails to parse.
- The class id is `int(float(token))`, so `"1.7"` converts to class 1.
- A line is stripped with `str.strip()`, but each token is stripped again by
  `float()`, whose whitespace set lacks the separators U+001C to U+001F. So a
  token `"1\x1c"` survives the line strip and then fails to parse.
- The re-encoding pairs boxes and labels with `zip`, which truncates to the
  shorter list. Lists of different lengths raise no error.
- The output names use the literal `aug_`. `--prefix` is parsed and never used.
- Only names ending in `.jpg` are processed. The annotation name replaces every
  `.jpg` in the name, not only the suffix.
- A missing `images` directory under an existing root is reported only after the
  output directories have been made.
- `image_width` and `image_height` are accepted by `convert_annotation` and
  never used.

## Model

| member | source | states |
|---|---|---|
| Text.Strip | utils.py:28 | `strip()` returns a text with no whitespace at either end, no longer than the line, and leaves a text already so unchanged; `Text.StripIsSlice` states what it removes |
| Text.Split | utils.py:102 | `split(sep)` gives one piece more than there are separators, and no piece holds the separator; `Text.JoinSplit` and `Text.SplitJoin` state that it is inverted by `join` |
| Text.StripIsSlice | utils.py:28 | `strip()` keeps a contiguous slice and removes only whitespace before and after it |
| Text.JoinSplit | utils.py:102 | joining the pieces of `split(sep)` with `sep` gives back the line |
| Text.SplitJoin | utils.py:102 | splitting the join of nonempty pieces without `sep` gives back the pieces |
| Text.Lines | utils.py:28 | the lines of `readlines()` concatenate to the text; each has a newline at most at its end, and all but the last have one |
| Text.LinesCount | utils.py:28 | there is one line per newline, plus one for unterminated text at the end |
| Text.LinesOfConcat | utils.py:27-28 | reading back a concatenation of newline-terminated lines gives those lines |
| Text.TranslateNewlines | utils.py:27 | text mode leaves no `'\r'`, and text without one is unchanged |
| Text.TranslateBreak | utils.py:27 | in text mode the first `"\r\n"`, and the first `'\r'` not followed by `'\n'`, each read as one `'\n'`, with the text before it kept and the rest translated alike |
| Text.Concat | utils.py:51 | no `ensures` of its own: `writelines` writes the strings one after another; `Text.LinesOfConcat`, `Text.ConcatNoChar` and `Utils.WrittenTextReadsBack` state what reading it back gives |
| Text.ConcatNoChar | utils.py:51 | a character absent from every written line is absent from the file |
| Text.Replace | main.py:70 | no `ensures` of its own: `str.replace` swaps every non-overlapping occurrence, left to right; `Text.ReplaceFirst`, `Text.ReplaceAbsent`, `Text.ReplaceAppended`, `Text.ReplaceOnlySuffix` and `Walker.LabelNameOfOccurrence` state what it does |
| Text.ReplaceFirst | main.py:70 | the first occurrence of a border-free pattern is replaced wherever it stands, and the scan goes on after it |
| Text.ReplaceAbsent | main.py:70 | `replace` leaves a string without the pattern unchanged |
| Text.ReplaceAppended | main.py:70 | an appended pattern without self-overlap is always replaced |
| Text.ReplaceOnlySuffix | main.py:70 | a pattern that occurs only as the suffix is swapped for the replacement |
| Text.JoinPath | main.py:45-46 | `os.path.join(a, b)` ends with `b`, and is `b` when `b` is absolute |
| Numbers.FloatStrip | utils.py:101-102 | `float()` gives a token with none of its own whitespace at either end, and leaves a token already trimmed unchanged; `Numbers.FloatStripIsSlice` states what it removes |
| Numbers.FloatStripIsSlice | utils.py:101-102 | `float()` keeps a contiguous slice and removes only its own whitespace before and after it, never the separators U+001C to U+001F |
| Numbers.ParseFloat | utils.py:101-102 | no `ensures` of its own: `float(token)` with CPython's grammar; `Numbers.EmptyTokenIsNotAFloat`, `Numbers.BlankTokenIsNotAFloat`, `Numbers.SeparatorIsNotStripped`, `Numbers.IntStringIsAFloat` and `Numbers.PointLiteral` state which tokens it accepts and with what value |
| Numbers.EmptyTokenIsNotAFloat | utils.py:101-102 | `float("")` raises |
| Numbers.BlankTokenIsNotAFloat | utils.py:101-102 | `float()` of a whitespace-only token raises |
| Numbers.SpacesAreNoLiteral | utils.py:101-102 | a run of whitespace left by the strip is not a literal |
| Numbers.SeparatorIsNotStripped | utils.py:101-102 | `float()` of a digit followed by one of U+001C to U+001F, such as `"1\x1c"`, raises, although `str.strip()` counts that character as whitespace |
| Numbers.NatToString | utils.py:88 | the digits of `str(n)` for `n ≥ 0` denote `n`, with no leading zero |
| Numbers.IntToString | utils.py:88 | `str(class_label)` in the f-string is never empty; `Numbers.IntStringIsAFloat` states that `float()` reads it back as the label |
| Numbers.IntStringIsAFloat | utils.py:88-89 | `float(str(n))` is `n` for every integer, negatives included |
| Numbers.PointLiteral | utils.py:101-102 | `float("<digits>.<digits>")` is the decimal value the digits denote |
| Numbers.Trunc | utils.py:103 | `int(x)` raises exactly on infinities and NaN, otherwise rounds toward zero (the floor for x ≥ 0, the ceiling below) |
| Numbers.TruncOfInt | utils.py:103 | `int()` of an integral float is that integer |
| Utils.Unpack | utils.py:101-103 | no `ensures` of its own: the unpacking into five names and the tuple built from them; `Utils.UnpackSpec` states when it succeeds and what it gives |
| Utils.ParseLine | utils.py:101-103 | no `ensures` of its own: one line, split on spaces, mapped through `float()` and unpacked; `Utils.ParseLineSpec`, `Utils.EmptyTokenFails` and `Utils.BlankLineFails` state its contract |
| Utils.UnpackSpec | utils.py:101-103 | unpacking succeeds exactly on five numbers with a finite first one, and gives `(x, y, w, h, int(c))` |
| Utils.ParseLineSpec | utils.py:100-103 | a line converts exactly when its single-space split is five numeric tokens with a finite first one; tokens 2–5 become the geometry and token 1, truncated, the last slot |
| Utils.EmptyTokenFails | utils.py:101-102 | a line whose split holds an empty token does not convert |
| Utils.BlankLineFails | utils.py:100-102 | a blank line does not convert |
| Utils.Convert | utils.py:98-104 | no `ensures` of its own: the conversion of a whole file, stopping at the first failing line; `Utils.ConvertSucceeds` and `Utils.ConvertFails` state its contract, and `Utils.ConvertAnnotation` implements it |
| Utils.ConvertSucceeds | utils.py:99-104 | the conversion succeeds exactly when every line converts, and then gives one tuple per line, in order |
| Utils.ConvertFails | utils.py:99-104 | a failed conversion returns no list, and names the first failing line with its error, all earlier lines converting |
| Utils.ConvertAnnotation | utils.py:98-104 | the appending loop returns the conversion of its lines, whatever the image size |
| Utils.ClassLabels | utils.py:80-81 | one label per tuple, in order, each the tuple's last slot |
| Utils.ClassLabelsOfLines | utils.py:80-81 | label i of a converted file is `int(float(first token of line i))` |
| Utils.Encode | utils.py:85-89 | there are `min(#boxes, #labels)` encoded lines |
| Utils.EncodeZips | utils.py:86-89 | line i is encoded from box i and label i |
| Utils.EncodeLine | utils.py:87-89 | no `ensures` of its own: the f-string for one box and its label; `Utils.EncodeLineIgnoresBoxClass` and `Utils.EncodeLineReadsBack` state its contract |
| Utils.EncodeLineIgnoresBoxClass | utils.py:87-89 | the box's own last slot plays no part in its line |
| Utils.EncodeAnnotations | utils.py:85-89 | the appending loop over `zip` returns the encoded lines |
| Utils.ReadYoloAnnotation | utils.py:27-28 | one stripped entry per line of the file, as many as the file has lines |
| Utils.WrittenTextReadsBack | utils.py:50-51 | reading the text written for terminated lines without `'\r'` gives those lines, stripped |
| Utils.FieldValues | utils.py:88-89 | the five fields of an encoded line parse as the label and the four coordinates |
| Utils.EncodeLineReadsBack | utils.py:87-89 | an encoded line is one terminated line, and stripping and converting it gives the box's geometry with the paired label last |
| Utils.EncodedLineAt | utils.py:86-89 | line i of the re-encoding is a terminated line that converts to box i with label i |
| Utils.EncodedFileReadsBack | utils.py:85-95 | the written annotation file reads and converts back to the zipped boxes, each with its paired label |
| Utils.LinesReadBack | utils.py:27-28 | a file of terminated lines that each convert once stripped reads back as their tuples |
| Utils.ConvertAllOk | utils.py:99-104 | lines that each convert give their tuples |
| Utils.Augment | utils.py:80-89 | no `ensures` of its own: the pipeline's call with the labels of the tuples and the re-encoding of what it returns; `Utils.AugmentReadsBack` and `Utils.AugmentAndSave` state its contract |
| Utils.AugmentReadsBack | utils.py:80-95 | after a successful augmentation, the written image is the pipeline's, and the written file converts back to its boxes relabelled by `zip` |
| Utils.Output.MakeOutputDirs | main.py:54-55 | the output directories exist afterwards; nothing else changes |
| Utils.Output.Print | main.py:86-87 | one line is added to standard output; nothing else changes |
| Utils.Output.WriteImage | utils.py:92 | the image file is replaced; nothing else changes |
| Utils.Output.WriteYoloAnnotation | utils.py:50-51 | the annotation file becomes the plain concatenation of the lines; nothing else changes |
| Utils.AugmentAndSave | utils.py:54-95 | a raising pipeline writes nothing; otherwise the image and then the annotation file are written, after all lines are encoded, and nothing is printed |
| Walker.IsImageName | main.py:67 | no `ensures` of its own: `filename.endswith('.jpg')`; `Walker.ImageNames` and `Walker.OthersSkipped` state that exactly these names are processed |
| Walker.MissingDirMessage | main.py:89-90 | no `ensures` of its own: the `FileNotFoundError` text that `os.listdir` raises at main.py:62 for a missing `images` directory; `Walker.ImagesDirMissing` states that it is the one line printed |
| Walker.LabelName | main.py:69-70 | no `ensures` of its own: `filename.replace('.jpg', '.txt')`; `Walker.LabelNameOfOccurrence`, `Walker.NamesOfPlainImage`, `Walker.LabelNameReplacesAll` and `Walker.LabelNamesCollide` state what it gives |
| Walker.OutputImageName | main.py:76-77 | no `ensures` of its own: `'aug_' + filename`; `Walker.OutputImageNameInjective` states that it is one-to-one |
| Walker.OutputLabelName | main.py:78-80 | no `ensures` of its own: `'aug_'` before the annotation name; `Walker.OutputLabelNameOfLabel` ties it to `LabelName`, and `Walker.LabelNamesCollide` shows two images sharing it |
| Walker.FailureMessage | main.py:86-87 | no `ensures` of its own: the message printed for a failing name; `Walker.RunFilesLog` states that a run prints it exactly for the failing names |
| Walker.Process | main.py:67-84 | no `ensures` of its own: the outcome for one name, skipped unless it ends in `.jpg`, failed on a missing image, a missing annotation file, a conversion error or a raising pipeline, and saved otherwise; `Walker.ProcessFile` implements it |
| Walker.Step | main.py:65-87 | no `ensures` of its own: one turn of the loop applied to the state; `Walker.ProcessFile` is proved to perform it, and `Walker.FailureContinues` states what a failing turn does |
| Walker.RunFiles | main.py:64-87 | no `ensures` of its own: the loop over the listing as a fold of `Step`; `Walker.RunFilesAppend`, `Walker.RunFilesKeepsDirs`, `Walker.OthersSkipped`, `Walker.RunFilesLog`, `Walker.ImageKept` and `Walker.LabelKept` state its contract |
| Walker.RunSpec | main.py:42-92 | no `ensures` of its own: the whole of `main()`; `Walker.Run` implements it, and `Walker.RootMissing`, `Walker.ImagesDirMissing` and `Walker.PrefixIgnored` state its contract |
| Walker.ProcessFile | main.py:64-87 | one iteration: skip a non-`.jpg` name; print one failure message for a missing image, a missing annotation file, a conversion error or a raising pipeline; otherwise save under the `aug_` names |
| Walker.Run | main.py:42-92 | `main()` gives the run described by `RunSpec` |
| Walker.RootMissing | main.py:43-55 | without the dataset root no directory is created, nothing is written, and only `Invalid dataset path.` is printed |
| Walker.ImagesDirMissing | main.py:51-62 | without an `images` directory the output directories exist, nothing is written, and the `listdir` error is printed |
| Walker.PrefixIgnored | main.py:76-80 | `--prefix` has no effect on the run |
| Walker.RunFilesAppend | main.py:64 | processing two listings in a row is processing their concatenation |
| Walker.RunFilesKeepsDirs | main.py:64-87 | the loop does not touch the output directories |
| Walker.ImageNames | main.py:67 | a name is kept exactly when it is in the listing and ends in `.jpg` |
| Walker.OthersSkipped | main.py:67 | names not ending in `.jpg` have no effect: the run over the listing is the run over its `.jpg` names |
| Walker.FailureLog | main.py:85-87 | at most one message per name |
| Walker.RunFilesLog | main.py:64-87 | the run prints exactly one message per failing name, naming it, in listing order |
| Walker.FailureContinues | main.py:64-87 | after a failing name the loop goes on from the same files, with only that name's message added |
| Walker.ImageKept | main.py:76-77 | a name whose `aug_` image name no later entry produces keeps its image |
| Walker.LabelKept | main.py:78-80 | a name whose `aug_` annotation name no later entry produces keeps its file |
| Walker.OutputImageNameInjective | main.py:76-77 | different names give different output image names |
| Walker.SavedImageSurvives | main.py:76-84 | in a listing without repeats, the image saved for a name is the one left at the end |
| Walker.SavedLabelSurvives | main.py:78-84 | the annotation file saved for a name is the one left at the end, unless a later name maps to the same annotation name |
| Walker.LabelNameOfOccurrence | main.py:69-70 | the first `.jpg` of a name becomes `.txt` wherever it stands, and the rest of the name is renamed alike, so every `.jpg` is replaced |
| Walker.NamesOfPlainImage | main.py:67-80 | for `stem.jpg` with no other `.jpg`, the annotation name is `stem.txt` and the outputs are `aug_stem.jpg` and `aug_stem.txt` |
| Walker.LabelNameReplacesAll | main.py:69-70 | every `.jpg` is replaced, not only the suffix: `<stem>.jpg.jpg` reads `<stem>.txt.txt` |
| Walker.LabelNamesCollide | main.py:67-80 | the distinct images `<stem>.jpg.jpg` and `<stem>.txt.jpg` share the annotation name `<stem>.txt.txt`, and so one output annotation file |

## Left out

- Floating-point numbers are exact reals here. The model has no IEEE rounding and
  no overflow to infinity. `float()` also
  accepts non-ASCII decimal digits, which the model does not.
- `str()` of a float, which the f-string uses for the coordinates, is the
  abstract parameter `render`. The round-trip lemmas assume that it writes a
  token that `float()` reads back. CPython's `repr` algorithm is not part of
  this model.
- The augmentation pipeline (transform.py) is an arbitrary deterministic
  function. It may raise, and it returns an image, boxes and labels of any
  lengths. The model leaves out its random choices, its configuration and its
  visibility filtering.
- `cv2.imread` and `cv2.imwrite` are left out. An image is a value, and an
  undecodable or missing image is a name absent from the dataset's image map.
- Files and directories are maps from names to contents, and `os.listdir` is
  one given sequence. Two assumptions follow: the output directories are taken
  to be different from the input ones, and `os.path.join` is not used to key
  files. Directory order, encodings, permission errors, write failures, a
  failing `os.makedirs`, and an `images` path that is not a directory are left
  out.
- Two parts of the message for a missing `images` directory are simplified:
  `repr()` of the path is modelled as the path in single quotes, and the path
  is assumed to hold no quote or backslash.
- tqdm's progress bar and its `set_description` text (main.py:62-66) go to
  standard error, which the model leaves out. The model also leaves out argparse
  and `get_transformer` (main.py:21-35, 57-59).
- The conversion error has no message. `convert_annotation`'s exception is
  caught in main.py and only the fixed failure message is printed.
- The boxes the pipeline returns are 5-tuples by their type, so the error
  that `x, y, w, h, _ = bbox` raises on a box of another shape cannot occur.

/**
 * utils.py of the YOLO dataset augmenter: reading and writing annotation
 * files, converting stored lines `"<class> <x> <y> <w> <h>"` into the box
 * tuples `(x, y, w, h, class)` handed to the augmentation pipeline, and
 * re-encoding the boxes the pipeline returns.
 */
module Utils {
  import opened Wrappers
  import opened Text
  import opened Numbers

  /** A decoded image, as `cv2.imread` returns it: its shape and its pixels. */
  datatype Image = Image(height: nat, width: nat, pixels: seq<bv8>)

  /** The tuple `(x_center, y_center, width, height, class_id)` of the box list. */
  datatype Box = Box(x: Float, y: Float, w: Float, h: Float, classId: int)

  /** What calling the augmentation pipeline does: it raises, or returns the three outputs. */
  datatype TransformResult = Raised | Transformed(image: Image, bboxes: seq<Box>, classLabels: seq<int>)

  /** The configured augmentation pipeline, called with `image`, `bboxes` and `class_labels`. */
  type Transform = (Image, seq<Box>, seq<int>) -> TransformResult

  /** `str()` of a float, as an f-string formats the coordinates the pipeline returns. */
  type Render = Float -> string

  /** Why a single line does not convert (each is a `ValueError` or `OverflowError` in Python). */
  datatype LineError =
    | BadToken(index: nat)       // float() rejects the token at this position
    | NotEnoughValues(got: nat)  // fewer than five tokens
    | TooManyValues              // more than five tokens
    | ClassIdNotFinite           // int() of an infinite or NaN class id

  /** The first line that does not convert, and why. */
  datatype ConvertError = ConvertError(line: nat, reason: LineError)

  // ---------------------------------------------------------------------------
  // Decoding one line

  /** `f` applied to every element, as Python's `map` yields them. */
  function MapAll<A, B>(f: A -> B, xs: seq<A>): (ys: seq<B>)
    ensures |ys| == |xs|
    ensures forall k :: 0 <= k < |xs| ==> ys[k] == f(xs[k])
  {
    seq(|xs|, k requires 0 <= k < |xs| => f(xs[k]))
  }

  lemma MapFive<A, B>(f: A -> B, a: A, b: A, c: A, d: A, e: A)
    ensures MapAll(f, [a, b, c, d, e]) == [f(a), f(b), f(c), f(d), f(e)]
  {
  }

  /** `float()` of every token, as `map(float, tokens)` yields them. */
  function ParseAll(tokens: seq<string>): seq<Option<Float>> {
    MapAll(ParseFloat, tokens)
  }

  /** Position of the first failure among the first `n` values, or `n` if there is none. */
  function FirstNone<T>(values: seq<Option<T>>, n: nat): (r: nat)
    requires n <= |values|
    ensures r <= n
    ensures r < n ==> values[r].None?
    ensures forall k :: 0 <= k < r ==> values[k].Some?
  {
    if n == 0 then 0
    else
      var p := FirstNone(values, n - 1);
      if p < n - 1 then p
      else if values[n - 1].None? then n - 1 else n
  }

  /**
   * The unpacking `class_id, x, y, w, h = map(float, tokens)` of the float
   * values of the tokens, then the tuple with `int(class_id)` last.
   * Unpacking pulls the values one by one, and a sixth one is pulled before
   * "too many values" is raised.
   */
  function Unpack(values: seq<Option<Float>>): Result<Box, LineError> {
    var pulled := Min(|values|, 6);
    var bad := FirstNone(values, pulled);
    if bad < pulled then Err(BadToken(bad))
    else if |values| < 5 then Err(NotEnoughValues(|values|))
    else if |values| > 5 then Err(TooManyValues)
    else match Trunc(values[0].value)
      case None => Err(ClassIdNotFinite)
      case Some(c) => Ok(Box(values[1].value, values[2].value, values[3].value, values[4].value, c))
  }

  /** One iteration of `convert_annotation`: `line.split(' ')`, `float()` of each token, and the unpacking. */
  function ParseLine(line: string): Result<Box, LineError> {
    Unpack(ParseAll(Split(line, ' ')))
  }

  /** Five values, all numbers, the first one finite. */
  predicate WellFormedValues(values: seq<Option<Float>>) {
    && |values| == 5
    && (forall k :: 0 <= k < 5 ==> values[k].Some?)
    && values[0].value.Finite?
  }

  /**
   * A stored line that converts: five single-space-separated tokens that
   * `float()` accepts, the first one finite.
   */
  predicate WellFormedLine(line: string) {
    WellFormedValues(ParseAll(Split(line, ' ')))
  }

  /** Unpacking succeeds exactly on five numbers with a finite first one, and then keeps their order. */
  lemma UnpackSpec(values: seq<Option<Float>>)
    ensures Unpack(values).Ok? <==> WellFormedValues(values)
    ensures Unpack(values).Ok? ==>
      Unpack(values).value == Box(values[1].value, values[2].value, values[3].value, values[4].value,
                                  Trunc(values[0].value).value)
  {
    if WellFormedValues(values) {
      assert FirstNone(values, 5) == 5;
    }
  }

  /**
   * A line converts exactly when it is well formed, and then tokens 2 to 5
   * become the geometry and token 1, truncated toward zero, the last slot.
   */
  lemma ParseLineSpec(line: string)
    ensures ParseLine(line).Ok? <==> WellFormedLine(line)
    ensures ParseLine(line).Ok? ==>
      var t := Split(line, ' ');
      ParseLine(line).value == Box(ParseFloat(t[1]).value, ParseFloat(t[2]).value,
                                   ParseFloat(t[3]).value, ParseFloat(t[4]).value,
                                   Trunc(ParseFloat(t[0]).value).value)
  {
    UnpackSpec(ParseAll(Split(line, ' ')));
  }

  /** An empty token (a doubled, leading or trailing space, or a blank line) makes the line fail. */
  lemma EmptyTokenFails(line: string)
    requires "" in Split(line, ' ')
    ensures ParseLine(line).Err?
  {
    var t := Split(line, ' ');
    EmptyTokenIsNotAFloat();
    ParseLineSpec(line);
    if |t| == 5 {
      var k :| 0 <= k < 5 && t[k] == "";
      assert ParseFloat(t[k]).None?;
    }
  }

  /** A blank line does not convert, so an annotation file with one fails as a whole. */
  lemma BlankLineFails()
    ensures ParseLine("").Err?
  {
    assert Split("", ' ') == [""];
    EmptyTokenFails("");
  }

  // ---------------------------------------------------------------------------
  // convert_annotation

  /** The result of converting each line on its own. */
  function ParseLines(lines: seq<string>): (results: seq<Result<Box, LineError>>)
    ensures |results| == |lines|
    ensures forall k :: 0 <= k < |lines| ==> results[k] == ParseLine(lines[k])
  {
    seq(|lines|, k requires 0 <= k < |lines| => ParseLine(lines[k]))
  }

  /**
   * The loop of `convert_annotation` over the per-line results: the boxes in
   * order, or the position and error of the first line that fails.
   */
  function Collect(results: seq<Result<Box, LineError>>): Result<seq<Box>, ConvertError>
    decreases |results|
  {
    if results == [] then Ok([])
    else match Collect(results[..|results| - 1])
      case Err(e) => Err(e)
      case Ok(bs) =>
        match results[|results| - 1]
        case Err(e) => Err(ConvertError(|results| - 1, e))
        case Ok(b) => Ok(bs + [b])
  }

  /** `convert_annotation` specified on the whole list. */
  function Convert(lines: seq<string>): Result<seq<Box>, ConvertError> {
    Collect(ParseLines(lines))
  }

  lemma {:induction false} CollectSucceeds(results: seq<Result<Box, LineError>>)
    ensures Collect(results).Ok? <==> forall k :: 0 <= k < |results| ==> results[k].Ok?
    ensures Collect(results).Ok? ==>
      && |Collect(results).value| == |results|
      && forall k :: 0 <= k < |results| ==> Collect(results).value[k] == results[k].value
    decreases |results|
  {
    if results != [] {
      var init := results[..|results| - 1];
      CollectSucceeds(init);
      assert forall k :: 0 <= k < |init| ==> init[k] == results[k];
    }
  }

  lemma {:induction false} CollectFails(results: seq<Result<Box, LineError>>)
    ensures Collect(results).Err? ==>
      var e := Collect(results).error;
      && e.line < |results|
      && results[e.line] == Err(e.reason)
      && forall k :: 0 <= k < e.line ==> results[k].Ok?
    decreases |results|
  {
    if results != [] {
      var init := results[..|results| - 1];
      CollectFails(init);
      CollectSucceeds(init);
      assert forall k :: 0 <= k < |init| ==> init[k] == results[k];
    }
  }

  /** Results after the first failing one do not change the error. */
  lemma {:induction false} CollectKeepsError(prefix: seq<Result<Box, LineError>>, results: seq<Result<Box, LineError>>)
    requires |prefix| <= |results| && results[..|prefix|] == prefix
    requires Collect(prefix).Err?
    ensures Collect(results) == Collect(prefix)
    decreases |results|
  {
    if |results| > |prefix| {
      var init := results[..|results| - 1];
      assert init[..|prefix|] == prefix;
      CollectKeepsError(prefix, init);
    } else {
      assert results == prefix;
    }
  }

  /**
   * Conversion succeeds exactly when every line converts, and then gives one
   * box per line, in the same order.
   */
  lemma ConvertSucceeds(lines: seq<string>)
    ensures Convert(lines).Ok? <==> forall k :: 0 <= k < |lines| ==> ParseLine(lines[k]).Ok?
    ensures Convert(lines).Ok? ==>
      && |Convert(lines).value| == |lines|
      && forall k :: 0 <= k < |lines| ==> Convert(lines).value[k] == ParseLine(lines[k]).value
  {
    CollectSucceeds(ParseLines(lines));
  }

  /** A failed conversion names the first line that does not convert, with that line's error. */
  lemma ConvertFails(lines: seq<string>)
    ensures Convert(lines).Err? ==>
      var e := Convert(lines).error;
      && e.line < |lines|
      && ParseLine(lines[e.line]) == Err(e.reason)
      && forall k :: 0 <= k < e.line ==> ParseLine(lines[k]).Ok?
  {
    CollectFails(ParseLines(lines));
  }

  /**
   * `convert_annotation(annotation, image_width, image_height)`: the loop that
   * appends one tuple per line. The image size takes no part in the result.
   */
  method ConvertAnnotation(annotation: seq<string>, imageWidth: int, imageHeight: int)
    returns (r: Result<seq<Box>, ConvertError>)
    ensures r == Convert(annotation)
  {
    ghost var results := ParseLines(annotation);
    var converted: seq<Box> := [];
    var i := 0;
    while i < |annotation|
      invariant 0 <= i <= |annotation|
      invariant Collect(results[..i]) == Ok(converted)
    {
      var parsed := ParseLine(annotation[i]);
      assert results[..i + 1][..i] == results[..i];
      if parsed.Err? {
        CollectKeepsError(results[..i + 1], results);
        return Err(ConvertError(i, parsed.error));
      }
      converted := converted + [parsed.value];
      i := i + 1;
    }
    assert results[..i] == results;
    r := Ok(converted);
  }

  // ---------------------------------------------------------------------------
  // The class labels handed to the pipeline

  /** `[ann[-1] for ann in annotations]`: the last slot of every tuple, in order. */
  function ClassLabels(annotations: seq<Box>): (labels: seq<int>)
    ensures |labels| == |annotations|
    ensures forall i :: 0 <= i < |annotations| ==> labels[i] == annotations[i].classId
  {
    seq(|annotations|, i requires 0 <= i < |annotations| => annotations[i].classId)
  }

  /** Label i of a converted file is the truncated first token of line i. */
  lemma ClassLabelsOfLines(lines: seq<string>)
    requires Convert(lines).Ok?
    ensures var labels := ClassLabels(Convert(lines).value);
      && |labels| == |lines|
      && forall i :: 0 <= i < |lines| ==>
           WellFormedLine(lines[i]) && labels[i] == Trunc(ParseFloat(Split(lines[i], ' ')[0]).value).value
  {
    ConvertSucceeds(lines);
    forall i | 0 <= i < |lines|
      ensures WellFormedLine(lines[i])
      ensures Convert(lines).value[i].classId == Trunc(ParseFloat(Split(lines[i], ' ')[0]).value).value
    {
      ParseLineSpec(lines[i]);
    }
  }

  // ---------------------------------------------------------------------------
  // Re-encoding the pipeline's output

  /** `f"{class_label} {x_center} {y_center} {width} {height}\n"`. */
  function EncodeLine(render: Render, box: Box, classLabel: int): string {
    IntToString(classLabel) + " " + render(box.x) + " " + render(box.y) + " "
      + render(box.w) + " " + render(box.h) + "\n"
  }

  /** The box's own last slot is unpacked into `_` and plays no part in the line. */
  lemma EncodeLineIgnoresBoxClass(render: Render, box: Box, classLabel: int, other: int)
    ensures EncodeLine(render, box.(classId := other), classLabel) == EncodeLine(render, box, classLabel)
  {
  }

  /**
   * The loop over `zip(transformed_bboxes, transformed['class_labels'])`
   * specified on the two sequences: pairs are taken positionally until the
   * shorter one runs out.
   */
  function Encode(render: Render, bboxes: seq<Box>, labels: seq<int>): (lines: seq<string>)
    ensures |lines| == Min(|bboxes|, |labels|)
  {
    if bboxes == [] || labels == [] then []
    else [EncodeLine(render, bboxes[0], labels[0])] + Encode(render, bboxes[1..], labels[1..])
  }

  /** One line per pair of `zip`: as many as the shorter input, line i from box i and classLabel i. */
  lemma {:induction false} EncodeZips(render: Render, bboxes: seq<Box>, labels: seq<int>)
    ensures forall i :: 0 <= i < Min(|bboxes|, |labels|) ==>
      Encode(render, bboxes, labels)[i] == EncodeLine(render, bboxes[i], labels[i])
  {
    if bboxes != [] && labels != [] {
      EncodeZips(render, bboxes[1..], labels[1..]);
    }
  }

  /** The re-encoding loop of `augment_and_save`, appending to `transformed_annotations`. */
  method EncodeAnnotations(render: Render, bboxes: seq<Box>, labels: seq<int>) returns (lines: seq<string>)
    ensures lines == Encode(render, bboxes, labels)
  {
    var n := Min(|bboxes|, |labels|);
    lines := [];
    var i := 0;
    while i < n
      invariant 0 <= i <= n
      invariant |lines| == i
      invariant forall k :: 0 <= k < i ==> lines[k] == EncodeLine(render, bboxes[k], labels[k])
    {
      var box := bboxes[i];
      lines := lines + [EncodeLine(render, box, labels[i])];
      i := i + 1;
    }
    EncodedLinesAre(render, bboxes, labels, lines);
  }

  /** Lines that agree with the re-encoding position by position are the re-encoding. */
  lemma EncodedLinesAre(render: Render, bboxes: seq<Box>, labels: seq<int>, lines: seq<string>)
    requires |lines| == Min(|bboxes|, |labels|)
    requires forall k :: 0 <= k < |lines| ==> lines[k] == EncodeLine(render, bboxes[k], labels[k])
    ensures lines == Encode(render, bboxes, labels)
  {
    EncodeZips(render, bboxes, labels);
  }

  // ---------------------------------------------------------------------------
  // Annotation files

  /**
   * `read_yolo_annotation` over the text of the file: one entry per line,
   * each stripped of surrounding whitespace.
   */
  function ReadYoloAnnotation(content: string): (annotations: seq<string>)
    ensures var lines := Lines(TranslateNewlines(content));
      && |annotations| == |lines| == LineCount(TranslateNewlines(content))
      && forall i :: 0 <= i < |annotations| ==> Trimmed(annotations[i]) && annotations[i] == Strip(lines[i])
  {
    var lines := Lines(TranslateNewlines(content));
    LinesCount(TranslateNewlines(content));
    seq(|lines|, i requires 0 <= i < |lines| => Strip(lines[i]))
  }

  /** The text `write_yolo_annotation` writes: the lines concatenated, nothing added. */
  lemma {:induction false} WrittenTextReadsBack(lines: seq<string>)
    requires forall i :: 0 <= i < |lines| ==> IsTerminatedLine(lines[i]) && '\r' !in lines[i]
    ensures ReadYoloAnnotation(Concat(lines)) == seq(|lines|, i requires 0 <= i < |lines| => Strip(lines[i]))
  {
    ConcatNoChar(lines, '\r');
    LinesOfConcat(lines);
  }

  // ---------------------------------------------------------------------------
  // Round trip of the annotation format

  /** A nonempty text without whitespace: one token of `split(' ')` that `strip()` leaves alone. */
  predicate IsToken(t: string) {
    |t| > 0 && NoSpace(t)
  }

  /** `render` writes `f` as one token that `float()` reads back as `f`. */
  predicate Renders(render: Render, f: Float) {
    IsToken(render(f)) && ParseFloat(render(f)) == Some(f)
  }

  /** The four coordinates of `box` render faithfully. */
  predicate GeometryRenders(render: Render, box: Box) {
    Renders(render, box.x) && Renders(render, box.y) && Renders(render, box.w) && Renders(render, box.h)
  }

  lemma NoSpaceNoChar(t: string, c: char)
    requires NoSpace(t) && IsSpace(c)
    ensures c !in t
  {
  }

  lemma IntStringHasNoSpace(n: int)
    ensures IsToken(IntToString(n))
  {
    var k: nat := if n < 0 then -n else n;
    var ds := NatToString(k);
    assert forall i :: 0 <= i < |ds| ==> IsDigit(ds[i]);
  }

  /** Stripping a trimmed text followed by a newline leaves the text. */
  lemma StripNewline(core: string)
    requires |core| > 0 && Trimmed(core)
    ensures Strip(core + "\n") == core
  {
    var s := core + "\n";
    assert TrimStart(s) == s;
    assert s[..|s| - 1] == core;
    assert TrimEnd(s) == TrimEnd(core);
  }

  /** The five fields of an encoded line, as the f-string places them after the label's text. */
  function Fields(render: Render, box: Box, labelText: string): seq<string> {
    [labelText, render(box.x), render(box.y), render(box.w), render(box.h)]
  }

  /** An encoded line is its fields joined by single spaces, then a newline. */
  lemma EncodeLineFields(render: Render, box: Box, classLabel: int)
    ensures EncodeLine(render, box, classLabel) == Join(Fields(render, box, IntToString(classLabel)), ' ') + "\n"
  {
    JoinFive(IntToString(classLabel), render(box.x), render(box.y), render(box.w), render(box.h), ' ');
  }

  /** Every field of the line is a token. */
  predicate FieldsAreTokens(render: Render, box: Box, labelText: string) {
    IsToken(labelText) && IsToken(render(box.x)) && IsToken(render(box.y))
      && IsToken(render(box.w)) && IsToken(render(box.h))
  }

  /** With a faithful `render`, the label's text aside, every field is a token. */
  lemma RenderedFieldsAreTokens(render: Render, box: Box, labelText: string)
    requires GeometryRenders(render, box) && IsToken(labelText)
    ensures FieldsAreTokens(render, box, labelText)
  {
  }

  /** Each of the five fields is a token, by position. */
  lemma TokenFields(render: Render, box: Box, labelText: string)
    requires FieldsAreTokens(render, box, labelText)
    ensures var f := Fields(render, box, labelText);
      |f| == 5 && forall k :: 0 <= k < 5 ==> IsToken(f[k])
  {
  }

  /** Splitting the joined fields on spaces gives back the fields. */
  lemma FieldsSplit(render: Render, box: Box, labelText: string)
    requires FieldsAreTokens(render, box, labelText)
    ensures Split(Join(Fields(render, box, labelText), ' '), ' ') == Fields(render, box, labelText)
  {
    var f := Fields(render, box, labelText);
    TokenFields(render, box, labelText);
    forall k | 0 <= k < 5 ensures ' ' !in f[k] {
      NoSpaceNoChar(f[k], ' ');
    }
    SplitJoin(f, ' ');
  }

  lemma RenderedValue(render: Render, f: Float)
    requires Renders(render, f)
    ensures ParseFloat(render(f)) == Some(f)
  {
  }

  /** With a faithful `render` and a label text that reads as the label, the fields read as the box's values. */
  lemma FieldValues(render: Render, box: Box, labelText: string, classLabel: int)
    requires GeometryRenders(render, box)
    requires ParseFloat(labelText) == Some(Finite(classLabel as real))
    ensures ParseAll(Fields(render, box, labelText))
      == [Some(Finite(classLabel as real)), Some(box.x), Some(box.y), Some(box.w), Some(box.h)]
  {
    RenderedValue(render, box.x);
    RenderedValue(render, box.y);
    RenderedValue(render, box.w);
    RenderedValue(render, box.h);
    MapFive(ParseFloat, labelText, render(box.x), render(box.y), render(box.w), render(box.h));
  }

  /** Five values, an integral one first, unpack to the box of the other four with that integer last. */
  lemma UnpackFive(values: seq<Option<Float>>, box: Box, classLabel: int)
    requires |values| == 5 && values[0] == Some(Finite(classLabel as real))
    requires values[1] == Some(box.x) && values[2] == Some(box.y)
    requires values[3] == Some(box.w) && values[4] == Some(box.h)
    ensures Unpack(values) == Ok(box.(classId := classLabel))
  {
    UnpackSpec(values);
    TruncOfInt(classLabel);
  }

  /** The joined fields form one line: no newline or carriage return inside, no whitespace at the ends. */
  lemma FieldsFormOneLine(render: Render, box: Box, labelText: string)
    requires FieldsAreTokens(render, box, labelText)
    ensures var core := Join(Fields(render, box, labelText), ' ');
      |core| > 0 && Trimmed(core) && '\n' !in core && '\r' !in core
  {
    var f := Fields(render, box, labelText);
    TokenFields(render, box, labelText);
    forall k | 0 <= k < 5 ensures '\n' !in f[k] && '\r' !in f[k] {
      NoSpaceNoChar(f[k], '\n');
      NoSpaceNoChar(f[k], '\r');
    }
    JoinAvoids(f, ' ', '\n');
    JoinAvoids(f, ' ', '\r');
    JoinEnds(f, ' ');
  }

  /**
   * An encoded line is a single terminated line, and stripping and decoding it
   * gives back the box's geometry with the paired classLabel in the last slot.
   */
  lemma EncodeLineReadsBack(render: Render, box: Box, classLabel: int)
    requires GeometryRenders(render, box)
    ensures IsTerminatedLine(EncodeLine(render, box, classLabel)) && '\r' !in EncodeLine(render, box, classLabel)
    ensures ParseLine(Strip(EncodeLine(render, box, classLabel))) == Ok(box.(classId := classLabel))
  {
    var labelText := IntToString(classLabel);
    IntStringHasNoSpace(classLabel);
    IntStringIsAFloat(classLabel);
    var core := Join(Fields(render, box, labelText), ' ');
    EncodeLineFields(render, box, classLabel);
    RenderedFieldsAreTokens(render, box, labelText);
    FieldsFormOneLine(render, box, labelText);
    TerminatedCore(core);
    StripNewline(core);
    FieldsParse(render, box, labelText, classLabel);
  }

  /** A text without line breaks, followed by a newline, is one terminated line. */
  lemma TerminatedCore(core: string)
    requires '\n' !in core && '\r' !in core
    ensures IsTerminatedLine(core + "\n") && '\r' !in core + "\n"
  {
    var line := core + "\n";
    assert line[..|line| - 1] == core;
  }

  /** The joined fields, before the newline, convert to the box with the label's value last. */
  lemma FieldsParse(render: Render, box: Box, labelText: string, classLabel: int)
    requires GeometryRenders(render, box) && IsToken(labelText)
    requires ParseFloat(labelText) == Some(Finite(classLabel as real))
    ensures ParseLine(Join(Fields(render, box, labelText), ' ')) == Ok(box.(classId := classLabel))
  {
    RenderedFieldsAreTokens(render, box, labelText);
    FieldsSplit(render, box, labelText);
    FieldValues(render, box, labelText, classLabel);
    UnpackFive(ParseAll(Fields(render, box, labelText)), box, classLabel);
  }

  /**
   * Reading back the annotation file written for the pipeline's output gives
   * the returned boxes, as many as `zip` pairs, each with the classLabel paired to
   * it in place of its own last slot.
   */
  lemma EncodedFileReadsBack(render: Render, bboxes: seq<Box>, labels: seq<int>)
    requires forall i :: 0 <= i < |bboxes| ==> GeometryRenders(render, bboxes[i])
    ensures var back := Convert(ReadYoloAnnotation(Concat(Encode(render, bboxes, labels))));
      && back.Ok?
      && |back.value| == Min(|bboxes|, |labels|)
      && forall i :: 0 <= i < |back.value| ==> back.value[i] == bboxes[i].(classId := labels[i])
  {
    var lines := Encode(render, bboxes, labels);
    var boxes := Relabel(bboxes, labels);
    EncodeZips(render, bboxes, labels);
    forall i | 0 <= i < |lines|
      ensures IsTerminatedLine(lines[i]) && '\r' !in lines[i]
      ensures ParseLine(Strip(lines[i])) == Ok(boxes[i])
    {
      EncodedLineAt(render, bboxes, labels, i);
    }
    LinesReadBack(lines, boxes);
  }

  /** The boxes of `zip(bboxes, labels)`, each with its paired label in the last slot. */
  function Relabel(bboxes: seq<Box>, labels: seq<int>): (boxes: seq<Box>)
    ensures |boxes| == Min(|bboxes|, |labels|)
    ensures forall i :: 0 <= i < |boxes| ==> boxes[i] == bboxes[i].(classId := labels[i])
  {
    seq(Min(|bboxes|, |labels|), i requires 0 <= i < Min(|bboxes|, |labels|) => bboxes[i].(classId := labels[i]))
  }

  /** Line i of the encoded file is a terminated line that decodes to relabelled box i. */
  lemma EncodedLineAt(render: Render, bboxes: seq<Box>, labels: seq<int>, i: nat)
    requires i < |bboxes| && i < |labels| && GeometryRenders(render, bboxes[i])
    ensures var l := Encode(render, bboxes, labels)[i];
      && IsTerminatedLine(l) && '\r' !in l
      && ParseLine(Strip(l)) == Ok(bboxes[i].(classId := labels[i]))
  {
    EncodeZips(render, bboxes, labels);
    EncodeLineReadsBack(render, bboxes[i], labels[i]);
  }

  /** A file of terminated lines that each decode, once stripped, reads back as their boxes. */
  lemma LinesReadBack(lines: seq<string>, boxes: seq<Box>)
    requires |boxes| == |lines|
    requires forall i :: 0 <= i < |lines| ==> IsTerminatedLine(lines[i]) && '\r' !in lines[i]
    requires forall i :: 0 <= i < |lines| ==> ParseLine(Strip(lines[i])) == Ok(boxes[i])
    ensures Convert(ReadYoloAnnotation(Concat(lines))) == Ok(boxes)
  {
    WrittenTextReadsBack(lines);
    var read := ReadYoloAnnotation(Concat(lines));
    assert |read| == |lines| && forall i :: 0 <= i < |read| ==> read[i] == Strip(lines[i]);
    ConvertAllOk(read, boxes);
  }

  /** Lines that all convert give their boxes. */
  lemma ConvertAllOk(lines: seq<string>, boxes: seq<Box>)
    requires |lines| == |boxes|
    requires forall i :: 0 <= i < |lines| ==> ParseLine(lines[i]) == Ok(boxes[i])
    ensures Convert(lines) == Ok(boxes)
  {
    var results := ParseLines(lines);
    CollectSucceeds(results);
    assert Collect(results).value == boxes;
  }

  // ---------------------------------------------------------------------------
  // augment_and_save

  /** What a successful augmentation writes: the image and the annotation lines. */
  datatype Augmentation = Augmentation(image: Image, lines: seq<string>)

  /**
   * `augment_and_save` as a value: the pipeline is called with the tuples and
   * their last slots as labels; if it raises nothing is produced, otherwise its
   * image and its re-encoded boxes.
   */
  function Augment(image: Image, annotations: seq<Box>, transform: Transform, render: Render): Option<Augmentation> {
    match transform(image, annotations, ClassLabels(annotations))
    case Raised => None
    case Transformed(img, bboxes, labels) => Some(Augmentation(img, Encode(render, bboxes, labels)))
  }

  /**
   * The file written for an augmented image reads back as the pipeline's
   * returned boxes, re-paired positionally with its returned labels.
   */
  lemma AugmentReadsBack(image: Image, annotations: seq<Box>, transform: Transform, render: Render)
    requires transform(image, annotations, ClassLabels(annotations)).Transformed?
    requires var out := transform(image, annotations, ClassLabels(annotations));
      forall i :: 0 <= i < |out.bboxes| ==> GeometryRenders(render, out.bboxes[i])
    ensures var out := transform(image, annotations, ClassLabels(annotations));
      var a := Augment(image, annotations, transform, render);
      var back := Convert(ReadYoloAnnotation(Concat(a.value.lines)));
      && a.Some? && a.value.image == out.image
      && back.Ok? && |back.value| == Min(|out.bboxes|, |out.classLabels|)
      && forall i :: 0 <= i < |back.value| ==> back.value[i] == out.bboxes[i].(classId := out.classLabels[i])
  {
    var out := transform(image, annotations, ClassLabels(annotations));
    EncodedFileReadsBack(render, out.bboxes, out.classLabels);
  }

  /**
   * Where the outputs of a run go: whether the two output directories exist,
   * the images and annotation files written into them by file name, and the
   * lines printed to standard output.
   */
  class Output {
    var outputDirs: bool
    var images: map<string, Image>
    var labels: map<string, string>
    var log: seq<string>

    constructor (images: map<string, Image>, labels: map<string, string>, outputDirs: bool)
      ensures this.images == images && this.labels == labels && this.outputDirs == outputDirs && log == []
    {
      this.images := images;
      this.labels := labels;
      this.outputDirs := outputDirs;
      log := [];
    }

    /** The two `os.makedirs(..., exist_ok=True)` calls. */
    method MakeOutputDirs()
      modifies this
      ensures outputDirs
      ensures images == old(images) && labels == old(labels) && log == old(log)
    {
      outputDirs := true;
    }

    /** `print(line)`. */
    method Print(line: string)
      modifies this
      ensures log == old(log) + [line]
      ensures outputDirs == old(outputDirs) && images == old(images) && labels == old(labels)
    {
      log := log + [line];
    }

    /** `cv2.imwrite(name, image)`. */
    method WriteImage(name: string, image: Image)
      modifies this
      ensures images == old(images)[name := image]
      ensures outputDirs == old(outputDirs) && labels == old(labels) && log == old(log)
    {
      images := images[name := image];
    }

    /** `write_yolo_annotation(name, annotations)`: the file is replaced by the lines as they are. */
    method WriteYoloAnnotation(name: string, annotations: seq<string>)
      modifies this
      ensures labels == old(labels)[name := Concat(annotations)]
      ensures outputDirs == old(outputDirs) && images == old(images) && log == old(log)
    {
      labels := labels[name := Concat(annotations)];
    }
  }

  /**
   * `augment_and_save`: `ok` is false when the pipeline raised, and then
   * nothing is written; otherwise the image and the annotation file are both
   * written, after all lines have been encoded.
   */
  method AugmentAndSave(out: Output, image: Image, annotations: seq<Box>, outputImagePath: string,
                        outputAnnotationPath: string, transform: Transform, render: Render)
    returns (ok: bool)
    modifies out
    ensures ok == Augment(image, annotations, transform, render).Some?
    ensures ok ==> var a := Augment(image, annotations, transform, render).value;
      && out.images == old(out.images)[outputImagePath := a.image]
      && out.labels == old(out.labels)[outputAnnotationPath := Concat(a.lines)]
    ensures !ok ==> out.images == old(out.images) && out.labels == old(out.labels)
    ensures out.outputDirs == old(out.outputDirs) && out.log == old(out.log)
  {
    var transformed := transform(image, annotations, ClassLabels(annotations));
    if transformed.Raised? {
      return false;
    }
    var lines := EncodeAnnotations(render, transformed.bboxes, transformed.classLabels);
    out.WriteImage(outputImagePath, transformed.image);
    out.WriteYoloAnnotation(outputAnnotationPath, lines);
    ok := true;
  }
}

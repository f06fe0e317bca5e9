/**
  The string transformations of `hw-04` (`StrTransformOperation` and its
  helpers) and of `hw-03` (`transform_string`). Case mapping and
  `slug::slugify` follow Unicode tables and are parameters here; deleting
  spaces, the newline rule of the slugify wrapper, operation names and
  the dispatch are modelled.
*/
module StrTransform {
  import opened Wrappers
  import opened Text
  import Framing

  datatype Operation = Lowercase | Uppercase | NoSpaces | Slugify | Csv

  datatype TransformError = InvalidTransform

  /** The command-line name of each operation. */
  function Name(op: Operation): string
  {
    match op
    case Lowercase => "lowercase"
    case Uppercase => "uppercase"
    case NoSpaces => "no-spaces"
    case Slugify => "slugify"
    case Csv => "csv"
  }

  /**
    `StrTransformOperation::from_str`: exactly the five names, spelled as
    given, are accepted; anything else, including other cases and
    surrounding whitespace, is an invalid transform.
  */
  function FromStr(s: string): (r: Result<Operation, TransformError>)
    ensures r.Ok? <==> s in {"lowercase", "uppercase", "no-spaces", "slugify", "csv"}
    ensures r.Err? ==> r.error == InvalidTransform
  {
    if s == "lowercase" then Ok(Lowercase)
    else if s == "uppercase" then Ok(Uppercase)
    else if s == "no-spaces" then Ok(NoSpaces)
    else if s == "slugify" then Ok(Slugify)
    else if s == "csv" then Ok(Csv)
    else Err(InvalidTransform)
  }

  /** Names and operations correspond one to one. */
  lemma NameRoundTrip(op: Operation, s: string)
    ensures FromStr(Name(op)) == Ok(op)
    ensures FromStr(s) == Ok(op) <==> s == Name(op)
  {
  }

  /** `no_spaces` / `transform_no_spaces`: the input with every `' '` deleted. */
  function RemoveSpaces(s: string): (r: string)
    ensures ' ' !in r
    ensures |r| <= |s|
    ensures forall c :: c != ' ' ==> multiset(r)[c] == multiset(s)[c]
  {
    if s == [] then []
    else
      assert s == [s[0]] + s[1..];
      (if s[0] == ' ' then [] else [s[0]]) + RemoveSpaces(s[1..])
  }

  /** Deleting spaces works piece by piece: it commutes with concatenation. */
  lemma {:induction false} RemoveSpacesAppend(a: string, b: string)
    ensures RemoveSpaces(a + b) == RemoveSpaces(a) + RemoveSpaces(b)
  {
    if a != [] {
      assert (a + b)[1..] == a[1..] + b;
      RemoveSpacesAppend(a[1..], b);
    } else {
      assert a + b == b;
    }
  }

  /** A string is left alone exactly when it has no space; so deleting spaces twice is deleting them once. */
  lemma RemoveSpacesFixpoint(s: string)
    ensures RemoveSpaces(s) == s <==> ' ' !in s
    ensures RemoveSpaces(RemoveSpaces(s)) == RemoveSpaces(s)
  {
    if ' ' !in s {
      RemoveSpacesNoOp(s);
    }
    RemoveSpacesNoOp(RemoveSpaces(s));
  }

  /** Without spaces there is nothing to delete. */
  lemma {:induction false} RemoveSpacesNoOp(s: string)
    requires ' ' !in s
    ensures RemoveSpaces(s) == s
  {
    if s != [] {
      assert s[0] in s;
      assert ' ' !in s[1..] by { assert forall j :: 0 <= j < |s[1..]| ==> s[1..][j] == s[j + 1]; }
      RemoveSpacesNoOp(s[1..]);
    }
  }

  predicate EndsWithNewline(s: string)
  {
    |s| > 0 && s[|s| - 1] == '\n'
  }

  /**
    The slugify wrapper (`slugify` in `hw-04`, `transform_slugify` in
    `hw-03`): a line ending in a newline is slugified and gets its newline
    back; anything else, such as a last line without one, passes through
    unchanged. `slug` stands for `slug::slugify`.
  */
  function SlugifyLine(input: string, slug: string -> string): (r: string)
    ensures !EndsWithNewline(input) ==> r == input
    ensures EndsWithNewline(r) <==> EndsWithNewline(input)
    ensures EndsWithNewline(input) ==> r[..|r| - 1] == slug(input)
  {
    if EndsWithNewline(input) then slug(input) + "\n" else input
  }

  /** The Unicode-aware library functions the transformations call. */
  datatype Library = Library(lower: string -> string, upper: string -> string, slug: string -> string)

  datatype PerformError = RenderFailed

  /**
    `StrTransformOperation::perform`: the text transformations always
    succeed; `csv` renders the file named by the trimmed input, which may
    fail. `renderFile` stands for `render_file` with its file reading.
  */
  function Perform(op: Operation, input: string, lib: Library, renderFile: string -> Option<string>): (r: Result<string, PerformError>)
    ensures r.Err? ==> op == Csv && renderFile(Trim(input)).None?
    ensures op == Lowercase ==> r == Ok(lib.lower(input))
    ensures op == Uppercase ==> r == Ok(lib.upper(input))
    ensures op == NoSpaces ==> r == Ok(RemoveSpaces(input))
    ensures op == Slugify ==> r == Ok(SlugifyLine(input, lib.slug))
    ensures op == Csv && renderFile(Trim(input)).Some? ==> r == Ok(renderFile(Trim(input)).value)
  {
    match op
    case Lowercase => Ok(lib.lower(input))
    case Uppercase => Ok(lib.upper(input))
    case NoSpaces => Ok(RemoveSpaces(input))
    case Slugify => Ok(SlugifyLine(input, lib.slug))
    case Csv =>
      match renderFile(Trim(input))
      case Some(text) => Ok(text)
      case None => Err(RenderFailed)
  }

  /**
    The table of `transform_string` in `hw-03`: the four line
    transformations, which are exactly the names `from_str` accepts other
    than `csv`.
  */
  function TransformFor(name: string): (r: Option<Operation>)
    ensures r.Some? <==> FromStr(name).Ok? && FromStr(name).value != Csv
    ensures r.Some? ==> FromStr(name) == Ok(r.value)
  {
    if name == "lowercase" then Some(Lowercase)
    else if name == "uppercase" then Some(Uppercase)
    else if name == "no-spaces" then Some(NoSpaces)
    else if name == "slugify" then Some(Slugify)
    else None
  }

  /** One line through one of the `hw-03` transformations. */
  function ApplyToLine(op: Operation, line: string, lib: Library): string
    requires op != Csv
  {
    match op
    case Lowercase => lib.lower(line)
    case Uppercase => lib.upper(line)
    case NoSpaces => RemoveSpaces(line)
    case Slugify => SlugifyLine(line, lib.slug)
  }

  /** The pieces written one after another. */
  function Concat(pieces: seq<string>): string
  {
    if pieces == [] then [] else Concat(pieces[..|pieces| - 1]) + pieces[|pieces| - 1]
  }

  /** Each line transformed on its own. */
  function ApplyToLines(op: Operation, lines: seq<string>, lib: Library): (r: seq<string>)
    requires op != Csv
    ensures |r| == |lines|
    ensures forall k :: 0 <= k < |lines| ==> r[k] == ApplyToLine(op, lines[k], lib)
  {
    seq(|lines|, k requires 0 <= k < |lines| => ApplyToLine(op, lines[k], lib))
  }

  datatype Hw03Error = UnknownOperation | ReadFailed | WriteFailed

  /** How the `write_all` and `flush` of one transformed line end: flushed, or failed after `count` characters got out. */
  datatype Output = Flushed | FailedAfter(count: nat)

  /**
    One turn of the `transform_string` loop: what `read_line` gave (`None`
    for a read error, an empty line for the end of input) and how writing
    the transformed line ends.
  */
  datatype Step = Step(read: Option<string>, output: Output)

  /** A turn that read a line and wrote all of it out. */
  predicate Served(s: Step)
  {
    s.read.Some? && s.read.value != [] && s.output == Flushed
  }

  function LineOf(s: Step): string
  {
    if s.read.Some? then s.read.value else []
  }

  /** The lines read in the given turns. */
  function Lines(steps: seq<Step>): (r: seq<string>)
    ensures |r| == |steps|
    ensures forall k :: 0 <= k < |steps| ==> r[k] == LineOf(steps[k])
  {
    seq(|steps|, k requires 0 <= k < |steps| => LineOf(steps[k]))
  }

  /** The number of turns served in full before the loop stops. */
  function FullyServed(steps: seq<Step>): (n: nat)
    ensures n <= |steps|
    ensures forall k :: 0 <= k < n ==> Served(steps[k])
    ensures n < |steps| ==> !Served(steps[n])
    decreases |steps|
  {
    if steps == [] || !Served(steps[0]) then 0
    else
      assert forall k :: 0 <= k < |steps[1..]| ==> steps[1..][k] == steps[k + 1];
      1 + FullyServed(steps[1..])
  }

  /**
    `transform_string`: an unknown name fails before anything is read or
    written. Otherwise each line is transformed and written in full, in
    order, until the end of input (success), a read error, or a write or
    flush error; a failed write leaves a prefix of its line on the output.
    `out` is what reaches standard output.
  */
  method TransformString(name: string, steps: seq<Step>, lib: Library) returns (r: Result<(), Hw03Error>, out: string)
    ensures TransformFor(name).None? ==> r == Err(UnknownOperation) && out == []
    ensures TransformFor(name).Some? ==>
              var n := FullyServed(steps);
              (r.Ok? <==> n == |steps| || steps[n].read == Some([])) &&
              (r == Err(ReadFailed) <==> n < |steps| && steps[n].read.None?) &&
              (r == Err(WriteFailed) <==> n < |steps| && steps[n].read.Some? && steps[n].read.value != [] && steps[n].output.FailedAfter?)
    ensures TransformFor(name).Some? && r != Err(WriteFailed) ==>
              out == Concat(ApplyToLines(TransformFor(name).value, Lines(steps[..FullyServed(steps)]), lib))
    ensures TransformFor(name).Some? && r == Err(WriteFailed) ==>
              var n := FullyServed(steps);
              var t := ApplyToLine(TransformFor(name).value, LineOf(steps[n]), lib);
              out == Concat(ApplyToLines(TransformFor(name).value, Lines(steps[..n]), lib)) + t[..Framing.Min(steps[n].output.count, |t|)]
  {
    var op := TransformFor(name);
    if op.None? {
      return Err(UnknownOperation), [];
    }
    var transformation := op.value;
    out := [];
    var i := 0;
    while i < |steps|
      invariant 0 <= i <= FullyServed(steps)
      invariant out == Concat(ApplyToLines(transformation, Lines(steps[..i]), lib))
    {
      var step := steps[i];
      if step.read.None? {
        return Err(ReadFailed), out;
      }
      var buf := step.read.value;
      if buf == [] {
        return Ok(()), out;
      }
      var transformed := ApplyToLine(transformation, buf, lib);
      if step.output.FailedAfter? {
        return Err(WriteFailed), out + transformed[..Framing.Min(step.output.count, |transformed|)];
      }
      var next := ApplyToLines(transformation, Lines(steps[..i + 1]), lib);
      assert next[..i] == ApplyToLines(transformation, Lines(steps[..i]), lib);
      out := out + transformed;
      i := i + 1;
    }
    return Ok(()), out;
  }

  /** Streaming `no-spaces` line by line gives the whole input with its spaces deleted. */
  lemma {:induction false} NoSpacesStream(lines: seq<string>, lib: Library)
    ensures Concat(ApplyToLines(NoSpaces, lines, lib)) == RemoveSpaces(Concat(lines))
  {
    if lines != [] {
      var init := lines[..|lines| - 1];
      NoSpacesStream(init, lib);
      assert ApplyToLines(NoSpaces, lines, lib)[..|lines| - 1] == ApplyToLines(NoSpaces, init, lib);
      RemoveSpacesAppend(Concat(init), lines[|lines| - 1]);
    }
  }
}

/** `executeScript`: which decoding a script file is read with, how its lines become one
    evaluable text, and how the evaluation's outcome is contained. Opening, un-gzipping,
    decoding and line splitting are the oracle `read`; `doEval` is the oracle `eval`. */
module Scripts {
  import opened Results
  import opened Failures
  import opened JavaText

  /** What `File.isDirectory` / `File.isFile` report; a path that does not exist is `Other`. */
  datatype Kind = RegularFile | Directory | Other

  /** A directory listing entry: the name it is sorted and reported by, the path it is read
      from, its kind, and `File.canRead`. */
  datatype Entry = Entry(name: string, path: string, kind: Kind, readable: bool)

  /** The reader stack chosen for a file: a gzip stream or not, and a named charset or the
      platform default (`None`). */
  datatype Decoding = Decoding(gzip: bool, charset: Option<string>)

  /** What `BufferedReader.readLine` delivered until end of stream, or the `IOException`. */
  datatype ReadResult = Lines(lines: seq<string>) | ReadError(message: string)

  /** What `doEval` did: an ok result, a result that is not ok, or a thrown exception. */
  datatype EvalResult = EvalOk | EvalNotOk(errorMessage: string) | EvalThrew(message: string)

  /** One script that reached the server. */
  datatype Event = Evaluated(file: Entry, decoding: Decoding, text: string, result: EvalResult)

  /** `name.toUpperCase().endsWith("GZ")`. */
  predicate IsGzipName(name: string) {
    EndsWith(UpperAscii(name), "GZ")
  }

  /** The gzip test looks at the last two characters only and ignores their case: `x.gz`,
      `x.GZ`, `x.tgz` and `bigz` all count, `x.gzip` does not. */
  lemma {:induction false} GzipNameIff(name: string)
    ensures IsGzipName(name) <==>
      |name| >= 2 && name[|name| - 2] in {'g', 'G'} && name[|name| - 1] in {'z', 'Z'}
  {
    var u := UpperAscii(name);
    if |name| >= 2 {
      assert u[|u| - 2..] == [u[|u| - 2], u[|u| - 1]];
    }
  }

  /** The decoding of a script: gzip by file name, and the configured encoding unless blank. */
  function DecodingFor(name: string, encoding: Option<string>): (d: Decoding)
    ensures d.gzip <==> |name| >= 2 && name[|name| - 2] in {'g', 'G'} && name[|name| - 1] in {'z', 'Z'}
    ensures d.charset.None? <==> IsBlank(encoding)
    ensures d.charset.Some? ==> encoding == d.charset
  {
    GzipNameIff(name);
    Decoding(IsGzipName(name), if IsBlank(encoding) then None else encoding)
  }

  // ---------------------------------------------------------------- script text

  /** The buffer built from the lines: every line, unchanged, after a newline. */
  function Body(lines: seq<string>): (b: string)
    ensures |lines| == 0 <==> b == []
    ensures b != [] ==> b[0] == '\n'
  {
    if lines == [] then [] else "\n" + lines[0] + Body(lines[1..])
  }

  const Prologue: string := "(function() {"
  const Epilogue: string := "})();"

  /** The text handed to `doEval`: the body wrapped in an immediately invoked function. The
      lines read can be recovered from it. */
  function ScriptText(lines: seq<string>): (t: string)
    ensures |t| >= |Prologue| + |Epilogue|
    ensures t[..|Prologue|] == Prologue && t[|t| - |Epilogue|..] == Epilogue
    ensures (forall i :: 0 <= i < |lines| ==> IsLine(lines[i])) ==> TextLines(t) == Some(lines)
  {
    WrappedRoundTrip(lines);
    Prologue + Body(lines) + Epilogue
  }

  /** Unwrapping and splitting the wrapped body gives back lines without newlines. */
  lemma {:induction false} WrappedRoundTrip(lines: seq<string>)
    ensures (forall i :: 0 <= i < |lines| ==> IsLine(lines[i])) ==>
      TextLines(Prologue + Body(lines) + Epilogue) == Some(lines)
  {
    if forall i :: 0 <= i < |lines| ==> IsLine(lines[i]) {
      var t := Prologue + Body(lines) + Epilogue;
      assert t[..|Prologue|] == Prologue;
      assert t[|t| - |Epilogue|..] == Epilogue;
      assert t[|Prologue|..|t| - |Epilogue|] == Body(lines);
      BodyRoundTrip(lines);
    }
  }

  /** A line as `readLine` delivers it: without a line terminator. */
  predicate IsLine(line: string) {
    '\n' !in line
  }

  /** Splits a body back into its lines: after each newline, up to the next newline. */
  function BodyLines(b: string): Option<seq<string>>
    decreases |b|
  {
    if b == [] then Some([])
    else if b[0] != '\n' then None
    else
      var n := LineLength(b[1..]);
      match BodyLines(b[1 + n..])
      case None => None
      case Some(rest) => Some([b[1..1 + n]] + rest)
  }

  /** The length of the longest newline-free prefix of `s`. */
  function LineLength(s: string): (n: nat)
    ensures n <= |s|
    ensures forall k :: 0 <= k < n ==> s[k] != '\n'
    ensures n < |s| ==> s[n] == '\n'
  {
    if s == [] || s[0] == '\n' then 0 else 1 + LineLength(s[1..])
  }

  lemma {:induction false} LineLengthOf(line: string, rest: string)
    requires IsLine(line) && (rest == [] || rest[0] == '\n')
    ensures LineLength(line + rest) == |line|
  {
    if line != [] {
      assert (line + rest)[1..] == line[1..] + rest;
      LineLengthOf(line[1..], rest);
    }
  }

  /** Recovers the lines of a text handed to `doEval`. */
  function TextLines(text: string): Option<seq<string>> {
    if |text| >= |Prologue| + |Epilogue| && text[..|Prologue|] == Prologue && text[|text| - |Epilogue|..] == Epilogue
    then BodyLines(text[|Prologue|..|text| - |Epilogue|])
    else None
  }

  /** The first line of a body runs from after its newline to the next one. */
  lemma {:induction false} BodyFirstLine(lines: seq<string>)
    requires lines != [] && IsLine(lines[0])
    ensures Body(lines)[0] == '\n'
    ensures LineLength(Body(lines)[1..]) == |lines[0]|
    ensures Body(lines)[1..1 + |lines[0]|] == lines[0]
    ensures Body(lines)[1 + |lines[0]|..] == Body(lines[1..])
  {
    var b := Body(lines);
    var rest := Body(lines[1..]);
    assert b == "\n" + (lines[0] + rest);
    assert b[1..] == lines[0] + rest;
    LineLengthOf(lines[0], rest);
  }

  /** The body loses nothing: splitting it gives back the lines read. */
  lemma {:induction false} BodyRoundTrip(lines: seq<string>)
    requires forall i :: 0 <= i < |lines| ==> IsLine(lines[i])
    ensures BodyLines(Body(lines)) == Some(lines)
  {
    if lines != [] {
      BodyFirstLine(lines);
      BodyRoundTrip(lines[1..]);
      assert lines == [lines[0]] + lines[1..];
    }
  }

  /** The evaluated text is exactly the wrapper around the body, and the lines can be read back
      from it unchanged: no line is trimmed, dropped or merged. */
  lemma {:induction false} ScriptTextRoundTrip(lines: seq<string>)
    requires forall i :: 0 <= i < |lines| ==> IsLine(lines[i])
    ensures TextLines(ScriptText(lines)) == Some(lines)
  {
    var t := ScriptText(lines);
    assert t[..|Prologue|] == Prologue;
    assert t[|t| - |Epilogue|..] == Epilogue;
    assert t[|Prologue|..|t| - |Epilogue|] == Body(lines);
    BodyRoundTrip(lines);
  }

  /** A file with no lines is evaluated as an empty function. */
  lemma EmptyScriptText()
    ensures ScriptText([]) == "(function() {})();"
  {
  }

  // ---------------------------------------------------------------- one script

  /** `executeScript`: the file must exist, be readable and be a regular file, and reading it
      must not fail; then its text is evaluated once, and whatever the evaluation does is
      recorded rather than thrown. */
  function ExecuteScript(file: Entry, encoding: Option<string>,
                         read: (Entry, Decoding) -> ReadResult, eval: string -> EvalResult)
    : (r: Result<Event, Failure>)
    ensures r.Err? <==>
      file.kind != RegularFile || !file.readable || read(file, DecodingFor(file.name, encoding)).ReadError?
    ensures file.kind != RegularFile || !file.readable ==> r == Err(NotAFile(file.name))
    ensures r.Err? && r.error != NotAFile(file.name) ==>
      r.error == Io(ReadFailed(file.path, read(file, DecodingFor(file.name, encoding)).message))
    ensures file.kind == RegularFile && file.readable && r.Err? ==>
      r.error == Io(ReadFailed(file.path, read(file, DecodingFor(file.name, encoding)).message))
    ensures r.Ok? ==>
      && r.value.file == file
      && r.value.decoding == DecodingFor(file.name, encoding)
      && read(file, r.value.decoding).Lines?
      && r.value.text == ScriptText(read(file, r.value.decoding).lines)
      && r.value.result == eval(r.value.text)
  {
    if file.kind != RegularFile || !file.readable then Err(NotAFile(file.name))
    else
      var decoding := DecodingFor(file.name, encoding);
      match read(file, decoding)
      case ReadError(msg) => Err(Io(ReadFailed(file.path, msg)))
      case Lines(lines) =>
        var text := ScriptText(lines);
        Ok(Evaluated(file, decoding, text, eval(text)))
  }
}

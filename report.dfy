/** The formatting step of jsonpp (`indentAndPrint`) and its diagnostics
    (`malformedJSON`, `printError`), with everything a run writes kept in a
    `Log` value instead of the standard streams. */
module Report {
  import opened Streams

  /** What `encoding/json.Indent` answers for one document: the indented
      text, a syntax error at a byte offset, or some other error. */
  datatype Indented = Indented(text: Bytes) | SyntaxError(offset: nat) | OtherError

  /** The JSON indenter, taken as given: document and indent string in,
      answer out. Its rules are not part of this model. */
  type JsonIndent = (Bytes, string) -> Indented

  /** The one assumption made about the indenter: a syntax error never lies
      beyond the end of the document it was given. */
  ghost predicate OffsetsInRange(json: JsonIndent)
  {
    forall js: Bytes, indent: string :: json(js, indent).SyntaxError? ==> json(js, indent).offset <= |js|
  }

  predicate IsLineBreak(b: byte)
  {
    b == CR || b == NL
  }

  /** The byte range of the document shown around a syntax error. */
  datatype Window = Window(begin: nat, end: nat)

  /** The context window of `malformedJSON`: 30 bytes starting 15 bytes
      before the error offset, clamped to the document. */
  function ContextWindow(offset: nat, len: nat): (w: Window)
    requires offset <= len
    ensures w.begin <= offset <= w.end <= len
    ensures w.end - w.begin <= 30
    ensures w.begin > 0 <==> offset > 15
    ensures w.begin > 0 ==> offset - w.begin == 15
    ensures w.begin + 30 <= len ==> w.end - w.begin == 30
    ensures w.begin + 30 > len ==> w.end == len
  {
    var begin := if offset > 15 then offset - 15 else 0;
    var end := if begin + 30 > len then len else begin + 30;
    Window(begin, end)
  }

  /** `bytes.TrimRight(s, "\r\n")`: the longest prefix of `s` that does not
      end in a carriage return or a line feed. */
  function TrimRight(s: Bytes): (r: Bytes)
    ensures |r| <= |s| && r == s[..|r|]
    ensures r != [] ==> !IsLineBreak(r[|r| - 1])
    ensures forall i :: |r| <= i < |s| ==> IsLineBreak(s[i])
    decreases |s|
  {
    if s != [] && IsLineBreak(s[|s| - 1]) then TrimRight(s[..|s| - 1]) else s
  }

  /** The context line: `...` markers and the displayed snippet. */
  datatype Context = Context(prefix: bool, snippet: Bytes, suffix: bool)

  /** The context line printed for a syntax error at `offset`. */
  function ErrorContext(js: Bytes, offset: nat): Context
    requires offset <= |js|
  {
    var w := ContextWindow(offset, |js|);
    Context(offset > 15, TrimRight(js[w.begin..w.end]), w.begin + 30 <= |js|)
  }

  /** The context line shows the literal bytes at the start of the window
      with only trailing line breaks removed; `...` before it exactly when the
      window does not start at the beginning, `...` after it exactly when the
      window is a full 30 bytes, and otherwise the window reaches the end. */
  lemma ErrorContextShape(js: Bytes, offset: nat)
    requires offset <= |js|
    ensures var w := ContextWindow(offset, |js|);
      var c := ErrorContext(js, offset);
      && |c.snippet| <= w.end - w.begin
      && c.snippet == js[w.begin..w.begin + |c.snippet|]
      && (c.snippet != [] ==> !IsLineBreak(c.snippet[|c.snippet| - 1]))
      && (forall i :: w.begin + |c.snippet| <= i < w.end ==> IsLineBreak(js[i]))
      && (c.prefix <==> w.begin > 0)
      && (c.suffix <==> w.end - w.begin == 30)
      && (!c.suffix ==> w.end == |js|)
  {
    var w := ContextWindow(offset, |js|);
    var shown := js[w.begin..w.end];
    var snippet := TrimRight(shown);
    assert snippet == shown[..|snippet|];
    assert shown[..|snippet|] == js[w.begin..w.begin + |snippet|];
    forall i | w.begin + |snippet| <= i < w.end
      ensures IsLineBreak(js[i])
    {
      assert js[i] == shown[i - w.begin];
    }
  }

  /** What jsonpp reports on its error stream. The message text of each
      report is not modelled; only its kind and the numbers in it. */
  datatype Diagnostic =
    | BrokenAt(line: nat, offset: nat, context: Context)  // syntax error with a byte offset
    | Broken(line: nat)                                   // any other formatter error
    | OpenFailed                                          // a file argument could not be opened
    | ReadFailed                                          // reading a source failed

  /** `malformedJSON`: the diagnostic for a document the indenter refused. */
  function MalformedJson(js: Bytes, line: nat, err: Indented): (d: Diagnostic)
    requires !err.Indented?
    requires err.SyntaxError? ==> err.offset <= |js|
    ensures (d.BrokenAt? || d.Broken?) && d.line == line
    ensures d.BrokenAt? <==> err.SyntaxError?
    ensures d.BrokenAt? ==> d.offset == err.offset && d.context == ErrorContext(js, err.offset)
  {
    match err
    case SyntaxError(offset) => BrokenAt(line, offset, ErrorContext(js, offset))
    case OtherError => Broken(line)
  }

  /** One document handed to the indenter, with the line number it was given. */
  datatype Call = Call(unit: Bytes, line: nat)

  /** Everything a run produces: the bytes written to standard output, the
      diagnostics written to standard error, and the documents handed to the
      indenter, each in order. */
  datatype Log = Log(out: Bytes, diags: seq<Diagnostic>, calls: seq<Call>)

  const Quiet := Log([], [], [])

  function Append(a: Log, b: Log): Log
  {
    Log(a.out + b.out, a.diags + b.diags, a.calls + b.calls)
  }

  /** An exit status together with what was written on the way to it. */
  datatype Outcome = Outcome(status: int, log: Log)

  /** `o`, preceded by what `first` wrote. */
  function Then(first: Log, o: Outcome): Outcome
  {
    Outcome(o.status, Append(first, o.log))
  }

  /** `printError` after a failed read, and status 2. */
  const ReadFailure := Outcome(2, Log([], [ReadFailed], []))

  lemma ThenThen(a: Log, b: Log, o: Outcome)
    ensures Then(a, Then(b, o)) == Then(Append(a, b), o)
  {
    assert a.out + (b.out + o.log.out) == (a.out + b.out) + o.log.out;
    assert a.diags + (b.diags + o.log.diags) == (a.diags + b.diags) + o.log.diags;
    assert a.calls + (b.calls + o.log.calls) == (a.calls + b.calls) + o.log.calls;
  }

  lemma AppendQuiet(a: Log)
    ensures Append(a, Quiet) == a && Append(Quiet, a) == a
  {
    assert a.out + [] == a.out && a.diags + [] == a.diags && a.calls + [] == a.calls;
  }

  /** `indentAndPrint`: hand one document to the indenter; write the
      indented text and continue (0), or report the error and stop (1). */
  function IndentAndPrint(js: Bytes, line: nat, indent: string, json: JsonIndent): (r: Outcome)
    requires json(js, indent).SyntaxError? ==> json(js, indent).offset <= |js|
    ensures r.status == 0 || r.status == 1
    ensures r.status == 0 <==> json(js, indent).Indented?
    ensures r.log.calls == [Call(js, line)]
    ensures r.status == 0 ==> r.log.out == json(js, indent).text && r.log.diags == []
    ensures r.status == 1 ==> r.log.out == [] && |r.log.diags| == 1
  {
    var answer := json(js, indent);
    if !answer.Indented? then
      Outcome(1, Log([], [MalformedJson(js, line, answer)], [Call(js, line)]))
    else
      Outcome(0, Log(answer.text, [], [Call(js, line)]))
  }

  /** The one diagnostic of a refused document is the `malformedJSON` report. */
  lemma IndentAndPrintReports(js: Bytes, line: nat, indent: string, json: JsonIndent)
    requires json(js, indent).SyntaxError? ==> json(js, indent).offset <= |js|
    ensures var r := IndentAndPrint(js, line, indent, json);
      r.status == 1 ==> r.log.diags == [MalformedJson(js, line, json(js, indent))]
  {
  }
}

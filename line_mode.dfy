/** Line mode (`processMultipleFile`): every line of a source is one JSON
    document, numbered from 1; processing stops at the first bad one. */
module LineMode {
  import opened Streams
  import opened Report

  /** A unit as line mode cuts it: non-empty, with a line feed at most at its end. */
  predicate IsLine(u: Bytes)
  {
    u != [] && forall j :: 0 <= j < |u| - 1 ==> u[j] != NL
  }

  predicate Terminated(u: Bytes)
  {
    u != [] && u[|u| - 1] == NL
  }

  /** The length of the first line of `s`: up to and including the first
      line feed, or all of `s` when there is none. */
  function LineEnd(s: Bytes): (k: nat)
    ensures k <= |s|
    ensures s != [] ==> k > 0
    ensures forall j :: 0 <= j < k - 1 ==> s[j] != NL
    ensures k == |s| || s[k - 1] == NL
    decreases |s|
  {
    if s == [] then 0
    else if s[0] == NL then 1
    else 1 + LineEnd(s[1..])
  }

  /** How a `ReadBytes('\n')` call ended: at the delimiter, at a clean end of
      stream (`io.EOF`), or with a read error. */
  datatype ReadEnd = Delim | Eof | Failed

  datatype Read = Read(line: Bytes, end: ReadEnd)

  /** `bufio.Reader.ReadBytes('\n')` on the unread part `rest` of a source:
      the bytes up to and including the next line feed; without one, all the
      rest, and then the end of stream or the read error. */
  function ReadBytes(rest: Bytes, broken: bool): (r: Read)
    ensures |r.line| <= |rest| && r.line == rest[..|r.line|]
    ensures forall j :: 0 <= j < |r.line| - 1 ==> r.line[j] != NL
    ensures r.end == Delim <==> Terminated(r.line)
    ensures r.end != Delim ==> r.line == rest && (r.end == Failed <==> broken)
  {
    var k := LineEnd(rest);
    if k > 0 && rest[k - 1] == NL then Read(rest[..k], Delim)
    else if broken then Read(rest, Failed)
    else Read(rest, Eof)
  }

  /** The units of a clean stream `s`, in order. */
  function Lines(s: Bytes): seq<Bytes>
    decreases |s|
  {
    if s == [] then [] else [s[..LineEnd(s)]] + Lines(s[LineEnd(s)..])
  }

  /** The units handed to the indenter before the stream ends: all lines of
      a clean stream; when the read fails, only the lines that a line feed
      completed. */
  function Delivered(data: Bytes, broken: bool): seq<Bytes>
  {
    var all := Lines(data);
    if broken && all != [] && !Terminated(all[|all| - 1]) then all[..|all| - 1] else all
  }

  /** `units` paired with consecutive line numbers from `line`. */
  function Numbered(units: seq<Bytes>, line: nat): (calls: seq<Call>)
    ensures |calls| == |units|
    ensures forall i :: 0 <= i < |units| ==> calls[i] == Call(units[i], line + i)
    decreases |units|
  {
    if units == [] then [] else [Call(units[0], line)] + Numbered(units[1..], line + 1)
  }

  /** The index of the first unit the indenter refuses, or `|units|`. */
  function FirstFailure(units: seq<Bytes>, indent: string, json: JsonIndent): (f: nat)
    ensures f <= |units|
    ensures forall i :: 0 <= i < f ==> json(units[i], indent).Indented?
    ensures f < |units| ==> !json(units[f], indent).Indented?
    decreases |units|
  {
    if units == [] || !json(units[0], indent).Indented? then 0
    else 1 + FirstFailure(units[1..], indent, json)
  }

  /** The indented texts of `units`, laid end to end. */
  function Emitted(units: seq<Bytes>, indent: string, json: JsonIndent): Bytes
    decreases |units|
  {
    if units == [] then []
    else
      var answer := json(units[0], indent);
      (if answer.Indented? then answer.text else []) + Emitted(units[1..], indent, json)
  }

  /** Format `units` in order, numbered from `line`, up to the first failure. */
  function RunUnits(units: seq<Bytes>, line: nat, indent: string, json: JsonIndent): Outcome
    requires OffsetsInRange(json)
    decreases |units|
  {
    if units == [] then Outcome(0, Quiet)
    else
      var first := IndentAndPrint(units[0], line, indent, json);
      if first.status > 0 then first
      else Then(first.log, RunUnits(units[1..], line + 1, indent, json))
  }

  /** What line mode does with the stream `data` (ending in a read error
      when `broken`), numbering its lines from `line`. */
  function LineModeFrom(data: Bytes, broken: bool, line: nat, indent: string, json: JsonIndent): Outcome
    requires OffsetsInRange(json)
  {
    var r := RunUnits(Delivered(data, broken), line, indent, json);
    if r.status == 0 && broken then Then(r.log, ReadFailure) else r
  }

  function LineModeResult(src: Source, indent: string, json: JsonIndent): Outcome
    requires OffsetsInRange(json)
  {
    LineModeFrom(src.data, src.broken, 1, indent, json)
  }

  /** The loop of `processMultipleFile` one `ReadBytes` at a time, on the
      unread part `rest` of a source, numbering from `line`. */
  function Reading(rest: Bytes, broken: bool, line: nat, indent: string, json: JsonIndent): Outcome
    requires OffsetsInRange(json)
    decreases |rest|
  {
    var rd := ReadBytes(rest, broken);
    if rd.end == Failed then ReadFailure
    else if rd.end == Eof && rd.line == [] then Outcome(0, Quiet)
    else
      var first := IndentAndPrint(rd.line, line, indent, json);
      if first.status > 0 || rd.end == Eof then first
      else Then(first.log, Reading(rest[|rd.line|..], broken, line + 1, indent, json))
  }

  /** `processMultipleFile`. */
  method ProcessMultipleFile(src: Source, indent: string, json: JsonIndent) returns (status: int, log: Log)
    requires OffsetsInRange(json)
    ensures Outcome(status, log) == LineModeResult(src, indent, json)
  {
    ReadingIsLineMode(src.data, src.broken, 1, indent, json);
    ghost var spec := Reading(src.data, src.broken, 1, indent, json);
    var rest := src.data;  // what the reader has not yet returned
    var lineNum := 1;
    log := Quiet;
    AppendQuiet(Quiet);
    while true
      invariant lineNum >= 1
      invariant spec == Then(log, Reading(rest, src.broken, lineNum, indent, json))
      decreases |rest|
    {
      var lastLine := ReadBytes(rest, src.broken);
      if lastLine.end == Failed {
        status, log := 2, Append(log, ReadFailure.log);
        return;
      }
      if lastLine.end == Eof && lastLine.line == [] {
        AppendQuiet(log);
        break;
      }
      var first := IndentAndPrint(lastLine.line, lineNum, indent, json);
      ghost var after := Reading(rest[|lastLine.line|..], src.broken, lineNum + 1, indent, json);
      ThenThen(log, first.log, after);
      log := Append(log, first.log);
      if first.status > 0 {
        status := first.status;
        return;
      }
      rest := rest[|lastLine.line|..];
      lineNum := lineNum + 1;
      if lastLine.end == Eof {
        break;
      }
    }
    status := 0;
  }

  /** A line that a line feed completes is delivered first, before the
      units of the rest of the stream. */
  lemma DeliveredCons(rest: Bytes, broken: bool)
    requires rest != [] && Terminated(rest[..LineEnd(rest)])
    ensures Delivered(rest, broken) == [rest[..LineEnd(rest)]] + Delivered(rest[LineEnd(rest)..], broken)
  {
    var k := LineEnd(rest);
    var u := rest[..k];
    var tail := Lines(rest[k..]);
    assert Lines(rest) == [u] + tail;
    if tail != [] {
      assert ([u] + tail)[|[u] + tail| - 1] == tail[|tail| - 1];
      assert ([u] + tail)[..|[u] + tail| - 1] == [u] + tail[..|tail| - 1];
    }
  }

  /** A stream with no line feed is one unit, delivered only when it is
      not followed by a read error. */
  lemma DeliveredLast(rest: Bytes, broken: bool)
    requires rest != [] && !Terminated(rest[..LineEnd(rest)])
    ensures Delivered(rest, broken) == if broken then [] else [rest]
  {
    var k := LineEnd(rest);
    assert k == |rest| && rest[..k] == rest && rest[k..] == [];
    assert Lines(rest) == [rest];
  }

  /** The loop's specification agrees with the declarative one: reading
      line by line formats exactly the delivered units. */
  lemma {:induction false} ReadingIsLineMode(rest: Bytes, broken: bool, line: nat, indent: string, json: JsonIndent)
    requires OffsetsInRange(json)
    ensures Reading(rest, broken, line, indent, json) == LineModeFrom(rest, broken, line, indent, json)
    decreases |rest|
  {
    AppendQuiet(Quiet);
    AppendQuiet(ReadFailure.log);
    if rest != [] {
      var k := LineEnd(rest);
      var u := rest[..k];
      var first := IndentAndPrint(u, line, indent, json);
      AppendQuiet(first.log);
      if Terminated(u) {
        DeliveredCons(rest, broken);
        var d := Delivered(rest[k..], broken);
        assert ([u] + d)[0] == u && ([u] + d)[1..] == d;
        ReadingIsLineMode(rest[k..], broken, line + 1, indent, json);
        var r' := RunUnits(d, line + 1, indent, json);
        if first.status == 0 {
          assert RunUnits([u] + d, line, indent, json) == Then(first.log, r');
          ThenThen(first.log, r'.log, ReadFailure);
        }
      } else {
        DeliveredLast(rest, broken);
        if !broken {
          assert [rest][0] == rest && [rest][1..] == [];
          assert RunUnits([], line + 1, indent, json) == Outcome(0, Quiet);
        }
      }
    }
  }

  /** Cutting loses nothing: the units of a clean stream, laid end to end,
      give back the stream. */
  lemma {:induction false} LinesConcat(s: Bytes)
    ensures Concat(Lines(s)) == s
    decreases |s|
  {
    if s != [] {
      var k := LineEnd(s);
      assert Lines(s) == [s[..k]] + Lines(s[k..]);
      LinesConcat(s[k..]);
      ConcatCons(s[..k], Lines(s[k..]));
      assert s[..k] + s[k..] == s;
    }
  }

  /** Every unit is a line; every unit but the last ends in a line feed. */
  lemma {:induction false} LinesShape(s: Bytes)
    ensures forall i :: 0 <= i < |Lines(s)| ==> IsLine(Lines(s)[i])
    ensures forall i :: 0 <= i < |Lines(s)| - 1 ==> Terminated(Lines(s)[i])
    decreases |s|
  {
    if s != [] {
      var k := LineEnd(s);
      var ls := Lines(s);
      LinesShape(s[k..]);
      assert ls == [s[..k]] + Lines(s[k..]);
      forall i | 0 <= i < |ls|
        ensures IsLine(ls[i]) && (i < |ls| - 1 ==> Terminated(ls[i]))
      {
        if i > 0 {
          assert ls[i] == Lines(s[k..])[i - 1];
        } else if i < |ls| - 1 {
          assert s[k..] != [];
        }
      }
    }
  }

  lemma LineEndOfLine(u: Bytes, rest: Bytes)
    requires IsLine(u)
    requires Terminated(u) || rest == []
    ensures LineEnd(u + rest) == |u|
  {
    var s := u + rest;
    assert forall j :: 0 <= j < |u| ==> s[j] == u[j];
  }

  /** The cut is the only one: a sequence of lines, all but the last ending
      in a line feed, is exactly what cutting their concatenation gives. */
  lemma {:induction false} LinesOfConcat(us: seq<Bytes>)
    requires forall i :: 0 <= i < |us| ==> IsLine(us[i])
    requires forall i :: 0 <= i < |us| - 1 ==> Terminated(us[i])
    ensures Lines(Concat(us)) == us
    decreases |us|
  {
    if us != [] {
      var s := Concat(us);
      var rest := Concat(us[1..]);
      assert s == us[0] + rest;
      if |us| == 1 {
        assert us[1..] == [];
      } else {
        assert Terminated(us[0]);
      }
      LineEndOfLine(us[0], rest);
      assert s[..|us[0]|] == us[0] && s[|us[0]|..] == rest;
      LinesOfConcat(us[1..]);
    }
  }

  /** The units delivered before the end of a source: every line of a
      clean stream; when the read fails, exactly the bytes up to and
      including the last line feed, cut into lines. */
  lemma DeliveredUnits(data: Bytes, broken: bool)
    ensures !broken ==> Delivered(data, broken) == Lines(data)
    ensures broken ==> forall i :: 0 <= i < |Delivered(data, broken)| ==> Terminated(Delivered(data, broken)[i])
    ensures var n := |Concat(Delivered(data, broken))|;
      n <= |data| && Concat(Delivered(data, broken)) == data[..n] &&
      (broken ==> forall i :: n <= i < |data| ==> data[i] != NL)
  {
    var all := Lines(data);
    LinesConcat(data);
    LinesShape(data);
    if broken && all != [] && !Terminated(all[|all| - 1]) {
      ConcatDropLast(all);
      DroppedTail(all[..|all| - 1], all[|all| - 1], data);
    }
  }

  /** When the read fails, the unfinished last line is dropped: what is
      left is the data before it, and the dropped part has no line feed. */
  lemma DroppedTail(d: seq<Bytes>, last: Bytes, data: Bytes)
    requires data == Concat(d) + last
    requires IsLine(last) && !Terminated(last)
    ensures var n := |Concat(d)|;
      n <= |data| && Concat(d) == data[..n] &&
      forall i :: n <= i < |data| ==> data[i] != NL
  {
    var n := |Concat(d)|;
    forall i | n <= i < |data|
      ensures data[i] != NL
    {
      var j := i - n;
      assert data[i] == last[j];
      if j < |last| - 1 {
        assert last[j] != NL;
      }
    }
  }

  /** The first step of `RunUnits`. */
  lemma RunUnitsCons(units: seq<Bytes>, line: nat, indent: string, json: JsonIndent)
    requires OffsetsInRange(json)
    requires units != []
    ensures var first := IndentAndPrint(units[0], line, indent, json);
      RunUnits(units, line, indent, json) ==
        if first.status > 0 then first else Then(first.log, RunUnits(units[1..], line + 1, indent, json))
  {
  }

  /** Formatting a sequence of units: the indenter sees them in order with
      line numbers from `line` up by one, up to and including the first
      refused unit and none after it; the status is 1 if a unit is refused,
      0 otherwise. */
  lemma {:induction false} RunUnitsOutcome(units: seq<Bytes>, line: nat, indent: string, json: JsonIndent)
    requires OffsetsInRange(json)
    ensures var r := RunUnits(units, line, indent, json);
      var f := FirstFailure(units, indent, json);
      && r.status == (if f < |units| then 1 else 0)
      && r.log.calls == Numbered(units[..if f < |units| then f + 1 else f], line)
    decreases |units|
  {
    var f := FirstFailure(units, indent, json);
    if units != [] {
      RunUnitsCons(units, line, indent, json);
      var first := IndentAndPrint(units[0], line, indent, json);
      var m := if f < |units| then f + 1 else f;
      if first.status > 0 {
        assert f == 0;
        assert units[..1] == [units[0]];
      } else {
        RunUnitsOutcome(units[1..], line + 1, indent, json);
        assert units[..m][0] == units[0];
        assert units[..m][1..] == units[1..][..m - 1];
      }
    }
  }

  /** What formatting a sequence of units writes: the indented texts of the
      units before the first refused one, in order, and the report of that
      unit if there is one. */
  lemma {:induction false} RunUnitsWrites(units: seq<Bytes>, line: nat, indent: string, json: JsonIndent)
    requires OffsetsInRange(json)
    ensures var r := RunUnits(units, line, indent, json);
      var f := FirstFailure(units, indent, json);
      && r.log.out == Emitted(units[..f], indent, json)
      && r.log.diags == (if f < |units| then [MalformedJson(units[f], line + f, json(units[f], indent))] else [])
    decreases |units|
  {
    var f := FirstFailure(units, indent, json);
    if units != [] {
      RunUnitsCons(units, line, indent, json);
      var first := IndentAndPrint(units[0], line, indent, json);
      if first.status > 0 {
        IndentAndPrintReports(units[0], line, indent, json);
        assert f == 0;
        assert units[..0] == [];
      } else {
        RunUnitsWrites(units[1..], line + 1, indent, json);
        assert units[..f][0] == units[0];
        assert units[..f][1..] == units[1..][..f - 1];
      }
    }
  }

  /** Line mode, whole: the status is 1 when some line is refused, 2 when
      every delivered line was formatted but the read failed, 0 otherwise;
      the indenter sees the delivered lines with numbers 1, 2, 3, ... and no
      line after the first refused one. */
  lemma LineModeOutcome(src: Source, indent: string, json: JsonIndent)
    requires OffsetsInRange(json)
    ensures var units := Delivered(src.data, src.broken);
      var f := FirstFailure(units, indent, json);
      var r := LineModeResult(src, indent, json);
      && r.status == (if f < |units| then 1 else if src.broken then 2 else 0)
      && r.log.calls == Numbered(units[..if f < |units| then f + 1 else f], 1)
      && r.log.out == Emitted(units[..f], indent, json)
  {
    RunUnitsOutcome(Delivered(src.data, src.broken), 1, indent, json);
    RunUnitsWrites(Delivered(src.data, src.broken), 1, indent, json);
    AppendQuiet(RunUnits(Delivered(src.data, src.broken), 1, indent, json).log);
  }

  /** Empty input, read cleanly: nothing is formatted, nothing is written,
      and the status is 0. */
  lemma EmptyInput(indent: string, json: JsonIndent)
    requires OffsetsInRange(json)
    ensures LineModeResult(Source([], false), indent, json) == Outcome(0, Quiet)
  {
  }
}

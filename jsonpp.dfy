/** The driver of jsonpp (`main`): the indent setting, the choice of mode,
    and the exit status folded over the file arguments. */
module Jsonpp {
  import opened Streams
  import opened Report
  import LineMode
  import SingleMode

  /** The indent string from `JSONPP_INDENT`: two spaces when it is unset
      or empty, the value itself otherwise. */
  function IndentSetting(env: string): (indent: string)
    ensures indent != ""
    ensures env != "" ==> indent == env
    ensures env == "" ==> indent == "  "
  {
    if env == "" then "  " else env
  }

  /** A file argument: one that cannot be opened, or an opened source. */
  datatype FileArg = Unopenable | Opened(src: Source)

  /** The `processFunc` chosen by the `-s` flag, applied to one source. */
  function Process(single: bool, src: Source, indent: string, json: JsonIndent): Outcome
    requires OffsetsInRange(json)
  {
    if single then SingleMode.ProcessSingularFile(src, indent, json)
    else LineMode.LineModeResult(src, indent, json)
  }

  /** The loop over the file arguments, entered with exit status `status`:
      an open failure is reported and sets 1; an opened file's result
      replaces the status, and a non-zero one ends the loop. */
  function RunFiles(args: seq<FileArg>, status: int, single: bool, indent: string, json: JsonIndent): Outcome
    requires OffsetsInRange(json)
    decreases |args|
  {
    if args == [] then Outcome(status, Quiet)
    else match args[0]
      case Unopenable =>
        Then(Log([], [OpenFailed], []), RunFiles(args[1..], 1, single, indent, json))
      case Opened(src) =>
        var r := Process(single, src, indent, json);
        if r.status > 0 then r
        else Then(r.log, RunFiles(args[1..], r.status, single, indent, json))
  }

  /** A whole run: standard input when there are no file arguments. */
  function Jsonpp(single: bool, env: string, args: seq<FileArg>, stdin: Source, json: JsonIndent): Outcome
    requires OffsetsInRange(json)
  {
    var indent := IndentSetting(env);
    if args == [] then Process(single, stdin, indent, json)
    else RunFiles(args, 0, single, indent, json)
  }

  /** One call of `processFunc`. */
  method ProcessFile(single: bool, src: Source, indent: string, json: JsonIndent) returns (status: int, log: Log)
    requires OffsetsInRange(json)
    ensures Outcome(status, log) == Process(single, src, indent, json)
  {
    if single {
      var r := SingleMode.ProcessSingularFile(src, indent, json);
      status, log := r.status, r.log;
    } else {
      status, log := LineMode.ProcessMultipleFile(src, indent, json);
    }
  }

  /** `main` after flag parsing: the exit status and everything written. */
  method Run(single: bool, env: string, args: seq<FileArg>, stdin: Source, json: JsonIndent)
    returns (exitStatus: int, log: Log)
    requires OffsetsInRange(json)
    ensures Outcome(exitStatus, log) == Jsonpp(single, env, args, stdin, json)
  {
    var indent := IndentSetting(env);
    exitStatus, log := 0, Quiet;
    if |args| > 0 {
      var i := 0;
      AppendQuiet(Quiet);
      while i < |args|
        invariant i <= |args|
        invariant RunFiles(args, 0, single, indent, json) == Then(log, RunFiles(args[i..], exitStatus, single, indent, json))
      {
        assert args[i..][1..] == args[i + 1..];
        if args[i].Unopenable? {
          ThenThen(log, Log([], [OpenFailed], []), RunFiles(args[i + 1..], 1, single, indent, json));
          log := Append(log, Log([], [OpenFailed], []));
          exitStatus := 1;
        } else {
          var status, written := ProcessFile(single, args[i].src, indent, json);
          ThenThen(log, written, RunFiles(args[i + 1..], status, single, indent, json));
          log := Append(log, written);
          exitStatus := status;
          if exitStatus > 0 {
            break;
          }
        }
        i := i + 1;
      }
      AppendQuiet(log);
    } else {
      exitStatus, log := ProcessFile(single, stdin, indent, json);
    }
  }

  /** The status of one source: 0, 1 or 2, and 2 exactly when its read
      failed after everything before the failure was formatted. */
  lemma ProcessStatus(single: bool, src: Source, indent: string, json: JsonIndent)
    requires OffsetsInRange(json)
    ensures 0 <= Process(single, src, indent, json).status <= 2
    ensures var units := LineMode.Delivered(src.data, src.broken);
      Process(single, src, indent, json).status == 2 <==>
        src.broken && (single || LineMode.FirstFailure(units, indent, json) == |units|)
  {
    if !single {
      LineMode.LineModeOutcome(src, indent, json);
    }
  }

  /** The index of the first file argument that opens and whose processing
      returns a non-zero status, or `|args|`. */
  function FirstFailingFile(args: seq<FileArg>, single: bool, indent: string, json: JsonIndent): (i: nat)
    requires OffsetsInRange(json)
    ensures i <= |args|
    ensures forall j :: 0 <= j < i ==> args[j].Unopenable? || Process(single, args[j].src, indent, json).status <= 0
    ensures i < |args| ==> args[i].Opened? && Process(single, args[i].src, indent, json).status > 0
    decreases |args|
  {
    if args == [] then 0
    else if args[0].Opened? && Process(single, args[0].src, indent, json).status > 0 then 0
    else 1 + FirstFailingFile(args[1..], single, indent, json)
  }

  /** The first step of `RunFiles`. */
  lemma RunFilesCons(args: seq<FileArg>, status: int, single: bool, indent: string, json: JsonIndent)
    requires OffsetsInRange(json)
    requires args != []
    ensures RunFiles(args, status, single, indent, json) ==
      if args[0].Unopenable? then Then(Log([], [OpenFailed], []), RunFiles(args[1..], 1, single, indent, json))
      else
        var r := Process(single, args[0].src, indent, json);
        if r.status > 0 then r else Then(r.log, RunFiles(args[1..], r.status, single, indent, json))
  {
  }

  /** The exit-status fold stops at the first opened file that fails: that
      file's status is the exit status, and the arguments after it play no
      part in the run. */
  lemma {:induction false} RunFilesStops(args: seq<FileArg>, status: int, single: bool, indent: string, json: JsonIndent)
    requires OffsetsInRange(json)
    requires FirstFailingFile(args, single, indent, json) < |args|
    ensures var i := FirstFailingFile(args, single, indent, json);
      var r := RunFiles(args, status, single, indent, json);
      && r.status == Process(single, args[i].src, indent, json).status
      && r == RunFiles(args[..i + 1], status, single, indent, json)
    decreases |args|
  {
    var i := FirstFailingFile(args, single, indent, json);
    var prefix := args[..i + 1];
    assert prefix[0] == args[0];
    RunFilesCons(args, status, single, indent, json);
    RunFilesCons(prefix, status, single, indent, json);
    if i > 0 {
      var written, next;
      if args[0].Unopenable? {
        written, next := Log([], [OpenFailed], []), 1;
      } else {
        var p := Process(single, args[0].src, indent, json);
        written, next := p.log, p.status;
      }
      assert RunFiles(args, status, single, indent, json) == Then(written, RunFiles(args[1..], next, single, indent, json));
      assert prefix[1..] == args[1..][..i];
      assert RunFiles(prefix, status, single, indent, json) == Then(written, RunFiles(args[1..][..i], next, single, indent, json));
      RunFilesStops(args[1..], next, single, indent, json);
    }
  }

  /** When no opened file fails, every result overwrote the one before it:
      the exit status is 1 exactly when the last argument could not be
      opened, and an earlier open failure is forgotten. */
  lemma {:induction false} RunFilesNoFailure(args: seq<FileArg>, status: int, single: bool, indent: string, json: JsonIndent)
    requires OffsetsInRange(json)
    requires FirstFailingFile(args, single, indent, json) == |args|
    ensures RunFiles(args, status, single, indent, json).status ==
      if args == [] then status else if args[|args| - 1].Unopenable? then 1 else 0
    decreases |args|
  {
    if args != [] {
      RunFilesCons(args, status, single, indent, json);
      var next := 1;
      if args[0].Opened? {
        ProcessStatus(single, args[0].src, indent, json);
        next := Process(single, args[0].src, indent, json).status;
      }
      RunFilesNoFailure(args[1..], next, single, indent, json);
      if |args| > 1 {
        assert args[|args| - 1] == args[1..][|args[1..]| - 1];
      }
    }
  }

  /** The exit status of a run is 0, 1 or 2. */
  lemma ExitStatusRange(single: bool, env: string, args: seq<FileArg>, stdin: Source, json: JsonIndent)
    requires OffsetsInRange(json)
    ensures 0 <= Jsonpp(single, env, args, stdin, json).status <= 2
  {
    var indent := IndentSetting(env);
    if args == [] {
      ProcessStatus(single, stdin, indent, json);
    } else {
      var i := FirstFailingFile(args, single, indent, json);
      if i < |args| {
        RunFilesStops(args, 0, single, indent, json);
        ProcessStatus(single, args[i].src, indent, json);
      } else {
        RunFilesNoFailure(args, 0, single, indent, json);
      }
    }
  }

  /** A file that cannot be opened, followed by one processed cleanly,
      gives exit status 0: the open failure is reported but not remembered. */
  lemma OpenFailureForgotten(single: bool, env: string, src: Source, stdin: Source, json: JsonIndent)
    requires OffsetsInRange(json)
    requires Process(single, src, IndentSetting(env), json).status == 0
    ensures Jsonpp(single, env, [Unopenable, Opened(src)], stdin, json).status == 0
    ensures OpenFailed in Jsonpp(single, env, [Unopenable, Opened(src)], stdin, json).log.diags
  {
    var indent := IndentSetting(env);
    var args := [Unopenable, Opened(src)];
    assert args[1..] == [Opened(src)];
    assert args[1..][1..] == [];
    var last := RunFiles(args[1..], 1, single, indent, json);
    assert last == Then(Process(single, src, indent, json).log, RunFiles([], 0, single, indent, json));
    assert RunFiles(args, 0, single, indent, json) == Then(Log([], [OpenFailed], []), last);
  }
}

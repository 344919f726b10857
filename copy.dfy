/** The copy command's selection handler (handleParamSetSelect in src/copy.tsx):
    resolve the preset's paths against one snapshot of the variables, build the
    argument vector, run the tool and render its outcome as markdown. */
module CopyCommand {
  import opened Types
  import opened Template
  import opened Process

  const SkipExistFlag: string := "--skip-exist"

  /** What the argument vector for a copy preset must be: the subcommand, both
      resolved paths behind their flags, then `--skip-exist` iff it is set. */
  ghost predicate IsCopyArgs(args: seq<string>, params: Params, variables: seq<Variable>)
    requires forall v :: v in variables ==> Literal(v)
  {
    && |args| == (if params.skipExist == Some(true) then 6 else 5)
    && args[..5] == ["copy", "--from", ReplaceVariables(params.from, variables),
                     "--to", ReplaceVariables(params.to, variables)]
    && (|args| == 6 ==> args[5] == SkipExistFlag)
  }

  /** The argument array literal, then a push of the flag when skipExist is truthy. */
  method BuildCopyArgs(params: Params, variables: seq<Variable>) returns (args: seq<string>)
    requires forall v :: v in variables ==> Literal(v)
    ensures IsCopyArgs(args, params, variables)
  {
    args := ["copy", "--from", ReplaceVariables(params.from, variables),
             "--to", ReplaceVariables(params.to, variables)];
    if params.skipExist == Some(true) {
      args := args + [SkipExistFlag];
    }
  }

  /** The argument vector is determined by the preset and the variables. */
  lemma CopyArgsDeterministic(a: seq<string>, b: seq<string>, params: Params, variables: seq<Variable>)
    requires forall v :: v in variables ==> Literal(v)
    requires IsCopyArgs(a, params, variables) && IsCopyArgs(b, params, variables)
    ensures a == b
  {
    if |a| == 6 {
      assert a == a[..5] + [a[5]] && b == b[..5] + [b[5]];
    } else {
      assert a == a[..5] && b == b[..5];
    }
  }

  /** A jsonPath on the preset has no effect on the copy argument vector. */
  lemma CopyArgsIgnoreJsonPath(args: seq<string>, params: Params, jsonPath: Option<string>, variables: seq<Variable>)
    requires forall v :: v in variables ==> Literal(v)
    ensures IsCopyArgs(args, params, variables) <==> IsCopyArgs(args, params.(jsonPath := jsonPath), variables)
  {
  }

  /** Every element is a fixed word or one of the two resolved paths. */
  lemma CopyArgsVocabulary(args: seq<string>, params: Params, variables: seq<Variable>)
    requires forall v :: v in variables ==> Literal(v)
    requires IsCopyArgs(args, params, variables)
    ensures forall a :: a in args ==>
      a in ["copy", "--from", "--to", SkipExistFlag,
            ReplaceVariables(params.from, variables), ReplaceVariables(params.to, variables)]
  {
    forall a | a in args
      ensures a in ["copy", "--from", "--to", SkipExistFlag,
                    ReplaceVariables(params.from, variables), ReplaceVariables(params.to, variables)]
    {
      var i :| 0 <= i < |args| && args[i] == a;
      if i < 5 {
        assert args[i] == args[..5][i];
      }
    }
  }

  /** A path that is a variable's placeholder followed by a shorter `rest` resolves to
      the variable's value followed by `rest`. */
  lemma ResolvesLeading(v: Variable, rest: string, path: string, resolved: string)
    requires Literal(v) && |rest| < |Placeholder(v.name)|
    requires path == Placeholder(v.name) + rest && resolved == v.value + rest
    ensures ReplaceVariables(path, [v]) == resolved
  {
    ShorterAbsent(rest, Placeholder(v.name));
    LeadingPlaceholder(v, rest);
  }

  /** The worked example: Desktop = "/Users/x/Desktop", from "{{Desktop}}/a",
      to "{{Desktop}}/b", skipExist set. */
  const Desktop: Variable := Variable("Desktop", "/Users/x/Desktop")
  const DesktopParams: Params := Params("{{Desktop}}/a", "{{Desktop}}/b", Some(true), None)
  const DesktopArgs: seq<string> :=
    ["copy", "--from", "/Users/x/Desktop/a", "--to", "/Users/x/Desktop/b", "--skip-exist"]

  /** The example's variable substitutes literally. */
  lemma DesktopIsLiteral()
    ensures Literal(Desktop)
  {
    LetterNameIsLiteral(Desktop.name);
  }

  /** In the worked example the tool is called with both paths resolved and the flag last. */
  lemma DesktopExample()
    ensures forall v :: v in [Desktop] ==> Literal(v)
    ensures IsCopyArgs(DesktopArgs, DesktopParams, [Desktop])
  {
    DesktopIsLiteral();
    assert Placeholder(Desktop.name) == "{{Desktop}}";
    ResolvesLeading(Desktop, "/a", DesktopParams.from, "/Users/x/Desktop/a");
    ResolvesLeading(Desktop, "/b", DesktopParams.to, "/Users/x/Desktop/b");
  }

  /** The fixed part of a report: verdict heading and message. */
  function ReportHead(result: CommandOutput): string {
    "# " + (if result.success then "Success" else "Error") + "\n\n" + result.message + "\n\n"
  }

  function Section(title: string, body: Option<string>): string {
    if Truthy(body) then "## " + title + "\n```\n" + body.value + "\n```\n\n" else ""
  }

  /** The report string shown for an outcome of the tool. */
  function Report(result: CommandOutput): (r: string)
    ensures ReportHead(result) <= r
  {
    ReportHead(result) + Section("Output", result.output) + Section("Error", result.error)
  }

  /** The catch branch: the report shown when the handler throws. */
  function ErrorReport(message: string): (r: string)
    ensures |r| == 9 + |message| && r[..9] == "# Error\n\n" && r[9..] == message
  {
    "# Error\n\n" + message
  }

  /** The exception report is an error report whose body is the message. */
  lemma ErrorReportVerdict(message: string)
    ensures "# Error" <= ErrorReport(message) && !("# Success" <= ErrorReport(message))
    ensures ErrorReport(message)[|"# Error\n\n"|..] == message
  {
    assert ErrorReport(message)[2] != "# Success"[2];
  }

  /** The report opens with "# Success" exactly for a success, with "# Error" exactly for a
      failure, followed by the message. */
  lemma ReportVerdict(result: CommandOutput)
    ensures "# Success" <= Report(result) <==> result.success
    ensures "# Error" <= Report(result) <==> !result.success
    ensures ReportHead(result) <= Report(result)
  {
    var r := Report(result);
    if result.success {
      assert r[..9] == "# Success";
      assert r[2] != "# Error"[2];
    } else {
      assert r[..7] == "# Error";
      assert r[2] != "# Success"[2];
    }
  }

  /** After the head comes an Output section iff the output is non-empty, then an Error
      section iff the error is non-empty, and nothing else. */
  lemma ReportSections(result: CommandOutput)
    ensures var tail := Report(result)[|ReportHead(result)|..];
      var o := Section("Output", result.output);
      && tail == o + Section("Error", result.error)
      && ("## Output\n" <= tail <==> Truthy(result.output))
      && ("## Error\n" <= tail[|o|..] <==> Truthy(result.error))
      && (tail == "" <==> !Truthy(result.output) && !Truthy(result.error))
  {
    var head := ReportHead(result);
    var o, e := Section("Output", result.output), Section("Error", result.error);
    assert Report(result) == head + (o + e);
    var tail := Report(result)[|head|..];
    assert tail == o + e;
    assert tail[|o|..] == e;
    if Truthy(result.output) {
      assert o == "## Output\n" + ("```\n" + result.output.value + "\n```\n\n");
      assert "## Output\n" <= tail;
    } else if Truthy(result.error) {
      assert tail == "## Error\n" + ("```\n" + result.error.value + "\n```\n\n");
      assert tail[3] != "## Output\n"[3];
    }
    if Truthy(result.error) {
      assert e == "## Error\n" + ("```\n" + result.error.value + "\n```\n\n");
    }
  }

  /** A non-empty output is shown verbatim inside its section. */
  lemma ReportShowsOutput(result: CommandOutput)
    requires Truthy(result.output)
    ensures var k := |ReportHead(result)| + |"## Output\n```\n"|;
      k + |result.output.value| <= |Report(result)| &&
      Report(result)[k..k + |result.output.value|] == result.output.value
  {
  }

  /** handleParamSetSelect without the loading flag: read the variables once, build the
      arguments from that one snapshot, run the tool and render the report. When reading
      the variables throws, nothing runs and the report is the exception's message. */
  method HandleParamSetSelect(paramSet: ParamSet, loaded: Result<seq<Variable>>, launch: Launch)
    returns (args: Option<seq<string>>, report: string)
    requires loaded.Ok? ==> forall v :: v in loaded.value ==> Literal(v)
    ensures loaded.Err? ==> args == None && report == ErrorReport(loaded.message)
    ensures loaded.Ok? ==> args.Some? && IsCopyArgs(args.value, paramSet.params, loaded.value)
    ensures loaded.Ok? ==> report == Report(Outcome(launch))
  {
    match loaded {
      case Err(message) =>
        args, report := None, ErrorReport(message);
      case Ok(variables) =>
        var argv := BuildCopyArgs(paramSet.params, variables);
        var result := RunCliCommand(launch);
        args, report := Some(argv), Report(result);
    }
  }
}

/** The command bridge's outcome logic (runCliCommand in src/utils.ts). The child
    process is an input: the data chunks it wrote, in arrival order, and the event that
    settled the promise first. Locating and spawning the executable are not modelled. */
module Process {
  import opened Types

  datatype Stream = Stdout | Stderr

  /** One 'data' event: a decoded chunk on one of the child's output streams. */
  datatype Chunk = Chunk(stream: Stream, text: string)

  /** The first settling event: 'close' with an exit code (null when killed by a signal),
      or 'error' with the error's message. */
  datatype Ending = Closed(code: Option<int>) | Failed(message: string)

  /** What one call did: threw synchronously while setting up, or spawned a child. */
  datatype Launch = Threw(message: string) | Spawned(chunks: seq<Chunk>, ending: Ending)

  const SuccessMessage: string := "Command executed successfully"
  const FailureMessage: string := "Command failed"
  const LaunchFailureMessage: string := "Command execution failed"
  const ExitCodePrefix: string := "Process exited with code "

  /** The in-order concatenation of the chunks received on one stream. */
  function Collected(chunks: seq<Chunk>, stream: Stream): (r: string)
    ensures (forall i :: 0 <= i < |chunks| ==> chunks[i].stream != stream) ==> r == ""
    decreases |chunks|
  {
    if chunks == [] then ""
    else (if chunks[0].stream == stream then chunks[0].text else "") + Collected(chunks[1..], stream)
  }

  /** Collecting distributes over a split of the chunk sequence. */
  lemma {:induction false} CollectedAppend(a: seq<Chunk>, b: seq<Chunk>, stream: Stream)
    ensures Collected(a + b, stream) == Collected(a, stream) + Collected(b, stream)
    decreases |a|
  {
    if a == [] {
      assert a + b == b;
    } else {
      assert (a + b)[0] == a[0] && (a + b)[1..] == a[1..] + b;
      CollectedAppend(a[1..], b, stream);
    }
  }

  /** A chunk on the other stream leaves a stream's text unchanged. */
  lemma CollectedIgnoresOtherStream(chunks: seq<Chunk>, c: Chunk, stream: Stream)
    requires c.stream != stream
    ensures Collected(chunks + [c], stream) == Collected(chunks, stream)
  {
    CollectedAppend(chunks, [c], stream);
  }

  function DigitChar(d: nat): char
    requires d < 10
  {
    "0123456789"[d]
  }

  predicate AllDigits(s: string) {
    forall i :: 0 <= i < |s| ==> '0' <= s[i] <= '9'
  }

  /** Decimal digits of a natural number, most significant first. */
  function NatText(n: nat): (r: string)
    ensures |r| > 0 && AllDigits(r)
    decreases n
  {
    if n < 10 then [DigitChar(n)] else NatText(n / 10) + [DigitChar(n % 10)]
  }

  /** The value of a string of decimal digits. */
  function DigitsValue(s: string): nat
    requires AllDigits(s)
    decreases |s|
  {
    if s == [] then 0
    else
      DigitsValue(s[..|s| - 1]) * 10 + (s[|s| - 1] as int - '0' as int)
  }

  /** Reading back the digits of `n` gives `n`. */
  lemma {:induction false} NatTextRoundTrip(n: nat)
    ensures DigitsValue(NatText(n)) == n
    decreases n
  {
    if n >= 10 {
      NatTextRoundTrip(n / 10);
      var s := NatText(n / 10) + [DigitChar(n % 10)];
      assert s[..|s| - 1] == NatText(n / 10);
    }
  }

  /** `${code}` for an exit code: its decimal form, or "null". */
  function CodeText(code: Option<int>): (r: string)
    ensures |r| > 0
    ensures r == "null" <==> code.None?
    ensures code.Some? && code.value >= 0 ==> AllDigits(r) && DigitsValue(r) == code.value
    ensures code.Some? && code.value < 0 ==>
      r[0] == '-' && AllDigits(r[1..]) && DigitsValue(r[1..]) == -code.value
  {
    match code
    case None => "null"
    case Some(n) =>
      if n < 0 then
        NatTextRoundTrip(-n);
        assert ("-" + NatText(-n))[1..] == NatText(-n);
        "-" + NatText(-n)
      else
        NatTextRoundTrip(n);
        assert NatText(n)[0] != "null"[0];
        NatText(n)
  }

  /** The 'close' and 'error' handlers: what the promise resolves to once the child
      settled with `ending`, having written `stdout` and `stderr`. */
  function Classify(ending: Ending, stdout: string, stderr: string): (r: CommandOutput)
    ensures WellFormed(r)
    ensures r.success <==> ending == Closed(Some(0)) && stderr == ""
    ensures r.success ==> r.output == Some(stdout)
  {
    match ending
    case Failed(message) => CommandOutput(false, LaunchFailureMessage, None, Some(message))
    case Closed(code) =>
      if code != Some(0) || stderr != "" then
        CommandOutput(false, FailureMessage, None,
                      Some(if stderr != "" then stderr else ExitCodePrefix + CodeText(code)))
      else
        CommandOutput(true, SuccessMessage, Some(stdout), None)
  }

  /** The value runCliCommand resolves to for one launch. */
  function Outcome(launch: Launch): (r: CommandOutput)
    ensures WellFormed(r)
    ensures launch.Threw? ==> !r.success && r.error == Some(launch.message)
  {
    match launch
    case Threw(message) => CommandOutput(false, LaunchFailureMessage, None, Some(message))
    case Spawned(chunks, ending) => Classify(ending, Collected(chunks, Stdout), Collected(chunks, Stderr))
  }

  /** Success outcomes carry output and no error; failures carry an error and no output. */
  predicate WellFormed(out: CommandOutput) {
    if out.success then out.output.Some? && out.error.None? else out.output.None? && out.error.Some?
  }

  /** runCliCommand: accumulate both streams chunk by chunk, then classify. Once the
      child settles the outcome is a resolved value; the promise never rejects. */
  method RunCliCommand(launch: Launch) returns (out: CommandOutput)
    ensures out == Outcome(launch)
    ensures WellFormed(out)
  {
    match launch {
      case Threw(message) =>
        out := CommandOutput(false, LaunchFailureMessage, None, Some(message));
      case Spawned(chunks, ending) =>
        var stdout, stderr := "", "";
        var i := 0;
        while i < |chunks|
          invariant 0 <= i <= |chunks|
          invariant stdout == Collected(chunks[..i], Stdout)
          invariant stderr == Collected(chunks[..i], Stderr)
        {
          var chunk := chunks[i];
          CollectedAppend(chunks[..i], [chunk], Stdout);
          CollectedAppend(chunks[..i], [chunk], Stderr);
          assert chunks[..i + 1] == chunks[..i] + [chunk];
          if chunk.stream == Stdout {
            stdout := stdout + chunk.text;
          } else {
            stderr := stderr + chunk.text;
          }
          i := i + 1;
        }
        assert chunks[..i] == chunks;
        out := Classify(ending, stdout, stderr);
    }
  }

  /** Every settled launch yields a well-formed outcome; nothing rejects. */
  lemma OutcomeWellFormed(launch: Launch)
    ensures WellFormed(Outcome(launch))
  {
  }

  /** Success exactly when the child closed with code 0 and wrote nothing to stderr; the
      output is then everything it wrote to stdout. */
  lemma OutcomeSuccessIff(launch: Launch)
    ensures Outcome(launch).success <==>
      launch.Spawned? && launch.ending == Closed(Some(0)) && Collected(launch.chunks, Stderr) == ""
    ensures Outcome(launch).success ==>
      Outcome(launch).message == SuccessMessage && Outcome(launch).output == Some(Collected(launch.chunks, Stdout))
  {
  }

  /** A close with a non-zero or null code, or with anything on stderr, is a failed command;
      the error is stderr when there is some, else the exit code. */
  lemma CloseFailure(chunks: seq<Chunk>, code: Option<int>)
    requires code != Some(0) || Collected(chunks, Stderr) != ""
    ensures !Outcome(Spawned(chunks, Closed(code))).success
    ensures Outcome(Spawned(chunks, Closed(code))).message == FailureMessage
    ensures Collected(chunks, Stderr) != "" ==>
      Outcome(Spawned(chunks, Closed(code))).error == Some(Collected(chunks, Stderr))
    ensures Collected(chunks, Stderr) == "" ==>
      Outcome(Spawned(chunks, Closed(code))).error == Some(ExitCodePrefix + CodeText(code))
  {
  }

  /** A spawn error or a synchronous throw is reported with its message. */
  lemma LaunchFailure(launch: Launch)
    requires launch.Threw? || launch.ending.Failed?
    ensures !Outcome(launch).success && Outcome(launch).message == LaunchFailureMessage
    ensures Outcome(launch).error == Some(if launch.Threw? then launch.message else launch.ending.message)
  {
  }

  /** The classification table on concrete runs: (0, "") succeeds with stdout,
      (0, "warn") fails with "warn", (2, "") fails naming code 2, a spawn error fails
      with the platform's text. */
  lemma ClassificationTable(out: string, message: string)
    ensures Outcome(Spawned([Chunk(Stdout, out)], Closed(Some(0))))
            == CommandOutput(true, "Command executed successfully", Some(out), None)
    ensures Outcome(Spawned([Chunk(Stderr, "warn")], Closed(Some(0))))
            == CommandOutput(false, "Command failed", None, Some("warn"))
    ensures Outcome(Spawned([], Closed(Some(2))))
            == CommandOutput(false, "Command failed", None, Some("Process exited with code 2"))
    ensures Outcome(Spawned([], Failed(message)))
            == CommandOutput(false, "Command execution failed", None, Some(message))
  {
    assert Collected([Chunk(Stdout, out)], Stderr) == "";
    assert Collected([Chunk(Stdout, out)], Stdout) == out + "" == out;
    assert Collected([Chunk(Stderr, "warn")], Stderr) == "warn";
    assert CodeText(Some(2)) == [DigitChar(2)] == "2";
    assert ExitCodePrefix + "2" == "Process exited with code 2";
  }
}

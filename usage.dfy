/**
 * Clients of ConsoleRunner, derived from the contracts of the class alone:
 * running `echo hello`, adding the key "foo bar" to a fresh runner, and
 * scanning the output of a command run under code page 866 twice.
 */
module Usage {
  import opened Php
  import opened FluentConsole

  /** `echo hello` with no encoding: the shell sees "echo hello 2>&1", run succeeds and the output is its one line. */
  method EchoHello(platform: Platform) returns (ok: bool, lines: seq<string>, code: int)
    ensures ok && lines == ["hello"] && code == 0
  {
    var shell := (s: string) => if s == "echo hello 2>&1" then ExecResult(["hello"], 0) else ExecResult([], 1);
    var runner := new ConsoleRunner(platform);
    var _ := runner.SetCommand("echo hello");
    var outcome := runner.Run(shell);
    ok := outcome == Return(true);
    lines := runner.GetOutput();
    code := runner.GetReturnCode();
  }

  /**
   * addKey("foo bar") on a fresh runner gives exactly the escaped " foo bar";
   * a following addKey("") adds nothing, and addKey("a\0b") throws and adds
   * nothing either.
   */
  method AddKeyOnFreshRunner(platform: Platform) returns (command: string, nulKey: Outcome<ConsoleRunner>)
    ensures command == platform.escape(" foo bar")
    ensures nulKey == Throw(ValueError)
  {
    var runner := new ConsoleRunner(platform);
    var _ := runner.AddKey("foo bar");
    var _ := runner.AddKey("");
    assert HasNul(" " + "a\0b");
    nulKey := runner.AddKey("a\0b");
    command := runner.GetCommand();
    assert " " + "foo bar" == " foo bar";
    assert "" + platform.escape(" foo bar") == platform.escape(" foo bar");
  }

  /**
   * With code page 866 and reverse conversion: the shell sees the chcp
   * switch (see ExecLineShape), and because getMatches converts the stored
   * output in place, a second call converts the already converted lines once
   * more.
   */
  method CodePage866(platform: Platform, shell: Shell, cmd: string, patterns: seq<string>)
    returns (first: seq<string>, second: seq<string>)
    requires !HasNul(cmd)
    ensures var lines := shell(ExecLine(cmd, Some("866"))).lines;
            var once := ConvertLines(platform.convert, lines, "866", ToUtf8);
            var twice := ConvertLines(platform.convert, once, "866", ToUtf8);
            && first == ConvertLines(platform.convert, Matches(platform.pregMatch, once, patterns), "866", FromUtf8)
            && second == ConvertLines(platform.convert, Matches(platform.pregMatch, twice, patterns), "866", FromUtf8)
  {
    var runner := new ConsoleRunner(platform);
    var _ := runner.SetCommand(cmd);
    var _ := runner.Encoding(Some("866"));
    var _ := runner.Decoding();
    assert Truthy(runner.encoding) && runner.encoding.value == "866" && "866" in CodePages;
    ghost var lines := shell(ExecLine(cmd, Some("866"))).lines;
    ExecLineHasNul(cmd, runner.encoding);
    assert !HasNul("866");
    var _ := runner.Run(shell);
    assert runner.output == lines;
    first := runner.GetMatches(patterns);
    ghost var once := runner.output;
    second := runner.GetMatches(patterns);
  }
}

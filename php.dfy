/**
 * The parts of the PHP runtime that ConsoleRunner relies on, abstracted.
 *
 * The builtins escapeshellarg, preg_match and mb_convert_encoding are
 * foreign code whose semantics this model does not fix: each is a
 * function-typed value, so every property proved about ConsoleRunner holds
 * for every escaping policy, regex engine and character table. The process
 * started by exec is a `Shell`: whatever lines and exit status the platform
 * produces for a given command line.
 */
module Php {

  datatype Option<+T> = None | Some(value: T)

  /** The exception a builtin raises instead of returning. */
  datatype Exception = ValueError

  /** A PHP call either returns a value or throws. */
  datatype Outcome<+T> = Return(value: T) | Throw(exception: Exception)

  /**
   * Since PHP 8, escapeshellarg and exec throw a ValueError for an argument
   * that contains a NUL byte.
   */
  predicate HasNul(s: string) {
    '\0' in s
  }

  /** PHP truthiness of a `?string`: null, "" and "0" are falsy, every other string is truthy. */
  predicate Truthy(s: Option<string>) {
    s.Some? && s.value != "" && s.value != "0"
  }

  /**
   * The array preg_match fills in on success: element 0 is the text of the
   * whole match, the capture groups follow. It is never empty.
   */
  datatype MatchArray = MatchArray(whole: string, groups: seq<string>) {
    function Elements(): (e: seq<string>)
      ensures |e| == 1 + |groups| && e[0] == whole && e[1..] == groups
    {
      [whole] + groups
    }
  }

  /** preg_match(pattern, subject): Some(match array) when it returns 1, None when it returns 0 or false. */
  type Matcher = (string, string) -> Option<MatchArray>

  /** mb_convert_encoding(string, to_encoding, from_encoding). */
  type Converter = (string, string, string) -> string

  /** escapeshellarg(arg), for an arg without NUL bytes (with one it throws, see HasNul); its length limit is not modelled. */
  type Escaper = string -> string

  /** The builtins a ConsoleRunner calls, fixed for the object's lifetime. */
  datatype Platform = Platform(escape: Escaper, pregMatch: Matcher, convert: Converter)

  /** What the child process produced: its output lines (stdout and stderr as the shell delivers them) and its exit status. */
  datatype ExecResult = ExecResult(lines: seq<string>, code: int)

  /** The platform's command interpreter, as seen through exec. */
  type Shell = string -> ExecResult

  /**
   * exec(command, &output, &result_code): throws a ValueError, touching
   * neither array nor code, when the command contains a NUL byte; otherwise
   * runs it, APPENDS the lines it printed to the array passed by reference,
   * and sets the result code.
   */
  method Exec(shell: Shell, command: string, output: seq<string>, resultCode: int)
    returns (thrown: Option<Exception>, output': seq<string>, resultCode': int)
    ensures thrown == if HasNul(command) then Some(ValueError) else None
    ensures HasNul(command) ==> output' == output && resultCode' == resultCode
    ensures !HasNul(command) ==>
      && |output'| == |output| + |shell(command).lines|
      && output'[..|output|] == output && output'[|output|..] == shell(command).lines
      && resultCode' == shell(command).code
  {
    if HasNul(command) {
      return Some(ValueError), output, resultCode;
    }
    var result := shell(command);
    thrown := None;
    output' := output + result.lines;
    resultCode' := result.code;
  }
}

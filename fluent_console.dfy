/**
 * FluentConsole\ConsoleRunner: a fluent builder that composes a shell
 * command line, runs it with stderr merged into stdout, and scans the
 * captured lines for regular-expression matches, optionally converting them
 * between a console code page and UTF-8.
 *
 * The module holds the code-page table, the pure functions that specify the
 * class (command composition, first-pattern extraction, line conversion) with
 * the lemmas about them, and the class itself, whose methods are proved
 * against those functions.
 */
module FluentConsole {
  import opened Php

  /** Console code page → mbstring encoding name (the `$encodings` table). */
  const CodePages: map<string, string> :=
    map["866" := "CP866", "1251" := "CP1251", "65001" := "UTF-8", "437" := "CP437", "1252" := "CP1252"]

  /** The processing encoding that matching is done in. */
  const Utf8: string := "UTF-8"

  /** Appended to every command line: merge stderr into stdout. */
  const MergeStderr: string := " 2>&1"

  /** A record of the literal table: its five keys and the encoding name of each. */
  lemma CodePageTable()
    ensures CodePages.Keys == {"866", "1251", "65001", "437", "1252"}
    ensures CodePages["866"] == "CP866" && CodePages["1251"] == "CP1251" && CodePages["65001"] == "UTF-8"
    ensures CodePages["437"] == "CP437" && CodePages["1252"] == "CP1252"
  {
  }

  // ---------------------------------------------------------------------
  // Command composition
  // ---------------------------------------------------------------------

  /** The command after one addKey(key): an empty key is ignored, any other is escaped together with a leading space. */
  function AppendKey(escape: Escaper, command: string, key: string): string {
    if key != "" then command + escape(" " + key) else command
  }

  /** The command after addKey(keys[0]), addKey(keys[1]), … in turn, when none of the keys holds a NUL byte (such a call throws). */
  function AppendKeys(escape: Escaper, command: string, keys: seq<string>): string
    decreases |keys|
  {
    if keys == [] then command else AppendKeys(escape, AppendKey(escape, command, keys[0]), keys[1..])
  }

  /** The escaped tokens of the non-empty keys, concatenated in order. */
  function Tokens(escape: Escaper, keys: seq<string>): string
    decreases |keys|
  {
    if keys == [] then ""
    else (if keys[0] != "" then escape(" " + keys[0]) else "") + Tokens(escape, keys[1..])
  }

  /** The keys that are not the empty string, in order. */
  function NonEmpty(keys: seq<string>): (r: seq<string>)
    ensures forall i :: 0 <= i < |r| ==> r[i] != ""
    ensures |r| <= |keys|
    decreases |keys|
  {
    if keys == [] then [] else (if keys[0] != "" then [keys[0]] else []) + NonEmpty(keys[1..])
  }

  /** Adding keys only ever appends: the text set before is kept and the escaped tokens follow it, in the order added. */
  lemma {:induction false} AppendKeysIsConcatenation(escape: Escaper, command: string, keys: seq<string>)
    ensures AppendKeys(escape, command, keys) == command + Tokens(escape, keys)
    decreases |keys|
  {
    if keys != [] {
      var next := AppendKey(escape, command, keys[0]);
      AppendKeysIsConcatenation(escape, next, keys[1..]);
      var head := if keys[0] != "" then escape(" " + keys[0]) else "";
      assert next == command + head;
      assert AppendKeys(escape, command, keys) == (command + head) + Tokens(escape, keys[1..]);
      assert (command + head) + Tokens(escape, keys[1..]) == command + (head + Tokens(escape, keys[1..]));
    }
  }

  /** Whatever keys are added, the command set before them is a prefix of the result. */
  lemma AppendKeysKeepsPrefix(escape: Escaper, command: string, keys: seq<string>)
    ensures command <= AppendKeys(escape, command, keys)
  {
    AppendKeysIsConcatenation(escape, command, keys);
  }

  /** Empty keys leave no trace: adding them among others gives the same command as leaving them out. */
  lemma {:induction false} EmptyKeysIgnored(escape: Escaper, command: string, keys: seq<string>)
    ensures AppendKeys(escape, command, keys) == AppendKeys(escape, command, NonEmpty(keys))
    decreases |keys|
  {
    if keys != [] {
      var next := AppendKey(escape, command, keys[0]);
      EmptyKeysIgnored(escape, next, keys[1..]);
      if keys[0] != "" {
        assert NonEmpty(keys) == [keys[0]] + NonEmpty(keys[1..]);
        assert NonEmpty(keys)[0] == keys[0] && NonEmpty(keys)[1..] == NonEmpty(keys[1..]);
      } else {
        assert NonEmpty(keys) == NonEmpty(keys[1..]);
      }
    }
  }

  /** The code-page switch run() puts in front of the command when an encoding is set. */
  function CodePagePrefix(encoding: Option<string>): string {
    if Truthy(encoding) then "chcp " + encoding.value + " >nul  && " else ""
  }

  /** The string run() hands to exec for the given command and encoding. */
  function ExecLine(command: string, encoding: Option<string>): string {
    CodePagePrefix(encoding) + command + MergeStderr
  }

  /** Recovers the command from a composed exec line: strip the code-page prefix and the redirection. */
  function CommandOf(line: string, encoding: Option<string>): Option<string> {
    var prefix := CodePagePrefix(encoding);
    if |prefix| + |MergeStderr| <= |line|
       && line[..|prefix|] == prefix
       && line[|line| - |MergeStderr|..] == MergeStderr
    then Some(line[|prefix|..|line| - |MergeStderr|])
    else None
  }

  /** The composed exec line determines the command: stripping its prefix and suffix gives the command back. */
  lemma ExecLineRoundTrip(command: string, encoding: Option<string>)
    ensures CommandOf(ExecLine(command, encoding), encoding) == Some(command)
  {
  }

  /**
   * A record of the literal strings of the exec line: the redirection always
   * closes it, and the chcp switch (with two spaces before `&&`) opens it
   * exactly when an encoding is set.
   */
  lemma ExecLineShape(command: string, encoding: Option<string>)
    ensures |ExecLine(command, encoding)| >= |MergeStderr|
    ensures ExecLine(command, encoding)[|ExecLine(command, encoding)| - |MergeStderr|..] == MergeStderr
    ensures !Truthy(encoding) ==> ExecLine(command, encoding) == command + " 2>&1"
    ensures Truthy(encoding) ==>
      ExecLine(command, encoding) == "chcp " + encoding.value + " >nul  && " + command + " 2>&1"
  {
  }

  /** Distinct commands give distinct exec lines under the same encoding. */
  lemma ExecLineInjective(c1: string, c2: string, encoding: Option<string>)
    requires c1 != c2
    ensures ExecLine(c1, encoding) != ExecLine(c2, encoding)
  {
    ExecLineRoundTrip(c1, encoding);
    ExecLineRoundTrip(c2, encoding);
  }

  /** The exec line has a NUL byte, so exec throws, exactly when the command or a set encoding has one. */
  lemma ExecLineHasNul(command: string, encoding: Option<string>)
    ensures HasNul(ExecLine(command, encoding)) <==> HasNul(command) || (Truthy(encoding) && HasNul(encoding.value))
  {
    assert !HasNul("chcp ") && !HasNul(" >nul  && ") && !HasNul(MergeStderr);
  }

  // ---------------------------------------------------------------------
  // Output scanning
  // ---------------------------------------------------------------------

  /** What getMatches keeps of a successful match: capture group 1 if the match array has more than one element, else element 0. */
  function Extracted(m: MatchArray): (r: string)
    ensures r == if m.groups != [] then m.groups[0] else m.whole
  {
    var e := m.Elements();
    if |e| > 1 then e[1] else e[0]
  }

  /** Pattern k is the first of `patterns` that matches `line`. */
  ghost predicate IsFirstMatch(pregMatch: Matcher, line: string, patterns: seq<string>, k: int) {
    && 0 <= k < |patterns|
    && pregMatch(patterns[k], line).Some?
    && forall j :: 0 <= j < k ==> pregMatch(patterns[j], line).None?
  }

  /** The inner loop of getMatches for one line: try the patterns in order, stop at the first that matches. */
  function FirstMatch(pregMatch: Matcher, line: string, patterns: seq<string>): (r: Option<string>)
    ensures r.None? <==> forall k :: 0 <= k < |patterns| ==> pregMatch(patterns[k], line).None?
    decreases |patterns|
  {
    if patterns == [] then None
    else match pregMatch(patterns[0], line)
      case Some(m) => Some(Extracted(m))
      case None => FirstMatch(pregMatch, line, patterns[1..])
  }

  /** The contribution of one line to the result of getMatches. */
  function Found(r: Option<string>): seq<string> {
    if r.Some? then [r.value] else []
  }

  /** The result of the nested loop of getMatches: one entry per line that some pattern matches, in line order. */
  function Matches(pregMatch: Matcher, lines: seq<string>, patterns: seq<string>): (r: seq<string>)
    ensures |r| <= |lines|
    decreases |lines|
  {
    if lines == [] then []
    else Found(FirstMatch(pregMatch, lines[0], patterns)) + Matches(pregMatch, lines[1..], patterns)
  }

  /** The reference meaning of hasError: some line of the output matches the pattern. */
  ghost predicate AnyLineMatches(pregMatch: Matcher, lines: seq<string>, pattern: string) {
    exists i :: 0 <= i < |lines| && pregMatch(pattern, lines[i]).Some?
  }

  /** FirstMatch yields v exactly when some pattern is the first to match and v is what it extracts. */
  lemma {:induction false} FirstMatchIsFirstPattern(pregMatch: Matcher, line: string, patterns: seq<string>, v: string)
    ensures FirstMatch(pregMatch, line, patterns) == Some(v) <==>
      exists k :: IsFirstMatch(pregMatch, line, patterns, k) && v == Extracted(pregMatch(patterns[k], line).value)
    decreases |patterns|
  {
    if patterns == [] {
    } else if pregMatch(patterns[0], line).Some? {
      if FirstMatch(pregMatch, line, patterns) == Some(v) {
        assert IsFirstMatch(pregMatch, line, patterns, 0);
      }
      forall k | IsFirstMatch(pregMatch, line, patterns, k)
        ensures k == 0
      {
      }
    } else {
      var rest := patterns[1..];
      FirstMatchIsFirstPattern(pregMatch, line, rest, v);
      if FirstMatch(pregMatch, line, patterns) == Some(v) {
        var k :| IsFirstMatch(pregMatch, line, rest, k) && v == Extracted(pregMatch(rest[k], line).value);
        assert IsFirstMatch(pregMatch, line, patterns, k + 1);
      }
      forall k | IsFirstMatch(pregMatch, line, patterns, k)
        ensures IsFirstMatch(pregMatch, line, rest, k - 1)
      {
        assert k != 0;
      }
    }
  }

  /** Later patterns are consulted only when the earlier ones all fail. */
  lemma {:induction false} EarlierPatternsWin(pregMatch: Matcher, line: string, first: seq<string>, later: seq<string>)
    ensures FirstMatch(pregMatch, line, first + later) ==
      if FirstMatch(pregMatch, line, first).Some? then FirstMatch(pregMatch, line, first)
      else FirstMatch(pregMatch, line, later)
    decreases |first|
  {
    if first == [] {
      assert first + later == later;
    } else {
      assert (first + later)[0] == first[0];
      assert (first + later)[1..] == first[1..] + later;
      EarlierPatternsWin(pregMatch, line, first[1..], later);
    }
  }

  /** getMatches distributes over the lines: each line contributes on its own, in order. */
  lemma {:induction false} MatchesAppend(pregMatch: Matcher, a: seq<string>, b: seq<string>, patterns: seq<string>)
    ensures Matches(pregMatch, a + b, patterns) == Matches(pregMatch, a, patterns) + Matches(pregMatch, b, patterns)
    decreases |a|
  {
    if a == [] {
      assert a + b == b;
    } else {
      assert (a + b)[0] == a[0];
      assert (a + b)[1..] == a[1..] + b;
      MatchesAppend(pregMatch, a[1..], b, patterns);
    }
  }

  /** Every entry of the result is what the first matching pattern extracts from some line. */
  lemma {:induction false} MatchesComeFromLines(pregMatch: Matcher, lines: seq<string>, patterns: seq<string>, j: int)
    requires 0 <= j < |Matches(pregMatch, lines, patterns)|
    ensures exists i :: 0 <= i < |lines| && FirstMatch(pregMatch, lines[i], patterns) == Some(Matches(pregMatch, lines, patterns)[j])
    decreases |lines|
  {
    var head := Found(FirstMatch(pregMatch, lines[0], patterns));
    var tail := Matches(pregMatch, lines[1..], patterns);
    if j < |head| {
      assert FirstMatch(pregMatch, lines[0], patterns) == Some(Matches(pregMatch, lines, patterns)[j]);
    } else {
      MatchesComeFromLines(pregMatch, lines[1..], patterns, j - |head|);
      var i :| 0 <= i < |lines[1..]| && FirstMatch(pregMatch, lines[1..][i], patterns) == Some(tail[j - |head|]);
      assert lines[1..][i] == lines[i + 1];
    }
  }

  /** Conversely, a line with a match contributes its extraction, right after the entries of the lines before it. */
  lemma MatchedLineHasItsEntry(pregMatch: Matcher, lines: seq<string>, patterns: seq<string>, i: int)
    requires 0 <= i < |lines| && FirstMatch(pregMatch, lines[i], patterns).Some?
    ensures |Matches(pregMatch, lines[..i], patterns)| < |Matches(pregMatch, lines, patterns)|
    ensures Matches(pregMatch, lines, patterns)[|Matches(pregMatch, lines[..i], patterns)|] ==
      FirstMatch(pregMatch, lines[i], patterns).value
  {
    assert lines == lines[..i] + ([lines[i]] + lines[i + 1..]);
    MatchesAppend(pregMatch, lines[..i], [lines[i]] + lines[i + 1..], patterns);
    MatchesAppend(pregMatch, [lines[i]], lines[i + 1..], patterns);
  }

  /** When every line is matched by some pattern, the result has one entry per line, each taken from its own line. */
  lemma {:induction false} MatchesWhenEveryLineMatches(pregMatch: Matcher, lines: seq<string>, patterns: seq<string>)
    requires forall i :: 0 <= i < |lines| ==> FirstMatch(pregMatch, lines[i], patterns).Some?
    ensures |Matches(pregMatch, lines, patterns)| == |lines|
    ensures forall i :: 0 <= i < |lines| ==>
      Matches(pregMatch, lines, patterns)[i] == FirstMatch(pregMatch, lines[i], patterns).value
    decreases |lines|
  {
    if lines != [] {
      assert forall i :: 0 <= i < |lines[1..]| ==> lines[1..][i] == lines[i + 1];
      MatchesWhenEveryLineMatches(pregMatch, lines[1..], patterns);
    }
  }

  /** The result is empty exactly when no pattern matches any line. */
  lemma {:induction false} MatchesEmptyIffNoLineMatches(pregMatch: Matcher, lines: seq<string>, patterns: seq<string>)
    ensures Matches(pregMatch, lines, patterns) == [] <==>
      forall i, k :: 0 <= i < |lines| && 0 <= k < |patterns| ==> pregMatch(patterns[k], lines[i]).None?
    decreases |lines|
  {
    if lines != [] {
      MatchesEmptyIffNoLineMatches(pregMatch, lines[1..], patterns);
      assert forall i :: 0 <= i < |lines[1..]| ==> lines[1..][i] == lines[i + 1];
      if Matches(pregMatch, lines, patterns) == [] {
        forall i, k | 0 <= i < |lines| && 0 <= k < |patterns|
          ensures pregMatch(patterns[k], lines[i]).None?
        {
          if i > 0 {
            assert lines[i] == lines[1..][i - 1];
          }
        }
      }
    }
  }

  /** hasError(p) agrees with getMatches([p]) on unconverted output: true exactly when the result would be non-empty. */
  lemma HasErrorIffMatchesNonEmpty(pregMatch: Matcher, lines: seq<string>, pattern: string)
    ensures AnyLineMatches(pregMatch, lines, pattern) <==> Matches(pregMatch, lines, [pattern]) != []
  {
    MatchesEmptyIffNoLineMatches(pregMatch, lines, [pattern]);
  }

  /** The two directions mb_convert_encoding is called in by getMatches. */
  datatype Direction = ToUtf8 | FromUtf8

  /** One array_map step: convert a line between the code page's encoding and UTF-8, looking the name up in the table. */
  function ConvertLine(convert: Converter, line: string, encoding: string, direction: Direction): string
    requires encoding in CodePages
  {
    match direction
    case ToUtf8 => convert(line, Utf8, CodePages[encoding])
    case FromUtf8 => convert(line, CodePages[encoding], Utf8)
  }

  /**
   * array_map of ConvertLine over the lines. The table lookup happens per
   * element, so an encoding missing from the table is harmless when there is
   * nothing to convert.
   */
  function ConvertLines(convert: Converter, lines: seq<string>, encoding: string, direction: Direction): (r: seq<string>)
    requires lines != [] ==> encoding in CodePages
    ensures |r| == |lines|
    ensures forall i :: 0 <= i < |lines| ==> r[i] == ConvertLine(convert, lines[i], encoding, direction)
    decreases |lines|
  {
    if lines == [] then []
    else [ConvertLine(convert, lines[0], encoding, direction)] + ConvertLines(convert, lines[1..], encoding, direction)
  }

  /**
   * The nested foreach of getMatches: for each line, try the patterns in
   * order and push what the first matching one extracts, then stop trying.
   */
  method CollectMatches(pregMatch: Matcher, lines: seq<string>, patterns: seq<string>) returns (matches: seq<string>)
    ensures matches == Matches(pregMatch, lines, patterns)
  {
    matches := [];
    for i := 0 to |lines|
      invariant matches == Matches(pregMatch, lines[..i], patterns)
    {
      var line := lines[i];
      ghost var before := matches;
      for k := 0 to |patterns|
        invariant matches == before
        invariant FirstMatch(pregMatch, line, patterns) == FirstMatch(pregMatch, line, patterns[k..])
      {
        var m := pregMatch(patterns[k], line);
        if m.Some? {
          matches := matches + [Extracted(m.value)];
          break;
        }
        assert patterns[k..][1..] == patterns[k + 1..];
      }
      assert matches == before + Found(FirstMatch(pregMatch, line, patterns));
      assert lines[..i + 1] == lines[..i] + [line];
      MatchesAppend(pregMatch, lines[..i], [line], patterns);
    }
    assert lines[..|lines|] == lines;
  }

  // ---------------------------------------------------------------------
  // The runner
  // ---------------------------------------------------------------------

  class ConsoleRunner {
    /** escapeshellarg, preg_match and mb_convert_encoding as this object sees them. */
    const platform: Platform

    var command: string
    var output: seq<string>
    var returnCode: int
    var encoding: Option<string>
    var decoding: bool

    /**
     * Records the invariant that a stored encoding is truthy (never "" or
     * "0"). The contracts test Truthy(encoding) as the source's `if` does,
     * so none of them depends on it; every method keeps it.
     */
    ghost predicate Valid()
      reads this
    {
      encoding.None? || Truthy(encoding)
    }

    constructor (platform: Platform)
      ensures Valid()
      ensures this.platform == platform
      ensures command == "" && output == [] && returnCode == 0
      ensures encoding == None && !decoding
    {
      this.platform := platform;
      command := "";
      output := [];
      returnCode := 0;
      encoding := None;
      decoding := false;
    }

    /** Replaces the command, verbatim. */
    method SetCommand(cmd: string) returns (self: ConsoleRunner)
      requires Valid()
      modifies this`command
      ensures Valid() && self == this
      ensures command == cmd
    {
      command := cmd;
      self := this;
    }

    /**
     * Appends the escaped key (with a leading space); an empty key changes
     * nothing. A key with a NUL byte makes escapeshellarg throw before the
     * command is touched.
     */
    method AddKey(key: string) returns (r: Outcome<ConsoleRunner>)
      requires Valid()
      modifies this`command
      ensures Valid()
      ensures r == if key != "" && HasNul(" " + key) then Throw(ValueError) else Return(this)
      ensures command == if r.Throw? then old(command) else AppendKey(platform.escape, old(command), key)
      ensures key == "" ==> command == old(command)
      ensures old(command) <= command
    {
      if key != "" {
        if HasNul(" " + key) {
          return Throw(ValueError);
        }
        command := command + platform.escape(" " + key);
      }
      r := Return(this);
    }

    /** Stores the encoding if it is truthy; a falsy argument keeps whatever was set before. */
    method Encoding(e: Option<string>) returns (self: ConsoleRunner)
      requires Valid()
      modifies this`encoding
      ensures Valid() && self == this
      ensures encoding == if Truthy(e) then e else old(encoding)
      ensures old(encoding).Some? ==> encoding.Some?
    {
      if Truthy(e) {
        encoding := e;
      }
      self := this;
    }

    /** Requests that matches be converted back to the code page; the flag is never cleared. */
    method Decoding() returns (self: ConsoleRunner)
      requires Valid()
      modifies this`decoding
      ensures Valid() && self == this
      ensures decoding
    {
      decoding := true;
      self := this;
    }

    method GetCommand() returns (c: string)
      ensures c == command
    {
      c := command;
    }

    /**
     * Runs the command through the shell, prefixed by the code-page switch
     * when an encoding is set and followed by the stderr redirection. exec
     * appends to the output array, so earlier output stays in front; it
     * throws, leaving output and code as they were, when the composed line
     * contains a NUL byte.
     */
    method Run(shell: Shell) returns (r: Outcome<bool>)
      requires Valid()
      modifies this`output, this`returnCode
      ensures Valid()
      ensures HasNul(ExecLine(command, encoding)) ==>
        r == Throw(ValueError) && output == old(output) && returnCode == old(returnCode)
      ensures !HasNul(ExecLine(command, encoding)) ==>
        && output == old(output) + shell(ExecLine(command, encoding)).lines
        && returnCode == shell(ExecLine(command, encoding)).code
        && r == Return(returnCode == 0)
    {
      var prefix := "";
      if Truthy(encoding) {
        prefix := "chcp " + encoding.value + " >nul  && ";
      }
      var thrown;
      thrown, output, returnCode := Exec(shell, prefix + command + " 2>&1", output, returnCode);
      if thrown.Some? {
        return Throw(thrown.value);
      }
      r := Return(returnCode == 0);
    }

    method GetOutput() returns (lines: seq<string>)
      ensures lines == output
    {
      lines := output;
    }

    method GetReturnCode() returns (code: int)
      ensures code == returnCode
    {
      code := returnCode;
    }

    /** True iff some line of the output matches the pattern; reads the output as it is, without conversion. */
    method HasError(pattern: string) returns (found: bool)
      ensures found <==> AnyLineMatches(platform.pregMatch, output, pattern)
    {
      for i := 0 to |output|
        invariant forall j :: 0 <= j < i ==> platform.pregMatch(pattern, output[j]).None?
      {
        if platform.pregMatch(pattern, output[i]).Some? {
          return true;
        }
      }
      return false;
    }

    /**
     * Converts the output to UTF-8 in place when an encoding is set, collects
     * from each line what its first matching pattern extracts, and converts
     * the results back when the reverse conversion was requested as well.
     */
    method GetMatches(patterns: seq<string>) returns (matches: seq<string>)
      requires Valid()
      requires Truthy(encoding) && output != [] ==> encoding.value in CodePages
      modifies this`output
      ensures Valid()
      ensures output == if Truthy(encoding) then ConvertLines(platform.convert, old(output), encoding.value, ToUtf8)
                         else old(output)
      ensures matches == if Truthy(encoding) && decoding
                         then ConvertLines(platform.convert, Matches(platform.pregMatch, output, patterns), encoding.value, FromUtf8)
                         else Matches(platform.pregMatch, output, patterns)
    {
      if Truthy(encoding) {
        output := ConvertLines(platform.convert, output, encoding.value, ToUtf8);
      }

      matches := CollectMatches(platform.pregMatch, output, patterns);

      if Truthy(encoding) && decoding {
        matches := ConvertLines(platform.convert, matches, encoding.value, FromUtf8);
      }
    }
  }
}

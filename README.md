# FluentConsole ConsoleRunner, modelled in Dafny

`FluentConsole\ConsoleRunner` is a fluent builder for one shell command. The
caller sets a command and appends shell-escaped arguments. The caller can also
name a console code page (e.g. `866`) and ask for results to be converted
back. The runner then executes the command with stderr merged into stdout.
Afterwards it can say whether any output line matches a pattern, and it can
extract, line by line, what the first matching pattern captures. When a code
page is set, the output is converted to UTF-8 before matching.

The project has three files:

- `php.dfy` (module `Php`) abstracts the PHP runtime the class uses: PHP
  truthiness of a `?string`, the match array that `preg_match` fills in (never
  empty: element 0 is the whole match), and `exec`, which appends to its
  by-reference output array, or throws a `ValueError` on a NUL byte.
  `escapeshellarg`, `preg_match` and
  `mb_convert_encoding` are function-typed values held in a `Platform`. The
  child process is a `Shell` that maps the command line to some lines and an
  exit status. Because these are arbitrary functions, every proof holds for
  every escaping policy, regex engine, character table and process behaviour.
- `fluent_console.dfy` (module `FluentConsole`) holds the code-page table, the
  pure functions that specify the class, the lemmas about them, and the class
  `ConsoleRunner`. The class has the source's five fields. Each method states
  its whole new state in terms of those functions.
- `usage.dfy` (module `Usage`) holds client scenarios derived from the class
  contracts alone: `echo hello`, `addKey("foo bar")`, and code page 866 used
  twice.

Points where the PHP behaviour is easy to misread:

- `run` does not replace the captured output. PHP's `exec` appends the new
  lines after the existing ones, so earlier output stays as a prefix.
- An invalid pattern does not abort anything. `preg_match` returns `false`, the
  `if` treats that as no match, and the model folds it into `None`.
- `encoding("0")` is ignored like `null` and `""`, because `"0"` is falsy in
  PHP.
- Since PHP 8 (which the `string|array` parameter needs), `escapeshellarg`
  and `exec` throw a `ValueError` for an argument containing a NUL byte. The
  model returns `Throw(ValueError)` from `AddKey` and `Run` in that case, with
  the state left as it was.
- The code-page name is looked up inside the `array_map` callbacks. So an
  unknown encoding only matters when there is a line to convert, and that is
  all `GetMatches` requires.

## Model

| member | source | states |
|---|---|---|
| `FluentConsole.CodePageTable` | src/ConsoleRunner.php:54-60 | a record of the literal table, restating its definition: exactly the keys 866, 1251, 65001, 437, 1252, mapped to CP866, CP1251, UTF-8, CP437, CP1252 |
| `FluentConsole.ConsoleRunner.constructor` | src/ConsoleRunner.php:26-67 | a new runner has command "", no output, return code 0, no encoding and the decoding flag off |
| `FluentConsole.ConsoleRunner.SetCommand` | src/ConsoleRunner.php:76-80 | the command becomes exactly the argument; only the command field may change; the object itself is returned for chaining |
| `FluentConsole.ConsoleRunner.AddKey` | src/ConsoleRunner.php:91-97 | an empty key leaves the command unchanged; a key with a NUL byte throws ValueError and leaves it unchanged; any other key appends escape(" " + key) and returns the object; the old command is always a prefix; nothing else changes |
| `FluentConsole.AppendKeysIsConcatenation` | src/ConsoleRunner.php:91-97 | after any sequence of addKey calls that return (no key with a NUL byte) the command is the original text followed by the escaped tokens of the non-empty keys, in call order |
| `FluentConsole.AppendKeysKeepsPrefix` | src/ConsoleRunner.php:91-97 | the text set before a sequence of addKey calls is a prefix of the result |
| `FluentConsole.EmptyKeysIgnored` | src/ConsoleRunner.php:91-97 | empty keys leave no trace: the command equals the one built from the non-empty keys alone |
| `FluentConsole.ConsoleRunner.Encoding` | src/ConsoleRunner.php:108-114 | a truthy value (not null, "" or "0") replaces the encoding; a falsy one keeps the previous value, so a set encoding is never cleared; the stored encoding is always truthy |
| `FluentConsole.ConsoleRunner.Decoding` | src/ConsoleRunner.php:124-128 | the flag is true afterwards, whatever it was, and nothing else changes |
| `FluentConsole.ConsoleRunner.GetCommand` | src/ConsoleRunner.php:136-139 | returns the current command without changing state |
| `FluentConsole.ConsoleRunner.Run` | src/ConsoleRunner.php:147-160 | when ExecLine(command, encoding) has a NUL byte, exec throws ValueError and output and code stay as they were; otherwise the shell receives that line, its lines are appended after the old output, the return code is its exit status, and the result is true iff that code is 0 |
| `Php.Exec` | src/ConsoleRunner.php:157 | exec throws ValueError on a NUL byte without touching the array or the code; otherwise it appends the process's lines after the existing array elements and reports its exit status |
| `FluentConsole.ExecLineShape` | src/ConsoleRunner.php:149-157 | a record of the literal strings, restating the definition: the exec line always ends in " 2>&1"; it is command + " 2>&1" without a truthy encoding and "chcp " + enc + " >nul  && " + command + " 2>&1" with one |
| `FluentConsole.ExecLineRoundTrip` | src/ConsoleRunner.php:149-157 | stripping the code-page prefix and the redirection from the exec line gives back exactly the command |
| `FluentConsole.ExecLineInjective` | src/ConsoleRunner.php:157 | under the same encoding, distinct commands reach the shell as distinct strings |
| `FluentConsole.ExecLineHasNul` | src/ConsoleRunner.php:149-157 | the exec line has a NUL byte, so exec throws, exactly when the command or a set encoding has one |
| `FluentConsole.ConsoleRunner.GetOutput` | src/ConsoleRunner.php:168-171 | returns the captured lines without changing state |
| `FluentConsole.ConsoleRunner.GetReturnCode` | src/ConsoleRunner.php:179-182 | returns the stored return code without changing state |
| `FluentConsole.ConsoleRunner.HasError` | src/ConsoleRunner.php:192-200 | true iff some output line matches the pattern (so false on empty output); no conversion is applied and no state changes |
| `FluentConsole.HasErrorIffMatchesNonEmpty` | src/ConsoleRunner.php:192-200 | hasError(p) holds exactly when matching the same lines against [p] gives a non-empty result |
| `Php.MatchArray.Elements` | src/ConsoleRunner.php:227-228 | the layout of the match array, restating its definition: a successful match array is never empty: element 0 is the whole match and the capture groups follow |
| `FluentConsole.Extracted` | src/ConsoleRunner.php:228 | the kept text is capture group 1 when the match array has groups, otherwise the whole match |
| `FluentConsole.FirstMatch` | src/ConsoleRunner.php:226-231 | a line yields nothing exactly when no pattern matches it |
| `FluentConsole.FirstMatchIsFirstPattern` | src/ConsoleRunner.php:226-231 | a line yields v exactly when some pattern is the first to match it and v is that pattern's extracted text |
| `FluentConsole.EarlierPatternsWin` | src/ConsoleRunner.php:226-231 | later patterns are consulted only when all earlier ones fail; once one matches, the rest cannot change the result |
| `FluentConsole.Matches` | src/ConsoleRunner.php:225-233 | the result has at most one entry per output line |
| `FluentConsole.MatchesAppend` | src/ConsoleRunner.php:225-233 | the result for a + b is the result for a followed by the result for b, so entries are in line order |
| `FluentConsole.MatchesComeFromLines` | src/ConsoleRunner.php:225-233 | every entry is what the first matching pattern extracts from some output line |
| `FluentConsole.MatchedLineHasItsEntry` | src/ConsoleRunner.php:225-233 | conversely, a line with a first match contributes its extraction, at the index right after the entries of the lines before it |
| `FluentConsole.MatchesWhenEveryLineMatches` | src/ConsoleRunner.php:225-233 | when every line is matched, the result has exactly one entry per line, entry i coming from line i |
| `FluentConsole.MatchesEmptyIffNoLineMatches` | src/ConsoleRunner.php:225-233 | the result is empty exactly when no pattern matches any line; lines without a match contribute nothing |
| `FluentConsole.CollectMatches` | src/ConsoleRunner.php:221-233 | the nested loop with break computes Matches(lines, patterns) |
| `FluentConsole.ConvertLines` | src/ConsoleRunner.php:215-217 | element-wise conversion: same length, and element i is line i converted between the table's encoding and UTF-8 |
| `FluentConsole.ConsoleRunner.GetMatches` | src/ConsoleRunner.php:210-244 | with a truthy encoding the stored output becomes its UTF-8 conversion, else it is untouched; the result is Matches over the (converted) output, converted back only when both the encoding and the decoding flag are set; no other field changes |
| `Usage.EchoHello` | src/ConsoleRunner.php:147-160 | "echo hello" without encoding: the shell sees "echo hello 2>&1", run returns true, output is ["hello"] and the code is 0 |
| `Usage.AddKeyOnFreshRunner` | src/ConsoleRunner.php:91-97 | addKey("foo bar") on a new runner gives exactly escape(" foo bar"); a following addKey("") adds nothing; addKey("a\0b") throws ValueError |
| `Usage.CodePage866` | src/ConsoleRunner.php:210-244 | with code page 866 and decoding, matching works on the UTF-8 conversion and converts the result back; a second getMatches converts the already-converted output again |

## Left out

- Process spawning, the shell, and the effect of `chcp` on the console are I/O. `Run` takes the process as a `Shell` parameter, a function from the exact command line to lines and an exit status. Line trimming by `exec` is part of what that function returns.
- The regex dialect of `preg_match` is a foreign library. A matcher is any function from (pattern, subject) to an optional match array. The model records only that a successful match array is non-empty. A malformed pattern is indistinguishable from a non-match, as it is in the source's `if`.
- `mb_convert_encoding` is a foreign library. Its character tables are not modelled, and no lossless round-trip between a code page and UTF-8 is claimed. Its `ValueError` for an encoding name mbstring does not know is not modelled: `Converter` is total. Which names mbstring accepts is not modelled either; if it lacks `CP437`, as mbstring's list of supported encodings suggests (unconfirmed), `getMatches` after `encoding('437')` would throw at line 216 of src/ConsoleRunner.php on non-empty output, where the model returns normally.
- `escapeshellarg` is kept abstract. No POSIX or Windows quoting rule is asserted, so nothing is proved about tokens being shell-safe. `escapeshellarg` fails in two ways: with a `ValueError` for an argument that contains a NUL byte, and with a fatal error for an argument longer than the platform's command-line length limit. The model covers only the first. `AddKey` returns `Throw(ValueError)` in that case without calling the `Escaper`.
- AddKey: does not model `escapeshellarg`'s fatal error for an argument over the platform's command-line length limit. The `Escaper` is total on NUL-free input, so a very long key (about 8 KB on Windows, where `chcp` runs) is escaped and appended, while PHP would end the script at line 94 of src/ConsoleRunner.php. The limit belongs to the platform, not to the class.
- PHP strings are byte strings, while the model's `string` is a sequence of characters. Nothing depends on the difference: every operation that looks inside a string (escaping, matching, conversion, the shell) is an arbitrary function, and the only byte the model inspects itself is NUL.
- GetMatches: requires the configured code page to be a key of the table whenever there is output to convert. For an unknown key PHP behaves differently at the two lookups of src/ConsoleRunner.php: line 216 emits an undefined-key warning and converts from the internal encoding, because the null lands in the nullable `from_encoding`; line 239 throws a `ValueError` as soon as one match has to be converted back, because the null lands in the non-nullable `to_encoding`, becomes "", and "" names no encoding. Neither path is modelled.
- GetMatches: takes `patterns` as a sequence. The `string|array` parameter and its `(array)` cast are not modelled; a single pattern is the one-element sequence.
- The fluent `return $this` is modelled as an out-parameter equal to `this`. PHP default arguments have no Dafny counterpart, so `encoding()` called with no argument (its parameter defaults to `null`) is `Encoding(None)`, which keeps the stored encoding.

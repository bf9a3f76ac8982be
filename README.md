# VPOL interpreter, modelled in Dafny

VPOL is a small line-oriented scripting language. Its interpreter is the
class `VPOLProcessor` in `vpol.py`, and this project models it.

- `run` splits a script into lines and trims each line.
- It skips `#[[ ... ]]` comment spans.
- It collects `${name ... }` blocks as function bodies.
- It hands every other line to `processLine`. The first `VPOLException` stops the run, and the run reports the line number of the failing line.
- `processLine` routes on the line's prefix:
  - `if`, `elseif` and `else:` drive an if-block gate;
  - `@name = expr` assigns a variable;
  - `terminal.print`, `terminal.set_title` and `cls()` write to the terminal;
  - `json.parse` is meant to pretty-print JSON, but as written it always fails (see below);
  - `network.ping`, `network.http_check` and `network.send_packet` use the network;
  - `~$name` calls a function;
  - `terminal.input` reads a console line.
  Apart from `if`, `elseif` and `else:`, these run only while the gate is open.
- `evaluate` handles expressions:
  - it cuts an expression at every `+`, evaluates the trimmed pieces and concatenates the results;
  - otherwise it reads `@name` as a variable;
  - otherwise it takes the literal with surrounding whitespace and every surrounding double quote stripped.

The model comes in two forms:

- `Semantics` writes each handler as a function. The function maps the processor state (`Machine`) to the new state and an `Outcome`. The outcome is `Done`, or a `Failure` that is either a `Raised` VPOLException or a `Crashed` uncaught Python exception.
- `Interpreter.Processor` is the same processor written as a class whose fields the methods update in place. Each method's postcondition says it leaves exactly the state, and returns exactly the outcome, that the matching `Semantics` function gives.

The other modules contain the following:

- `Text` holds Python's `strip`, `split` and `lower`.
- `Patterns` replaces each regular expression with an explicit leftmost search that has the same greedy or lazy group.
- `Evaluator` holds `evaluate` and `evaluateCondition`.
- `Packet` holds the argument checks of `send_packet`, including Python's `int()`.
- `ControlFlow` proves the properties of the if/elseif/else chain.
- `Scripts` proves the properties of assignments, printing, definitions, calls, comments and whole runs.

### The `json.parse` pattern

`parseJson` (vpol.py:209) searches with the pattern `json\.parse\((.*)\ )`. That pattern has one more closing parenthesis than opening ones, so Python's `re` refuses to compile it ("unbalanced parenthesis at position 19"). Every `json.parse` line that passes the gate therefore ends in an uncaught `re.error`. The documentation describes the command as pretty-printing JSON. This model follows the code: such a line is `Crashed(JsonPatternError)`.

## Model

| member | source | states |
|---|---|---|
| Outcomes.ConcatAssociative | vpol.py:282-286 | the left-to-right accumulation does not depend on how the pieces are grouped |
| Text.DropTrailingKeeps | vpol.py:43 | removing trailing characters of a set keeps a prefix and stops at a character outside the set |
| Text.StripBounds | vpol.py:43 | `strip(cs)` is a slice `s[i..j]` with only `cs` characters outside it and none at its ends |
| Text.StripUnique | vpol.py:43 | any such slice is the one `strip` returns |
| Text.StripPadded | vpol.py:43 | padding made only of stripped characters does not change the result of `strip` |
| Text.StripIdempotent | vpol.py:48 | stripping twice is stripping once, so the second `strip()` in `run` changes nothing |
| Text.StripParts | vpol.py:43 | a text is its stripped core with stripped characters before and after it |
| Text.StripNoOp | vpol.py:43 | a text whose ends are not in the set is unchanged by `strip` |
| Text.StripKeepsOthers | vpol.py:43 | a character outside the set occurs in the stripped text exactly when it occurs in the text |
| Text.Strip | vpol.py:43 | has no contract of its own: `strip(cs)` removes the characters of `cs` at both ends; StripBounds, StripUnique, StripIdempotent, StripPadded, StripNoOp and StripKeepsOthers state what it returns |
| Text.Trim | vpol.py:43 | has no contract of its own: `strip()` with no argument, which is `Strip` over the whitespace set; the Strip lemmas state its properties |
| Text.Split | vpol.py:35 | `split(sep)` always gives at least one piece |
| Text.SplitNone | vpol.py:35 | a text without the separator splits into itself alone |
| Text.SplitLacks | vpol.py:35 | no piece contains the separator |
| Text.SplitJoin | vpol.py:35 | joining the pieces with the separator gives back the text |
| Text.SplitAppend | vpol.py:35 | splitting `x + sep + y` gives the pieces of `x` followed by those of `y` |
| Text.SplitPrefix | vpol.py:178 | text without the separator put in front extends only the first piece |
| Text.SplitCons | vpol.py:35 | a leading separator opens a new piece; any other leading character joins the first piece |
| Text.SplitSuffix | vpol.py:35 | text without the separator put at the end extends only the last piece |
| Text.SplitCount | vpol.py:159 | the number of pieces is one more than the number of separators |
| Text.Lower | vpol.py:261 | `lower()` keeps the length and lowers `A`–`Z` at every position |
| Patterns.Find | vpol.py:114 | the result is the first occurrence at or after the start position, or there is none |
| Patterns.LastIndex | vpol.py:192 | the result is the last index of the character, or the character does not occur |
| Patterns.FirstIndex | vpol.py:183 | the result is the first index of the character at or after the start position, or there is none |
| Patterns.GreedyGroup | vpol.py:192 | a greedy `open(.*)close` group runs from the leftmost `open` to the last `close`; when there is no match, no occurrence of `open` is followed by a `close` |
| Patterns.LazyGroup | vpol.py:249 | a lazy `(.*?)` group runs from the leftmost `open` to the first `close` after it; when there is no match, there is no such `close` |
| Patterns.WordRun | vpol.py:114 | `\w+` takes the longest run of word characters |
| Patterns.FindCall | vpol.py:114 | the result is the leftmost index where `~\$(\w+)` can match |
| Patterns.CallName | vpol.py:114 | the captured name is non-empty and is the word run after the leftmost `~$` followed by a word character; when there is no match, no position matches |
| Patterns.SkipSpaces | vpol.py:166 | `\s*` skips exactly the whitespace that follows |
| Patterns.LastInputTail | vpol.py:166 | the result is the last position where the tail `")\s*@\w` matches |
| Patterns.InputTarget | vpol.py:166 | the prompt runs from the leftmost `terminal.input("` to the last place where the tail matches, and the name is the word run after its `@` |
| Patterns.InputMatchAt | vpol.py:166 | the leftmost `terminal.input("` and the last matching tail together make a match of the whole pattern |
| Patterns.InputWhole | vpol.py:166-171 | `terminal.input("prompt")`, optional whitespace, `@name` gives the prompt `prompt` and the name `name`, whatever the prompt contains |
| Patterns.InputTargetAtStart | vpol.py:166 | a line that opens with `terminal.input("`, with the tail matching right after the prompt and nowhere later, targets that prompt and that name |
| Patterns.InputTailHere | vpol.py:166 | after the prompt, `")`, whitespace, `@name` matches the tail and captures `name` |
| Patterns.TailAtPad | vpol.py:166 | `")`, `n` whitespace characters, `@` and a word running to the end of the line match the tail and capture the word |
| Patterns.InputTailOnly | vpol.py:166 | no later position of such a line matches the tail, so the greedy prompt ends right before `")` |
| Patterns.NoTailWithoutQuote | vpol.py:166 | the tail cannot match where no quote follows |
| Patterns.SkipPad | vpol.py:166 | `\s*` skips exactly a run of whitespace that ends on another character |
| Patterns.GreedyNeedsClose | vpol.py:126 | a greedy group is found only when its closing character occurs in the line |
| Patterns.GreedyWhole | vpol.py:192 | `open + g + close` gives the group `g`, whatever `g` contains |
| Patterns.WordRunToEnd | vpol.py:114 | a word run that reaches the end of the text is all of the rest of it |
| Patterns.CallNameWhole | vpol.py:114 | `~$name` captures `name` |
| Evaluator.Evaluate | vpol.py:278-295 | the only failure is a read of an undefined variable |
| Evaluator.EvaluatePieces | vpol.py:282-286 | piece-by-piece evaluation fails only by reading an undefined variable |
| Evaluator.TrimKeeps | vpol.py:285 | trimming introduces no `+` |
| Evaluator.EvaluateVariable | vpol.py:288-293 | `@name` gives the variable's value, or raises "Variable 'name' not defined." |
| Evaluator.EvaluateQuoted | vpol.py:295 | a literal gives its text with any number of surrounding quotes removed |
| Evaluator.EvaluatePiecesAppend | vpol.py:282-286 | evaluating concatenated piece lists concatenates their evaluations |
| Evaluator.EvaluatePiecesTrimmed | vpol.py:285 | only the trimmed form of each piece matters |
| Evaluator.SplitPaddedFront | vpol.py:280 | leading whitespace changes the trimmed pieces of a `+` split only in the first piece's padding |
| Evaluator.SplitPaddedBack | vpol.py:280 | the same holds for trailing whitespace and the last piece |
| Evaluator.PiecesAreTrimmedText | vpol.py:278-286 | evaluating the pieces of a text is evaluating the trimmed text |
| Evaluator.EvaluateConcat | vpol.py:279-286 | `x + y` evaluates the trimmed `x`, then the trimmed `y`, and concatenates; the first failure wins |
| Evaluator.EmptyPieceAddsNothing | vpol.py:282-285 | a `+` at either end of an expression adds nothing |
| Evaluator.HalfQuoted | vpol.py:295 | a literal quoted at one end only gives its text |
| Evaluator.QuotesDoNotProtectPlus | vpol.py:279-295 | `"a+b"` is cut at the `+` and gives `ab` |
| Evaluator.EvaluateCondition | vpol.py:157-163 | a raised failure is either the "only '=' comparisons" error or a read of an undefined variable; the result is the "only '=' comparisons" error exactly when the condition has no `=` |
| Evaluator.UndefinedIsNotOnlyEquality | vpol.py:163 | an undefined-variable message is never the "only '=' comparisons" message |
| Evaluator.ConditionCompares | vpol.py:158-162 | with one `=`, the condition holds exactly when both trimmed sides evaluate to equal texts; the left failure comes first |
| Evaluator.ConditionTooManyEquals | vpol.py:159 | two or more `=` make the unpacking fail, an uncaught ValueError |
| Packet.DigitsValue | vpol.py:258 | has no contract of its own: the value of a digit string, underscores ignored; NatDigitsValue, ZerosValue, ParseSigned and ParseDecimal state its properties |
| Packet.DigitCount | vpol.py:258 | the number of digits `int()` counts against its limit is at most the length of the text |
| Packet.DigitCountAll | vpol.py:258 | without underscores, every character counts as a digit |
| Packet.ParseInt | vpol.py:258-259 | `int()` accepts only text that holds a digit; ParseSigned, ParseDecimal, LeadingZeros and ParseRejects state what it accepts, including the 4300-digit limit |
| Packet.ParseNumber | vpol.py:258-259 | once the surrounding whitespace is skipped, a sign and well-formed digits are accepted only if some digit is present |
| Packet.ParseUnpadded | vpol.py:258 | text that neither starts nor ends with skipped whitespace is read as it stands |
| Packet.ParseSigned | vpol.py:258-259 | well-formed digits, with or without `-`, read as their value, negated after `-`, exactly when there are at most 4300 digits; with more, `int()` fails |
| Packet.NatDigits | vpol.py:258 | a natural number is written with at least one digit, digits only |
| Packet.Decimal | vpol.py:258 | `str(n)` ends in a digit |
| Packet.NatDigitsValue | vpol.py:258 | the written digits are well formed and read back as the number |
| Packet.NatDigitsCount | vpol.py:258 | every character `str(n)` writes counts as a digit |
| Packet.ParseDecimal | vpol.py:258-259 | `int(str(n)) == n` for every integer of at most 4300 digits; for a longer one `int()` fails |
| Packet.LeadingZeros | vpol.py:258-259 | leading zeros do not change the value read, but they count towards the 4300-digit limit |
| Packet.ZerosWellFormed | vpol.py:258 | zeros in front of well-formed digits keep them well formed, and every character counts as a digit |
| Packet.ZerosValue | vpol.py:258 | zeros in front of a digit string do not change its value |
| Packet.ParsePadded | vpol.py:258 | whitespace that `int()` skips, around a number, does not change what it reads |
| Packet.ParseRejects | vpol.py:258-259 | a character that is not a digit, `_`, a sign or whitespace `int()` skips makes `int()` fail, so U+001C to U+001F anywhere do |
| Packet.EvaluateArgs | vpol.py:253 | on success each argument is the evaluation of its trimmed piece; on failure the failure is the first failing piece's |
| Packet.PacketArgs | vpol.py:248-262 | a valid call gives a packet to a tcp/udp protocol, read from the four pieces of the lazy group; no group means exactly "Invalid send_packet statement" |
| Packet.KnownProtocol | vpol.py:261 | has no contract of its own: the protocol lowered is `tcp` or `udp`; PacketChecks states how it decides between the protocol error and a send |
| Packet.PacketChecks | vpol.py:257-262 | with four evaluated arguments, a port or size that `int()` rejects is an uncaught ValueError before the protocol is looked at; then an unknown protocol raises exactly "Protocol must be either 'tcp' or 'udp'", and a known one sends to the first argument with the parsed port and size |
| Packet.PacketArityChecked | vpol.py:254-255 | once every argument evaluates, the arity error is raised exactly when there are not four |
| Packet.PacketFirstFailure | vpol.py:253 | the first failing argument decides the failure, before the arity is checked |
| Packet.FirstFailureUnique | vpol.py:253 | the argument list fails with the first failing piece's failure |
| Semantics.Initial | vpol.py:26-32 | a fresh processor has no variables, no functions and no effects, reads the given console input, and has its gate open |
| Semantics.IfStep | vpol.py:125-133 | `evaluateIf` changes only the three if-block flags; after success the block is entered and the branch is on exactly when it is marked taken; any change enters the block, even when the condition then fails |
| Semantics.ElseIfStep | vpol.py:135-149 | `evaluateElseIf` never enters or leaves the block and changes only the branch flags; outside a block it raises "elseif without if" and changes nothing; once a branch is taken it stays taken and a successful `elseif` switches the gate off; a branch it opens is marked taken |
| Semantics.ElseStep | vpol.py:151-155 | `evaluateElse` changes only the gate; it succeeds exactly inside a block, and then the gate is on exactly when no branch was taken; outside it raises "else without if" and changes nothing |
| Semantics.Assign | vpol.py:176-189 | an assignment changes only the variables, and a failing one changes nothing |
| Semantics.PrintStep | vpol.py:191-198 | printing changes only the effects, and a failing print changes nothing |
| Semantics.TitleStep | vpol.py:200-206 | setting the title changes only the effects, and a failure changes nothing |
| Semantics.PingStep | vpol.py:221-234 | a ping changes only the effects, and a failure changes nothing |
| Semantics.HttpStep | vpol.py:236-246 | an HTTP check changes only the effects, and a failure changes nothing |
| Semantics.PacketStep | vpol.py:248-276 | sending changes only the effects, and a failure changes nothing |
| Semantics.InputStep | vpol.py:165-174 | input changes only the variables, the effects and the console input |
| Semantics.Dispatch | vpol.py:77-111 | has no contract of its own: GateDecides, IfPrefixIsIf, OrphanBranchFails, UnknownLineIgnored, AtLineAssigns, PrintLinePrints, InputLineReads, CallLineCalls and DispatchKeeps state how `processLine` routes a line |
| Semantics.Command | vpol.py:91-111 | has no contract of its own: CommandKeeps and CommandKeepsGate state what the gated commands leave unchanged |
| Semantics.Call | vpol.py:113-121 | has no contract of its own: CallRunsBody, CallKeeps and CallAfterDefinition state what a call does |
| Semantics.RunBody | vpol.py:122-123 | has no contract of its own: RunBodyStops, RunBodyNext, RunBodyAppend, RunBodyFirst and RunBodyKeeps state how a body runs |
| Semantics.Feed | vpol.py:43-71 | has no contract of its own: PlainLineDispatched, FeedCollects, DefinitionOpens, DefinitionCloses and SkipComment state how `run` handles one line |
| Semantics.RunFrom | vpol.py:42-75 | a reported stop names a line among those handled; RunFromPrefix, RunFromAppend and StopsAtFailingLine state the rest |
| Semantics.RunCode | vpol.py:34-75 | has no contract of its own: RunIgnoresRest, GreetingScript and HelloWorld state what whole scripts do |
| Semantics.RunBodyStops | vpol.py:122-123 | after a failing body line, the later lines are never dispatched |
| Semantics.RunBodyNext | vpol.py:122-123 | while a body has not failed, its next line is dispatched on the state the earlier lines left |
| Semantics.RunStops | vpol.py:73-75 | after a failing script line, `run` handles no later line |
| Interpreter.Processor.constructor | vpol.py:26-32 | a new processor has no variables and no functions, and is outside any if-block |
| Interpreter.Processor.EvaluateIf | vpol.py:125-133 | the new state and the outcome are those of `IfStep` |
| Interpreter.Processor.EvaluateElseIf | vpol.py:135-149 | the new state and the outcome are those of `ElseIfStep` |
| Interpreter.Processor.EvaluateElse | vpol.py:151-155 | the new state and the outcome are those of `ElseStep` |
| Interpreter.Processor.AssignVar | vpol.py:176-189 | the new state and the outcome are those of `Assign` |
| Interpreter.Processor.PrintContent | vpol.py:191-198 | the new state and the outcome are those of `PrintStep` |
| Interpreter.Processor.SetTitle | vpol.py:200-206 | the new state and the outcome are those of `TitleStep` |
| Interpreter.Processor.ParseJson | vpol.py:208-219 | the line fails with the `re.error` of the malformed pattern and changes nothing |
| Interpreter.Processor.Ping | vpol.py:221-234 | the new state and the outcome are those of `PingStep` |
| Interpreter.Processor.CheckHttp | vpol.py:236-246 | the new state and the outcome are those of `HttpStep` |
| Interpreter.Processor.SendPacket | vpol.py:248-276 | the new state and the outcome are those of `PacketStep` |
| Interpreter.Processor.InputVariable | vpol.py:165-174 | the new state and the outcome are those of `InputStep` |
| Interpreter.Processor.CallFunction | vpol.py:113-123 | an unmatched call, an undefined name and an exhausted budget fail as `Call` says; otherwise the body runs, ending in the state and outcome of `Call` |
| Interpreter.Processor.RunLines | vpol.py:122-123 | the loop over the body lines ends in the state and outcome of `RunBody`, stopping at the first failing line |
| Interpreter.Processor.ProcessLine | vpol.py:77-111 | the if-chain of `processLine` ends in the state and outcome of `Dispatch` |
| Interpreter.Processor.Run | vpol.py:34-75 | the loop of `run` ends in the state and status of `RunCode`, and `lines` holds the split script |
| ControlFlow.IfFollowsCondition | vpol.py:125-133 | `if cond:` always enters the block; the branch is on, and marked taken, exactly when the condition holds; a failing condition changes nothing else |
| ControlFlow.OrphanBranchFails | vpol.py:135-155 | outside an if-block, `elseif` and `else:` raise their errors and change nothing |
| ControlFlow.TakenBranchCloses | vpol.py:143-155 | once a branch has been taken, every later `elseif` or `else:` switches the gate off |
| ControlFlow.ElseRepeats | vpol.py:151-155 | `else:` is on exactly when no branch has been taken, and repeating it changes nothing |
| ControlFlow.ElseIfOpensAtMostOne | vpol.py:135-149 | a run of `elseif` lines opens at most one branch, and none after a taken branch |
| ControlFlow.ChainOpensOneBranch | vpol.py:125-155 | `if`, its `elseif`s and a final `else:` open exactly one branch; without the `else:`, at most one |
| ControlFlow.IfPrefixIsIf | vpol.py:81-82 | every line starting with `if` goes to `evaluateIf` whatever the gate, and without a `:` it raises "Invalid if statement" and changes nothing |
| ControlFlow.IfconfigIsInvalidIf | vpol.py:125-128 | `ifconfig` raises "Invalid if statement" and changes nothing, even behind a closed gate |
| ControlFlow.GateDecides | vpol.py:91 | any other line runs exactly when the gate is open, and does nothing behind a closed gate |
| ControlFlow.UnknownLineIgnored | vpol.py:77-111 | an empty line or one with no known prefix does nothing |
| ControlFlow.DispatchKeeps | vpol.py:77-111 | no line changes the function table or leaves an if-block |
| ControlFlow.CommandKeeps | vpol.py:91-111 | the same holds for every gated command |
| ControlFlow.CallKeeps | vpol.py:113-123 | the same holds for calls |
| ControlFlow.RunBodyKeeps | vpol.py:122-123 | the same holds for running a body |
| ControlFlow.CommandKeepsGate | vpol.py:92-111 | commands other than calls leave the gate and the function table as they were |
| Scripts.TrimAtName | vpol.py:187 | `@name` followed by whitespace trims to `@name` |
| Scripts.AssignSets | vpol.py:182-189 | `@name = expr` sets exactly `name` to the evaluation of the trimmed `expr`; the first `=` separates name and value; a failing evaluation changes nothing |
| Scripts.AssignBraceClears | vpol.py:177-180 | a line ending in `{` sets the variable named before the first `=` to the empty text |
| Scripts.AssignNeedsEquals | vpol.py:182-185 | a line without `=` raises "Invalid variable assignment" and changes nothing |
| Scripts.PrintEvaluates | vpol.py:191-198 | `terminal.print(expr)` prints the evaluation of the trimmed `expr` and changes nothing else |
| Scripts.CallRunsBody | vpol.py:113-123 | `~$name` runs the stored body one level deeper; an unknown name raises "Function 'name' not defined" |
| Scripts.RunBodyAppend | vpol.py:122-123 | a body runs its first part, then its second part from the state the first left, unless the first failed |
| Scripts.RunBodyFirst | vpol.py:122-123 | the first line of a body is dispatched first |
| Scripts.RunFromPrefix | vpol.py:42-75 | what `run` does with a line depends only on the lines before it |
| Scripts.Shift | vpol.py:74 | a stop reported by a run over a later part of a script is renumbered from the start of the script, and nothing else changes |
| Scripts.RunFromAppend | vpol.py:42-75 | `run` over `a + b` handles `a` first; if that completes, the lines of `b` are handled from the state `a` left, as if `b` ran alone, with stops renumbered; otherwise nothing in `b` is looked at |
| Scripts.AppendStep | vpol.py:42-75 | if the runs over `a + b` and over `b` agree up to a line of `b`, they agree one line further |
| Scripts.RunAfter | vpol.py:42-75 | once `a` has completed, all of `b` runs from the state `a` left |
| Scripts.RunLastLine | vpol.py:42-75 | the last line of a script is handled on the state the earlier lines left, and its outcome is what the run reports |
| Scripts.RunIgnoresRest | vpol.py:73-75 | a script that stops stops the same way whatever lines follow |
| Scripts.StopsAtFailingLine | vpol.py:42-75 | a reported line number names the first failing line: every earlier line completed, and that line raised the reported message |
| Scripts.Trimmed | vpol.py:43 | a stored body has the trimmed lines, one for one |
| Scripts.CollectBody | vpol.py:66-68 | wherever a body starts and whatever the machine is then, its lines are only collected, trimmed, and the machine is left as it was |
| Scripts.FeedCollects | vpol.py:66-68 | while a body is being collected, a body line is appended to it, trimmed, and nothing else changes |
| Scripts.HeaderName | vpol.py:43-56 | the name taken from a `${` line is the text after `${` with surrounding whitespace removed |
| Scripts.HeaderCore | vpol.py:55-56 | a `${` line whose name is padded trims to start with `${` and gives the unpadded name |
| Scripts.DefinitionOpens | vpol.py:55-59 | at any line reached outside a comment, a `${` line, padded anywhere, starts an empty body named by the trimmed text after `${` and leaves the machine as it was |
| Scripts.DefinitionCloses | vpol.py:61-64 | at any line, while a body is being collected, a line that trims to `}` stores the body under its name in whatever machine the run has reached |
| Scripts.DefinitionStored | vpol.py:55-68 | a `${name ... }` block stores its trimmed lines under the trimmed name, replaces any earlier body, and runs none of them |
| Scripts.Definition | vpol.py:55-68 | a definition block is its header, its body lines and its closing line |
| Scripts.DefinitionStoredAfter | vpol.py:42-68 | after any lines that complete outside a comment, a definition block stores its trimmed body under its trimmed name on top of what those lines left, and changes nothing else |
| Scripts.LastDefinitionWins | vpol.py:55-64 | of two definitions of the same name, the later one is kept, whatever lies between them |
| Scripts.CallAfterDefinition | vpol.py:55-123 | a `~$name` line after the definition of `name` runs the stored body from the state the definition left; the run ends in the state the body leaves, completes when the body does, and reports the body's error against the call line |
| Scripts.CallLineRuns | vpol.py:113-123 | outside comments and definitions, behind an open gate, `~$name` runs the body stored under `name` |
| Scripts.CallLineCalls | vpol.py:108-109 | behind an open gate, a line starting with `~$` is a call |
| Scripts.SkipComment | vpol.py:47-50 | wherever a comment starts and whatever the machine is then, lines not ending in `]]` are skipped and change nothing |
| Scripts.CommentSkipped | vpol.py:47-53 | a comment span is skipped whole, and its opening line is not checked for `]]` |
| Scripts.CommentSkippedAfter | vpol.py:42-53 | after any lines that complete outside a comment, a comment span leaves the machine and the scan state exactly as those lines left them |
| Scripts.PlainLineDispatched | vpol.py:70-71 | a trimmed statement line outside comments and definitions goes to `processLine` |
| Scripts.QuotedText | vpol.py:295 | a padded quoted text evaluates to the text |
| Scripts.AtLineAssigns | vpol.py:92-93 | behind an open gate, a line starting with `@` is an assignment |
| Scripts.PrintLinePrints | vpol.py:94-95 | behind an open gate, a line starting with `terminal.print` prints |
| Scripts.InputLineReads | vpol.py:110-111 | behind an open gate, a line starting with `terminal.input` goes to `inputVariable` |
| Scripts.InputStores | vpol.py:165-174 | `terminal.input("p") @name` records the prompt `p` first; it then stores the first console line verbatim under `name` and consumes it; with no console line left it crashes after the prompt |
| Scripts.GreetAssigns | vpol.py:176-189 | `@name = "word"` sets `name` to `word` |
| Scripts.GreetAssignStep | vpol.py:176-189 | `assignVar` on `@name = "word"` sets `name` to `word` and nothing else |
| Scripts.AssignLineTrimmed | vpol.py:43 | the line `@name = "word"` is unchanged by trimming and does not end in `{` |
| Scripts.PaddedVariable | vpol.py:288-291 | ` @name` evaluates to the variable |
| Scripts.PaddedQuote | vpol.py:295 | a quoted text followed by a space evaluates to the text |
| Scripts.GreetEvaluates | vpol.py:279-295 | `"greeting" + @name` evaluates to the greeting followed by the variable |
| Scripts.GreetPrints | vpol.py:191-198 | `terminal.print("greeting" + @name)` prints the greeting followed by the variable |
| Scripts.GreetTrimmed | vpol.py:197 | the print argument needs no trimming |
| Scripts.GreetingScript | vpol.py:34-75 | the two-line greeting script prints the greeting and the word, and leaves exactly that variable set |
| Scripts.GreetSplit | vpol.py:35 | the greeting script is two lines |
| Scripts.GreetRun | vpol.py:42-71 | both lines of the greeting script complete, in order |
| Scripts.RunFromNext | vpol.py:42-71 | a line that completes advances `run` by one line |
| Scripts.GreetLine1 | vpol.py:70-71 | `run` hands the assignment line to `processLine`, which assigns |
| Scripts.GreetLine2 | vpol.py:70-71 | `run` hands the print line to `processLine`, which prints |
| Scripts.HelloWorld | vpol.py:34-75 | `@name = "World"` then `terminal.print("Hello, " + @name)` prints `Hello, World` |

## Left out

- I/O has no real results in the model:
  - The `print`, `set_title`, `cls()`, ping, HTTP request and packet send in vpol.py:98-99, 198, 206, 221-276 are recorded as effects in order. Their real results are not modelled: the ping output, the HTTP status or error text, and the scapy response.
  - `TerminalUtils.setTitle` (vpol.py:17-23) and the colour codes are not modelled.
- `main` (vpol.py:297-311) is not part of this model, nor are `vpol_editor.py`, `setup.py` and `uninstall_vpol.py`. Reading the script file and the command line is I/O.
- Interpreter.Processor.CallFunction: Python's recursion limit is replaced by an explicit `depth` budget, so recursion that is too deep ends as `Crashed(RecursionLimit)`. The budget is a parameter, not Python's actual stack size.
- The `lineNum` argument of the handlers is never read except in the error report of `run`, so the handlers do not take it.
- Evaluator.Evaluate: its own contract states only which failures can occur. What it computes is stated by EvaluateConcat, EvaluateVariable, EvaluateQuoted and QuotesDoNotProtectPlus.
- Patterns.IsWordChar: `\w` is modelled as ASCII letters, digits and `_`; Python also accepts non-ASCII letters and digits there.
- Packet.ParseInt: `int()` is modelled with ASCII digits only; Python also accepts other Unicode decimal digits. The whitespace it skips is modelled exactly, as `IntSpace`: every `isspace` character except U+001C to U+001F, which CPython does not skip, so a port such as "\x1c80" fails in both. The ValueError text is fixed rather than quoting the input. The 4300-digit limit is CPython's default `int_max_str_digits` (Python 3.11 and the releases that received it as a security fix); a changed limit (`sys.set_int_max_str_digits`, `PYTHONINTMAXSTRDIGITS`) and interpreters without the limit are not modelled.
- Text.Lower: `lower()` lowers ASCII letters only. The text it is applied to is only compared with `tcp` and `udp`, and non-ASCII letters never lower to those.
- Semantics.PingStep: a missing `ping` executable raises FileNotFoundError, which is uncaught in the original. The model does not represent the host environment, so a ping always succeeds.
- Interpreter.Processor.ParseJson: the `json.loads`/`json.dumps` path after the pattern search is unreachable, because the pattern never compiles, so JSON itself is not modelled.
- `shouldExecute` starts as Python's `None`; the model uses `false`, which the gate reads the same way.
- In the patterns, `.` is any character. Lines never contain a newline, because `run` splits on it.
- Scripts.HelloWorld states the script as `AssignLine("name", "World") + "\n" + PrintLine("Hello, ", "name")`, which spells the same text as the literal two-line script.

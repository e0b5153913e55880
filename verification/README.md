# Atom Engine: a verified model of its core

Atom Engine is a BPMN process engine written in Go. This project models the parts of it with the most state,
branching and parsing in Dafny 4.11, and proves what they do for every input and every run. `dafny verify
dfyconfig.toml` checks all of it.

The model has five parts.

* **Logical expressions** (`Logic`, `Tokenizer`, `TokenLayout`, `ShuntingYard`, `StackMachine`, `LogicalExpression`,
  `NullLogic`, `Grammar`, `BeyondGrammar`): the small compiler for `and`/`or`/`not` conditions, from text to a
  three-valued result. Operands are evaluated by an arbitrary function from text to value or error.
* **Text scanners** (`Text`, `Integers`, `Numerals`, `PathNavigator`, `PathErrors`, `Navigation`, `NavigationLaws`,
  `Substitution`, `SubstitutionLaws`, `PathSubstitution`, `ArgumentSplitter`, `ArgumentCuts`, `FunctionCalls`,
  `CallTrees`, `CallCrashes`): variable paths, substitution of variables in a text, and nested function calls.
* **Token flow** (`TokenFlow`, `TokenSteps`, `TokenEngine`, `TokenInvariants`, `CompletionSafety`, `TokenAccounting`,
  `DoubleExecution`): element execution, forks, job, message and timer callbacks, call-activity resumption and instance
  completion, as a state machine over the token store.
* **Jobs and messages** (`JobLeases`, `JobSteps`, `JobManager`, `Messages`, `MessageSteps`, `MessageManager`,
  `MessageLaws`, `CorrelationRuns`): the job life cycle under leases; publishing, buffering and correlating messages,
  also beside a running engine.
* **The BPMN tree walk** (`TreeWalk`, `Scopes`): the parser's recursive walk with its mutable context.

A text is a sequence of characters. In `PathNavigator`, `Navigation`, `Substitution` and the modules about them they
stand for the bytes of the Go string, because that code re-encodes single bytes. Everywhere else they stand for code
points of valid UTF-8: `strings.TrimSpace` and the argument splitter decode them, and the tokenizer's byte index stops
at ASCII characters only.

Code that only computes is a function here. Code that loops or updates a store is a method, mostly of a class, and is
proved equal to a specification function. The theorems are lemmas about the specification functions. What each step or
operation does is also stated without these functions, over fields, positions and relations (`TokenSteps`, `JobSteps`,
`MessageSteps`, `NavigationLaws`, and the members named `...Exact`).

## Assumptions of the state machines

* Message callbacks for a waiting token go through `CallbackHelper`, like job callbacks (`Callback`). The engine's own
  message callback (`MessageCallback`) is modelled as well; within the repository it is called for start events only.
* Storage calls succeed, and each read-modify-save of the source is one step. The source does not lock these: a fork
  saves the completed original before its clones, and resuming the parents of a finished child instance is a loop of
  saves. Both are one step here.
* An `ExecuteToken` call in progress is a *flight*: a token id with the copy of the token the call holds in memory.
  Flights run concurrently with every other step, and several may hold the same token.
* Generated ids are new. Key order in the store is an arbitrary order, passed in where a listing depends on it.
* Times are integers of one unit, passed in.

## What turned out false

Each of these is kept as the code has it, with a lemma at a failing input and one that says exactly when the expected
property holds.

* **An instance can be completed while one of its tokens is still alive.** `Token.Clone` copies the state and `MoveTo`
  keeps it, so the clones of a fork are saved as COMPLETED before they execute
  (`src/process/execution_processor.go:187-197`, `src/core/models/token.go:333-362`). The first clone to finish
  completes the instance under the others, and one of those can then start to wait
  (`CompletionSafety.CompletionSafetyFails`, `ForkLeadsToUnsafe`). Exactly: a run is safe throughout if and only if no
  step saves a live token in a completed instance (`TokenInvariants.CompletionSafetyExact`), and safe with nothing left
  executing if and only if no step completes its instance under another execution (`CompletionSafety.QuietRunsExact`).
* **A waiting token can execute twice.** An interrupting boundary timer ends the wait of a token only if it waits for a
  job, so a callback sent before the interruption and handled after it starts a second execution
  (`DoubleExecution.InterruptedThenCalledBack`, `DoubleExecutionHappens`). Exactly which steps do this, over all runs:
  `SingleRunsExact`.
* **A message for an interrupted token can start a new instance.** The interruption leaves the subscription in place
  and moves the token. A message correlated before still reaches the token (`CorrelationRuns.EarlierMessageAccepted`).
  One published later never does (`InterruptionStartsInstance`); it starts an instance exactly when no other token
  waits at the subscription's element (`LaterMessageMisses`).
* **A job failed with a backoff is never retried.** The documentation of job failure promises a retry after the
  backoff, but nothing moves a DEFERRED job back to PENDING (`JobLeases.DeferredNeverRetried`, exactly: `ParkedExact`).
* **Completion of a job is not final.** Failing a job or ending it with an error does not look at its status, so a
  completed job can be reopened and complete again (`JobLeases.ReopenedCompletesAgain`, exactly: `CompletedExact`).
* **Cleanup looks at the first 1000 running jobs only**, so overdue leases beyond them survive
  (`JobLeases.CleanupMisses`, exactly: `CleanupExact`).
* **Activation with a limit of zero or less takes one job**, not none and not all (`JobLeases.ZeroLimitTakesOne`,
  exactly: `ActivationTakes`).
* **A replayed message that finds no subscription loses its expiry time** and is never cleaned up
  (`MessageLaws.SecondMessageCopied`, `CopyNeverExpires`; exactly which are put back: `BufferConservation`).
* **Replay misses messages that publishing would match.** It compares keys as written, while publishing evaluates a
  leading `=` (`MessageLaws.QuotedKeyNotReplayed`, exactly where they agree: `ReplayAgreesExactly`).
* **A subscription after the first hundred of its tenant is invisible to publishing** (`MessageLaws.HundredFirstUnseen`,
  exactly: `TargetExact`).
* **A message can start another process than the one publishing chose.** The engine searches again by name only, in all
  tenants (`MessageLaws.StartsAnotherTenant`; exactly which process it starts: `StartsExactly`; exactly when it finds
  the same subscription: `StartAgreesExactly`).
* **Substitution rewrites dotted paths whose root is no variable to `null`** (`SubstitutionLaws.DottedTextRewritten`,
  exactly: `UnnamedTextExact`).
* **Bytes from 0x80 on are re-encoded** by `string(byte)` (`PathNavigator.HighByteChanges`, exactly:
  `PathRoundTripExact`, `SubstitutionLaws.UnresolvedTextExact`).
* **A lone quote character as an argument crashes the function evaluator** (`CallCrashes.LoneQuoteCrashes`, exactly:
  `CrashExact`).
* **The logical-expression pipeline answers texts outside its grammar** (`BeyondGrammar.AcceptsBeyondGrammar`, exactly
  which are inside: `Grammar.GrammarExact`).

## Model

| member | source | states |
|---|---|---|
| `Logic.MinimalIsWellFormed` | src/expression/variable_evaluator.go:939-953 | Printing any tree with parentheses only where precedence and associativity ask for them gives a well-formed expression whose tree is the original. |
| `Logic.MinimalIsFewest` | src/expression/variable_evaluator.go:939-953 | No well-formed way of writing a tree has fewer parentheses than that one. |
| `ShuntingYard.InfixToRPN` | src/expression/variable_evaluator.go:957-1053 | The loop with its output list and operator stack computes the translation `ToRPN`, errors included. |
| `ShuntingYard.RunSyntax` | src/expression/variable_evaluator.go:957-1034 | Reading a well-formed expression on top of any stack that does not bind tighter emits part of its postorder and leaves the rest pending, without touching what was there. |
| `ShuntingYard.TranslatesToPostorder` | src/expression/variable_evaluator.go:957-1053 | The translation of every well-formed expression, however it is parenthesised, is exactly the postorder of its tree, with `and`/`or` left-associative and `not` prefix. |
| `ShuntingYard.ParenthesisExactness` | src/expression/variable_evaluator.go:1008-1050 | For any token list: the first error exactly when some prefix closes more than it opened, the second exactly when none does but the whole is unbalanced. |
| `ShuntingYard.TokenConservation` | src/expression/variable_evaluator.go:957-1053 | Any successful output has no parentheses, is a permutation of the other tokens and keeps the operands in order. |
| `StackMachine.TablesFollowTruthOrder` | src/expression/variable_evaluator.go:1208-1345 | The operator tables over arbitrary values are negation, minimum and maximum in the order false < null < true. |
| `StackMachine.EvaluateRPN` | src/expression/variable_evaluator.go:1057-1134 | The stack loop computes `EvalRPN`, errors included. |
| `StackMachine.PostorderDeterminesTree` | src/expression/variable_evaluator.go:1057-1134 | A token list is the postorder of at most one tree, and reading it back as a stack of trees finds that tree. |
| `StackMachine.EvaluatesTree` | src/expression/variable_evaluator.go:1057-1134 | On the postorder of a tree the machine returns the tree's meaning, or the error of the first operand that fails: no operand error is short-circuited away. |
| `StackMachine.StackMachineExactness` | src/expression/variable_evaluator.go:1057-1134 | The machine succeeds on a token list if and only if it is the postorder of a tree whose operands all evaluate. |
| `StackMachine.FailuresExact` | src/expression/variable_evaluator.go:1057-1134 | For any token list the first token at fault, seen from the number of values before it, decides the error; without one the number of values left at the end does. |
| `Text.SpaceCodes` | src/expression/variable_evaluator.go:834-844 | The white space trimmed from texts, by code point. |
| `Tokenizer.Tokenize` | src/expression/variable_evaluator.go:834-937 | The index-based scanner computes the token list of the trimmed text, or the error on an empty one. |
| `Tokenizer.ScanToken` | src/expression/variable_evaluator.go:846-926 | One iteration at a non-blank character consumes at least one character and splits the remaining token list there. |
| `Tokenizer.ScanOperand` | src/expression/variable_evaluator.go:888-919 | The inner loop finds the end of the operand: the first depth-0 operator or unmatched closing parenthesis. |
| `TokenLayout.LexInvertsLayout` | src/expression/variable_evaluator.go:834-937 | Any token list, laid out with any sufficient spacing, is read back exactly. |
| `TokenLayout.OperandExactness` | src/expression/variable_evaluator.go:834-937 | A text is read back as an operand if and only if it is trimmed, non-empty, balanced, does not begin with a parenthesis or keyword, and has no depth-0 operator. |
| `LogicalExpression.EvaluateLogicalExpression` | src/expression/variable_evaluator.go:778-830 | Tokenizing, translating and evaluating in turn computes `EvalLogical`, with the error of the first stage that fails. |
| `LogicalExpression.TokenizerRoundTrip` | src/expression/variable_evaluator.go:834-937 | Tokenizing any printed expression, with any spacing and surrounding white space, gives back its infix tokens. |
| `LogicalExpression.PipelineComputesMeaning` | src/expression/variable_evaluator.go:778-1134 | End to end, for every well-formed expression, spacing and operand evaluator: the result is the meaning of its tree, or its first operand error. |
| `LogicalExpression.PrintedTreeEvaluates` | src/expression/variable_evaluator.go:778-830 | Every tree with an operator, printed with minimal parentheses and single spaces, evaluates to whether its meaning is true; null counts as false. |
| `LogicalExpression.LoneOperand` | src/expression/variable_evaluator.go:778-830 | A text that is a single operand must evaluate to a boolean or to null, which counts as false; any other value is refused. |
| `LogicalExpression.NegatedOperand` | src/expression/variable_evaluator.go:1208-1225 | `not x` holds exactly when `x` is false, zero or the empty text. |
| `Grammar.GrammarExact` | src/expression/variable_evaluator.go:834-1053 | A token list is the written form of a well-formed condition if and only if it is non-empty and balanced, begins with an operand, `(` or `not`, ends with an operand or `)`, and every token is followed by one that may follow it. |
| `BeyondGrammar.GrammaticalEvaluates` | src/expression/variable_evaluator.go:778-1134 | Every text whose tokens are grammatical has exactly one tree and is answered as that tree says. |
| `BeyondGrammar.AcceptsBeyondGrammar` | src/expression/variable_evaluator.go:778-1134 | The text `(a) (b) and ()` is outside the grammar and is answered like `a and b`, for every operand evaluator. |
| `NullLogic.NullMonotonicity` | src/expression/variable_evaluator.go:1208-1277 | Over all trees: giving null operands a value never changes a result that was not null. |
| `NullLogic.ConjunctionIsLeast` | src/expression/variable_evaluator.go:1226-1249 | An `and` chain, however grouped, has the least of its conjuncts' values. |
| `NullLogic.DisjunctionIsGreatest` | src/expression/variable_evaluator.go:1250-1273 | An `or` chain, however grouped, has the greatest of its disjuncts' values. |
| `NullLogic.ChainsRegroup` | src/expression/variable_evaluator.go:1208-1277 | Regrouping, reordering or repeating the members of a chain keeps its value. |
| `NullLogic.NegationsPushDown` | src/expression/variable_evaluator.go:1208-1277 | De Morgan's laws and double negation, applied through a whole tree down to its operands, keep its value with null and its evaluability. |
| `PathNavigator.ParsePathSegments` | src/expression/path_navigator.go:137-216 | The character loop with its bracket flag and two buffers computes `Parse`, with the position of every error. |
| `PathNavigator.PathRoundTrip` | src/expression/path_navigator.go:137-216 | Parsing the printed form of any segment list gives it back, with bytes from 0x80 on re-encoded. |
| `PathNavigator.PathRoundTripExact` | src/expression/path_navigator.go:137-216 | The round trip is the identity if and only if every segment is ASCII. |
| `PathNavigator.HighByteChanges` | src/expression/path_navigator.go:137-216 | A field named by the byte 0x80 does not come back. |
| `PathNavigator.ParsedPathsNormalize` | src/expression/path_navigator.go:137-216 | Whatever parses has printable segments, and for ASCII paths printing them parses to the same segments. |
| `PathNavigator.PathsConcatenate` | src/expression/path_navigator.go:137-216 | `p.q` parses to the segments of `p` followed by those of `q`, or to the error of `q` at the shifted position. |
| `PathErrors.RefusedExact` | src/expression/path_navigator.go:137-216 | A path is refused at its first character that opens a bracket inside one, closes none, or closes an empty one, and at its end if its last bracket is an opening one; every other path parses. |
| `PathErrors.ReencodeIsUtf8` | src/expression/path_navigator.go:198-204 | Each byte is written as the UTF-8 form of the code point of that number. |
| `Integers.IntText` | src/expression/path_navigator.go:178-186 | The decimal text of every 64-bit integer is read back as that integer. |
| `Numerals.AtoiExact` | src/expression/path_navigator.go:178-186 | A text is read as `n` if and only if it is an optional sign and at least one digit, of value `n` within 64 bits. |
| `Numerals.DigitsInBaseTen` | src/expression/path_navigator.go:178-186 | The value of a row of digits is positional in base ten. |
| `Navigation.NavigatePath` | src/expression/path_navigator.go:50-129 | The loop over the segments computes `Navigate`: missing root, missing field, index out of range and type errors included. |
| `Navigation.WalkConcat` | src/expression/path_navigator.go:92-123 | Walking two segment lists in a row is walking the first and continuing from its result along the second. |
| `Navigation.NavigationComposes` | src/expression/path_navigator.go:50-129 | Navigating `p.q` is navigating `p` and continuing along `q`; the first failing segment decides the error, and a missing root makes every continuation null. |
| `NavigationLaws.FollowExact` | src/expression/path_navigator.go:220-375 | One segment leads to the item at its index, the field of its name or null, or the item or field a variable's value names; otherwise it stops for the stated reason, and never both. |
| `NavigationLaws.NavigateExact` | src/expression/path_navigator.go:50-129 | From a present root, navigation gives a value if and only if the segments lead to it one by one, and fails at a segment with a reason if and only if those before it lead to a value where it stops for that reason. |
| `NavigationLaws.NavigateRoots` | src/expression/path_navigator.go:50-90 | Paths that do not parse, are empty or begin with an index are refused as such, and a missing root gives null. |
| `Substitution.ScanVariablePath` | src/expression/variable_evaluator.go:333-368 | The nested loops return the longest `identifier.identifier...` path at the start position. |
| `Substitution.LoopProducesRest` | src/expression/variable_evaluator.go:273-321 | From any position the loop appends what the recursive specification says is still to come, inside a word as well. |
| `Substitution.ReplaceVariablesInString` | src/expression/variable_evaluator.go:273-321 | The whole loop computes the recursive specification for any resolver; the check for a word boundary after the path never fails. |
| `SubstitutionLaws.SubstitutionSplits` | src/expression/variable_evaluator.go:273-321 | At every character other than letters, digits, underscores and dots in front of an identifier, the texts on both sides are substituted independently. |
| `PathSubstitution.WordCharacters` | src/expression/variable_evaluator.go:322-332 | Identifiers begin with an ASCII letter or an underscore, and words have digits as well: exactly these codes. |
| `PathSubstitution.LongestPath` | src/expression/variable_evaluator.go:333-368 | What is scanned at the start of a word is a dotted name, and no longer stretch of the text from there is one. |
| `PathSubstitution.PathSubstituted` | src/expression/variable_evaluator.go:273-321 | A path that resolves becomes the text of its value; otherwise a single word is kept, and of a dotted path the first word and dot are kept and the rest is tried as a path of its own. |
| `PathSubstitution.DigitWordKept` | src/expression/variable_evaluator.go:273-321 | A word that begins with a digit is kept, whatever resolves. |
| `SubstitutionLaws.ScannedPathParses` | src/expression/variable_evaluator.go:333-394 | What the scanner finds parses to one field per identifier. |
| `SubstitutionLaws.ResolvesExactly` | src/expression/variable_evaluator.go:372-394 | A word resolves exactly when it is a variable; a dotted path resolves to null when its root is no variable, and otherwise exactly when navigation succeeds. |
| `SubstitutionLaws.UnresolvedTextExact` | src/expression/variable_evaluator.go:273-321 | When nothing resolves, substitution is the identity if and only if the text is ASCII. |
| `SubstitutionLaws.DotsRemoved` | src/expression/variable_evaluator.go:273-394 | In a text that names no variable, substitution removes exactly the dots of the dotted paths. |
| `SubstitutionLaws.UnnamedTextExact` | src/expression/variable_evaluator.go:273-394 | A text that names no variable is left alone if and only if it is ASCII and has no dotted path. |
| `SubstitutionLaws.DottedTextRewritten` | src/expression/variable_evaluator.go:273-394 | With no variables at all, the text `a.b` is not left alone. |
| `ArgumentSplitter.SplitArguments` | src/expression/function_evaluator.go:127-173 | The loop over depth, quote and current argument computes the trimmed pieces between top-level commas. |
| `ArgumentCuts.SplitExact` | src/expression/function_evaluator.go:127-173 | Every text, balanced or not, is cut at exactly the commas outside quotes at parenthesis depth 0; an empty rest after the last cut is no argument. |
| `ArgumentSplitter.PiecesConserveText` | src/expression/function_evaluator.go:127-173 | For every text, joining the untrimmed pieces with commas gives it back, up to one trailing comma. |
| `ArgumentSplitter.SplitRoundTrip` | src/expression/function_evaluator.go:127-173 | Every list of arguments that leave the scanner at depth 0 outside quotes without a top-level comma is split back from its comma-joined form, trimmed; only an empty last argument is lost. |
| `ArgumentSplitter.SplitKeepsParens` | src/expression/function_evaluator.go:127-173 | Every opening parenthesis ends up in exactly one argument. |
| `FunctionCalls.Evaluate` | src/expression/function_evaluator.go:53-123 | Parsing, evaluating the arguments and executing computes `EvaluateFunction`: value, error, crash, and number of calls. |
| `FunctionCalls.EvaluateAll` | src/expression/function_evaluator.go:80-91 | The loop over the arguments stops at the first that does not evaluate, with its position. |
| `FunctionCalls.EvaluateOne` | src/expression/function_evaluator.go:177-200 | An argument is a nested call, a quoted literal, a variable or a literal, in that order; a lone quote crashes. |
| `FunctionCalls.CallFormExact` | src/expression/function_evaluator.go:109-123 | A text is taken for a call if and only if it is a lower-case name and a parenthesised text on one line, which are its name and its argument text. |
| `FunctionCalls.ArgumentExact` | src/expression/function_evaluator.go:177-200 | An argument that is no call stands for its text between two equal quotes, crashes if it is a lone quote, and otherwise is a variable's value or its own text. |
| `FunctionCalls.StripExact` | src/expression/function_evaluator.go:41-62 | White space around an expression and one leading `=` do not matter. |
| `FunctionCalls.CallsBoundedByParens` | src/expression/function_evaluator.go:41-123 | Nested evaluation terminates on every text, and makes at most one `EvaluateFunction` call per opening parenthesis. |
| `CallTrees.EvaluatesToMeaning` | src/expression/function_evaluator.go:53-200 | Evaluating any printed tree of calls, words and quoted texts gives the tree's meaning: quoting, lookup, nesting, argument order and the position of the first error. |
| `CallTrees.CallOutcome` | src/expression/function_evaluator.go:53-123 | A printed call whose arguments mean given values runs the function of its name on exactly these values in order: its value or its error is the outcome, and any name but the three is refused. |
| `CallTrees.FirstFailureReported` | src/expression/function_evaluator.go:80-91 | The first argument that fails decides the outcome of a call, with its position. |
| `CallCrashes.CrashExact` | src/expression/function_evaluator.go:53-200 | A text can crash the evaluator, for some variables and functions, if and only if scanning its arguments left to right, at every depth, meets a lone quote before an unknown function or malformed call. |
| `CallCrashes.FateAllows` | src/expression/function_evaluator.go:53-200 | For all variables and functions, only texts with that fate crash, and only texts without crash or error in it have a value. |
| `CallCrashes.FateMet` | src/expression/function_evaluator.go:53-200 | When no function fails, the outcome is the one the text alone foretells: value, error or crash. |
| `CallCrashes.LoneQuoteCrashes` | src/expression/function_evaluator.go:53-200 | The text `add(")` crashes the evaluator, whatever the variables and functions. |
| `CallCrashes.ClosedNeverCrashes` | src/expression/function_evaluator.go:53-200 | A text whose quotes are closed never crashes, at any depth of nesting. |
| `TokenEngine.Engine.constructor` | src/process/engine.go:34-50 | A new engine has no tokens, instances or executions. |
| `TokenEngine.Engine.StartInstance` | src/process/engine.go:463-551 | The start-event callback stores an active instance and its first token, and executes it. |
| `TokenEngine.Engine.ProcessExecutionResult` | src/process/execution_processor.go:37-123 | An executor's result is processed as `Apply` says: error, waiting, completed, no move, move or fork. |
| `TokenEngine.Engine.MoveTokenToNextElements` | src/process/execution_processor.go:127-218 | One resolved target moves the token; several complete it and save and execute one clone each. |
| `TokenEngine.Engine.FindTargets` | src/process/execution_processor.go:158-173 | The loop collects the targets of the flows that lead to an element, in order. |
| `TokenEngine.Engine.CheckProcessCompletion` | src/process/execution_processor.go:299-339 | The instance is completed exactly when all its stored tokens are, and then waiting parents go on. |
| `TokenEngine.Engine.HandleCallActivityCompletion` | src/process/execution_processor.go:343-411 | The loop resumes exactly the tokens waiting for the finished child. |
| `TokenEngine.Engine.FollowSequenceFlow` | src/process/engine.go:188-211 | The token stands at the target, coming from the flow, in the state it was executed in; it executes there instead of on the flow, and no other token changes. |
| `TokenEngine.Engine.HandleMessageCallback` | src/process/engine.go:326-459 | Accepted exactly when the stored token waits for that message; the token executes, and the store keeps its waiting state until the result is processed. |
| `TokenEngine.Engine.ContinueToken` | src/process/callback_helper.go:39-137 | A job or message callback is accepted exactly when the token waits for it; the cleared token is saved and goes on along its outgoing flows, or is completed if there are none. |
| `TokenEngine.Engine.ContinueTokenWithFlows` | src/process/callback_helper.go:143-203 | A timer callback moves the cleared token to the first target, or leaves it saved without one. |
| `TokenEngine.Engine.HandleBoundaryTimerCallback` | src/process/boundary_timer_manager.go:279-435 | An interrupting timer moves the token to the boundary event, a non-interrupting one starts a new token there; closed tokens are left alone. |
| `TokenSteps.TargetsExact` | src/process/execution_processor.go:158-173 | The targets are those of the flows that lead to an element, in the order of the flows, and no others. |
| `TokenSteps.StartStep` | src/process/engine.go:463-551 | A started instance is active with one active token executing at the start element. |
| `TokenSteps.FailedStep` | src/process/engine.go:250-277 | A failing executor leaves the token FAILED where it is, and nothing else changes. |
| `TokenSteps.WaitStep` | src/process/execution_processor.go:63-67 | A token told to wait waits for just that where it is, whatever else the result says. |
| `TokenSteps.CompletionStep` | src/process/execution_processor.go:299-411 | A completed result completes the token. The instance is completed if and only if it is stored and all its other tokens have ended; then exactly the tokens that wait for it as a child are active again and execute. |
| `TokenSteps.MoveStep` | src/process/execution_processor.go:175-184 | With one target the token stands at that target, coming from the element it was at, in the state of the result, and executes there. |
| `TokenSteps.LostStep` | src/process/execution_processor.go:158-173 | With outgoing flows of which none leads anywhere, the execution ends and the store stays as it is. |
| `TokenSteps.UpdateStep` | src/process/execution_processor.go:117-122 | A result without wait, completion and flows saves the token in its new state exactly if it says so. |
| `TokenSteps.ForkStep` | src/process/execution_processor.go:186-218 | With several targets the token is completed, exactly one new token per target is saved there with it as parent, and each of them executes. |
| `TokenSteps.FlowStep` | src/process/engine.go:188-211 | A token on a sequence flow stands at its target and executes there. |
| `TokenSteps.RejectedStep` | src/process/callback_helper.go:39-64 | A callback for what no stored token waits for changes nothing. |
| `TokenSteps.CallbackStep` | src/process/callback_helper.go:68-137 | An accepted callback ends the wait; the token is completed without flows, moves and executes along one, forks along several, and stays active where it is if none leads anywhere. |
| `TokenSteps.TimerStep` | src/process/callback_helper.go:143-203 | An accepted timer callback ends the wait and moves the token along the first flow that leads anywhere. |
| `TokenSteps.MessageStep` | src/process/engine.go:326-459 | The engine's own message callback executes the token without its wait and saves nothing. |
| `TokenSteps.BoundaryStep` | src/process/boundary_timer_manager.go:279-435 | A boundary timer moves a live token to the boundary event and ends its wait only if that is for a job, or puts a new token there, or leaves an ended token alone. |
| `TokenSteps.PathFollowed` | src/process/execution_processor.go:127-184 | Beside whatever else is stored and executing, a token that is sent on from element to element goes through them in order and touches nothing else. |
| `TokenSteps.StraightProcess` | src/process/execution_processor.go:37-339 | From the empty store, an instance without forks runs from its start element through any path to its end: one completed token at the last element, a completed instance, and nothing executing. |
| `TokenSteps.StepsPossible` | src/process/execution_processor.go:37-411 | The steps ask for nothing but new ids: any execution in progress can end with any result, and callbacks and timers can come at any time. |
| `TokenInvariants.StepWellFormed` | src/process/execution_processor.go:37-411 | Every step keeps stored and executing tokens in agreement: each execution is of a stored token of the same, existing instance. |
| `TokenInvariants.SafeStepExact` | src/process/execution_processor.go:37-411 | A step from a safe state is safe if and only if it does not save a live token in an instance completed before. |
| `TokenInvariants.CompletionSafetyExact` | src/process/execution_processor.go:37-411 | Over every run from the empty store: after each step all completed instances have only completed tokens, if and only if no step of the run saves a live token in an instance completed before it. |
| `CompletionSafety.StepKeeps` | src/process/execution_processor.go:37-411 | From any quiet state (safe, and nothing executing in a completed instance) every step is safe, and the state stays quiet unless the step completes its instance while another execution of it is in progress. |
| `CompletionSafety.SafeSuccessorsExact` | src/process/execution_processor.go:37-123 | A state is safe with only safe successors if and only if it is quiet. |
| `CompletionSafety.LeftoverWaits` | src/process/execution_processor.go:63-75 | An execution left over in a completed instance can make the state unsafe in one step. |
| `CompletionSafety.EarlyCompletionBreaks` | src/process/execution_processor.go:299-339 | After an early completion there is always a next step that leaves a completed instance with a live token. |
| `CompletionSafety.CompletesEarlyExact` | src/process/execution_processor.go:299-339 | The guard of early completion, read off the state before the step, holds if and only if the step finishes an unfinished instance while another execution of it is in progress. |
| `CompletionSafety.QuietRunsExact` | src/process/execution_processor.go:37-411 | Over every run from the empty store: after each step completed instances have only completed tokens and nothing executing, if and only if no step completes its instance early. |
| `CompletionSafety.SequentialNeverEarly` | src/process/execution_processor.go:127-218 | A step that neither forks nor executes a token twice at a time cannot complete its instance early. |
| `CompletionSafety.SequentialRunsSafe` | src/process/execution_processor.go:37-411 | Every run of such steps, with callbacks and resumptions, is safe throughout. |
| `CompletionSafety.FinishedOnlyByCheck` | src/process/execution_processor.go:299-339 | An instance is finished only by a completed execution after which all its stored tokens are completed. |
| `CompletionSafety.ForkAccounting` | src/process/execution_processor.go:160-215 | A fork to n >= 2 resolved targets completes one token and adds exactly n in the same instance, one at each target, leaving all others alone; the new ones are saved as COMPLETED. |
| `CompletionSafety.CloneFinishesEarly` | src/process/execution_processor.go:187-197 | Right after the last live token of an instance forks, finishing the first clone completes the instance early. |
| `CompletionSafety.ForkLeadsToUnsafe` | src/core/models/token.go:333-362 | From any quiet state in which the last live token forks, two more steps reach a completed instance with a live token. |
| `CompletionSafety.CompletionSafetyFails` | src/process/execution_processor.go:187-197 | Such a state is reachable from the empty store. |
| `TokenAccounting.StepAccounting` | src/process/execution_processor.go:37-411 | Every step adds exactly the tokens its kind calls for, ends at most its own execution, and starts one per resolved target, accepted callback or resumed parent. |
| `TokenAccounting.StepFrame` | src/process/execution_processor.go:343-411 | Every step leaves all tokens but its own alone, except that finishing an instance clears exactly tokens that wait for it. |
| `DoubleExecution.StepSingleExact` | src/process/execution_processor.go:343-411 | From a state in which every token executes at most once, a step makes one execute twice if and only if it is an accepted callback that moves a token in execution, an interrupting timer on a live one, or completes an instance a token in execution waits for. |
| `DoubleExecution.SingleRunsExact` | src/process/execution_processor.go:37-411 | Over every run from the empty store: no token ever executes twice at a time, if and only if no step of the run does that. |
| `DoubleExecution.InterruptedThenCalledBack` | src/process/boundary_timer_manager.go:349-410 | A waiting token that is interrupted while its callback is under way executes once, when that is handled, if and only if it waited for a job. |
| `DoubleExecution.DoubleExecutionHappens` | src/process/boundary_timer_manager.go:349-410 | A double execution is reachable from the empty store. |
| `JobManager.Manager.constructor` | src/jobs/manager.go:84-96 | A new manager has no jobs and no history. |
| `JobManager.Manager.CreateJob` | src/jobs/manager.go:130-140 | The new job is pending, of the given type and retries and without a lease; no other job changes. |
| `JobManager.Manager.ListJobsByType` | src/storage/storage_job.go:46-100 | The scan returns the matching jobs in key order, the first `limit` of them if there is a limit. |
| `JobManager.Manager.ActivateJobs` | src/jobs/manager.go:143-231 | The pending jobs taken are started with the worker and lease given, and no other job changes. |
| `JobManager.Manager.StartListed` | src/jobs/manager.go:165-226 | The loop starts the listed jobs one by one and stops once it has enough. |
| `JobManager.Manager.CompleteJob` | src/jobs/manager.go:234-291 | Only a running job is completed; any other call fails and changes nothing. |
| `JobManager.Manager.CompleteJobWithBPMNError` | src/jobs/manager.go:294-330 | Fails without effect for an unknown job; otherwise the job is ended with an error and otherwise as it was, and counts as withdrawn exactly if it was running. |
| `JobManager.Manager.FailJob` | src/jobs/manager.go:333-410 | The job is failed, or deferred when retries are left and a backoff is given. |
| `JobManager.Manager.UpdateJobRetries` | src/jobs/manager.go:491-519 | A failed job with retries left becomes pending again. |
| `JobManager.Manager.CancelJob` | src/jobs/manager.go:522-554 | A job that is not finished is canceled; otherwise the call fails and changes nothing. |
| `JobManager.Manager.UpdateJobTimeout` | src/jobs/manager.go:651-676 | A running job is overdue from the new time on and otherwise as it was; a job that is not running does not change, though the call succeeds. |
| `JobManager.Manager.ThrowJobErrorFor` | src/jobs/manager.go:679-739 | Fails without effect for an unknown job; otherwise the job is ended with an error and otherwise as it was, and counts as withdrawn exactly if it was running. |
| `JobManager.Manager.PerformCleanup` | src/jobs/manager.go:807-848 | Exactly the overdue jobs among the first 1000 running ones return to pending without worker and lease. |
| `JobManager.Manager.ReleaseListed` | src/jobs/manager.go:818-843 | The loop releases the overdue jobs of the listing one by one. |
| `JobSteps.CreateStep` | src/jobs/manager.go:130-140 | A new job is pending without worker and lease, and nothing else changes. |
| `JobSteps.CompleteStep` | src/jobs/manager.go:234-291 | A running job becomes COMPLETED with its other fields as they were and is counted; no other job can be completed. |
| `JobSteps.FailStep` | src/jobs/manager.go:333-410 | A failed job has the given retries and is FAILED with its lease, or DEFERRED until now plus backoff if both are positive. |
| `JobSteps.RetriesStep` | src/jobs/manager.go:491-519 | New retries are stored in every case and make a job pending exactly if it was FAILED and they are positive. |
| `JobSteps.CancelStep` | src/jobs/manager.go:522-554 | Exactly the jobs that are not COMPLETED, FAILED, CANCELED or ended with an error are canceled. |
| `JobSteps.ErrorStep` | src/jobs/manager.go:294-330 | Both ways of ending a job with an error save the same job and count the same. |
| `JobSteps.TimeoutStep` | src/jobs/manager.go:651-676 | A new timeout replaces the lease of a running job that has one, and nothing else. |
| `JobSteps.ListedExact` | src/storage/storage_job.go:46-100 | A listing has the matching jobs in key order, all or the first `limit` of them, each at the place given by the number of matches before it. |
| `JobSteps.TakenExact` | src/jobs/manager.go:143-231 | An activation takes the first pending jobs of the type in key order: as many as asked for, one if none or fewer are. |
| `JobSteps.CleanupStep` | src/jobs/manager.go:807-848 | After a cleanup exactly the jobs among the first 1000 running ones whose lease lies before now are pending, without worker and lease and with type and retries as before, and counted as expired; no other job changes. |
| `JobSteps.ReleasedIsTaken` | src/jobs/manager.go:807-848 | The next activation of its type with room for all pending jobs takes a released job. |
| `JobSteps.StepsPossible` | src/jobs/manager.go:130-848 | In every state activations and cleanups are possible in some key order, a job can be created under any unknown id, and all other steps are always possible. |
| `JobLeases.LeaseAccounting` | src/jobs/manager.go:194-371 | Over every run and for each job: activations equal completions, expiries and withdrawals plus one if it is running; and every running job carries a lease. |
| `JobLeases.CleanupExact` | src/jobs/manager.go:807-843 | After a cleanup pass no running job has an overdue lease if and only if none beyond the first 1000 running jobs had one. |
| `JobLeases.CleanupMisses` | src/jobs/manager.go:807-843 | With any number of overdue running jobs above 1000, a cleanup pass leaves some overdue. |
| `JobLeases.ListedIsPrefix` | src/storage/storage_job.go:46-100 | A limited listing is the unlimited one cut off. |
| `JobLeases.ListedFindsAll` | src/storage/storage_job.go:46-100 | An unlimited listing has every matching job. |
| `JobLeases.ActivationTakes` | src/jobs/manager.go:143-231 | A worker gets pending jobs of its type, at most as many as it asked for (one if it asked for none), running for it under the given lease; any left pending are left because the limit was reached. |
| `JobLeases.ZeroLimitTakesOne` | src/jobs/manager.go:143-231 | A limit of zero or less takes exactly one job as soon as one is pending. |
| `JobLeases.FailParks` | src/jobs/manager.go:356-371 | Failing a job takes it out of circulation in every case; retries and backoff only choose between FAILED and DEFERRED. |
| `JobLeases.ParkedExact` | src/jobs/manager.go:491-511 | A job out of circulation comes back if and only if the step is an update that gives a FAILED job retries. |
| `JobLeases.DeferredNeverRetried` | src/jobs/manager.go:356-371 | Over every run that does not fail it again, a DEFERRED job is never activated. |
| `JobLeases.CompletedExact` | src/jobs/manager.go:294-410 | A completed job stays completed if and only if the step neither fails it nor ends it with an error. |
| `JobLeases.CompletesAtMostOnce` | src/jobs/manager.go:234-291 | Over every run in which that never happens to it, a job completes at most once. |
| `JobLeases.ReopenedCompletesAgain` | src/jobs/manager.go:333-519 | Otherwise four steps complete a completed job again. |
| `MessageManager.IsIntermediateCatchEvent` | src/messages/correlation_manager.go:426-458 | Whether some token waits at the element. |
| `MessageManager.FindWaitingToken` | src/messages/correlation_manager.go:462-491 | The first token that waits at the element for the message, or none. |
| `MessageManager.Manager.constructor` | src/messages/correlation_manager.go:33-44 | Nothing is stored and nothing has happened. |
| `MessageManager.Manager.ListProcessMessageSubscriptions` | src/storage/storage_message.go:92-147 | The first hundred subscriptions of the tenant in key order; no tenant means all. |
| `MessageManager.Manager.FindSubscription` | src/messages/correlation_manager.go:82-127 | The search loop finds the first listed subscription that is active and matches name and key. |
| `MessageManager.Manager.FindStartSubscription` | src/process/engine.go:475-492 | The engine's search for a start event: the first active subscription of the name among the first hundred of all tenants. |
| `MessageManager.Manager.PublishMessage` | src/messages/correlation_manager.go:67-272 | A message is buffered, starts an instance, reaches a waiting token and uses the subscription up, or is dropped, as `Decide` says. |
| `MessageManager.Manager.DeleteProcessMessageSubscription` | src/storage/storage_message.go:150-159 | Every entry with the id is gone and the others keep their order. |
| `MessageManager.Manager.ListBufferedMessages` | src/storage/storage_message.go:210-285 | The first thousand buffered messages of the tenant in key order. |
| `MessageManager.Manager.ProcessBufferedMessages` | src/messages/buffer_manager.go:168-239 | The loop over the snapshot computes `Replayed` and counts the messages it handled. |
| `MessageManager.Manager.CreateSubscription` | src/messages/subscription_manager.go:52-94 | Stored unless one of the same tenant, process and event exists. |
| `MessageManager.Manager.CreateMessageSubscription` | src/messages/component.go:169-210 | The buffer is replayed whether or not the subscription was new. |
| `MessageManager.Manager.GetSubscriptionByID` | src/messages/subscription_manager.go:165-186 | Found exactly when among the first thousand stored. |
| `MessageManager.Manager.DeleteSubscription` | src/messages/subscription_manager.go:97-121 | Deleted exactly when found among the first thousand. |
| `MessageManager.Manager.UpdateSubscription` | src/messages/subscription_manager.go:189-270 | Saved again under its id exactly when found among the first thousand. |
| `MessageManager.Manager.CleanupExpiredMessages` | src/messages/buffer_manager.go:143-165 | Exactly the expired messages among the first thousand are deleted, and counted. |
| `MessageSteps.MatchesExact` | src/messages/correlation_manager.go:82-127 | A message matches a subscription exactly if that is active, of the same name, and one key is empty or the subscription's, without a leading `=` and the quotes around the rest, is the message's. |
| `MessageSteps.BufferedStep` | src/messages/correlation_manager.go:67-272 | A message without a subscription is buffered as it is, and nothing else changes. |
| `MessageSteps.StartedStep` | src/messages/correlation_manager.go:167-200 | Where no token waits at the subscription's element, an instance is started and the subscription stays. |
| `MessageSteps.DeliveredStep` | src/messages/correlation_manager.go:143-238 | The first token that waits there for the message gets it, and exactly the entries of the subscription's id are deleted. |
| `MessageSteps.DroppedStep` | src/messages/correlation_manager.go:143-166 | Where tokens wait but none for the message, it is dropped and the subscription stays. |
| `MessageSteps.SubscribedStep` | src/messages/subscription_manager.go:52-94 | A subscription is stored at its place in the key order unless one of the same tenant, process and element is stored. |
| `MessageSteps.UnsubscribingStep` | src/messages/subscription_manager.go:97-121 | Deleting looks among the first 1000 and then deletes exactly the entries of the id, keeping the order. |
| `MessageSteps.UpdatingStep` | src/messages/subscription_manager.go:189-270 | Saving again looks among the first 1000 and then replaces exactly the entries of the id. |
| `MessageSteps.ListedMessagesExact` | src/storage/storage_message.go:210-285 | A listing of the buffer has the tenant's messages in key order, exactly the first 1000, each at the place given by the number before it. |
| `MessageSteps.CleaningStep` | src/messages/buffer_manager.go:143-165 | A cleanup deletes exactly the messages among the first 1000 whose expiry time lies before now, and counts them. |
| `MessageSteps.ReplayTakes` | src/messages/buffer_manager.go:168-239 | A replay takes out of the buffer exactly the listed messages of the subscription's name and written key whose expiry time does not lie before the moment of their turn. |
| `MessageSteps.StepsPossible` | src/messages/correlation_manager.go:67-272 | In every state a cleanup is possible in some key order, a subscription and a publication with new ids, and all other steps always. |
| `MessageLaws.TargetExact` | src/messages/correlation_manager.go:82-127 | The chosen subscription is the first that matches and has fewer than a hundred of its tenant before it; none is chosen if and only if there is no such subscription. |
| `MessageLaws.HundredFirstUnseen` | src/messages/correlation_manager.go:82-127 | Behind a hundred subscriptions of the tenant that do not match, one that does gets nothing. |
| `MessageLaws.StartAgreesExactly` | src/process/engine.go:475-492 | The engine finds the same subscription as publishing if and only if that is among the first hundred of all tenants and no active subscription of the name comes before it. |
| `MessageLaws.StartsExactly` | src/process/engine.go:475-516 | The engine starts a process if and only if it is that of the first active subscription of the name, and that is among the first hundred of all tenants. |
| `MessageLaws.StartsAnotherTenant` | src/process/engine.go:475-492 | For a message of one tenant the engine takes another tenant's subscription that has the name and comes before; it starts the process publishing chose if and only if both are of the same process. |
| `MessageLaws.FirstWaitingExact` | src/messages/correlation_manager.go:462-491 | No token is found if and only if none waits for the message there; one that is found does. |
| `MessageLaws.FirstWaitingIsFirst` | src/messages/correlation_manager.go:462-491 | The token that is found is the first in the list that waits for the message there. |
| `MessageLaws.DroppedExact` | src/messages/correlation_manager.go:143-166 | A message is dropped if and only if the chosen subscription's element has a waiting token but none for its name. |
| `MessageLaws.ReplayAgreesExactly` | src/messages/buffer_manager.go:181-189 | Replay picks the messages publishing would match if and only if the key is empty, or the message has a key and the subscription's is no expression whose text or value it equals. |
| `MessageLaws.QuotedKeyNotReplayed` | src/messages/buffer_manager.go:181-189 | A buffered message with key `x` matches a subscription with key `="x"` but is passed over when the buffer is replayed for it, for every `x` that neither begins nor ends with a quote. |
| `MessageLaws.BufferConservation` | src/messages/buffer_manager.go:168-239 | Over a replay, buffered + started + correlated + dropped stays the same, though messages are re-buffered and subscriptions used up on the way and tokens may change between iterations; the buffer afterwards holds exactly what was passed over and one copy of each message that found no subscription. |
| `MessageLaws.ReplayDropsExactly` | src/messages/buffer_manager.go:168-239 | The number dropped is the number of handled messages whose chosen element has waiting tokens, none for that message. |
| `MessageLaws.CopyNeverExpires` | src/messages/buffer_manager.go:199-207 | The copy of a re-buffered message survives every later run of cleanups, publications, updates and deletions of subscriptions. |
| `MessageLaws.SecondMessageCopied` | src/messages/buffer_manager.go:168-239 | With two messages for one waiting token, the first uses the subscription up and the second is put back without expiry time. |
| `MessageLaws.MessageConservation` | src/messages/correlation_manager.go:67-272 | Over every run, every published message is buffered, has started an instance, reached a token, been dropped or expired: exactly one of these. |
| `MessageLaws.CorrelatesAtMostOnce` | src/messages/correlation_manager.go:143-238 | Over every run a subscription hands at most one token a message, and that token was waiting for it. |
| `CorrelationRuns.WaitLasts` | src/process/callback_helper.go:39-64 | Over every run of the engine, a wait that is not for a child instance lasts until a step is about that token. |
| `CorrelationRuns.CorrelationProtocol` | src/messages/correlation_manager.go:143-238 | Beside every run of the engine: each correlated token was in the engine's store after some step, and from every moment at which the store has it like that the engine accepts the message callback until a step is about that token. |
| `CorrelationRuns.EarlierMessageAccepted` | src/process/boundary_timer_manager.go:349-410 | Over every run after an interruption with no step about the token, the callback of a message it waited for is still accepted. |
| `CorrelationRuns.LaterMessageMisses` | src/messages/correlation_manager.go:143-238 | Over every run after an interruption with no step about the token, a message published for the element it left never reaches it, and starts an instance if and only if no other token waits there. |
| `CorrelationRuns.InterruptionStartsInstance` | src/process/boundary_timer_manager.go:349-410 | With one waiting token and one subscription, a message is delivered before the interruption and starts an instance after it. |
| `TreeWalk.GetElementID` | src/parser/parser_helpers.go:134-141 | The value of the first `id` attribute, or the empty text. |
| `TreeWalk.Context.constructor` | src/parser/parser.go:321-327 | An empty context at the top level. |
| `TreeWalk.Context.Store` | src/parser/parser.go:413-479 | One element is counted and, if it has an id, recorded under it with the current scope. |
| `TreeWalk.Context.ParseAllElements` | src/parser/parser.go:388-509 | The recursive walk records and counts the visits of the subtree in document order, and restores the scope. |
| `Scopes.PathsExact` | src/parser/parser.go:395-409 | The nodes visited are exactly those that, like all their ancestors, are neither nameless nor diagram elements. |
| `Scopes.PathsDistinct` | src/parser/parser.go:388-509 | No node is visited twice. |
| `Scopes.VisitsAligned` | src/parser/parser.go:484-506 | The visits are those of these nodes in order, each in the scope handed down to it. |
| `Scopes.InheritedIsNearest` | src/parser/parser.go:484-506 | The scope handed down from the root is what climbing from the node finds: the id of the nearest proper `subProcess` ancestor that has one. |
| `Scopes.NearestExact` | src/parser/parser.go:484-506 | What climbing finds is the id of the last `subProcess` with an id among the proper ancestors, and nothing exactly when none of them is one. |
| `Scopes.ReachedExact` | src/parser/parser.go:395-409 | A node is reached if and only if no node from the root down to it is nameless or one of the eight diagram elements. |
| `Scopes.IdExact` | src/parser/parser_helpers.go:134-141 | The id of a node is the value of its first attribute of that name, and empty without one. |
| `Scopes.PathsOrdered` | src/parser/parser.go:484-506 | The nodes are visited in document order. |
| `Scopes.CountsExact` | src/parser/parser.go:412-414 | The count of each element type is the number of visited nodes of that type. |
| `Scopes.LastNodeWins` | src/core/models/bpmn.go:98-101 | Under a repeated id the last visited node is recorded: with the data of the parser known for its type, or of the generic one if that is missing or fails, and with the id of its nearest scope, if any, as `parent_scope`. |
| `Scopes.ScopesExact` | src/parser/parser.go:388-509 | With unique ids every visited node that has one is recorded so under it. |
| `Scopes.RecordedOnlyReached` | src/parser/parser.go:388-509 | Nothing else is recorded. |

## Left out

- Comparison expressions, number parsing and value formatting (`evaluateComparison`, `toFloat64`, `formatValueForString`): they depend on floats and `%v` formatting; operand evaluation and value text are parameters here.
- Choosing between logical, comparison and plain expressions in `EvaluateVariable`: the logical pipeline is entered at `evaluateLogicalExpression`.
- The date functions `duration`, `add` and `subtract`: a parameter of the call evaluator.
- Navigation into Go structs by reflection: values are null, booleans, numbers, texts, lists and objects.
- Element executors (gateways, tasks, events): an execution step takes an arbitrary result and token state. Executors that write the store themselves are not covered: subprocesses (`src/process/subprocess_executor.go:353`), error end events (`src/process/end_event_executor.go:348`) and token merging.
- Job failures and BPMN errors at a token (`src/process/job_callbacks.go:112-430`), incidents, and the cancellation of boundary timers and process instances: not part of the token model.
- TokenEngine.Engine.ProcessExecutionResult: new tokens in a result (`src/process/execution_processor.go:93-115`) are left out; only a join gateway returns any, and they are ignored whenever it has an outgoing flow.
- TokenEngine.Engine.StartInstance: takes the start element as a parameter; the search for it is `MessageManager.Manager.FindStartSubscription`.
- TokenEngine.Engine.HandleBoundaryTimerCallback: the interruption also cancels the token's event timers (`src/process/boundary_timer_manager.go:384-398`); timers are not part of the state here, so a timer callback may come at any time.
- DoubleExecution.InterruptedThenCalledBack: whether a callback is under way is not part of the state. For messages, which can still come is `CorrelationRuns.EarlierMessageAccepted` and `LaterMessageMisses`; event timers are cancelled, so only a timer callback already sent can come.
- ArgumentSplitter.SplitArguments: the source's loop decodes code points and rewrites invalid UTF-8, which the model's texts cannot contain.
- Process versions in keys (`extractProcessIDFromKey`, `extractVersionFromKey`): they would only add easy members.
- Variables of tokens and jobs, worker records and statistics: they do not influence the protocols.
- Job listing with paging (`ListJobs`): the limit is applied before the offset, and no protocol uses it.
- Response channels: unbounded here. A full channel drops the callback of a correlated message after its subscription has been used up.
- Correlation results, `CorrelateMessage`, and manual deletion of a buffered message: records without influence on the protocol.
- Storage errors: every step assumes its storage calls succeed.
- XML decoding, the individual element parsers and the context's `CurrentElement`: an element parser is any function that may fail.
- JobManager.Manager.ThrowJobErrorFor: job variables are not modelled; the source writes error details into a map that may be nil, which would crash.
- TreeWalk.Context.Store: the source writes the same entry to the context's and the process's element map; there is one map here.
- MessageManager.Manager.ProcessBufferedMessages: takes the listed snapshot as an argument; `CreateMessageSubscription` passes the listing.

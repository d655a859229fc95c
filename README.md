# ion shell statement tokenizer, modelled in Dafny

This project models `src/parser/pipelines.rs` of the ion shell. That file is
the single-pass, byte-level tokenizer for one shell statement. It has two
cooperating parts, and both keep a quote, escape and `$(` register: a single
byte of bit flags (`BACKSLASH` 1, `SINGLE_QUOTE` 2, `DOUBLE_QUOTE` 4,
`WHITESPACE` 8, `PROCESS_ONE` 64, `PROCESS_TWO` 128, plus the masks
`PROCESS_VAL` and `IS_VALID`). The model keeps that register as a `bv8` with
the same constants, so every guard can be compared bit for bit.

- `PipelineIterator` is a pre-pass over the statement. It skips the run of
  leading spaces and tabs. It yields the rest once, and only if the rest holds
  a byte other than space, tab, CR or LF.
- `collect` takes each statement the iterator yields and does three things:
  - it splits the statement into arguments and groups them into jobs at
    unquoted `|` and `&`;
  - it reads `>`, `>>` and `<` file names in a small state machine over
    `RedirMode`;
  - it appends one `Pipeline` to the caller's vector and may write one of
    two error messages.

The model takes the source's imperative form:

- `Trimmer.PipelineIterator` is a class with the iterator's fields. Its `Next`
  is the byte loop of `next`, proved against the pure function `Trimmer.Trim`.
- `Splitter` is the reference semantics of `collect` for one statement.
  - `Scan` holds every local of `collect`.
  - `Step` is what `collect` does with the next byte its iterator hands out.
  - `End` is what the arms do when the iterator runs dry.
  - `Flush` is the code after the labelled loop.
  - `Parse(args)` is the resulting pipeline and error.
- `Collect` is the imperative `collect`: the labelled `'outer` loop, the
  argument arm, the two file name arms and the flush.
  - Each method is proved against a ghost trace of `Splitter` states.
  - `Collect.CollectCandidate` returns exactly `Parse(args)`.
  - `Collect.Collect` returns exactly `Outcome`, the iterator followed by
    `Parse`.
- The remaining modules prove what the source and its unit tests promise about
  `Parse`.
  - `SplitterFacts`: for every input, jobs are non-empty and their arguments
    are verbatim slices, and the only errors are the two messages.
  - `WordRuns`: an independent reference splitter into whitespace-separated
    words.
  - `PlainStatements`: whole-statement results for statements without quotes
    or redirections, stated with `WordRuns`.
  - `Quoting`: the register and double-quoted arguments.
  - `Tokens`: which byte runs the argument arm keeps as one argument
    (tokens), with the quoted, escaped and `$(...)` shapes of the tests.
  - `TokenStatements`: the whole-statement result for blank-separated
    tokens, whatever quotes, escapes and `$(...)` they hold.
  - `Redirections` and `RedirectionFacts`: redirections.

The unit tests of the file are instances of these general lemmas:

- `single_job_no_args`, `single_job_with_single_character_arguments`,
  `job_with_args`, `multiple_white_space_between_words`,
  `trailing_whitespace` and `not_background_job`:
  `PlainStatements.SingleJob`, `PlainStatements.BlankRunsCollapse`.
- `background_job` and `background_job_with_space`:
  `PlainStatements.BackgroundJob`.
- `process` and `quoted_process`: `TokenStatements.TokensParse`. The words
  are tokens by `Tokens.WordToken`; the last token is
  `Tokens.SubstitutionToken` or `Tokens.QuotedToken`.
- `double_quoting`: `TokenStatements.TokensParse`, with both quoted spans
  tokens by `Tokens.QuotedToken`.
- `double_quoting_contains_single`: `TokenStatements.TokensParse` with
  `Tokens.ApostrophesInDoubleQuotes`.
- `multi_quotes` (both statements): `TokenStatements.TokensParse`, with
  `Tokens.QuotedToken`, `Tokens.WordToken` and `Tokens.TokenConcat` for the
  glued argument.
- `mixed_quoted_and_unquoted`: `TokenStatements.TokensParse`, with
  `Tokens.ApostrophesInDoubleQuotes`, and `Tokens.TokenConcat` for
  `one'  'two`.
- `single_quoting`: `TokenStatements.TokensParse`, with
  `Tokens.EscapedClosingQuote` as the last token.
- `cat | echo hello | cat`: `PlainStatements.SeparatorSplits` and
  `RedirectionFacts.JobsBeforeSeparator`.
- `pipelines_with_redirection`, `pipeline_with_redirection_append` and
  `pipelines_with_redirection_reverse_order`:
  `RedirectionFacts.InputThenOutput`, `RedirectionFacts.OutputThenInput` and
  `RedirectionFacts.RedirectionOrder`.
- `parse_empty_string`, `all_whitespace` and `several_blank_lines`:
  `Trimmer.Trim` and `SplitterFacts.CollectAppends`.
- `leading_whitespace`: `Trimmer.Trim` strips the blanks before `echo`,
  `SplitterFacts.CollectAppends` gives one pipeline for it, and
  `PlainStatements.SingleJob` applied to `echo` gives its one job.

## Model

| member | source | states |
|---|---|---|
| Trimmer.LeadingBlanks | src/parser/pipelines.rs:49-55 | the length of the maximal leading run of spaces and tabs: every byte before it is a blank and the byte at it is not |
| Trimmer.Trim | src/parser/pipelines.rs:64-74 | nothing is yielded exactly when every byte is space, tab, CR or LF; otherwise the yield is a non-empty suffix that starts with a non-blank and is preceded only by blanks |
| Trimmer.HasContent | src/parser/pipelines.rs:67 | a statement has content exactly when it is not all spaces, tabs, CRs and LFs |
| Trimmer.TrimArmOf | src/parser/pipelines.rs:40-57 | the guards of the `match` in `next`, in source order; a byte takes the blank arm exactly when it is a space or tab and no escape, quote or `$` bit is up |
| Trimmer.NextFlags | src/parser/pipelines.rs:40-59 | the register after one byte; the whitespace bit is up exactly when that byte took the blank arm |
| Trimmer.FlagsAfter | src/parser/pipelines.rs:39-61 | the register after a run of bytes; with the whitespace bit up, the last byte of the run is a space or tab |
| Trimmer.LeadingRunIsUnquoted | src/parser/pipelines.rs:41-57 | while `next` is in the leading run of blanks the register holds no quote, escape or `$` bit, so each of those blanks takes the blank arm and the quote state cannot move the start of the yield |
| Trimmer.PipelineIterator.constructor | src/parser/pipelines.rs:26-34 | a new iterator holds the statement with every counter and the register at zero |
| Trimmer.PipelineIterator.Next | src/parser/pipelines.rs:39-75 | the first call yields `Trim(matchStr)`, leaves the end index at the length, the register equal to the fold of the arms over every byte, and the start index past the end; any later call yields nothing and changes no field |
| Trimmer.YieldsAtMostOnce | src/parser/pipelines.rs:64-66 | a fresh iterator yields the trimmed statement and the next call yields nothing |
| Splitter.ArgArmOf | src/parser/pipelines.rs:134-154 | the arm of the argument loop's `match` a byte takes under a register, guards in source order; its consequences are the `Quoting` lemmas |
| Splitter.ArgFlags | src/parser/pipelines.rs:134-154 | the register after each arm; the separator arms leave it as it is |
| Splitter.JobFound | src/parser/pipelines.rs:115-128 | `job_found!` appends exactly one job with the given background flag and at least one argument, keeps the earlier jobs, clears the arguments and starts the next argument after the separator |
| Splitter.ArmStep | src/parser/pipelines.rs:131-157 | every arm of the argument loop advances the index by one, keeps the earlier jobs and stays within the bounds `collect` keeps |
| Splitter.ArgumentStep | src/parser/pipelines.rs:132-156 | one byte of the argument loop advances the index by one, keeps the bounds and keeps the earlier jobs and never leaves `'outer` by itself |
| Splitter.PeekStep | src/parser/pipelines.rs:161-167 | the read after `>` stays in a redirection arm and touches neither the index, the argument start, the arguments nor the jobs |
| Splitter.OutputStep | src/parser/pipelines.rs:171-215 | the Stdout file name loop never touches the index, the argument start, the arguments or the jobs, and never leaves the redirection arms |
| Splitter.InputStep | src/parser/pipelines.rs:226-270 | the Stdin file name loop never touches the index, the argument start, the arguments or the jobs, and never leaves the redirection arms |
| Splitter.Step | src/parser/pipelines.rs:129-277 | one byte keeps the bounds, changes nothing once the scan has left `'outer`, and only appends jobs |
| Splitter.States | src/parser/pipelines.rs:129-277 | the locals of `collect` after the first `n` bytes: the steps folded from the initial state, within the bounds `collect` keeps |
| Splitter.RedirCheckIn | src/parser/pipelines.rs:94-106 | `redir_check!` for standard input (see `Splitter.RedirCheckBinds`) |
| Splitter.RedirCheckOut | src/parser/pipelines.rs:94-106 | `redir_check!` for standard output (see `Splitter.RedirCheckBinds`) |
| Splitter.RedirCheckBinds | src/parser/pipelines.rs:94-106 | a bound stream is left alone; an unbound one is bound to the buffered name, never appending for standard input, or the `'>'` message is written when the buffer is empty; nothing else changes |
| Splitter.End | src/parser/pipelines.rs:94-106 | running out of bytes changes only the error and the two redirections, and any error it writes is the `'>'` message, even in the Stdin arm |
| Splitter.Flush | src/parser/pipelines.rs:280-288 | the code after the labelled loop (see `Splitter.FlushAppends`) |
| Splitter.FlushAppends | src/parser/pipelines.rs:280-288 | the flush keeps the error and both redirections and the earlier jobs, and adds one foreground job exactly when arguments are collected or one is pending, made of those arguments followed by the pending one |
| Splitter.Parse | src/parser/pipelines.rs:84-289 | the pipeline and error of one statement: the flush applied after the end of input to the state after every byte; `Collect.CollectCandidate` computes it and `SplitterFacts.ParseSound` bounds it |
| Collect.FoundJob | src/parser/pipelines.rs:115-128 | the imperative `job_found!` produces the locals the reference step gives at that separator |
| Collect.ArgumentByte | src/parser/pipelines.rs:133-155 | one pass of the argument loop yields the trace state after that byte, and never enters the append mode |
| Collect.ScanArguments | src/parser/pipelines.rs:131-159 | the argument loop stops at the end of input in mode False, or right after the first unquoted `>` or `<` in mode Stdout or Stdin, with its locals equal to the trace state there |
| Collect.OutputByte | src/parser/pipelines.rs:171-215 | one pass of the Stdout file name loop yields exactly the reference step on that byte |
| Collect.ScanStdoutFile | src/parser/pipelines.rs:170-220 | the Stdout file name loop either continues into the Stdin arm with the trace state there, or leaves `'outer` with locals equal to the final state after `redir_check!` |
| Collect.ScanStdout | src/parser/pipelines.rs:160-221 | the whole Stdout arm, with its peek at the byte after `>`, continues into Stdin or leaves with its locals equal to the final state |
| Collect.InputByte | src/parser/pipelines.rs:226-270 | one pass of the Stdin file name loop yields exactly the reference step on that byte, including the re-entry of the Stdin arm at line 264 |
| Collect.ScanStdin | src/parser/pipelines.rs:222-276 | the Stdin arm continues into Stdin or Stdout with the trace state there, or leaves with its locals equal to the final state |
| Collect.CollectCandidate | src/parser/pipelines.rs:84-289 | the body of the `for` loop pushes exactly the pipeline `Parse(args)` and writes exactly its error |
| Collect.Outcome | src/parser/pipelines.rs:82-290 | one pipeline is appended exactly when the statement has content, the earlier pipelines are kept, and an all-whitespace statement keeps the error |
| Collect.Collect | src/parser/pipelines.rs:82-290 | `collect` leaves in `pipelines` and `possible_error` exactly what `Outcome` says: the trimmer's one candidate, if any, parsed and appended |
| SplitterFacts.JobFoundSound | src/parser/pipelines.rs:116-124 | a job closed at a separator has at least one argument, and every argument is a slice of the statement |
| SplitterFacts.StepSound | src/parser/pipelines.rs:129-277 | every byte keeps the invariant: jobs non-empty and made of slices, collected arguments non-empty slices, file names non-empty, standard input never appending, only the two messages |
| SplitterFacts.StatesSound | src/parser/pipelines.rs:83-278 | the invariant holds after every prefix of the statement |
| SplitterFacts.ParseSound | src/parser/pipelines.rs:280-288 | every pushed job has an argument and every argument is a verbatim slice of the statement; every bound file name is non-empty; standard input never appends; the error is one of the two messages or none |
| SplitterFacts.CollectAppends | src/parser/pipelines.rs:83-288 | one call appends exactly one pipeline for a statement with content and none for an all-whitespace one, keeps the earlier pipelines, keeps the error on an all-whitespace statement, and never writes any text but the two messages |
| PlainStatements.PlainArm | src/parser/pipelines.rs:134-154 | with a clear register, a blank takes the blank arm, `\|` the pipe arm, `&` the background arm and any other plain byte the arm that clears `$`; the register stays clear |
| PlainStatements.PlainStep | src/parser/pipelines.rs:133-155 | one plain byte takes the argument state for a prefix to the state for the prefix one byte longer: the closed jobs, the words collected and the pending span |
| PlainStatements.PlainStates | src/parser/pipelines.rs:131-157 | after a plain prefix, `collect` is in the argument arm with a clear register, no redirection and no error, the jobs closed at its separators, and the words of its last piece |
| PlainStatements.PlainParse | src/parser/pipelines.rs:131-159 | a plain statement gives the jobs its separators cut, with no redirection and no error |
| PlainStatements.SingleJob | src/parser/pipelines.rs:141-148 | a plain statement without separators gives one job whose arguments are its blank-separated words, or no job when it has none |
| PlainStatements.SeparatorSplits | src/parser/pipelines.rs:149-150 | an unquoted `\|` or `&` closes the words before it as one job, background exactly for `&`, and the scan goes on with the rest of the statement |
| PlainStatements.TrailingBlankBeforeSeparator | src/parser/pipelines.rs:120-122 | a space before a separator adds no argument, but a tab before it adds one empty argument |
| PlainStatements.BlankRunsCollapse | src/parser/pipelines.rs:141-148 | any two non-empty runs of spaces and tabs between the same words give the same job, made of exactly the words on both sides |
| PlainStatements.Spaced | src/parser/pipelines.rs:141-148 | a plain statement with blanks of any mix and length gives one job of its words, and trailing blanks add nothing |
| PlainStatements.BackgroundJob | src/parser/pipelines.rs:150 | `cmd&` and `cmd &` each give one background job of the words of `cmd` |
| Quoting.QuoteToggles | src/parser/pipelines.rs:139-140 | outside an escape, `'` and `"` flip their own bit whatever else is open, and the same quote again restores the register |
| Quoting.EscapeTakesOneByte | src/parser/pipelines.rs:134-135 | a backslash raises the escape bit, and the next byte, whatever it is, is taken as it is and lowers it |
| Quoting.SeparatorsNeedClearRegister | src/parser/pipelines.rs:141-152 | a blank, `&`, `<` or `>` separates only with no quote, escape or `$` state open, and `\|` also needs the whitespace bit clear |
| Quoting.WhitespaceBitStaysDown | src/parser/pipelines.rs:134-154 | no arm of the argument loop changes the whitespace bit, so `collect` never raises it |
| Quoting.PipeAndAmpersandAgree | src/parser/pipelines.rs:149-150 | with the whitespace bit down, `\|` and `&` each separate exactly when the register is clear |
| Quoting.DollarOpens | src/parser/pipelines.rs:136 | outside quotes and `$`, a `$` opens the `$` state |
| Quoting.ParenAfterDollar | src/parser/pipelines.rs:137 | `(` right after `$` enters `$(` |
| Quoting.DollarClears | src/parser/pipelines.rs:153 | any byte after `$` other than `(`, a quote or a backslash clears the `$` state without separating |
| Quoting.InsideSubstitution | src/parser/pipelines.rs:138 | inside `$(`, `)` leaves it and every other byte but a quote or a backslash keeps the register: `$(` does not nest |
| Quoting.QuotedArm | src/parser/pipelines.rs:141-153 | under an open single quote, double quote or both, any byte but a quote or a backslash keeps the register and separates nothing |
| Quoting.QuotedArgument | src/parser/pipelines.rs:139-148 | words followed by a double-quoted span give one job: the words, then the span with both quotes as one argument, blanks, `$`, `(`, `)`, `\|`, `&`, `<` and `>` inside it included |
| Tokens.Concat | src/parser/pipelines.rs:134-154 | two runs in a row keep the argument arm running exactly when the first does and the second does from the register the first leaves; the registers compose |
| Tokens.TokenConcat | src/parser/pipelines.rs:134-154 | tokens glued together are one token |
| Tokens.WordToken | src/parser/pipelines.rs:134-154 | a non-empty word of plain bytes without blanks or separators is a token |
| Tokens.QuotedBytes | src/parser/pipelines.rs:139-153 | under an open quote, bytes other than quotes and backslashes neither separate nor change the register |
| Tokens.QuotedToken | src/parser/pipelines.rs:139-140 | `'q'` and `"q"` are tokens for any `q` without quotes or backslashes, blanks, `\|`, `&`, `<`, `>`, `$`, `(` and `)` included |
| Tokens.ApostrophesInDoubleQuotes | src/parser/pipelines.rs:139-140 | `"q1'q2'q3"` is one token |
| Tokens.ApostropheInDoubleQuotes | src/parser/pipelines.rs:139-141 | `"q1'q2"` never separates but leaves the single-quote bit up, so the next space does not separate |
| Tokens.EscapedClosingQuote | src/parser/pipelines.rs:134-140 | in `'q"\'` the backslash escapes the closing quote: the run never separates and leaves both quote bits up |
| Tokens.SubstitutionBytes | src/parser/pipelines.rs:138 | inside `$(`, bytes other than `)`, quotes and backslashes neither separate nor change the register |
| Tokens.SubstitutionToken | src/parser/pipelines.rs:136-138 | `$(q)` is a token for any `q` without `)`, quotes or backslashes, blanks and `\|` included |
| TokenStatements.TokensParse | src/parser/pipelines.rs:131-288 | leading blanks, then tokens each followed by blanks, then an optional last run that never separates, give one foreground job whose arguments are exactly those tokens verbatim (no job when there are none), no redirection and no error |
| Redirections.SkipLeading | src/parser/pipelines.rs:188-189 | blanks and `\|` before a file name are skipped |
| Redirections.ReadName | src/parser/pipelines.rs:213 | name bytes are appended to the file name |
| Redirections.EscapeInName | src/parser/pipelines.rs:183-187 | in a file name a backslash is dropped and the byte after it is kept, whatever it is |
| Redirections.EndName | src/parser/pipelines.rs:190-195 | a blank or `\|` after a non-empty name ends it and binds the arm's stream |
| Redirections.IgnoreRest | src/parser/pipelines.rs:172-180 | once a name has ended, every byte but the other arm's operator is ignored |
| Redirections.EnterArm | src/parser/pipelines.rs:111-113 | an unquoted `>` or `<` after a plain prefix keeps the jobs and words before it, abandons the span glued to it, and enters its arm |
| Redirections.PeekAt | src/parser/pipelines.rs:161-167 | the byte after `>` only selects append when it is a second `>`, and is never part of the name |
| Redirections.StopAt | src/parser/pipelines.rs:173-175 | the other operator after an ended name ends the scan when that stream is already bound; the Stdin arm does the same at lines 228-230 |
| Redirections.SwitchToOutput | src/parser/pipelines.rs:228-233 | `>` after an ended input name moves to the Stdout arm, which peeks again |
| Redirections.SwitchToInput | src/parser/pipelines.rs:173-178 | `<` after an ended output name moves to the Stdin arm |
| Redirections.ReenterInput | src/parser/pipelines.rs:255-266 | `>` right after an input name binds standard input and runs the Stdin arm again, not the Stdout arm |
| Redirections.StopGluedAt | src/parser/pipelines.rs:200-207 | the other operator glued to a name binds the arm's stream to that name and, when the other stream is already bound, ends the scan; the Stdin arm does the same at lines 255-262 |
| Redirections.SwitchGluedToInput | src/parser/pipelines.rs:200-211 | `<` right after an output name binds standard output, with append when the arm was `>>`, and moves to the Stdin arm |
| RedirectionFacts.OutputRedirect | src/parser/pipelines.rs:160-221 | `cmd >p name` binds standard output to the name, with append exactly when `p` is `>`; the jobs are those of `cmd` |
| RedirectionFacts.InputRedirect | src/parser/pipelines.rs:222-276 | `cmd < name` binds standard input to the name, never appending |
| RedirectionFacts.InputThenOutput | src/parser/pipelines.rs:227-235 | `cmd < a >p b` binds standard input to `a` and standard output to `b` |
| RedirectionFacts.OutputThenInput | src/parser/pipelines.rs:172-180 | `cmd >p b < a` binds standard input to `a` and standard output to `b` |
| RedirectionFacts.RedirectionOrder | src/parser/pipelines.rs:160-276 | the two orders of one input and one output redirection give the same pipeline |
| RedirectionFacts.BoundInputStops | src/parser/pipelines.rs:172-175 | a `<` after both streams are bound ends the scan with no error, and whatever follows is ignored |
| RedirectionFacts.BoundOutputStops | src/parser/pipelines.rs:227-230 | a `>` after both streams are bound (`cmd > out < in > ...`) ends the scan with no error: the job before the operator, both names, and whatever follows ignored |
| RedirectionFacts.GluedBoundInputStops | src/parser/pipelines.rs:200-207 | in `cmd < in > out<...` the glued `<` binds standard output to `out` and ends the scan with no error, whatever follows |
| RedirectionFacts.GluedBoundOutputStops | src/parser/pipelines.rs:255-262 | in `cmd > out < in>...` the glued `>` binds standard input to `in` and ends the scan with no error, whatever follows |
| RedirectionFacts.MissingOutputAtEnd | src/parser/pipelines.rs:161-166 | a statement ending in `>` writes the `'>'` message |
| RedirectionFacts.MissingOutput | src/parser/pipelines.rs:218 | `>` followed by one byte and then only blanks and `\|` writes the `'>'` message |
| RedirectionFacts.MissingOutputBeforeLess | src/parser/pipelines.rs:196-199 | `<` where the output name should be writes the `'>'` message and ends the scan |
| RedirectionFacts.MissingInput | src/parser/pipelines.rs:273 | `<` followed by only blanks and `\|` writes the `'>'` message, not the `'<'` one |
| RedirectionFacts.MissingInputBeforeGreater | src/parser/pipelines.rs:251-254 | `>` where the input name should be writes the `'<'` message and ends the scan |
| RedirectionFacts.GluedInputNames | src/parser/pipelines.rs:255-266 | in `cmd < a>b` the `>` binds standard input to `a` and `b` is read as a second input name; it replaces `a` only when a blank or `\|` ends it |
| RedirectionFacts.GluedOutputAfterInput | src/parser/pipelines.rs:264 | `cmd <a>b` never binds standard output: standard input is `a`, or `b` when the statement ends with a blank or `\|` |
| RedirectionFacts.GluedInputAfterOutput | src/parser/pipelines.rs:200-211 | `cmd >p b<a` binds standard output to `b` and standard input to `a` |
| RedirectionFacts.GluedWordDropped | src/parser/pipelines.rs:111-113 | a word glued to an operator, as in `cat>out`, is not among the arguments |
| RedirectionFacts.JobsBeforeSeparator | src/parser/pipelines.rs:149-150 | jobs closed by `\|` or `&` before a redirection are kept: the first job, then the jobs of the rest |

## Left out

- The `command` field of `Job`: it is filled by `Job::new` in `parser::peg`, which is not part of this model. A job is its arguments and its background flag.
- `String::from_utf8_unchecked`: file names and arguments stay byte sequences, and UTF-8 validity is not modelled. The test in `next` for a byte other than whitespace is read on bytes. That reading is equivalent, because no byte of a multi-byte UTF-8 sequence is ASCII whitespace.
- `white_pos`: it is written in `next` but never read.
- The Rust iterator protocol, lifetimes and borrowing: `next` is a method that returns an `Option`, and `for args in` is a loop that calls it until it yields nothing.
- `collect`'s `&mut` parameters: the model passes them in and returns them. The function has no other reference to them, so nothing is lost.
- `parser::peg::parse` and `flow_control::Statement`, which the tests call, are not part of this model. The `lone_comment` test depends on comment handling in that caller.
- Quoting.QuotedArgument: the theorem is stated only for some statements:
  - the words before the quote have no quote, escape, `$`, separator or redirection;
  - the span holds no quote or backslash;
  - the statement ends at the closing quote.
- TokenStatements.TokensParse: the theorem is stated for statements of blank-separated tokens only.
  - Every token but the last must leave the register clear; the last must only never separate.
  - Statements that mix quoted tokens with `|`, `&` or redirections are not covered by one theorem.
  - The `Tokens` shape lemmas cover quoted spans without quotes or backslashes inside and `$(...)` without `)`, quotes or backslashes inside. Other quoted and escaped tokens have to be shown tokens byte by byte with `Tokens.Concat`.
- RedirectionFacts.OutputRedirect: this and the other whole-statement redirection theorems have two limits.
  - The bytes before the first operator must be plain: no quote, backslash, `$`, `<` or `>`. Separators are allowed.
  - A name is built from bytes other than blanks, `|`, `\`, `<` and `>`. The code would also take a `>` inside an output name and a `<` inside an input name. A backslash in a name is covered separately by `Redirections.EscapeInName`.
- PlainStatements.SingleJob, PlainStatements.BlankRunsCollapse, PlainStatements.Spaced and PlainStatements.BackgroundJob are stated for plain statements without separators. `PlainStatements.SeparatorSplits` covers separators.

## Behaviour that follows the code rather than its documentation

- The doc comment at `src/parser/pipelines.rs:16` says the iterator splits a command on `;`. The code never looks at `;`: it yields the whole trimmed statement at most once. The model follows the code (`Trimmer.Trim`, `Trimmer.YieldsAtMostOnce`).
- A pipeline is pushed even when the statement wrote an error (line 288). See `SplitterFacts.CollectAppends` and `Collect.Collect`.
- `&` closes a job as background, but scanning goes on after it (lines 115-128 and 150). See `PlainStatements.SeparatorSplits`.
- A `>` that ends an input name runs the Stdin arm again (line 264). So `cmd <a>b` reads `b` as a second input name and binds no standard output. The model keeps that behaviour (`Redirections.ReenterInput`, `RedirectionFacts.GluedOutputAfterInput`).
- `redir_check!` writes the `'>'` message for a missing input name too (lines 98 and 273). See `RedirectionFacts.MissingInput`.

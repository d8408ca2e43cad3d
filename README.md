# pam_captcha in Dafny

A model of the captcha engine of `pam_captcha`, a PAM authentication module
that asks the user to solve a visual text challenge before any other
authentication step runs. The model covers:

- the registry of challenges (`all_captchas`) and `init_captcha_list`, which
  turns the module's option tokens into the list of challenges to choose from
  (a growable array that doubles when full);
- the selection and outcome logic of `pam_sm_authenticate`: one challenge is
  picked with `rand() % num_captchas`, its result is returned unchanged, and
  a failure is preceded by a three-second pause;
- `math_captcha`: two operands in [100, 1099] and an operator from `"+-*"`,
  the reply read with `atoi` and compared with the value of the expression;
- `randomstring_captcha`: eight characters drawn from the fixed alphabet, the
  reply compared byte for byte;
- the rendering adapter `figlet`: the command line formatted into a
  10240-byte buffer, the renderer's output read into it in 1024-byte chunks,
  and the buffer cut at each newline into the lines shown to the user.

Inputs from outside the module are parameters:

- `rand: nat -> nat` is the stream of `rand()` results, `rand(i)` being the
  i-th call of the attempt. Call 0 selects the challenge. The arithmetic
  challenge then uses calls 1-3 and its font call 4. The string challenge
  uses calls 1-8 and its font call 9.
- `shell: string -> string` maps the command line given to `popen` to the
  bytes the command prints.
- `reply` is the bytes of the answer the PAM conversation returns. Both
  challenges read it only up to its first NUL, as `atoi` and `strcmp` do.

Imperative code is modelled imperatively, with arrays and loop invariants:
`Registry.InitCaptchaList`, `RandomString.GenerateKey`, `Figlet.ReadOutput`
and `Figlet.ShowLines`, the last of which writes NULs over newlines in place.
`InitCaptchaList`, `GenerateKey` and `ShowLines` are proved equal to the
specification functions `Registry.Filter`, `RandomString.KeyOf` and
`Figlet.Lines`. `Figlet.ReadOutput` is specified by the buffer it leaves:
the output and a terminator when it fits, the bytes after them unchanged.
The adapter `Figlet.Figlet` is proved equal to `Figlet.Display`, the two
challenges' `Run` methods to their `Expected` functions, and
`Authenticate.Authenticate` to `Authenticate.Expected` for the whole attempt.

Where the module's documented intent and its code differ, the model follows
the code:

- The alphabet contains `O` (it leaves out `I`, `L`, `i`, `l` and `o`).
- When the renderer's output does not fit the buffer, `figlet` returns and
  shows nothing, but the challenge still prompts and judges the reply. No
  error is reported.
- A reply with no number in it is read as 0. It therefore passes a
  subtraction of two equal operands (`MathCaptcha.NonNumericReply`).
- `pam_sm_authenticate` never reports an error of its own. With an empty
  challenge list it divides by zero (see Findings). The corrected model
  returns `PAM_SERVICE_ERR` there, with no pause.

## Model

| member | source | states |
|---|---|---|
| Libc.Atoi | pam_captcha.c:242 | `atoi`: skip leading white space, read an optional sign, then the longest run of digits; 0 when there is none |
| Libc.Decimal | pam_captcha.c:239 | the `%d` conversion: an optional minus sign and the decimal digits of the magnitude, never empty |
| Libc.AtoiDecimal | pam_captcha.c:242 | `atoi` reads back every number printed in decimal, so typing the answer out is read as the answer |
| Libc.AtoiNonNumeric | pam_captcha.c:242 | a reply with no digit after its white space and optional sign is read as 0 |
| Libc.NatDecimalLength | pam_captcha.c:239 | a number below 10^k is printed with at most k digits |
| Libc.CStringOfTerminated | pam_captcha.c:263-267 | a buffer holding a text followed by a NUL holds that text as its C string, whatever follows the terminator |
| Registry.Lookup | pam_captcha.c:96-103 | the registry row an option names, if any, and that no row is named otherwise |
| Registry.Matches | pam_captcha.c:123-129 | the inner loop over the registry: the challenge of every row whose name equals the option, in table order |
| Registry.Filter | pam_captcha.c:118-129 | the outer loop over the options: for each option in turn, what the registry scan appends |
| Registry.MatchesAllCaptchas | pam_captcha.c:123-129 | scanning the registry for one option yields the one challenge `Lookup` gives, or nothing |
| Registry.UniqueMatchPrefix | pam_captcha.c:123-129 | while the registry is scanned, at most one row has matched, and none before a matching row |
| Registry.FilterLength | pam_captcha.c:118-129 | the list never holds more challenges than there are options |
| Registry.FilterAppend | pam_captcha.c:118-129 | the list for two runs of options is the two lists in order |
| Registry.FilterSingle | pam_captcha.c:121-128 | one option contributes its challenge when registered and nothing otherwise |
| Registry.FilterSkipsUnknown | pam_captcha.c:123-128 | removing an unknown option does not change the list |
| Registry.FilterOfRegistered | pam_captcha.c:118-129 | with only registered options, the list has one challenge per option, in option order: the one that option names |
| Registry.FilterWeight | pam_captcha.c:118-129 | a challenge occurs in the list exactly as often as its name occurs among the options |
| Registry.FilterEmpty | pam_captcha.c:118-129 | the list is empty exactly when no option names a registered challenge |
| Registry.FilterOnlyConfigured | pam_captcha.c:118-129 | every challenge in the list was named by an option |
| Registry.Grow | pam_captcha.c:130-136 | doubling keeps the old entries and clears the new half |
| Registry.InitCaptchaList | pam_captcha.c:105-139 | the array holds the filtered list, the count is at most the number of options, is below the capacity, and the capacity is at least 10 with empty slots after the count |
| Figlet.FontAt | pam_captcha.c:150 | the drawn font is one of the two fonts |
| Figlet.CommandLine | pam_captcha.c:157 | the `sprintf` format: the PATH prefix, `figlet -f` with the font, and the key in single quotes after `--` |
| Figlet.Lines | pam_captcha.c:171-180 | what the splitter shows: the text up to each newline, in order, and a last line without a newline as well; nothing for empty text |
| Figlet.LinesHaveNoNewline | pam_captcha.c:171-180 | no shown line contains a newline, and each is made of the output's characters |
| Figlet.UnlinesLines | pam_captcha.c:171-180 | joining the shown lines, each followed by a newline, rebuilds the output, with a final newline added when it lacked one |
| Figlet.LinesUnlines | pam_captcha.c:171-180 | lines without newlines joined and split again give the same lines |
| Figlet.SplitAsWritten | pam_captcha.c:171-180 | the splitting loop as written: the line up to each newline, stopping after a newline followed by the terminator, and a fault when no newline is found |
| Figlet.SplitAsWrittenFaults | pam_captcha.c:171-180 | the splitter as written dereferences NULL exactly when the text is empty or lacks a final newline, and otherwise shows the lines |
| Figlet.SplitAsWrittenCounterexample | pam_captcha.c:174-175 | output `" _\n\|_"` and empty output both reach the NULL dereference |
| Figlet.CommandBuffer | pam_captcha.c:154-157 | the buffer as `calloc` and `sprintf` leave it: the command line, then NULs up to 10240 bytes |
| Figlet.ReadAsWritten | pam_captcha.c:159-169 | the read loop as written: 1024-byte reads at offset `i` whatever room is left, the size check after the write, end of file at the first short read |
| Figlet.ReadAsWrittenOutcome | pam_captcha.c:159-169 | the read loop as written writes past the buffer exactly when the output is longer than it, and otherwise lays the output over the buffer without a terminator |
| Figlet.ReadAsWrittenOverflow | pam_captcha.c:159-168 | output longer than the buffer makes the read at offset 10240 write past the buffer: by the rest of the output, at most 1024 bytes |
| Figlet.ReadAsWrittenFits | pam_captcha.c:159-169 | output that fits in the buffer is laid over what the buffer held, chunk by chunk, and nothing after it is changed |
| Figlet.ReadAsWrittenPastEnd | pam_captcha.c:162-168 | output of 10241 bytes makes the eleventh read write one byte past the buffer |
| Figlet.ReadAsWrittenResidue | pam_captcha.c:154-172 | when the renderer prints nothing, the buffer still holds the command line and that is the text the splitter walks |
| Figlet.ReadAsWrittenUnterminated | pam_captcha.c:159-174 | output of exactly 10240 bytes fills the buffer and leaves no terminator in it |
| Figlet.Display | pam_captcha.c:141-184 | what the adapter shows: the lines of the C string of the renderer's output, or nothing when the output does not fit the buffer |
| Figlet.DisplayIsOutput | pam_captcha.c:141-184 | shown lines hold no newline and no NUL; for NUL-free newline-terminated output that fits, they rebuild it; output that does not fit shows nothing |
| Figlet.Sprintf | pam_captcha.c:157 | the command line and its terminator are at the start of the buffer, the rest unchanged |
| Figlet.ReadOutput | pam_captcha.c:159-169 | the output is kept exactly when it fits with its terminator; then the buffer holds it, a NUL, and the bytes after them unchanged; otherwise the buffer holds the first 10240 bytes of the output |
| Figlet.FindNewline | pam_captcha.c:174 | the first newline or terminator at or after the start position |
| Figlet.LinesFrom | pam_captcha.c:173-178 | the first line from a position ends at the next newline, and the lines after it start past that newline; with no newline left, the rest is the last line |
| Figlet.LinesAdvance | pam_captcha.c:173-180 | one turn of the splitting loop shows the next line and leaves the lines after it still to show |
| Figlet.SplitStep | pam_captcha.c:174-175 | the newline or terminator found in the buffer lies within its C string, and overwriting a newline with a NUL cuts it off |
| Figlet.CutLine | pam_captcha.c:174-176 | the line shown is the C string's text from the start position up to the next newline, and that newline alone is overwritten with a NUL |
| Figlet.NextLine | pam_captcha.c:173-180 | one turn shows the next line and moves past its newline; the walk stops only at the end of the text |
| Figlet.ShowLines | pam_captcha.c:171-180 | the lines shown are the newline-separated lines of the buffer's C string, in order, and every newline in it is overwritten by a NUL |
| Figlet.Figlet | pam_captcha.c:141-184 | what is shown is what `Display` gives for the drawn font |
| MathCaptcha.Generate | pam_captcha.c:233-237 | both operands are in [100, 1099] and the operator is one of `+`, `-`, `*` |
| MathCaptcha.GenerateReachesAll | pam_captcha.c:233-237 | every such expression is drawn by some `rand()` results |
| MathCaptcha.Answer | pam_captcha.c:244-248 | for a drawn expression the answer lies in [-999, 1207801], so it fits in a 32-bit `int` |
| MathCaptcha.Text | pam_captcha.c:239 | the rendered expression `"%d %c %d"` |
| MathCaptcha.TextLength | pam_captcha.c:239 | the rendered expression is at most 11 characters long |
| MathCaptcha.Verdict | pam_captcha.c:242-253 | the reply passes exactly when `atoi` of it equals the answer |
| MathCaptcha.VerdictOnDecimal | pam_captcha.c:242-253 | a reply spelling a number passes exactly when the number is the answer |
| MathCaptcha.NonNumericReply | pam_captcha.c:242-253 | a reply with no number passes exactly when the expression is a subtraction of equal operands |
| MathCaptcha.Expected | pam_captcha.c:231-254 | the outcome of the arithmetic challenge: the verdict on the reply for the drawn expression, and the lines its rendering shows |
| MathCaptcha.Run | pam_captcha.c:231-254 | the challenge yields the verdict on the reply and the rendered expression |
| MathCaptcha.ExampleAddition | pam_captcha.c:231-254 | 314 + 527 is drawn by the results 0, 214, 427, and `"841"` passes while `"840"` is denied |
| RandomString.AlphabetLetters | pam_captcha.c:86 | every character of the alphabet is a letter other than `I`, `L`, `i`, `l` and `o` |
| RandomString.AlphabetIsKeyChars | pam_captcha.c:86 | a character is in the alphabet exactly when it is a letter other than `I`, `L`, `i`, `l` and `o` |
| RandomString.AlphabetContents | pam_captcha.c:86 | `I`, `L`, `i`, `l`, `o` are not in the alphabet and `O` is; no digit, NUL, `%` or quote is |
| RandomString.KeyOf | pam_captcha.c:263-264 | a key has 8 characters, each a letter other than `I`, `L`, `i`, `l` and `o` |
| RandomString.KeyOfDraws | pam_captcha.c:263-264 | each draw below 47 picks the alphabet letter at that position |
| RandomString.KeyReachesAll | pam_captcha.c:263-264 | every 8-character string over the alphabet is a key some draws produce |
| RandomString.GenerateKey | pam_captcha.c:258-265 | the array holds the drawn key followed by a NUL at index 8 |
| RandomString.Verdict | pam_captcha.c:270-271 | `strcmp`: the reply, read up to its first NUL, must be the key |
| RandomString.VerdictExact | pam_captcha.c:270-271 | a reply passes exactly when, up to its first NUL, it has the key's length and equals it at every position, case included; a NUL-free reply must equal the key |
| RandomString.Expected | pam_captcha.c:257-276 | the outcome of the string challenge: the verdict on the reply for the drawn key, and the lines its rendering shows |
| RandomString.Run | pam_captcha.c:257-276 | the challenge yields the verdict on the reply and the rendered key |
| RandomString.ExampleKey | pam_captcha.c:263-264 | the draws 25, 20, 36, 22, 39, 11, 26, 7 give the key `bWpYsNcH` |
| RandomString.ExampleWrongCase | pam_captcha.c:263-271 | the key `bWpYsNcH` can be drawn, and the reply `bwpysnch` is denied |
| RandomString.ExampleNulInReply | pam_captcha.c:270-271 | the reply `bWpYsNcH`, a NUL and `x` passes for the key `bWpYsNcH`, since `strcmp` stops at the NUL |
| Authenticate.SelectAsWritten | pam_captcha.c:306 | the selection as written divides by zero exactly when the list is empty, and otherwise picks a listed challenge |
| Authenticate.EmptyListDividesByZero | pam_captcha.c:304-306 | options naming no registered challenge make the selection as written divide by zero |
| Authenticate.Select | pam_captcha.c:306-307 | nothing is picked exactly when the list is empty, and otherwise a listed challenge is |
| Authenticate.SelectReachesAll | pam_captcha.c:306 | every list entry is picked by the draw equal to its position |
| Authenticate.SelectionWeight | pam_captcha.c:306 | of the `num_captchas` residues of `rand()`, as many pick a challenge as there are options naming it |
| Authenticate.RunChallenge | pam_captcha.c:307 | `captchas[r](...)`: the picked challenge runs on the draws after the selection |
| Authenticate.Expected | pam_captcha.c:304-317 | the whole attempt: a service error for an empty list, otherwise the picked challenge's result, with the pause exactly when it is not a success |
| Authenticate.RunChallengeResult | pam_captcha.c:307 | a challenge only passes or denies |
| Authenticate.ExpectedOutcome | pam_captcha.c:304-317 | the attempt is a service error exactly when no option names a challenge, and then shows nothing and does not pause; otherwise it pauses exactly when denied |
| Authenticate.ChoiceIsConfigured | pam_captcha.c:306-307 | the challenge that runs was named by an option |
| Authenticate.MathOnly | pam_captcha.c:304-317 | with only `math` configured, the attempt passes exactly when `atoi` of the reply is the drawn expression's value |
| Authenticate.Authenticate | pam_captcha.c:283-318 | the attempt yields the result, the pause and the lines `Expected` gives |
| Authenticate.ExampleMathAttempt | pam_captcha.c:283-318 | with `math` configured and 314 + 527 drawn, `"841"` passes without a pause and `"840"` is denied after one |

## Left out

- The PAM conversation (`pamvprompt`, `pamprompt`, `paminfo`) and `pam_get_item`/`pam_set_item` are foreign calls. The reply is an input string, and the lines shown are returned as a sequence.
- `popen`, `pclose` and the renderer itself are a subprocess. They are the `shell` parameter, mapping the command line to the captured output.
- `srand(time(NULL))` and the generator behind `rand()` are an entropy source. The draws are the `rand` parameter. The reseeding inside `figlet` comes after the last draw of an attempt, so it changes nothing the model observes.
- `syslog`, `openlog` and `closelog` are I/O. `sleep(3)` is timing; the pause is the boolean `delayed`.
- `malloc`, `realloc`, `calloc` and `free` are memory management. The leaks (the list, `key`, the buffer on the early return, `resp` in `math_captcha`) are not modelled, and neither is the missing `pclose` on the early return.
- `vasprintf` is modelled only as far as the challenges use it: the `%d` conversion (`Libc.Decimal`) and the key passed through unchanged, since the alphabet has no `%`.
- `pam_sm_setcred`, `pam_sm_acct_mgmt`, `pam_sm_open_session`, `pam_sm_close_session` and `pam_sm_chauthtok` are constant returns with no logic.
- Libc.Atoi: does not model overflow of out-of-range numbers, which is undefined in C. A reply is at most a line of text from the user, and the answers are far inside `int`.
- A failed conversation leaves `resp` NULL in `math_captcha` (then passed to `atoi`) and uninitialized in `randomstring_captcha` (then passed to `strcmp` and `free`). Both are undefined behaviour. The reply is always a string.
- Figlet.Figlet: requires the command line to fit the buffer. The source's `sprintf` has no bound; the keys the two challenges pass are at most 11 characters.
- Authenticate.SelectionWeight: counts the residues of `rand()` that pick each challenge. The slight bias of `rand() % n` when `RAND_MAX + 1` is not a multiple of `n` is not modelled, because the draws are unbounded naturals.
- Figlet.ReadAsWritten: end of file is taken to be seen at the first short read. A read error is not modelled: `fread` then returns 0 while `feof` stays false, so `while (!feof(fp))` would loop forever.
- Figlet.ReadOutput: when the output does not fit, the adapter abandons the buffer and shows nothing, so no later use of its contents is modelled.
- The capture and the splitting are not checked against real renderer output. Any captured bytes are possible inputs.

## Findings

| source | as written | input that shows it | evidently intended | confidence | as-written member | corrected member |
|---|---|---|---|---|---|---|
| pam_captcha.c:173-180 | the pointer `strchr(bp, '\n')` returns is dereferenced without a NULL check, and the walk stops only at a newline followed by the terminator | renderer output `" _\n\|_"` (last line without a newline), or empty output | show a last line that has no newline, and show nothing for empty output | high, not executed | Figlet.SplitAsWrittenCounterexample | Figlet.ShowLines |
| pam_captcha.c:159-168 | each `fread` asks for 1024 bytes at `buffer + i` whatever room is left, and the size check comes after the write | renderer output of 10241 bytes: the eleventh read writes one byte past the 10240-byte buffer | read at most the room left and abandon output that does not fit | high, not executed | Figlet.ReadAsWrittenPastEnd | Figlet.ReadOutput |
| pam_captcha.c:154-172 | no terminator is written after the output, so the buffer still holds the command line after it | empty renderer output (figlet not installed): the splitter walks the command line instead | terminate the captured output so that only it is split | high, not executed | Figlet.ReadAsWrittenResidue | Figlet.ReadOutput |
| pam_captcha.c:159-174 | output of exactly the buffer's size passes the check `i > BUFFERSIZE` and leaves the buffer without a terminator | renderer output of 10240 bytes with no NUL | accept output only when it fits together with its terminator | high, not executed | Figlet.ReadAsWrittenUnterminated | Figlet.ReadOutput |
| pam_captcha.c:306 | `rand() % num_captchas` with no challenge configured divides by zero | module options `["foo"]`, or none | report a configuration error without pausing | high, not executed | Authenticate.EmptyListDividesByZero | Authenticate.ExpectedOutcome |

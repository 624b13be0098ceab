# AI Interview Assistant: verified model of the interview core

The AI Interview Assistant is a Streamlit script (`sprint_1/interview.py`) that runs a mock job interview. The user picks a role, a question count and a difficulty. An external completion service checks the role, writes the questions, screens each answer for unsafe content and grades the answers. The script then moves through three phases: setup, interviewing and finished.

This project models the script's own logic in Dafny and treats every reply of the completion service as an input. There are five parts:

- **Text** (`Text.dfy`): Python's `str.strip()` over the `str.isspace()` characters, `str.upper()` as far as it can produce an ASCII capital, and `str(n)`. A normalised reply equals a token exactly when the raw reply is that token, in any letter case, surrounded by white space.
- **Json** (`Json.dfy`): the value `json.loads` returns. It follows the Python facts the validator depends on: `isinstance(True, int)` holds, and `==` compares an `int` with a `bool` or a `float` by value.
- **Replies** (`Replies.dfy`): the three reply interpreters.
  - `check_role` gives the role, `""` or an error.
  - `check_answer_safety` short-circuits on blank input and reads SAFE, UNSAFE or anything else.
  - `generate_questions_openai` checks the reply's shape and slices the list.
- **Evaluation** (`Evaluation.dfy`): `evaluate_answers_openai`.
  - The input guard.
  - The transcript loop with its `--- NOT ANSWERED ---` marker.
  - The synthetic result returned when nothing was answered.
  - The field-by-field validator of the grading object, which names the first failing check.
- **Session** (`Session.dfy`): the session record as a class, `InterviewSession`. Its fields are updated in place by one method per phase handler:
  - Configure, Start, answer editing, Previous, Submit & Next or Finish, and End Early;
  - the finished-phase safety pass;
  - evaluation caching;
  - Start New Interview.

  The class invariant `Valid()` says that answers stay aligned with questions and that the index stays in range once an interview exists. It also says that a cached evaluation is always one the validator accepts.

`Scenarios.dfy` drives the class through three whole runs:

- a Data Analyst interview of three Easy questions;
- a finished interview whose single non-blank answer is flagged;
- a grading object without `overall_grade`, which is not cached.

Service replies are parameters:

- a text reply is `Option<string>`, where `None` means the request raised or the response had no message;
- a JSON reply is `Unavailable`, `Undecodable` or `Decoded(value)`.

Each session method stands for one run of the script after the named widget was used.

### Where the code does less than its own comments suggest

The model follows the code in each case.

- **Question count.** The comment at sprint_1/interview.py:149 says the list is made to have as many questions as requested. The code at line 150 only slices, with `questions[:n]`. A reply with fewer than n questions therefore yields a shorter, non-empty list (`Replies.WholeReplyWithinRequest`).
- **Failed safety checks.** The comment at sprint_1/interview.py:617 treats a failed check as potentially unsafe. The code only clears the all-safe flag for such an answer. Unlike an answer judged unsafe (line 613), the text is not replaced by the placeholder (`Session.InterviewSession.SafetyPass`).
- **Evaluation caching.** The test at sprint_1/interview.py:626 is `evaluation_results is None`. A failed evaluation leaves the cache at `None`, so the next run of the finished phase asks the service again. The evaluation is not computed just once per interview (`Session.InterviewSession.EnsureEvaluation`).

## Model

| member | source | states |
|---|---|---|
| `Text.Strip` | sprint_1/interview.py:51-52 | the result has no white space at either end; it is empty exactly when the input is all white space; otherwise it is the input minus its leading and trailing white space |
| `Text.StripUnique` | sprint_1/interview.py:51 | white space, then a trimmed middle, then white space strips to that middle, so the characterisation fixes `strip()` |
| `Text.StripIdempotent` | sprint_1/interview.py:51 | stripping twice is stripping once |
| `Text.UpperChar` | sprint_1/interview.py:51 | upper-casing never changes a white-space character |
| `Text.Upper` | sprint_1/interview.py:51 | a definition of `upper()`, not a property: it keeps the length and maps each character on its own with `UpperChar`; what matters about it is stated by `Text.NormalizeIsToken` |
| `Text.NormalizeIsToken` | sprint_1/interview.py:51-60 | with the modelled `upper()`, `reply.strip().upper()` equals an ASCII capital token exactly when the reply is the token in some letter case with white space around it (both directions). Python's full `upper()` differs for tokens such as "SS", since `"ß".upper() == "SS"`. The script compares only with VALID, INVALID, SAFE and UNSAFE, for which the `Text.UpperChar` line under "Left out" shows the two agree |
| `Text.NormalizedTokenIsPadded` | sprint_1/interview.py:51-55 | a reply that normalises to the token is the token, case-varied, between white space |
| `Text.PaddedTokenNormalizes` | sprint_1/interview.py:51-55 | a case-varied token between white space normalises to the token |
| `Text.CaseVariantTrimmed` | sprint_1/interview.py:51-55 | a case variant of a token starts and ends with a non-space character |
| `Text.Decimal` | sprint_1/interview.py:255 | `str(i+1)` is a non-empty run of decimal digits with no leading zero; it starts with `0` only for the number 0, and then it is exactly "0" |
| `Text.DecimalUnique` | sprint_1/interview.py:255 | every digit string with no leading zero is the `Decimal` of the number it reads as; with `Text.DecimalRoundTrip` this fixes `Decimal(n)` as the one such string for n |
| `Text.DecimalRoundTrip` | sprint_1/interview.py:255-260 | the question numbers written into the transcript read back as the numbers written |
| `Replies.CheckRole` | sprint_1/interview.py:50-70 | no reply gives an error; a reply that reads VALID gives the role unchanged; INVALID gives `""`; an empty or any other reply gives an error |
| `Replies.TokensExclusive` | sprint_1/interview.py:55-60 | no reply reads as two different tokens |
| `Replies.CheckRoleOutcomes` | sprint_1/interview.py:50-70 | the role check answers only with the role, `""` or an error; INVALID is always a rejection |
| `Replies.CheckAnswerSafety` | sprint_1/interview.py:173-234 | a blank answer is safe; otherwise no reply or an empty reply gives `None`, SAFE gives `Some(true)`, and UNSAFE or any other text gives `Some(false)` |
| `Replies.UnsafeVerdictFlags` | sprint_1/interview.py:222-224 | a non-blank answer with the reply UNSAFE, in any case and padding, is judged unsafe |
| `Replies.BlankAnswerIgnoresService` | sprint_1/interview.py:173-176 | for a blank answer the service's reply cannot change the verdict, which is safe |
| `Replies.ReplyQuestions` | sprint_1/interview.py:145-147 | the strings of a well-shaped `questions` list, in their order |
| `Replies.SliceLength` | sprint_1/interview.py:150 | the length of `s[:n]` is at most the length of `s`, and at most n for n ≥ 0 |
| `Replies.SlicePrefix` | sprint_1/interview.py:150 | a definition of Python's `s[:n]`, not a property: the prefix of `s` of length `SliceLength(n, len(s))`, negative n included; what the script relies on is stated by `Replies.GeneratedWithinRequest` and `Replies.WholeReplyWithinRequest` |
| `Replies.GenerateQuestions` | sprint_1/interview.py:136-167 | a failed request gives `None`; an undecodable reply or a wrong shape gives `[]`; a dict whose `questions` is a list of strings gives its first `min(n, len)` items |
| `Replies.GeneratedWithinRequest` | sprint_1/interview.py:143-150 | for n ≥ 0 the list is never longer than n; a non-empty list is a prefix of the reply's list; the list has exactly n items when the reply offered at least n |
| `Replies.WholeReplyWithinRequest` | sprint_1/interview.py:143-150 | a reply with no more than n questions is returned whole |
| `Evaluation.FirstBadItem` | sprint_1/interview.py:349-354 | the loop over the items stops at the first item that fails, and only when some item fails |
| `Evaluation.ValidateEvaluation` | sprint_1/interview.py:339-355 | the validator accepts exactly the well-formed grading objects; it names a non-object, a length mismatch with both lengths, and the first bad item |
| `Evaluation.Decode` | sprint_1/interview.py:339-355 | an accepted object reads as a grading with one item per question; any other value reads as nothing |
| `Evaluation.DecodeEncode` | sprint_1/interview.py:339-355 | every grading for its own question count is written as an object the validator accepts and reads back unchanged |
| `Evaluation.NoAnswerResultValid` | sprint_1/interview.py:264-274 | the synthetic result passes the validator; it grades every question 1 as "Not answered" with overall grade 1 |
| `Evaluation.AnyAnsweredStep` | sprint_1/interview.py:254-258 | one more pair sets the answered flag exactly when that answer has text after stripping |
| `Evaluation.AppendEntry` | sprint_1/interview.py:254-261 | one pass of the loop appends the question line and the stripped answer or the marker, and reports whether the answer had text |
| `Evaluation.BuildTranscript` | sprint_1/interview.py:251-261 | the loop builds the transcript of the zipped pairs and sets the flag exactly when some answer had text |
| `Evaluation.EvaluationResult` | sprint_1/interview.py:245-375 | any result passes the validator; bad input gives `None`; with nothing answered the synthetic result; otherwise the decoded reply exactly when the validator accepts it |
| `Evaluation.Evaluate` | sprint_1/interview.py:245-375 | returns that result, and sends the transcript to the service exactly when the input is good and something was answered |
| `Session.DefaultsConsistent` | sprint_1/interview.py:390-393 | the default role is one of the options and its role fields are consistent |
| `Session.ResolveRole` | sprint_1/interview.py:443-459 | the custom text is the stripped input for "Other..." and empty otherwise; the effective role is the option, the custom text, or "Other..." when that text is empty |
| `Session.RoleForStart` | sprint_1/interview.py:462-499 | Start is enabled, with the displayed role itself, exactly when a role is given, it is not "Other...", and the service said VALID |
| `Session.VerdictsFromService` | sprint_1/interview.py:605-617 | with `check_answer_safety`'s verdicts, the pass flags exactly the answers judged unsafe or unclear |
| `Session.TrueIndicesExact` | sprint_1/interview.py:604-611 | the collected indices are exactly the flagged positions, in increasing order |
| `Session.ScreenAnswer` | sprint_1/interview.py:606-617 | one step of the pass: blank answers are skipped; an unsafe verdict puts the placeholder in; a failed check keeps the text but is not clear |
| `Session.ScreenAll` | sprint_1/interview.py:603-617 | every slot is screened; the flagged positions are listed in order; all-safe holds exactly when every answer was cleared |
| `Session.PlaceholderNotBlank` | sprint_1/interview.py:614 | the placeholder is itself an answer with text |
| `Session.ScreeningKeepsAnswered` | sprint_1/interview.py:605-629 | the pass never turns an answered slot blank or a blank one answered, so it does not change whether anything was answered |
| `Session.InterviewSession.constructor` | sprint_1/interview.py:384-393 | the defaults of a fresh session, which satisfy the invariant |
| `Session.InterviewSession.Configure` | sprint_1/interview.py:405-459 | stores the count, complexity and option; the role fields are resolved; the invariant is kept |
| `Session.InterviewSession.Start` | sprint_1/interview.py:502-521 | no confirmed role leaves setup untouched; an empty list leaves the phase at setup; otherwise the interview begins with the generated list, empty answers, index 0 and no evaluation |
| `Session.InterviewSession.Begin` | sprint_1/interview.py:511-517 | a non-empty list starts the interview and keeps the invariant |
| `Session.InterviewSession.EditAnswer` | sprint_1/interview.py:556 | only the current slot changes, the lengths stay aligned |
| `Session.InterviewSession.Previous` | sprint_1/interview.py:569-572 | the index moves back only when it is above 0 |
| `Session.InterviewSession.SubmitNext` | sprint_1/interview.py:578-589 | on the last question the interview finishes; otherwise the index advances, and stays in range |
| `Session.InterviewSession.EndEarly` | sprint_1/interview.py:593-595 | finishes from any question and keeps the invariant |
| `Session.InterviewSession.SafetyPass` | sprint_1/interview.py:603-617 | each answer judged unsafe or unclear is replaced by the placeholder and no other slot changes; the flagged indices are listed in order; all-safe holds exactly when every answer was blank or judged safe |
| `Session.InterviewSession.EnsureEvaluation` | sprint_1/interview.py:626-651 | a cached evaluation is kept and nothing is sent; with nothing answered the synthetic result is stored without a request; otherwise the evaluator's result is stored, `None` on failure, and the transcript is what was sent |
| `Session.InterviewSession.Cache` | sprint_1/interview.py:633-651 | a stored result is always one the validator accepts for the session's questions |
| `Session.InterviewSession.StartNew` | sprint_1/interview.py:718-729 | resets phase, lists, index, evaluation, role fields and the count of 3, and keeps the complexity |
| `Scenarios.BareValidConfirms` | sprint_1/interview.py:55-57 | the bare reply VALID confirms any role that is given |
| `Scenarios.DataAnalystSetup` | sprint_1/interview.py:405-459 | choosing Data Analyst, 3 and Easy gives the effective role Data Analyst |
| `Scenarios.DataAnalystStart` | sprint_1/interview.py:502-518 | with VALID and a reply of exactly three questions, the interview starts with those questions, three empty answers and index 0 |
| `Scenarios.AnswerMiddleOnly` | sprint_1/interview.py:556-589 | answering "", a text and "" in turn finishes the interview with exactly those answers |
| `Scenarios.MiddleVerdicts` | sprint_1/interview.py:173-234 | only the non-blank answer depends on the service; the blank ones are safe whatever it would say |
| `Scenarios.MiddleFlagged` | sprint_1/interview.py:605-617 | with those verdicts only the middle slot is flagged |
| `Scenarios.FlaggedMiddleAnswer` | sprint_1/interview.py:603-617 | after the pass the answers are "", the placeholder and "", index 1 alone is listed, and the pass is not all-safe |
| `Scenarios.MalformedEvaluationNotCached` | sprint_1/interview.py:626-645 | a grading object without `overall_grade` is not cached, although the transcript was sent |

## Left out

- The completion-service requests, prompt texts and sampling parameters (`sprint_1/interview.py:19-48, 82-135, 178-212, 278-332`): these calls go over the network, so their replies are parameters here.
- `json.loads` itself: the decoded document is the `Json` datatype, and a decode failure is the `Undecodable` variant.
- Streamlit rendering: widgets, spinners, `st.rerun`, error and warning messages, the result display (`654-714`) and the sidebar are user interface. Each session method stands for one run of the script, and the rerun loop is not modelled.
- Session.InterviewSession.Configure: the selectbox default index (`405-422`) only chooses what the widget shows first, so the choice that comes back is a parameter. The `max_chars` caps of 50 and 1000 characters (`449, 552`) are enforced by the widgets, so any string is accepted here.
- The API-key check at startup (`7-14`): it is configuration and I/O.
- The progress bar (`542`): it is a floating-point display value.
- `print` logging throughout.
- The "about 20% generic questions first" rule and the protected-topic rules exist only as prompt text and are not checked locally.
- The defensive check of the interviewing phase (`534-537`): under the session invariant it can never fire (questions are non-empty and the index is in range), so it is not modelled.
- The `num_questions` and `role` parameters of `evaluate_answers_openai`: they are used only in the request, that is in the prompt, the system message (`role`, sprint_1/interview.py:323) and `max_tokens=200 * num_questions` (line 328).
- Session.InterviewSession.Start: when the generation request fails, the script stores `None` as the question list, while the model stores `[]`. The setup phase only tests the list's truthiness, so both behave the same.
- Session.InterviewSession.SafetyPass: it takes one verdict per answer rather than the service's replies. The verdicts are what `Replies.CheckAnswerSafety` computes, and `Session.VerdictsFromService` relates them. The verdict given for a blank answer is never used.
- Text.UpperChar: only the case mappings that can produce an ASCII capital are modelled (`a`-`z`, U+0131 and U+017F), and every other character is left unchanged. Replies are only compared with the ASCII tokens VALID, INVALID, SAFE and UNSAFE. Python's multi-character expansions such as `ß` to `SS` produce pairs like `SS`, `FF` or `FI`, and no pair of that kind can sit inside one of those four tokens.
- NaN and infinite numbers, which `json.loads` accepts: `Json` has no such floats. In Python they compare unequal to every integer, so a grading object that contains one in `question_index` is rejected either way.

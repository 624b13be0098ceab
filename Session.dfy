/**
 * The three-phase wizard (setup, interviewing, finished) and the session
 * record each phase reads and updates in place. Each method is one run of a
 * phase's block in which the named widget was used; the completion
 * service's replies are parameters.
 */
module Session {
  import opened Wrappers
  import opened Text
  import opened Json
  import opened Replies
  import opened Evaluation

  datatype Phase = Setup | Interviewing | Finished

  const RoleOptions: seq<string> := ["App Developer", "Data Analyst", "Big Data Engineer", "General", "Other..."]
  const OtherOption := "Other..."
  const DefaultRole := "App Developer"
  const Complexities: seq<string> := ["Easy", "Medium", "Hard"]
  const MinQuestions := 3
  const MaxQuestions := 10
  const FlaggedPlaceholder := "[Content Flagged as Unsafe]"

  /**
   * How `custom_role_input` and `effective_role` relate to the selected
   * option: the custom text is stripped and only kept for "Other...", where
   * an empty text leaves the effective role at "Other...".
   */
  predicate RoleFieldsConsistent(selected: string, custom: string, effective: string) {
    && Trimmed(custom)
    && (selected != OtherOption ==> custom == "" && effective == selected)
    && (selected == OtherOption ==> effective == (if custom == "" then OtherOption else custom))
  }

  /** The default role is one of the options, with no custom text. */
  lemma DefaultsConsistent()
    ensures DefaultRole in RoleOptions && "Medium" in Complexities
    ensures RoleFieldsConsistent(DefaultRole, "", DefaultRole)
  {
    assert RoleOptions[0] == DefaultRole && Complexities[1] == "Medium";
  }

  /** Lines 443-459: the custom role text and the effective role left by the role widgets. */
  function ResolveRole(selected: string, typed: string): (r: (string, string))
    ensures RoleFieldsConsistent(selected, r.0, r.1)
    ensures selected == OtherOption ==> r.0 == Strip(typed)
  {
    if selected == OtherOption then
      var custom := Strip(typed);
      (custom, if custom != "" then custom else OtherOption)
    else
      ("", selected)
  }

  /**
   * Lines 462-498: the role the Start button is enabled with, or "" when it
   * stays disabled (no role specified, role rejected, or the check failed).
   */
  function RoleForStart(displayRole: string, reply: Option<string>): (r: string)
    ensures r == "" || r == displayRole
    ensures r != "" <==> displayRole != OtherOption && displayRole != ""
                         && reply.Some? && PaddedToken(reply.value, "VALID")
  {
    if displayRole == OtherOption || displayRole == "" then ""
    else
      match CheckRole(displayRole, reply)
      case Some(checked) => checked
      case None => ""
  }

  /** What clicking Start led to. */
  datatype StartOutcome = RoleNotConfirmed | GenerationFailed | Started

  /**
   * The safety pass works on the verdicts of `check_answer_safety`, one per
   * answer: `Some(true)` safe, `Some(false)` unsafe or unclear, `None` when
   * the check failed. The verdict of a blank answer is never asked for.
   */
  predicate Flagged(answer: string, verdict: Option<bool>) {
    !IsBlank(answer) && verdict == Some(false)
  }

  /** An answer the pass lets through without doubt: blank, or judged safe. */
  predicate Cleared(answer: string, verdict: Option<bool>) {
    IsBlank(answer) || verdict == Some(true)
  }

  /** The answer slot after the safety pass. */
  function Screened(answer: string, verdict: Option<bool>): string {
    if Flagged(answer, verdict) then FlaggedPlaceholder else answer
  }

  /** With verdicts from `check_answer_safety`, the pass flags exactly the answers the check calls unsafe or unclear. */
  lemma VerdictsFromService(answer: string, reply: Option<string>)
    ensures Flagged(answer, CheckAnswerSafety(answer, reply)) <==> CheckAnswerSafety(answer, reply) == Some(false)
    ensures Cleared(answer, CheckAnswerSafety(answer, reply)) <==> CheckAnswerSafety(answer, reply) == Some(true)
  {
  }

  /** The positions among the first `k` that hold `true`, in order. */
  function TrueIndices(flags: seq<bool>, k: nat): seq<nat>
    requires k <= |flags|
  {
    if k == 0 then [] else TrueIndices(flags, k - 1) + (if flags[k - 1] then [k - 1] else [])
  }

  /** One more position extends the list by that position when it holds `true`. */
  lemma TrueIndicesStep(flags: seq<bool>, i: nat)
    requires i < |flags|
    ensures TrueIndices(flags, i + 1) == TrueIndices(flags, i) + (if flags[i] then [i] else [])
  {
  }

  /** `TrueIndices` lists exactly the `true` positions below `k`, in increasing order. */
  lemma {:induction false} TrueIndicesExact(flags: seq<bool>, k: nat)
    requires k <= |flags|
    ensures forall i: nat :: i in TrueIndices(flags, k) <==> i < k && flags[i]
    ensures forall x, y :: 0 <= x < y < |TrueIndices(flags, k)| ==> TrueIndices(flags, k)[x] < TrueIndices(flags, k)[y]
    ensures forall x :: 0 <= x < |TrueIndices(flags, k)| ==> TrueIndices(flags, k)[x] < k
  {
    if k > 0 {
      TrueIndicesExact(flags, k - 1);
    }
  }

  /** Which answers the safety pass flags. */
  function FlagsOf(answers: seq<string>, verdicts: seq<Option<bool>>): (flags: seq<bool>)
    requires |verdicts| == |answers|
    ensures |flags| == |answers|
    ensures forall i :: 0 <= i < |flags| ==> flags[i] == Flagged(answers[i], verdicts[i])
  {
    seq(|answers|, i requires 0 <= i < |answers| => Flagged(answers[i], verdicts[i]))
  }

  /**
   * One step of the safety pass: a blank answer is skipped, an answer judged
   * unsafe or unclear is replaced by the placeholder, and a failed check
   * leaves the answer but makes the pass not all-safe.
   */
  method ScreenAnswer(answer: string, verdict: Option<bool>) returns (text: string, flagged: bool, cleared: bool)
    ensures text == Screened(answer, verdict)
    ensures flagged == Flagged(answer, verdict)
    ensures cleared == Cleared(answer, verdict)
  {
    text, flagged, cleared := answer, false, true;
    assert answer == "" ==> IsBlank(answer);
    if answer != "" && !IsBlank(answer) {
      if verdict == Some(false) {
        text, flagged, cleared := FlaggedPlaceholder, true, false;
      } else if verdict.None? {
        cleared := false;
      } else {
        assert verdict.Some? && verdict.value;
        assert verdict == Some(true);
      }
    }
  }

  /**
   * The loop of the safety pass over a list of answers: each answer is
   * screened in order, the flagged positions are collected in order, and the
   * pass is all-safe when every answer was cleared.
   */
  method ScreenAll(answers: seq<string>, verdicts: seq<Option<bool>>) returns (screened: seq<string>, allSafe: bool, unsafeIndices: seq<nat>)
    requires |verdicts| == |answers|
    ensures |screened| == |answers|
    ensures forall k :: 0 <= k < |answers| ==> screened[k] == Screened(answers[k], verdicts[k])
    ensures unsafeIndices == TrueIndices(FlagsOf(answers, verdicts), |answers|)
    ensures allSafe <==> forall k :: 0 <= k < |answers| ==> Cleared(answers[k], verdicts[k])
  {
    allSafe := true;
    unsafeIndices := [];
    ghost var flags := FlagsOf(answers, verdicts);
    screened := answers;
    var i := 0;
    while i < |screened|
      invariant 0 <= i <= |screened| == |answers|
      invariant forall k :: 0 <= k < i ==> screened[k] == Screened(answers[k], verdicts[k])
      invariant forall k :: i <= k < |screened| ==> screened[k] == answers[k]
      invariant unsafeIndices == TrueIndices(flags, i)
      invariant allSafe <==> forall k :: 0 <= k < i ==> Cleared(answers[k], verdicts[k])
    {
      var text, flagged, cleared := ScreenAnswer(screened[i], verdicts[i]);
      assert flagged == flags[i];
      TrueIndicesStep(flags, i);
      if flagged {
        unsafeIndices := unsafeIndices + [i];
      }
      allSafe := allSafe && cleared;
      screened := screened[i := text];
      i := i + 1;
    }
  }

  /** The placeholder is itself an answer with text. */
  lemma PlaceholderNotBlank()
    ensures !IsBlank(FlaggedPlaceholder)
  {
    assert !IsSpace(FlaggedPlaceholder[0]);
  }

  /**
   * The safety pass never turns an answered question into an unanswered one
   * or back: whether anything was answered is the same before and after.
   */
  lemma ScreeningKeepsAnswered(answers: seq<string>, verdicts: seq<Option<bool>>, screened: seq<string>)
    requires |verdicts| == |answers| == |screened|
    requires forall i :: 0 <= i < |answers| ==> screened[i] == Screened(answers[i], verdicts[i])
    ensures forall i :: 0 <= i < |answers| ==> (IsBlank(screened[i]) <==> IsBlank(answers[i]))
    ensures AnyAnswered(screened, |screened|) <==> AnyAnswered(answers, |answers|)
  {
    PlaceholderNotBlank();
    forall i | 0 <= i < |answers|
      ensures IsBlank(screened[i]) <==> IsBlank(answers[i])
    {
      if Flagged(answers[i], verdicts[i]) {
        assert !IsBlank(answers[i]);
      }
    }
  }

  class InterviewSession {
    var phase: Phase
    var questions: seq<string>
    var answers: seq<string>
    var currentIndex: int
    var evaluation: Option<Json>
    var numQuestionsSelected: int
    var complexity: string
    var selectedOption: string
    var customRoleInput: string
    var effectiveRole: string

    /**
     * The session invariant: answers stay aligned with questions and the
     * index in range once questions exist; setup holds no interview; a
     * cached evaluation exists only when finished and always passes the
     * validator; the question list is never longer than the selected count.
     */
    ghost predicate Valid()
      reads this
    {
      && MinQuestions <= numQuestionsSelected <= MaxQuestions
      && complexity in Complexities
      && selectedOption in RoleOptions
      && RoleFieldsConsistent(selectedOption, customRoleInput, effectiveRole)
      && (phase == Setup ==> questions == [] && answers == [] && currentIndex == 0 && evaluation.None?)
      && (phase != Setup ==> 0 < |questions| && |answers| == |questions| && 0 <= currentIndex < |questions|)
      && |questions| <= numQuestionsSelected
      && (evaluation.Some? ==> phase == Finished && WellFormedEvaluation(evaluation.value, |questions|))
    }

    /** Lines 384-393: the defaults of a fresh session. */
    constructor ()
      ensures Valid()
      ensures phase == Setup && questions == [] && answers == [] && currentIndex == 0 && evaluation.None?
      ensures numQuestionsSelected == 5 && complexity == "Medium"
      ensures selectedOption == DefaultRole && customRoleInput == "" && effectiveRole == DefaultRole
    {
      DefaultsConsistent();
      phase := Setup;
      questions := [];
      answers := [];
      currentIndex := 0;
      evaluation := None;
      numQuestionsSelected := 5;
      complexity := "Medium";
      selectedOption := DefaultRole;
      customRoleInput := "";
      effectiveRole := DefaultRole;
    }

    /**
     * Lines 405-459: the count, role and complexity widgets of the setup
     * phase, with `typed` the text of the custom role field.
     */
    method Configure(numSelected: int, complexityChoice: string, option: string, typed: string)
      requires Valid() && phase == Setup
      requires MinQuestions <= numSelected <= MaxQuestions
      requires complexityChoice in Complexities && option in RoleOptions
      modifies this`numQuestionsSelected, this`complexity, this`selectedOption,
               this`customRoleInput, this`effectiveRole
      ensures Valid()
      ensures numQuestionsSelected == numSelected && complexity == complexityChoice && selectedOption == option
      ensures (customRoleInput, effectiveRole) == ResolveRole(option, typed)
    {
      numQuestionsSelected := numSelected;
      selectedOption := option;
      complexity := complexityChoice;
      if option == OtherOption {
        customRoleInput := Strip(typed);
      } else {
        customRoleInput := "";
      }
      if option == OtherOption {
        effectiveRole := if customRoleInput != "" then customRoleInput else OtherOption;
      } else {
        effectiveRole := option;
      }
      assert (customRoleInput, effectiveRole) == ResolveRole(option, typed);
    }

    /**
     * Lines 462-521: a click on Start. The role is confirmed with
     * `roleReply`; then the questions come from `questionsReply`. With a
     * non-empty list the interview begins at question 0 with empty answers.
     */
    method Start(roleReply: Option<string>, questionsReply: JsonReply) returns (outcome: StartOutcome)
      requires Valid() && phase == Setup
      modifies this`phase, this`questions, this`answers, this`currentIndex, this`evaluation
      ensures Valid()
      ensures outcome == RoleNotConfirmed <==> RoleForStart(effectiveRole, roleReply) == ""
      ensures outcome == Started <==>
                RoleForStart(effectiveRole, roleReply) != ""
                && GenerateQuestions(numQuestionsSelected, questionsReply).GetOr([]) != []
      ensures outcome == Started ==>
                && questions == GenerateQuestions(numQuestionsSelected, questionsReply).value
                && answers == seq(|questions|, _ => "")
                && currentIndex == 0 && evaluation.None? && phase == Interviewing
      ensures outcome != Started ==>
                phase == Setup && questions == old(questions) && answers == old(answers)
                && currentIndex == old(currentIndex) && evaluation == old(evaluation)
    {
      var finalRole := RoleForStart(effectiveRole, roleReply);
      if finalRole == "" {
        return RoleNotConfirmed;
      }
      var generated := GenerateQuestions(numQuestionsSelected, questionsReply).GetOr([]);
      if generated != [] {
        GeneratedWithinRequest(numQuestionsSelected, questionsReply);
        Begin(generated);
        outcome := Started;
      } else {
        questions := generated;
        outcome := GenerationFailed;
      }
    }

    /** Lines 511-517: a non-empty question list starts the interview at question 0 with empty answers. */
    method Begin(generated: seq<string>)
      requires Valid() && phase == Setup
      requires 0 < |generated| <= numQuestionsSelected
      modifies this`phase, this`questions, this`answers, this`currentIndex, this`evaluation
      ensures Valid()
      ensures questions == generated && answers == seq(|generated|, _ => "")
      ensures currentIndex == 0 && evaluation.None? && phase == Interviewing
    {
      questions := generated;
      answers := seq(|questions|, _ => "");
      currentIndex := 0;
      evaluation := None;
      phase := Interviewing;
    }

    /** Line 556: the text area's content is stored in the current slot, and only there. */
    method EditAnswer(text: string)
      requires Valid() && phase == Interviewing
      modifies this`answers
      ensures Valid()
      ensures |answers| == |old(answers)| && answers[currentIndex] == text
      ensures forall k :: 0 <= k < |answers| && k != currentIndex ==> answers[k] == old(answers)[k]
    {
      answers := answers[currentIndex := text];
    }

    /** Lines 569-572: Previous is offered only after the first question. */
    method Previous()
      requires Valid() && phase == Interviewing
      modifies this`currentIndex
      ensures Valid()
      ensures currentIndex == if old(currentIndex) > 0 then old(currentIndex) - 1 else old(currentIndex)
    {
      if currentIndex > 0 {
        currentIndex := currentIndex - 1;
      }
    }

    /** Lines 578-589: Submit & Next moves on; on the last question the button finishes the interview. */
    method SubmitNext()
      requires Valid() && phase == Interviewing
      modifies this`phase, this`currentIndex
      ensures Valid()
      ensures old(currentIndex) == |questions| - 1 ==> phase == Finished && currentIndex == old(currentIndex)
      ensures old(currentIndex) < |questions| - 1 ==> phase == Interviewing && currentIndex == old(currentIndex) + 1
    {
      if currentIndex == |questions| - 1 {
        phase := Finished;
      } else {
        currentIndex := currentIndex + 1;
      }
    }

    /** Lines 593-595: End Early finishes from any question. */
    method EndEarly()
      requires Valid() && phase == Interviewing
      modifies this`phase
      ensures Valid() && phase == Finished
    {
      phase := Finished;
    }

    /**
     * Lines 603-617: every non-blank answer is checked, `verdicts[i]` being
     * what `check_answer_safety` says of answer i; an answer judged unsafe or
     * unclear is overwritten with the placeholder. `allSafe` is false when
     * some answer was flagged or could not be checked.
     */
    method SafetyPass(verdicts: seq<Option<bool>>) returns (allSafe: bool, unsafeIndices: seq<nat>)
      requires Valid() && phase == Finished
      requires |verdicts| == |answers|
      modifies this`answers
      ensures Valid()
      ensures |answers| == |old(answers)|
      ensures forall k :: 0 <= k < |answers| ==> answers[k] == Screened(old(answers)[k], verdicts[k])
      ensures unsafeIndices == TrueIndices(FlagsOf(old(answers), verdicts), |answers|)
      ensures allSafe <==> forall k :: 0 <= k < |answers| ==> Cleared(old(answers)[k], verdicts[k])
    {
      var screened;
      screened, allSafe, unsafeIndices := ScreenAll(answers, verdicts);
      answers := screened;
    }

    /**
     * Lines 626-651: the evaluation is requested only while none is cached.
     * With no answered question the synthetic result is stored without a
     * request; otherwise the evaluator's result, which stays `None` on failure
     * so that the next run asks again. `sent` is the transcript sent, if any.
     */
    method EnsureEvaluation(reply: JsonReply) returns (sent: Option<string>)
      requires Valid() && phase == Finished
      modifies this`evaluation
      ensures Valid()
      ensures old(evaluation).Some? ==> evaluation == old(evaluation) && sent.None?
      ensures old(evaluation).None? && !AnyAnswered(answers, |answers|) ==>
                evaluation == Some(NoAnswerResult(|questions|)) && sent.None?
      ensures old(evaluation).None? && AnyAnswered(answers, |answers|) ==>
                evaluation == EvaluationResult(questions, answers, reply)
                && sent == Some(Transcript(questions, answers, |questions|))
    {
      sent := None;
      if evaluation.None? {
        if AnyAnswered(answers, |answers|) {
          var result;
          result, sent := Evaluate(questions, answers, reply);
          Cache(result);
        } else {
          NoAnswerResultValid(|questions|);
          Cache(Some(NoAnswerResult(|questions|)));
        }
      }
    }

    /** Lines 633-651: the result kept in the session, which passes the validator whenever present. */
    method Cache(result: Option<Json>)
      requires Valid() && phase == Finished
      requires result.Some? ==> WellFormedEvaluation(result.value, |questions|)
      modifies this`evaluation
      ensures Valid() && evaluation == result
    {
      evaluation := result;
    }

    /** Lines 718-729: Start New Interview. The complexity choice is kept. */
    method StartNew()
      requires Valid() && phase == Finished
      modifies this`phase, this`questions, this`answers, this`currentIndex, this`evaluation,
               this`selectedOption, this`customRoleInput, this`effectiveRole, this`numQuestionsSelected
      ensures Valid()
      ensures phase == Setup && questions == [] && answers == [] && currentIndex == 0 && evaluation.None?
      ensures selectedOption == DefaultRole && customRoleInput == "" && effectiveRole == DefaultRole
      ensures numQuestionsSelected == 3
    {
      DefaultsConsistent();
      phase := Setup;
      questions := [];
      answers := [];
      currentIndex := 0;
      evaluation := None;
      selectedOption := DefaultRole;
      customRoleInput := "";
      effectiveRole := DefaultRole;
      numQuestionsSelected := 3;
    }
  }
}

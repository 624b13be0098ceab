/**
 * Whole runs of the wizard, driven through the session's methods with
 * fixed replies from the completion service.
 */
module Scenarios {
  import opened Wrappers
  import opened Text
  import opened Json
  import opened Replies
  import opened Evaluation
  import opened Session

  /** The bare reply "VALID" confirms a role. */
  lemma BareValidConfirms(role: string)
    requires role != OtherOption && role != ""
    ensures RoleForStart(role, Some("VALID")) == role
  {
    var reply := "VALID";
    assert AllSpace(reply[..0]) && AllSpace(reply[5..]) && CaseVariant(reply[0..5], "VALID");
  }

  /** A fresh session with "Data Analyst", three questions and Easy chosen. */
  method DataAnalystSetup() returns (s: InterviewSession)
    ensures fresh(s) && s.Valid() && s.phase == Setup
    ensures s.effectiveRole == "Data Analyst" && s.complexity == "Easy" && s.numQuestionsSelected == 3
  {
    s := new InterviewSession();
    assert RoleOptions[1] == "Data Analyst" && Complexities[0] == "Easy";
    s.Configure(3, "Easy", "Data Analyst", "");
  }

  /**
   * A Data Analyst interview of three Easy questions: the role is confirmed,
   * the reply holds exactly three questions, and the interview begins at
   * question 0 with three empty answers.
   */
  method DataAnalystStart(q1: string, q2: string, q3: string) returns (s: InterviewSession, outcome: StartOutcome)
    ensures fresh(s) && s.Valid() && outcome == Started
    ensures s.phase == Interviewing && s.questions == [q1, q2, q3]
    ensures s.answers == ["", "", ""] && s.currentIndex == 0 && s.evaluation.None?
  {
    var questions := [q1, q2, q3];
    s := DataAnalystSetup();
    BareValidConfirms("Data Analyst");
    WholeReplyWithinRequest(3, questions);
    outcome := s.Start(Some("VALID"), Decoded(QuestionsObject(questions)));
    assert |s.answers| == 3 && s.answers[0] == s.answers[1] == s.answers[2] == "";
  }

  /** Answers "", `text` and "" are submitted in turn, the last Submit finishing the interview. */
  method AnswerMiddleOnly(s: InterviewSession, text: string)
    requires s.Valid() && s.phase == Interviewing && |s.questions| == 3 && s.currentIndex == 0
    modifies s`answers, s`currentIndex, s`phase
    ensures s.Valid() && s.phase == Finished && s.answers == ["", text, ""]
  {
    s.EditAnswer("");
    s.SubmitNext();
    s.EditAnswer(text);
    s.SubmitNext();
    s.EditAnswer("");
    s.SubmitNext();
    assert s.answers == ["", text, ""];
  }

  /**
   * The verdicts the safety pass works on: the service is asked about the
   * middle answer alone and calls it unsafe; the blank answers are safe
   * whatever `reply0` and `reply2` would have been.
   */
  lemma MiddleVerdicts(text: string, reply0: Option<string>, reply2: Option<string>)
    requires !AllSpace(text)
    ensures [CheckAnswerSafety("", reply0), CheckAnswerSafety(text, Some("UNSAFE")), CheckAnswerSafety("", reply2)]
            == [Some(true), Some(false), Some(true)]
  {
    BlankAnswerIgnoresService("", reply0, None);
    BlankAnswerIgnoresService("", reply2, None);
    var unsafe := "UNSAFE";
    assert AllSpace(unsafe[..0]) && AllSpace(unsafe[6..]) && CaseVariant(unsafe[0..6], "UNSAFE");
    UnsafeVerdictFlags(text, unsafe);
  }

  /** With those verdicts only the middle slot is flagged. */
  lemma MiddleFlagged(text: string)
    requires !AllSpace(text)
    ensures var answers, verdicts := ["", text, ""], [Some(true), Some(false), Some(true)];
            && FlagsOf(answers, verdicts) == [false, true, false]
            && TrueIndices(FlagsOf(answers, verdicts), 3) == [1]
            && Screened("", Some(true)) == "" && Screened(text, Some(false)) == FlaggedPlaceholder
            && Cleared(text, Some(false)) == false
  {
    var answers, verdicts := ["", text, ""], [Some(true), Some(false), Some(true)];
    var flags := FlagsOf(answers, verdicts);
    assert flags == [false, true, false];
    assert TrueIndices(flags, 1) == [];
    assert TrueIndices(flags, 2) == [1];
  }

  /**
   * Answers "", `text` and "" are submitted and the interview finished; the
   * safety pass asks the service about `text` alone, and when the service
   * calls it unsafe only that slot is replaced by the placeholder.
   */
  method FlaggedMiddleAnswer(q1: string, q2: string, q3: string, text: string, reply0: Option<string>, reply2: Option<string>)
    returns (s: InterviewSession, allSafe: bool, unsafeIndices: seq<nat>)
    requires !AllSpace(text)
    ensures fresh(s) && s.Valid() && s.phase == Finished && s.evaluation.None? && |s.questions| == 3
    ensures s.answers == ["", FlaggedPlaceholder, ""]
    ensures unsafeIndices == [1] && !allSafe
  {
    var outcome;
    s, outcome := DataAnalystStart(q1, q2, q3);
    AnswerMiddleOnly(s, text);
    var verdicts := [CheckAnswerSafety(s.answers[0], reply0), CheckAnswerSafety(s.answers[1], Some("UNSAFE")),
                     CheckAnswerSafety(s.answers[2], reply2)];
    MiddleVerdicts(text, reply0, reply2);
    MiddleFlagged(text);
    allSafe, unsafeIndices := s.SafetyPass(verdicts);
    assert s.answers == ["", FlaggedPlaceholder, ""];
  }

  /**
   * The same run, with a grading object that lacks `overall_grade`: the
   * request is made, but nothing is cached, so the next run asks again.
   */
  method MalformedEvaluationNotCached(q1: string, q2: string, q3: string, text: string,
                                      reply0: Option<string>, reply2: Option<string>, grading: Json)
    returns (s: InterviewSession, sent: Option<string>)
    requires !AllSpace(text)
    requires grading.JObject? && "overall_grade" !in grading.fields
    ensures s.Valid() && s.phase == Finished && s.evaluation.None? && sent.Some?
  {
    var allSafe, unsafeIndices;
    s, allSafe, unsafeIndices := FlaggedMiddleAnswer(q1, q2, q3, text, reply0, reply2);
    PlaceholderNotBlank();
    assert !IsBlank(s.answers[1]);
    assert !WellFormedEvaluation(grading, |s.questions|);
    sent := s.EnsureEvaluation(Decoded(grading));
  }
}

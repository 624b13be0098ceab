/**
 * The local decisions taken on what the completion service returned:
 * the role check (`check_role`), the answer safety check
 * (`check_answer_safety`) and the question list extraction of
 * `generate_questions_openai`. Every reply is an input.
 *
 * A text reply is `None` when the request raised, when the response had
 * no choices or no message, and otherwise it is `Some(content)` with the
 * message content (possibly empty).
 */
module Replies {
  import opened Wrappers
  import opened Text
  import opened Json

  /**
   * What came back for a request that asks for a JSON object.
   * `Unavailable`: the request raised, the response had no choices, or its
   * content was `None` (then `json.loads(None)` raises a `TypeError`, which
   * is not a `JSONDecodeError`). `Undecodable`: `json.loads` raised a
   * `JSONDecodeError`. `Decoded`: the decoded document.
   */
  datatype JsonReply = Unavailable | Undecodable | Decoded(value: Json)

  /**
   * `check_role(role)`: `Some(role)` when the service says VALID, `Some("")`
   * when it says INVALID, `None` (an error, not a rejection) for a failed
   * request, an empty reply or any other text. The reply is compared after
   * `strip().upper()`.
   */
  function CheckRole(role: string, reply: Option<string>): (r: Option<string>)
    ensures r == (if reply.None? then None
                  else if PaddedToken(reply.value, "VALID") then Some(role)
                  else if PaddedToken(reply.value, "INVALID") then Some("")
                  else None)
  {
    match reply
    case None => None
    case Some(content) =>
      NormalizeIsToken(content, "VALID");
      NormalizeIsToken(content, "INVALID");
      if content == "" then None
      else
        var normalized := Normalize(content);
        if normalized == "VALID" then Some(role)
        else if normalized == "INVALID" then Some("")
        else None
  }

  /** A reply cannot be two different tokens at once. */
  lemma TokensExclusive(reply: string, tok1: string, tok2: string)
    requires IsToken(tok1) && IsToken(tok2) && tok1 != tok2
    ensures !(PaddedToken(reply, tok1) && PaddedToken(reply, tok2))
  {
    NormalizeIsToken(reply, tok1);
    NormalizeIsToken(reply, tok2);
  }

  /** The role check never invents a role: it answers with the role itself, the empty string, or an error. */
  lemma CheckRoleOutcomes(role: string, reply: Option<string>)
    ensures CheckRole(role, reply).None? || CheckRole(role, reply) == Some(role) || CheckRole(role, reply) == Some("")
    ensures reply.Some? && PaddedToken(reply.value, "INVALID") ==> CheckRole(role, reply) == Some("")
  {
    if reply.Some? {
      TokensExclusive(reply.value, "VALID", "INVALID");
    }
  }

  /**
   * An answer that `if not a or not a.strip()` treats as empty: nothing but
   * whitespace, which is exactly when stripping leaves nothing.
   */
  predicate IsBlank(answer: string) {
    AllSpace(answer)
  }

  /**
   * `check_answer_safety(answer)`: a blank answer is safe without any
   * request. Otherwise SAFE gives `Some(true)`, UNSAFE and any other text give
   * `Some(false)`, a failed request or an empty reply gives `None`.
   */
  function CheckAnswerSafety(answer: string, reply: Option<string>): (r: Option<bool>)
    ensures AllSpace(answer) ==> r == Some(true)
    ensures !AllSpace(answer) ==>
              r == (if reply.None? || reply.value == "" then None
                    else Some(PaddedToken(reply.value, "SAFE")))
  {
    if answer == "" || IsBlank(answer) then Some(true)
    else
      match reply
      case None => None
      case Some(content) =>
        NormalizeIsToken(content, "SAFE");
        if content == "" then None
        else
          var normalized := Normalize(content);
          if normalized == "SAFE" then Some(true)
          else if normalized == "UNSAFE" then Some(false)
          else Some(false)
  }

  /** An explicit UNSAFE verdict on a non-blank answer flags it. */
  lemma UnsafeVerdictFlags(answer: string, content: string)
    requires !AllSpace(answer) && PaddedToken(content, "UNSAFE")
    ensures CheckAnswerSafety(answer, Some(content)) == Some(false)
  {
    NormalizeIsToken(content, "UNSAFE");
    NormalizeIsToken(content, "SAFE");
  }

  /** The service is never consulted about a blank answer: its reply cannot change the verdict. */
  lemma BlankAnswerIgnoresService(answer: string, reply1: Option<string>, reply2: Option<string>)
    requires IsBlank(answer)
    ensures CheckAnswerSafety(answer, reply1) == CheckAnswerSafety(answer, reply2) == Some(true)
  {
  }

  /** `isinstance(data, dict) and "questions" in data and isinstance(data["questions"], list)` and all items strings. */
  predicate IsQuestionReply(j: Json) {
    && j.JObject?
    && "questions" in j.fields
    && j.fields["questions"].JArray?
    && forall k :: 0 <= k < |j.fields["questions"].items| ==> j.fields["questions"].items[k].JString?
  }

  /** The strings of a well-shaped `questions` list, in order. */
  function ReplyQuestions(j: Json): (qs: seq<string>)
    requires IsQuestionReply(j)
    ensures |qs| == |j.fields["questions"].items|
    ensures forall k :: 0 <= k < |qs| ==> JString(qs[k]) == j.fields["questions"].items[k]
  {
    var items := j.fields["questions"].items;
    seq(|items|, k requires 0 <= k < |items| => items[k].s)
  }

  /** Length of Python's `s[:n]` for a list of length `len`. */
  function SliceLength(n: int, len: nat): (k: nat)
    ensures k <= len
    ensures n >= 0 ==> k <= n
  {
    if n >= len then len
    else if n >= 0 then n
    else if len + n > 0 then len + n
    else 0
  }

  /** Python's `s[:n]`: a negative `n` drops that many items from the end. */
  function SlicePrefix<T>(s: seq<T>, n: int): (r: seq<T>)
    ensures |r| == SliceLength(n, |s|)
    ensures r == s[..|r|]
  {
    s[..SliceLength(n, |s|)]
  }

  /**
   * The result of `generate_questions_openai(n, ...)`: `None` when the
   * request failed, `Some([])` for an undecodable or wrongly shaped reply,
   * otherwise `Some` of the first items of the `questions` list.
   */
  function GenerateQuestions(n: int, reply: JsonReply): (r: Option<seq<string>>)
    ensures r.None? <==> reply.Unavailable?
    ensures reply.Undecodable? ==> r == Some([])
    ensures reply.Decoded? && !IsQuestionReply(reply.value) ==> r == Some([])
    ensures reply.Decoded? && IsQuestionReply(reply.value) ==>
              r.Some? && |r.value| == SliceLength(n, |ReplyQuestions(reply.value)|)
              && r.value == ReplyQuestions(reply.value)[..|r.value|]
  {
    match reply
    case Unavailable => None
    case Undecodable => Some([])
    case Decoded(data) =>
      if IsQuestionReply(data) then Some(SlicePrefix(ReplyQuestions(data), n)) else Some([])
  }

  /**
   * For a requested count n, the list is never longer than n, it is a prefix
   * of the reply's list, and it has exactly n items whenever the reply offered
   * at least n.
   */
  lemma GeneratedWithinRequest(n: nat, reply: JsonReply)
    requires GenerateQuestions(n, reply).Some?
    ensures |GenerateQuestions(n, reply).value| <= n
    ensures GenerateQuestions(n, reply).value != [] ==>
              reply.Decoded? && IsQuestionReply(reply.value)
              && GenerateQuestions(n, reply).value <= ReplyQuestions(reply.value)
    ensures reply.Decoded? && IsQuestionReply(reply.value) && |ReplyQuestions(reply.value)| >= n ==>
              |GenerateQuestions(n, reply).value| == n
  {
  }

  /** The JSON object `{"questions": qs}`. */
  function QuestionsObject(qs: seq<string>): Json {
    JObject(map["questions" := JArray(seq(|qs|, k requires 0 <= k < |qs| => JString(qs[k])))])
  }

  /**
   * A reply with no more questions than requested is passed through whole,
   * so a reply with fewer questions yields a shorter list, not an empty one.
   */
  lemma WholeReplyWithinRequest(n: nat, qs: seq<string>)
    requires |qs| <= n
    ensures GenerateQuestions(n, Decoded(QuestionsObject(qs))) == Some(qs)
  {
    var j := QuestionsObject(qs);
    assert j.fields["questions"].items == seq(|qs|, k requires 0 <= k < |qs| => JString(qs[k]));
    assert IsQuestionReply(j);
    assert ReplyQuestions(j) == qs;
    assert SlicePrefix(ReplyQuestions(j), n) == qs[..|qs|] == qs;
  }
}

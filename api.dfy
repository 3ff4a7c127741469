/** The simulated back end of `api/api.js`: an endpoint switch and a
    first-match lookup over the same knowledge base. */
module Api {
  import opened Strings
  import opened Seqs
  import opened KnowledgeBase
  import opened Matching

  /** The object literals the handlers return: `{status, answer}` or
      `{status, message}`. */
  datatype ApiResponse =
    | AnswerReply(status: string, answer: string)
    | MessageReply(status: string, message: string)

  /** A handler either returns a response or throws a JavaScript error. */
  datatype Outcome = Returned(response: ApiResponse) | Threw(error: string)

  /** The request payload, of which only the `question` property is read;
      it may be absent (`undefined`). */
  datatype RequestData = RequestData(question: Option<string>)

  const NotFoundAnswer := "I don't know the answer to that question."
  const TypeError := "TypeError"

  /** The lookup's test: the question equals the query, ignoring case, or
      the query includes one of the keywords. */
  predicate ApiMatches(qa: Entry, lowerQuery: string) {
    IsExact(qa, lowerQuery) || KeywordHit(qa, lowerQuery)
  }

  function MatchTest(lowerQuery: string): Entry -> bool {
    (qa: Entry) => ApiMatches(qa, lowerQuery)
  }

  /** `simulateDatabaseQuery(question)` over `qaPairs`. An absent question
      throws as soon as `find` calls its test, that is, unless `qaPairs`
      is empty. */
  function SimulateDatabaseQuery(question: Option<string>, qaPairs: seq<Entry>): (r: Outcome)
    ensures r.Threw? <==> question.None? && qaPairs != []
    ensures r.Returned? ==> r.response.AnswerReply?
    ensures r.Returned? && r.response.status == "success" ==>
              exists i :: 0 <= i < |qaPairs| && r.response.answer == qaPairs[i].answer
  {
    match question
    case None =>
      if qaPairs == [] then Returned(AnswerReply("not_found", NotFoundAnswer)) else Threw(TypeError)
    case Some(q) =>
      match FindFirst(qaPairs, MatchTest(Lower(q)))
      case Some(i) => Returned(AnswerReply("success", qaPairs[i].answer))
      case None => Returned(AnswerReply("not_found", NotFoundAnswer))
  }

  /** `handleAPIRequest(endpoint, data)`; `data` may be absent. */
  function HandleAPIRequest(endpoint: string, data: Option<RequestData>, qaPairs: seq<Entry>): Outcome {
    if endpoint == "/get-answer" then
      if data.None? then Threw(TypeError) else SimulateDatabaseQuery(data.value.question, qaPairs)
    else if endpoint == "/update-docs" then
      Returned(MessageReply("success", "Documentation updated"))
    else
      Returned(MessageReply("error", "Invalid endpoint"))
  }

  /** The lookup answers with the first entry, in knowledge-base order, that
      matches; it is "not found" exactly when no entry matches. */
  lemma FirstMatchAnswers(question: string, qaPairs: seq<Entry>)
    ensures var r := SimulateDatabaseQuery(Some(question), qaPairs);
            r.Returned?
            && ((r.response.status == "not_found")
                <==> forall i :: 0 <= i < |qaPairs| ==> !ApiMatches(qaPairs[i], Lower(question)))
            && (r.response.status == "not_found" ==> r.response.answer == NotFoundAnswer)
            && (r.response.status != "not_found" ==>
                  r.response.status == "success"
                  && exists i :: 0 <= i < |qaPairs| && ApiMatches(qaPairs[i], Lower(question))
                                 && r.response.answer == qaPairs[i].answer
                                 && forall j :: 0 <= j < i ==> !ApiMatches(qaPairs[j], Lower(question)))
  {
    var lq := Lower(question);
    var found := FindFirst(qaPairs, MatchTest(lq));
    assert forall j :: 0 <= j < |qaPairs| ==> MatchTest(lq)(qaPairs[j]) == ApiMatches(qaPairs[j], lq);
    if found.Some? {
      var i := found.value;
      assert ApiMatches(qaPairs[i], lq);
    }
  }

  /** An empty knowledge base answers "not found" to every question, even
      to an absent one. */
  lemma EmptyKnowledgeBaseNotFound(question: Option<string>)
    ensures SimulateDatabaseQuery(question, []) == Returned(AnswerReply("not_found", NotFoundAnswer))
  {
    if question.Some? {
      FirstMatchAnswers(question.value, []);
    }
  }

  /** The endpoint switch: "/get-answer" delegates to the lookup and throws
      without data, "/update-docs" succeeds whatever the data, unknown
      endpoints get "Invalid endpoint", and only "/get-answer" can throw. */
  lemma EndpointDispatch(endpoint: string, data: Option<RequestData>, qaPairs: seq<Entry>)
    ensures var r := HandleAPIRequest(endpoint, data, qaPairs);
            r.Threw? ==> endpoint == "/get-answer"
    ensures endpoint == "/update-docs" ==>
              HandleAPIRequest(endpoint, data, qaPairs) == Returned(MessageReply("success", "Documentation updated"))
    ensures var r := HandleAPIRequest(endpoint, data, qaPairs);
            r.Returned? ==> (r.response.status == "error" <==> endpoint != "/get-answer" && endpoint != "/update-docs")
    ensures endpoint == "/get-answer" && data.Some? ==>
              HandleAPIRequest(endpoint, data, qaPairs) == SimulateDatabaseQuery(data.value.question, qaPairs)
    ensures endpoint == "/get-answer" && data.None? ==> HandleAPIRequest(endpoint, data, qaPairs).Threw?
    ensures endpoint != "/get-answer" && endpoint != "/update-docs" ==>
              HandleAPIRequest(endpoint, data, qaPairs) == Returned(MessageReply("error", "Invalid endpoint"))
  {
  }

  /** Whenever the widget's engine, with no category and no command, finds
      nothing, the simulated back end finds nothing either: its test is
      narrower than the engine's exact-or-partial rule. */
  lemma ApiNeverFindsMore(question: string, qaPairs: seq<Entry>)
    requires NoCommand(question)
    requires Respond(question, qaPairs, None) == NoMatch(question)
    ensures SimulateDatabaseQuery(Some(question), qaPairs) == Returned(AnswerReply("not_found", NotFoundAnswer))
  {
    var lq := Lower(question);
    assert Respond(question, qaPairs, None) == Lookup(question, qaPairs);
    NoMatchIff(question, qaPairs);
    forall i | 0 <= i < |qaPairs| ensures !ApiMatches(qaPairs[i], lq) {
      if IsExact(qaPairs[i], lq) { ExactIsPartial(qaPairs[i], lq); }
    }
    FirstMatchAnswers(question, qaPairs);
  }

  /** The first matching entry wins, whatever matches after it. */
  lemma FirstMatchWins(question: string, qaPairs: seq<Entry>, i: nat)
    requires i < |qaPairs| && ApiMatches(qaPairs[i], Lower(question))
    requires forall k :: 0 <= k < i ==> !ApiMatches(qaPairs[k], Lower(question))
    ensures SimulateDatabaseQuery(Some(question), qaPairs) == Returned(AnswerReply("success", qaPairs[i].answer))
  {
    var lq := Lower(question);
    var found := FindFirst(qaPairs, MatchTest(lq));
    assert MatchTest(lq)(qaPairs[i]);
    var m := found.value;
    assert MatchTest(lq)(qaPairs[m]) == ApiMatches(qaPairs[m], lq);
    assert m == i;
  }

  /** The two variants disagree: when an entry matched only by keyword comes
      before an entry whose question is the query, the back end answers with
      the keyword entry while the widget answers with the exact one. */
  lemma EarlierKeywordBeatsExact(question: string, qaPairs: seq<Entry>, i: nat, j: nat)
    requires NoCommand(question)
    requires i < j < |qaPairs|
    requires KeywordHit(qaPairs[i], Lower(question))
    requires forall k :: 0 <= k < i ==> !ApiMatches(qaPairs[k], Lower(question))
    requires IsExact(qaPairs[j], Lower(question))
    requires forall k :: 0 <= k < j ==> !IsExact(qaPairs[k], Lower(question))
    ensures SimulateDatabaseQuery(Some(question), qaPairs) == Returned(AnswerReply("success", qaPairs[i].answer))
    ensures Respond(question, qaPairs, None) == Exact(qaPairs[j].answer)
  {
    FirstMatchWins(question, qaPairs, i);
    CommandsFirst(question, qaPairs, None, qaPairs, None);
    ExactWins(question, qaPairs, j);
  }
}

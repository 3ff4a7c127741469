/** The chat widget's session state: the module globals `qaPairs`,
    `currentCategory` and `sessionHistory`, and the handlers that change
    them. */
module Chat {
  import opened Strings
  import opened Seqs
  import opened KnowledgeBase
  import opened Matching

  datatype Sender = User | Bot

  /** One record of the session transcript; the timestamp is opaque text. */
  datatype Message = Message(sender: Sender, text: string, timestamp: string)

  /** The text `selectCategory` posts to confirm a choice. */
  function SelectionText(category: string): string {
    "You selected: <strong>" + category + "</strong>. Ask anything about this topic."
  }

  /** The greeting `displayWelcomeMessage` posts first. */
  const WelcomeText := "ဟယ်လို! WAYNE Chat Assistant မှ ကြိုဆိုပါသည်။ မေးခွန်းများမေးမြန်းနိုင်ပါသည်။"

  /** The thank-you `updateDocumentation` posts for a non-empty note. */
  const UpdateThanks := "Thank you! The new information has been recorded for review."

  /** One category button. */
  function CategoryButton(category: string): string {
    "<button class=\"category-btn\" data-category=\"" + category + "\">" + category + "</button>"
  }

  /** The buttons of all categories, in order, concatenated. */
  function CategoryButtons(categories: seq<string>): string {
    if categories == [] then "" else CategoryButton(categories[0]) + CategoryButtons(categories[1..])
  }

  /** The second welcome message, offering the category buttons. */
  function CategoryPrompt(categories: seq<string>): string {
    "ဤကဏ္ဍများမှ ရွေးချယ်မေးမြန်းနိုင်ပါသည်:<br><div class=\"category-btns\">" + CategoryButtons(categories) + "</div>"
  }

  /** The button list holds a button for each category it is given. */
  lemma {:induction false} ButtonsListCategory(categories: seq<string>, k: nat)
    requires k < |categories|
    ensures Contains(CategoryButtons(categories), CategoryButton(categories[k]))
    decreases k
  {
    var first := CategoryButton(categories[0]);
    var rest := CategoryButtons(categories[1..]);
    if k == 0 {
      ContainsTrivial(first);
      ContainsInContext([], first, rest, first);
      assert [] + first + rest == first + rest;
    } else {
      ButtonsListCategory(categories[1..], k - 1);
      ContainsInContext(first, rest, [], CategoryButton(categories[k]));
      assert first + rest + [] == first + rest;
    }
  }

  /** The category prompt offers a button for every loaded category. */
  lemma PromptOffersEveryCategory(qaPairs: seq<Entry>, k: nat)
    requires k < |qaPairs|
    ensures Contains(CategoryPrompt(Categories(qaPairs)), CategoryButton(qaPairs[k].category))
  {
    var categories := Categories(qaPairs);
    var j :| 0 <= j < |categories| && categories[j] == qaPairs[k].category;
    ButtonsListCategory(categories, j);
    ContainsInContext("ဤကဏ္ဍများမှ ရွေးချယ်မေးမြန်းနိုင်ပါသည်:<br><div class=\"category-btns\">", CategoryButtons(categories), "</div>",
                      CategoryButton(categories[j]));
  }

  class Session {
    var qaPairs: seq<Entry>
    var currentCategory: Option<string>
    var sessionHistory: seq<Message>

    /** The page's initial state: nothing loaded, no category, no messages. */
    constructor ()
      ensures qaPairs == [] && currentCategory == None && sessionHistory == []
    {
      qaPairs := [];
      currentCategory := None;
      sessionHistory := [];
    }

    /** `loadQuestions`, given what the fetch produced: the parsed groups,
        or `None` when fetching or parsing failed. A failure leaves the
        knowledge base as it was; the error notice goes to the page only,
        not to the transcript. */
    method LoadQuestions(fetched: Option<seq<Group>>)
      modifies this`qaPairs
      ensures fetched.Some? ==> qaPairs == Flatten(fetched.value)
      ensures fetched.None? ==> qaPairs == old(qaPairs)
    {
      if fetched.Some? {
        qaPairs := Flatten(fetched.value);
      }
    }

    /** The category buttons offered by the welcome message. */
    function CategoryList(): (r: seq<string>)
      reads this
      ensures forall k :: 0 <= k < |qaPairs| ==> qaPairs[k].category in r
      ensures forall i, j :: 0 <= i < j < |r| ==> r[i] != r[j]
    {
      Categories(qaPairs)
    }

    /** The transcript part of `addMessage`: exactly one record is appended. */
    method AddMessage(sender: Sender, text: string, timestamp: string)
      modifies this`sessionHistory
      ensures sessionHistory == old(sessionHistory) + [Message(sender, text, timestamp)]
    {
      sessionHistory := sessionHistory + [Message(sender, text, timestamp)];
    }

    /** `displayWelcomeMessage`, once its delay has passed: the greeting,
        then the category buttons when at least one category is loaded. */
    method DisplayWelcome(welcomeTime: string, categoriesTime: string)
      modifies this`sessionHistory
      ensures Categories(qaPairs) == [] ==>
                sessionHistory == old(sessionHistory) + [Message(Bot, WelcomeText, welcomeTime)]
      ensures Categories(qaPairs) != [] ==>
                sessionHistory == old(sessionHistory) + [Message(Bot, WelcomeText, welcomeTime),
                                                         Message(Bot, CategoryPrompt(CategoryList()), categoriesTime)]
    {
      AddMessage(Bot, WelcomeText, welcomeTime);
      var categories := CategoryList();
      if categories != [] {
        AddMessage(Bot, CategoryPrompt(categories), categoriesTime);
      }
    }

    /** `updateDocumentation` with the text area's content: a note that is
        empty after trimming is ignored; otherwise the thanks are posted. */
    method UpdateDocumentation(content: string, timestamp: string)
      modifies this`sessionHistory
      ensures Trim(content) == [] ==> sessionHistory == old(sessionHistory)
      ensures Trim(content) != [] ==> sessionHistory == old(sessionHistory) + [Message(Bot, UpdateThanks, timestamp)]
    {
      if Trim(content) == [] {
        return;
      }
      AddMessage(Bot, UpdateThanks, timestamp);
    }

    /** `selectCategory`: the category becomes active and a confirmation
        is posted. */
    method SelectCategory(category: string, timestamp: string)
      modifies this`currentCategory, this`sessionHistory
      ensures currentCategory == Some(category)
      ensures sessionHistory == old(sessionHistory) + [Message(Bot, SelectionText(category), timestamp)]
    {
      currentCategory := Some(category);
      AddMessage(Bot, SelectionText(category), timestamp);
    }

    /** `getBotResponse`: the reply text, and the clearing of the transcript
        when the query asks for it. */
    method GetBotResponse(userMessage: string) returns (reply: string)
      modifies this`sessionHistory
      ensures reply == Render(Respond(userMessage, qaPairs, currentCategory))
      ensures sessionHistory
              == if Respond(userMessage, qaPairs, currentCategory) == ClearHistory then [] else old(sessionHistory)
    {
      var response := Respond(userMessage, qaPairs, currentCategory);
      if response == ClearHistory {
        sessionHistory := [];
      }
      reply := Render(response);
    }

    /** The delayed callback of `sendMessage`: the reply is computed and
        posted. */
    method Answer(message: string, botTime: string) returns (reply: string)
      modifies this`sessionHistory
      ensures reply == Render(Respond(message, qaPairs, currentCategory))
      ensures sessionHistory
              == (if Respond(message, qaPairs, currentCategory) == ClearHistory then [] else old(sessionHistory))
                 + [Message(Bot, reply, botTime)]
    {
      reply := GetBotResponse(message);
      AddMessage(Bot, reply, botTime);
    }

    /** `sendMessage`: input that is empty after trimming is ignored;
        otherwise the trimmed text is posted, answered, and the answer
        posted. After "clear chat" the transcript holds only the answer. */
    method SendMessage(input: string, userTime: string, botTime: string) returns (reply: Option<string>)
      modifies this`sessionHistory
      ensures Trim(input) == [] ==> reply == None && sessionHistory == old(sessionHistory)
      ensures Trim(input) != [] ==>
                var response := Respond(Trim(input), qaPairs, currentCategory);
                && reply == Some(Render(response))
                && sessionHistory
                   == (if response == ClearHistory then [] else old(sessionHistory) + [Message(User, Trim(input), userTime)])
                      + [Message(Bot, Render(response), botTime)]
    {
      var message := Trim(input);
      if message == [] {
        return None;
      }
      AddMessage(User, message, userTime);
      var text := Answer(message, botTime);
      reply := Some(text);
    }
  }

  /** Whatever was said before, a "clear chat" message leaves a transcript
      holding the single reply that confirms the clearing. */
  method ClearChatScenario(s: Session, input: string, userTime: string, botTime: string)
    requires Contains(Lower(Trim(input)), ClearTrigger)
    modifies s
    ensures s.sessionHistory == [Message(Bot, ClearedText, botTime)]
  {
    assert Trim(input) != [] by {
      if Trim(input) == [] { ContainsNotLonger(Lower(Trim(input)), ClearTrigger); }
    }
    assert Respond(Trim(input), s.qaPairs, s.currentCategory) == ClearHistory;
    var reply := s.SendMessage(input, userTime, botTime);
  }
}

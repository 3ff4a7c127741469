/** Worked cases of the engine on a small knowledge base. */
module Scenarios {
  import opened Strings
  import opened Seqs
  import opened KnowledgeBase
  import opened Matching

  const WhatIs := Entry("What is WAYNE?", "A system.", ["wayne"], "General")
  const WhoIs := Entry("Who is WAYNE?", "An assistant.", ["wayne"], "General")

  /** A string lacking some character of `t` does not include `t`. */
  lemma MissingChar(s: string, t: string, k: nat)
    requires k < |t| && t[k] !in s
    ensures !Contains(s, t)
  {
    if Contains(s, t) {
      CharsOfContained(s, t, k);
    }
  }

  /** A query mentioning neither 'c' nor 'h' can be neither command. */
  lemma NoCommandWithout(query: string)
    requires 'c' !in Lower(query) && 'h' !in Lower(query)
    ensures NoCommand(query)
  {
    MissingChar(Lower(query), ClearTrigger, 0);
    MissingChar(Lower(query), HelpTrigger, 0);
  }

  lemma LowerKeyword()
    ensures Lower("wayne") == "wayne"
  {
    assert Lower("wayne") == "wayne";
  }

  lemma LowerQuery()
    ensures Lower("Tell me about wayne") == "tell me about wayne"
  {
    assert Lower("Tell me about wayne") == "tell me about wayne";
  }

  lemma LowerQuestion()
    ensures Lower("What is WAYNE?") == "what is wayne?"
  {
    assert Lower("What is WAYNE?") == "what is wayne?";
  }

  lemma MentionsWayne()
    ensures Contains("tell me about wayne", "wayne")
  {
    assert OccursAt("tell me about wayne", "wayne", 14);
    ContainsIff("tell me about wayne", "wayne");
  }

  /** With one entry, a query that matches it partially but not exactly
      gets its answer. */
  lemma SinglePartial(query: string, e: Entry)
    requires NoCommand(query)
    requires !IsExact(e, Lower(query)) && IsPartial(e, Lower(query))
    ensures Respond(query, [e], None) == UniquePartial(e.answer)
  {
    var partial := Partials([e], Lower(query));
    assert e in partial;
    assert Respond(query, [e], None) == Lookup(query, [e]);
    PartialOutcome(query, [e]);
  }

  /** With two entries both matching partially and neither exactly, the
      engine offers both questions in order. */
  lemma TwoPartials(query: string, e1: Entry, e2: Entry)
    requires NoCommand(query)
    requires !IsExact(e1, Lower(query)) && IsPartial(e1, Lower(query))
    requires !IsExact(e2, Lower(query)) && IsPartial(e2, Lower(query))
    ensures Respond(query, [e1, e2], None) == Disambiguate([e1.question, e2.question])
  {
    var lq := Lower(query);
    PartialsConcat([e1], [e2], lq);
    assert [e1, e2] == [e1] + [e2];
    assert e1 in Partials([e1], lq);
    assert e2 in Partials([e2], lq);
    assert Respond(query, [e1, e2], None) == Lookup(query, [e1, e2]);
    PartialOutcome(query, [e1, e2]);
  }

  /** A keyword mention with a single candidate gives that entry's answer. */
  lemma KeywordGivesAnswer()
    ensures Respond("Tell me about wayne", [WhatIs], None) == UniquePartial("A system.")
  {
    var query := "Tell me about wayne";
    assert Lower(query) == "tell me about wayne" by {
      LowerQuery();
    }
    assert Lower(WhatIs.question) == "what is wayne?" by {
      LowerQuestion();
    }
    assert Lower(WhatIs.keywords[0]) == "wayne" by {
      LowerKeyword();
    }
    assert NoCommand(query) by {
      NoCommandWithout(query);
    }
    assert !IsExact(WhatIs, Lower(query));
    assert IsPartial(WhatIs, Lower(query)) by {
      MentionsWayne();
      assert Contains(Lower(query), Lower(WhatIs.keywords[0]));
    }
    SinglePartial(query, WhatIs);
  }

  /** A keyword shared by two entries makes the engine ask which was meant,
      listing both questions in knowledge-base order. */
  lemma SharedKeywordDisambiguates()
    ensures Respond("wayne", [WhatIs, WhoIs], None) == Disambiguate(["What is WAYNE?", "Who is WAYNE?"])
  {
    var query := "wayne";
    assert Lower(query) == "wayne" by {
      LowerKeyword();
    }
    assert NoCommand(query) by {
      NoCommandWithout(query);
    }
    assert IsPartial(WhatIs, Lower(query)) && IsPartial(WhoIs, Lower(query)) by {
      ContainsTrivial(query);
      assert Contains(Lower(query), Lower(WhatIs.keywords[0]));
      assert Contains(Lower(query), Lower(WhoIs.keywords[0]));
    }
    assert !IsExact(WhatIs, Lower(query)) && !IsExact(WhoIs, Lower(query));
    TwoPartials(query, WhatIs, WhoIs);
  }

  /** An entry whose question contains "help" is unreachable: asking its
      question verbatim gives the help text. */
  lemma HelpQuestionUnreachable()
    ensures Respond("Help?", [Entry("Help?", "See the manual.", [], "General")], None) == Help
  {
    var lq := Lower("Help?");
    assert lq == "help?";
    assert lq[..4] == HelpTrigger;
    if Contains(lq, ClearTrigger) {
      ContainsNotLonger(lq, ClearTrigger);
    }
  }

  /** Selecting a category hides entries of other categories, even when the
      query is their question verbatim. */
  lemma CategoryHidesOtherEntries()
    ensures Respond("wayne", [Entry("wayne", "Elsewhere.", [], "Other")], Some("General"))
            == NoMatch("wayne")
  {
    var entries := [Entry("wayne", "Elsewhere.", [], "Other")];
    var lq := Lower("wayne");
    assert lq == "wayne";
    NoCommandWithout("wayne");
    PoolSpec(entries, Some("General"));
    assert Pool(entries, Some("General")) == [];
  }
}

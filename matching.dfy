/** The answer-matching engine of `getBotResponse`: commands, the category
    pool, exact match, partial matches and disambiguation, and the reply
    text shown to the user. */
module Matching {
  import opened Strings
  import opened Seqs
  import opened KnowledgeBase

  const ClearTrigger := "clear chat"
  const HelpTrigger := "help"
  /** At most this many questions are offered when several entries match. */
  const MaxOptions := 3

  const ClearedText := "Chat history has been cleared."
  const HelpText := "You can ask me questions or select a category to narrow down your query. Try asking about weather, health, or technology."

  /** What the engine decided; `Render` turns it into the reply text. */
  datatype Response =
    | ClearHistory
    | Help
    | Exact(answer: string)
    | UniquePartial(answer: string)
    | Disambiguate(questions: seq<string>)
    | NoMatch(query: string)

  /** The test `currentCategory ? … : …`: JavaScript treats an unset
      category and the empty label alike, as "no filter". */
  predicate Filtering(category: Option<string>) {
    category.Some? && category.value != ""
  }

  function SameCategory(c: string): Entry -> bool {
    (e: Entry) => e.category == c
  }

  /** The search pool: the entries of the active category, or all of them. */
  function Pool(entries: seq<Entry>, category: Option<string>): seq<Entry> {
    if Filtering(category) then Filter(entries, SameCategory(category.value)) else entries
  }

  /** With a category set, the pool is exactly the entries carrying that
      label, in their original order; without one, it is all entries. */
  lemma PoolSpec(entries: seq<Entry>, category: Option<string>)
    ensures Filtering(category) ==>
              (forall e :: e in Pool(entries, category) <==> e in entries && e.category == category.value)
    ensures !Filtering(category) ==> Pool(entries, category) == entries
  {
    if Filtering(category) {
      var pool := Pool(entries, category);
      var p := SameCategory(category.value);
      forall e ensures e in pool <==> e in entries && e.category == category.value {
        if e in pool {
          var i :| 0 <= i < |pool| && pool[i] == e;
          assert p(pool[i]);
        }
        if e in entries && e.category == category.value {
          var i :| 0 <= i < |entries| && entries[i] == e;
          assert p(entries[i]);
        }
      }
    }
  }

  /** The pool of `a + b` is the pool of `a` followed by that of `b`. */
  lemma PoolConcat(a: seq<Entry>, b: seq<Entry>, category: Option<string>)
    ensures Pool(a + b, category) == Pool(a, category) + Pool(b, category)
  {
    if Filtering(category) {
      FilterConcat(a, b, SameCategory(category.value));
    }
  }

  /** `q.question.toLowerCase() === userMessage.toLowerCase()`. */
  predicate IsExact(e: Entry, lowerQuery: string) {
    Lower(e.question) == lowerQuery
  }

  function ExactTest(lowerQuery: string): Entry -> bool {
    (e: Entry) => IsExact(e, lowerQuery)
  }

  /** `q.keywords.some(kw => userMessage.toLowerCase().includes(kw.toLowerCase()))`. */
  predicate KeywordHit(e: Entry, lowerQuery: string) {
    Any(e.keywords, kw => Contains(lowerQuery, Lower(kw)))
  }

  /** The partial rule: the query includes the question or some keyword. */
  predicate IsPartial(e: Entry, lowerQuery: string) {
    Contains(lowerQuery, Lower(e.question)) || KeywordHit(e, lowerQuery)
  }

  function PartialTest(lowerQuery: string): Entry -> bool {
    (e: Entry) => IsPartial(e, lowerQuery)
  }

  /** The index of the first entry of the pool whose question equals the query. */
  function FirstExact(pool: seq<Entry>, lowerQuery: string): (r: Option<nat>)
    ensures r.Some? ==> r.value < |pool| && IsExact(pool[r.value], lowerQuery)
                        && forall j :: 0 <= j < r.value ==> !IsExact(pool[j], lowerQuery)
    ensures r.None? ==> forall j :: 0 <= j < |pool| ==> !IsExact(pool[j], lowerQuery)
  {
    var r := FindFirst(pool, ExactTest(lowerQuery));
    assert forall j :: 0 <= j < |pool| ==> ExactTest(lowerQuery)(pool[j]) == IsExact(pool[j], lowerQuery);
    r
  }

  /** The entries of the pool that match partially, in pool order. */
  function Partials(pool: seq<Entry>, lowerQuery: string): (r: seq<Entry>)
    ensures |r| <= |pool|
    ensures forall i :: 0 <= i < |r| ==> r[i] in pool && IsPartial(r[i], lowerQuery)
    ensures forall i :: 0 <= i < |pool| && IsPartial(pool[i], lowerQuery) ==> pool[i] in r
  {
    var r := Filter(pool, PartialTest(lowerQuery));
    assert forall e :: PartialTest(lowerQuery)(e) == IsPartial(e, lowerQuery);
    r
  }

  /** The partial matches of `a + b` are those of `a` followed by those of `b`. */
  lemma PartialsConcat(a: seq<Entry>, b: seq<Entry>, lowerQuery: string)
    ensures Partials(a + b, lowerQuery) == Partials(a, lowerQuery) + Partials(b, lowerQuery)
  {
    FilterConcat(a, b, PartialTest(lowerQuery));
  }

  function Questions(es: seq<Entry>): (r: seq<string>)
    ensures |r| == |es|
  {
    seq(|es|, k requires 0 <= k < |es| => es[k].question)
  }

  function Min(a: nat, b: nat): nat {
    if a <= b then a else b
  }

  /** `getBotResponse(userMessage)` on the knowledge base `entries` with the
      active `category`, before it is turned into text: the two commands
      first, then the lookup in the pool. */
  function Respond(query: string, entries: seq<Entry>, category: Option<string>): Response {
    var lq := Lower(query);
    if Contains(lq, ClearTrigger) then ClearHistory
    else if Contains(lq, HelpTrigger) then Help
    else Lookup(query, Pool(entries, category))
  }

  /** The knowledge-base part of `getBotResponse`: exact match, then the
      partial matches, then the no-match reply. */
  function Lookup(query: string, pool: seq<Entry>): Response {
    var lq := Lower(query);
    match FirstExact(pool, lq)
    case Some(i) => Exact(pool[i].answer)
    case None =>
      var partial := Partials(pool, lq);
      if |partial| == 0 then NoMatch(query)
      else if |partial| == 1 then UniquePartial(partial[0].answer)
      else Disambiguate(Questions(partial[..Min(MaxOptions, |partial|)]))
  }

  /** Neither command phrase occurs in the lower-cased query. */
  predicate NoCommand(query: string) {
    !Contains(Lower(query), ClearTrigger) && !Contains(Lower(query), HelpTrigger)
  }

  /** "clear chat" anywhere in the query, in any case, clears the history,
      whatever the knowledge base and the category; it wins over "help".
      "help" without "clear chat" gives the help text. In both cases no
      lookup takes place: the reply depends on neither the entries nor the
      category. Otherwise the reply is the lookup in the pool. */
  lemma CommandsFirst(query: string, entries: seq<Entry>, category: Option<string>,
                      entries': seq<Entry>, category': Option<string>)
    ensures Respond(query, entries, category) == ClearHistory
            <==> Contains(Lower(query), ClearTrigger)
    ensures Respond(query, entries, category) == Help
            <==> !Contains(Lower(query), ClearTrigger) && Contains(Lower(query), HelpTrigger)
    ensures !NoCommand(query) ==> Respond(query, entries, category) == Respond(query, entries', category')
    ensures NoCommand(query) ==> Respond(query, entries, category) == Lookup(query, Pool(entries, category))
  {
  }

  /** An entry whose question equals the query also matches it partially. */
  lemma ExactIsPartial(e: Entry, lowerQuery: string)
    requires IsExact(e, lowerQuery)
    ensures IsPartial(e, lowerQuery)
  {
    ContainsTrivial(lowerQuery);
  }

  /** Every answer the lookup gives and every question it offers belongs to
      an entry of the pool. */
  lemma LookupDrawsFromPool(query: string, pool: seq<Entry>)
    ensures var r := Lookup(query, pool);
            (r.Exact? || r.UniquePartial?) ==> exists e :: e in pool && e.answer == r.answer
    ensures var r := Lookup(query, pool);
            r.Disambiguate? ==>
              forall k :: 0 <= k < |r.questions| ==> exists e :: e in pool && e.question == r.questions[k]
  {
    var lq := Lower(query);
    match FirstExact(pool, lq)
    case Some(i) =>
      assert pool[i] in pool;
    case None =>
      var partial := Partials(pool, lq);
      if |partial| == 1 {
        assert partial[0] in pool;
      } else if |partial| > 1 {
        var shown := partial[..Min(MaxOptions, |partial|)];
        assert Lookup(query, pool) == Disambiguate(Questions(shown));
        forall k | 0 <= k < |shown|
          ensures exists e :: e in pool && e.question == Questions(shown)[k]
        {
          assert shown[k] == partial[k] && partial[k] in pool;
        }
      }
  }

  /** With a category set, every answer given and every question offered
      comes from an entry of that category, whatever the text matched. */
  lemma CategoryConfinesReplies(query: string, entries: seq<Entry>, c: string)
    requires c != ""
    ensures var r := Respond(query, entries, Some(c));
            (r.Exact? || r.UniquePartial?) ==>
              exists e :: e in entries && e.category == c && e.answer == r.answer
    ensures var r := Respond(query, entries, Some(c));
            r.Disambiguate? ==>
              forall k :: 0 <= k < |r.questions| ==>
                exists e :: e in entries && e.category == c && e.question == r.questions[k]
  {
    var pool := Pool(entries, Some(c));
    PoolSpec(entries, Some(c));
    if NoCommand(query) {
      assert Respond(query, entries, Some(c)) == Lookup(query, pool);
      LookupDrawsFromPool(query, pool);
    }
  }

  /** Exact match has priority: the first entry of the pool whose question
      equals the query, ignoring case, gives the answer, even when other
      entries match partially. */
  lemma ExactWins(query: string, pool: seq<Entry>, i: nat)
    requires i < |pool| && IsExact(pool[i], Lower(query))
    requires forall j :: 0 <= j < i ==> !IsExact(pool[j], Lower(query))
    ensures Lookup(query, pool) == Exact(pool[i].answer)
  {
    match FirstExact(pool, Lower(query))
    case Some(m) =>
      assert !(m < i) && !(i < m);
    case None =>
  }

  /** Without an exact match, a single partial match gives its answer,
      several give the first three of their questions in pool order, and
      none gives the no-match reply echoing the query. */
  lemma PartialOutcome(query: string, pool: seq<Entry>)
    requires forall j :: 0 <= j < |pool| ==> !IsExact(pool[j], Lower(query))
    ensures var partial := Partials(pool, Lower(query));
            var r := Lookup(query, pool);
            && (|partial| == 0 ==> r == NoMatch(query))
            && (|partial| == 1 ==> r == UniquePartial(partial[0].answer))
            && (|partial| >= 2 ==>
                  && r.Disambiguate?
                  && |r.questions| == Min(MaxOptions, |partial|)
                  && forall k :: 0 <= k < |r.questions| ==> r.questions[k] == partial[k].question)
  {
    var partial := Partials(pool, Lower(query));
    assert FirstExact(pool, Lower(query)).None?;
    if |partial| >= 2 {
      var shown := partial[..Min(MaxOptions, |partial|)];
      assert forall k :: 0 <= k < |shown| ==> shown[k] == partial[k];
    }
  }

  /** The no-match reply comes exactly when no entry of the pool matches,
      neither exactly nor partially. */
  lemma NoMatchIff(query: string, pool: seq<Entry>)
    ensures Lookup(query, pool) == NoMatch(query)
            <==> forall j :: 0 <= j < |pool| ==> !IsPartial(pool[j], Lower(query))
  {
    var lq := Lower(query);
    var partial := Partials(pool, lq);
    if forall j :: 0 <= j < |pool| ==> !IsPartial(pool[j], lq) {
      forall j | 0 <= j < |pool| ensures !IsExact(pool[j], lq) {
        if IsExact(pool[j], lq) { ExactIsPartial(pool[j], lq); }
      }
      PartialOutcome(query, pool);
      assert partial == [];
    }
    if Lookup(query, pool) == NoMatch(query) {
      assert FirstExact(pool, lq).None?;
      assert partial == [];
    }
  }

  /** Asking an entry's question again, in any case, is answered by the
      first pool entry with that question, provided the question contains
      neither command phrase. */
  lemma ReaskQuestion(query: string, entries: seq<Entry>, category: Option<string>, e: Entry)
    requires e in Pool(entries, category)
    requires Lower(query) == Lower(e.question)
    requires NoCommand(query)
    ensures Respond(query, entries, category).Exact?
    ensures exists i :: 0 <= i < |Pool(entries, category)|
                        && Lower(Pool(entries, category)[i].question) == Lower(e.question)
                        && (forall j :: 0 <= j < i ==> Lower(Pool(entries, category)[j].question) != Lower(e.question))
                        && Respond(query, entries, category) == Exact(Pool(entries, category)[i].answer)
  {
    var pool := Pool(entries, category);
    var i :| 0 <= i < |pool| && pool[i] == e;
    assert IsExact(pool[i], Lower(query));
    assert Respond(query, entries, category) == Lookup(query, pool);
    var f := FirstExact(pool, Lower(query));
    assert f.Some?;
  }

  /** A question that contains "help" can never be answered: asking it
      yields the help text instead. */
  lemma QuestionWithHelpIsShadowed(query: string, entries: seq<Entry>, category: Option<string>)
    requires !Contains(Lower(query), ClearTrigger)
    requires Contains(Lower(query), HelpTrigger)
    ensures !Respond(query, entries, category).Exact?
    ensures !Respond(query, entries, category).UniquePartial?
  {
  }

  /** The decimal digits of `n`, for the `data-index` attribute. */
  function NatToString(n: nat): string
    decreases n
  {
    if n < 10 then ["0123456789"[n]] else NatToString(n / 10) + ["0123456789"[n % 10]]
  }

  function OptionOpen(index: nat): string {
    "<div class=\"response-option\" data-index=\"" + NatToString(index) + "\">"
  }

  /** One clickable option of the "Did you mean" list. */
  function OptionDiv(index: nat, question: string): string {
    OptionOpen(index) + question + "</div>"
  }

  /** Items rendered by `item`, numbered from `start`, concatenated. */
  function Numbered(xs: seq<string>, start: nat, item: (nat, string) -> string): string
    decreases |xs|
  {
    if xs == [] then "" else item(start, xs[0]) + Numbered(xs[1..], start + 1, item)
  }

  /** The option list, indices counted from `start`. */
  function OptionsHtml(questions: seq<string>, start: nat): string {
    Numbered(questions, start, OptionDiv)
  }

  /** The reply text of each decision. */
  function Render(r: Response): string {
    match r
    case ClearHistory => ClearedText
    case Help => HelpText
    case Exact(a) => a
    case UniquePartial(a) => a
    case Disambiguate(qs) =>
      "Did you mean:<br>" + OptionsHtml(qs, 0) + "<br>Please click on the most relevant question."
    case NoMatch(q) =>
      "I couldn't find an answer to \"" + q + "\". Try rephrasing or ask about a different topic."
  }

  /** The no-match reply quotes the query as typed. */
  lemma NoMatchEchoesQuery(query: string)
    ensures Contains(Render(NoMatch(query)), query)
  {
    ContainsTrivial(query);
    ContainsInContext("I couldn't find an answer to \"", query,
                      "\". Try rephrasing or ask about a different topic.", query);
  }

  /** Item `k` of a numbered list sits between the first `k` items and the
      rest, and carries the number `start + k`. */
  lemma {:induction false} NumberedAt(xs: seq<string>, start: nat, item: (nat, string) -> string, k: nat)
    requires k < |xs|
    ensures Numbered(xs, start, item)
            == Numbered(xs[..k], start, item) + item(start + k, xs[k]) + Numbered(xs[k + 1..], start + k + 1, item)
    decreases k
  {
    if k == 0 {
      assert xs[..0] == [];
    } else {
      var prefix := xs[..k];
      assert prefix[0] == xs[0] && prefix[1..] == xs[1..][..k - 1];
      assert xs[1..][k - 1] == xs[k] && xs[1..][k..] == xs[k + 1..];
      NumberedAt(xs[1..], start + 1, item, k - 1);
    }
  }

  /** Option `k` of the list carries the index `start + k`: with `start`
      zero, the options are numbered 0 to k-1 in the order given. */
  lemma OptionsIndexed(questions: seq<string>, start: nat, k: nat)
    requires k < |questions|
    ensures OptionsHtml(questions, start)
            == OptionsHtml(questions[..k], start) + OptionDiv(start + k, questions[k])
               + OptionsHtml(questions[k + 1..], start + k + 1)
  {
    NumberedAt(questions, start, OptionDiv, k);
  }

  /** Every question of the option list appears in it. */
  lemma OptionsListQuestion(questions: seq<string>, start: nat, k: nat)
    requires k < |questions|
    ensures Contains(OptionsHtml(questions, start), questions[k])
  {
    var q := questions[k];
    OptionsIndexed(questions, start, k);
    ContainsTrivial(q);
    ContainsInContext(OptionOpen(start + k), q, "</div>", q);
    ContainsInContext(OptionsHtml(questions[..k], start), OptionDiv(start + k, q),
                      OptionsHtml(questions[k + 1..], start + k + 1), q);
  }

  /** The "Did you mean" reply shows every offered question. */
  lemma DisambiguationShowsQuestions(questions: seq<string>, k: nat)
    requires k < |questions|
    ensures Contains(Render(Disambiguate(questions)), questions[k])
  {
    OptionsListQuestion(questions, 0, k);
    ContainsInContext("Did you mean:<br>", OptionsHtml(questions, 0),
                      "<br>Please click on the most relevant question.", questions[k]);
  }
}

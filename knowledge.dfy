/** The knowledge base: the grouped records read from the questions file,
    the flat list of entries the widget searches, and the category list
    derived from it. */
module KnowledgeBase {
  import opened Seqs

  /** One question record inside a group, before flattening. */
  datatype QuestionRecord = QuestionRecord(question: string, answer: string, keywords: seq<string>)

  /** A group of the questions file: a category label and its records. */
  datatype Group = Group(category: string, questions: seq<QuestionRecord>)

  /** A searchable entry: a record carrying its group's category. */
  datatype Entry = Entry(question: string, answer: string, keywords: seq<string>, category: string)

  /** `{...q, category}`: the record's fields, with the group's label as category. */
  function Tag(q: QuestionRecord, category: string): Entry {
    Entry(q.question, q.answer, q.keywords, category)
  }

  /** `group.questions.map(...)`. */
  function TagGroup(g: Group): (r: seq<Entry>)
    ensures |r| == |g.questions|
  {
    seq(|g.questions|, j requires 0 <= j < |g.questions| => Tag(g.questions[j], g.category))
  }

  /** `data.flatMap(...)`: the groups' entries, group after group. */
  function Flatten(groups: seq<Group>): seq<Entry>
    decreases |groups|
  {
    if groups == [] then [] else TagGroup(groups[0]) + Flatten(groups[1..])
  }

  /** The number of records in all the groups. */
  function TotalSize(groups: seq<Group>): nat
    decreases |groups|
  {
    if groups == [] then 0 else |groups[0].questions| + TotalSize(groups[1..])
  }

  /** Flattening keeps every record: one entry per record. */
  lemma {:induction false} FlattenLength(groups: seq<Group>)
    ensures |Flatten(groups)| == TotalSize(groups)
    decreases |groups|
  {
    if groups != [] {
      FlattenLength(groups[1..]);
    }
  }

  /** Flattening the groups of `a` and then those of `b` is flattening
      `a + b`: group order is kept. */
  lemma {:induction false} FlattenConcat(a: seq<Group>, b: seq<Group>)
    ensures Flatten(a + b) == Flatten(a) + Flatten(b)
    decreases |a|
  {
    if a == [] {
      assert a + b == b;
    } else {
      assert (a + b)[1..] == a[1..] + b;
      FlattenConcat(a[1..], b);
    }
  }

  /** Record `j` of group `i` lands right after the records of the groups
      before it, with its own fields and its group's category. */
  lemma {:induction false} FlattenAt(groups: seq<Group>, i: nat, j: nat)
    requires i < |groups| && j < |groups[i].questions|
    ensures TotalSize(groups[..i]) + j < |Flatten(groups)|
    ensures Flatten(groups)[TotalSize(groups[..i]) + j]
            == Tag(groups[i].questions[j], groups[i].category)
    decreases i
  {
    FlattenLength(groups);
    var head := TagGroup(groups[0]);
    if i == 0 {
      assert groups[..0] == [];
      assert Flatten(groups)[j] == head[j];
    } else {
      var rest := groups[1..];
      FlattenAt(rest, i - 1, j);
      assert groups[..i] == [groups[0]] + rest[..i - 1];
      assert groups[..i][1..] == rest[..i - 1];
      var k := TotalSize(rest[..i - 1]) + j;
      assert Flatten(groups)[|head| + k] == Flatten(rest)[k];
    }
  }

  /** Every entry comes from some record of some group, with that group's
      category. */
  lemma {:induction false} FlattenOrigin(groups: seq<Group>, k: nat)
    requires k < |Flatten(groups)|
    ensures exists i, j :: 0 <= i < |groups| && 0 <= j < |groups[i].questions|
                           && Flatten(groups)[k] == Tag(groups[i].questions[j], groups[i].category)
    decreases |groups|
  {
    var head := TagGroup(groups[0]);
    if k < |head| {
      assert Flatten(groups)[k] == Tag(groups[0].questions[k], groups[0].category);
    } else {
      FlattenOrigin(groups[1..], k - |head|);
      var i, j :| 0 <= i < |groups[1..]| && 0 <= j < |groups[1..][i].questions|
                  && Flatten(groups[1..])[k - |head|]
                     == Tag(groups[1..][i].questions[j], groups[1..][i].category);
      assert groups[1..][i] == groups[i + 1];
    }
  }

  /** `qaPairs.map(q => q.category)`. */
  function CategoryColumn(entries: seq<Entry>): (r: seq<string>)
    ensures |r| == |entries|
  {
    seq(|entries|, k requires 0 <= k < |entries| => entries[k].category)
  }

  /** `[...new Set(qaPairs.map(q => q.category))]`: each category once. */
  function Categories(entries: seq<Entry>): (r: seq<string>)
    ensures forall i :: 0 <= i < |r| ==> exists k :: 0 <= k < |entries| && entries[k].category == r[i]
    ensures forall k :: 0 <= k < |entries| ==> entries[k].category in r
    ensures forall i, j :: 0 <= i < j < |r| ==> r[i] != r[j]
  {
    var column := CategoryColumn(entries);
    var r := Distinct(column);
    assert forall k :: 0 <= k < |entries| ==> column[k] == entries[k].category;
    r
  }

  /** The categories are listed in the order in which they first appear
      among the entries. */
  lemma CategoriesInFirstAppearanceOrder(entries: seq<Entry>, i: nat, j: nat)
    requires i < j < |Categories(entries)|
    ensures FirstIndex(CategoryColumn(entries), Categories(entries)[i])
            < FirstIndex(CategoryColumn(entries), Categories(entries)[j])
  {
    DistinctOrder(CategoryColumn(entries), i, j);
  }
}

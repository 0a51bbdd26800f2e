/**
 * The FAQ page: the list of open questions that a click toggles, the search
 * filter over categories of questions, and the number that identifies a
 * question on the page. The question texts themselves are data and are left
 * to the caller.
 */
module Faq {
  import opened Text
  import opened Lists

  // ---------------------------------------------------------------------------
  // Open items

  /** `toggleItem`: close the item if it is open, open it at the end otherwise. */
  function ToggleItem(open: seq<int>, index: int): (r: seq<int>)
    ensures index in r <==> index !in open
    ensures forall y :: y != index ==> (y in r <==> y in open)
    ensures index !in open ==> r == open + [index]
  {
    if index in open then Remove(open, index) else open + [index]
  }

  /** The open list never holds an item twice. */
  lemma ToggleKeepsNoDuplicates(open: seq<int>, index: int)
    requires NoDuplicates(open)
    ensures NoDuplicates(ToggleItem(open, index))
  {
    if index in open {
      RemoveKeepsNoDuplicates(open, index);
    } else {
      AppendKeepsNoDuplicates(open, index);
    }
  }

  /** Toggling twice opens and closes the same items as before, though a re-opened item moves to the end. */
  lemma ToggleTwiceSameItems(open: seq<int>, index: int)
    ensures forall y :: y in ToggleItem(ToggleItem(open, index), index) <==> y in open
  {
  }

  /** Opening a closed item and closing it again gives back the very same list. */
  lemma OpenThenCloseRestores(open: seq<int>, index: int)
    requires index !in open
    ensures ToggleItem(ToggleItem(open, index), index) == open
  {
    RemoveAppended(open, index);
  }

  // ---------------------------------------------------------------------------
  // Search

  datatype Question = Question(question: string, answer: string)
  datatype Category = Category(name: string, questions: seq<Question>)

  /** A question matches when its lowercased question or answer contains the lowercased search term. */
  predicate Matches(q: Question, term: string) {
    || Contains(ToLower(q.question), ToLower(term))
    || Contains(ToLower(q.answer), ToLower(term))
  }

  /** The questions that match, in their original order. */
  function FilterQuestions(qs: seq<Question>, term: string): (r: seq<Question>)
    ensures |r| <= |qs|
    ensures forall k :: 0 <= k < |r| ==> r[k] in qs && Matches(r[k], term)
    ensures forall q :: q in qs && Matches(q, term) ==> q in r
  {
    if |qs| == 0 then []
    else if Matches(qs[0], term) then [qs[0]] + FilterQuestions(qs[1..], term)
    else FilterQuestions(qs[1..], term)
  }

  /** Filtering a concatenation filters each part and keeps them in order. */
  lemma {:induction false} FilterQuestionsAppend(a: seq<Question>, b: seq<Question>, term: string)
    ensures FilterQuestions(a + b, term) == FilterQuestions(a, term) + FilterQuestions(b, term)
  {
    if |a| > 0 {
      assert (a + b)[1..] == a[1..] + b;
      FilterQuestionsAppend(a[1..], b, term);
    } else {
      assert a + b == b;
    }
  }

  /** Filtering looks at the first question and then at the rest. */
  lemma FilterQuestionsCons(q: Question, qs: seq<Question>, term: string)
    ensures FilterQuestions([q] + qs, term) == (if Matches(q, term) then [q] else []) + FilterQuestions(qs, term)
  {
    assert ([q] + qs)[0] == q;
    assert ([q] + qs)[1..] == qs;
  }

  /** A category with only its matching questions. */
  function Narrow(c: Category, term: string): Category {
    c.(questions := FilterQuestions(c.questions, term))
  }

  /** Every category narrowed to its matches, empty or not: the `map` step. */
  function NarrowAll(cats: seq<Category>, term: string): (r: seq<Category>)
    ensures |r| == |cats|
    ensures forall k :: 0 <= k < |cats| ==> r[k] == Narrow(cats[k], term)
  {
    if |cats| == 0 then [] else [Narrow(cats[0], term)] + NarrowAll(cats[1..], term)
  }

  /** `filteredFAQs`: every category narrowed to its matches, and the categories left empty dropped. */
  function FilteredFaqs(cats: seq<Category>, term: string): (r: seq<Category>)
    ensures |r| <= |cats|
    ensures forall k :: 0 <= k < |r| ==> |r[k].questions| > 0 && r[k] in NarrowAll(cats, term)
    ensures forall c :: c in NarrowAll(cats, term) && |c.questions| > 0 ==> c in r
  {
    if |cats| == 0 then []
    else
      var c := Narrow(cats[0], term);
      var rest := FilteredFaqs(cats[1..], term);
      if |c.questions| > 0 then [c] + rest else rest
  }

  /** Filtering a concatenation of categories filters each part and keeps them in order. */
  lemma {:induction false} FilteredFaqsAppend(a: seq<Category>, b: seq<Category>, term: string)
    ensures FilteredFaqs(a + b, term) == FilteredFaqs(a, term) + FilteredFaqs(b, term)
  {
    if |a| > 0 {
      assert (a + b)[1..] == a[1..] + b;
      assert (a + b)[0] == a[0];
      FilteredFaqsAppend(a[1..], b, term);
    } else {
      assert a + b == b;
    }
  }

  /** The empty search term matches every question. */
  lemma EmptyTermMatches(q: Question)
    ensures Matches(q, "")
  {
    assert ToLower("") == "";
    ContainsEmpty(ToLower(q.question));
  }

  /** With an empty search every question is kept. */
  lemma {:induction false} EmptySearchKeepsQuestions(qs: seq<Question>)
    ensures FilterQuestions(qs, "") == qs
  {
    if |qs| > 0 {
      EmptyTermMatches(qs[0]);
      EmptySearchKeepsQuestions(qs[1..]);
      FilterQuestionsCons(qs[0], qs[1..], "");
      assert qs == [qs[0]] + qs[1..];
    }
  }

  /** With an empty search the page shows every category that has a question, unchanged. */
  lemma {:induction false} EmptySearchKeepsAll(cats: seq<Category>)
    requires forall k :: 0 <= k < |cats| ==> |cats[k].questions| > 0
    ensures FilteredFaqs(cats, "") == cats
  {
    if |cats| > 0 {
      EmptySearchKeepsQuestions(cats[0].questions);
      assert Narrow(cats[0], "") == cats[0];
      EmptySearchKeepsAll(cats[1..]);
      assert cats == [cats[0]] + cats[1..];
    }
  }

  // ---------------------------------------------------------------------------
  // Question numbers

  /** A category holds fewer questions than this; the page numbers questions in blocks of it. */
  const Block := 100

  /** `globalIndex`: the position of the category on the page, in blocks, plus the position of the question in it. */
  function GlobalIndex(categoryIndex: nat, faqIndex: nat): (r: nat)
    ensures faqIndex < Block ==> r / Block == categoryIndex && r % Block == faqIndex
  {
    categoryIndex * Block + faqIndex
  }

  /** While every category holds fewer than a hundred questions, two questions never share a number. */
  lemma GlobalIndexInjective(c1: nat, f1: nat, c2: nat, f2: nat)
    requires f1 < Block && f2 < Block
    requires GlobalIndex(c1, f1) == GlobalIndex(c2, f2)
    ensures c1 == c2 && f1 == f2
  {
  }

  /** From the hundredth question on, a question takes the number of the next category's first one. */
  lemma GlobalIndexCollidesPastBlock()
    ensures GlobalIndex(0, Block) == GlobalIndex(1, 0)
  {
  }

  // ---------------------------------------------------------------------------
  // Which questions show open

  /** As written: the question at position `faqIndex` of the `categoryIndex`-th shown category is open when its number is. */
  function ShownOpen(open: seq<int>, categoryIndex: nat, faqIndex: nat): (r: bool)
    ensures faqIndex < Block ==>
              (r <==> exists k :: 0 <= k < |open| && open[k] / Block == categoryIndex && open[k] % Block == faqIndex)
  {
    GlobalIndex(categoryIndex, faqIndex) in open
  }

  /** The question shown at a position of the filtered page. */
  function ShownAt(cats: seq<Category>, term: string, categoryIndex: nat, faqIndex: nat): (q: Question)
    requires categoryIndex < |FilteredFaqs(cats, term)|
    requires faqIndex < |FilteredFaqs(cats, term)[categoryIndex].questions|
    ensures q in FilteredFaqs(cats, term)[categoryIndex].questions
    ensures Matches(q, term)
  {
    var c := FilteredFaqs(cats, term)[categoryIndex];
    assert exists j :: 0 <= j < |cats| && c == Narrow(cats[j], term);
    c.questions[faqIndex]
  }

  /**
   * Numbers are positions on the filtered page, so the open state stays with
   * the position when the search changes: open the first question with an
   * empty search, then search for the second, and the second shows open.
   */
  lemma OpenStateFollowsPosition()
    ensures
      var first := Question("a", "a");
      var second := Question("b", "b");
      var cats := [Category("c", [first, second])];
      var open := ToggleItem([], GlobalIndex(0, 0));
      && |FilteredFaqs(cats, "")| == 1 && |FilteredFaqs(cats, "")[0].questions| == 2
      && ShownAt(cats, "", 0, 0) == first
      && |FilteredFaqs(cats, "b")| == 1
      && |FilteredFaqs(cats, "b")[0].questions| == 1
      && ShownAt(cats, "b", 0, 0) == second
      && ShownOpen(open, 0, 0)
  {
    var first := Question("a", "a");
    var second := Question("b", "b");
    var cats := [Category("c", [first, second])];
    EmptySearchKeepsAll(cats);
    SearchForSecond();
  }

  /** In the example, searching `b` leaves the category with only its second question. */
  lemma SearchForSecond()
    ensures
      var first := Question("a", "a");
      var second := Question("b", "b");
      FilteredFaqs([Category("c", [first, second])], "b") == [Category("c", [second])]
  {
    var first := Question("a", "a");
    var second := Question("b", "b");
    var cats := [Category("c", [first, second])];
    SearchMatchesSecondOnly();
    FilterQuestionsCons(second, [], "b");
    FilterQuestionsCons(first, [second], "b");
    assert [first] + [second] == [first, second];
    assert FilterQuestions([first, second], "b") == [second];
    assert Narrow(cats[0], "b") == Category("c", [second]);
    assert cats[1..] == [];
  }

  /** `b` matches the question `b` and not the question `a`. */
  lemma SearchMatchesSecondOnly()
    ensures !Matches(Question("a", "a"), "b") && Matches(Question("b", "b"), "b")
  {
    assert ToLower("a") == "a" && ToLower("b") == "b";
    assert !Contains("a", "b") by {
      assert "a"[0..1] == "a";
      assert "a"[0] != "b"[0];
    }
    ContainsSelf("b");
  }

  /** Every string contains itself. */
  lemma ContainsSelf(s: string)
    ensures Contains(s, s)
  {
    assert OccursAt(s, s, 0);
  }

  /** Corrected: `toggleItem` on the questions themselves rather than on their positions. */
  function ToggleQuestion(open: seq<Question>, q: Question): (r: seq<Question>)
    ensures q in r <==> q !in open
    ensures forall y :: y != q ==> (y in r <==> y in open)
  {
    if q in open then Remove(open, q) else open + [q]
  }

  /** Corrected: a shown question is open when that question was opened. */
  predicate ShownOpenCorrected(open: seq<Question>, cats: seq<Category>, term: string, categoryIndex: nat, faqIndex: nat)
    requires categoryIndex < |FilteredFaqs(cats, term)|
    requires faqIndex < |FilteredFaqs(cats, term)[categoryIndex].questions|
  {
    ShownAt(cats, term, categoryIndex, faqIndex) in open
  }

  /** With the correction, clicking a shown question opens that question and only it, whatever the search. */
  lemma CorrectedOpenFollowsQuestion(open: seq<Question>, cats: seq<Category>, term: string,
                                     categoryIndex: nat, faqIndex: nat, other: Question)
    requires categoryIndex < |FilteredFaqs(cats, term)|
    requires faqIndex < |FilteredFaqs(cats, term)[categoryIndex].questions|
    requires ShownAt(cats, term, categoryIndex, faqIndex) !in open
    requires other != ShownAt(cats, term, categoryIndex, faqIndex)
    ensures
      var clicked := ToggleQuestion(open, ShownAt(cats, term, categoryIndex, faqIndex));
      && ShownOpenCorrected(clicked, cats, term, categoryIndex, faqIndex)
      && (other in clicked <==> other in open)
  {
  }

  /** With the correction, the example above no longer shows the unopened question open. */
  lemma CorrectedExample()
    ensures
      var first := Question("a", "a");
      var second := Question("b", "b");
      var cats := [Category("c", [first, second])];
      && |FilteredFaqs(cats, "")| == 1 && |FilteredFaqs(cats, "")[0].questions| == 2
      && |FilteredFaqs(cats, "b")| == 1 && |FilteredFaqs(cats, "b")[0].questions| == 1
      && var open := ToggleQuestion([], ShownAt(cats, "", 0, 0));
      && ShownOpenCorrected(open, cats, "", 0, 0)
      && !ShownOpenCorrected(open, cats, "b", 0, 0)
  {
    OpenStateFollowsPosition();
  }
}

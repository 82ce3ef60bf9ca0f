/** The state of the `App` component (src/App.tsx:16-42) and its handlers as
    functions from state to state. Network responses, random draws and the
    locale comparison are parameters. */
module App {
  import opened Seqs
  import opened Species
  import opened Shuffle
  import opened Sorting
  import opened Search
  import opened Quiz

  /** `appState`: "manage" or "photoQuiz". */
  datatype Mode = Manage | PhotoQuiz

  /** `feedback` once set: "correct" or "incorrect". */
  datatype Feedback = Correct | Incorrect

  /** The component state the handlers read and write. */
  datatype AppState = AppState(
    birds: seq<Bird>,
    mode: Mode,
    error: Option<string>,
    searchResults: seq<Bird>,
    question: Option<Question>,
    selectedAnswer: Option<string>,
    feedback: Option<Feedback>)

  const NoSpeciesFound := "No valid bird species found. Check your spelling or try different names."
  const NeedTwoBirds := "You need at least 2 birds to start a quiz."
  const NeedTwoBirdsToStart := "Please add at least 2 birds to start a photo quiz."

  function AlreadyInList(b: Bird): string
  {
    DisplayName(b) + " is already in your list."
  }

  /** `handleSearch` (src/App.tsx:74-137), with `responses[i]` the outcome of
      the lookup for the `i`-th non-blank line. A query without a non-blank
      line changes nothing; otherwise the search results become the top hits
      of the lines that produced one, in line order, and the error is set
      exactly when there is none. Nothing else changes. */
  function HandleSearch(s: AppState, query: string, responses: seq<Response>): (r: AppState)
    requires |responses| == |SearchLines(query)|
    ensures SearchLines(query) == [] ==> r == s
    ensures SearchLines(query) != [] ==>
      && r.searchResults == SearchResults(SearchLines(query), responses)
      && (r.error.Some? <==> r.searchResults == [])
      && (r.error.Some? ==> r.error.value == NoSpeciesFound)
    ensures r.(searchResults := s.searchResults, error := s.error) == s
  {
    var lines := SearchLines(query);
    if |lines| == 0 then s
    else
      var results := SearchResults(lines, responses);
      s.(searchResults := results, error := if |results| == 0 then Some(NoSpeciesFound) else None)
  }

  /** `handleAddBird` (src/App.tsx:139-169). A record whose id is already in
      the list leaves everything but the error unchanged and sets the error.
      Otherwise the error is cleared, the list gains exactly the record and is
      re-sorted by display name (sorted whenever `le` is a consistent
      comparator), and no search result keeps the record's id. */
  function HandleAddBird(s: AppState, b: Bird, le: (string, string) -> bool): (r: AppState)
    ensures HasId(s.birds, b.id) ==> r == s.(error := Some(AlreadyInList(b)))
    ensures !HasId(s.birds, b.id) ==>
      && r.error.None?
      && multiset(r.birds) == multiset(s.birds) + multiset{b}
      && (TotalPreorder(le) ==> SortedBy(r.birds, DisplayName, le))
      && r.searchResults == WithoutId(s.searchResults, b.id)
      && !HasId(r.searchResults, b.id)
      && r.(birds := s.birds, error := s.error, searchResults := s.searchResults) == s
  {
    if HasId(s.birds, b.id) then s.(error := Some(AlreadyInList(b)))
    else
      var newList := SortBy(s.birds + [b], DisplayName, le);
      SortedWhenConsistent(s.birds + [b], le);
      s.(error := None, birds := newList, searchResults := WithoutId(s.searchResults, b.id))
  }

  lemma SortedWhenConsistent(s: seq<Bird>, le: (string, string) -> bool)
    ensures TotalPreorder(le) ==> SortedBy(SortBy(s, DisplayName, le), DisplayName, le)
  {
    if TotalPreorder(le) {
      SortBySorted(s, DisplayName, le);
    }
  }

  /** `handleDeleteBird` (src/App.tsx:171-174): no entry with `id` is left,
      every other entry stays, in its relative order. Nothing else changes. */
  function HandleDeleteBird(s: AppState, id: Id): (r: AppState)
    ensures !HasId(r.birds, id)
    ensures forall b: Bird :: b.id != id ==> multiset(r.birds)[b] == multiset(s.birds)[b]
    ensures IsSubseq(r.birds, s.birds)
    ensures r.(birds := s.birds) == s
  {
    s.(birds := WithoutId(s.birds, id))
  }

  /** `generatePhotoQuizQuestion` (src/App.tsx:177-236). With fewer than two
      birds it sets the error and returns to list management and produces no
      new question. Otherwise it clears the selection and the feedback and
      installs the question built from the draws; nothing else changes. */
  function GeneratePhotoQuizQuestion(s: AppState, d: QuizDraws): (r: AppState)
    ensures |s.birds| < 2 ==> r == s.(error := Some(NeedTwoBirds), mode := Manage)
    ensures |s.birds| >= 2 ==>
      && r.question.Some?
      && r.question.value.target == Target(DisplayName(Drawn(s.birds, d)), PhotoUrl(Drawn(s.birds, d)))
      && r.question.value.target.name in r.question.value.options
      && |r.question.value.options| == DistractorCount(s.birds, Drawn(s.birds, d)) + 1
      && multiset(r.question.value.options)
         == multiset(Names(Distractors(s.birds, Drawn(s.birds, d), d))) + multiset{DisplayName(Drawn(s.birds, d))}
      && r.selectedAnswer.None? && r.feedback.None?
      && r.(question := s.question, selectedAnswer := s.selectedAnswer, feedback := s.feedback) == s
  {
    if |s.birds| < 2 then s.(error := Some(NeedTwoBirds), mode := Manage)
    else s.(selectedAnswer := None, feedback := None, question := Some(BuildQuestion(s.birds, d)))
  }

  /** `startPhotoQuiz` (src/App.tsx:238-247): refuses with an error below two
      birds, changing nothing else; otherwise clears the error, enters the
      quiz and generates a question. */
  function StartPhotoQuiz(s: AppState, d: QuizDraws): (r: AppState)
    ensures |s.birds| < 2 ==> r == s.(error := Some(NeedTwoBirdsToStart))
    ensures |s.birds| >= 2 ==>
      && r.mode == PhotoQuiz && r.error.None? && r.birds == s.birds
      && r.question.Some? && r.feedback.None? && r.selectedAnswer.None?
      && r.question.value.target == Target(DisplayName(Drawn(s.birds, d)), PhotoUrl(Drawn(s.birds, d)))
      && |r.question.value.options| == DistractorCount(s.birds, Drawn(s.birds, d)) + 1
      && multiset(r.question.value.options)
         == multiset(Names(Distractors(s.birds, Drawn(s.birds, d), d))) + multiset{DisplayName(Drawn(s.birds, d))}
      && r.(mode := s.mode, error := s.error, question := s.question,
            selectedAnswer := s.selectedAnswer, feedback := s.feedback) == s
  {
    if |s.birds| < 2 then s.(error := Some(NeedTwoBirdsToStart))
    else GeneratePhotoQuizQuestion(s.(error := None, mode := PhotoQuiz), d)
  }

  /** `handlePhotoAnswerSelect` (src/App.tsx:249-258). Once feedback is set,
      nothing changes. Before that, the option becomes the selected answer
      and the feedback is `Correct` exactly when the option is the target's
      name; nothing else changes. The handler reads the current question, so
      one must exist while no feedback is set. */
  function HandlePhotoAnswerSelect(s: AppState, option: string): (r: AppState)
    requires s.feedback.Some? || s.question.Some?
    ensures s.feedback.Some? ==> r == s
    ensures r.feedback.Some?
    ensures s.feedback.None? ==>
      && r.selectedAnswer == Some(option)
      && (r.feedback == Some(Correct) <==> option == s.question.value.target.name)
      && r.(selectedAnswer := s.selectedAnswer, feedback := s.feedback) == s
  {
    if s.feedback.Some? then s
    else
      s.(selectedAnswer := Some(option),
         feedback := Some(if option == s.question.value.target.name then Correct else Incorrect))
  }

  /** The first answer is binding: a second selection changes nothing. */
  lemma FirstAnswerBinding(s: AppState, first: string, second: string)
    requires s.feedback.Some? || s.question.Some?
    ensures HandlePhotoAnswerSelect(HandlePhotoAnswerSelect(s, first), second) == HandlePhotoAnswerSelect(s, first)
  {
  }

  /** After a new question, answering it with one of its options is graded
      against that question's target. */
  lemma AnswerAfterQuestion(s: AppState, d: QuizDraws, option: string)
    requires |s.birds| >= 2
    ensures var q := GeneratePhotoQuizQuestion(s, d);
      var r := HandlePhotoAnswerSelect(q, option);
      && r.selectedAnswer == Some(option)
      && (r.feedback == Some(Correct) <==> option == DisplayName(Drawn(s.birds, d)))
  {
  }

  /** Starting the quiz and answering is graded against the drawn bird:
      its display name, which is among the options, is the one correct
      answer. */
  lemma StartThenAnswer(s: AppState, d: QuizDraws, option: string)
    requires |s.birds| >= 2
    ensures var q := StartPhotoQuiz(s, d);
      var r := HandlePhotoAnswerSelect(q, option);
      && DisplayName(Drawn(s.birds, d)) in q.question.value.options
      && r.mode == PhotoQuiz && r.selectedAnswer == Some(option)
      && (r.feedback == Some(Correct) <==> option == DisplayName(Drawn(s.birds, d)))
  {
  }

  /** A sub-multiset of a list with unique ids has unique ids. */
  lemma {:induction false} UniqueIdsSub(a: seq<Bird>, b: seq<Bird>)
    requires multiset(a) <= multiset(b) && UniqueIds(b)
    ensures UniqueIds(a)
  {
    forall i, j | 0 <= i < j < |a|
      ensures a[i].id != a[j].id
    {
      if a[i] == a[j] {
        CountTwo(a, i, j);
        TwoCopies(b, a[i]);
      } else {
        assert a[i] in multiset(a) && a[j] in multiset(a);
        DistinctIds(b, a[i], a[j]);
      }
    }
  }

  /** Two positions holding the same value count it twice. */
  lemma CountTwo(a: seq<Bird>, i: int, j: int)
    requires 0 <= i < j < |a| && a[i] == a[j]
    ensures multiset(a)[a[i]] >= 2
  {
    assert a == a[..i] + [a[i]] + a[i + 1..j] + [a[j]] + a[j + 1..];
  }

  /** Two different entries of a list with unique ids have different ids. */
  lemma DistinctIds(b: seq<Bird>, x: Bird, y: Bird)
    requires UniqueIds(b) && x in multiset(b) && y in multiset(b) && x != y
    ensures x.id != y.id
  {
    var p :| 0 <= p < |b| && b[p] == x;
    var q :| 0 <= q < |b| && b[q] == y;
    assert p != q;
  }


  /** A value occurring twice in a list with unique ids is impossible. */
  lemma {:induction false} TwoCopies(b: seq<Bird>, x: Bird)
    requires UniqueIds(b)
    ensures multiset(b)[x] <= 1
  {
    if b != [] {
      assert b == [b[0]] + b[1..];
      assert UniqueIds(b[1..]);
      TwoCopies(b[1..], x);
    }
  }

  /** Every handler keeps the identifiers of the list unique. */
  lemma UniqueIdsPreserved(s: AppState, b: Bird, id: Id, le: (string, string) -> bool)
    requires UniqueIds(s.birds)
    ensures UniqueIds(HandleAddBird(s, b, le).birds)
    ensures UniqueIds(HandleDeleteBird(s, id).birds)
  {
    if !HasId(s.birds, b.id) {
      var grown := s.birds + [b];
      assert UniqueIds(grown) by {
        forall i, j | 0 <= i < j < |grown|
          ensures grown[i].id != grown[j].id
        {
          if j == |grown| - 1 {
            assert grown[i] in s.birds;
          }
        }
      }
      UniqueIdsSub(HandleAddBird(s, b, le).birds, grown);
    }
    UniqueIdsSub(HandleDeleteBird(s, id).birds, s.birds);
  }

  /** A subsequence of a sorted list is sorted. */
  lemma {:induction false} SubseqSorted(a: seq<Bird>, b: seq<Bird>, le: (string, string) -> bool)
    requires IsSubseq(a, b) && SortedBy(b, DisplayName, le)
    ensures SortedBy(a, DisplayName, le)
    decreases |b|
  {
    if a != [] && b != [] {
      assert SortedBy(b[1..], DisplayName, le);
      if a[0] == b[0] {
        SubseqSorted(a[1..], b[1..], le);
        SubseqMembers(a[1..], b[1..]);
        forall j | 0 < j < |a|
          ensures le(DisplayName(a[0]), DisplayName(a[j]))
        {
          assert a[j] == a[1..][j - 1] && a[j] in b[1..];
          var k :| 0 <= k < |b[1..]| && b[1..][k] == a[j];
          assert b[k + 1] == a[j];
        }
      } else {
        SubseqSorted(a, b[1..], le);
      }
    }
  }

  /** The elements of a subsequence are elements of the sequence. */
  lemma {:induction false} SubseqMembers<T>(a: seq<T>, b: seq<T>)
    requires IsSubseq(a, b)
    ensures forall x :: x in a ==> x in b
    decreases |b|
  {
    if a != [] && b != [] {
      if a[0] == b[0] {
        SubseqMembers(a[1..], b[1..]);
        assert a == [a[0]] + a[1..];
      } else {
        SubseqMembers(a, b[1..]);
      }
    }
  }

  /** Deleting keeps a list sorted by display name. */
  lemma DeleteKeepsSorted(s: AppState, id: Id, le: (string, string) -> bool)
    requires SortedBy(s.birds, DisplayName, le)
    ensures SortedBy(HandleDeleteBird(s, id).birds, DisplayName, le)
  {
    SubseqSorted(HandleDeleteBird(s, id).birds, s.birds, le);
  }
}

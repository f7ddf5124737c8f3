/**
 * The quiz screen: an index into the list of drawn questions and the answers
 * given so far, keyed by question id, moved by the Previous, Next and option
 * handlers.
 */
module QuizNavigation {
  import opened QuizService

  /** What the user can do on the quiz screen. */
  datatype Move = Previous | Next | Select(option: int)

  /** `handleNext`: the last question stays put (the quiz completes); any other moves on by one. */
  function NextIndex(i: int, n: int): (j: int)
    ensures 0 <= i < n ==> 0 <= j < n
    ensures j == i <==> i == n - 1
    ensures 0 <= i < n - 1 ==> j == i + 1
  {
    if i == n - 1 then i else i + 1
  }

  /** `handlePrevious`: moves back by one, except at the first question. */
  function PreviousIndex(i: int): (j: int)
    ensures i >= 0 ==> j >= 0 && j <= i
    ensures j == i <==> i <= 0
    ensures i > 0 ==> j == i - 1
  {
    if i > 0 then i - 1 else i
  }

  /** The screen's state: index and answers. */
  datatype NavState = NavState(index: int, answers: map<int, int>)

  function Apply(questions: seq<QuestionResponse>, st: NavState, m: Move): (st': NavState)
    requires 0 <= st.index < |questions|
    ensures 0 <= st'.index < |questions|
    ensures st.answers.Keys <= st'.answers.Keys
  {
    match m
    case Previous => st.(index := PreviousIndex(st.index))
    case Next => st.(index := NextIndex(st.index, |questions|))
    case Select(option) => st.(answers := st.answers[questions[st.index].id := option])
  }

  /** The state after a sequence of moves. */
  function Replay(questions: seq<QuestionResponse>, st: NavState, moves: seq<Move>): NavState
    requires 0 <= st.index < |questions|
    decreases |moves|
  {
    if moves == [] then st else Replay(questions, Apply(questions, st, moves[0]), moves[1..])
  }

  /**
   * Under any sequence of moves the index stays within the question list, and
   * no answer is ever removed: navigation leaves answers alone and a selection
   * only sets or overwrites the current question's entry.
   */
  lemma {:induction false} ReplayKeepsBoundsAndAnswers(questions: seq<QuestionResponse>, st: NavState, moves: seq<Move>)
    requires 0 <= st.index < |questions|
    ensures 0 <= Replay(questions, st, moves).index < |questions|
    ensures st.answers.Keys <= Replay(questions, st, moves).answers.Keys
    decreases |moves|
  {
    if moves != [] {
      ReplayKeepsBoundsAndAnswers(questions, Apply(questions, st, moves[0]), moves[1..]);
    }
  }

  /** Selecting twice on the same question keeps only the second choice. */
  lemma SelectOverwrites(questions: seq<QuestionResponse>, st: NavState, a: int, b: int)
    requires 0 <= st.index < |questions|
    ensures Replay(questions, st, [Select(a), Select(b)]) == Apply(questions, st, Select(b))
  {
    assert [Select(a), Select(b)][1..] == [Select(b)];
    assert [Select(b)][1..] == [];
    var s1 := Apply(questions, st, Select(a));
    var s2 := Apply(questions, s1, Select(b));
    assert Replay(questions, st, [Select(a), Select(b)]) == Replay(questions, s1, [Select(b)]);
    assert Replay(questions, s1, [Select(b)]) == Replay(questions, s2, []);
    var id := questions[st.index].id;
    assert st.answers[id := a][id := b] == st.answers[id := b];
  }

  class QuizSession {
    const questions: seq<QuestionResponse>
    var currentIndex: int
    var answers: map<int, int>

    ghost predicate Valid()
      reads this
    {
      0 <= currentIndex < |questions|
    }

    function State(): NavState
      reads this
    {
      NavState(currentIndex, answers)
    }

    /** The quiz opens on the first question with no answers; it is only shown with at least one question. */
    constructor(questions: seq<QuestionResponse>)
      requires |questions| > 0
      ensures this.questions == questions && Valid()
      ensures currentIndex == 0 && answers == map[]
    {
      this.questions := questions;
      currentIndex := 0;
      answers := map[];
    }

    /** `handleOptionSelect`: records the choice for the current question's id, every other entry unchanged. */
    method HandleOptionSelect(optionIndex: int)
      requires Valid()
      modifies this`answers
      ensures Valid()
      ensures answers == old(answers)[questions[currentIndex].id := optionIndex]
      ensures State() == Apply(questions, old(State()), Select(optionIndex))
    {
      answers := answers[questions[currentIndex].id := optionIndex];
    }

    /** `handleNext`: on the last question reports completion and stays; otherwise advances. */
    method HandleNext() returns (completed: bool)
      requires Valid()
      modifies this`currentIndex
      ensures Valid()
      ensures completed <==> old(currentIndex) == |questions| - 1
      ensures completed ==> currentIndex == old(currentIndex)
      ensures !completed ==> currentIndex == old(currentIndex) + 1
      ensures State() == Apply(questions, old(State()), Next)
    {
      completed := currentIndex == |questions| - 1;
      if !completed {
        currentIndex := currentIndex + 1;
      }
    }

    /** `handlePrevious`: steps back unless already on the first question. */
    method HandlePrevious()
      requires Valid()
      modifies this`currentIndex
      ensures Valid()
      ensures old(currentIndex) > 0 ==> currentIndex == old(currentIndex) - 1
      ensures old(currentIndex) == 0 ==> currentIndex == 0
      ensures State() == Apply(questions, old(State()), Previous)
    {
      if currentIndex > 0 {
        currentIndex := currentIndex - 1;
      }
    }
  }
}

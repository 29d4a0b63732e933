/** The quiz and question entities (backend/src/quizzes/entities/) and the pieces of
    answer checking and scoring that the live gateway and the REST controller share. */
module QuizEntities {

  import opened Base

  datatype QuestionType = MultipleChoice | SingleChoice | TrueFalse | Code

  datatype Choice = Choice(id: string, text: string, isCorrect: bool)

  datatype CodeTestCase = CodeTestCase(input: string, expectedOutput: string, isHidden: bool)

  /** A question; an absent `choices` or `testCases` list is the empty sequence. */
  datatype Question = Question(
    id: string,
    quizId: string,
    questionType: QuestionType,
    text: string,
    points: nat,
    order: int,
    choices: seq<Choice>,
    testCases: seq<CodeTestCase>)

  datatype QuizStatus = Draft | Published | Active | Completed

  /** A loaded quiz definition: its questions in order, the time limit in minutes and
      the passing score in percent. */
  datatype QuizDefinition = QuizDefinition(
    id: string,
    questions: seq<Question>,
    timeLimit: nat,
    passingScore: real)

  /** A submitted answer: one choice id (or code text), or a list of choice ids. */
  datatype Answer = Single(value: string) | Several(values: seq<string>)

  /** JavaScript truthiness of an answer: the empty string is falsy, any array is truthy. */
  predicate Truthy(a: Answer)
  {
    a.Several? || a.value != ""
  }

  /** The pluggable checker of code answers (the source's sandbox placeholder). */
  type CodeVerifier = (Question, Answer) -> bool

  /** `choices.filter(c => c.isCorrect).map(c => c.id)`. */
  function CorrectChoiceIds(choices: seq<Choice>): (ids: seq<string>)
    ensures |ids| <= |choices|
    ensures forall x :: x in ids <==> exists c | c in choices :: c.isCorrect && c.id == x
  {
    if choices == [] then []
    else
      var rest := CorrectChoiceIds(choices[1..]);
      assert forall c :: c in choices <==> c == choices[0] || c in choices[1..];
      if choices[0].isCorrect then [choices[0].id] + rest else rest
  }

  /** The correct ids of one choice: its id when it is marked correct, else none. */
  lemma CorrectChoiceIdsOne(c: Choice)
    ensures CorrectChoiceIds([c]) == if c.isCorrect then [c.id] else []
  {
    assert [c][1..] == [];
  }

  /** Filtering keeps order: the correct ids of a + b are those of a followed by those of b.
      With CorrectChoiceIdsOne this fixes the list for every choice list. */
  lemma {:induction false} CorrectChoiceIdsAppend(a: seq<Choice>, b: seq<Choice>)
    ensures CorrectChoiceIds(a + b) == CorrectChoiceIds(a) + CorrectChoiceIds(b)
  {
    if a != [] {
      assert (a + b)[0] == a[0];
      assert (a + b)[1..] == a[1..] + b;
      CorrectChoiceIdsAppend(a[1..], b);
    } else {
      assert a + b == b;
    }
  }

  /** `choices.find(c => c.id === id)`: the first choice with that id. */
  function FindChoice(choices: seq<Choice>, id: string): (r: Option<Choice>)
    ensures r.None? <==> forall c | c in choices :: c.id != id
    ensures r.Some? ==> r.value in choices && r.value.id == id
    ensures r.Some? ==> exists k | 0 <= k < |choices| :: choices[k] == r.value
                          && forall j | 0 <= j < k :: choices[j].id != id
  {
    if choices == [] then None
    else if choices[0].id == id then Some(choices[0])
    else
      var r := FindChoice(choices[1..], id);
      assert forall c :: c in choices <==> c == choices[0] || c in choices[1..];
      assert r.Some? ==> exists k | 0 <= k < |choices[1..]| :: choices[1..][k] == r.value
                          && forall j | 0 <= j < k :: choices[1..][j].id != id;
      assert r.Some? ==> exists k | 1 <= k < |choices| :: choices[k] == r.value
                          && forall j | 0 <= j < k :: choices[j].id != id by {
        if r.Some? {
          var k :| 0 <= k < |choices[1..]| && choices[1..][k] == r.value
                   && forall j | 0 <= j < k :: choices[1..][j].id != id;
          assert choices[k + 1] == r.value;
          assert forall j | 0 <= j < k + 1 :: choices[j].id != id by {
            forall j | 0 <= j < k + 1 ensures choices[j].id != id {
              if j > 0 { assert choices[j] == choices[1..][j - 1]; }
            }
          }
        }
      }
      r
  }

  /** The list form of the choice check: as long as the correct list and made of correct ids. */
  predicate ListMatchesCorrect(question: Question, ids: seq<string>)
  {
    var correct := CorrectChoiceIds(question.choices);
    |ids| == |correct| && forall i | 0 <= i < |ids| :: ids[i] in correct
  }

  /** The single form of the choice check: the first choice with that id is marked correct. */
  predicate SingleIsCorrect(question: Question, id: string)
  {
    match FindChoice(question.choices, id)
    case Some(c) => c.isCorrect
    case None => false
  }

  /** The sum of the questions' points, peeled from the back so that a scoring loop's
      prefix is one call. */
  function TotalPoints(questions: seq<Question>): nat
  {
    if questions == [] then 0
    else TotalPoints(questions[..|questions| - 1]) + questions[|questions| - 1].points
  }

  /** The outcome of `(earned / total) * 100`: a percentage, or NaN when total is 0. */
  datatype Score = Percent(value: real) | NotANumber

  function ScoreOf(earned: nat, total: nat): (s: Score)
    ensures s.NotANumber? <==> total == 0
    ensures s.Percent? ==> s.value * total as real == 100.0 * earned as real
  {
    if total == 0 then NotANumber else Percent(earned as real / total as real * 100.0)
  }

  /** `score >= passingScore`; every comparison with NaN is false. */
  predicate Passed(s: Score, passingScore: real)
  {
    s.Percent? && s.value >= passingScore
  }

  /** With earned <= total the score is a percentage in [0, 100]; it is 100 exactly
      when everything was earned. */
  lemma ScoreInRange(earned: nat, total: nat)
    requires earned <= total && total > 0
    ensures ScoreOf(earned, total).Percent?
    ensures 0.0 <= ScoreOf(earned, total).value <= 100.0
    ensures ScoreOf(earned, total).value == 100.0 <==> earned == total
  {
    var v := ScoreOf(earned, total).value;
    assert v * total as real == 100.0 * earned as real;
    if v == 100.0 {
      assert 100.0 * total as real == 100.0 * earned as real;
    }
  }

  // ------------------------------------------------------- the list check

  predicate Distinct(s: seq<string>)
  {
    forall i, j | 0 <= i < j < |s| :: s[i] != s[j]
  }

  function Elements(s: seq<string>): set<string>
  {
    set x | x in s
  }

  lemma {:induction false} DistinctCardinality(s: seq<string>)
    requires Distinct(s)
    ensures |Elements(s)| == |s|
  {
    if s != [] {
      DistinctCardinality(s[1..]);
      assert Elements(s) == {s[0]} + Elements(s[1..]);
      assert s[0] !in Elements(s[1..]);
    }
  }

  lemma {:induction false} SubsetOfEqualSize(a: set<string>, b: set<string>)
    requires a <= b && |a| == |b|
    ensures a == b
  {
    if a != b {
      var x :| x in b && x !in a;
      assert a <= b - {x};
      SubsetSize(a, b - {x});
    }
  }

  lemma {:induction false} SubsetSize(a: set<string>, b: set<string>)
    requires a <= b
    ensures |a| <= |b|
    decreases |b|
  {
    if a != {} {
      var x :| x in a;
      SubsetSize(a - {x}, b - {x});
    }
  }

  /** When neither the answer nor the correct list repeats an id, the list check accepts
      exactly the answers that name the set of correct choices. */
  lemma ListCheckIsSetEquality(question: Question, ids: seq<string>)
    requires Distinct(ids) && Distinct(CorrectChoiceIds(question.choices))
    ensures ListMatchesCorrect(question, ids) <==> Elements(ids) == Elements(CorrectChoiceIds(question.choices))
  {
    var correct := CorrectChoiceIds(question.choices);
    DistinctCardinality(ids);
    DistinctCardinality(correct);
    if ListMatchesCorrect(question, ids) {
      assert Elements(ids) <= Elements(correct);
      SubsetOfEqualSize(Elements(ids), Elements(correct));
    }
    if Elements(ids) == Elements(correct) {
      assert forall i | 0 <= i < |ids| :: ids[i] in Elements(correct);
    }
  }

  /** As written, the list check does not notice a repeated id: with a and b the two correct
      choices, the answer [a, a] is accepted although b is missing. */
  lemma ListCheckAcceptsRepeats()
    ensures var q := Question("q", "z", MultipleChoice, "", 1, 1,
                              [Choice("a", "", true), Choice("b", "", true)], []);
            ListMatchesCorrect(q, ["a", "a"]) && Elements(["a", "a"]) != Elements(CorrectChoiceIds(q.choices))
  {
    var q := Question("q", "z", MultipleChoice, "", 1, 1, [Choice("a", "", true), Choice("b", "", true)], []);
    assert CorrectChoiceIds(q.choices) == ["a", "b"];
    assert "b" !in Elements(["a", "a"]);
  }
}

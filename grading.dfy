/**
 * Auto-grading of a submission (the `/submit` handler, server.js:84-106):
 * the running score and the per-question answer detail built from the
 * question bank, the submitted answers and the justifications.
 */
module Grading {
  import opened Quiz

  const NotAnswered := "No respondida"
  const CorrectMessage := "Correcta"
  const IncorrectPrefix := "Incorrecta, la respuesta correcta es "
  const NotEvaluated := "No evaluada " + "(falta justificación o respuesta)"

  /**
   * The stored `correct` flag: `answers[id] === correctAnswer && justifications[id]`,
   * read as a truth value. An absent answer never equals the key.
   */
  predicate Flag(q: Question, answers: map<string, string>, justifications: map<string, string>) {
    q.id in answers && answers[q.id] == q.correctAnswer && Given(justifications, q.id)
  }

  /** A question adds one to the score: answer given, justification given, and the flag set. */
  predicate Counts(q: Question, answers: map<string, string>, justifications: map<string, string>) {
    Given(answers, q.id) && Given(justifications, q.id) && Flag(q, answers, justifications)
  }

  /** The score the grading loop accumulates over `questions`, in order. */
  function Score(questions: seq<Question>, answers: map<string, string>, justifications: map<string, string>): (s: nat)
    ensures s <= |questions|
    decreases |questions|
  {
    if questions == [] then 0
    else
      var last := questions[|questions| - 1];
      Score(questions[..|questions| - 1], answers, justifications) + (if Counts(last, answers, justifications) then 1 else 0)
  }

  /** The values of the options of a question, in order. */
  function Values(options: seq<Choice>): (vs: seq<string>)
    ensures |vs| == |options|
  {
    seq(|options|, i requires 0 <= i < |options| => options[i].value)
  }

  /** The position of the first option whose value is `v` (`options.find(opt => opt.value === v)`). */
  function ChoiceIndex(options: seq<Choice>, v: string): (k: Option<nat>)
    ensures k.Some? ==> k.value < |options| && options[k.value].value == v
    ensures k.Some? ==> forall m :: 0 <= m < k.value ==> options[m].value != v
    ensures k.None? <==> forall m :: 0 <= m < |options| ==> options[m].value != v
  {
    var k := IndexOf(Values(options), v);
    assert forall m :: 0 <= m < |options| ==> Values(options)[m] == options[m].value;
    assert k.Some? ==> forall m :: 0 <= m < k.value ==> Values(options)[..k.value][m] == Values(options)[m];
    k
  }

  /** Both the answer and the justification are given: the question gets evaluated. */
  predicate Evaluated(q: Question, answers: map<string, string>, justifications: map<string, string>) {
    Given(answers, q.id) && Given(justifications, q.id)
  }

  /**
   * The detail stored for one question. None stands for the run-time failure
   * of the source when the answer is wrong and no option carries the key
   * (reading `.text` of an undefined `find` result).
   */
  function DetailFor(q: Question, answers: map<string, string>, justifications: map<string, string>): Option<Detail> {
    var value := if Given(answers, q.id) then answers[q.id] else NotAnswered;
    var flag := Flag(q, answers, justifications);
    if !Evaluated(q, answers, justifications) then
      Some(Detail(value, flag, NotEvaluated, None, None))
    else if flag then
      Some(Detail(value, flag, CorrectMessage, None, None))
    else match ChoiceIndex(q.options, q.correctAnswer)
      case None => None
      case Some(k) => Some(Detail(value, flag, IncorrectPrefix + q.options[k].text, None, None))
  }

  /**
   * The `answers` object built for the record, one entry per question in bank
   * order; None when some question's detail cannot be built.
   */
  function Details(questions: seq<Question>, answers: map<string, string>, justifications: map<string, string>): (r: Option<seq<Entry>>)
    ensures r.Some? ==> |r.value| == |questions|
    ensures r.Some? ==> forall i :: 0 <= i < |questions| ==>
      r.value[i].id == questions[i].id && DetailFor(questions[i], answers, justifications) == Some(r.value[i].detail)
    ensures r.None? <==> exists i :: 0 <= i < |questions| && DetailFor(questions[i], answers, justifications).None?
    decreases |questions|
  {
    if questions == [] then Some([])
    else
      var init := questions[..|questions| - 1];
      var last := questions[|questions| - 1];
      match Details(init, answers, justifications)
      case None => None
      case Some(es) =>
        match DetailFor(last, answers, justifications)
        case None => None
        case Some(d) => Some(es + [Entry(last.id, d)])
  }

  datatype Graded = Graded(score: nat, entries: seq<Entry>)

  /**
   * The two grading loops of the `/submit` handler: the first accumulates the
   * score, the second fills the `answers` object; None when the second loop
   * fails on a question whose key is missing from its options.
   */
  method Grade(questions: seq<Question>, answers: map<string, string>, justifications: map<string, string>)
    returns (g: Option<Graded>)
    ensures g.None? <==> exists i :: 0 <= i < |questions| && DetailFor(questions[i], answers, justifications).None?
    ensures g.Some? ==> g.value.score == Score(questions, answers, justifications) <= |questions|
    ensures g.Some? ==> Details(questions, answers, justifications) == Some(g.value.entries)
  {
    var score := 0;
    var i := 0;
    while i < |questions|
      invariant 0 <= i <= |questions|
      invariant score == Score(questions[..i], answers, justifications)
    {
      ScoreStep(questions, i, answers, justifications);
      if Given(answers, questions[i].id) && Given(justifications, questions[i].id) && Flag(questions[i], answers, justifications) {
        score := score + 1;
      }
      i := i + 1;
    }
    assert questions[..i] == questions;

    var entries: seq<Entry> := [];
    i := 0;
    while i < |questions|
      invariant 0 <= i <= |questions|
      invariant Details(questions[..i], answers, justifications) == Some(entries)
    {
      DetailsStep(questions, i, answers, justifications);
      var d := DetailFor(questions[i], answers, justifications);
      if d.None? {
        return None;
      }
      entries := entries + [Entry(questions[i].id, d.value)];
      i := i + 1;
    }
    assert questions[..i] == questions;
    g := Some(Graded(score, entries));
  }

  lemma ScoreStep(questions: seq<Question>, i: nat, answers: map<string, string>, justifications: map<string, string>)
    requires i < |questions|
    ensures Score(questions[..i + 1], answers, justifications)
      == Score(questions[..i], answers, justifications) + (if Counts(questions[i], answers, justifications) then 1 else 0)
  {
    assert questions[..i + 1][..i] == questions[..i];
  }

  lemma DetailsStep(questions: seq<Question>, i: nat, answers: map<string, string>, justifications: map<string, string>)
    requires i < |questions|
    ensures Details(questions[..i + 1], answers, justifications)
      == match Details(questions[..i], answers, justifications)
         case None => None
         case Some(es) =>
           match DetailFor(questions[i], answers, justifications)
           case None => None
           case Some(d) => Some(es + [Entry(questions[i].id, d)])
  {
    assert questions[..i + 1][..i] == questions[..i];
  }

  /** The set of positions of the questions that add to the score. */
  function CountedPositions(questions: seq<Question>, answers: map<string, string>, justifications: map<string, string>): set<nat> {
    set i: nat | i < |questions| && Counts(questions[i], answers, justifications)
  }

  /** The score is the number of questions answered correctly with a justification. */
  lemma {:induction false} ScoreCountsCorrectQuestions(questions: seq<Question>, answers: map<string, string>, justifications: map<string, string>)
    ensures Score(questions, answers, justifications) == |CountedPositions(questions, answers, justifications)|
    decreases |questions|
  {
    if questions != [] {
      var n := |questions| - 1;
      var init := questions[..n];
      ScoreCountsCorrectQuestions(init, answers, justifications);
      var before := CountedPositions(init, answers, justifications);
      var after := CountedPositions(questions, answers, justifications);
      if Counts(questions[n], answers, justifications) {
        assert after == before + {n};
      } else {
        assert after == before;
      }
    }
  }

  /** The number of entries whose evaluation message is "Correcta". */
  function CorrectEntries(entries: seq<Entry>): nat {
    if entries == [] then 0
    else CorrectEntries(entries[..|entries| - 1]) + (if entries[|entries| - 1].detail.message == CorrectMessage then 1 else 0)
  }

  /**
   * What each evaluation message means: "Correcta" exactly for the questions
   * that add to the score, the "not evaluated" message exactly when the answer
   * or the justification is missing, and otherwise the wrong-answer message
   * naming the text of the first option whose value is the key.
   */
  lemma MessageMeaning(q: Question, answers: map<string, string>, justifications: map<string, string>)
    requires DetailFor(q, answers, justifications).Some?
    ensures var d := DetailFor(q, answers, justifications).value;
      && (d.message == CorrectMessage <==> Counts(q, answers, justifications))
      && (d.message == NotEvaluated <==> !Evaluated(q, answers, justifications))
      && (Evaluated(q, answers, justifications) && !Counts(q, answers, justifications) ==>
            exists k :: 0 <= k < |q.options| && q.options[k].value == q.correctAnswer
              && (forall m :: 0 <= m < k ==> q.options[m].value != q.correctAnswer)
              && d.message == IncorrectPrefix + q.options[k].text)
  {
    var d := DetailFor(q, answers, justifications).value;
    if Evaluated(q, answers, justifications) && !Flag(q, answers, justifications) {
      var k := ChoiceIndex(q.options, q.correctAnswer).value;
      assert d.message == IncorrectPrefix + q.options[k].text;
      assert d.message[0] == 'I' != NotEvaluated[0];
    }
  }

  /**
   * The shown value is the submitted answer when one is given, and
   * "No respondida" otherwise; the stored flag is the auto-grade flag.
   */
  lemma DetailValue(q: Question, answers: map<string, string>, justifications: map<string, string>)
    requires DetailFor(q, answers, justifications).Some?
    ensures var d := DetailFor(q, answers, justifications).value;
      && (Given(answers, q.id) ==> d.value == answers[q.id])
      && (!Given(answers, q.id) ==> d.value == NotAnswered)
      && (d.correct <==> Flag(q, answers, justifications))
      && d.manualScore.None? && d.comment.None?
  {
  }

  /**
   * The score counts one condition more than the flag: a flagged question
   * fails to count exactly when its key is the empty string (and so is the
   * "answer" that matched it).
   */
  lemma FlagVersusCount(q: Question, answers: map<string, string>, justifications: map<string, string>)
    ensures Counts(q, answers, justifications) <==> Flag(q, answers, justifications) && q.correctAnswer != ""
  {
  }

  /** The score equals the number of stored entries whose message is "Correcta". */
  lemma {:induction false} ScoreMatchesCorrectMessages(questions: seq<Question>, answers: map<string, string>, justifications: map<string, string>)
    requires Details(questions, answers, justifications).Some?
    ensures Score(questions, answers, justifications) == CorrectEntries(Details(questions, answers, justifications).value)
    decreases |questions|
  {
    if questions != [] {
      var n := |questions| - 1;
      var es := Details(questions, answers, justifications).value;
      ScoreMatchesCorrectMessages(questions[..n], answers, justifications);
      assert es[..n] == Details(questions[..n], answers, justifications).value;
      MessageMeaning(questions[n], answers, justifications);
    }
  }
}

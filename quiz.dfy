/**
 * The entities of the quiz server: the question bank as it is read from
 * questions.json, and the rows of the `responses` table.
 *
 * JSON strings and JavaScript truthiness: a submitted answer, a justification
 * or a comment is "given" when its key is present and its text is not the
 * empty string (the only falsy string).
 */
module Quiz {

  datatype Option<+T> = None | Some(value: T) {
    function GetOr(default: T): T {
      match this
      case Some(v) => v
      case None => default
    }
  }

  /** One radio option of a question: the submitted `value` and the `text` shown. */
  datatype Choice = Choice(value: string, text: string)

  /** A question of the bank: its id (a key such as "q1"), its options and its key. */
  datatype Question = Question(id: string, options: seq<Choice>, correctAnswer: string)

  /**
   * The per-question sub-record stored in the `answers` column:
   * the shown value, the auto-grade flag, the evaluation message,
   * and the optional manual `score` and `comment` an administrator adds.
   */
  datatype Detail = Detail(
    value: string,
    correct: bool,
    message: string,
    manualScore: Option<int>,
    comment: Option<string>)

  /** One key of the `answers` object, in the object's key order. */
  datatype Entry = Entry(id: string, detail: Detail)

  /**
   * One row of the `responses` table. `ip` is None when the client sent no
   * address (stored as SQL NULL); `kind` is the stored label "Manual" or
   * "Automático"; `date` is the locale-formatted submission time.
   */
  datatype Record = Record(
    name: string,
    surname: string,
    email: string,
    ip: Option<string>,
    kind: string,
    date: string,
    score: int,
    total: nat,
    answers: seq<Entry>,
    justifications: map<string, string>,
    corrected: bool)

  /** A string-valued JSON object field that is present and truthy. */
  predicate Given(m: map<string, string>, key: string) {
    key in m && m[key] != ""
  }

  /** No two questions of the bank share an id. */
  predicate DistinctIds(questions: seq<Question>) {
    forall i, j :: 0 <= i < j < |questions| ==> questions[i].id != questions[j].id
  }

  /** No two keys of an `answers` object are equal. */
  predicate DistinctKeys(entries: seq<Entry>) {
    forall i, j :: 0 <= i < j < |entries| ==> entries[i].id != entries[j].id
  }

  /**
   * The position of the first occurrence of `x` in `s`, if any: what
   * `Array.prototype.find`, `String.prototype.replace` with a string pattern
   * and a single-row `SELECT` each look for.
   */
  function IndexOf<T(==)>(s: seq<T>, x: T): (k: Option<nat>)
    ensures k.Some? ==> k.value < |s| && s[k.value] == x && x !in s[..k.value]
    ensures k.None? <==> x !in s
  {
    if s == [] then None
    else if s[0] == x then Some(0)
    else match IndexOf(s[1..], x)
      case None => None
      case Some(k) =>
        assert s[..k + 1] == [s[0]] + s[1..][..k];
        Some(k + 1)
  }

  /** The keys of an `answers` object, in key order. */
  function Ids(entries: seq<Entry>): (ids: seq<string>)
    ensures |ids| == |entries|
  {
    seq(|entries|, i requires 0 <= i < |entries| => entries[i].id)
  }

  /** The position of the key `id` in an `answers` object (`answers[questionNumber]`), if any. */
  function EntryIndex(entries: seq<Entry>, id: string): (k: Option<nat>)
    ensures k.Some? ==> k.value < |entries| && entries[k.value].id == id
    ensures k.Some? ==> forall m :: 0 <= m < k.value ==> entries[m].id != id
    ensures k.None? <==> forall m :: 0 <= m < |entries| ==> entries[m].id != id
  {
    var k := IndexOf(Ids(entries), id);
    assert forall m :: 0 <= m < |entries| ==> Ids(entries)[m] == entries[m].id;
    assert k.Some? ==> forall m :: 0 <= m < k.value ==> Ids(entries)[..k.value][m] == Ids(entries)[m];
    k
  }
}

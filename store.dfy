/**
 * The `responses` table and the handlers that read and change it:
 * `/submit`, `/check-results`, `/view-responses`, `/update-feedback` and
 * `/reset-quiz` (server.js:42-339). The table is a sequence of records in
 * insertion order, which is the order the unordered `SELECT`s return rows in.
 */
module Store {
  import opened Quiz
  import opened Grading
  import opened Render

  /** The reply of `/submit`: its HTTP status, `success` flag and message. */
  datatype SubmitOutcome = Submitted | MissingFields | AlreadySubmitted | SubmitFailed {
    function Status(): nat {
      match this
      case Submitted => 200
      case MissingFields => 400
      case AlreadySubmitted => 400
      case SubmitFailed => 500
    }
    function Message(): string {
      match this
      case Submitted => "Cuestionario enviado. La corrección está en proceso."
      case MissingFields => "Por favor completa los campos de nombre, apellido y correo."
      case AlreadySubmitted => "Este correo o dispositivo ya ha enviado el cuestionario."
      case SubmitFailed => "Error al procesar el envío. Por favor intenta de nuevo."
    }
  }

  /** The reply of `/check-results`; both kinds are sent with status 200. */
  datatype Lookup =
    | NotFound
    | Found(corrected: bool, score: int, total: nat, answers: seq<Entry>, justifications: map<string, string>)

  /** The reply of `/view-responses`. */
  datatype ViewOutcome = ViewDenied | Responses(text: string) {
    function Status(): nat {
      if ViewDenied? then 401 else 200
    }
  }

  /** The reply of `/update-feedback`. */
  datatype UpdateOutcome = Updated | UpdateDenied | UpdateNotFound | UpdateFailed {
    function Status(): nat {
      match this
      case Updated => 200
      case UpdateDenied => 401
      case UpdateNotFound => 200
      case UpdateFailed => 500
    }
    function Message(): string {
      match this
      case Updated => "Corrección actualizada."
      case UpdateDenied => "Clave incorrecta."
      case UpdateNotFound => "No se encontró el cuestionario."
      case UpdateFailed => "Error al actualizar corrección."
    }
  }

  /** The reply of `/reset-quiz`. */
  datatype ResetOutcome = ResetDone | ResetDenied {
    function Status(): nat {
      if ResetDenied? then 401 else 200
    }
  }

  /**
   * The administrator gate: the supplied password must be strictly equal to
   * the configured one. Either may be absent (JavaScript `undefined`).
   */
  predicate Authorized(password: Option<string>, secret: Option<string>) {
    password == secret
  }

  /** With no password configured, a request that sends none passes the gate. */
  lemma UnsetSecretAdmitsMissingPassword()
    ensures Authorized(None, None)
    ensures forall p: string :: !Authorized(Some(p), None)
  {
  }

  /** `correo = ? OR ip = ?` on one row; an absent ip binds as NULL and matches nothing. */
  predicate Clashes(r: Record, email: string, ip: Option<string>) {
    r.email == email || (ip.Some? && r.ip == ip)
  }

  /** Some row of the table blocks a submission from this email and ip. */
  predicate Conflicts(table: seq<Record>, email: string, ip: Option<string>) {
    exists i :: 0 <= i < |table| && Clashes(table[i], email, ip)
  }

  /** Without an ip, the duplicate check is a check on the email alone. */
  lemma ConflictWithoutIp(table: seq<Record>, email: string)
    ensures Conflicts(table, email, None) <==> exists i :: 0 <= i < |table| && table[i].email == email
  {
  }

  /**
   * At most one row per email, and at most one row per present ip: what the
   * duplicate check of `/submit` guarantees.
   */
  predicate UniqueKeys(table: seq<Record>) {
    forall i, j :: 0 <= i < j < |table| ==>
      table[i].email != table[j].email && (table[i].ip == table[j].ip ==> table[i].ip.None?)
  }

  /** The invariant of the table: unique keys, non-empty emails, one entry per question id. */
  predicate WellFormed(table: seq<Record>) {
    && UniqueKeys(table)
    && forall i :: 0 <= i < |table| ==> table[i].email != "" && DistinctKeys(table[i].answers)
  }

  /** The emails of the rows, in table order. */
  function Emails(table: seq<Record>): (es: seq<string>)
    ensures |es| == |table|
  {
    seq(|table|, i requires 0 <= i < |table| => table[i].email)
  }

  /** The position of the first row with this email (`db.get ... WHERE correo = ?`). */
  function FirstWithEmail(table: seq<Record>, email: string): (k: Option<nat>)
    ensures k.Some? ==> k.value < |table| && table[k.value].email == email
    ensures k.Some? ==> forall m :: 0 <= m < k.value ==> table[m].email != email
    ensures k.None? <==> forall m :: 0 <= m < |table| ==> table[m].email != email
  {
    var k := IndexOf(Emails(table), email);
    assert forall m :: 0 <= m < |table| ==> Emails(table)[m] == table[m].email;
    assert k.Some? ==> forall m :: 0 <= m < k.value ==> Emails(table)[..k.value][m] == Emails(table)[m];
    k
  }

  /** The fields `/check-results` returns for a row. */
  function ResultsOf(r: Record): Lookup {
    Found(r.corrected, r.score, r.total, r.answers, r.justifications)
  }

  /**
   * `/check-results`: the row of the first record with this email, or a
   * soft "not found" when there is none.
   */
  function CheckResults(table: seq<Record>, email: string): (r: Lookup)
    ensures r.NotFound? <==> forall i :: 0 <= i < |table| ==> table[i].email != email
    ensures r.Found? ==> exists i :: 0 <= i < |table| && table[i].email == email && r == ResultsOf(table[i])
  {
    match FirstWithEmail(table, email)
    case None => NotFound
    case Some(i) => ResultsOf(table[i])
  }

  /** In a well-formed table, looking up a record's email returns that very record. */
  lemma CheckResultsFindsOwnRecord(table: seq<Record>, i: nat)
    requires WellFormed(table) && i < |table|
    ensures CheckResults(table, table[i].email) == ResultsOf(table[i])
  {
  }

  /** No lookup by the empty email finds anything in a well-formed table. */
  lemma CheckResultsEmptyEmail(table: seq<Record>)
    requires WellFormed(table)
    ensures CheckResults(table, "") == NotFound
  {
  }

  /**
   * `/view-responses`: the listing for the administrator, which is the
   * sentinel sentence exactly when the table is empty.
   */
  function ViewResponses(table: seq<Record>, password: Option<string>, secret: Option<string>): (v: ViewOutcome)
    ensures v.ViewDenied? <==> !Authorized(password, secret)
    ensures v.Responses? ==> (v.text == EmptyListing <==> table == [])
    ensures v.Responses? && table != [] ==> v.text == Blocks(table)
  {
    ListingIsSentinelIffEmpty(table);
    if !Authorized(password, secret) then ViewDenied else Responses(Listing(table))
  }

  /** The change the manual override makes to the total for one question. */
  function OverrideDelta(wasCorrect: bool, score: int): int {
    if wasCorrect && score == 0 then -1
    else if !wasCorrect && score == 1 then 1
    else 0
  }

  /** The row after `/update-feedback` has set question `k`'s score and comment. */
  function Overridden(r: Record, k: nat, score: int, comment: string): (r': Record)
    requires k < |r.answers|
  {
    var d := r.answers[k].detail;
    r.(score := r.score + OverrideDelta(d.correct, score),
       answers := r.answers[k := Entry(r.answers[k].id, d.(manualScore := Some(score), comment := Some(comment)))],
       corrected := true)
  }

  /**
   * For an override of 0 or 1 the total moves by the override minus the
   * question's auto-grade credit; for any other value it does not move.
   */
  lemma OverrideScore(r: Record, k: nat, score: int, comment: string)
    requires k < |r.answers|
    ensures var credit := if r.answers[k].detail.correct then 1 else 0;
      Overridden(r, k, score, comment).score
        == if score == 0 || score == 1 then r.score + score - credit else r.score
  {
  }

  /**
   * The override touches one question only: the other questions, every
   * auto-grade flag, the key order and the record's identity are kept, and
   * the record becomes corrected.
   */
  lemma OverrideFrame(r: Record, k: nat, score: int, comment: string)
    requires k < |r.answers|
    ensures var r' := Overridden(r, k, score, comment);
      && |r'.answers| == |r.answers|
      && (forall m :: 0 <= m < |r.answers| && m != k ==> r'.answers[m] == r.answers[m])
      && (forall m :: 0 <= m < |r.answers| ==>
            r'.answers[m].id == r.answers[m].id && r'.answers[m].detail.correct == r.answers[m].detail.correct)
      && r'.answers[k].detail.manualScore == Some(score)
      && r'.answers[k].detail.comment == Some(comment)
      && r'.answers[k].detail.value == r.answers[k].detail.value
      && r'.answers[k].detail.message == r.answers[k].detail.message
      && r'.corrected
      && r'.(score := r.score, answers := r.answers, corrected := r.corrected) == r
  {
  }

  /** The row after the same override has been sent `n` times. */
  function Reapplied(r: Record, k: nat, score: int, comment: string, n: nat): (r': Record)
    requires k < |r.answers|
    ensures |r'.answers| == |r.answers|
    ensures forall m :: 0 <= m < |r.answers| ==> r'.answers[m].detail.correct == r.answers[m].detail.correct
    decreases n
  {
    if n == 0 then r else Overridden(Reapplied(r, k, score, comment, n - 1), k, score, comment)
  }

  /**
   * Sending the same override again shifts the total again: the flag it is
   * compared with is the auto-grade flag, which no override rewrites. The
   * question's own fields are those of a single override.
   */
  lemma {:induction false} RepeatedOverrideShiftsAgain(r: Record, k: nat, score: int, comment: string, n: nat)
    requires k < |r.answers| && n >= 1
    ensures Reapplied(r, k, score, comment, n).score == r.score + n * OverrideDelta(r.answers[k].detail.correct, score)
    ensures Reapplied(r, k, score, comment, n).answers == Overridden(r, k, score, comment).answers
    decreases n
  {
    if n > 1 {
      RepeatedOverrideShiftsAgain(r, k, score, comment, n - 1);
      var delta := OverrideDelta(r.answers[k].detail.correct, score);
      assert (n - 1) * delta + delta == n * delta;
    }
  }

  /** Built from a bank with distinct ids, the `answers` object has distinct keys. */
  lemma DetailsHaveDistinctKeys(questions: seq<Question>, answers: map<string, string>, justifications: map<string, string>)
    requires DistinctIds(questions)
    requires Details(questions, answers, justifications).Some?
    ensures DistinctKeys(Details(questions, answers, justifications).value)
  {
    var es := Details(questions, answers, justifications).value;
    forall i, j | 0 <= i < j < |es|
      ensures es[i].id != es[j].id
    {
      assert es[i].id == questions[i].id;
    }
  }

  /** A row that passed the duplicate check keeps the table well formed when appended. */
  lemma AppendKeepsWellFormed(table: seq<Record>, r: Record)
    requires WellFormed(table)
    requires r.email != "" && DistinctKeys(r.answers)
    requires !Conflicts(table, r.email, r.ip)
    ensures WellFormed(table + [r])
  {
    var t := table + [r];
    forall i, j | 0 <= i < j < |t|
      ensures t[i].email != t[j].email && (t[i].ip == t[j].ip ==> t[i].ip.None?)
    {
      if j == |table| {
        assert !Clashes(table[i], r.email, r.ip);
      }
    }
  }

  /** The table and the handlers that change it. */
  class QuizStore {
    var records: seq<Record>

    ghost predicate Valid()
      reads this
    {
      WellFormed(records)
    }

    /** The freshly provisioned, empty table. */
    constructor ()
      ensures Valid() && records == []
    {
      records := [];
    }

    /**
     * `/submit`: checks the required fields, refuses a duplicate email or ip,
     * grades the answers and appends one uncorrected record.
     */
    method Submit(
      name: string, surname: string, email: string, ip: Option<string>, kind: string,
      answers: map<string, string>, justifications: Option<map<string, string>>,
      questions: seq<Question>, now: string)
      returns (out: SubmitOutcome)
      requires Valid()
      requires DistinctIds(questions)
      modifies this
      ensures Valid()
      ensures out.MissingFields? <==> name == "" || surname == "" || email == ""
      ensures out.AlreadySubmitted? <==>
        name != "" && surname != "" && email != "" && Conflicts(old(records), email, ip)
      ensures out.SubmitFailed? <==>
        name != "" && surname != "" && email != "" && !Conflicts(old(records), email, ip)
        && Details(questions, answers, justifications.GetOr(map[])).None?
      ensures !out.Submitted? ==> records == old(records)
      ensures out.Submitted? ==>
        && |records| == |old(records)| + 1
        && records[..|old(records)|] == old(records)
      ensures out.Submitted? ==>
        var r := records[|records| - 1];
        var js := justifications.GetOr(map[]);
        && r.name == name && r.surname == surname && r.email == email && r.ip == ip && r.date == now
        && r.kind == (if kind == "manual" then "Manual" else "Automático")
        && r.score == Score(questions, answers, js) <= r.total == |questions|
        && Details(questions, answers, js) == Some(r.answers)
        && r.justifications == js
        && !r.corrected
      ensures out.Submitted? ==> CheckResults(records, email) == ResultsOf(records[|records| - 1])
      ensures out.Submitted? ==> Blocks(records) == Blocks(old(records)) + Block(records[|records| - 1])
    {
      if name == "" || surname == "" || email == "" {
        return MissingFields;
      }
      if Conflicts(records, email, ip) {
        return AlreadySubmitted;
      }
      var js := justifications.GetOr(map[]);
      var g := Grade(questions, answers, js);
      if g.None? {
        return SubmitFailed;
      }
      var kindLabel := if kind == "manual" then "Manual" else "Automático";
      var r := Record(name, surname, email, ip, kindLabel, now, g.value.score, |questions|, g.value.entries, js, false);
      ghost var before := records;
      records := records + [r];
      out := Submitted;

      DetailsHaveDistinctKeys(questions, answers, js);
      AppendKeepsWellFormed(before, r);
      CheckResultsFindsOwnRecord(records, |records| - 1);
      BlocksSnoc(before, r);
    }

    /**
     * `/update-feedback`: after the password check, finds the student's
     * record, moves its total by the override's delta against the stored
     * auto-grade flag, stores the question's manual score and comment, and
     * marks the record corrected. A question id that is not a key of the
     * record's `answers` object is a server error.
     */
    method UpdateFeedback(
      password: Option<string>, secret: Option<string>,
      studentEmail: string, questionNumber: string, score: int, comment: string)
      returns (out: UpdateOutcome)
      requires Valid()
      modifies this
      ensures Valid()
      ensures out.UpdateDenied? <==> !Authorized(password, secret)
      ensures out.UpdateNotFound? <==>
        Authorized(password, secret) && FirstWithEmail(old(records), studentEmail).None?
      ensures out.UpdateFailed? <==>
        && Authorized(password, secret)
        && FirstWithEmail(old(records), studentEmail).Some?
        && EntryIndex(old(records)[FirstWithEmail(old(records), studentEmail).value].answers, questionNumber).None?
      ensures !out.Updated? ==> records == old(records)
      ensures out.Updated? ==>
        var i := FirstWithEmail(old(records), studentEmail).value;
        var k := EntryIndex(old(records)[i].answers, questionNumber).value;
        && (forall j :: 0 <= j < |old(records)| && old(records)[j].email == studentEmail ==> j == i)
        && records == old(records)[i := Overridden(old(records)[i], k, score, comment)]
      ensures out.Updated? ==> CheckResults(records, studentEmail).Found? && CheckResults(records, studentEmail).corrected
    {
      if !Authorized(password, secret) {
        return UpdateDenied;
      }
      var found := FirstWithEmail(records, studentEmail);
      if found.None? {
        return UpdateNotFound;
      }
      var i := found.value;
      var row := records[i];
      var answers := row.answers;
      var index := EntryIndex(answers, questionNumber);
      if index.None? {
        return UpdateFailed;
      }
      var k := index.value;
      var d := answers[k].detail;
      var totalScore := row.score;
      if d.correct && score == 0 {
        totalScore := totalScore - 1;
      }
      if !d.correct && score == 1 {
        totalScore := totalScore + 1;
      }
      answers := answers[k := Entry(questionNumber, d.(manualScore := Some(score), comment := Some(comment)))];
      ghost var before := records;
      records := records[i := row.(answers := answers, score := totalScore, corrected := true)];
      out := Updated;

      assert records[i] == Overridden(before[i], k, score, comment);
      forall j | 0 <= j < |before| && before[j].email == studentEmail
        ensures j == i
      {
      }
      assert DistinctKeys(records[i].answers) by {
        OverrideFrame(before[i], k, score, comment);
      }
      assert UniqueKeys(records) by {
        forall a, b | 0 <= a < b < |records|
          ensures records[a].email != records[b].email && (records[a].ip == records[b].ip ==> records[a].ip.None?)
        {
          assert records[a].email == before[a].email && records[a].ip == before[a].ip;
          assert records[b].email == before[b].email && records[b].ip == before[b].ip;
        }
      }
      CheckResultsFindsOwnRecord(records, i);
    }

    /** `/reset-quiz`: after the password check, deletes every record. */
    method Reset(password: Option<string>, secret: Option<string>) returns (out: ResetOutcome)
      requires Valid()
      modifies this
      ensures Valid()
      ensures out.ResetDenied? <==> !Authorized(password, secret)
      ensures out.ResetDenied? ==> records == old(records)
      ensures out.ResetDone? ==> records == []
      ensures out.ResetDone? ==> ViewResponses(records, password, secret) == Responses(EmptyListing)
    {
      if !Authorized(password, secret) {
        return ResetDenied;
      }
      records := [];
      out := ResetDone;
    }
  }
}

/**
 * A session against the store that uses only the contracts above: a graded
 * submission, a duplicate refused by email, the same override sent twice,
 * and a reset followed by the listing.
 */
module Scenario {
  import opened Quiz
  import opened Grading
  import opened Store
  import opened Render

  const Bank := [Question("q1", [Choice("a", "Opción A"), Choice("b", "Opción B")], "a")]

  /** The row a first, correct and justified submission to `Bank` stores. */
  const AnaRow := Record("Ana", "Ruiz", "ana@example.com", Some("10.0.0.1"), "Manual", "1/1/2025, 10:00:00",
                         1, 1, [Entry("q1", Detail("a", true, CorrectMessage, None, None))], map["q1" := "porque"], false)

  /** A first submission to an empty store is accepted and stored as graded. */
  method FirstSubmission() returns (store: QuizStore)
    ensures fresh(store) && store.Valid()
    ensures |store.records| == 1
    ensures store.records[0].email == AnaRow.email && store.records[0].score == 1
    ensures store.records[0].answers == AnaRow.answers && store.records[0].kind == "Manual" && !store.records[0].corrected
  {
    AnaGraded();
    store := new QuizStore();
    var out := store.Submit(AnaRow.name, AnaRow.surname, AnaRow.email, AnaRow.ip, "manual",
                            map["q1" := "a"], Some(AnaRow.justifications), Bank, AnaRow.date);
    assert out == Submitted by {
      assert !Conflicts([], AnaRow.email, AnaRow.ip);
    }
  }

  /** Grading `Bank` with the key as answer and a justification: one point, one "Correcta" entry. */
  lemma AnaGraded()
    ensures Score(Bank, map["q1" := "a"], map["q1" := "porque"]) == 1
    ensures Details(Bank, map["q1" := "a"], map["q1" := "porque"]) == Some(AnaRow.answers)
  {
    var answers, js := map["q1" := "a"], map["q1" := "porque"];
    assert Bank[..0] == [];
    assert Counts(Bank[0], answers, js);
    assert Details(Bank[..0], answers, js) == Some([]);
    assert DetailFor(Bank[0], answers, js) == Some(AnaRow.answers[0].detail);
    assert |Bank| == 1 && AnaRow.answers == [] + [Entry(Bank[0].id, AnaRow.answers[0].detail)];
  }

  method OneStudentSession(secret: string) {
    var store := FirstSubmission();
    assert store.records[0].answers[0].detail.message == CorrectMessage;

    var again := store.Submit("Ana", "Ruiz", "ana@example.com", None, "auto",
                              map[], None, Bank, "1/1/2025, 10:05:00");
    assert again == AlreadySubmitted by {
      assert Clashes(store.records[0], "ana@example.com", None);
    }

    var u1 := store.UpdateFeedback(Some(secret), Some(secret), "ana@example.com", "q1", 0, "sin justificar");
    var u2 := store.UpdateFeedback(Some(secret), Some(secret), "ana@example.com", "q1", 0, "sin justificar");
    assert u1 == Updated && u2 == Updated;
    assert store.records[0].score == -1;

    var reset := store.Reset(Some(secret), Some(secret));
    assert ViewResponses(store.records, Some(secret), Some(secret)) == Responses(EmptyListing);
  }
}

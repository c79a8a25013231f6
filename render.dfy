/**
 * The text the `/view-responses` handler builds from the table
 * (server.js:212-232): one fixed block per record, in table order, or a
 * sentinel sentence when the table is empty.
 */
module Render {
  import opened Quiz

  const EmptyListing := "No hay respuestas disponibles."
  const Rule := "----------------------------------------"
  const NoJustification := "No proporcionada"
  const NoComment := "Sin comentario"

  function Digit(d: nat): char
    requires d < 10
  {
    "0123456789"[d]
  }

  /** The decimal digits of `n`, as JavaScript prints a non-negative integer. */
  function NatToString(n: nat): (s: string)
    ensures |s| >= 1
    ensures forall i :: 0 <= i < |s| ==> '0' <= s[i] <= '9'
    ensures s[0] == '0' ==> n == 0
  {
    if n < 10 then [Digit(n)] else NatToString(n / 10) + [Digit(n % 10)]
  }

  /** The value of a string of decimal digits, read left to right. */
  function DigitsValue(s: string): nat
    requires forall i :: 0 <= i < |s| ==> '0' <= s[i] <= '9'
  {
    if s == [] then 0
    else DigitsValue(s[..|s| - 1]) * 10 + (s[|s| - 1] as int - '0' as int)
  }

  /** Printing a count and reading it back gives the count. */
  lemma {:induction false} NatToStringRoundTrip(n: nat)
    ensures DigitsValue(NatToString(n)) == n
  {
    var s := NatToString(n);
    if n >= 10 {
      NatToStringRoundTrip(n / 10);
      assert s[..|s| - 1] == NatToString(n / 10);
    }
  }

  /** An integer score as `${score}` prints it: a minus sign before negative values. */
  function IntToString(n: int): (s: string)
    ensures |s| >= 1
    ensures s[0] == '-' <==> n < 0
  {
    if n < 0 then "-" + NatToString(-n) else NatToString(n)
  }

  /** A stored IP as a template literal prints it; SQL NULL reads back as `null`. */
  function IpText(ip: Option<string>): string {
    match ip
    case None => "null"
    case Some(a) => a
  }

  /**
   * `id.replace('q', '')`: the question id without its first letter `q`,
   * unchanged when it holds none.
   */
  function StripFirstQ(id: string): string {
    match IndexOf(id, 'q')
    case None => id
    case Some(i) => id[..i] + id[i + 1..]
  }

  /** The number shown for a question is its id with exactly its first `q` removed. */
  lemma StripFirstQRemovesFirstQ(id: string)
    ensures 'q' !in id ==> StripFirstQ(id) == id
    ensures 'q' in id ==> exists i :: 0 <= i < |id| && id[i] == 'q' && 'q' !in id[..i] && StripFirstQ(id) == id[..i] + id[i + 1..]
  {
    if 'q' in id {
      var i := IndexOf(id, 'q').value;
      assert id[i] == 'q' && 'q' !in id[..i];
    }
  }

  /** The justification as the listing shows it: never blank. */
  function JustificationShown(justifications: map<string, string>, id: string): (t: string)
    ensures t != ""
    ensures Given(justifications, id) ==> t == justifications[id]
    ensures !Given(justifications, id) ==> t == NoJustification
  {
    if Given(justifications, id) then justifications[id] else NoJustification
  }

  /** The administrator's comment as the listing shows it: never blank. */
  function CommentShown(comment: Option<string>): (t: string)
    ensures t != ""
    ensures comment.Some? && comment.value != "" ==> t == comment.value
    ensures !(comment.Some? && comment.value != "") ==> t == NoComment
  {
    if comment.Some? && comment.value != "" then comment.value else NoComment
  }

  /** The three lines the listing prints for one key of the `answers` object. */
  function QuestionLines(e: Entry, justifications: map<string, string>): string {
    var number := StripFirstQ(e.id);
    "\n"
    + "Pregunta " + number + ": " + e.detail.value + " (" + e.detail.message + ")\n"
    + "Justificación " + number + ": " + JustificationShown(justifications, e.id) + "\n"
    + "Comentario " + number + ": " + CommentShown(e.detail.comment) + "\n"
  }

  /** `items.map(f).join('')`: the texts of the items, joined in order. */
  function MapJoin<T>(f: T -> string, items: seq<T>): string {
    if items == [] then "" else f(items[0]) + MapJoin(f, items[1..])
  }

  /** Mapping and joining two runs of items is joining the two results. */
  lemma {:induction false} MapJoinAppend<T>(f: T -> string, a: seq<T>, b: seq<T>)
    ensures MapJoin(f, a + b) == MapJoin(f, a) + MapJoin(f, b)
  {
    if a != [] {
      assert (a + b)[1..] == a[1..] + b;
      MapJoinAppend(f, a[1..], b);
    } else {
      assert a + b == b;
    }
  }

  /** Mapping and joining one more item appends that item's text. */
  lemma MapJoinSnoc<T>(f: T -> string, items: seq<T>, x: T)
    ensures MapJoin(f, items + [x]) == MapJoin(f, items) + f(x)
  {
    MapJoinAppend(f, items, [x]);
    assert MapJoin(f, [x]) == f(x) + MapJoin(f, []);
  }

  /** The lines of every key of the `answers` object, in key order. */
  function AllQuestionLines(entries: seq<Entry>, justifications: map<string, string>): string {
    MapJoin(e => QuestionLines(e, justifications), entries)
  }

  function CorrectedMark(corrected: bool): string {
    if corrected then "Sí" else "No"
  }

  /** The closing lines of a block: the corrected mark and the rule. */
  function Footer(corrected: bool): string {
    "\nCorregido: " + CorrectedMark(corrected) + "\n" + Rule + "\n"
  }

  /** The block the listing prints for one record. */
  function Block(r: Record): string {
    Opening + Fields(r) + AllQuestionLines(r.answers, r.justifications) + Footer(r.corrected)
  }

  const Opening := "\n" + Rule + "\n"

  /** The field lines of a block, from the submission type to the score. */
  function Fields(r: Record): string {
    "Envío: " + r.kind + "\n"
    + "Fecha: " + r.date + "\n"
    + "Nombre: " + r.name + "\n"
    + "Apellido: " + r.surname + "\n"
    + "Correo: " + r.email + "\n"
    + "IP: " + IpText(r.ip) + "\n"
    + "Puntuación: " + IntToString(r.score) + "/" + IntToString(r.total) + "\n"
  }

  /** The blocks of all records, joined in table order. */
  function Blocks(table: seq<Record>): string {
    MapJoin(Block, table)
  }

  /** The text of a listing: the sentinel sentence for an empty table, else the blocks. */
  function Listing(table: seq<Record>): string {
    if |table| > 0 then Blocks(table) else EmptyListing
  }

  /** Joining the blocks of two tables is joining the two tables' blocks. */
  lemma BlocksAppend(a: seq<Record>, b: seq<Record>)
    ensures Blocks(a + b) == Blocks(a) + Blocks(b)
  {
    MapJoinAppend(Block, a, b);
  }

  /** Appending a record to the table appends its block to the joined blocks. */
  lemma BlocksSnoc(table: seq<Record>, r: Record)
    ensures Blocks(table + [r]) == Blocks(table) + Block(r)
  {
    MapJoinSnoc(Block, table, r);
  }

  /** The listing holds the block of every record at its place in table order. */
  lemma BlockAt(table: seq<Record>, i: nat)
    requires i < |table|
    ensures Listing(table) == Blocks(table[..i]) + Block(table[i]) + Blocks(table[i + 1..])
  {
    assert table == table[..i] + ([table[i]] + table[i + 1..]);
    BlocksAppend(table[..i], [table[i]] + table[i + 1..]);
    assert ([table[i]] + table[i + 1..])[1..] == table[i + 1..];
  }

  /** Every block opens with a line break followed by the rule. */
  lemma BlockStart(r: Record)
    ensures |Block(r)| > |Rule| && Block(r)[..|Opening|] == Opening
  {
  }

  /** The listing is the sentinel sentence exactly when the table is empty. */
  lemma ListingIsSentinelIffEmpty(table: seq<Record>)
    ensures Listing(table) == EmptyListing <==> table == []
  {
    if table != [] {
      BlockStart(table[0]);
      assert Listing(table)[0] == '\n';
      assert EmptyListing[0] == 'N';
    }
  }

  /**
   * A block ends with its footer: "Corregido: Sí" exactly when the record is
   * corrected, and "Corregido: No" otherwise.
   */
  lemma BlockShowsCorrected(r: Record)
    ensures |Block(r)| >= |Footer(true)|
    ensures Block(r)[|Block(r)| - |Footer(r.corrected)|..] == Footer(r.corrected)
    ensures Block(r)[|Block(r)| - |Footer(true)|..] == Footer(true) <==> r.corrected
  {
    var b := Block(r);
    var f := Footer(r.corrected);
    var head := Opening + Fields(r) + AllQuestionLines(r.answers, r.justifications);
    assert b == head + f;
    assert |Footer(true)| == |Footer(false)| == |f|;
    assert b[|head|..] == f;
    if !r.corrected {
      assert CorrectedMark(true) == ['S', 'í'];
      assert Footer(true)[12] == 'S' != Footer(false)[12];
    }
  }
}

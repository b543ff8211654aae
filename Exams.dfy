/** The exam tracker: an ordered list of exams with a subject and a date. */
module Exams {
  import opened Seqs

  datatype Exam = Exam(id: string, subject: string, date: string, topics: seq<string>)

  /**
   * Adding an exam: ignored unless both the subject and the date are
   * non-empty; otherwise one exam with no topics is appended at the end, its
   * date stored as `toIso` renders the entered date.
   */
  function AddExam(exams: seq<Exam>, id: string, subject: string, date: string, toIso: string -> string): (r: seq<Exam>)
    ensures subject == "" || date == "" ==> r == exams
    ensures subject != "" && date != "" ==> |r| == |exams| + 1 && r[..|exams|] == exams
    ensures subject != "" && date != "" ==> r[|exams|] == Exam(id, subject, toIso(date), [])
  {
    if subject != "" && date != "" then exams + [Exam(id, subject, toIso(date), [])] else exams
  }

  /** Deleting an exam: exactly the exams with that id go, the rest keep their order. */
  function DeleteExam(exams: seq<Exam>, id: string): (r: seq<Exam>)
    ensures forall e :: e in r <==> e in exams && e.id != id
    ensures forall e :: multiset(r)[e] == if e.id == id then 0 else multiset(exams)[e]
    ensures IsSubsequence(r, exams)
  {
    var keep := (e: Exam) => e.id != id;
    FilterSpec(exams, keep);
    Filter(exams, keep)
  }

  /** Deleting an exam just added under an id no other exam has gives back the list before. */
  lemma DeleteUndoesAdd(exams: seq<Exam>, id: string, subject: string, date: string, toIso: string -> string)
    requires forall e :: e in exams ==> e.id != id
    ensures DeleteExam(AddExam(exams, id, subject, date, toIso), id) == exams
  {
    var keep := (e: Exam) => e.id != id;
    forall i | 0 <= i < |exams|
      ensures keep(exams[i])
    {
      assert exams[i] in exams;
    }
    if subject == "" || date == "" {
      FilterKeepsAll(exams, keep);
    } else {
      FilterUndoesAppend(exams, Exam(id, subject, toIso(date), []), keep);
    }
  }
}

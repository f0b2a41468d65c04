/**
 * The practice page: a session moves from setup to active to finished over a
 * working set of incomplete questions, with a cursor and a log of the
 * answers given. Submitting an answer writes it to the practice-question
 * store and refreshes the page's copy of that question.
 */
module Practice {
  import opened Wrappers
  import opened Json
  import Seqs
  import Entities
  import PracticeSummary

  datatype Phase = Setup | Active | Finished

  /** `q => !q.completed`. */
  function Incomplete(): Record -> bool
  {
    q => !Truthy(Get(q, "completed"))
  }

  /** `q => q.completed`. */
  function Completed(): Record -> bool
  {
    q => Truthy(Get(q, "completed"))
  }

  function ForChild(childId: string): Record -> bool
  {
    q => StrictEq(Get(q, "child_id"), Str(childId))
  }

  function ForSubject(subject: string): Record -> bool
  {
    q => StrictEq(Get(q, "subject"), Str(subject))
  }

  /** The subject filter applies to a non-empty subject other than "all". */
  predicate SubjectFilterOn(subject: string)
  {
    subject != "" && subject != "all"
  }

  /**
   * The working set `startSession` builds: the incomplete questions, then
   * those of the child when one is chosen, then those of the subject.
   */
  function WorkingSet(all: seq<Record>, childId: string, subject: string): (r: seq<Record>)
    ensures |r| <= |all|
    ensures SubjectFilterOn(subject) ==> forall i :: 0 <= i < |r| ==> StrictEq(Get(r[i], "subject"), Str(subject))
  {
    var open := Seqs.Filter(all, Incomplete());
    var mine := if childId != "" then Seqs.Filter(open, ForChild(childId)) else open;
    if SubjectFilterOn(subject) then Seqs.Filter(mine, ForSubject(subject)) else mine
  }

  /** A question is in the working set exactly when it is open and meets both filters. */
  lemma WorkingSetMembers(all: seq<Record>, childId: string, subject: string, q: Record)
    ensures q in WorkingSet(all, childId, subject) <==>
      && q in all
      && !Truthy(Get(q, "completed"))
      && (childId != "" ==> StrictEq(Get(q, "child_id"), Str(childId)))
      && (SubjectFilterOn(subject) ==> StrictEq(Get(q, "subject"), Str(subject)))
  {
    var open := Seqs.Filter(all, Incomplete());
    var mine := if childId != "" then Seqs.Filter(open, ForChild(childId)) else open;
    Seqs.FilterMembership(all, Incomplete(), q);
    Seqs.FilterMembership(open, ForChild(childId), q);
    Seqs.FilterMembership(mine, ForSubject(subject), q);
  }

  /** The working set keeps the loaded order. */
  lemma WorkingSetOrdered(all: seq<Record>, childId: string, subject: string)
    ensures Seqs.IsSubsequence(WorkingSet(all, childId, subject), all)
  {
    var open := Seqs.Filter(all, Incomplete());
    var mine := if childId != "" then Seqs.Filter(open, ForChild(childId)) else open;
    Seqs.FilterIsSubsequence(all, Incomplete());
    Seqs.FilterIsSubsequence(open, ForChild(childId));
    Seqs.FilterIsSubsequence(mine, ForSubject(subject));
    if childId != "" {
      Seqs.SubsequenceTransitive(mine, open, all);
    }
    if SubjectFilterOn(subject) {
      Seqs.SubsequenceTransitive(WorkingSet(all, childId, subject), mine, all);
    }
  }

  /** The incomplete and completed questions split the loaded list. */
  lemma IncompleteCompletedPartition(all: seq<Record>)
    ensures |Seqs.Filter(all, Incomplete())| + |Seqs.Filter(all, Completed())| == |all|
    ensures multiset(Seqs.Filter(all, Incomplete())) + multiset(Seqs.Filter(all, Completed())) == multiset(all)
  {
    Seqs.FilterPartition(all, Completed(), Incomplete());
  }

  /** The fields `handleAnswerSubmit` writes to the store. */
  function AnswerFields(childAnswer: Value, isCorrect: bool): Record
  {
    map["completed" := Bool(true), "child_answer" := childAnswer, "answer_correct" := Bool(isCorrect)]
  }

  /** The entry appended to the session log. */
  function LogEntry(updated: Record, childAnswer: Value, isCorrect: bool): (e: Record)
    ensures Get(e, "child_answer") == childAnswer && Get(e, "is_correct") == Bool(isCorrect)
    ensures forall k :: k in updated && k != "child_answer" && k != "is_correct" ==> k in e && e[k] == updated[k]
  {
    Merge(updated, map["child_answer" := childAnswer, "is_correct" := Bool(isCorrect)])
  }

  /** `prev.map(q => q.id === updated.id ? updated : q)`. */
  function Refresh(all: seq<Record>, updated: Record): (r: seq<Record>)
    ensures |r| == |all|
    ensures forall i :: 0 <= i < |all| ==>
      r[i] == if Entities.HasId(all[i], Get(updated, "id")) then updated else all[i]
  {
    Seqs.Map(all, q => if Entities.HasId(q, Get(updated, "id")) then updated else q)
  }

  /** A stored answer counts toward the summary exactly when its verdict was correct. */
  lemma LoggedVerdictCounts(stored: Record, childAnswer: Value, isCorrect: bool)
    ensures PracticeSummary.AnsweredCorrectly()(
      LogEntry(Merge(stored, AnswerFields(childAnswer, isCorrect)), childAnswer, isCorrect)) == isCorrect
  {
    var e := LogEntry(Merge(stored, AnswerFields(childAnswer, isCorrect)), childAnswer, isCorrect);
    assert e["answer_correct"] == Bool(isCorrect);
  }

  /** An answered question is stored as completed, so it leaves the incomplete list. */
  lemma AnsweredLeavesIncomplete(all: seq<Record>, stored: Record, childAnswer: Value, isCorrect: bool)
    ensures var updated := Merge(stored, AnswerFields(childAnswer, isCorrect));
      updated !in Seqs.Filter(Refresh(all, updated), Incomplete())
  {
    var updated := Merge(stored, AnswerFields(childAnswer, isCorrect));
    assert updated["completed"] == Bool(true);
    Seqs.FilterMembership(Refresh(all, updated), Incomplete(), updated);
  }

  /** The page's state. */
  class Session {
    const store: Entities.Store
    var allQuestions: seq<Record>
    var filtered: seq<Record>
    var cursor: int
    var phase: Phase
    var answers: seq<Record>

    /** The cursor indexes the working set whenever a question is shown. */
    predicate Valid()
      reads this
    {
      cursor >= 0 && (phase == Active && |filtered| > 0 ==> cursor < |filtered|)
    }

    constructor(s: Entities.Store)
      ensures store == s && phase == Setup && cursor == 0
      ensures allQuestions == [] && filtered == [] && answers == []
      ensures Valid()
    {
      store := s;
      allQuestions := [];
      filtered := [];
      cursor := 0;
      phase := Setup;
      answers := [];
    }

    /** Loads the questions newest first. */
    method Load()
      requires Entities.Comparable(store.items, "created_date")
      modifies this
      ensures allQuestions == Entities.Listed(store.items, "-created_date", 0)
      ensures filtered == old(filtered) && cursor == old(cursor) && phase == old(phase)
      ensures answers == old(answers)
    {
      allQuestions := store.List("-created_date", 0);
    }

    /** `startSession(filters)`. */
    method StartSession(childId: string, subject: string)
      modifies this
      ensures filtered == WorkingSet(allQuestions, childId, subject)
      ensures cursor == 0 && answers == [] && phase == Active
      ensures allQuestions == old(allQuestions)
      ensures Valid()
    {
      var questions := Seqs.Filter(allQuestions, Incomplete());
      if childId != "" {
        questions := Seqs.Filter(questions, ForChild(childId));
      }
      if SubjectFilterOn(subject) {
        questions := Seqs.Filter(questions, ForSubject(subject));
      }
      filtered := questions;
      cursor := 0;
      answers := [];
      phase := Active;
    }

    /**
     * `handleAnswerSubmit(question, childAnswer, isCorrect)`. When the store
     * does not know the question, the update throws and nothing else happens.
     */
    method HandleAnswerSubmit(question: Record, childAnswer: Value, isCorrect: bool)
      returns (res: Result<Record, string>)
      requires Valid()
      modifies this, store
      ensures Valid()
      ensures filtered == old(filtered) && cursor == old(cursor) && phase == old(phase)
      ensures res.Err? ==> store.items == old(store.items) && allQuestions == old(allQuestions)
                           && answers == old(answers)
      ensures res.Ok? ==>
        var i := Entities.FindIndex(old(store.items), Get(question, "id"));
        && 0 <= i < |old(store.items)|
        && res.value == Merge(old(store.items)[i], AnswerFields(childAnswer, isCorrect))
        && store.items == old(store.items)[i := res.value]
        && answers == old(answers) + [LogEntry(res.value, childAnswer, isCorrect)]
        && allQuestions == Refresh(old(allQuestions), res.value)
    {
      res := store.Update(Get(question, "id"), AnswerFields(childAnswer, isCorrect));
      if res.Ok? {
        var updated := res.value;
        answers := answers + [LogEntry(updated, childAnswer, isCorrect)];
        allQuestions := Refresh(allQuestions, updated);
      }
    }

    /** `handleNextQuestion()`: advance, or finish after the last question. */
    method HandleNextQuestion()
      requires Valid()
      modifies this
      ensures Valid()
      ensures old(cursor) < |filtered| - 1 ==> cursor == old(cursor) + 1 && phase == old(phase)
      ensures old(cursor) >= |filtered| - 1 ==> cursor == old(cursor) && phase == Finished
      ensures filtered == old(filtered) && answers == old(answers) && allQuestions == old(allQuestions)
    {
      if cursor < |filtered| - 1 {
        cursor := cursor + 1;
      } else {
        phase := Finished;
      }
    }

    /** `resetSession()`: back to setup; nothing else changes. */
    method ResetSession()
      requires Valid()
      modifies this
      ensures phase == Setup && Valid()
      ensures filtered == old(filtered) && cursor == old(cursor)
      ensures answers == old(answers) && allQuestions == old(allQuestions)
    {
      phase := Setup;
    }

    /**
     * The question the page shows: one only in an active session with a
     * non-empty working set; an empty one shows the "no questions" card.
     */
    function CurrentQuestion(): (q: Option<Record>)
      requires Valid()
      reads this
      ensures q.Some? <==> phase == Active && |filtered| > 0
      ensures q.Some? ==> q.value in filtered
    {
      if phase == Active && |filtered| > 0 then Some(filtered[cursor]) else None
    }
  }
}

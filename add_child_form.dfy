/**
 * The form that adds or edits a child: its initial state, the subject
 * check boxes, and the guarded build of the submitted record.
 */
module AddChildForm {
  import opened Wrappers
  import opened Json
  import Seqs
  import Text

  /** `formData`; `age` is the text of the number input. */
  datatype FormData = FormData(name: Value, age: string, gradeLevel: Value, language: Value, subjects: seq<Value>)

  /** `v || d`. */
  function Or(v: Value, d: Value): (r: Value)
    ensures Truthy(v) ==> r == v
    ensures !Truthy(v) ==> r == d
  {
    if Truthy(v) then v else d
  }

  /** The initial `formData`, from the child being edited if there is one. */
  function Initial(child: Option<Record>): (f: FormData)
    ensures child.None? ==> f == FormData(Str(""), "", Str(""), Str("english"), [])
    ensures child.Some? ==> var c := child.value;
      && f.name == Or(Get(c, "name"), Str(""))
      && f.gradeLevel == Or(Get(c, "grade_level"), Str(""))
      && f.language == Or(Get(c, "language"), Str("english"))
      && (IsNullish(Get(c, "age")) ==> f.age == "")
      && (!IsNullish(Get(c, "age")) ==> f.age == JsString(Get(c, "age")))
      && (Get(c, "subjects").Arr? ==> f.subjects == Get(c, "subjects").items)
      && (!Truthy(Get(c, "subjects")) ==> f.subjects == [])
  {
    match child
    case None => FormData(Str(""), "", Str(""), Str("english"), [])
    case Some(c) =>
      var age := match ToStringCall(Get(c, "age")) case Some(s) => s case None => "";
      var subjects := Get(c, "subjects");
      FormData(Or(Get(c, "name"), Str("")), age, Or(Get(c, "grade_level"), Str("")),
               Or(Get(c, "language"), Str("english")), if subjects.Arr? then subjects.items else [])
  }

  /** What `onSubmit` receives: the form fields with `age` parsed; an age of `None` is NaN. */
  datatype Submitted = Submitted(name: Value, age: Option<int>, gradeLevel: Value, language: Value, subjects: seq<Value>)

  /** `handleSubmit`: `None` when the name, the age or the grade level is empty. */
  function Submit(f: FormData): (r: Option<Submitted>)
    ensures r.None? <==> !Truthy(f.name) || f.age == "" || !Truthy(f.gradeLevel)
    ensures r.Some? ==> r.value.name == f.name && r.value.gradeLevel == f.gradeLevel
                        && r.value.language == f.language && r.value.subjects == f.subjects
  {
    if !Truthy(f.name) || f.age == "" || !Truthy(f.gradeLevel) then None
    else Some(Submitted(f.name, Text.ParseInt(f.age), f.gradeLevel, f.language, f.subjects))
  }

  /** Editing a child with a name, a whole-number age and a grade level submits the same age. */
  lemma EditKeepsAge(c: Record, n: int)
    requires Get(c, "age") == Num(n) && Truthy(Get(c, "name")) && Truthy(Get(c, "grade_level"))
    ensures Submit(Initial(Some(c))).Some? && Submit(Initial(Some(c))).value.age == Some(n)
  {
    Text.ParseIntOfIntToString(n);
    assert Text.IntToString(n) != "" by {
      if n < 0 {
      } else {
        assert |Text.NatToString(n)| > 0;
      }
    }
  }

  /** A new child cannot be submitted until the required fields are filled in. */
  lemma NewFormIsBlocked()
    ensures Submit(Initial(None)).None?
  {
  }

  function IsNot(subject: string): Value -> bool
  {
    s => !StrictEq(s, Str(subject))
  }

  /** `handleSubjectChange(subject, checked)`. */
  function ToggleSubject(f: FormData, subject: string, checked: bool): (r: FormData)
    ensures r.name == f.name && r.age == f.age && r.gradeLevel == f.gradeLevel && r.language == f.language
    ensures checked ==> r.subjects == f.subjects + [Str(subject)]
    ensures !checked ==> Str(subject) !in r.subjects
  {
    var subjects := if checked then f.subjects + [Str(subject)] else Seqs.Filter(f.subjects, IsNot(subject));
    Seqs.FilterMembership(f.subjects, IsNot(subject), Str(subject));
    FormData(f.name, f.age, f.gradeLevel, f.language, subjects)
  }

  /** Unchecking keeps every other subject, in order, and only those. */
  lemma UncheckKeepsOthers(f: FormData, subject: string, v: Value)
    ensures v in ToggleSubject(f, subject, false).subjects <==> v in f.subjects && v != Str(subject)
    ensures Seqs.IsSubsequence(ToggleSubject(f, subject, false).subjects, f.subjects)
  {
    Seqs.FilterMembership(f.subjects, IsNot(subject), v);
    Seqs.FilterIsSubsequence(f.subjects, IsNot(subject));
  }

  function IsSubject(subject: string): Value -> bool
  {
    v => v == Str(subject)
  }

  /** Checking never looks for duplicates: checking twice lists the subject twice. */
  lemma CheckTwiceDuplicates(f: FormData, subject: string)
    ensures var twice := ToggleSubject(ToggleSubject(f, subject, true), subject, true);
      Seqs.Count(twice.subjects, IsSubject(subject)) == Seqs.Count(f.subjects, IsSubject(subject)) + 2
  {
    var p := IsSubject(subject);
    Seqs.CountAppend(f.subjects, [Str(subject), Str(subject)], p);
    assert f.subjects + [Str(subject)] + [Str(subject)] == f.subjects + [Str(subject), Str(subject)];
    assert [Str(subject), Str(subject)][1..] == [Str(subject)];
    assert [Str(subject)][1..] == [];
    assert Seqs.Filter([Str(subject), Str(subject)], p) == [Str(subject), Str(subject)];
  }

  /** Unchecking after checking removes every copy, also those from before. */
  lemma CheckThenUncheck(f: FormData, subject: string)
    ensures ToggleSubject(ToggleSubject(f, subject, true), subject, false).subjects
         == ToggleSubject(f, subject, false).subjects
  {
    Seqs.FilterAppend(f.subjects, [Str(subject)], IsNot(subject));
    assert [Str(subject)][1..] == [];
    assert Seqs.Filter(f.subjects, IsNot(subject)) + [] == Seqs.Filter(f.subjects, IsNot(subject));
  }
}

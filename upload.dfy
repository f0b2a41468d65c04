/**
 * The upload page: the selected files and form fields, the check that must
 * pass before processing starts, the automatic assignment title, and the
 * cleaning of the grading result before it is saved.
 */
module Upload {
  import opened Wrappers
  import opened Json
  import Text
  import Seqs
  import Entities
  import FileUploadZone

  // ---------------------------------------------------------------------------
  // `Number(v) || d`

  /** `Number(v) || d`: NaN and 0 are falsy. */
  function NumberOr(v: Value, d: int): (r: int)
    ensures ToNumber(v).None? ==> r == d
    ensures ToNumber(v).Some? && ToNumber(v).value != 0 ==> r == ToNumber(v).value
  {
    match ToNumber(v)
    case None => d
    case Some(n) => if n == 0 then d else n
  }

  function Max(a: int, b: int): int
  {
    if a >= b then a else b
  }

  function Min(a: int, b: int): int
  {
    if a <= b then a else b
  }

  // ---------------------------------------------------------------------------
  // `cleanArrayOfStrings`

  function NotNullish(): Value -> bool
  {
    v => !IsNullish(v)
  }

  /** `String(item).trim()`. */
  function TrimmedString(): Value -> string
  {
    v => Text.Trim(JsString(v))
  }

  /** `item.length > 0 && item.length < 500`. */
  function ReasonableLength(): string -> bool
  {
    s => 0 < |s| < 500
  }

  /** What every cleaned string satisfies. */
  predicate CleanString(s: string)
  {
    0 < |s| < 500 && Text.Trimmed(s)
  }

  /** `cleanArrayOfStrings(arr)`. */
  function CleanArrayOfStrings(v: Value): (r: seq<string>)
    ensures !v.Arr? ==> r == []
    ensures v.Arr? ==> |r| <= |v.items|
    ensures forall i :: 0 <= i < |r| ==> CleanString(r[i])
  {
    if !v.Arr? then []
    else
      var present := Seqs.Filter(v.items, NotNullish());
      var trimmed := Seqs.Map(present, TrimmedString());
      var r := Seqs.Filter(trimmed, ReasonableLength());
      forall i | 0 <= i < |r|
        ensures Text.Trimmed(r[i])
      {
        Seqs.FilterMembership(trimmed, ReasonableLength(), r[i]);
        var j :| 0 <= j < |trimmed| && trimmed[j] == r[i];
        Text.TrimIsTrimmed(JsString(present[j]));
      }
      r
  }

  /**
   * A string is in the cleaned list exactly when some non-null item of the
   * array converts and trims to it, and it has a reasonable length.
   */
  lemma CleanedMembers(items: seq<Value>, s: string)
    ensures s in CleanArrayOfStrings(Arr(items)) <==>
      0 < |s| < 500 && exists i :: 0 <= i < |items| && !IsNullish(items[i]) && Text.Trim(JsString(items[i])) == s
  {
    var present := Seqs.Filter(items, NotNullish());
    var trimmed := Seqs.Map(present, TrimmedString());
    Seqs.FilterMembership(trimmed, ReasonableLength(), s);
    if s in trimmed {
      var j :| 0 <= j < |trimmed| && trimmed[j] == s;
      Seqs.FilterMembership(items, NotNullish(), present[j]);
      var i :| 0 <= i < |items| && items[i] == present[j];
      assert !IsNullish(items[i]) && Text.Trim(JsString(items[i])) == s;
    }
    if exists i :: 0 <= i < |items| && !IsNullish(items[i]) && Text.Trim(JsString(items[i])) == s {
      var i :| 0 <= i < |items| && !IsNullish(items[i]) && Text.Trim(JsString(items[i])) == s;
      Seqs.FilterMembership(items, NotNullish(), items[i]);
      var j :| 0 <= j < |present| && present[j] == items[i];
      assert trimmed[j] == s;
    }
  }

  /** The cleaned list keeps the order of the items it keeps. */
  lemma CleanedKeepsOrder(items: seq<Value>)
    ensures Seqs.IsSubsequence(CleanArrayOfStrings(Arr(items)),
                               Seqs.Map(Seqs.Filter(items, NotNullish()), TrimmedString()))
  {
    Seqs.FilterIsSubsequence(Seqs.Map(Seqs.Filter(items, NotNullish()), TrimmedString()), ReasonableLength());
  }

  function AsValues(r: seq<string>): (vs: seq<Value>)
    ensures |vs| == |r| && forall i :: 0 <= i < |r| ==> vs[i] == Str(r[i])
  {
    Seqs.Map(r, (s: string) => Str(s))
  }

  /** A list that is already clean is its own cleaning. */
  lemma CleanOfClean(r: seq<string>)
    requires forall i :: 0 <= i < |r| ==> CleanString(r[i])
    ensures CleanArrayOfStrings(Arr(AsValues(r))) == r
  {
    var vs := AsValues(r);
    Seqs.FilterAll(vs, NotNullish());
    var trimmed := Seqs.Map(vs, TrimmedString());
    forall i | 0 <= i < |r|
      ensures trimmed[i] == r[i]
    {
      TrimOfClean(r[i]);
    }
    assert trimmed == r;
    Seqs.FilterAll(r, ReasonableLength());
  }

  lemma TrimOfClean(s: string)
    requires CleanString(s)
    ensures Text.Trim(s) == s
  {
    TrimOfNumeral(s);
  }

  /** Cleaning a cleaned list changes nothing. */
  lemma CleanIdempotent(v: Value)
    ensures CleanArrayOfStrings(Arr(AsValues(CleanArrayOfStrings(v)))) == CleanArrayOfStrings(v)
  {
    CleanOfClean(CleanArrayOfStrings(v));
  }

  /** Nulls are dropped, padding is trimmed, blank items vanish. */
  lemma CleanExample()
    ensures CleanArrayOfStrings(Arr([Null, Str(" x "), Str(" "), Undef])) == ["x"]
  {
    var a, b := Str(" x "), Str(" ");
    var items := [Null, a, b, Undef];
    assert items[1..] == [a, b, Undef];
    assert [a, b, Undef][1..] == [b, Undef];
    assert [b, Undef][1..] == [Undef];
    assert Seqs.Filter([Undef], NotNullish()) == [];
    assert Seqs.Filter([b, Undef], NotNullish()) == [b];
    assert Seqs.Filter([a, b, Undef], NotNullish()) == [a, b];
    assert Seqs.Filter(items, NotNullish()) == [a, b];
    Text.TrimIgnoresPadding(" ", "x", " ");
    assert " " + "x" + " " == " x ";
    TrimOfNumeral("x");
    Text.TrimIgnoresPadding(" ", "", "");
    assert " " + "" + "" == " ";
    assert Text.Trim("") == "";
    var trimmed := Seqs.Map([a, b], TrimmedString());
    assert trimmed == ["x", ""];
    assert trimmed[1..] == [""];
    assert Seqs.Filter([""], ReasonableLength()) == [];
  }

  // ---------------------------------------------------------------------------
  // `cleanedGradingResult`

  const DefaultFeedback: string := "Assignment analyzed"
  const MaxFeedbackLength: nat := 2000

  /** `String(v || "Assignment analyzed").trim().substring(0, 2000)`. */
  function Feedback(v: Value): (f: string)
    ensures |f| <= MaxFeedbackLength
    ensures var t := Text.Trim(JsString(if Truthy(v) then v else Str(DefaultFeedback)));
      && |f| == Min(|t|, MaxFeedbackLength) && f == t[..|f|]
    ensures f == [] || !Text.IsSpace(f[0])
  {
    var t := Text.Trim(JsString(if Truthy(v) then v else Str(DefaultFeedback)));
    Text.TrimIsTrimmed(JsString(if Truthy(v) then v else Str(DefaultFeedback)));
    if |t| <= MaxFeedbackLength then t else t[..MaxFeedbackLength]
  }

  /** A short feedback text is kept, trimmed. */
  lemma ShortFeedbackIsTrimmed(v: Value)
    requires |Text.Trim(JsString(if Truthy(v) then v else Str(DefaultFeedback)))| <= MaxFeedbackLength
    ensures Text.Trimmed(Feedback(v))
  {
    Text.TrimIsTrimmed(JsString(if Truthy(v) then v else Str(DefaultFeedback)));
  }

  /** Missing feedback becomes the default text. */
  lemma MissingFeedbackIsDefault()
    ensures Feedback(Undef) == DefaultFeedback
    ensures Feedback(Str("")) == DefaultFeedback
  {
    TrimOfNumeral(DefaultFeedback);
  }

  /** Blank feedback is truthy, so the default does not apply and it trims to "". */
  lemma BlankFeedbackIsEmpty()
    ensures Feedback(Str("  ")) == ""
  {
    Text.TrimIgnoresPadding("  ", "", "");
    assert "  " + "" + "" == "  ";
  }

  /** The grading result once cleaned. */
  datatype Cleaned = Cleaned(
    totalQuestions: int,
    correctAnswers: int,
    scorePercentage: int,
    detailedFeedback: string,
    strengths: seq<string>,
    weaknesses: seq<string>,
    skillAreasToPractice: seq<string>,
    questionAnalysis: seq<Value>)

  /** `cleanedGradingResult` built from the grading result `g`. */
  function CleanGradingResult(g: Record): (c: Cleaned)
    ensures c.totalQuestions >= 1
    ensures c.correctAnswers >= 0
    ensures 0 <= c.scorePercentage <= 100
    ensures |c.detailedFeedback| <= MaxFeedbackLength
    ensures c.questionAnalysis == if Get(g, "question_analysis").Arr? then Get(g, "question_analysis").items else []
    ensures c.strengths == CleanArrayOfStrings(Get(g, "strengths"))
    ensures c.weaknesses == CleanArrayOfStrings(Get(g, "weaknesses"))
    ensures c.skillAreasToPractice == CleanArrayOfStrings(Get(g, "skill_areas_to_practice"))
  {
    var qa := Get(g, "question_analysis");
    Cleaned(
      Max(1, NumberOr(Get(g, "total_questions"), 1)),
      Max(0, NumberOr(Get(g, "correct_answers"), 0)),
      Max(0, Min(100, NumberOr(Get(g, "score_percentage"), 0))),
      Feedback(Get(g, "detailed_feedback")),
      CleanArrayOfStrings(Get(g, "strengths")),
      CleanArrayOfStrings(Get(g, "weaknesses")),
      CleanArrayOfStrings(Get(g, "skill_areas_to_practice")),
      if qa.Arr? then qa.items else [])
  }

  /** An empty grading result gets the defaults 1, 0, 0 and "Assignment analyzed". */
  lemma CleanedDefaults()
    ensures var c := CleanGradingResult(map[]);
      c == Cleaned(1, 0, 0, DefaultFeedback, [], [], [], [])
  {
    MissingFeedbackIsDefault();
  }

  /** In-range numbers are kept; an out-of-range score is clamped to 0..100. */
  lemma CleanedNumbers(g: Record, t: int, k: int, s: int)
    requires Get(g, "total_questions") == Num(t)
    requires Get(g, "correct_answers") == Num(k)
    requires Get(g, "score_percentage") == Num(s)
    ensures var c := CleanGradingResult(g);
      && (t >= 1 ==> c.totalQuestions == t)
      && (t < 1 ==> c.totalQuestions == 1)
      && c.correctAnswers == (if k >= 0 then k else 0)
      && c.scorePercentage == (if s < 0 then 0 else if s > 100 then 100 else s)
  {
  }

  /** Nothing bounds the correct answers by the total: 5 of 3 is kept as it is. */
  lemma CorrectMayExceedTotal()
    ensures var c := CleanGradingResult(map["total_questions" := Num(3), "correct_answers" := Num(5)]);
      c.correctAnswers > c.totalQuestions
  {
  }

  /** A numeric string from the marking model counts like the number. */
  lemma CleanedReadsNumericStrings(g: Record, t: nat)
    requires t >= 1
    requires Get(g, "total_questions") == Str(Text.IntToString(t))
    ensures CleanGradingResult(g).totalQuestions == t
  {
    NumberOfIntToString(t);
  }

  // ---------------------------------------------------------------------------
  // The automatic title and the practice cap

  /** What the title effect does. */
  datatype TitleEffect =
    | Keep
    | SetTitle(title: string)
      /** The child's name is not a string, so `name.split` throws. */
    | NameNotText

  /**
   * The auto-title effect: once a child and a subject are chosen and the
   * children are loaded, "<first name> - <Subject> - <today>".
   */
  function AutoTitle(children: seq<Record>, selectedChild: string, subject: string, today: string): (e: TitleEffect)
    ensures selectedChild == "" || subject == "" || children == [] ==> e == Keep
    ensures e.Keep? && selectedChild != "" && subject != "" && children != [] ==>
      Entities.FindIndex(children, Str(selectedChild)) == -1
  {
    if selectedChild != "" && subject != "" && |children| > 0 then
      var i := Entities.FindIndex(children, Str(selectedChild));
      if i < 0 then Keep
      else
        var name := Get(children[i], "name");
        if name.Str? then
          SetTitle(Text.BeforeFirst(name.s, ' ') + " - " + Text.Capitalize(subject) + " - " + today)
        else NameNotText
    else Keep
  }

  lemma {:induction false} BeforeFirstOfJoin(a: string, rest: string)
    requires ' ' !in a
    ensures Text.BeforeFirst(a + [' '] + rest, ' ') == a
  {
    if a != [] {
      assert (a + [' '] + rest)[1..] == a[1..] + [' '] + rest;
      BeforeFirstOfJoin(a[1..], rest);
    }
  }

  /** The parts of "<first> - <subject> - <today>" can be read back. */
  lemma TitleJoin(first: string, subj: string, today: string)
    requires ' ' !in first
    ensures var t := first + " - " + subj + " - " + today;
      && Text.BeforeFirst(t, ' ') == first
      && Text.OccursAt(t, " - " + subj + " - ", |first|)
      && Text.EndsWith(t, today)
  {
    var mid := " - " + subj + " - ";
    var t := first + " - " + subj + " - " + today;
    assert t == first + mid + today;
    assert t == first + [' '] + ("- " + subj + " - " + today);
    BeforeFirstOfJoin(first, "- " + subj + " - " + today);
    assert t[|first|..|first| + |mid|] == mid;
    assert t[|t| - |today|..] == today;
  }

  /**
   * The title's first word is the child's first name, the capitalised
   * subject follows the first separator and the date ends it.
   */
  lemma TitleParts(children: seq<Record>, selectedChild: string, subject: string, today: string)
    requires AutoTitle(children, selectedChild, subject, today).SetTitle?
    ensures var t := AutoTitle(children, selectedChild, subject, today).title;
      var i := Entities.FindIndex(children, Str(selectedChild));
      && 0 <= i < |children| && Get(children[i], "name").Str?
      && var first := Text.BeforeFirst(Get(children[i], "name").s, ' ');
      && Text.BeforeFirst(t, ' ') == first
      && Text.OccursAt(t, " - " + Text.Capitalize(subject) + " - ", |first|)
      && Text.EndsWith(t, today)
  {
    var i := Entities.FindIndex(children, Str(selectedChild));
    TitleJoin(Text.BeforeFirst(Get(children[i], "name").s, ' '), Text.Capitalize(subject), today);
  }

  const PracticeLimit: nat := 3

  /** `skill_areas_to_practice.slice(0, 3)`: the skill areas that get a practice question. */
  function PracticeSkills(skills: seq<string>): (r: seq<string>)
    ensures |r| <= PracticeLimit && |r| <= |skills| && r == skills[..|r|]
    ensures |skills| <= PracticeLimit ==> r == skills
    ensures |skills| > PracticeLimit ==> |r| == PracticeLimit
  {
    Seqs.SliceTo(skills, PracticeLimit)
  }

  // ---------------------------------------------------------------------------
  // The form

  const MissingFieldsMessage: string := "Please fill in all fields and select at least one file"

  /** The form's state. */
  class UploadForm {
    var files: seq<FileUploadZone.File>
    var selectedChild: string
    var assignmentTitle: string
    var subject: string
    var error: Option<string>
    var isProcessing: bool
    var processedCount: nat
    var totalCount: nat

    constructor()
      ensures files == [] && selectedChild == "" && assignmentTitle == "" && subject == ""
      ensures error == None && !isProcessing && processedCount == 0 && totalCount == 0
    {
      files := [];
      selectedChild := "";
      assignmentTitle := "";
      subject := "";
      error := None;
      isProcessing := false;
      processedCount := 0;
      totalCount := 0;
    }

    /** `handleFileSelect` and `handleCameraCapture`: the new files go after the others. */
    method AddFiles(selected: seq<FileUploadZone.File>)
      modifies this
      ensures files == old(files) + selected && error == None
      ensures selectedChild == old(selectedChild) && assignmentTitle == old(assignmentTitle)
      ensures subject == old(subject) && isProcessing == old(isProcessing)
      ensures processedCount == old(processedCount) && totalCount == old(totalCount)
    {
      files := files + selected;
      error := None;
    }

    /** `removeFile(index)`: exactly that index goes, the rest keep their order. */
    method RemoveFile(index: int)
      modifies this
      ensures files == Seqs.RemoveIndex(old(files), index)
      ensures Seqs.IsSubsequence(files, old(files))
      ensures selectedChild == old(selectedChild) && assignmentTitle == old(assignmentTitle)
      ensures subject == old(subject) && error == old(error) && isProcessing == old(isProcessing)
      ensures processedCount == old(processedCount) && totalCount == old(totalCount)
    {
      Seqs.RemoveIndexIsSubsequence(files, index);
      files := Seqs.RemoveIndex(files, index);
    }

    /** `clearAllFiles()`. */
    method ClearAllFiles()
      modifies this
      ensures files == []
      ensures selectedChild == old(selectedChild) && assignmentTitle == old(assignmentTitle)
      ensures subject == old(subject) && error == old(error) && isProcessing == old(isProcessing)
      ensures processedCount == old(processedCount) && totalCount == old(totalCount)
    {
      files := [];
    }

    /** There is a file, a child, a title and a subject. */
    predicate CanProcess()
      reads this
    {
      |files| > 0 && selectedChild != "" && assignmentTitle != "" && subject != ""
    }

    /**
     * The start of `processAssignment`: with a field missing it only sets the
     * error; otherwise it clears the error and sets up the progress counter
     * for the files plus the analysis and saving steps.
     */
    method BeginProcessing() returns (started: bool)
      modifies this
      ensures started <==> old(CanProcess())
      ensures !started ==> error == Some(MissingFieldsMessage) && isProcessing == old(isProcessing)
                           && processedCount == old(processedCount) && totalCount == old(totalCount)
      ensures started ==> error == None && isProcessing && processedCount == 0 && totalCount == |files| + 2
      ensures files == old(files) && selectedChild == old(selectedChild)
      ensures assignmentTitle == old(assignmentTitle) && subject == old(subject)
    {
      if !CanProcess() {
        error := Some(MissingFieldsMessage);
        return false;
      }
      isProcessing := true;
      error := None;
      processedCount := 0;
      totalCount := |files| + 2;
      started := true;
    }

    /** Runs the title effect; reports whether it threw. */
    method SyncTitle(children: seq<Record>, today: string) returns (threw: bool)
      modifies this
      ensures var e := AutoTitle(children, old(selectedChild), old(subject), today);
        && (threw <==> e.NameNotText?)
        && assignmentTitle == (if e.SetTitle? then e.title else old(assignmentTitle))
      ensures files == old(files) && selectedChild == old(selectedChild) && subject == old(subject)
      ensures error == old(error) && isProcessing == old(isProcessing)
      ensures processedCount == old(processedCount) && totalCount == old(totalCount)
    {
      var e := AutoTitle(children, selectedChild, subject, today);
      threw := e.NameNotText?;
      if e.SetTitle? {
        assignmentTitle := e.title;
      }
    }
  }
}

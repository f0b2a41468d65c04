/**
 * The pieces the list pages filter with: a case-insensitive text search that
 * throws on a field that is not a string, a selection filter that "all"
 * switches off, and the distinct values of a field.
 */
module Search {
  import opened Wrappers
  import opened Json
  import Seqs
  import Text
  import Grouping

  /** The value of a selection that applies no filter. */
  const All: string := "all"

  /** `v.toLowerCase().includes(term.toLowerCase())`; `None`: `v` is not a string and the call throws. */
  function LowerIncludes(v: Value, term: string): (r: Option<bool>)
    ensures r.None? <==> !v.Str?
    ensures r.Some? ==> (r.value <==> Text.Contains(Text.Lower(v.s), Text.Lower(term)))
  {
    if v.Str? then Some(Text.Contains(Text.Lower(v.s), Text.Lower(term))) else None
  }

  /** The search hits `a[field]`, which is a string. */
  predicate Hits(a: Record, field: string, term: string)
  {
    Get(a, field).Str? && Text.Contains(Text.Lower(Get(a, field).s), Text.Lower(term))
  }

  /** `a[f1].toLowerCase().includes(t) || a[f2].toLowerCase().includes(t)`: the second is skipped after a hit. */
  function EitherIncludes(a: Record, f1: string, f2: string, term: string): (r: Option<bool>)
    ensures r == Some(true) <==> Hits(a, f1, term) || (Get(a, f1).Str? && Hits(a, f2, term))
    ensures r.None? <==> !Get(a, f1).Str? || (!Hits(a, f1, term) && !Get(a, f2).Str?)
  {
    match LowerIncludes(Get(a, f1), term)
    case None => None
    case Some(hit) => if hit then Some(true) else LowerIncludes(Get(a, f2), term)
  }

  function SearchIn(f1: string, f2: string, term: string): Record -> Option<bool>
  {
    a => EitherIncludes(a, f1, f2, term)
  }

  function Holds(p: Record -> Option<bool>): Record -> bool
  {
    a => p(a) == Some(true)
  }

  /** `s.filter(p)` with a test that may throw; `None`: it throws for some element. */
  function FilterOrThrow(s: seq<Record>, p: Record -> Option<bool>): (r: Option<seq<Record>>)
    ensures r.Some? <==> forall i :: 0 <= i < |s| ==> p(s[i]).Some?
    ensures r.Some? ==> r.value == Seqs.Filter(s, Holds(p))
  {
    if s == [] then Some([])
    else
      var rest := FilterOrThrow(s[1..], p);
      assert forall i :: 1 <= i < |s| ==> s[i] == s[1..][i - 1];
      match p(s[0])
      case None => None
      case Some(b) =>
        if rest.None? then None else Some((if b then [s[0]] else []) + rest.value)
  }

  function FieldIs(field: string, want: Value): Record -> bool
  {
    a => StrictEq(Get(a, field), want)
  }

  /** `sel !== "all" ? s.filter(a => a[field] === sel) : s`. */
  function Selected(s: seq<Record>, field: string, sel: string): (r: seq<Record>)
    ensures sel == All ==> r == s
  {
    if sel == All then s else Seqs.Filter(s, FieldIs(field, Str(sel)))
  }

  /** A selection other than "all" keeps exactly the records whose field is that string, in order. */
  lemma SelectedRule(s: seq<Record>, field: string, sel: string, a: Record)
    ensures sel != All ==> (a in Selected(s, field, sel) <==> a in s && Get(a, field) == Str(sel))
    ensures Seqs.IsSubsequence(Selected(s, field, sel), s)
  {
    Seqs.FilterMembership(s, FieldIs(field, Str(sel)), a);
    Seqs.FilterIsSubsequence(s, FieldIs(field, Str(sel)));
    Seqs.SubsequenceReflexive(s);
  }

  /** The search kept by a non-empty term: the records it hits, and `None` when it throws. */
  lemma SearchRule(s: seq<Record>, f1: string, f2: string, term: string, a: Record)
    ensures var r := FilterOrThrow(s, SearchIn(f1, f2, term));
      r.Some? ==> (a in r.value <==> a in s && (Hits(a, f1, term) || (Get(a, f1).Str? && Hits(a, f2, term))))
    ensures var r := FilterOrThrow(s, SearchIn(f1, f2, term));
      r.Some? ==> Seqs.IsSubsequence(r.value, s)
    ensures (forall i :: 0 <= i < |s| ==> Get(s[i], f1).Str? && Get(s[i], f2).Str?)
      ==> FilterOrThrow(s, SearchIn(f1, f2, term)).Some?
  {
    Seqs.FilterMembership(s, Holds(SearchIn(f1, f2, term)), a);
    Seqs.FilterIsSubsequence(s, Holds(SearchIn(f1, f2, term)));
  }

  function FieldOf(field: string): Record -> Value
  {
    a => Get(a, field)
  }

  /** `[...new Set(s.map(a => a[field]))]`. */
  function DistinctField(s: seq<Record>, field: string): seq<Value>
  {
    Grouping.Keys(s, FieldOf(field))
  }

  /**
   * `[...new Set(s.map(a => a.subject))]`: the subject filter's choices on
   * the assignments page and on the practice history.
   */
  function Subjects(s: seq<Record>): (r: seq<Value>)
    ensures Seqs.NoDuplicates(r)
    ensures forall v :: v in r <==> exists i :: 0 <= i < |s| && Get(s[i], "subject") == v
  {
    DistinctFieldRule(s, "subject");
    DistinctField(s, "subject")
  }

  /** Each value of the field once, in order of first appearance. */
  lemma DistinctFieldRule(s: seq<Record>, field: string)
    ensures Seqs.NoDuplicates(DistinctField(s, field))
    ensures forall v :: v in DistinctField(s, field) <==> exists i :: 0 <= i < |s| && Get(s[i], field) == v
    ensures forall v :: v in DistinctField(s, field) ==> v in Seqs.Map(s, FieldOf(field))
    ensures forall i, j :: 0 <= i < j < |DistinctField(s, field)| ==>
      Seqs.IndexOf(Seqs.Map(s, FieldOf(field)), DistinctField(s, field)[i])
        < Seqs.IndexOf(Seqs.Map(s, FieldOf(field)), DistinctField(s, field)[j])
  {
    Grouping.KeysOrdered(s, FieldOf(field));
    forall v
      ensures v in DistinctField(s, field) <==> exists i :: 0 <= i < |s| && Get(s[i], field) == v
    {
      Grouping.KeysMembers(s, FieldOf(field), v);
    }
  }
}

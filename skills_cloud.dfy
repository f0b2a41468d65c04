/**
 * The skills cloud: the strengths or weaknesses of a child's assignments,
 * folded together by a table of synonyms, counted, and the eight most
 * frequent shown under their shortest spelling.
 */
module SkillsCloud {
  import opened Wrappers
  import opened Json
  import Seqs
  import Text
  import Sorting
  import Grouping

  // ---------------------------------------------------------------- the synonym table

  /** A character of `\w`: the regular expressions' word characters. */
  predicate IsWordChar(c: char)
  {
    'a' <= c <= 'z' || 'A' <= c <= 'Z' || '0' <= c <= '9' || c == '_'
  }

  /** `\b` at position `i`: a word character on exactly one side. */
  predicate BoundaryAt(s: string, i: nat)
    requires i <= |s|
  {
    (i > 0 && IsWordChar(s[i - 1])) != (i < |s| && IsWordChar(s[i]))
  }

  /** `alt` occurs at `i` ignoring ASCII case, as a whole word. */
  predicate WordAt(s: string, i: nat, alt: string)
    requires i <= |s|
  {
    alt != [] && i + |alt| <= |s| && Text.Lower(s[i..i + |alt|]) == Text.Lower(alt)
    && BoundaryAt(s, i) && BoundaryAt(s, i + |alt|)
  }

  /** The length of the first alternative of `\b(a|b|c)\b` that matches at `i`. */
  function MatchAt(s: string, i: nat, alts: seq<string>): (r: Option<nat>)
    requires i <= |s|
    ensures r.Some? ==> 0 < r.value <= |s| - i
    ensures r.Some? <==> exists k :: 0 <= k < |alts| && WordAt(s, i, alts[k])
  {
    if alts == [] then None
    else if WordAt(s, i, alts[0]) then Some(|alts[0]|)
    else
      var r := MatchAt(s, i, alts[1..]);
      assert forall k :: 1 <= k < |alts| ==> alts[k] == alts[1..][k - 1];
      r
  }

  /** `s.slice(i).replace(/\b(alts)\b/gi, rep)`: matches are scanned for from left to right. */
  function ReplaceFrom(s: string, i: nat, alts: seq<string>, rep: string): string
    requires i <= |s|
    decreases |s| - i
  {
    if i == |s| then ""
    else match MatchAt(s, i, alts)
      case Some(n) => rep + ReplaceFrom(s, i + n, alts, rep)
      case None => [s[i]] + ReplaceFrom(s, i + 1, alts, rep)
  }

  function Replace(s: string, alts: seq<string>, rep: string): string
  {
    ReplaceFrom(s, 0, alts, rep)
  }

  /** Where no alternative occurs as a whole word, the text is unchanged. */
  lemma {:induction false} NoMatchUnchanged(s: string, i: nat, alts: seq<string>, rep: string)
    requires i <= |s|
    requires forall j :: i <= j < |s| ==> MatchAt(s, j, alts).None?
    ensures ReplaceFrom(s, i, alts, rep) == s[i..]
    decreases |s| - i
  {
    if i < |s| {
      NoMatchUnchanged(s, i + 1, alts, rep);
      assert s[i..] == [s[i]] + s[i + 1..];
    }
  }

  /** A synonym that is followed by a non-word character is replaced, and the rest is scanned on. */
  lemma ReplacesLeadingWord(alt: string, sep: char, rest: string, alts: seq<string>, rep: string)
    requires alt != [] && forall j :: 0 <= j < |alt| ==> IsWordChar(alt[j])
    requires !IsWordChar(sep)
    requires alts != [] && alts[0] == alt
    ensures ReplaceFrom(alt + [sep] + rest, 0, alts, rep)
         == rep + ReplaceFrom(alt + [sep] + rest, |alt|, alts, rep)
  {
    var s := alt + [sep] + rest;
    assert s[0..|alt|] == alt;
    assert s[|alt|] == sep;
    assert IsWordChar(s[0]);
    assert WordAt(s, 0, alts[0]);
  }

  /** A word that only begins with a synonym is not one: "adding" is not "add". */
  lemma WholeWordsOnly()
    ensures !WordAt("adding", 0, "add")
  {
    assert "adding"[3] == 'i';
  }

  /** "Adding" becomes "addition": the second alternative matches once the first is too long. */
  lemma AddingIsAddition()
    ensures Replace("Adding", Synonyms[1].0, Synonyms[1].1) == "addition"
  {
    var s := "Adding";
    assert !WordAt(s, 0, "addition");
    assert s[0..6] == s;
    assert Text.Lower(s) == "adding";
    assert WordAt(s, 0, "adding");
    assert MatchAt(s, 0, ["addition", "adding", "add"]) == Some(6);
  }

  /** The groups of similar terms, each with the term it is replaced by. */
  const Synonyms: seq<(seq<string>, string)> := [
    (["multiplication", "multiplying", "multiply"], "multiplication"),
    (["addition", "adding", "add"], "addition"),
    (["subtraction", "subtracting", "subtract"], "subtraction"),
    (["division", "dividing", "divide"], "division"),
    (["reading comprehension", "comprehension", "understanding text"], "reading comprehension"),
    (["vocabulary", "word meaning", "word knowledge"], "vocabulary"),
    (["grammar", "sentence structure", "punctuation"], "grammar"),
    (["problem solving", "word problems", "solving problems"], "problem solving"),
    (["fractions", "fraction work", "working with fractions"], "fractions"),
    (["decimals", "decimal operations"], "decimals"),
    (["geometry", "shapes", "geometric concepts"], "geometry"),
    (["measurement", "measuring", "units"], "measurement"),
    (["patterns", "pattern recognition"], "patterns")
  ]

  /** The replacements applied one after another, in table order. */
  function ApplyAll(s: string, table: seq<(seq<string>, string)>): string
    decreases |table|
  {
    if table == [] then s else ApplyAll(Replace(s, table[0].0, table[0].1), table[1..])
  }

  /** The chain of `.replace` calls. */
  function Normalize(s: string): string
  {
    ApplyAll(s, Synonyms)
  }

  /** `skill.toLowerCase().trim()`, then the synonyms: the key a skill is counted under. */
  function KeyOfSkill(skill: string): string
  {
    Normalize(Text.Trim(Text.Lower(skill)))
  }

  /** Skills that differ only in letter case or surrounding white space are counted together. */
  lemma KeyIgnoresCaseAndPadding(w1: string, skill: string, w2: string)
    requires forall i :: 0 <= i < |w1| ==> Text.IsSpace(w1[i])
    requires forall i :: 0 <= i < |w2| ==> Text.IsSpace(w2[i])
    ensures KeyOfSkill(w1 + skill + w2) == KeyOfSkill(skill)
    ensures KeyOfSkill(Text.Lower(skill)) == KeyOfSkill(skill)
  {
    var l1, l, l2 := Text.Lower(w1), Text.Lower(skill), Text.Lower(w2);
    assert Text.Lower(w1 + skill + w2) == l1 + l + l2;
    assert l1 == w1 && l2 == w2;
    Text.TrimIgnoresPadding(w1, l, w2);
    Text.LowerIdempotent(skill);
  }

  // ---------------------------------------------------------------- counting

  /** `skill && typeof skill === 'string'`: a non-empty string. */
  function IsSkill(): Value -> bool
  {
    (v: Value) => v.Str? && v.s != []
  }

  function AsString(): Value -> string
  {
    (v: Value) => if v.Str? then v.s else ""
  }

  /** The skills that are counted, in input order. */
  function Words(skills: seq<Value>): (w: seq<string>)
    ensures |w| <= |skills|
  {
    Seqs.Map(Seqs.Filter(skills, IsSkill()), AsString())
  }

  function SkillKey(): string -> string
  {
    s => KeyOfSkill(s)
  }

  /** The first of the shortest: a later spelling replaces the kept one only when strictly shorter. */
  function Shortest(names: seq<string>): (r: string)
    ensures names != [] ==> r in names
    ensures forall i :: 0 <= i < |names| ==> |r| <= |names[i]|
  {
    if names == [] then ""
    else if |names| == 1 then names[0]
    else
      var kept := Shortest(names[..|names| - 1]);
      if |names[|names| - 1]| < |kept| then names[|names| - 1] else kept
  }

  /** The display name is one of the spellings, no longer than any, and strictly shorter than every earlier one. */
  lemma {:induction false} ShortestIsFirstShortest(names: seq<string>)
    requires names != []
    ensures exists i :: 0 <= i < |names| && names[i] == Shortest(names)
                        && (forall j :: 0 <= j < i ==> |names[j]| > |names[i]|)
    ensures forall j :: 0 <= j < |names| ==> |Shortest(names)| <= |names[j]|
  {
    if |names| == 1 {
      assert names[0] == Shortest(names);
    } else {
      var init := names[..|names| - 1];
      var last := names[|names| - 1];
      ShortestIsFirstShortest(init);
      var i :| 0 <= i < |init| && init[i] == Shortest(init) && (forall j :: 0 <= j < i ==> |init[j]| > |init[i]|);
      if |last| < |Shortest(init)| {
        assert Shortest(names) == last;
        forall j | 0 <= j < |names| - 1
          ensures |names[j]| > |last|
        {
          assert names[j] == init[j];
        }
        assert names[|names| - 1] == Shortest(names);
      } else {
        assert Shortest(names) == Shortest(init);
        assert names[i] == init[i];
        forall j | 0 <= j < i
          ensures |names[j]| > |names[i]|
        {
          assert names[j] == init[j];
        }
        forall j | 0 <= j < |names| - 1
          ensures |Shortest(names)| <= |names[j]|
        {
          assert names[j] == init[j];
        }
      }
    }
  }

  /** One key and how often it occurs. */
  datatype Tally = Tally(key: string, count: nat)

  /** One badge of the cloud: the display name and the number of occurrences. */
  datatype SkillCount = SkillCount(skill: string, count: nat)

  function TallyOf(w: seq<string>, key: string -> string): string -> Tally
  {
    k => Tally(k, |Grouping.Members(w, key, k)|)
  }

  /** `Array.from(skillMap.entries())`: the keys in order of first appearance. */
  function Tallies(w: seq<string>, key: string -> string): seq<Tally>
  {
    Seqs.Map(Grouping.Keys(w, key), TallyOf(w, key))
  }

  function CountKey(): Tally -> Sorting.Key
  {
    (t: Tally) => Sorting.KNum(t.count)
  }

  function CountOf(): Tally -> int
  {
    (t: Tally) => t.count
  }

  const Limit: nat := 8

  /** `.sort(([, a], [, b]) => b - a).slice(0, 8)`. */
  function Top(w: seq<string>, key: string -> string): seq<Tally>
  {
    Seqs.SliceTo(Sorting.SortBy(Tallies(w, key), CountKey(), Sorting.Descending), Limit)
  }

  function Badge(w: seq<string>, key: string -> string): Tally -> SkillCount
  {
    (t: Tally) => SkillCount(Shortest(Grouping.Members(w, key, t.key)), t.count)
  }

  /** `summarizeSkills(skills)`, with the skills keyed by `key`. */
  function SummaryWith(skills: seq<Value>, key: string -> string): seq<SkillCount>
  {
    var w := Words(skills);
    Seqs.Map(Top(w, key), Badge(w, key))
  }

  /** `summarizeSkills(skills)`. */
  function Summary(skills: seq<Value>): seq<SkillCount>
  {
    SummaryWith(skills, SkillKey())
  }

  /** What the two maps hold for the words `w`. */
  ghost predicate Counted(w: seq<string>, key: string -> string, order: seq<string>,
                          skillMap: map<string, nat>, normalizedSkills: map<string, string>)
  {
    && order == Grouping.Keys(w, key)
    && (forall k :: k in skillMap <==> k in order)
    && (forall k :: k in normalizedSkills <==> k in order)
    && (forall k :: k in skillMap ==> skillMap[k] == |Grouping.Members(w, key, k)|)
    && (forall k :: k in normalizedSkills ==> normalizedSkills[k] == Shortest(Grouping.Members(w, key, k)))
  }

  /** The `forEach`: the count map and the display-name map are filled in place. */
  method CountSkills(skills: seq<Value>, key: string -> string)
    returns (order: seq<string>, skillMap: map<string, nat>, normalizedSkills: map<string, string>)
    ensures Counted(Words(skills), key, order, skillMap, normalizedSkills)
  {
    order := [];
    skillMap := map[];
    normalizedSkills := map[];
    for i := 0 to |skills|
      invariant Counted(Words(skills[..i]), key, order, skillMap, normalizedSkills)
    {
      ghost var w := Words(skills[..i]);
      WordsStep(skills, i);
      var skill := skills[i];
      if skill.Str? && skill.s != [] {
        assert Words(skills[..i + 1]) == w + [skill.s];
        var normalized := key(skill.s);
        CountedStep(w, skill.s, key, order, skillMap, normalizedSkills);
        var count := if normalized in skillMap then skillMap[normalized] else 0;
        if normalized !in skillMap {
          order := order + [normalized];
        }
        skillMap := skillMap[normalized := count + 1];
        if normalized !in normalizedSkills || |skill.s| < |normalizedSkills[normalized]| {
          normalizedSkills := normalizedSkills[normalized := skill.s];
        }
      } else {
        assert Words(skills[..i + 1]) == w;
      }
    }
    assert skills[..|skills|] == skills;
  }

  /** One more word grows its own group's count and may shorten its name. */
  lemma CountStep(w: seq<string>, x: string, key: string -> string, k: string)
    ensures var m := Grouping.Members(w, key, k);
      && |Grouping.Members(w + [x], key, k)| == |m| + (if key(x) == k then 1 else 0)
      && Shortest(Grouping.Members(w + [x], key, k)) ==
           if key(x) != k then Shortest(m)
           else if k !in Grouping.Keys(w, key) || |x| < |Shortest(m)| then x
           else Shortest(m)
  {
    Grouping.MembersSnoc(w, x, key, k);
    Grouping.MembersOfKey(w, key, k);
    var m := Grouping.Members(w, key, k);
    if key(x) == k {
      if m == [] {
        assert m + [x] == [x];
      } else {
        var mx := m + [x];
        assert mx[..|mx| - 1] == m && mx[|mx| - 1] == x;
        assert Shortest(mx) == if |x| < |Shortest(m)| then x else Shortest(m);
      }
    } else {
      assert m + [] == m;
    }
  }

  /** The count map after one more word. */
  lemma CountsStep(w: seq<string>, x: string, key: string -> string, skillMap: map<string, nat>)
    requires forall k :: k in skillMap <==> k in Grouping.Keys(w, key)
    requires forall k :: k in skillMap ==> skillMap[k] == |Grouping.Members(w, key, k)|
    ensures var k := key(x);
      var counts := skillMap[k := if k in skillMap then skillMap[k] + 1 else 1];
      forall j :: j in counts ==> counts[j] == |Grouping.Members(w + [x], key, j)|
  {
    var k := key(x);
    var counts := skillMap[k := if k in skillMap then skillMap[k] + 1 else 1];
    forall j | j in counts
      ensures counts[j] == |Grouping.Members(w + [x], key, j)|
    {
      CountStep(w, x, key, j);
      if j == k {
        Grouping.MembersOfKey(w, key, k);
      }
    }
  }

  /** The display-name map after one more word. */
  lemma NamesStep(w: seq<string>, x: string, key: string -> string, normalizedSkills: map<string, string>)
    requires forall k :: k in normalizedSkills <==> k in Grouping.Keys(w, key)
    requires forall k :: k in normalizedSkills ==> normalizedSkills[k] == Shortest(Grouping.Members(w, key, k))
    ensures var k := key(x);
      var names := if k !in normalizedSkills || |x| < |normalizedSkills[k]|
                   then normalizedSkills[k := x] else normalizedSkills;
      forall j :: j in names ==> names[j] == Shortest(Grouping.Members(w + [x], key, j))
  {
    var k := key(x);
    var names := if k !in normalizedSkills || |x| < |normalizedSkills[k]| then normalizedSkills[k := x] else normalizedSkills;
    forall j | j in names
      ensures names[j] == Shortest(Grouping.Members(w + [x], key, j))
    {
      CountStep(w, x, key, j);
      if j == k {
        Grouping.MembersOfKey(w, key, k);
      }
    }
  }

  /** One iteration of the `forEach` keeps the maps in step with the words. */
  lemma CountedStep(w: seq<string>, x: string, key: string -> string, order: seq<string>,
                    skillMap: map<string, nat>, normalizedSkills: map<string, string>)
    requires Counted(w, key, order, skillMap, normalizedSkills)
    ensures var k := key(x);
      var count := if k in skillMap then skillMap[k] else 0;
      var names := if k !in normalizedSkills || |x| < |normalizedSkills[k]|
                   then normalizedSkills[k := x] else normalizedSkills;
      Counted(w + [x], key, if k !in skillMap then order + [k] else order, skillMap[k := count + 1], names)
  {
    KeysStep(w, x, key);
    CountsStep(w, x, key, skillMap);
    NamesStep(w, x, key, normalizedSkills);
  }

  /**
   * `summarizeSkills`: the entries of the count map, sorted by count and
   * cut to eight, each with its display name.
   */
  method SummarizeWith(skills: seq<Value>, key: string -> string) returns (r: seq<SkillCount>)
    ensures r == SummaryWith(skills, key)
  {
    var order, skillMap, normalizedSkills := CountSkills(skills, key);
    ghost var w := Words(skills);
    var entries := Seqs.Map(order, (k: string) => Tally(k, if k in skillMap then skillMap[k] else 0));
    assert entries == Tallies(w, key);
    var top := Seqs.SliceTo(Sorting.SortBy(entries, CountKey(), Sorting.Descending), Limit);
    r := Seqs.Map(top, (t: Tally) => SkillCount(if t.key in normalizedSkills then normalizedSkills[t.key] else "", t.count));
    TopAreTallies(w, key);
  }

  /** The counted words after one more skill. */
  lemma WordsStep(skills: seq<Value>, i: nat)
    requires i < |skills|
    ensures Words(skills[..i + 1]) ==
      Words(skills[..i]) + (if IsSkill()(skills[i]) then [AsString()(skills[i])] else [])
  {
    assert skills[..i + 1] == skills[..i] + [skills[i]];
    Seqs.FilterAppend(skills[..i], [skills[i]], IsSkill());
    assert [skills[i]][1..] == [];
    var f := Seqs.Filter(skills[..i], IsSkill());
    if IsSkill()(skills[i]) {
      Grouping.MapSnoc(f, skills[i], AsString());
    } else {
      assert f + [] == f;
    }
  }

  /** The keys after one more word. */
  lemma KeysStep(w: seq<string>, x: string, key: string -> string)
    ensures var d := Grouping.Keys(w, key);
      Grouping.Keys(w + [x], key) == if key(x) in d then d else d + [key(x)]
  {
    Grouping.MapSnoc(w, x, key);
    var t := Seqs.Map(w + [x], key);
    assert t[..|t| - 1] == Seqs.Map(w, key);
  }

  /** Every shown tally is the tally of a key that occurs. */
  lemma TopAreTallies(w: seq<string>, key: string -> string)
    ensures forall t :: t in Top(w, key) ==> t in Tallies(w, key)
    ensures forall t :: t in Tallies(w, key) ==> t.key in Grouping.Keys(w, key) && t == TallyOf(w, key)(t.key)
  {
    var all := Tallies(w, key);
    var sorted := Sorting.SortBy(all, CountKey(), Sorting.Descending);
    Sorting.SortPermutes(all, CountKey(), Sorting.Descending);
    var top := Top(w, key);
    assert sorted == top + sorted[|top|..];
    forall t | t in top
      ensures t in all
    {
      assert t in multiset(sorted);
    }
  }

  /**
   * At most eight badges, the most frequent first; with eight keys or fewer
   * every key is shown.
   */
  lemma SummaryShape(skills: seq<Value>, key: string -> string)
    ensures var w := Words(skills);
      var n := |Grouping.Keys(w, key)|;
      var r := SummaryWith(skills, key);
      && |r| == (if n < Limit then n else Limit)
      && (forall i, j :: 0 <= i < j < |r| ==> r[i].count >= r[j].count)
      && (forall i :: 0 <= i < |r| ==> r[i].count >= 1)
  {
    var w := Words(skills);
    var all := Tallies(w, key);
    var sorted := Sorting.SortBy(all, CountKey(), Sorting.Descending);
    Sorting.SortPermutes(all, CountKey(), Sorting.Descending);
    Sorting.SortSorted(all, CountKey(), Sorting.Descending);
    var top := Top(w, key);
    Sorting.PrefixSorted(sorted, |top|, CountKey(), Sorting.Descending);
    assert |sorted| == |all|;
    TopAreTallies(w, key);
    forall i | 0 <= i < |top|
      ensures top[i].count >= 1
    {
      assert top[i] in Tallies(w, key);
      Grouping.MembersOfKey(w, key, top[i].key);
    }
  }

  /** No skills, no badges. */
  lemma NoSkills()
    ensures Summary([]) == []
  {
    SummaryShape([], SkillKey());
  }

  /** Every counted word is one of the skills, as a string. */
  lemma WordsAreSkills(skills: seq<Value>, x: string)
    requires x in Words(skills)
    ensures Str(x) in skills
  {
    var f := Seqs.Filter(skills, IsSkill());
    var j :| 0 <= j < |f| && Words(skills)[j] == x;
    Seqs.FilterIsSubsequence(skills, IsSkill());
    Seqs.SubsequenceMembers(f, skills);
    assert f[j] in skills;
  }

  /** The name kept for a key is one of the words with that key, no longer than any. */
  lemma NameOfKey(w: seq<string>, key: string -> string, k: string)
    requires k in Grouping.Keys(w, key)
    ensures var names := Grouping.Members(w, key, k);
      && Shortest(names) in names && Shortest(names) in w
      && key(Shortest(names)) == k
      && (forall j :: 0 <= j < |names| ==> |Shortest(names)| <= |names[j]|)
  {
    var names := Grouping.Members(w, key, k);
    Grouping.MembersOfKey(w, key, k);
    ShortestIsFirstShortest(names);
    Seqs.FilterIsSubsequence(w, Grouping.KeyIs(key, k));
    Seqs.SubsequenceMembers(names, w);
    var j :| 0 <= j < |names| && names[j] == Shortest(names);
    assert Grouping.KeyIs(key, k)(names[j]);
  }

  /** Each badge shows one of the spellings counted under its key, no longer than any of them. */
  lemma BadgeNames(skills: seq<Value>, key: string -> string, i: nat)
    requires i < |SummaryWith(skills, key)|
    ensures var w := Words(skills);
      var t := Top(w, key)[i];
      var names := Grouping.Members(w, key, t.key);
      var name := SummaryWith(skills, key)[i].skill;
      && name in names
      && key(name) == t.key
      && (forall j :: 0 <= j < |names| ==> |name| <= |names[j]|)
      && Str(name) in skills
  {
    var w := Words(skills);
    var t := Top(w, key)[i];
    TopAreTallies(w, key);
    assert t in Tallies(w, key);
    NameOfKey(w, key, t.key);
    WordsAreSkills(skills, Shortest(Grouping.Members(w, key, t.key)));
  }

  lemma {:induction false} TallySumIsTotalSize(w: seq<string>, key: string -> string, keys: seq<string>)
    ensures Seqs.SumBy(Seqs.Map(keys, TallyOf(w, key)), CountOf()) == Grouping.TotalSize(keys, w, key)
  {
    if keys != [] {
      var m := Seqs.Map(keys, TallyOf(w, key));
      assert m[..|m| - 1] == Seqs.Map(keys[..|keys| - 1], TallyOf(w, key));
      TallySumIsTotalSize(w, key, keys[..|keys| - 1]);
    }
  }

  /**
   * Every counted skill is counted once: the counts of all keys add up to
   * the number of counted skills, and the shown ones to no more, or exactly
   * that when nothing is cut.
   */
  lemma CountsAddUp(skills: seq<Value>, key: string -> string)
    ensures var w := Words(skills);
      && Seqs.SumBy(Tallies(w, key), CountOf()) == |w|
      && Seqs.SumBy(Top(w, key), CountOf()) <= |w| <= |skills|
      && (|Grouping.Keys(w, key)| <= Limit ==> Seqs.SumBy(Top(w, key), CountOf()) == |w|)
  {
    var w := Words(skills);
    var all := Tallies(w, key);
    TallySumIsTotalSize(w, key, Grouping.Keys(w, key));
    Grouping.TotalSizeIsLength(w, key);
    var sorted := Sorting.SortBy(all, CountKey(), Sorting.Descending);
    Sorting.SortPermutes(all, CountKey(), Sorting.Descending);
    Seqs.SumByPermutation(sorted, all, CountOf());
    assert |sorted| == |all|;
    var top := Top(w, key);
    Seqs.SumByPrefix(sorted, |top|, CountOf());
    assert sorted[..|top|] == top;
    if |all| <= Limit {
      assert top == sorted;
    }
  }

  /** Values that are not non-empty strings are skipped. */
  lemma SkipsNonSkills(skills: seq<Value>, key: string -> string, v: Value)
    requires !v.Str? || v.s == []
    ensures SummaryWith(skills + [v], key) == SummaryWith(skills, key)
  {
    Seqs.FilterAppend(skills, [v], IsSkill());
    assert [v][1..] == [];
    assert Seqs.Filter(skills + [v], IsSkill()) == Seqs.Filter(skills, IsSkill());
  }

  /** `summarizeSkills(skills)`, keyed by the synonym table. */
  method SummarizeSkills(skills: seq<Value>) returns (r: seq<SkillCount>)
    ensures r == Summary(skills)
  {
    r := SummarizeWith(skills, SkillKey());
  }
}

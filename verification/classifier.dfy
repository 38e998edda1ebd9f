/**
  The relevance classifier: fixed keyword tables and four reject rules tried
  in order on the lower-cased message text. A text is relevant exactly when
  no rule fires.
 */
module Classifier {
  import opened Text

  const InternshipKeywords: seq<string> :=
    ["intern", "internship", "trainee", "apprentice"]

  const StudentKeywords: seq<string> :=
    ["final year", "final-year", "student", "students only",
     "currently pursuing", "pursuing degree", "campus hiring",
     "on campus", "college student"]

  const ExperienceRejectPatterns: seq<string> :=
    ["2+ year", "3+ year", "4+ year",
     "minimum 2 year", "minimum 3 year",
     "2 years experience", "3 years experience",
     "experienced candidate", "experienced only"]

  const ExplicitNon2025Patterns: seq<string> :=
    ["2024 batch", "2023 batch", "2022 batch", "2021 batch",
     "2022-2024", "2021-2023"]

  /** The reject tables in the order the classifier consults them. */
  const RuleTables: seq<seq<string>> :=
    [InternshipKeywords, StudentKeywords, ExperienceRejectPatterns, ExplicitNon2025Patterns]

  /** Every pattern of every table. */
  const AllRejectPatterns: seq<string> :=
    InternshipKeywords + StudentKeywords + ExperienceRejectPatterns + ExplicitNon2025Patterns

  /** True when some pattern of the list occurs in `text`; the patterns are tried in order. */
  function ContainsAny(text: string, patterns: seq<string>): (r: bool)
    ensures r <==> exists p :: p in patterns && Contains(text, p)
  {
    if |patterns| == 0 then false
    else if Contains(text, patterns[0]) then
      assert patterns[0] in patterns;
      true
    else
      assert forall p :: p in patterns <==> p == patterns[0] || p in patterns[1..];
      ContainsAny(text, patterns[1..])
  }

  /**
    The cohort rule. Its second test (the text mentions "2025") returns the
    same answer as falling through, so only the explicit table decides.
   */
  function Excludes2025(text: string): (r: bool)
    ensures r <==> exists p :: p in ExplicitNon2025Patterns && Contains(text, p)
  {
    if ContainsAny(text, ExplicitNon2025Patterns) then true
    else if Contains(text, "2025") then false
    else false
  }

  /** The classifier: reject on the first rule that fires, accept otherwise. */
  function IsRelevant(messageText: string): (r: bool)
    ensures r <==> forall p :: p in AllRejectPatterns ==> !Contains(Lower(messageText), p)
  {
    var text := Lower(messageText);
    assert forall p :: p in AllRejectPatterns <==>
      p in InternshipKeywords || p in StudentKeywords || p in ExperienceRejectPatterns || p in ExplicitNon2025Patterns;
    if ContainsAny(text, InternshipKeywords) then false
    else if ContainsAny(text, StudentKeywords) then false
    else if ContainsAny(text, ExperienceRejectPatterns) then false
    else if Excludes2025(text) then false
    else true
  }

  /** Tries the tables in the given order; the first table with an occurrence rejects. */
  function FirstMatchAccepts(text: string, tables: seq<seq<string>>): (r: bool)
    ensures r <==> forall t :: t in tables ==> !ContainsAny(text, t)
  {
    if |tables| == 0 then true
    else if ContainsAny(text, tables[0]) then
      assert tables[0] in tables;
      false
    else
      assert forall t :: t in tables <==> t == tables[0] || t in tables[1..];
      FirstMatchAccepts(text, tables[1..])
  }

  /** The classifier gives the same answer whatever order the four rules are tried in. */
  lemma RuleOrderIrrelevant(messageText: string, order: seq<seq<string>>)
    requires multiset(order) == multiset(RuleTables)
    ensures IsRelevant(messageText) == FirstMatchAccepts(Lower(messageText), order)
  {
    var text := Lower(messageText);
    forall t | t in order
      ensures t in RuleTables
    {
      assert t in multiset(order);
    }
    forall t | t in RuleTables
      ensures t in order
    {
      assert t in multiset(RuleTables);
    }
    assert RuleTables[0] == InternshipKeywords;
    assert RuleTables[1] == StudentKeywords;
    assert RuleTables[2] == ExperienceRejectPatterns;
    assert RuleTables[3] == ExplicitNon2025Patterns;
  }

  /** Any text with "intern" in any letter case is rejected. */
  lemma InternAnyCaseRejected(messageText: string, i: int)
    requires 0 <= i && i + 6 <= |messageText| && Lower(messageText[i..i + 6]) == "intern"
    ensures !IsRelevant(messageText)
  {
    LowerSlice(messageText, i, i + 6);
    assert OccursAt(Lower(messageText), "intern", i);
    assert "intern" in AllRejectPatterns;
  }

  /** Any text with "2024 batch" in any letter case is rejected. */
  lemma Batch2024AnyCaseRejected(messageText: string, i: int)
    requires 0 <= i && i + 10 <= |messageText| && Lower(messageText[i..i + 10]) == "2024 batch"
    ensures !IsRelevant(messageText)
  {
    LowerSlice(messageText, i, i + 10);
    assert OccursAt(Lower(messageText), "2024 batch", i);
    assert "2024 batch" in AllRejectPatterns;
  }

  /** "Hiring interns for 2025" is rejected by the internship rule. */
  lemma HiringInternsRejected()
    ensures !IsRelevant("Hiring interns for 2025")
  {
    var t := "Hiring interns for 2025";
    assert t[7..13] == "intern";
    InternAnyCaseRejected(t, 7);
  }

  /** A cohort outside the explicit table is not rejected: "2026 batch" is relevant. */
  lemma UnlistedCohortAccepted()
    ensures IsRelevant("2026 batch")
  {
    var t := "2026 batch";
    CohortTextIsLower(t);
    NoInternshipKeywordIn2026(t);
    NoStudentKeywordIn2026(t);
    NoExperiencePatternIn2026(t);
    NoCohortPatternIn2026(t);
  }

  lemma CohortTextIsLower(t: string)
    requires t == "2026 batch"
    ensures Lower(t) == t
  {
    forall i | 0 <= i < |t|
      ensures LowerChar(t[i]) == t[i]
    {
    }
  }

  lemma NoInternshipKeywordIn2026(t: string)
    requires t == "2026 batch"
    ensures !ContainsAny(t, InternshipKeywords)
  {
    AbsentCharBlocks(t, "intern", 0);
    AbsentCharBlocks(t, "internship", 0);
    AbsentCharBlocks(t, "trainee", 1);
    AbsentCharBlocks(t, "apprentice", 1);
  }

  lemma NoStudentKeywordIn2026(t: string)
    requires t == "2026 batch"
    ensures !ContainsAny(t, StudentKeywords)
  {
    var a, b, c := ["final year", "final-year", "student"],
                   ["students only", "currently pursuing", "pursuing degree"],
                   ["campus hiring", "on campus", "college student"];
    NoneOfThreeIn(t, a[0], a[1], a[2], 0, 0, 0);
    NoneOfThreeIn(t, b[0], b[1], b[2], 0, 1, 0);
    NoneOfThreeIn(t, c[0], c[1], c[2], 2, 0, 1);
    NoneOfNineIn(t, a, b, c);
    assert StudentKeywords == a + b + c;
  }

  lemma NoExperiencePatternIn2026(t: string)
    requires t == "2026 batch"
    ensures !ContainsAny(t, ExperienceRejectPatterns)
  {
    var a, b, c := ["2+ year", "3+ year", "4+ year"],
                   ["minimum 2 year", "minimum 3 year", "2 years experience"],
                   ["3 years experience", "experienced candidate", "experienced only"];
    NoneOfThreeIn(t, a[0], a[1], a[2], 1, 0, 0);
    NoneOfThreeIn(t, b[0], b[1], b[2], 0, 0, 2);
    NoneOfThreeIn(t, c[0], c[1], c[2], 0, 0, 0);
    NoneOfNineIn(t, a, b, c);
    assert ExperienceRejectPatterns == a + b + c;
  }

  /** Helper: no pattern of three triples occurs when none of each triple does. */
  lemma NoneOfNineIn(t: string, a: seq<string>, b: seq<string>, c: seq<string>)
    requires !ContainsAny(t, a) && !ContainsAny(t, b) && !ContainsAny(t, c)
    ensures !ContainsAny(t, a + b + c)
  {
    ContainsAnyAppend(t, a, b);
    ContainsAnyAppend(t, a + b, c);
  }

  /** Helper: three patterns, each with a character (at the given index) absent from `t`. */
  lemma NoneOfThreeIn(t: string, a: string, b: string, c: string, i: int, j: int, k: int)
    requires 0 <= i < |a| && a[i] !in t
    requires 0 <= j < |b| && b[j] !in t
    requires 0 <= k < |c| && c[k] !in t
    ensures !ContainsAny(t, [a, b, c])
  {
    AbsentCharBlocks(t, a, i);
    AbsentCharBlocks(t, b, j);
    AbsentCharBlocks(t, c, k);
  }

  lemma ContainsAnyAppend(t: string, a: seq<string>, b: seq<string>)
    ensures ContainsAny(t, a + b) <==> ContainsAny(t, a) || ContainsAny(t, b)
  {
    assert forall p :: p in a + b <==> p in a || p in b;
  }

  lemma NoCohortPatternIn2026(t: string)
    requires t == "2026 batch"
    ensures !ContainsAny(t, ExplicitNon2025Patterns)
  {
    AbsentCharBlocks(t, "2024 batch", 3);
    AbsentCharBlocks(t, "2023 batch", 3);
    LongPatternMustEqual(t, "2022 batch");
    AbsentCharBlocks(t, "2021 batch", 3);
    AbsentCharBlocks(t, "2022-2024", 4);
    AbsentCharBlocks(t, "2021-2023", 3);
  }
}

/** `GET /recommended-skills`: the user's categories and low scores are read
    from their history, then the skills they have not attempted that lie in
    one of those categories (or share the difficulty the subquery picks) are
    ranked by category match, popularity and average score, and paged. */
module Recommendations {
  import opened Common
  import opened Tables
  import opened Sorting
  import opened SkillListing
  import opened AdminAssessments

  // ---------------------------------------------------------------------
  // The inputs derived from the history

  /** A row of the history query: the user's attempts, newest first. */
  datatype HistoryRow = HistoryRow(assessmentId: int, score: int, category: Option<string>)

  /** `[...new Set(xs)]`: each value once, where it first occurs. */
  function Distinct<T(==)>(xs: seq<T>): (r: seq<T>)
    ensures |r| <= |xs|
  {
    if xs == [] then []
    else
      var d := Distinct(xs[..|xs| - 1]);
      if xs[|xs| - 1] in d then d else d + [xs[|xs| - 1]]
  }

  /** The position of the first occurrence. */
  function FirstIndex<T(==)>(xs: seq<T>, x: T): (i: nat)
    requires x in xs
    ensures i < |xs| && xs[i] == x
    ensures forall k :: 0 <= k < i ==> xs[k] != x
  {
    if xs[0] == x then 0 else 1 + FirstIndex(xs[1..], x)
  }

  lemma FirstIndexUnique<T>(xs: seq<T>, x: T, i: nat)
    requires i < |xs| && xs[i] == x && forall k :: 0 <= k < i ==> xs[k] != x
    ensures FirstIndex(xs, x) == i
  {
  }

  lemma FirstIndexExtend<T>(xs: seq<T>, y: T, x: T)
    requires x in xs
    ensures FirstIndex(xs + [y], x) == FirstIndex(xs, x)
  {
    var i := FirstIndex(xs, x);
    assert (xs + [y])[i] == x;
    FirstIndexUnique(xs + [y], x, i);
  }

  lemma {:induction false} DistinctMember<T>(xs: seq<T>, x: T)
    ensures x in Distinct(xs) <==> x in xs
  {
    if xs != [] {
      var n := |xs| - 1;
      DistinctMember(xs[..n], x);
      assert xs == xs[..n] + [xs[n]];
    }
  }

  lemma {:induction false} DistinctNoDuplicates<T>(xs: seq<T>)
    ensures forall i, j :: 0 <= i < j < |Distinct(xs)| ==> Distinct(xs)[i] != Distinct(xs)[j]
  {
    if xs != [] {
      var last := xs[|xs| - 1];
      var d := Distinct(xs[..|xs| - 1]);
      DistinctNoDuplicates(xs[..|xs| - 1]);
      if last !in d {
        var r := d + [last];
        assert Distinct(xs) == r;
        forall i, j | 0 <= i < j < |r|
          ensures r[i] != r[j]
        {
          if j == |d| {
            assert r[i] == d[i] && d[i] in d;
          }
        }
      }
    }
  }

  /** The values keep the order of their first occurrences. */
  lemma {:induction false} DistinctOrder<T>(xs: seq<T>, i: nat, j: nat)
    requires i < j < |Distinct(xs)|
    ensures Distinct(xs)[i] in xs && Distinct(xs)[j] in xs
    ensures FirstIndex(xs, Distinct(xs)[i]) < FirstIndex(xs, Distinct(xs)[j])
  {
    var n := |xs| - 1;
    var init := xs[..n];
    var d := Distinct(init);
    assert xs == init + [xs[n]];
    var a := Distinct(xs)[i];
    var b := Distinct(xs)[j];
    assert a == d[i] && a in d;
    DistinctMember(init, a);
    FirstIndexExtend(init, xs[n], a);
    if j < |d| {
      assert b == d[j] && b in d;
      DistinctMember(init, b);
      DistinctOrder(init, i, j);
      FirstIndexExtend(init, xs[n], b);
    } else {
      assert b == xs[n] && b !in d;
      DistinctMember(init, b);
      FirstIndexUnique(xs, b, n);
    }
  }

  function CategoriesOf(history: seq<HistoryRow>): (r: seq<Option<string>>)
    ensures |r| == |history| && forall k :: 0 <= k < |history| ==> r[k] == history[k].category
  {
    seq(|history|, k requires 0 <= k < |history| => history[k].category)
  }

  /** The categories of the user's attempts, each once, in the order a
      `Set` built from them keeps: first occurrence. */
  function UserCategories(history: seq<HistoryRow>): seq<Option<string>>
  {
    Distinct(CategoriesOf(history))
  }

  /** The user's categories: each category of the history exactly once, in
      the order of first occurrence. */
  lemma UserCategoriesSpec(history: seq<HistoryRow>)
    ensures var cats := UserCategories(history);
      (forall c :: c in cats <==> exists k :: 0 <= k < |history| && history[k].category == c) &&
      (forall i, j :: 0 <= i < j < |cats| ==> cats[i] != cats[j])
    ensures UserCategories(history) == [] <==> history == []
  {
    var cs := CategoriesOf(history);
    assert UserCategories(history) == Distinct(cs);
    DistinctNoDuplicates(cs);
    forall c | c in UserCategories(history)
      ensures exists k :: 0 <= k < |history| && history[k].category == c
    {
      DistinctMember(cs, c);
      var k :| 0 <= k < |cs| && cs[k] == c;
      assert history[k].category == c;
    }
    forall k | 0 <= k < |history|
      ensures history[k].category in UserCategories(history)
    {
      assert cs[k] in cs;
      DistinctMember(cs, cs[k]);
    }
    if history != [] {
      assert cs[0] in cs;
      DistinctMember(cs, cs[0]);
    }
  }

  /** The ids of the attempts scored strictly below the pass
      threshold, in history order. */
  function LowScoreSkills(history: seq<HistoryRow>): seq<int>
  {
    if history == [] then []
    else
      var last := history[|history| - 1];
      LowScoreSkills(history[..|history| - 1]) + (if last.score < PassThreshold then [last.assessmentId] else [])
  }

  /** An id is low exactly when some attempt at it scored below 70; a score
      of exactly 70 is not low. */
  lemma {:induction false} LowScoreMembers(history: seq<HistoryRow>)
    ensures forall id :: id in LowScoreSkills(history) <==>
      exists k :: 0 <= k < |history| && history[k].assessmentId == id && history[k].score < PassThreshold
  {
    if history != [] {
      var n := |history| - 1;
      LowScoreMembers(history[..n]);
      assert forall k :: 0 <= k < n ==> history[..n][k] == history[k];
    }
  }

  /** Filtering keeps the history order: the low scores of two stretches of
      history are those of the first followed by those of the second. */
  lemma {:induction false} LowScoreOrder(h1: seq<HistoryRow>, h2: seq<HistoryRow>)
    ensures LowScoreSkills(h1 + h2) == LowScoreSkills(h1) + LowScoreSkills(h2)
  {
    if h2 == [] {
      assert h1 + h2 == h1;
    } else {
      var n := |h2| - 1;
      LowScoreOrder(h1, h2[..n]);
      assert (h1 + h2)[..|h1 + h2| - 1] == h1 + h2[..n];
    }
  }

  // ---------------------------------------------------------------------
  // The candidate rows and their order

  /** A row of `user_assessments`. */
  datatype Attempt = Attempt(userId: int, assessmentId: int, score: int)

  /** A recommended row: the skill, `COUNT(DISTINCT ua.id)` and
      `AVG(ua.score)` over everyone's attempts at it (NULL without any). */
  datatype Candidate = Candidate(skill: SkillRow, popularity: nat, avgScore: Option<real>)

  /** The scores of every attempt at the skill. */
  function ScoresOf(attempts: seq<Attempt>, id: int): seq<int>
  {
    if attempts == [] then []
    else
      var last := attempts[|attempts| - 1];
      ScoresOf(attempts[..|attempts| - 1], id) + (if last.assessmentId == id then [last.score] else [])
  }

  function CandidateOf(skill: SkillRow, attempts: seq<Attempt>): Candidate
  {
    var scores := ScoresOf(attempts, skill.id);
    Candidate(skill, |scores|, Average(scores))
  }

  /** `SELECT assessment_id FROM user_assessments WHERE user_id = ?`. */
  function Attempted(attempts: seq<Attempt>, uid: int): set<int>
  {
    set a | a in attempts && a.userId == uid :: a.assessmentId
  }

  /** `category IN (cats)`: a NULL category is in no list. */
  predicate InCategories(category: Option<string>, cats: seq<Option<string>>)
  {
    category.Some? && category in cats
  }

  /** A candidate the recommendation query keeps: not attempted by the
      user, and in one of the user's categories or of the picked difficulty.
      `picked` stands for the difficulty the `LIMIT 1`
      subquery returns, if any. */
  predicate Eligible(s: SkillRow, attempts: seq<Attempt>, uid: int, cats: seq<Option<string>>,
                     picked: Option<string>)
  {
    s.id !in Attempted(attempts, uid) &&
    (InCategories(s.category, cats) || (picked.Some? && s.difficulty == picked))
  }

  /** The rows the WHERE clause keeps, in catalogue order. */
  function Matching(skills: seq<SkillRow>, attempts: seq<Attempt>, uid: int, cats: seq<Option<string>>,
                    picked: Option<string>): seq<Candidate>
  {
    if skills == [] then []
    else
      var last := skills[|skills| - 1];
      Matching(skills[..|skills| - 1], attempts, uid, cats, picked) +
      (if Eligible(last, attempts, uid, cats, picked) then [CandidateOf(last, attempts)] else [])
  }

  /** A row matches exactly when it is the candidate row of an eligible
      skill. */
  lemma {:induction false} MatchingMembers(skills: seq<SkillRow>, attempts: seq<Attempt>, uid: int,
                                           cats: seq<Option<string>>, picked: Option<string>)
    ensures forall c :: c in Matching(skills, attempts, uid, cats, picked) <==>
      exists k :: 0 <= k < |skills| && Eligible(skills[k], attempts, uid, cats, picked) &&
                  c == CandidateOf(skills[k], attempts)
  {
    if skills != [] {
      var n := |skills| - 1;
      MatchingMembers(skills[..n], attempts, uid, cats, picked);
      assert forall k :: 0 <= k < n ==> skills[..n][k] == skills[k];
    }
  }

  /** `CASE WHEN s.category IN (?) THEN 1 ELSE 2 END`. */
  function CategoryRank(c: Candidate, cats: seq<Option<string>>): int
  {
    if InCategories(c.skill.category, cats) then 1 else 2
  }

  /** `avg_score ASC`: NULL sorts first. */
  predicate AverageAtMost(x: Option<real>, y: Option<real>)
  {
    x.None? || (y.Some? && x.value <= y.value)
  }

  /** The recommendation order: `a` may come before `b` (category match
      first, then popularity descending, then average score ascending). */
  predicate Precedes(cats: seq<Option<string>>, a: Candidate, b: Candidate)
  {
    CategoryRank(a, cats) < CategoryRank(b, cats) ||
    (CategoryRank(a, cats) == CategoryRank(b, cats) &&
     (a.popularity > b.popularity ||
      (a.popularity == b.popularity && AverageAtMost(a.avgScore, b.avgScore))))
  }

  function Order(cats: seq<Option<string>>): (Candidate, Candidate) -> bool
  {
    (a: Candidate, b: Candidate) => Precedes(cats, a, b)
  }

  /** The ORDER BY key orders every two rows, transitively. */
  lemma OrderIsTotal(cats: seq<Option<string>>)
    ensures TotalPreorder(Order(cats))
  {
    forall a, b
      ensures Order(cats)(a, b) || Order(cats)(b, a)
    {
    }
    forall a, b, c | Order(cats)(a, b) && Order(cats)(b, c)
      ensures Order(cats)(a, c)
    {
    }
  }

  // ---------------------------------------------------------------------
  // The route

  /** The ranked rows the statement returns, before the window. */
  function Ranked(skills: seq<SkillRow>, attempts: seq<Attempt>, uid: int, cats: seq<Option<string>>,
                  picked: Option<string>): seq<Candidate>
  {
    SortBy(Matching(skills, attempts, uid, cats, picked), Order(cats))
  }

  /** The route as written. `mysql2` renders an empty array as `IN ()`,
      which MySQL rejects, so a user with no history (no categories) or no
      low score answers 500. `dbError` stands for a failing query. */
  function Recommend(history: seq<HistoryRow>, skills: seq<SkillRow>, attempts: seq<Attempt>, uid: int,
                     picked: Option<string>, page: int, limit: int, dbError: bool): Listing<Candidate>
  {
    var cats := UserCategories(history);
    if cats == [] || LowScoreSkills(history) == [] then Listing(ServerError, [], 0, false, page)
    else Paginate(page, limit, Ranked(skills, attempts, uid, cats, picked), dbError)
  }

  /** Every row of a page: an unattempted skill in one of the user's
      categories or of the picked difficulty, with its own popularity and
      average; the page is in ORDER BY order and the total counts every
      matching skill. */
  lemma RankedSpec(skills: seq<SkillRow>, attempts: seq<Attempt>, uid: int, cats: seq<Option<string>>,
                   picked: Option<string>, offset: nat, limit: nat)
    ensures var r := Ranked(skills, attempts, uid, cats, picked);
      var w := Window(r, offset, limit);
      SortedBy(r, Order(cats)) && SortedBy(w, Order(cats)) &&
      multiset(r) == multiset(Matching(skills, attempts, uid, cats, picked)) &&
      forall c :: c in w ==>
        c.skill in skills && c == CandidateOf(c.skill, attempts) &&
        c.skill.id !in Attempted(attempts, uid) &&
        (InCategories(c.skill.category, cats) || (picked.Some? && c.skill.difficulty == picked))
  {
    var m := Matching(skills, attempts, uid, cats, picked);
    var r := Ranked(skills, attempts, uid, cats, picked);
    RankedOrder(skills, attempts, uid, cats, picked);
    WindowSorted(r, offset, limit, Order(cats));
    MatchingMembers(skills, attempts, uid, cats, picked);
    forall c | c in Window(r, offset, limit)
      ensures c in m
    {
      assert c in multiset(r);
    }
  }

  /** The ranking is the ORDER BY order of exactly the matching rows. */
  lemma RankedOrder(skills: seq<SkillRow>, attempts: seq<Attempt>, uid: int, cats: seq<Option<string>>,
                    picked: Option<string>)
    ensures var r := Ranked(skills, attempts, uid, cats, picked);
      SortedBy(r, Order(cats)) && multiset(r) == multiset(Matching(skills, attempts, uid, cats, picked))
  {
    var m := Matching(skills, attempts, uid, cats, picked);
    OrderIsTotal(cats);
    SortSorted(m, Order(cats));
    SortPermutes(m, Order(cats));
  }

  /** Every unattempted skill in one of the user's categories or of the
      picked difficulty is ranked. */
  lemma EligibleRanked(skills: seq<SkillRow>, attempts: seq<Attempt>, uid: int, cats: seq<Option<string>>,
                       picked: Option<string>, k: nat)
    requires k < |skills| && Eligible(skills[k], attempts, uid, cats, picked)
    ensures CandidateOf(skills[k], attempts) in Ranked(skills, attempts, uid, cats, picked)
  {
    var m := Matching(skills, attempts, uid, cats, picked);
    var c := CandidateOf(skills[k], attempts);
    MatchingMembers(skills, attempts, uid, cats, picked);
    assert c in m by {
      assert 0 <= k < |skills| && Eligible(skills[k], attempts, uid, cats, picked) &&
        c == CandidateOf(skills[k], attempts);
    }
    assert c in multiset(m);
    RankedOrder(skills, attempts, uid, cats, picked);
  }

  /** The rows in one of the user's categories come before all others;
      within each group popularity never increases, and among rows of equal
      popularity the average never decreases, NULL first. */
  lemma CategoryMatchesFirst(rows: seq<Candidate>, cats: seq<Option<string>>, i: nat, j: nat)
    requires SortedBy(rows, Order(cats)) && i < j < |rows|
    ensures InCategories(rows[j].skill.category, cats) ==> InCategories(rows[i].skill.category, cats)
    ensures CategoryRank(rows[i], cats) == CategoryRank(rows[j], cats) ==>
      rows[i].popularity >= rows[j].popularity
    ensures (CategoryRank(rows[i], cats) == CategoryRank(rows[j], cats) &&
             rows[i].popularity == rows[j].popularity) ==>
      AverageAtMost(rows[i].avgScore, rows[j].avgScore)
  {
    assert Order(cats)(rows[i], rows[j]);
  }

  /** The answer of the route: 500 with no categories or no low score,
      otherwise the page of the ranked rows. */
  lemma RecommendSpec(history: seq<HistoryRow>, skills: seq<SkillRow>, attempts: seq<Attempt>, uid: int,
                      picked: Option<string>, page: int, limit: int, dbError: bool)
    requires limit != 0
    ensures var r := Recommend(history, skills, attempts, uid, picked, page, limit, dbError);
      var cats := UserCategories(history);
      (r.status == OK <==> !dbError && page >= 1 && limit >= 1 && LowScoreSkills(history) != []) &&
      (r.status != OK ==> r.status == ServerError) &&
      (r.status == OK ==>
        r.skills == Window(Ranked(skills, attempts, uid, cats, picked), Offset(page, limit), limit) &&
        r.total == |Matching(skills, attempts, uid, cats, picked)| &&
        (r.hasMore <==> page * limit < r.total))
  {
    var cats := UserCategories(history);
    UserCategoriesSpec(history);
    if LowScoreSkills(history) != [] {
      assert history != [];
      PaginateSpec(page, limit, Ranked(skills, attempts, uid, cats, picked), dbError);
    }
  }

  /** A user whose only attempt passed gets 500 although nothing failed. */
  lemma RecommendEmptyListFails()
    ensures Recommend([HistoryRow(1, 90, Some("Web"))], [], [], 7, None, 1, 6, false).status == ServerError
  {
    assert LowScoreSkills([HistoryRow(1, 90, Some("Web"))]) == [];
  }

  /** The route as evidently intended: an empty list matches nothing, so
      the difficulty branch is off when there is no low score. */
  function RecommendFixed(history: seq<HistoryRow>, skills: seq<SkillRow>, attempts: seq<Attempt>, uid: int,
                          picked: Option<string>, page: int, limit: int, dbError: bool): Listing<Candidate>
  {
    var cats := UserCategories(history);
    var pickedFixed := if LowScoreSkills(history) == [] then None else picked;
    Paginate(page, limit, Ranked(skills, attempts, uid, cats, pickedFixed), dbError)
  }

  /** The fixed route fails only for a failing query or a page or limit
      below 1, whatever the history, and answers as the original wherever
      the original does not fail. */
  lemma RecommendFixedSpec(history: seq<HistoryRow>, skills: seq<SkillRow>, attempts: seq<Attempt>, uid: int,
                           picked: Option<string>, page: int, limit: int, dbError: bool)
    requires limit != 0
    ensures var r := RecommendFixed(history, skills, attempts, uid, picked, page, limit, dbError);
      r.status == OK <==> !dbError && page >= 1 && limit >= 1
    ensures LowScoreSkills(history) != [] ==>
      RecommendFixed(history, skills, attempts, uid, picked, page, limit, dbError) ==
      Recommend(history, skills, attempts, uid, picked, page, limit, dbError)
    ensures history == [] ==>
      var r := RecommendFixed(history, skills, attempts, uid, picked, page, limit, dbError);
      r.status == OK ==> r.skills == [] && r.total == 0
  {
    var cats := UserCategories(history);
    var pickedFixed := if LowScoreSkills(history) == [] then None else picked;
    PaginateSpec(page, limit, Ranked(skills, attempts, uid, cats, pickedFixed), dbError);
    UserCategoriesSpec(history);
    if LowScoreSkills(history) != [] {
      assert history != [];
    }
    if history == [] {
      MatchingNone(skills, attempts, uid, cats);
    }
  }

  /** With no category and no picked difficulty nothing matches. */
  lemma {:induction false} MatchingNone(skills: seq<SkillRow>, attempts: seq<Attempt>, uid: int,
                                        cats: seq<Option<string>>)
    requires cats == []
    ensures Matching(skills, attempts, uid, cats, None) == []
  {
    if skills != [] {
      MatchingNone(skills[..|skills| - 1], attempts, uid, cats);
    }
  }
}

/** The leaderboard controller: the overall board (every user's summed
    report scores), the board of one assessment title, and a user's own
    ranking, as functions over the `users` table and the rows of
    `assessment_reports`. A NULL report score adds nothing to a sum, is
    COALESCEd to 0 on a board and is not above 0, so scores are taken as
    integers with NULL read as 0. */
module Leaderboard {
  import opened Common
  import opened Tables
  import opened Sorting

  /** A row of `assessment_reports`. */
  datatype Report = Report(userId: int, title: string, score: int)

  /** A row of a board; `score` is the number shown with two decimals. */
  datatype Entry = Entry(id: int, username: string, avatar: string, score: int)

  const BoardSize: nat := 100
  const DefaultAvatar: string := "/default-avatar.png"

  /** `avatar || '/default-avatar.png'`: NULL and the empty text are falsy. */
  function Avatar(picture: Option<string>): (r: string)
    ensures r != ""
    ensures picture.Some? && picture.value != "" ==> r == picture.value
    ensures picture.None? || picture.value == "" ==> r == DefaultAvatar
  {
    if picture.Some? && picture.value != "" then picture.value else DefaultAvatar
  }

  /** `COALESCE(SUM(score), 0)` over the reports of one user. */
  function Total(reports: seq<Report>, uid: int): int
  {
    if reports == [] then 0
    else
      var last := reports[|reports| - 1];
      Total(reports[..|reports| - 1], uid) + (if last.userId == uid then last.score else 0)
  }

  /** A user without reports totals 0; a report adds its score to its own
      user's total only. */
  lemma TotalSpec(reports: seq<Report>, uid: int, r: Report)
    ensures (forall k :: 0 <= k < |reports| ==> reports[k].userId != uid) ==> Total(reports, uid) == 0
    ensures Total(reports + [r], uid) == Total(reports, uid) + (if r.userId == uid then r.score else 0)
  {
    assert (reports + [r])[..|reports|] == reports;
    if forall k :: 0 <= k < |reports| ==> reports[k].userId != uid {
      TotalOfNone(reports, uid);
    }
  }

  lemma {:induction false} TotalOfNone(reports: seq<Report>, uid: int)
    requires forall k :: 0 <= k < |reports| ==> reports[k].userId != uid
    ensures Total(reports, uid) == 0
  {
    if reports != [] {
      TotalOfNone(reports[..|reports| - 1], uid);
    }
  }

  /** `ORDER BY score DESC`. */
  function ByScore(): (Entry, Entry) -> bool
  {
    (a: Entry, b: Entry) => a.score >= b.score
  }

  lemma ByScoreIsTotal()
    ensures TotalPreorder(ByScore())
  {
  }

  /** `users` scanned in the order `ids` gives: every id once. */
  predicate ScanOrder(users: map<int, User>, ids: seq<int>)
  {
    (forall i, j :: 0 <= i < j < |ids| ==> ids[i] != ids[j]) &&
    (forall id :: id in users ==> id in ids) &&
    (forall k :: 0 <= k < |ids| ==> ids[k] in users)
  }

  /** One row per user, reports or not. */
  function OverallRows(users: map<int, User>, ids: seq<int>, reports: seq<Report>): (r: seq<Entry>)
    requires forall k :: 0 <= k < |ids| ==> ids[k] in users
    ensures |r| == |ids|
    ensures forall k :: 0 <= k < |ids| ==>
      r[k] == Entry(ids[k], users[ids[k]].name, Avatar(users[ids[k]].picture), Total(reports, ids[k]))
  {
    seq(|ids|, k requires 0 <= k < |ids| =>
      Entry(ids[k], users[ids[k]].name, Avatar(users[ids[k]].picture), Total(reports, ids[k])))
  }

  /** `getOverallLeaderboard`: the first 100 rows by total, highest first. */
  function OverallLeaderboard(users: map<int, User>, ids: seq<int>, reports: seq<Report>): seq<Entry>
    requires ScanOrder(users, ids)
  {
    Window(SortBy(OverallRows(users, ids, reports), ByScore()), 0, BoardSize)
  }

  /** The overall board has one row for each of the 100 best users (all of
      them when there are fewer), each with its own total and an avatar,
      highest total first; a user left off scores no more than anyone on
      the board. */
  lemma OverallSpec(users: map<int, User>, ids: seq<int>, reports: seq<Report>)
    requires ScanOrder(users, ids)
    ensures var board := OverallLeaderboard(users, ids, reports);
      |board| == (if |ids| < BoardSize then |ids| else BoardSize) &&
      (forall i, j :: 0 <= i < j < |board| ==> board[i].score >= board[j].score) &&
      (forall e :: e in board ==>
        e.id in users && e.username == users[e.id].name && e.avatar == Avatar(users[e.id].picture) &&
        e.score == Total(reports, e.id))
    ensures var ranked := SortBy(OverallRows(users, ids, reports), ByScore());
      var board := OverallLeaderboard(users, ids, reports);
      multiset(ranked) == multiset(OverallRows(users, ids, reports)) &&
      board == ranked[..|board|] &&
      forall k, i :: |board| <= k < |ranked| && 0 <= i < |board| ==> ranked[k].score <= board[i].score
  {
    var rows := OverallRows(users, ids, reports);
    var ranked := SortBy(rows, ByScore());
    ByScoreIsTotal();
    SortSorted(rows, ByScore());
    SortPermutes(rows, ByScore());
    WindowSorted(ranked, 0, BoardSize, ByScore());
    forall e | e in OverallLeaderboard(users, ids, reports)
      ensures e.id in users && e.username == users[e.id].name && e.avatar == Avatar(users[e.id].picture) &&
        e.score == Total(reports, e.id)
    {
      assert e in multiset(rows);
      var k :| 0 <= k < |rows| && rows[k] == e;
    }
    var board := OverallLeaderboard(users, ids, reports);
    forall k, i | |board| <= k < |ranked| && 0 <= i < |board|
      ensures ranked[k].score <= board[i].score
    {
      assert board[i] == ranked[i];
      assert ByScore()(ranked[i], ranked[k]);
    }
  }

  /** The rows of `users JOIN assessment_reports WHERE title = ?`: one per
      report with that title whose user exists, with that report's score. */
  function TitleRows(users: map<int, User>, reports: seq<Report>, title: string): seq<Entry>
  {
    if reports == [] then []
    else
      var last := reports[|reports| - 1];
      TitleRows(users, reports[..|reports| - 1], title) +
      (if last.title == title && last.userId in users
       then [Entry(last.userId, users[last.userId].name, Avatar(users[last.userId].picture), last.score)]
       else [])
  }

  lemma {:induction false} TitleRowsMembers(users: map<int, User>, reports: seq<Report>, title: string)
    ensures forall e :: e in TitleRows(users, reports, title) <==>
      exists k :: 0 <= k < |reports| && reports[k].title == title && reports[k].userId in users &&
        e == Entry(reports[k].userId, users[reports[k].userId].name, Avatar(users[reports[k].userId].picture),
                   reports[k].score)
  {
    if reports != [] {
      var n := |reports| - 1;
      TitleRowsMembers(users, reports[..n], title);
      assert forall k :: 0 <= k < n ==> reports[..n][k] == reports[k];
    }
  }

  /** The board of one title: its first 100 rows by score. */
  function TitleBoard(users: map<int, User>, reports: seq<Report>, title: string): seq<Entry>
  {
    Window(SortBy(TitleRows(users, reports, title), ByScore()), 0, BoardSize)
  }

  /** One board of `getSkillwiseLeaderboard`. */
  datatype SkillBoard = SkillBoard(skillId: string, skillName: string, leaderboard: seq<Entry>)

  /** `getSkillwiseLeaderboard` over the distinct titles of `assessments`. */
  function SkillwiseLeaderboard(titles: seq<string>, users: map<int, User>, reports: seq<Report>)
    : (r: seq<SkillBoard>)
    ensures |r| == |titles|
    ensures forall k :: 0 <= k < |titles| ==>
      r[k] == SkillBoard(titles[k], titles[k], TitleBoard(users, reports, titles[k]))
  {
    seq(|titles|, k requires 0 <= k < |titles| =>
      SkillBoard(titles[k], titles[k], TitleBoard(users, reports, titles[k])))
  }

  /** A title's board holds the 100 best rows of that title (all of them
      when there are fewer), highest score first: one row per report with
      that title by an existing user, carrying that report's score; a row
      left off scores no more than any row on the board. */
  lemma TitleBoardSpec(users: map<int, User>, reports: seq<Report>, title: string)
    ensures var rows := TitleRows(users, reports, title);
      var board := TitleBoard(users, reports, title);
      |board| == (if |rows| < BoardSize then |rows| else BoardSize) &&
      (forall i, j :: 0 <= i < j < |board| ==> board[i].score >= board[j].score) &&
      (forall e :: e in board ==>
        exists k :: 0 <= k < |reports| && reports[k].title == title && reports[k].userId == e.id &&
          e.id in users && e.score == reports[k].score && e.avatar == Avatar(users[e.id].picture))
    ensures var rows := TitleRows(users, reports, title);
      var ranked := SortBy(rows, ByScore());
      var board := TitleBoard(users, reports, title);
      multiset(ranked) == multiset(rows) &&
      board == ranked[..|board|] &&
      forall k, i :: |board| <= k < |ranked| && 0 <= i < |board| ==> ranked[k].score <= board[i].score
  {
    var rows := TitleRows(users, reports, title);
    var ranked := SortBy(rows, ByScore());
    ByScoreIsTotal();
    SortSorted(rows, ByScore());
    SortPermutes(rows, ByScore());
    WindowSorted(ranked, 0, BoardSize, ByScore());
    TitleRowsMembers(users, reports, title);
    forall e | e in TitleBoard(users, reports, title)
      ensures e in rows
    {
      assert e in multiset(rows);
    }
    var board := TitleBoard(users, reports, title);
    forall k, i | |board| <= k < |ranked| && 0 <= i < |board|
      ensures ranked[k].score <= board[i].score
    {
      assert board[i] == ranked[i];
      assert ByScore()(ranked[i], ranked[k]);
    }
  }

  /** Every report of a title by an existing user is among the rows its
      board is cut from. */
  lemma TitleRowsComplete(users: map<int, User>, reports: seq<Report>, title: string, k: nat)
    requires k < |reports| && reports[k].title == title && reports[k].userId in users
    ensures var u := reports[k].userId;
      Entry(u, users[u].name, Avatar(users[u].picture), reports[k].score) in TitleRows(users, reports, title)
  {
    TitleRowsMembers(users, reports, title);
  }

  /** Each board of `getSkillwiseLeaderboard` is named by its title and is
      that title's board: at most 100 rows, highest first, each from a
      report of the title, with every report left off scoring no more. */
  lemma SkillwiseSpec(titles: seq<string>, users: map<int, User>, reports: seq<Report>, k: nat)
    requires k < |titles|
    ensures var r := SkillwiseLeaderboard(titles, users, reports);
      var rows := TitleRows(users, reports, titles[k]);
      var ranked := SortBy(rows, ByScore());
      var board := r[k].leaderboard;
      |r| == |titles| && r[k].skillId == titles[k] && r[k].skillName == titles[k] &&
      |board| == (if |rows| < BoardSize then |rows| else BoardSize) &&
      (forall i, j :: 0 <= i < j < |board| ==> board[i].score >= board[j].score) &&
      (forall e :: e in board ==> e in rows) &&
      multiset(ranked) == multiset(rows) && board == ranked[..|board|] &&
      (forall m, i :: |board| <= m < |ranked| && 0 <= i < |board| ==> ranked[m].score <= board[i].score)
  {
    var board := TitleBoard(users, reports, titles[k]);
    var rows := TitleRows(users, reports, titles[k]);
    TitleBoardSpec(users, reports, titles[k]);
    forall e | e in board
      ensures e in rows
    {
      assert e in multiset(SortBy(rows, ByScore()));
    }
  }

  /** A user with two reports of one title appears twice on its board. */
  lemma UserTwiceOnBoard(u: User)
    ensures var users := map[7 := u];
      var reports := [Report(7, "SQL", 80), Report(7, "SQL", 60)];
      TitleBoard(users, reports, "SQL") ==
        [Entry(7, u.name, Avatar(u.picture), 80), Entry(7, u.name, Avatar(u.picture), 60)]
  {
    var users := map[7 := u];
    var reports := [Report(7, "SQL", 80), Report(7, "SQL", 60)];
    var e1 := Entry(7, u.name, Avatar(u.picture), 80);
    var e2 := Entry(7, u.name, Avatar(u.picture), 60);
    assert 7 in users && users[7] == u;
    assert reports[..1] == [Report(7, "SQL", 80)];
    assert [Report(7, "SQL", 80)][..0] == [];
    assert TitleRows(users, [], "SQL") == [];
    assert TitleRows(users, reports[..1], "SQL") == [e1];
    assert TitleRows(users, reports, "SQL") == [e1] + [e2];
    assert [e1, e2][1..] == [e2];
    assert SortBy([e2], ByScore()) == [e2];
    assert SortBy([e1, e2], ByScore()) == [e1, e2];
  }

  // ---------------------------------------------------------------------
  // getUserRanking

  /** The users `GROUP BY user_id` ranks: those with a report. */
  function Reporters(reports: seq<Report>): set<int>
  {
    set r | r in reports :: r.userId
  }

  /** The ranked users whose total is strictly above `t`. */
  function Above(reports: seq<Report>, t: int): set<int>
  {
    set v | v in Reporters(reports) && Total(reports, v) > t
  }

  /** `RANK() OVER (ORDER BY total DESC)`: one more than the number of
      ranked users with a strictly greater total. */
  function GlobalRank(reports: seq<Report>, uid: int): (rank: nat)
    ensures rank >= 1
  {
    1 + |Above(reports, Total(reports, uid))|
  }

  /** A total at least as high never gets a larger rank, so equal totals
      share a rank. */
  lemma RankMonotone(reports: seq<Report>, a: int, b: int)
    requires Total(reports, a) >= Total(reports, b)
    ensures GlobalRank(reports, a) <= GlobalRank(reports, b)
  {
    var ta := Total(reports, a);
    var tb := Total(reports, b);
    assert Above(reports, ta) <= Above(reports, tb);
    SubsetCard(Above(reports, ta), Above(reports, tb));
  }

  /** Rank 1 goes exactly to the totals no ranked user beats. */
  lemma RankFirst(reports: seq<Report>, a: int)
    ensures GlobalRank(reports, a) == 1 <==> forall v :: v in Reporters(reports) ==> Total(reports, v) <= Total(reports, a)
  {
    var t := Total(reports, a);
    if forall v :: v in Reporters(reports) ==> Total(reports, v) <= t {
      assert Above(reports, t) == {};
    } else {
      var v :| v in Reporters(reports) && Total(reports, v) > t;
      assert v in Above(reports, t);
    }
  }

  lemma SubsetCard<T>(a: set<T>, b: set<T>)
    requires a <= b
    ensures |a| <= |b|
  {
    assert b == a + (b - a);
  }

  /** The JSON body of `getUserRanking`: `totalScore` is the number shown
      with two decimals (`'0.00'` without a ranked row), `globalRank` is
      `None` for `'N/A'`. */
  datatype Ranking = Ranking(status: int, totalScore: int, globalRank: Option<nat>, skillsMastered: nat)

  /** `COUNT(DISTINCT title) ... WHERE user_id = ? AND score > 0`. */
  function SkillsMastered(reports: seq<Report>, uid: int): nat
  {
    |set r | r in reports && r.userId == uid && r.score > 0 :: r.title|
  }

  /** `getUserRanking`. Reading `req.user.id` with no `req.user` throws
      inside the `try`, so it answers 500; a missing or zero id answers 401;
      `dbError` stands for a failing query. */
  function UserRanking(user: Option<Claim>, reports: seq<Report>, dbError: bool): Ranking
  {
    if user.None? || (dbError && HasUserId(user)) then Ranking(ServerError, 0, None, 0)
    else if !HasUserId(user) then Ranking(Unauthorized, 0, None, 0)
    else
      var uid := user.value.id.value;
      if uid in Reporters(reports)
      then Ranking(OK, Total(reports, uid), Some(GlobalRank(reports, uid)), SkillsMastered(reports, uid))
      else Ranking(OK, 0, None, SkillsMastered(reports, uid))
  }

  /** The ranking answers 401 for an attached user without an id, before
      any query; a user without reports gets `'N/A'` and `'0.00'`; a ranked
      user gets their total and `RANK()`; the mastered count is the number
      of distinct titles they scored above 0 on. */
  lemma UserRankingSpec(user: Option<Claim>, reports: seq<Report>, dbError: bool)
    ensures var r := UserRanking(user, reports, dbError);
      (user.Some? && !HasUserId(user) ==> r.status == Unauthorized) &&
      (r.status == OK <==> HasUserId(user) && !dbError) &&
      (r.status == OK ==>
        var uid := user.value.id.value;
        (r.globalRank.None? <==> forall k :: 0 <= k < |reports| ==> reports[k].userId != uid) &&
        (r.globalRank.None? ==> r.totalScore == 0) &&
        (r.globalRank.Some? ==> r.globalRank.value == GlobalRank(reports, uid) &&
                                r.totalScore == Total(reports, uid)) &&
        r.skillsMastered == SkillsMastered(reports, uid) &&
        r.skillsMastered <= |set r | r in reports && r.userId == uid :: r.title|)
  {
    if HasUserId(user) && !dbError {
      var uid := user.value.id.value;
      if uid in Reporters(reports) {
        var r :| r in reports && r.userId == uid;
      } else {
        forall k | 0 <= k < |reports|
          ensures reports[k].userId != uid
        {
          assert reports[k] in reports;
        }
      }
      assert (set r | r in reports && r.userId == uid && r.score > 0 :: r.title) <=
             (set r | r in reports && r.userId == uid :: r.title);
      SubsetCard(set r | r in reports && r.userId == uid && r.score > 0 :: r.title,
                       set r | r in reports && r.userId == uid :: r.title);
    }
  }
}

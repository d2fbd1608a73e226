/** The partial `UPDATE users SET ... WHERE id = ?` statement that the admin
    user update and the profile update assemble field by field: what one
    assignment list does to a row, and the statement text with its
    parameter list. */
module UserUpdate {
  import opened Common
  import opened Text
  import opened Tables

  /** The columns of `users` the two update routes may set. */
  datatype Column = Name | Email | Bio | IsAdmin | Password

  /** A bound parameter: a text value, the 1/0 stored for `is_admin`, or the
      row id that closes the statement. */
  datatype Value = Str(s: string) | Flag(n: int) | Key(id: int)

  /** One `column = ?` with the value bound to it. */
  datatype Assignment = Assignment(column: Column, value: Value)

  function ColumnName(c: Column): string
  {
    match c
    case Name => "name"
    case Email => "email"
    case Bio => "bio"
    case IsAdmin => "is_admin"
    case Password => "password"
  }

  /** The position at which each route pushes the column. */
  function Rank(c: Column): nat
  {
    match c
    case Name => 0
    case Email => 1
    case Bio => 2
    case IsAdmin => 3
    case Password => 4
  }

  /** Columns appear in push order, each at most once. */
  predicate InColumnOrder(sets: seq<Assignment>)
  {
    forall i, j :: 0 <= i < j < |sets| ==> Rank(sets[i].column) < Rank(sets[j].column)
  }

  /** One assignment on a row. A value of the wrong kind for the column
      leaves the row as it is; the builders never produce one. */
  function Assign(u: User, a: Assignment): User
  {
    match a.value
    case Str(s) =>
      (match a.column
       case Name => u.(name := s)
       case Email => u.(email := s)
       case Bio => u.(bio := s)
       case Password => u.(password := s)
       case IsAdmin => u)
    case Flag(n) => if a.column == IsAdmin then u.(isAdmin := n) else u
    case Key(_) => u
  }

  /** The assignments of one statement, applied left to right. */
  function Apply(u: User, sets: seq<Assignment>): User
  {
    if sets == [] then u else Assign(Apply(u, sets[..|sets| - 1]), sets[|sets| - 1])
  }

  /** A statement text with its bound parameters. */
  datatype Statement = Statement(sql: string, params: seq<Value>)

  /** The `?` that a bound parameter fills. */
  const Placeholder: string := "?"

  /** The `column = ?` pieces of the SET list. */
  function SetPieces(sets: seq<Assignment>): (r: seq<string>)
    ensures |r| == |sets|
    ensures forall k :: 0 <= k < |sets| ==> r[k] == ColumnName(sets[k].column) + " = " + Placeholder
  {
    if sets == [] then [] else [ColumnName(sets[0].column) + " = " + Placeholder] + SetPieces(sets[1..])
  }

  /** The values pushed alongside the pieces. */
  function Values(sets: seq<Assignment>): (r: seq<Value>)
    ensures |r| == |sets|
    ensures forall k :: 0 <= k < |sets| ==> r[k] == sets[k].value
  {
    if sets == [] then [] else [sets[0].value] + Values(sets[1..])
  }

  /** `UPDATE <table> SET ${updateFields.join(', ')} WHERE id = ?` with the
      row id pushed after the values. */
  function UpdateStatement(table: string, sets: seq<Assignment>, id: int): (st: Statement)
    ensures |st.params| == |sets| + 1 && st.params[|sets|] == Key(id)
    ensures forall k :: 0 <= k < |sets| ==> st.params[k] == sets[k].value
  {
    Statement("UPDATE " + table + " SET " + Join(SetPieces(sets), ", ") + " WHERE id = " + Placeholder,
              Values(sets) + [Key(id)])
  }

  /** The statement has exactly as many placeholders as bound parameters, so
      every value lands on its own column and the id on the WHERE clause. */
  lemma UpdatePlaceholders(table: string, sets: seq<Assignment>, id: int)
    requires '?' !in table
    ensures var st := UpdateStatement(table, sets, id);
      CountChar(st.sql, '?') == |st.params|
  {
    var pieces := SetPieces(sets);
    var joined := Join(pieces, ", ");
    var sql := "UPDATE " + table + " SET " + joined + " WHERE id = " + Placeholder;
    assert CountChar(joined, '?') == |sets| by {
      PiecesPlaceholders(sets);
      JoinedPlaceholders(pieces);
    }
    assert CountChar(sql, '?') == |sets| + 1 by {
      FixedTextPlaceholders();
      CountNone(table, '?');
      CountSix("UPDATE ", table, " SET ", joined, " WHERE id = ", Placeholder, '?');
    }
    assert UpdateStatement(table, sets, id).sql == sql;
  }

  lemma PiecesPlaceholders(sets: seq<Assignment>)
    ensures forall k :: 0 <= k < |sets| ==> CountChar(SetPieces(sets)[k], '?') == 1
  {
    forall k | 0 <= k < |sets|
      ensures CountChar(SetPieces(sets)[k], '?') == 1
    {
      PiecePlaceholder(sets[k].column);
    }
  }

  /** A `column = ?` piece carries exactly one placeholder. */
  lemma PiecePlaceholder(c: Column)
    ensures CountChar(ColumnName(c) + " = " + Placeholder, '?') == 1
  {
    assert '?' !in ColumnName(c) && '?' !in " = ";
    CountSplit(ColumnName(c) + " = ", Placeholder, '?');
    CountSplit(ColumnName(c), " = ", '?');
  }

  /** The fixed text of the statement holds no placeholder of its own. */
  lemma FixedTextPlaceholders()
    ensures CountChar("UPDATE ", '?') == 0 && CountChar(" SET ", '?') == 0
    ensures CountChar(" WHERE id = ", '?') == 0 && CountChar(Placeholder, '?') == 1
  {
    assert '?' !in "UPDATE " && '?' !in " SET " && '?' !in " WHERE id = ";
  }

  lemma CountSix(a: string, b: string, c: string, d: string, e: string, f: string, ch: char)
    ensures CountChar(a + b + c + d + e + f, ch) ==
      CountChar(a, ch) + CountChar(b, ch) + CountChar(c, ch) + CountChar(d, ch) +
      CountChar(e, ch) + CountChar(f, ch)
  {
    CountSplit(a + b + c + d + e, f, ch);
    CountSplit(a + b + c + d, e, ch);
    CountSplit(a + b + c, d, ch);
    CountSplit(a + b, c, ch);
    CountSplit(a, b, ch);
  }

  /** Each `column = ?` piece carries one placeholder and the ", " joints none. */
  lemma {:induction false} JoinedPlaceholders(pieces: seq<string>)
    requires forall k :: 0 <= k < |pieces| ==> CountChar(pieces[k], '?') == 1
    ensures CountChar(Join(pieces, ", "), '?') == |pieces|
  {
    if |pieces| > 1 {
      JoinedPlaceholders(pieces[1..]);
      CountSplit(pieces[0] + ", ", Join(pieces[1..], ", "), '?');
      CountSplit(pieces[0], ", ", '?');
      assert CountChar(", ", '?') == 0;
    }
  }

  /** `if (field) { push }`: a truthy text replaces the column, anything
      else keeps the stored one, so an empty string never clears it. */
  function Keep(v: Option<string>, stored: string): (r: string)
    ensures Truthy(v) ==> r == v.value
    ensures !Truthy(v) ==> r == stored
  {
    if Truthy(v) then v.value else stored
  }

  /** `is_admin ? 1 : 0` whenever `is_admin` was sent. */
  function AdminFlag(isAdmin: Option<bool>, stored: int): (r: int)
    ensures isAdmin == Some(true) ==> r == 1
    ensures isAdmin == Some(false) ==> r == 0
    ensures isAdmin.None? ==> r == stored
  {
    match isAdmin
    case None => stored
    case Some(b) => if b then 1 else 0
  }

  /** Every column of the list comes before position `r`. */
  predicate RanksBelow(sets: seq<Assignment>, r: nat)
  {
    forall k :: 0 <= k < |sets| ==> Rank(sets[k].column) < r
  }

  /** Each column comes after the one before it: the order the builders
      establish one push at a time. */
  predicate Ascending(sets: seq<Assignment>)
    decreases |sets|
  {
    |sets| <= 1 ||
    (Ascending(sets[..|sets| - 1]) && Rank(sets[|sets| - 2].column) < Rank(sets[|sets| - 1].column))
  }

  /** The last column, if any, comes before position `r`. */
  predicate LastBelow(sets: seq<Assignment>, r: nat)
  {
    sets == [] || Rank(sets[|sets| - 1].column) < r
  }

  /** Adjacent order is the pairwise order, and every column is bounded by
      the last one. */
  lemma {:induction false} AscendingInColumnOrder(sets: seq<Assignment>, r: nat)
    requires Ascending(sets) && LastBelow(sets, r)
    ensures InColumnOrder(sets) && RanksBelow(sets, r)
  {
    if |sets| > 1 {
      var n := |sets|;
      var init := sets[..n - 1];
      AscendingInColumnOrder(init, Rank(sets[n - 1].column));
      forall i, j | 0 <= i < j < n
        ensures Rank(sets[i].column) < Rank(sets[j].column)
      {
        assert sets[i] == init[i];
        if j < n - 1 {
          assert sets[j] == init[j];
        }
      }
      forall k | 0 <= k < n
        ensures Rank(sets[k].column) < r
      {
        if k < n - 1 {
          assert sets[k] == init[k];
        }
      }
    }
  }

  /** What one `if (cond) { updateFields.push(...) }` adds. */
  function PushIf(cond: bool, a: Assignment): (r: seq<Assignment>)
    ensures |r| <= 1
  {
    if cond then [a] else []
  }

  /** A push after lower-ranked columns keeps the columns in push order. */
  lemma PushOrder(before: seq<Assignment>, cond: bool, a: Assignment)
    requires Ascending(before) && LastBelow(before, Rank(a.column))
    ensures Ascending(before + PushIf(cond, a)) && LastBelow(before + PushIf(cond, a), Rank(a.column) + 1)
  {
    if cond {
      assert (before + [a])[..|before|] == before;
    } else {
      assert before + [] == before;
    }
  }

  /** On a row, a push applies the new assignment after the earlier ones,
      or changes nothing when the condition fails. */
  lemma PushApply(u: User, before: seq<Assignment>, cond: bool, a: Assignment)
    ensures Apply(u, before + PushIf(cond, a)) == if cond then Assign(Apply(u, before), a) else Apply(u, before)
  {
    if cond {
      assert (before + [a])[..|before|] == before;
    } else {
      assert before + [] == before;
    }
  }

  /** The `if (name)`, `if (email)`, `if (bio)` pushes both update routes
      begin with. */
  function TextPushes(name: Option<string>, email: Option<string>, bio: Option<string>): seq<Assignment>
  {
    PushIf(Truthy(name), Assignment(Name, Str(Keep(name, "")))) +
    PushIf(Truthy(email), Assignment(Email, Str(Keep(email, "")))) +
    PushIf(Truthy(bio), Assignment(Bio, Str(Keep(bio, ""))))
  }

  /** What those pushes do to a row: a truthy name, e-mail or bio replaces
      the stored one, and nothing else changes. */
  function TextEdit(u: User, name: Option<string>, email: Option<string>, bio: Option<string>): (r: User)
    ensures r.password == u.password && r.isAdmin == u.isAdmin && r.picture == u.picture
    ensures !Truthy(name) && !Truthy(email) && !Truthy(bio) ==> r == u
  {
    u.(name := Keep(name, u.name), email := Keep(email, u.email), bio := Keep(bio, u.bio))
  }

  /** The three pushes set name, e-mail and bio in that order, and end
      before `is_admin`. */
  lemma TextPushesAscending(name: Option<string>, email: Option<string>, bio: Option<string>, sets: seq<Assignment>)
    requires sets == TextPushes(name, email, bio)
    ensures Ascending(sets) && LastBelow(sets, Rank(IsAdmin))
  {
    var a1 := Assignment(Name, Str(Keep(name, "")));
    var a2 := Assignment(Email, Str(Keep(email, "")));
    var a3 := Assignment(Bio, Str(Keep(bio, "")));
    var s1 := PushIf(Truthy(name), a1);
    PushOrder([], Truthy(name), a1);
    assert [] + s1 == s1;
    PushOrder(s1, Truthy(email), a2);
    var s2 := s1 + PushIf(Truthy(email), a2);
    PushOrder(s2, Truthy(bio), a3);
  }

  /** Only name, e-mail and bio are set, each at most once: never `is_admin`
      and never the password. */
  lemma TextPushesOrdered(name: Option<string>, email: Option<string>, bio: Option<string>)
    ensures InColumnOrder(TextPushes(name, email, bio)) && RanksBelow(TextPushes(name, email, bio), Rank(IsAdmin))
  {
    var sets := TextPushes(name, email, bio);
    TextPushesAscending(name, email, bio, sets);
    AscendingInColumnOrder(sets, Rank(IsAdmin));
  }

  /** Nothing is pushed exactly when none of the three is truthy. */
  lemma TextPushesEmpty(name: Option<string>, email: Option<string>, bio: Option<string>)
    ensures TextPushes(name, email, bio) == [] <==> !Truthy(name) && !Truthy(email) && !Truthy(bio)
  {
  }

  /** Running the three pushes on a row gives `TextEdit`. */
  lemma TextPushesApply(u: User, name: Option<string>, email: Option<string>, bio: Option<string>)
    ensures Apply(u, TextPushes(name, email, bio)) == TextEdit(u, name, email, bio)
  {
    var a1 := Assignment(Name, Str(Keep(name, "")));
    var a2 := Assignment(Email, Str(Keep(email, "")));
    var a3 := Assignment(Bio, Str(Keep(bio, "")));
    var s1 := PushIf(Truthy(name), a1);
    var s2 := s1 + PushIf(Truthy(email), a2);
    PushApply(u, [], Truthy(name), a1);
    assert [] + s1 == s1;
    var u1 := u.(name := Keep(name, u.name));
    assert Apply(u, s1) == u1;
    PushApply(u, s1, Truthy(email), a2);
    var u2 := u1.(email := Keep(email, u.email));
    assert Apply(u, s2) == u2;
    PushApply(u, s2, Truthy(bio), a3);
  }

  /** The first three `updateFields`/`updateValues` pushes, the whole list
      in the profile update. */
  method BuildTextUpdate(name: Option<string>, email: Option<string>, bio: Option<string>)
    returns (sets: seq<Assignment>)
    ensures sets == TextPushes(name, email, bio)
    ensures InColumnOrder(sets) && RanksBelow(sets, Rank(IsAdmin))
    ensures sets == [] <==> !Truthy(name) && !Truthy(email) && !Truthy(bio)
    ensures forall u :: Apply(u, sets) == TextEdit(u, name, email, bio)
  {
    sets := [];
    if Truthy(name) {
      sets := sets + [Assignment(Name, Str(name.value))];
    }
    assert sets == PushIf(Truthy(name), Assignment(Name, Str(Keep(name, ""))));
    ghost var before := sets;
    if Truthy(email) {
      sets := sets + [Assignment(Email, Str(email.value))];
    }
    assert sets == before + PushIf(Truthy(email), Assignment(Email, Str(Keep(email, ""))));
    before := sets;
    if Truthy(bio) {
      sets := sets + [Assignment(Bio, Str(bio.value))];
    }
    assert sets == before + PushIf(Truthy(bio), Assignment(Bio, Str(Keep(bio, ""))));
    TextPushesOrdered(name, email, bio);
    TextPushesEmpty(name, email, bio);
    forall u
      ensures Apply(u, sets) == TextEdit(u, name, email, bio)
    {
      TextPushesApply(u, name, email, bio);
    }
  }
}

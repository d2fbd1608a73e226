/** The database tables the core reads and writes, as in-memory values, and the
    `Database` object whose fields the route handlers update.

    Table names are taken as case-insensitive, so `users` and `Users` are one
    table and `userskills` and `UserSkills` are one link table. The skill
    catalogues `all_skills` (used by the admin routes) and `Skills` (used by
    the profile routes) are two different tables. */
module Tables {
  import opened Common

  /** A row of `users`. `isAdmin` is the stored TINYINT; `picture` is
      `profile_picture`, which may be NULL. */
  datatype User = User(name: string, email: string, bio: string, password: string,
                       isAdmin: int, picture: Option<string>)

  /** A row of a skill catalogue. */
  datatype SkillRow = SkillRow(id: int, name: string, category: Option<string>,
                               description: Option<string>, difficulty: Option<string>)

  /** A skill catalogue: its rows in insertion order and the next
      AUTO_INCREMENT value. */
  datatype Catalog = Catalog(rows: seq<SkillRow>, nextId: int)

  /** Ids are unique (strictly increasing in insertion order) and below the
      next AUTO_INCREMENT value. */
  predicate ValidCatalog(c: Catalog)
  {
    (forall i, j :: 0 <= i < j < |c.rows| ==> c.rows[i].id < c.rows[j].id) &&
    (forall i :: 0 <= i < |c.rows| ==> c.rows[i].id < c.nextId)
  }

  /** `b` is `a` with rows appended and the counter not moved back. */
  predicate Extends(a: Catalog, b: Catalog)
  {
    |a.rows| <= |b.rows| && b.rows[..|a.rows|] == a.rows && a.nextId <= b.nextId
  }

  /** `SELECT id FROM <catalogue> WHERE name = ?`, first row. */
  function FindByName(rows: seq<SkillRow>, name: string): (r: Option<int>)
  {
    if rows == [] then None
    else if rows[0].name == name then Some(rows[0].id)
    else FindByName(rows[1..], name)
  }

  /** The name of the row with the given id, as a join on the id finds it. */
  function NameOf(rows: seq<SkillRow>, id: int): (r: Option<string>)
  {
    if rows == [] then None
    else if rows[0].id == id then Some(rows[0].name)
    else NameOf(rows[1..], id)
  }

  /** A row of the link table `userskills`. */
  datatype Link = Link(userId: int, skillId: int)

  /** The skill ids linked to user `uid`, in table order. */
  function SkillIdsOf(links: seq<Link>, uid: int): (r: seq<int>)
    ensures |r| <= |links|
  {
    if links == [] then []
    else (if links[0].userId == uid then [links[0].skillId] else []) + SkillIdsOf(links[1..], uid)
  }

  /** `DELETE FROM userskills WHERE user_id = ?`. */
  function WithoutUser(links: seq<Link>, uid: int): (r: seq<Link>)
    ensures SkillIdsOf(r, uid) == []
    ensures forall v :: v != uid ==> SkillIdsOf(r, v) == SkillIdsOf(links, v)
  {
    if links == [] then []
    else
      var rest := WithoutUser(links[1..], uid);
      if links[0].userId == uid then rest
      else
        assert ([links[0]] + rest)[1..] == rest;
        [links[0]] + rest
  }

  /** `SELECT s.name FROM <catalogue> s JOIN userskills us ON s.id = us.skill_id`:
      the names of the linked skills, in link order; a link whose skill is
      not in the catalogue drops out of the inner join. */
  function LinkedNames(rows: seq<SkillRow>, ids: seq<int>): (r: seq<string>)
    ensures |r| <= |ids|
  {
    if ids == [] then []
    else
      var rest := LinkedNames(rows, ids[1..]);
      match NameOf(rows, ids[0])
      case Some(n) => [n] + rest
      case None => rest
  }

  /** A row of `assessments` (the six columns the admin update writes);
      `None` is SQL NULL. */
  datatype Assessment = Assessment(title: Option<string>, description: Option<string>,
                                   category: Option<string>, level: Option<string>,
                                   time: Option<int>, attemptsAllowed: Option<int>)

  /** A row of `questions`; `options` holds the stored text. `None` is SQL
      NULL. */
  datatype Question = Question(id: int, assessmentId: int, text: Option<string>,
                               correctAnswer: Option<string>, options: Option<string>, kind: string)

  /** Every question id is below the next AUTO_INCREMENT value. */
  predicate IdsBelow(questions: seq<Question>, next: int)
  {
    forall k :: 0 <= k < |questions| ==> questions[k].id < next
  }

  /** A row of `newsletter_subscribers`, keyed by its e-mail address. */
  datatype Subscriber = Subscriber(status: string, subscribedAt: int)

  /** The tables the core touches. */
  class Database {
    var users: map<int, User>
    var allSkills: Catalog
    var skills: Catalog
    var userSkills: seq<Link>
    var assessments: map<int, Assessment>
    var questions: seq<Question>
    var nextQuestionId: int
    var settings: map<string, string>
    var subscribers: map<string, Subscriber>

    ghost predicate Valid()
      reads this
    {
      ValidCatalog(allSkills) && ValidCatalog(skills) && IdsBelow(questions, nextQuestionId)
    }

    constructor ()
      ensures Valid()
      ensures users == map[] && allSkills == Catalog([], 1) && skills == Catalog([], 1)
      ensures userSkills == [] && assessments == map[] && questions == [] && nextQuestionId == 1
      ensures settings == map[] && subscribers == map[]
    {
      users := map[];
      allSkills := Catalog([], 1);
      skills := Catalog([], 1);
      userSkills := [];
      assessments := map[];
      questions := [];
      nextQuestionId := 1;
      settings := map[];
      subscribers := map[];
    }
  }

  /** The lookup by name finds nothing exactly when no row has the name,
      and otherwise the id of the first row that has it. */
  lemma {:induction false} FindByNameSpec(rows: seq<SkillRow>, name: string)
    ensures FindByName(rows, name).None? <==> forall k :: 0 <= k < |rows| ==> rows[k].name != name
    ensures FindByName(rows, name).Some? ==>
      exists k :: 0 <= k < |rows| && rows[k].name == name && rows[k].id == FindByName(rows, name).value &&
        forall m :: 0 <= m < k ==> rows[m].name != name
  {
    if rows != [] && rows[0].name != name {
      FindByNameSpec(rows[1..], name);
      if FindByName(rows, name).Some? {
        var k :| 0 <= k < |rows[1..]| && rows[1..][k].name == name && rows[1..][k].id == FindByName(rows, name).value &&
          forall m :: 0 <= m < k ==> rows[1..][m].name != name;
        assert rows[k + 1] == rows[1..][k];
        forall m | 0 <= m < k + 1
          ensures rows[m].name != name
        {
          if m > 0 {
            assert rows[m] == rows[1..][m - 1];
          }
        }
      } else {
        forall k | 0 <= k < |rows|
          ensures rows[k].name != name
        {
          if k > 0 {
            assert rows[k] == rows[1..][k - 1];
          }
        }
      }
    }
  }

  /** The join on the id finds nothing exactly when no row has the id. */
  lemma {:induction false} NameOfSpec(rows: seq<SkillRow>, id: int)
    ensures NameOf(rows, id).None? <==> forall k :: 0 <= k < |rows| ==> rows[k].id != id
  {
    if rows != [] && rows[0].id != id {
      NameOfSpec(rows[1..], id);
      assert forall k :: 1 <= k < |rows| ==> rows[k] == rows[1..][k - 1];
    }
  }

  lemma {:induction false} FindAfterAppend(rows: seq<SkillRow>, r: SkillRow, name: string)
    ensures FindByName(rows + [r], name) ==
      if FindByName(rows, name).Some? then FindByName(rows, name)
      else if r.name == name then Some(r.id) else None
  {
    if rows != [] {
      assert (rows + [r])[1..] == rows[1..] + [r];
      FindAfterAppend(rows[1..], r, name);
    }
  }

  lemma {:induction false} NameAfterAppend(rows: seq<SkillRow>, r: SkillRow, id: int)
    ensures NameOf(rows + [r], id) ==
      if NameOf(rows, id).Some? then NameOf(rows, id)
      else if r.id == id then Some(r.name) else None
  {
    if rows != [] {
      assert (rows + [r])[1..] == rows[1..] + [r];
      NameAfterAppend(rows[1..], r, id);
    }
  }

  /** In a valid catalogue, the id found by name leads back to that name. */
  lemma {:induction false} FindThenName(c: Catalog, name: string)
    requires ValidCatalog(c)
    requires FindByName(c.rows, name).Some?
    ensures NameOf(c.rows, FindByName(c.rows, name).value) == Some(name)
    decreases |c.rows|
  {
    var rows := c.rows;
    if rows[0].name != name {
      var c' := Catalog(rows[1..], c.nextId);
      FindThenName(c', name);
      FindByNameSpec(rows[1..], name);
      var id := FindByName(rows, name).value;
      var k :| 0 <= k < |rows[1..]| && rows[1..][k].name == name && rows[1..][k].id == id;
      assert rows[0].id < rows[k + 1].id;
    }
  }

  lemma {:induction false} IdsAfterAppend(links: seq<Link>, l: Link, v: int)
    ensures SkillIdsOf(links + [l], v) ==
      SkillIdsOf(links, v) + (if l.userId == v then [l.skillId] else [])
  {
    if links != [] {
      assert (links + [l])[1..] == links[1..] + [l];
      IdsAfterAppend(links[1..], l, v);
    }
  }

  /** When every id resolves to the matching name, the join gives the names. */
  lemma {:induction false} LinkedNamesResolved(rows: seq<SkillRow>, ids: seq<int>, names: seq<string>)
    requires |ids| == |names|
    requires forall k :: 0 <= k < |ids| ==> NameOf(rows, ids[k]) == Some(names[k])
    ensures LinkedNames(rows, ids) == names
  {
    if ids != [] {
      LinkedNamesResolved(rows, ids[1..], names[1..]);
      assert [names[0]] + names[1..] == names;
    }
  }
}

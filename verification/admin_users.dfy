/** The admin user-management routes: the update of a user (partial update
    of the row plus find-or-create of skill links over `all_skills`, in one
    transaction), the deletion guards, and the conversion of the
    `GROUP_CONCAT` skills column back into a list. */
module AdminUsers {
  import opened Common
  import opened Text
  import opened Tables
  import opened UserUpdate
  import opened SkillLinks

  /** `GROUP_CONCAT(s.name)` over the linked names: NULL when there are none,
      otherwise the names joined with ','. */
  function GroupConcat(names: seq<string>): (r: Option<string>)
    ensures r.None? <==> names == []
  {
    if names == [] then None else Some(Join(names, ","))
  }

  /** `user.skills ? user.skills.split(',') : []`. */
  function SkillsFromConcat(v: Option<string>): (r: seq<string>)
    ensures !Truthy(v) ==> r == []
    ensures Truthy(v) ==> |r| >= 1 && forall k :: 0 <= k < |r| ==> ',' !in r[k]
  {
    if Truthy(v) then Split(v.value, ',') else []
  }

  predicate CommaFree(names: seq<string>)
  {
    forall k :: 0 <= k < |names| ==> ',' !in names[k]
  }

  /** A list of comma-free names survives the trip through `GROUP_CONCAT`
      and `split(',')` exactly when it is not the single empty name, whose
      concatenation is the falsy "" and comes back as []. */
  lemma ConcatRoundTrip(names: seq<string>)
    requires CommaFree(names)
    ensures SkillsFromConcat(GroupConcat(names)) == names <==> names != [""]
  {
    if |names| == 1 {
      assert Join(names, ",") == names[0];
      if names[0] != "" {
        SplitJoin(names, ',');
      }
    } else if |names| > 1 {
      assert Join(names, ",") == names[0] + "," + Join(names[1..], ",");
      assert Join(names, ",")[|names[0]|] == ',';
      SplitJoin(names, ',');
    }
  }

  /** The row after the admin update: the name, e-mail and bio of
      `TextEdit`, `is_admin` stored as 1/0 whenever it was sent, and a truthy
      password stored only as its hash. */
  function AdminEdit(u: User, name: Option<string>, email: Option<string>, bio: Option<string>,
                     isAdmin: Option<bool>, password: Option<string>, hash: string -> string): (r: User)
    ensures r.picture == u.picture
    ensures Truthy(password) ==> r.password == hash(password.value)
    ensures !Truthy(name) && !Truthy(email) && !Truthy(bio) && isAdmin.None? && !Truthy(password) ==> r == u
  {
    TextEdit(u, name, email, bio).(isAdmin := AdminFlag(isAdmin, u.isAdmin),
                                   password := if Truthy(password) then hash(password.value) else u.password)
  }

  /** The assignments the admin update pushes, in push order. */
  function AdminPushes(name: Option<string>, email: Option<string>, bio: Option<string>,
                       isAdmin: Option<bool>, password: Option<string>, hash: string -> string)
    : seq<Assignment>
  {
    TextPushes(name, email, bio) +
    PushIf(isAdmin.Some?, Assignment(IsAdmin, Flag(AdminFlag(isAdmin, 0)))) +
    PushIf(Truthy(password), Assignment(Password, Str(hash(Keep(password, "")))))
  }

  /** The columns go name, email, bio, is_admin, password, each at most once. */
  lemma AdminPushesOrdered(name: Option<string>, email: Option<string>, bio: Option<string>,
                           isAdmin: Option<bool>, password: Option<string>, hash: string -> string)
    ensures InColumnOrder(AdminPushes(name, email, bio, isAdmin, password, hash))
  {
    var a4 := Assignment(IsAdmin, Flag(AdminFlag(isAdmin, 0)));
    var a5 := Assignment(Password, Str(hash(Keep(password, ""))));
    var s3 := TextPushes(name, email, bio);
    TextPushesAscending(name, email, bio, s3);
    PushOrder(s3, isAdmin.Some?, a4);
    var s4 := s3 + PushIf(isAdmin.Some?, a4);
    PushOrder(s4, Truthy(password), a5);
    AscendingInColumnOrder(s4 + PushIf(Truthy(password), a5), Rank(Password) + 1);
  }

  /** No statement is issued exactly when no field was given. */
  lemma AdminPushesEmpty(name: Option<string>, email: Option<string>, bio: Option<string>,
                         isAdmin: Option<bool>, password: Option<string>, hash: string -> string)
    ensures AdminPushes(name, email, bio, isAdmin, password, hash) == [] <==>
      !Truthy(name) && !Truthy(email) && !Truthy(bio) && isAdmin.None? && !Truthy(password)
  {
    TextPushesEmpty(name, email, bio);
  }

  /** Running the pushed statement on a row gives `AdminEdit`. */
  lemma AdminPushesApply(u: User, name: Option<string>, email: Option<string>, bio: Option<string>,
                         isAdmin: Option<bool>, password: Option<string>, hash: string -> string)
    ensures Apply(u, AdminPushes(name, email, bio, isAdmin, password, hash)) ==
      AdminEdit(u, name, email, bio, isAdmin, password, hash)
  {
    var a4 := Assignment(IsAdmin, Flag(AdminFlag(isAdmin, 0)));
    var a5 := Assignment(Password, Str(hash(Keep(password, ""))));
    var s3 := TextPushes(name, email, bio);
    var s4 := s3 + PushIf(isAdmin.Some?, a4);
    TextPushesApply(u, name, email, bio);
    var u3 := TextEdit(u, name, email, bio);
    PushApply(u, s3, isAdmin.Some?, a4);
    var u4 := u3.(isAdmin := AdminFlag(isAdmin, u.isAdmin));
    assert Apply(u, s4) == u4;
    PushApply(u, s4, Truthy(password), a5);
  }

  /** The `updateFields`/`updateValues` pushes of the admin update. `hash`
      stands for `bcrypt.hash(password, 10)`. */
  method BuildUserUpdate(name: Option<string>, email: Option<string>, bio: Option<string>,
                         isAdmin: Option<bool>, password: Option<string>, hash: string -> string)
    returns (sets: seq<Assignment>)
    ensures sets == AdminPushes(name, email, bio, isAdmin, password, hash)
    ensures InColumnOrder(sets)
    ensures sets == [] <==>
      !Truthy(name) && !Truthy(email) && !Truthy(bio) && isAdmin.None? && !Truthy(password)
    ensures forall u :: Apply(u, sets) == AdminEdit(u, name, email, bio, isAdmin, password, hash)
  {
    sets := BuildTextUpdate(name, email, bio);
    ghost var before := sets;
    if isAdmin.Some? {
      sets := sets + [Assignment(IsAdmin, Flag(if isAdmin.value then 1 else 0))];
    }
    assert sets == before + PushIf(isAdmin.Some?, Assignment(IsAdmin, Flag(AdminFlag(isAdmin, 0))));
    before := sets;
    if Truthy(password) {
      var hashed := hash(password.value);
      sets := sets + [Assignment(Password, Str(hashed))];
    }
    assert sets == before + PushIf(Truthy(password), Assignment(Password, Str(hash(Keep(password, "")))));
    AdminPushesOrdered(name, email, bio, isAdmin, password, hash);
    AdminPushesEmpty(name, email, bio, isAdmin, password, hash);
    forall u
      ensures Apply(u, sets) == AdminEdit(u, name, email, bio, isAdmin, password, hash)
    {
      AdminPushesApply(u, name, email, bio, isAdmin, password, hash);
    }
  }

  /** A user as the admin routes return it: `is_admin` as a boolean, the
      skills as a list, and no password. */
  datatype AdminUserView = AdminUserView(id: int, name: string, email: string, bio: string,
                                         isAdmin: bool, picture: Option<string>, skills: seq<string>)

  datatype AdminReply = AdminReply(status: int, user: Option<AdminUserView>)

  /** The post-processing of one selected row. */
  function AdminViewOf(id: int, u: User, concat: Option<string>): (v: AdminUserView)
    ensures v.isAdmin <==> u.isAdmin != 0
    ensures v.skills == SkillsFromConcat(concat)
  {
    AdminUserView(id, u.name, u.email, u.bio, u.isAdmin != 0, u.picture, SkillsFromConcat(concat))
  }

  /** The columns a skill created by the admin update gets. */
  const AdminSkillColumns := NewSkillColumns(Some("General"), Some("User added skill"), Some("Intermediate"))

  /** The tables after a committed admin update of user `id`: the row is
      edited, and when a skills array was sent the user's links name exactly
      the listed skills, created in `all_skills` when missing; other users'
      links are untouched. */
  ghost predicate UserUpdated(users0: map<int, User>, cat0: Catalog, links0: seq<Link>,
                              users: map<int, User>, cat: Catalog, links: seq<Link>,
                              id: int, edited: User, skills: Option<seq<string>>)
  {
    id in users0 && users == users0[id := edited] &&
    Extends(cat0, cat) &&
    CreatedFor(cat0, cat, if skills.Some? then skills.value else [], AdminSkillColumns) &&
    (forall v :: v != id ==> SkillIdsOf(links, v) == SkillIdsOf(links0, v)) &&
    (skills.Some? ==> LinkedNames(cat.rows, SkillIdsOf(links, id)) == skills.value) &&
    (skills.None? ==> cat == cat0 && links == links0)
  }

  /** The statements of the update transaction, on working copies. */
  method UpdateUserRows(users: map<int, User>, catalog: Catalog, links: seq<Link>, id: int,
                        name: Option<string>, email: Option<string>, password: Option<string>,
                        isAdmin: Option<bool>, bio: Option<string>, skills: Option<seq<string>>,
                        hash: string -> string)
    returns (users': map<int, User>, catalog': Catalog, links': seq<Link>)
    requires id in users && ValidCatalog(catalog)
    ensures ValidCatalog(catalog')
    ensures UserUpdated(users, catalog, links, users', catalog', links', id,
                        AdminEdit(users[id], name, email, bio, isAdmin, password, hash), skills)
  {
    users', catalog', links' := users, catalog, links;
    var sets := BuildUserUpdate(name, email, bio, isAdmin, password, hash);
    if sets != [] {
      users' := users'[id := Apply(users'[id], sets)];
    } else {
      assert users == users[id := AdminEdit(users[id], name, email, bio, isAdmin, password, hash)];
    }
    if skills.Some? {
      catalog', links' := ReplaceSkillLinks(catalog', links', id, skills.value, AdminSkillColumns);
    } else {
      assert CreatedFor(catalog, catalog, [], AdminSkillColumns);
    }
  }

  /** The answer lists the names that were sent, unless one holds a comma or
      the list is the single empty name. */
  lemma ReplyListsSentSkills(cat: Catalog, links: seq<Link>, id: int, names: seq<string>)
    requires LinkedNames(cat.rows, SkillIdsOf(links, id)) == names
    requires CommaFree(names) && names != [""]
    ensures SkillsFromConcat(GroupConcat(LinkedNames(cat.rows, SkillIdsOf(links, id)))) == names
  {
    ConcatRoundTrip(names);
  }

  /** `PUT /users/:id`. `dbError` stands for a statement failing before the
      commit, which rolls every change back. After the commit the route
      reads the user back; `readError` stands for that read failing, which
      answers 500 with the update already committed. */
  method UpdateUser(db: Database, id: int, name: Option<string>, email: Option<string>,
                    password: Option<string>, isAdmin: Option<bool>, bio: Option<string>,
                    skills: Option<seq<string>>, hash: string -> string, dbError: bool, readError: bool)
    returns (reply: AdminReply)
    requires db.Valid()
    modifies db
    ensures db.Valid()
    ensures dbError ==> reply.status == ServerError
    ensures !dbError ==> (reply.status == NotFound <==> id !in old(db.users))
    ensures reply.status == OK <==> !dbError && id in old(db.users) && !readError
    ensures reply.status != OK ==> reply.user.None?
    // not committed: the rows are as they were; a rolled-back skill insert
    // may have used up catalogue ids
    ensures dbError || id !in old(db.users) ==>
      db.users == old(db.users) && db.allSkills.rows == old(db.allSkills.rows) &&
      old(db.allSkills.nextId) <= db.allSkills.nextId && db.userSkills == old(db.userSkills)
    ensures !dbError && id in old(db.users) ==>
      UserUpdated(old(db.users), old(db.allSkills), old(db.userSkills), db.users, db.allSkills, db.userSkills,
                  id, AdminEdit(old(db.users)[id], name, email, bio, isAdmin, password, hash), skills)
    ensures db.skills == old(db.skills) && db.assessments == old(db.assessments) &&
      db.questions == old(db.questions) && db.nextQuestionId == old(db.nextQuestionId) &&
      db.settings == old(db.settings) && db.subscribers == old(db.subscribers)
    ensures reply.status == OK ==>
      reply.user == Some(AdminViewOf(id, db.users[id],
                                     GroupConcat(LinkedNames(db.allSkills.rows, SkillIdsOf(db.userSkills, id)))))
    ensures reply.status == OK && skills.Some? && CommaFree(skills.value) && skills.value != [""] ==>
      reply.user.value.skills == skills.value
  {
    if dbError {
      return AdminReply(ServerError, None);
    }
    if id !in db.users {
      return AdminReply(NotFound, None);
    }
    var users, catalog, links := UpdateUserRows(db.users, db.allSkills, db.userSkills, id, name, email,
                                                password, isAdmin, bio, skills, hash);
    db.users, db.allSkills, db.userSkills := users, catalog, links;
    if readError {
      return AdminReply(ServerError, None);
    }
    var names := LinkedNames(catalog.rows, SkillIdsOf(links, id));
    reply := AdminReply(OK, Some(AdminViewOf(id, users[id], GroupConcat(names))));
    if skills.Some? && CommaFree(skills.value) && skills.value != [""] {
      ReplyListsSentSkills(catalog, links, id, skills.value);
    }
  }

  /** `DELETE /users/:id` by the administrator `callerId`. `dbError` stands
      for a failing query. */
  method DeleteUser(db: Database, id: int, callerId: int, dbError: bool) returns (status: int)
    modifies db
    ensures dbError ==> status == ServerError
    ensures !dbError && id !in old(db.users) ==> status == NotFound
    ensures !dbError && id in old(db.users) && id == callerId ==> status == BadRequest
    ensures status == OK <==> !dbError && id in old(db.users) && id != callerId
    ensures status == OK ==> db.users == old(db.users) - {id}
    ensures status != OK ==> db.users == old(db.users)
    ensures db.allSkills == old(db.allSkills) && db.skills == old(db.skills) &&
      db.userSkills == old(db.userSkills) && db.assessments == old(db.assessments) &&
      db.questions == old(db.questions) && db.nextQuestionId == old(db.nextQuestionId) &&
      db.settings == old(db.settings) && db.subscribers == old(db.subscribers)
  {
    if dbError {
      return ServerError;
    }
    if id !in db.users {
      return NotFound;
    }
    if id == callerId {
      return BadRequest;
    }
    db.users := db.users - {id};
    status := OK;
  }
}

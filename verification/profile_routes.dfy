/** The profile routes: `GET /api/profile` and `PUT /api/profile/update`.
    The update runs in one transaction: a partial update of the user's row,
    then, when a skills array is sent, the find-or-create replacement of the
    user's skill links over the `Skills` catalogue; a missing user or a
    failing statement rolls everything back. */
module ProfileRoutes {
  import opened Common
  import opened Text
  import opened EmailPattern
  import opened Tables
  import opened UserUpdate
  import opened SkillLinks

  /** The profile as returned: the selected columns and the skill names. */
  datatype ProfileView = ProfileView(id: int, name: string, email: string, bio: string,
                                     skills: seq<string>)

  /** Status and, on success, the body. */
  datatype Reply = Reply(status: int, profile: Option<ProfileView>)

  /** The profile of user `uid` as the two SELECTs read it. */
  function ViewOf(users: map<int, User>, catalog: Catalog, links: seq<Link>, uid: int): (v: Option<ProfileView>)
    ensures v.None? <==> uid !in users
    ensures v.Some? ==>
      v.value.id == uid && v.value.name == users[uid].name &&
      v.value.email == users[uid].email && v.value.bio == users[uid].bio &&
      v.value.skills == LinkedNames(catalog.rows, SkillIdsOf(links, uid))
  {
    if uid !in users then None
    else
      var u := users[uid];
      Some(ProfileView(uid, u.name, u.email, u.bio, LinkedNames(catalog.rows, SkillIdsOf(links, uid))))
  }

  /** `GET /api/profile`. `dbError` stands for a failing query. */
  function GetProfile(db: Database, user: Option<Claim>, dbError: bool): (r: Reply)
    reads db
    ensures r.status == Unauthorized <==> !HasUserId(user)
    ensures r.status == NotFound <==> HasUserId(user) && !dbError && user.value.id.value !in db.users
    ensures r.status == OK <==> HasUserId(user) && !dbError && user.value.id.value in db.users
    ensures r.status == OK ==> r.profile == ViewOf(db.users, db.skills, db.userSkills, user.value.id.value)
    ensures r.status != OK ==> r.profile.None?
  {
    if !HasUserId(user) then Reply(Unauthorized, None)
    else if dbError then Reply(ServerError, None)
    else
      var v := ViewOf(db.users, db.skills, db.userSkills, user.value.id.value);
      if v.None? then Reply(NotFound, None) else Reply(OK, v)
  }

  /** The columns a skill created by the profile update gets: only its name
      is inserted, so the others are NULL. */
  const ProfileSkillColumns := NewSkillColumns(None, None, None)

  /** The tables after a committed profile update of user `uid`: the row
      edited by `TextEdit`, and, when a skills array was sent, the user's
      links replaced by the listed skills, created in `Skills` when missing;
      other users' links are untouched. */
  ghost predicate ProfileUpdated(users0: map<int, User>, cat0: Catalog, links0: seq<Link>,
                                 users: map<int, User>, cat: Catalog, links: seq<Link>, uid: int,
                                 name: Option<string>, email: Option<string>, bio: Option<string>,
                                 skills: Option<seq<string>>)
  {
    uid in users0 &&
    users == users0[uid := TextEdit(users0[uid], name, email, bio)] &&
    Extends(cat0, cat) &&
    (forall v :: v != uid ==> SkillIdsOf(links, v) == SkillIdsOf(links0, v)) &&
    (skills.Some? ==> LinkedNames(cat.rows, SkillIdsOf(links, uid)) == skills.value) &&
    (skills.None? ==> cat == cat0 && links == links0)
  }

  /** The statements of the update transaction, on working copies. When the
      user row is missing the UPDATE matches nothing. */
  method ProfileUpdateRows(users: map<int, User>, catalog: Catalog, links: seq<Link>, uid: int,
                           name: Option<string>, email: Option<string>, bio: Option<string>,
                           skills: Option<seq<string>>)
    returns (users': map<int, User>, catalog': Catalog, links': seq<Link>)
    requires ValidCatalog(catalog)
    ensures ValidCatalog(catalog') && Extends(catalog, catalog')
    ensures uid !in users ==> users' == users
    ensures uid in users ==> ProfileUpdated(users, catalog, links, users', catalog', links', uid, name, email, bio, skills)
  {
    users', catalog', links' := users, catalog, links;
    var sets := BuildTextUpdate(name, email, bio);
    if sets != [] && uid in users' {
      users' := users'[uid := Apply(users'[uid], sets)];
    } else if uid in users {
      assert users == users[uid := TextEdit(users[uid], name, email, bio)];
    }
    if skills.Some? {
      catalog', links' := ReplaceSkillLinks(catalog', links', uid, skills.value, ProfileSkillColumns);
    } else {
      assert catalog.rows[..|catalog.rows|] == catalog.rows;
    }
  }

  /** `PUT /api/profile/update`. `dbError` stands for any statement of the
      transaction failing (a duplicate e-mail, a lost connection). A missing
      user row is found only after the skill inserts; their rollback keeps
      the ids they used, as InnoDB's AUTO_INCREMENT does. */
  method UpdateProfile(db: Database, user: Option<Claim>, name: Option<string>, email: Option<string>,
                       bio: Option<string>, skills: Option<seq<string>>, dbError: bool)
    returns (reply: Reply)
    requires db.Valid()
    modifies db
    ensures db.Valid()
    ensures !HasUserId(user) ==> reply.status == Unauthorized
    ensures HasUserId(user) && Truthy(email) && !IsValidEmail(email.value) ==> reply.status == BadRequest
    ensures HasUserId(user) && (!Truthy(email) || IsValidEmail(email.value)) ==>
      (dbError ==> reply.status == ServerError) &&
      (!dbError ==> (reply.status == NotFound <==> user.value.id.value !in old(db.users))) &&
      (!dbError && user.value.id.value in old(db.users) ==> reply.status == OK)
    ensures reply.status != OK ==> reply.profile.None?
    // all or nothing: every answer but 200 leaves the rows as they were; the
    // AUTO_INCREMENT counter of `Skills` is not rolled back
    ensures reply.status != OK ==>
      db.users == old(db.users) && db.skills.rows == old(db.skills.rows) &&
      old(db.skills.nextId) <= db.skills.nextId && db.userSkills == old(db.userSkills)
    ensures db.allSkills == old(db.allSkills) && db.assessments == old(db.assessments) &&
      db.questions == old(db.questions) && db.nextQuestionId == old(db.nextQuestionId) &&
      db.settings == old(db.settings) && db.subscribers == old(db.subscribers)
    ensures reply.status == OK ==>
      HasUserId(user) &&
      ProfileUpdated(old(db.users), old(db.skills), old(db.userSkills), db.users, db.skills, db.userSkills,
                     user.value.id.value, name, email, bio, skills) &&
      // the answer is what a GET right after the update returns
      reply == GetProfile(db, user, false)
  {
    if !HasUserId(user) {
      return Reply(Unauthorized, None);
    }
    var uid := user.value.id.value;
    if Truthy(email) && !IsValidEmail(email.value) {
      return Reply(BadRequest, None);
    }
    var users, catalog, links := ProfileUpdateRows(db.users, db.skills, db.userSkills, uid, name, email, bio, skills);
    if dbError {
      return Reply(ServerError, None);
    }
    if uid !in users {
      db.skills := Catalog(db.skills.rows, catalog.nextId);
      return Reply(NotFound, None);
    }
    db.users, db.skills, db.userSkills := users, catalog, links;
    reply := Reply(OK, ViewOf(users, catalog, links, uid));
  }
}

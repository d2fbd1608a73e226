/** The edit-profile form: its initial contents, the skill list's add and
    remove handlers, and the message shown when saving fails. Each handler
    computes the next form state from the current one. */
module EditProfile {
  import opened Common

  /** The profile the form is opened with; absent fields are `None`. */
  datatype UserData = UserData(id: Option<int>, name: Option<string>, email: Option<string>,
                               bio: Option<string>, skills: Option<seq<string>>)

  /** `formData`; `id` is `None` for the `""` a falsy id becomes. */
  datatype Form = Form(name: string, email: string, bio: string, skills: seq<string>, id: Option<int>)

  /** The form and the text of the new-skill input. */
  datatype FormState = FormState(form: Form, newSkill: string)

  /** `value || ""` for a text: a missing text becomes empty. */
  function TextOrEmpty(v: Option<string>): (r: string)
    ensures v.Some? ==> r == v.value
    ensures v.None? ==> r == ""
  {
    if v.Some? then v.value else ""
  }

  /** When a profile arrives, the form copies the profile, with `""` for a missing
      name, e-mail or bio, `[]` for missing skills (an empty array is
      truthy, so it stays) and `""` for a missing or zero id. */
  function InitialForm(u: UserData): (f: Form)
    ensures f.name == TextOrEmpty(u.name) && f.email == TextOrEmpty(u.email) && f.bio == TextOrEmpty(u.bio)
    ensures u.skills.Some? ==> f.skills == u.skills.value
    ensures u.skills.None? ==> f.skills == []
    ensures f.id.Some? <==> u.id.Some? && u.id.value != 0
    ensures f.id.Some? ==> f.id == u.id
  {
    Form(TextOrEmpty(u.name), TextOrEmpty(u.email), TextOrEmpty(u.bio),
         if u.skills.Some? then u.skills.value else [],
         if u.id.Some? && u.id.value != 0 then u.id else None)
  }

  /** `handleSkillAdd`. */
  function AddSkill(s: FormState): FormState
  {
    if s.newSkill != "" && s.newSkill !in s.form.skills
    then FormState(s.form.(skills := s.form.skills + [s.newSkill]), "")
    else s
  }

  /** `skills.filter(skill => skill !== x)`. */
  function Without(skills: seq<string>, x: string): seq<string>
  {
    if skills == [] then []
    else
      var rest := Without(skills[..|skills| - 1], x);
      if skills[|skills| - 1] == x then rest else rest + [skills[|skills| - 1]]
  }

  /** `handleSkillRemove`. */
  function RemoveSkill(f: Form, x: string): Form
  {
    f.(skills := Without(f.skills, x))
  }

  predicate NoDuplicates(skills: seq<string>)
  {
    forall i, j :: 0 <= i < j < |skills| ==> skills[i] != skills[j]
  }

  /** Adding appends the new skill and clears the input exactly when the
      input is non-empty and not yet listed; otherwise nothing changes. The
      other fields are kept either way. */
  lemma AddSkillSpec(s: FormState)
    ensures var t := AddSkill(s);
      (s.newSkill != "" && s.newSkill !in s.form.skills ==>
        t.form.skills == s.form.skills + [s.newSkill] && t.newSkill == "") &&
      (s.newSkill == "" || s.newSkill in s.form.skills ==> t == s) &&
      t.form.name == s.form.name && t.form.email == s.form.email && t.form.bio == s.form.bio &&
      t.form.id == s.form.id
  {
  }

  /** A list without duplicates keeps none after any add. */
  lemma AddKeepsDistinct(s: FormState)
    requires NoDuplicates(s.form.skills)
    ensures NoDuplicates(AddSkill(s).form.skills)
  {
    if s.newSkill != "" && s.newSkill !in s.form.skills {
      var r := s.form.skills + [s.newSkill];
      forall i, j | 0 <= i < j < |r|
        ensures r[i] != r[j]
      {
        if j == |s.form.skills| {
          assert r[i] == s.form.skills[i];
        }
      }
    }
  }

  /** Removing drops every occurrence of the skill and keeps every other
      entry, in order: removal distributes over concatenation. */
  lemma {:induction false} WithoutSpec(a: seq<string>, b: seq<string>, x: string)
    ensures x !in Without(a, x)
    ensures Without(a + b, x) == Without(a, x) + Without(b, x)
    ensures forall y :: y != x ==> multiset(Without(a, x))[y] == multiset(a)[y]
  {
    if a != [] {
      var n := |a| - 1;
      WithoutSpec(a[..n], [], x);
      assert a == a[..n] + [a[n]];
    }
    if b == [] {
      assert a + b == a;
    } else {
      var n := |b| - 1;
      WithoutSpec(a, b[..n], x);
      assert (a + b)[..|a + b| - 1] == a + b[..n];
    }
  }

  /** Removing a skill right after adding it gives the list back. */
  lemma RemoveUndoesAdd(s: FormState)
    requires s.newSkill != "" && s.newSkill !in s.form.skills
    ensures RemoveSkill(AddSkill(s).form, s.newSkill) == s.form
  {
    WithoutAbsent(s.form.skills, s.newSkill);
    assert (s.form.skills + [s.newSkill])[..|s.form.skills|] == s.form.skills;
  }

  lemma {:induction false} WithoutAbsent(skills: seq<string>, x: string)
    requires x !in skills
    ensures Without(skills, x) == skills
  {
    if skills != [] {
      var n := |skills| - 1;
      assert x !in skills[..n];
      WithoutAbsent(skills[..n], x);
      assert skills == skills[..n] + [skills[n]];
    }
  }

  /** Removing leaves name, e-mail, bio and id as they were. */
  lemma RemoveKeepsFields(f: Form, x: string)
    ensures var g := RemoveSkill(f, x);
      g.name == f.name && g.email == f.email && g.bio == f.bio && g.id == f.id && x !in g.skills
  {
    WithoutSpec(f.skills, [], x);
  }

  const SaveFailedMessage: string := "Failed to update profile"

  /** The error shown after a failed save: the server's message when it sent a non-empty one, the fixed
      text otherwise. */
  function SaveError(message: Option<string>): (e: string)
    ensures e != ""
    ensures Truthy(message) ==> e == message.value
    ensures !Truthy(message) ==> e == SaveFailedMessage
  {
    if Truthy(message) then message.value else SaveFailedMessage
  }
}

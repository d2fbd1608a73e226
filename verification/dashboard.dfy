/** The dashboard: the skill filter driven by the search box and the
    category menu, the colour of a proficiency score, the greeting and the
    header picture. */
module Dashboard {
  import opened Common
  import opened Text
  import opened ProfilePicture

  datatype SkillItem = SkillItem(name: string, proficiency: int, category: string)

  const AllCategories: string := "All"

  /** A skill is shown when its lowercased name contains the lowercased term, and the
      category is the selected one unless 'All' is selected. */
  predicate Matches(skill: SkillItem, term: string, selected: string)
  {
    Contains(Lower(skill.name), Lower(term)) && (selected == AllCategories || skill.category == selected)
  }

  /** `skills.filter(...)`, the list the dashboard shows. */
  function FilterSkills(skills: seq<SkillItem>, term: string, selected: string): (r: seq<SkillItem>)
    ensures |r| <= |skills|
  {
    if skills == [] then []
    else
      var last := skills[|skills| - 1];
      FilterSkills(skills[..|skills| - 1], term, selected) + (if Matches(last, term, selected) then [last] else [])
  }

  /** Filtering keeps the order: the list filtered in two parts is the two
      filtered parts one after the other, and a single skill is kept exactly
      when it matches. */
  lemma {:induction false} FilterAppend(a: seq<SkillItem>, b: seq<SkillItem>, term: string, selected: string)
    ensures FilterSkills(a + b, term, selected) == FilterSkills(a, term, selected) + FilterSkills(b, term, selected)
  {
    if b == [] {
      assert a + b == a;
    } else {
      var n := |b| - 1;
      var tail := if Matches(b[n], term, selected) then [b[n]] else [];
      FilterAppend(a, b[..n], term, selected);
      assert (a + b)[..|a + b| - 1] == a + b[..n];
      assert FilterSkills(a + b, term, selected) == FilterSkills(a + b[..n], term, selected) + tail;
      assert FilterSkills(b, term, selected) == FilterSkills(b[..n], term, selected) + tail;
    }
  }

  lemma FilterOne(x: SkillItem, term: string, selected: string)
    ensures FilterSkills([x], term, selected) == if Matches(x, term, selected) then [x] else []
  {
    assert [x][..0] == [];
  }

  /** A skill is shown exactly when it is in the list and matches. */
  lemma {:induction false} FilterMembers(skills: seq<SkillItem>, term: string, selected: string, x: SkillItem)
    ensures x in FilterSkills(skills, term, selected) <==> x in skills && Matches(x, term, selected)
  {
    if skills != [] {
      var n := |skills| - 1;
      FilterMembers(skills[..n], term, selected, x);
      assert skills == skills[..n] + [skills[n]];
    }
  }

  lemma {:induction false} EmptyContained(s: string)
    ensures Contains(s, "")
  {
    assert s[..0] == "";
  }

  /** The empty search with 'All' selected shows every skill. */
  lemma {:induction false} FilterNothing(skills: seq<SkillItem>)
    ensures FilterSkills(skills, "", AllCategories) == skills
  {
    if skills != [] {
      var n := |skills| - 1;
      FilterNothing(skills[..n]);
      EmptyContained(Lower(skills[n].name));
      assert skills == skills[..n] + [skills[n]];
    }
  }

  /** Any category other than 'All' shows only skills of exactly that
      category. */
  lemma CategoryOnly(skills: seq<SkillItem>, term: string, selected: string)
    requires selected != AllCategories
    ensures forall x :: x in FilterSkills(skills, term, selected) ==> x.category == selected
  {
    forall x | x in FilterSkills(skills, term, selected)
      ensures x.category == selected
    {
      FilterMembers(skills, term, selected, x);
    }
  }

  datatype Colour = Green | Yellow | Red

  /** `getProficiencyColor`: scores of 80 and above are green, 50 up to 80
      yellow, below 50 red; 80 and 50 belong to the higher band. */
  function ProficiencyColour(proficiency: int): (c: Colour)
    ensures c == Green <==> proficiency >= 80
    ensures c == Yellow <==> 50 <= proficiency < 80
    ensures c == Red <==> proficiency < 50
  {
    if proficiency >= 80 then Green
    else if proficiency >= 50 then Yellow
    else Red
  }

  function BandRank(c: Colour): nat
  {
    match c
    case Red => 0
    case Yellow => 1
    case Green => 2
  }

  /** A higher score never gets a lower band. */
  lemma ColourMonotone(p: int, q: int)
    requires p <= q
    ensures BandRank(ProficiencyColour(p)) <= BandRank(ProficiencyColour(q))
  {
  }

  /** The `user` entry of local storage: absent or empty, not valid JSON,
      or an object with a `name` (missing or a text). */
  datatype StoredUser = Missing | Unparsable | Stored(name: Option<string>)

  const Guest: string := "Guest"

  /** `userName` after `fetchUserData`: untouched (`''`) when nothing is
      stored, `'Guest'` for unparsable JSON or a missing name. */
  function UserName(stored: StoredUser): (name: string)
    ensures stored.Missing? ==> name == ""
    ensures stored.Unparsable? ==> name == Guest
    ensures stored.Stored? && Truthy(stored.name) ==> name == stored.name.value
    ensures stored.Stored? && !Truthy(stored.name) ==> name == Guest
  {
    match stored
    case Missing => ""
    case Unparsable => Guest
    case Stored(n) => if Truthy(n) then n.value else Guest
  }

  /** The name in `Hello {userName || 'Guest'},`: the stored name when there
      is one, 'Guest' in every other case. */
  function Greeting(stored: StoredUser): (name: string)
    ensures name != ""
    ensures name != Guest ==> stored.Stored? && Truthy(stored.name) && name == stored.name.value
    ensures stored.Stored? && Truthy(stored.name) ==> name == stored.name.value
  {
    var n := UserName(stored);
    if n != "" then n else Guest
  }

  const DefaultProfilePicture: string := "/default-profile.jpg"

  /** The header image `src`: the resolved picture of a loaded profile with
      a non-empty picture, `/default-profile.jpg` otherwise. */
  function HeaderImage(token: Option<string>, response: Option<Profile>): (src: string)
    ensures !Truthy(token) ==> src == DefaultProfilePicture
    ensures Truthy(token) && response.Some? && Truthy(response.value.picture) ==>
      src == ImageUrl(response.value.picture.value)
    ensures src != DefaultProfilePicture ==> StartsWith(src, "http")
  {
    match Shown(LoadedProfile(token, response))
    case Url(url) => ImageUrlAbsolute(response.value.picture.value); url
    case Default => DefaultProfilePicture
  }
}

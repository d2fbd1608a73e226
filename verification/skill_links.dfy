/** Replacing a user's skill links with find-or-create, as both the admin user
    update and the profile update do inside their transactions: delete the
    user's links, then for each listed name look the skill up by name, insert
    it into the catalogue when missing, and link it to the user. */
module SkillLinks {
  import opened Common
  import opened Tables

  /** The columns a newly created catalogue row gets besides its name. */
  datatype NewSkillColumns = NewSkillColumns(category: Option<string>,
                                             description: Option<string>,
                                             difficulty: Option<string>)

  /** The rows appended to a catalogue were created for listed names that the
      catalogue did not hold, each name once, with the given columns. */
  ghost predicate CreatedFor(before: Catalog, after: Catalog, names: seq<string>, cols: NewSkillColumns)
    requires |before.rows| <= |after.rows|
  {
    (forall k :: |before.rows| <= k < |after.rows| ==>
      after.rows[k].name in names && FindByName(before.rows, after.rows[k].name).None? &&
      after.rows[k].category == cols.category &&
      after.rows[k].description == cols.description &&
      after.rows[k].difficulty == cols.difficulty) &&
    (forall k, m :: |before.rows| <= k < m < |after.rows| ==> after.rows[k].name != after.rows[m].name)
  }

  /** What holds after the first `i` names have been linked: `cur` and
      `curLinks` are the working copies, `ids` the ids linked so far. */
  ghost predicate Linked(cat: Catalog, links: seq<Link>, uid: int, names: seq<string>,
                         cols: NewSkillColumns, i: nat, cur: Catalog, curLinks: seq<Link>, ids: seq<int>)
  {
    CatalogLinked(cat, names, cols, i, cur, ids) &&
    SkillIdsOf(curLinks, uid) == ids &&
    (forall v :: v != uid ==> SkillIdsOf(curLinks, v) == SkillIdsOf(links, v))
  }

  /** The user's links become exactly one per listed name, in list order,
      each naming the listed skill; existing skills are reused and only the
      missing ones are created; other users' links are untouched. */
  method ReplaceSkillLinks(cat: Catalog, links: seq<Link>, uid: int, names: seq<string>,
                           cols: NewSkillColumns)
    returns (cat': Catalog, links': seq<Link>)
    requires ValidCatalog(cat)
    ensures ValidCatalog(cat') && Extends(cat, cat')
    ensures |SkillIdsOf(links', uid)| == |names|
    ensures LinkedNames(cat'.rows, SkillIdsOf(links', uid)) == names
    ensures forall k :: 0 <= k < |names| && FindByName(cat.rows, names[k]).Some? ==>
              SkillIdsOf(links', uid)[k] == FindByName(cat.rows, names[k]).value
    ensures forall n :: n in names ==> FindByName(cat'.rows, n).Some?
    ensures CreatedFor(cat, cat', names, cols)
    ensures forall v :: v != uid ==> SkillIdsOf(links', v) == SkillIdsOf(links, v)
  {
    cat' := cat;
    links' := WithoutUser(links, uid);
    ghost var ids: seq<int> := [];
    var i := 0;
    assert names[..0] == [];
    while i < |names|
      invariant Linked(cat, links, uid, names, cols, i, cat', links', ids)
    {
      var name := names[i];
      var found := FindByName(cat'.rows, name);
      var id: int;
      var next: Catalog;
      if found.None? {
        id := cat'.nextId;
        next := Catalog(cat'.rows + [SkillRow(id, name, cols.category, cols.description, cols.difficulty)], id + 1);
      } else {
        id := found.value;
        next := cat';
      }
      LinkStep(cat, links, uid, names, cols, i, cat', links', ids, id, next);
      cat' := next;
      links' := links' + [Link(uid, id)];
      ids := ids + [id];
      i := i + 1;
    }
    assert names[..i] == names;
    LinkedNamesResolved(cat'.rows, ids, names);
  }

  /** One iteration of the loop keeps `Linked`. */
  lemma LinkStep(cat: Catalog, links: seq<Link>, uid: int, names: seq<string>,
                 cols: NewSkillColumns, i: nat, cur: Catalog, curLinks: seq<Link>, ids: seq<int>,
                 id: int, next: Catalog)
    requires Linked(cat, links, uid, names, cols, i, cur, curLinks, ids) && i < |names|
    requires FindByName(cur.rows, names[i]).None? ==>
      id == cur.nextId &&
      next == Catalog(cur.rows + [SkillRow(id, names[i], cols.category, cols.description, cols.difficulty)], id + 1)
    requires FindByName(cur.rows, names[i]).Some? ==>
      id == FindByName(cur.rows, names[i]).value && next == cur
    ensures Linked(cat, links, uid, names, cols, i + 1, next, curLinks + [Link(uid, id)], ids + [id])
  {
    var name := names[i];
    var links' := curLinks + [Link(uid, id)];
    var ids' := ids + [id];
    forall v
      ensures SkillIdsOf(links', v) == SkillIdsOf(curLinks, v) + (if v == uid then [id] else [])
    {
      IdsAfterAppend(curLinks, Link(uid, id), v);
    }
    if FindByName(cur.rows, name).None? {
      LinkStepNew(cat, uid, names, cols, i, cur, ids, id, next);
    } else {
      LinkStepFound(cat, uid, names, cols, i, cur, ids, id);
    }
  }

  /** The catalogue part of `Linked`. */
  ghost predicate CatalogLinked(cat: Catalog, names: seq<string>, cols: NewSkillColumns,
                                i: nat, cur: Catalog, ids: seq<int>)
  {
    i <= |names| && |ids| == i &&
    ValidCatalog(cur) && Extends(cat, cur) &&
    (forall k :: 0 <= k < i ==> NameOf(cur.rows, ids[k]) == Some(names[k])) &&
    (forall k :: 0 <= k < i && FindByName(cat.rows, names[k]).Some? ==>
       ids[k] == FindByName(cat.rows, names[k]).value) &&
    (forall n :: FindByName(cat.rows, n).Some? ==> FindByName(cur.rows, n) == FindByName(cat.rows, n)) &&
    (forall n :: n in names[..i] ==> FindByName(cur.rows, n).Some?) &&
    CreatedFor(cat, cur, names[..i], cols)
  }

  lemma LinkStepNew(cat: Catalog, uid: int, names: seq<string>, cols: NewSkillColumns,
                    i: nat, cur: Catalog, ids: seq<int>, id: int, next: Catalog)
    requires CatalogLinked(cat, names, cols, i, cur, ids) && i < |names|
    requires FindByName(cur.rows, names[i]).None?
    requires id == cur.nextId
    requires next == Catalog(cur.rows + [SkillRow(id, names[i], cols.category, cols.description, cols.difficulty)], id + 1)
    ensures CatalogLinked(cat, names, cols, i + 1, next, ids + [id])
  {
    var name := names[i];
    var ids' := ids + [id];
    assert names[..i + 1] == names[..i] + [name];
    var row := SkillRow(id, name, cols.category, cols.description, cols.difficulty);
    AppendValid(cat, cur, row);
    AppendFinds(cat, cur, row, names[..i], names[..i + 1]);
    AppendNames(cur, row);
    AppendCreated(cat, cur, row, names[..i], names[..i + 1], cols);
    assert FindByName(cat.rows, name).None?;
    assert ValidCatalog(next) && Extends(cat, next);
    assert CreatedFor(cat, next, names[..i + 1], cols);
    assert forall n :: n in names[..i + 1] ==> FindByName(next.rows, n).Some?;
    assert forall n :: FindByName(cat.rows, n).Some? ==> FindByName(next.rows, n) == FindByName(cat.rows, n);
    forall k | 0 <= k < i + 1
      ensures NameOf(next.rows, ids'[k]) == Some(names[k])
    {
      if k < i {
        assert ids'[k] == ids[k];
      }
    }
    forall k | 0 <= k < i + 1 && FindByName(cat.rows, names[k]).Some?
      ensures ids'[k] == FindByName(cat.rows, names[k]).value
    {
      if k < i {
        assert ids'[k] == ids[k];
      }
    }
  }

  lemma LinkStepFound(cat: Catalog, uid: int, names: seq<string>, cols: NewSkillColumns,
                      i: nat, cur: Catalog, ids: seq<int>, id: int)
    requires CatalogLinked(cat, names, cols, i, cur, ids) && i < |names|
    requires FindByName(cur.rows, names[i]) == Some(id)
    ensures CatalogLinked(cat, names, cols, i + 1, cur, ids + [id])
  {
    var name := names[i];
    var ids' := ids + [id];
    assert names[..i + 1] == names[..i] + [name];
    FindThenName(cur, name);
    CreatedForMore(cat, cur, names[..i], names[..i + 1], cols);
    forall k | 0 <= k < i + 1
      ensures NameOf(cur.rows, ids'[k]) == Some(names[k])
    {
      if k < i {
        assert ids'[k] == ids[k];
      }
    }
    forall k | 0 <= k < i + 1 && FindByName(cat.rows, names[k]).Some?
      ensures ids'[k] == FindByName(cat.rows, names[k]).value
    {
      if k < i {
        assert ids'[k] == ids[k];
      }
    }
    forall n | n in names[..i + 1]
      ensures FindByName(cur.rows, n).Some?
    {
      if n != name {
        assert n in names[..i];
      }
    }
  }

  /** `CreatedFor` survives lengthening the list of names. */
  lemma CreatedForMore(cat: Catalog, cur: Catalog, done: seq<string>, done': seq<string>,
                       cols: NewSkillColumns)
    requires |cat.rows| <= |cur.rows|
    requires CreatedFor(cat, cur, done, cols)
    requires forall n :: n in done ==> n in done'
    ensures CreatedFor(cat, cur, done', cols)
  {
  }

  /** Appending a row with a fresh id keeps the catalogue valid. */
  lemma AppendValid(cat: Catalog, cur: Catalog, row: SkillRow)
    requires ValidCatalog(cur) && Extends(cat, cur)
    requires row.id == cur.nextId
    ensures var next := Catalog(cur.rows + [row], row.id + 1);
      ValidCatalog(next) && Extends(cat, next)
  {
    var next := Catalog(cur.rows + [row], row.id + 1);
    assert next.rows[..|cat.rows|] == cat.rows by {
      assert next.rows[..|cur.rows|] == cur.rows;
    }
  }

  /** Appending a row keeps every earlier lookup by name and makes the new
      name findable. */
  lemma AppendFinds(cat: Catalog, cur: Catalog, row: SkillRow, done: seq<string>, done': seq<string>)
    requires done' == done + [row.name]
    requires forall n :: FindByName(cat.rows, n).Some? ==> FindByName(cur.rows, n) == FindByName(cat.rows, n)
    requires forall n :: n in done ==> FindByName(cur.rows, n).Some?
    ensures var next := cur.rows + [row];
      (forall n :: FindByName(cat.rows, n).Some? ==> FindByName(next, n) == FindByName(cat.rows, n)) &&
      (forall n :: n in done' ==> FindByName(next, n).Some?)
  {
    var next := cur.rows + [row];
    forall n | FindByName(cat.rows, n).Some?
      ensures FindByName(next, n) == FindByName(cat.rows, n)
    {
      FindAfterAppend(cur.rows, row, n);
    }
    forall n | n in done'
      ensures FindByName(next, n).Some?
    {
      FindAfterAppend(cur.rows, row, n);
    }
  }

  /** Appending a row with a fresh id keeps every earlier join on the id and
      makes the new id resolve to the new name. */
  lemma AppendNames(cur: Catalog, row: SkillRow)
    requires ValidCatalog(cur) && row.id == cur.nextId
    ensures var next := cur.rows + [row];
      (forall id :: NameOf(cur.rows, id).Some? ==> NameOf(next, id) == NameOf(cur.rows, id)) &&
      NameOf(next, row.id) == Some(row.name)
  {
    var next := cur.rows + [row];
    forall id | NameOf(cur.rows, id).Some?
      ensures NameOf(next, id) == NameOf(cur.rows, id)
    {
      NameAfterAppend(cur.rows, row, id);
    }
    NameAfterAppend(cur.rows, row, row.id);
    NameOfSpec(cur.rows, row.id);
  }

  /** Appending a row for a listed name the catalogue lacks extends
      `CreatedFor`. */
  lemma AppendCreated(cat: Catalog, cur: Catalog, row: SkillRow,
                      done: seq<string>, done': seq<string>, cols: NewSkillColumns)
    requires Extends(cat, cur)
    requires FindByName(cur.rows, row.name).None?
    requires row.category == cols.category && row.description == cols.description &&
             row.difficulty == cols.difficulty
    requires done' == done + [row.name]
    requires CreatedFor(cat, cur, done, cols)
    requires forall n :: FindByName(cat.rows, n).Some? ==> FindByName(cur.rows, n) == FindByName(cat.rows, n)
    requires forall n :: n in done ==> FindByName(cur.rows, n).Some?
    ensures var next := Catalog(cur.rows + [row], cur.nextId + 1);
      CreatedFor(cat, next, done', cols)
  {
    var next := Catalog(cur.rows + [row], cur.nextId + 1);
    assert FindByName(cat.rows, row.name).None?;
    forall k | |cat.rows| <= k < |next.rows|
      ensures next.rows[k].name in done' && FindByName(cat.rows, next.rows[k].name).None? &&
        next.rows[k].category == cols.category && next.rows[k].description == cols.description &&
        next.rows[k].difficulty == cols.difficulty
    {
      if k < |cur.rows| {
        assert next.rows[k] == cur.rows[k];
      }
    }
    forall k, m | |cat.rows| <= k < m < |next.rows|
      ensures next.rows[k].name != next.rows[m].name
    {
      if m == |cur.rows| {
        assert next.rows[k] == cur.rows[k];
        assert cur.rows[k].name in done;
      } else {
        assert next.rows[k] == cur.rows[k] && next.rows[m] == cur.rows[m];
      }
    }
  }
}

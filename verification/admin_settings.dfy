/** `PUT /settings`: every entry of the request body is upserted into
    `system_settings` with `INSERT ... ON DUPLICATE KEY UPDATE`, in one
    transaction. */
module AdminSettings {
  import opened Common
  import opened Tables

  /** One `[key, value]` of `Object.entries(req.body)`. */
  datatype Entry = Entry(key: string, value: string)

  /** The settings after upserting the entries in order. */
  function Upserted(settings: map<string, string>, entries: seq<Entry>): map<string, string>
  {
    if entries == [] then settings
    else
      var n := |entries| - 1;
      Upserted(settings, entries[..n])[entries[n].key := entries[n].value]
  }

  /** Some entry has the key. */
  predicate Supplied(entries: seq<Entry>, key: string)
  {
    exists k :: 0 <= k < |entries| && entries[k].key == key
  }

  /** A supplied key holds the value of its last entry (the only one, since
      the keys of a JSON object are distinct). */
  lemma {:induction false} UpsertedLast(settings: map<string, string>, entries: seq<Entry>, k: nat)
    requires k < |entries|
    requires forall m :: k < m < |entries| ==> entries[m].key != entries[k].key
    ensures var r := Upserted(settings, entries);
      entries[k].key in r && r[entries[k].key] == entries[k].value
  {
    var n := |entries| - 1;
    if k < n {
      assert entries[..n][k] == entries[k];
      assert forall m :: k < m < n ==> entries[..n][m] == entries[m];
      UpsertedLast(settings, entries[..n], k);
    }
  }

  /** A key the body does not supply keeps its stored value, or stays
      absent. */
  lemma {:induction false} UpsertedUntouched(settings: map<string, string>, entries: seq<Entry>, key: string)
    requires !Supplied(entries, key)
    ensures var r := Upserted(settings, entries);
      (key in r <==> key in settings) && (key in settings ==> r[key] == settings[key])
  {
    if entries != [] {
      var n := |entries| - 1;
      assert !Supplied(entries[..n], key) by {
        forall k | 0 <= k < n
          ensures entries[..n][k].key != key
        {
          assert entries[..n][k] == entries[k];
        }
      }
      UpsertedUntouched(settings, entries[..n], key);
    }
  }

  /** The upsert loop, on a working copy of the table. */
  method UpsertAll(settings: map<string, string>, entries: seq<Entry>) returns (r: map<string, string>)
    ensures r == Upserted(settings, entries)
  {
    r := settings;
    var i := 0;
    while i < |entries|
      invariant 0 <= i <= |entries|
      invariant r == Upserted(settings, entries[..i])
    {
      r := r[entries[i].key := entries[i].value];
      i := i + 1;
      assert entries[..i][..i - 1] == entries[..i - 1];
    }
    assert entries[..i] == entries;
  }

  /** `PUT /settings`. `dbError` stands for any statement failing, which
      rolls every upsert back. */
  method UpdateSettings(db: Database, entries: seq<Entry>, dbError: bool) returns (status: int)
    modifies db
    ensures status == OK <==> !dbError
    ensures status != OK ==> status == ServerError && db.settings == old(db.settings)
    ensures status == OK ==> db.settings == Upserted(old(db.settings), entries)
    ensures db.users == old(db.users) && db.allSkills == old(db.allSkills) && db.skills == old(db.skills) &&
      db.userSkills == old(db.userSkills) && db.assessments == old(db.assessments) &&
      db.questions == old(db.questions) && db.nextQuestionId == old(db.nextQuestionId) &&
      db.subscribers == old(db.subscribers)
  {
    var settings := UpsertAll(db.settings, entries);
    if dbError {
      return ServerError;
    }
    db.settings := settings;
    status := OK;
  }
}

/** `POST /subscribers` of the admin routes: unlike the public subscription
    it does not validate the address and refuses any address already in the
    table, whatever its status. */
module AdminSubscribers {
  import opened Common
  import opened EmailPattern
  import opened Tables
  import opened BlogRoutes

  /** The answer and the new table; `defaults` is the row the column
      defaults give an inserted address. */
  function AddSubscriberStep(subs: map<string, Subscriber>, email: string, defaults: Subscriber)
    : (r: (int, map<string, Subscriber>))
    ensures r.0 == BadRequest <==> email in subs
    ensures r.0 == BadRequest ==> r.1 == subs
    ensures r.0 != BadRequest ==> r.0 == Created && r.1 == subs[email := defaults]
  {
    if email in subs then (BadRequest, subs) else (Created, subs[email := defaults])
  }

  /** An address that unsubscribed is refused here but re-activated by the
      public subscription. */
  lemma AdminAddDiffersFromSubscribe(subs: map<string, Subscriber>, email: string, now: int,
                                     defaults: Subscriber)
    requires email in subs && subs[email].status == "unsubscribed" && IsValidEmail(email)
    ensures AddSubscriberStep(subs, email, defaults).0 == BadRequest
    ensures SubscribeStep(subs, Some(email), now, defaults) == (OK, subs[email := Subscriber("active", now)])
  {
  }

  /** `POST /subscribers`. `dbError` stands for a failing query. */
  method AddSubscriber(db: Database, email: string, defaults: Subscriber, dbError: bool) returns (status: int)
    modifies db
    ensures dbError ==> status == ServerError && db.subscribers == old(db.subscribers)
    ensures !dbError ==> (status, db.subscribers) == AddSubscriberStep(old(db.subscribers), email, defaults)
    ensures db.users == old(db.users) && db.allSkills == old(db.allSkills) && db.skills == old(db.skills) &&
      db.userSkills == old(db.userSkills) && db.assessments == old(db.assessments) &&
      db.questions == old(db.questions) && db.nextQuestionId == old(db.nextQuestionId) &&
      db.settings == old(db.settings)
  {
    if dbError {
      return ServerError;
    }
    if email in db.subscribers {
      return BadRequest;
    }
    db.subscribers := db.subscribers[email := defaults];
    status := Created;
  }
}

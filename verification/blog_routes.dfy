/** The public blog routes: the search guard and the newsletter
    subscription, a small state machine over `newsletter_subscribers`. */
module BlogRoutes {
  import opened Common
  import opened EmailPattern
  import opened Tables

  /** `GET /api/blog-posts/search`: a missing or empty `query` is refused
      before any query runs. `dbError` stands for the search failing. */
  function SearchStatus(query: Option<string>, dbError: bool): (status: int)
    ensures status == BadRequest <==> !Truthy(query)
    ensures Truthy(query) ==> status == (if dbError then ServerError else OK)
  {
    if !Truthy(query) then BadRequest
    else if dbError then ServerError
    else OK
  }

  /** What one subscription request does to the table: the answer and the
      new table. `now` is CURRENT_TIMESTAMP; `defaults` is the row the table's
      column defaults give an address inserted alone. */
  function SubscribeStep(subs: map<string, Subscriber>, email: Option<string>, now: int, defaults: Subscriber)
    : (r: (int, map<string, Subscriber>))
  {
    if !EmailAccepted(email) then (BadRequest, subs)
    else
      var e := email.value;
      if e in subs then
        if subs[e].status == "unsubscribed" then (OK, subs[e := Subscriber("active", now)])
        else (Conflict, subs)
      else (Created, subs[e := defaults])
  }

  /** The four outcomes of a subscription, and that it touches only the row
      of the address sent. */
  lemma SubscribeOutcomes(subs: map<string, Subscriber>, email: Option<string>, now: int, defaults: Subscriber)
    ensures var (status, subs') := SubscribeStep(subs, email, now, defaults);
      (status == BadRequest <==> !IsValidEmail(RegexInput(email))) &&
      (status == BadRequest ==> subs' == subs) &&
      (status == Created <==> email.Some? && IsValidEmail(email.value) && email.value !in subs) &&
      (status == Created ==> subs' == subs[email.value := defaults]) &&
      (status == OK <==> email.Some? && IsValidEmail(email.value) && email.value in subs &&
                         subs[email.value].status == "unsubscribed") &&
      (status == OK ==> subs' == subs[email.value := Subscriber("active", now)]) &&
      (status == Conflict ==> subs' == subs) &&
      (forall e :: (email.None? || e != email.value) ==> (e in subs' <==> e in subs) &&
                                                         (e in subs ==> subs'[e] == subs[e]))
  {
    EmailAcceptedOnInput(email);
  }

  /** Subscribing again right after a successful subscription answers 409
      and changes nothing, unless the column default itself is
      'unsubscribed'. */
  lemma SubscribeTwice(subs: map<string, Subscriber>, email: Option<string>, now: int, later: int,
                       defaults: Subscriber)
    requires SubscribeStep(subs, email, now, defaults).0 in {OK, Created}
    requires defaults.status != "unsubscribed"
    ensures var subs' := SubscribeStep(subs, email, now, defaults).1;
      SubscribeStep(subs', email, later, defaults) == (Conflict, subs')
  {
    assert EmailAccepted(email);
    var e := email.value;
    var subs' := SubscribeStep(subs, email, now, defaults).1;
    assert e in subs' && subs'[e].status != "unsubscribed";
  }

  /** `POST /api/newsletter/subscribe`. `dbError` stands for a failing
      query; each branch writes with a single statement, so a failure
      leaves the table as it was. */
  method Subscribe(db: Database, email: Option<string>, now: int, defaults: Subscriber, dbError: bool)
    returns (status: int)
    modifies db
    ensures !EmailAccepted(email) ==> status == BadRequest
    ensures EmailAccepted(email) && dbError ==> status == ServerError
    ensures !dbError ==> (status, db.subscribers) == SubscribeStep(old(db.subscribers), email, now, defaults)
    ensures dbError ==> db.subscribers == old(db.subscribers)
    ensures db.users == old(db.users) && db.allSkills == old(db.allSkills) && db.skills == old(db.skills) &&
      db.userSkills == old(db.userSkills) && db.assessments == old(db.assessments) &&
      db.questions == old(db.questions) && db.nextQuestionId == old(db.nextQuestionId) &&
      db.settings == old(db.settings)
  {
    if !EmailAccepted(email) {
      return BadRequest;
    }
    if dbError {
      return ServerError;
    }
    var e := email.value;
    if e in db.subscribers {
      if db.subscribers[e].status == "unsubscribed" {
        db.subscribers := db.subscribers[e := Subscriber("active", now)];
        return OK;
      }
      return Conflict;
    }
    db.subscribers := db.subscribers[e := defaults];
    status := Created;
  }
}

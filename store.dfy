/** The three collections `users`, `userAnalytics` and `conversationHistory`
    and the operations `process_conversation` performs on them: find or
    create the caller, insert or update their analytics, append the
    conversation. `find_one` returns the first matching record, and every
    insert takes a fresh id from one counter. */
module Store {
  import opened Text
  import opened JsonValue
  import opened Phone
  import opened Email
  import opened Languages
  import opened Analytics
  import opened Tags

  datatype User = User(id: nat, name: Json, email: Json, phone: Option<string>)

  /** An analytics record: its own id, the user it belongs to, and its other
      fields by key ("country", "intent_level", "follow_up" and whatever else
      the record already had). */
  datatype AnalyticsRecord = AnalyticsRecord(id: nat, userId: nat, fields: map<string, Json>)

  datatype HistoryRecord =
    HistoryRecord(id: nat, userId: nat, conversation: string, timestamp: int, languages: seq<string>)

  // ---------------------------------------------------------------------
  // Queries

  /** `find_one`: the index of the first element satisfying `p`. */
  function FindFirst<T>(xs: seq<T>, p: T -> bool): (r: Option<nat>)
    ensures r.Some? ==> r.value < |xs| && p(xs[r.value]) && forall j :: 0 <= j < r.value ==> !p(xs[j])
    ensures r.None? ==> forall j :: 0 <= j < |xs| ==> !p(xs[j])
    decreases |xs|
  {
    if xs == [] then None
    else if p(xs[0]) then Some(0)
    else match FindFirst(xs[1..], p)
      case Some(i) => Some(i + 1)
      case None => None
  }

  /** The phone number as stored: the country code "91" in front of the ten
      digits. */
  function PhoneKey(phone: string): string
  {
    "91" + phone
  }

  predicate HasPhone(key: string, u: User) { u.phone == Some(key) }

  predicate HasEmail(key: string, u: User) { u.email == JStr(key) }

  /** `find_one({"phone_number": key})` */
  function FindByPhone(users: seq<User>, key: string): (r: Option<User>)
    ensures r.Some? ==> r.value in users && r.value.phone == Some(key)
    ensures r.None? ==> forall u :: u in users ==> u.phone != Some(key)
    ensures r.Some? ==> exists i :: 0 <= i < |users| && users[i] == r.value
                                   && forall j :: 0 <= j < i ==> users[j].phone != Some(key)
  {
    match FindFirst(users, u => HasPhone(key, u))
    case Some(i) => Some(users[i])
    case None => None
  }

  /** `find_one({"email": key})` */
  function FindByEmail(users: seq<User>, key: string): (r: Option<User>)
    ensures r.Some? ==> r.value in users && r.value.email == JStr(key)
    ensures r.None? ==> forall u :: u in users ==> u.email != JStr(key)
    ensures r.Some? ==> exists i :: 0 <= i < |users| && users[i] == r.value
                                   && forall j :: 0 <= j < i ==> users[j].email != JStr(key)
  {
    match FindFirst(users, u => HasEmail(key, u))
    case Some(i) => Some(users[i])
    case None => None
  }

  /** `find_one({"user_id": userId})` on the analytics: its index. */
  function FindAnalytics(records: seq<AnalyticsRecord>, userId: nat): (r: Option<nat>)
    ensures r.Some? ==> r.value < |records| && records[r.value].userId == userId
    ensures r.Some? ==> forall j :: 0 <= j < r.value ==> records[j].userId != userId
    ensures r.None? ==> forall j :: 0 <= j < |records| ==> records[j].userId != userId
  {
    FindFirst(records, (a: AnalyticsRecord) => a.userId == userId)
  }

  // ---------------------------------------------------------------------
  // The documents that are written

  /** `email or user_data.get("email", "")`: the email passed in when it is
      non-empty, otherwise the "email" entry of the reply. */
  function RawEmail(email: Option<string>, data: Reply): Json
  {
    if email.Some? && email.value != [] then JStr(email.value) else Get(data, "email", JStr(""))
  }

  /** The user document of `create_user_from_conversation`. A truthy email
      is lower-cased and stripped; a falsy one is stored as it is; a truthy
      value that is not a string makes `lower()` raise, giving `None`. */
  function UserDoc(phone: Option<string>, email: Option<string>, data: Reply): (r: Option<User>)
    ensures r.None? <==> Truthy(RawEmail(email, data)) && !RawEmail(email, data).JStr?
    ensures email.Some? && email.value != [] ==> r.Some?
    ensures r.Some? ==> r.value.id == 0
    ensures r.Some? ==> r.value.phone == (if phone.Some? && phone.value != [] then Some(PhoneKey(phone.value)) else None)
    ensures r.Some? ==> r.value.name == Get(data, "name", JStr(""))
    ensures r.Some? && !Truthy(RawEmail(email, data)) ==> r.value.email == RawEmail(email, data)
    ensures r.Some? && Truthy(RawEmail(email, data)) ==>
      && r.value.email.JStr? && IsStripped(r.value.email.s) && NoUpper(r.value.email.s)
      && exists a :: CutsTo(LowerStr(RawEmail(email, data).s), r.value.email.s, a, IsSpace, IsSpace)
  {
    var raw := RawEmail(email, data);
    var phoneField := if phone.Some? && phone.value != [] then Some(PhoneKey(phone.value)) else None;
    if !Truthy(raw) then Some(User(0, Get(data, "name", JStr("")), raw, phoneField))
    else if !raw.JStr? then None
    else
      LowerStripCommute(raw.s);
      Some(User(0, Get(data, "name", JStr("")), JStr(Strip(LowerStr(raw.s))), phoneField))
  }

  /** The email a user document is looked up by: its email when that is a
      non-empty string. */
  function EmailKey(u: User): Option<string>
  {
    if u.email.JStr? && u.email.s != [] then Some(u.email.s) else None
  }

  /** The re-check of `create_user_from_conversation` before it inserts
      `doc`: by phone when it has one, then by email when it has one. */
  function Recheck(users: seq<User>, doc: User): (r: Option<User>)
    ensures r.Some? ==> r.value in users
    ensures r.Some? ==> (doc.phone.Some? && r.value.phone == doc.phone) || (EmailKey(doc).Some? && r.value.email == doc.email)
    ensures doc.phone.Some? && FindByPhone(users, doc.phone.value).Some? ==> r == FindByPhone(users, doc.phone.value)
    ensures !(doc.phone.Some? && FindByPhone(users, doc.phone.value).Some?) ==>
      r == (if EmailKey(doc).Some? then FindByEmail(users, EmailKey(doc).value) else None)
    ensures r.None? ==> (doc.phone.Some? ==> forall u :: u in users ==> u.phone != doc.phone)
    ensures r.None? ==> (EmailKey(doc).Some? ==> forall u :: u in users ==> u.email != doc.email)
  {
    var byPhone := if doc.phone.Some? then FindByPhone(users, doc.phone.value) else None;
    if byPhone.Some? then byPhone
    else match EmailKey(doc)
      case Some(key) => FindByEmail(users, key)
      case None => None
  }

  /** The lookup of `process_conversation` before it creates a user: by the
      stored phone number first, then by the normalised email. */
  function Lookup(users: seq<User>, phone: Option<string>, email: Option<string>): (r: Option<User>)
    ensures r.Some? ==> r.value in users
    ensures phone.Some? && phone.value != [] && FindByPhone(users, PhoneKey(phone.value)).Some? ==>
      r == FindByPhone(users, PhoneKey(phone.value))
    ensures !(phone.Some? && phone.value != [] && FindByPhone(users, PhoneKey(phone.value)).Some?) ==>
      r == (if email.Some? && email.value != [] then FindByEmail(users, Strip(LowerStr(email.value))) else None)
    ensures r.None? && phone.Some? && phone.value != [] ==>
      forall u :: u in users ==> u.phone != Some(PhoneKey(phone.value))
    ensures r.None? && email.Some? && email.value != [] ==>
      forall u :: u in users ==> u.email != JStr(Strip(LowerStr(email.value)))
  {
    var byPhone := if phone.Some? && phone.value != [] then FindByPhone(users, PhoneKey(phone.value)) else None;
    if byPhone.Some? then byPhone
    else if email.Some? && email.value != [] then FindByEmail(users, Strip(LowerStr(email.value)))
    else None
  }

  /** The four keys that `$set` writes, besides the user id. */
  function DocFields(doc: AnalyticsDoc): map<string, Json>
  {
    map["country" := doc.country, "intent_level" := JStr(doc.intentLevel), "follow_up" := JBool(doc.followUp)]
  }

  /** `$set`: the document's keys overwritten, every other key kept, and the
      record's id and user unchanged. */
  function SetFields(record: AnalyticsRecord, doc: AnalyticsDoc): (r: AnalyticsRecord)
    ensures r.id == record.id && r.userId == record.userId
    ensures r.fields.Keys == record.fields.Keys + {"country", "intent_level", "follow_up"}
    ensures r.fields["country"] == doc.country && r.fields["intent_level"] == JStr(doc.intentLevel)
    ensures r.fields["follow_up"] == JBool(doc.followUp)
    ensures forall k :: k in record.fields && k !in {"country", "intent_level", "follow_up"} ==>
      r.fields[k] == record.fields[k]
  {
    AnalyticsRecord(record.id, record.userId, record.fields + DocFields(doc))
  }

  /** The upsert of `process_conversation`: the first record of the user is
      updated by `$set`, with `follow_up` taken from `legacyFollowUp` when the
      record has no such key yet; without a record, a new one with id
      `freshId` is appended. */
  function Upsert(records: seq<AnalyticsRecord>, freshId: nat, userId: nat, doc: AnalyticsDoc, legacyFollowUp: bool)
    : (r: seq<AnalyticsRecord>)
    ensures |r| == |records| + (if FindAnalytics(records, userId).Some? then 0 else 1)
    ensures FindAnalytics(r, userId).Some?
    ensures forall j :: 0 <= j < |records| && records[j].userId != userId ==> r[j] == records[j]
  {
    match FindAnalytics(records, userId)
    case Some(i) =>
      var doc' := if "follow_up" !in records[i].fields then doc.(followUp := legacyFollowUp) else doc;
      var r := records[i := SetFields(records[i], doc')];
      assert r[i].userId == userId;
      r
    case None =>
      var r := records + [AnalyticsRecord(freshId, userId, DocFields(doc))];
      assert r[|records|].userId == userId;
      r
  }

  // ---------------------------------------------------------------------
  // Properties of the store

  predicate AllBelow(users: seq<User>, analytics: seq<AnalyticsRecord>, history: seq<HistoryRecord>, bound: nat)
  {
    && (forall i :: 0 <= i < |users| ==> users[i].id < bound)
    && (forall i :: 0 <= i < |analytics| ==> analytics[i].id < bound)
    && (forall i :: 0 <= i < |history| ==> history[i].id < bound)
  }

  /** No two users share a stored phone number or a non-empty email. */
  predicate UniqueUsers(users: seq<User>)
  {
    && (forall i, j :: 0 <= i < j < |users| && users[i].phone.Some? ==> users[i].phone != users[j].phone)
    && (forall i, j :: 0 <= i < j < |users| && EmailKey(users[i]).Some? ==> users[i].email != users[j].email)
  }

  /** No two analytics records belong to the same user. */
  predicate OnePerUser(records: seq<AnalyticsRecord>)
  {
    forall i, j :: 0 <= i < j < |records| ==> records[i].userId != records[j].userId
  }

  /** Inserting a user that the re-check did not find keeps the users
      unique. */
  lemma InsertKeepsUnique(users: seq<User>, doc: User)
    requires UniqueUsers(users) && Recheck(users, doc).None?
    ensures UniqueUsers(users + [doc])
  {
    var s := users + [doc];
    forall i, j | 0 <= i < j < |s| && s[i].phone.Some? ensures s[i].phone != s[j].phone {
      if j == |users| {
        assert s[i] in users;
      }
    }
    forall i, j | 0 <= i < j < |s| && EmailKey(s[i]).Some? ensures s[i].email != s[j].email {
      if j == |users| {
        assert s[i] in users;
        if EmailKey(doc).None? {
          assert EmailKey(s[i]).Some?;
        }
      }
    }
  }

  /** A user inserted after a re-check that found nobody is what the next
      lookup by its phone number finds. */
  lemma InsertedFoundByPhone(users: seq<User>, doc: User)
    requires Recheck(users, doc).None? && doc.phone.Some?
    ensures FindByPhone(users + [doc], doc.phone.value) == Some(doc)
  {
    assert doc in users + [doc];
  }

  /** A user inserted after a re-check that found nobody is what the next
      lookup by its email finds. */
  lemma InsertedFoundByEmail(users: seq<User>, doc: User)
    requires Recheck(users, doc).None? && EmailKey(doc).Some?
    ensures FindByEmail(users + [doc], EmailKey(doc).value) == Some(doc)
  {
    assert doc in users + [doc];
  }

  /** In a store with unique phone numbers, the user holding a number is
      what the lookup by that number returns, whatever email comes with it:
      a second conversation from the same phone finds the same user. */
  lemma LookupFindsPhoneHolder(users: seq<User>, phone: string, email: Option<string>, u: User)
    requires UniqueUsers(users) && phone != []
    requires u in users && u.phone == Some(PhoneKey(phone))
    ensures Lookup(users, Some(phone), email) == Some(u)
  {
    var found := FindByPhone(users, PhoneKey(phone));
    var i :| 0 <= i < |users| && users[i] == found.value
             && forall j :: 0 <= j < i ==> users[j].phone != Some(PhoneKey(phone));
    var k :| 0 <= k < |users| && users[k] == u;
  }

  /** When the phone number is new but the email of the reply belongs to a
      known user, the re-check returns that user, whose stored phone number
      is not the caller's: the new number is recorded nowhere. */
  lemma RecheckByEmailOnPhonePath(users: seq<User>, doc: User, other: User)
    requires doc.phone.Some? && EmailKey(doc).Some?
    requires forall u :: u in users ==> u.phone != doc.phone
    requires other in users && other.email == doc.email
    ensures Recheck(users, doc).Some? && Recheck(users, doc).value.phone != doc.phone
    ensures Recheck(users, doc).value.email == doc.email
  {
  }

  /** The upsert keeps at most one record per user, and leaves exactly one
      record for `userId`. */
  lemma UpsertOnePerUser(records: seq<AnalyticsRecord>, freshId: nat, userId: nat, doc: AnalyticsDoc, legacy: bool)
    requires OnePerUser(records)
    ensures var r := Upsert(records, freshId, userId, doc, legacy);
      OnePerUser(r) && exists i :: 0 <= i < |r| && r[i].userId == userId
  {
    var r := Upsert(records, freshId, userId, doc, legacy);
    match FindAnalytics(records, userId)
    case Some(i) =>
      assert r[i].userId == userId;
    case None =>
      assert r[|records|].userId == userId;
  }

  /** An existing record keeps its id and every field the upsert does not
      write; the other records are untouched. */
  lemma UpsertKeepsExisting(records: seq<AnalyticsRecord>, freshId: nat, userId: nat, doc: AnalyticsDoc,
                            legacy: bool, i: nat)
    requires i < |records| && records[i].userId == userId && OnePerUser(records)
    ensures var r := Upsert(records, freshId, userId, doc, legacy);
      && |r| == |records| && r[i].id == records[i].id
      && (forall k :: k in records[i].fields && k !in {"country", "intent_level", "follow_up"} ==>
            k in r[i].fields && r[i].fields[k] == records[i].fields[k])
      && r[i].fields["country"] == doc.country && r[i].fields["intent_level"] == JStr(doc.intentLevel)
      && (forall j :: 0 <= j < |records| && j != i ==> r[j] == records[j])
  {
    assert FindAnalytics(records, userId) == Some(i);
  }

  /** A record that already has `follow_up` gets the newly derived value; a
      legacy record without it gets the value from the second detection. */
  lemma UpsertFollowUp(records: seq<AnalyticsRecord>, freshId: nat, userId: nat, doc: AnalyticsDoc,
                       legacy: bool, i: nat)
    requires i < |records| && records[i].userId == userId && OnePerUser(records)
    ensures var r := Upsert(records, freshId, userId, doc, legacy);
      r[i].fields["follow_up"] == JBool(if "follow_up" in records[i].fields then doc.followUp else legacy)
  {
    UpsertKeepsExisting(records, freshId, userId, doc, legacy, i);
  }

  /** A user without a record gets one new record, with the fresh id. */
  lemma UpsertInserts(records: seq<AnalyticsRecord>, freshId: nat, userId: nat, doc: AnalyticsDoc, legacy: bool)
    requires forall j :: 0 <= j < |records| ==> records[j].userId != userId
    ensures Upsert(records, freshId, userId, doc, legacy)
         == records + [AnalyticsRecord(freshId, userId, DocFields(doc))]
  {
  }

  /** Upserting the same document twice is upserting it once, unless the
      first upsert met a legacy record and filled in a different
      `follow_up`, which the second replaces. */
  lemma UpsertIdempotent(records: seq<AnalyticsRecord>, freshId: nat, userId: nat, doc: AnalyticsDoc, legacy: bool)
    requires OnePerUser(records)
    requires legacy == doc.followUp
    ensures var once := Upsert(records, freshId, userId, doc, legacy);
      Upsert(once, freshId, userId, doc, legacy) == once
  {
    var once := Upsert(records, freshId, userId, doc, legacy);
    UpsertOnePerUser(records, freshId, userId, doc, legacy);
    var i :| 0 <= i < |once| && once[i].userId == userId;
    UpsertedHoldsDoc(records, freshId, userId, doc, legacy, i);
    assert FindAnalytics(once, userId) == Some(i);
    assert SetFields(once[i], doc) == once[i];
  }

  /** After an upsert whose legacy fill-in agrees with the document, the
      user's record already holds every field of the document. */
  lemma UpsertedHoldsDoc(records: seq<AnalyticsRecord>, freshId: nat, userId: nat, doc: AnalyticsDoc,
                         legacy: bool, i: nat)
    requires OnePerUser(records)
    requires legacy == doc.followUp
    requires var once := Upsert(records, freshId, userId, doc, legacy); i < |once| && once[i].userId == userId
    ensures var once := Upsert(records, freshId, userId, doc, legacy);
      once[i].fields + DocFields(doc) == once[i].fields
  {
    var once := Upsert(records, freshId, userId, doc, legacy);
    UpsertOnePerUser(records, freshId, userId, doc, legacy);
    match FindAnalytics(records, userId)
    case Some(k) =>
      assert once[k].userId == userId;
      assert k == i;
    case None =>
      assert i == |records|;
  }


  // ---------------------------------------------------------------------
  // The collections

  /** Why `process_conversation` answers with an error: a blank
      conversation (400), neither a phone number nor an email (400), the user
      could not be created (500), the analytics could not be generated
      (500). */
  datatype Error = BlankConversation | NoContact | UserCreationFailed | AnalyticsFailed

  datatype Result<T, E> = Success(value: T) | Failure(error: E)

  /** `process_conversation` fails with "Failed to create user": the
      lookup finds nobody, and the reply of the language model is missing or
      its email cannot be lower-cased. */
  predicate CreationFails(users: seq<User>, phone: Option<string>, email: Option<string>, userReply: Option<Reply>)
  {
    Lookup(users, phone, email).None? && (userReply.None? || UserDoc(phone, email, userReply.value).None?)
  }

  /** The caller is not known yet and the reply gives a document that
      the re-check does not find either: the document is inserted. */
  predicate Creates(users: seq<User>, phone: Option<string>, email: Option<string>, userReply: Option<Reply>)
  {
    && Lookup(users, phone, email).None? && userReply.Some?
    && UserDoc(phone, email, userReply.value).Some?
    && Recheck(users, UserDoc(phone, email, userReply.value).value).None?
  }

  /** The user lines 659-676 settle on: the one the lookup finds; else the
      one the re-check finds for the reply's document, or that document
      with the id `nextId`; nobody when there is no usable document. */
  function Caller(users: seq<User>, nextId: nat, phone: Option<string>, email: Option<string>,
                  userReply: Option<Reply>): (r: Option<User>)
    ensures r.None? <==> CreationFails(users, phone, email, userReply)
    ensures Lookup(users, phone, email).Some? ==> r == Lookup(users, phone, email)
    ensures Creates(users, phone, email, userReply) ==> r.Some? && r.value.id == nextId
    ensures r.Some? && !Creates(users, phone, email, userReply) ==> r.value in users
  {
    if Lookup(users, phone, email).Some? then Lookup(users, phone, email)
    else if userReply.None? || UserDoc(phone, email, userReply.value).None? then None
    else
      var doc := UserDoc(phone, email, userReply.value).value;
      if Recheck(users, doc).Some? then Recheck(users, doc) else Some(doc.(id := nextId))
  }

  /** The users once the caller is settled: the new document is appended
      when one is created, and nothing changes otherwise. */
  function CallerUsers(users: seq<User>, nextId: nat, phone: Option<string>, email: Option<string>,
                       userReply: Option<Reply>): (r: seq<User>)
    ensures Creates(users, phone, email, userReply) ==> r == users + [Caller(users, nextId, phone, email, userReply).value]
    ensures !Creates(users, phone, email, userReply) ==> r == users
  {
    if Creates(users, phone, email, userReply) then users + [Caller(users, nextId, phone, email, userReply).value]
    else users
  }

  /** Settling the caller keeps every user, adds at most one, and leaves
      the settled caller among the users. */
  lemma CallerAmongUsers(users: seq<User>, nextId: nat, phone: Option<string>, email: Option<string>,
                         userReply: Option<Reply>)
    ensures var after := CallerUsers(users, nextId, phone, email, userReply);
      && users <= after && |after| <= |users| + 1
      && (Caller(users, nextId, phone, email, userReply).Some? ==> Caller(users, nextId, phone, email, userReply).value in after)
  {
  }

  /** The user, analytics and history documents the response reports. */
  datatype Response = Response(user: User, analytics: AnalyticsRecord, history: HistoryRecord)

  /** An analytics record holds the intent level and the country the
      reply gives. */
  predicate Describes(record: AnalyticsRecord, data: Reply)
  {
    && "intent_level" in record.fields && "country" in record.fields
    && record.fields["intent_level"] == JStr(IntentLevel(data))
    && record.fields["country"] == Country(data)
  }

  /** The history entry a successful call reports is the one it appended:
      the normalised conversation, with the languages and the time, for the
      reported user, under the last id the counter handed out. */
  predicate Appended(resp: Response, conversation: string, languages: seq<string>, now: int,
                     before: seq<HistoryRecord>, history: seq<HistoryRecord>, nextId: nat)
  {
    && history == before + [resp.history]
    && resp.history.conversation == NormalizedConversation(conversation)
    && resp.history.languages == languages
    && resp.history.timestamp == now && resp.history.id + 1 == nextId
    && resp.history.userId == resp.user.id
  }

  /** `process_conversation` lines 624-640: reject a blank conversation,
      then take the phone number, or failing that the email, as the caller's
      contact; neither is an error. */
  function Contact(conversation: string, phoneReply: Option<string>, emailReply: Option<string>)
    : (r: Result<(Option<string>, Option<string>), Error>)
    ensures r == Failure(BlankConversation) <==> Strip(conversation) == []
    ensures Strip(conversation) != [] ==>
      (r == Failure(NoContact) <==> ExtractPhoneNumber(phoneReply).None? && ExtractEmail(emailReply).None?)
    ensures r.Failure? ==> r == Failure(BlankConversation) || r == Failure(NoContact)
    ensures r.Success? ==> var (phone, email) := r.value;
      && phone == ExtractPhoneNumber(phoneReply)
      && (phone.Some? ==> email.None?)
      && (phone.None? ==> email.Some? && email == ExtractEmail(emailReply))
  {
    if Strip(conversation) == [] then Failure(BlankConversation)
    else
      var phone := ExtractPhoneNumber(phoneReply);
      if phone.Some? then Success((phone, None))
      else
        var email := ExtractEmail(emailReply);
        if email.None? then Failure(NoContact) else Success((None, email))
  }

  class Database {
    var users: seq<User>
    var analytics: seq<AnalyticsRecord>
    var history: seq<HistoryRecord>
    /** The next fresh id. */
    var nextId: nat

    /** Every id was handed out by the counter, users are unique by phone
        and by non-empty email, and each user has at most one analytics
        record. */
    predicate Valid()
      reads this
    {
      AllBelow(users, analytics, history, nextId) && UniqueUsers(users) && OnePerUser(analytics)
    }

    constructor()
      ensures Valid()
      ensures users == [] && analytics == [] && history == [] && nextId == 0
    {
      users := [];
      analytics := [];
      history := [];
      nextId := 0;
    }

    /** The store logic of `create_user_from_conversation`: build the
        document, return an existing user found by phone or by email, and
        otherwise insert the document with a fresh id. `userReply` is the
        decoded reply of the language model, `None` when it raised. */
    method CreateUser(phone: Option<string>, email: Option<string>, userReply: Option<Reply>)
      returns (u: Option<User>)
      requires Valid()
      modifies this
      ensures Valid()
      ensures analytics == old(analytics) && history == old(history)
      ensures userReply.None? ==> u.None? && users == old(users) && nextId == old(nextId)
      ensures userReply.Some? && UserDoc(phone, email, userReply.value).None? ==>
        u.None? && users == old(users) && nextId == old(nextId)
      ensures userReply.Some? && UserDoc(phone, email, userReply.value).Some? ==>
        var doc := UserDoc(phone, email, userReply.value).value;
        && (Recheck(old(users), doc).Some? ==>
              u == Recheck(old(users), doc) && users == old(users) && nextId == old(nextId))
        && (Recheck(old(users), doc).None? ==>
              && u == Some(doc.(id := old(nextId)))
              && users == old(users) + [u.value] && nextId == old(nextId) + 1)
    {
      if userReply.None? {
        return None;
      }
      var doc := UserDoc(phone, email, userReply.value);
      if doc.None? {
        return None;
      }
      var existing := Recheck(users, doc.value);
      if existing.Some? {
        return existing;
      }
      var created := doc.value.(id := nextId);
      assert Recheck(users, created) == Recheck(users, doc.value);
      InsertKeepsUnique(users, created);
      users := users + [created];
      nextId := nextId + 1;
      u := Some(created);
    }

    /** `process_conversation` lines 659-676: look the caller up by phone,
        then by email; create them only if neither finds a user. A found
        user is returned as it is and the store does not change. */
    method FindOrCreateUser(phone: Option<string>, email: Option<string>, userReply: Option<Reply>)
      returns (u: Option<User>)
      requires Valid()
      modifies this
      ensures Valid()
      ensures analytics == old(analytics) && history == old(history)
      ensures u.Some? ==> u.value in users
      ensures Lookup(old(users), phone, email).Some? ==>
        u == Lookup(old(users), phone, email) && users == old(users) && nextId == old(nextId)
      ensures users == old(users) || (u.Some? && users == old(users) + [u.value] && u.value.id == old(nextId))
      ensures nextId == old(nextId) + (|users| - |old(users)|)
      ensures users != old(users) && phone.Some? && phone.value != [] ==>
        u.value.phone == Some(PhoneKey(phone.value))
      ensures u.None? <==> CreationFails(old(users), phone, email, userReply)
      ensures CreationFails(old(users), phone, email, userReply) ==> users == old(users)
      ensures Lookup(old(users), phone, email).None? && userReply.Some? && UserDoc(phone, email, userReply.value).Some? ==>
        var doc := UserDoc(phone, email, userReply.value).value;
        && (Recheck(old(users), doc).Some? ==> u == Recheck(old(users), doc) && users == old(users))
        && (Recheck(old(users), doc).None? ==> u == Some(doc.(id := old(nextId))) && users == old(users) + [u.value])
      ensures u == Caller(old(users), old(nextId), phone, email, userReply)
      ensures users == CallerUsers(old(users), old(nextId), phone, email, userReply)
    {
      var found := Lookup(users, phone, email);
      if found.Some? {
        return found;
      }
      u := CreateUser(phone, email, userReply);
    }

    /** `process_conversation` lines 694-721: update the user's analytics
        record with `$set`, or insert a new one. `followUpAgain` is the reply
        of the second follow-up detection, made only for a record without a
        `follow_up` key. */
    method UpsertAnalytics(userId: nat, doc: AnalyticsDoc, followUpAgain: Option<Reply>)
      returns (record: AnalyticsRecord)
      requires Valid()
      modifies this
      ensures Valid()
      ensures analytics == Upsert(old(analytics), old(nextId), userId, doc, FollowUp(followUpAgain))
      ensures record.userId == userId && record in analytics
      ensures "country" in record.fields && "intent_level" in record.fields && "follow_up" in record.fields
      ensures record.fields["country"] == doc.country && record.fields["intent_level"] == JStr(doc.intentLevel)
      ensures users == old(users) && history == old(history)
      ensures nextId == old(nextId) + (if FindAnalytics(old(analytics), userId).Some? then 0 else 1)
    {
      UpsertOnePerUser(analytics, nextId, userId, doc, FollowUp(followUpAgain));
      var existing := FindAnalytics(analytics, userId);
      match existing {
        case Some(i) =>
          var doc' := doc;
          if "follow_up" !in analytics[i].fields {
            doc' := doc.(followUp := FollowUp(followUpAgain));
          }
          record := SetFields(analytics[i], doc');
          analytics := analytics[i := record];
        case None =>
          record := AnalyticsRecord(nextId, userId, DocFields(doc));
          analytics := analytics + [record];
          nextId := nextId + 1;
      }
    }

    /** `process_conversation` lines 728-742: append the normalised
        conversation, with the time of the call and the detected languages. */
    method AppendHistory(userId: nat, conversation: string, now: int, languages: seq<string>)
      returns (record: HistoryRecord)
      requires Valid()
      modifies this
      ensures Valid()
      ensures record == HistoryRecord(old(nextId), userId, NormalizedConversation(conversation), now, languages)
      ensures history == old(history) + [record] && nextId == old(nextId) + 1
      ensures users == old(users) && analytics == old(analytics)
    {
      var normalized := NormalizeConversationTags(conversation);
      record := HistoryRecord(nextId, userId, normalized, now, languages);
      history := history + [record];
      nextId := nextId + 1;
    }

    /** `process_conversation`, with every reply of the language model passed
        in (`None` when that call raised) and the current time as `now`.
        `freshId` is the counter once the caller is found or created: the
        id a new analytics record of this call takes; `contact` is what the
        phone and email step settles on. */
    method Process(conversation: string, phoneReply: Option<string>, emailReply: Option<string>,
                   languagesReply: Option<Reply>, userReply: Option<Reply>, analyticsReply: Option<Reply>,
                   followUpReply: Option<Reply>, followUpAgainReply: Option<Reply>, now: int)
      returns (r: Result<Response, Error>, ghost freshId: nat,
               ghost contact: Result<(Option<string>, Option<string>), Error>)
      requires Valid()
      modifies this
      ensures Valid()
      ensures contact == Contact(conversation, phoneReply, emailReply)
      ensures freshId == old(nextId) + (|users| - |old(users)|)
      ensures contact.Failure? ==>
        r == Failure(contact.error)
        && users == old(users) && analytics == old(analytics) && history == old(history) && nextId == old(nextId)
      ensures r.Failure? ==> history == old(history) && analytics == old(analytics)
      ensures contact.Success? ==>
        && (r == Failure(UserCreationFailed) <==> CreationFails(old(users), contact.value.0, contact.value.1, userReply))
        && (r == Failure(AnalyticsFailed) <==> !CreationFails(old(users), contact.value.0, contact.value.1, userReply) && analyticsReply.None?)
        && (r.Success? ==> Caller(old(users), old(nextId), contact.value.0, contact.value.1, userReply) == Some(r.value.user))
        && users == CallerUsers(old(users), old(nextId), contact.value.0, contact.value.1, userReply)
        && (r.Success? && Lookup(old(users), contact.value.0, contact.value.1).Some? ==> r.value.user == Lookup(old(users), contact.value.0, contact.value.1).value)
      ensures users == old(users) || (|users| == |old(users)| + 1 && users[..|old(users)|] == old(users))
      ensures r.Failure? ==> nextId == old(nextId) + (|users| - |old(users)|)
      ensures r.Success? ==> analyticsReply.Some? && contact.Success?
      ensures r.Success? ==>
        && analytics == Upsert(old(analytics), freshId, r.value.user.id,
                               GenerateAnalytics(analyticsReply, followUpReply).value, FollowUp(followUpAgainReply))
        && nextId == freshId + (|analytics| - |old(analytics)|) + 1
        && (users != old(users) ==> users == old(users) + [r.value.user])
      ensures r.Success? ==>
        var resp := r.value;
        && Appended(resp, conversation, DetectLanguages(languagesReply), now, old(history), history, nextId)
        && resp.user in users && resp.analytics in analytics
        && resp.analytics.userId == resp.user.id
        && analyticsReply.Some? && Describes(resp.analytics, analyticsReply.value)
    {
      var found := Contact(conversation, phoneReply, emailReply);
      contact := found;
      if found.Failure? {
        return Failure(found.error), nextId, contact;
      }
      r, freshId := ProcessCaller(conversation, found.value.0, found.value.1, languagesReply, userReply,
                                  analyticsReply, followUpReply, followUpAgainReply, now);
    }

    /** `process_conversation` from line 648 on, once the caller's phone
        number or email is known; `freshId` as in `Process`. */
    method ProcessCaller(conversation: string, phone: Option<string>, email: Option<string>,
                         languagesReply: Option<Reply>, userReply: Option<Reply>, analyticsReply: Option<Reply>,
                         followUpReply: Option<Reply>, followUpAgainReply: Option<Reply>, now: int)
      returns (r: Result<Response, Error>, ghost freshId: nat)
      requires Valid()
      modifies this
      ensures Valid()
      ensures freshId == old(nextId) + (|users| - |old(users)|)
      ensures r.Failure? ==> history == old(history) && (r.error == UserCreationFailed || r.error == AnalyticsFailed)
      ensures r == Failure(UserCreationFailed) <==> CreationFails(old(users), phone, email, userReply)
      ensures r == Failure(AnalyticsFailed) <==> !CreationFails(old(users), phone, email, userReply) && analyticsReply.None?
      ensures users == old(users) || (|users| == |old(users)| + 1 && users[..|old(users)|] == old(users))
      ensures r == Failure(UserCreationFailed) ==> users == old(users) && nextId == old(nextId)
      ensures r.Failure? ==> analytics == old(analytics) && nextId == old(nextId) + (|users| - |old(users)|)
      ensures r.Success? ==> analyticsReply.Some?
      ensures r.Success? ==>
        && analytics == Upsert(old(analytics), freshId, r.value.user.id,
                               GenerateAnalytics(analyticsReply, followUpReply).value, FollowUp(followUpAgainReply))
        && nextId == freshId + (|analytics| - |old(analytics)|) + 1
        && (users != old(users) ==> users == old(users) + [r.value.user])
      ensures r.Success? ==>
        var resp := r.value;
        && Appended(resp, conversation, DetectLanguages(languagesReply), now, old(history), history, nextId)
        && resp.user in users && resp.analytics in analytics
        && resp.analytics.userId == resp.user.id
        && analyticsReply.Some? && Describes(resp.analytics, analyticsReply.value)
      ensures r.Success? && Lookup(old(users), phone, email).Some? ==>
        r.value.user == Lookup(old(users), phone, email).value
      ensures r.Success? ==> Caller(old(users), old(nextId), phone, email, userReply) == Some(r.value.user)
      ensures users == CallerUsers(old(users), old(nextId), phone, email, userReply)
    {
      var languages := DetectLanguages(languagesReply);
      var user := FindOrCreateUser(phone, email, userReply);
      freshId := nextId;
      if user.None? {
        return Failure(UserCreationFailed), freshId;
      }
      r := RecordConversation(user.value, conversation, languages, analyticsReply, followUpReply,
                              followUpAgainReply, now, old(analytics), freshId);
    }

    /** `process_conversation` from line 678 on, once the user is known:
        generate the analytics, upsert them, and append the history entry.
        `before` and `freshId` name the analytics and the counter on entry. */
    method RecordConversation(user: User, conversation: string, languages: seq<string>,
                              analyticsReply: Option<Reply>, followUpReply: Option<Reply>,
                              followUpAgainReply: Option<Reply>, now: int,
                              ghost before: seq<AnalyticsRecord>, ghost freshId: nat)
      returns (r: Result<Response, Error>)
      requires Valid() && user in users
      requires analytics == before && nextId == freshId
      modifies this
      ensures Valid()
      ensures users == old(users)
      ensures r.Failure? <==> analyticsReply.None?
      ensures r.Failure? ==>
        r.error == AnalyticsFailed && analytics == old(analytics) && history == old(history) && nextId == old(nextId)
      ensures r.Success? ==>
        var resp := r.value;
        && resp.user == user
        && analytics == Upsert(before, freshId, resp.user.id,
                               GenerateAnalytics(analyticsReply, followUpReply).value, FollowUp(followUpAgainReply))
        && nextId == freshId + (|analytics| - |before|) + 1
        && Appended(resp, conversation, languages, now, old(history), history, nextId)
        && resp.analytics in analytics
        && resp.analytics.userId == user.id
        && analyticsReply.Some? && Describes(resp.analytics, analyticsReply.value)
    {
      var doc := GenerateAnalytics(analyticsReply, followUpReply);
      if doc.None? {
        return Failure(AnalyticsFailed);
      }
      var record := UpsertAnalytics(user.id, doc.value, followUpAgainReply);
      var entry := AppendHistory(user.id, conversation, now, languages);
      r := Success(Response(user, record, entry));
    }
  }
}

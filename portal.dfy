/** The access-key side of the API server (backend/server.py): key validation and the
    user session it creates, the course listing and detail a key may see, generation of
    keys in batches and their delivery by mail. The `access_keys` collection is a map from
    key string to key document, `users` and `courses` are sequences in insertion order.
    Random keys and uuids come in as parameters; the clock is the parameter `now`, in
    seconds. */
module Portal {
  import opened Wrappers
  import opened Models
  import Seqs
  import Text
  import Email

  const AccessTokenExpireMinutes := 30
  const DefaultTokenSeconds := 15 * 60
  const SecondsPerDay := 86400
  const MaxKeysPerBatch := 100
  const MaxRecipientsPerBatch := 50

  const InvalidKeyMessage := "Ungültiger oder inaktiver Access-Key"
  const ExpiredKeyMessage := "Access-Key ist abgelaufen"
  const LimitReachedMessage := "Access-Key hat das Nutzungslimit erreicht"
  const ValidatedMessage := "Access-Key erfolgreich validiert"

  /** An error raised as an HTTPException: status code and detail. */
  datatype HttpError = HttpError(status: int, detail: string)

  // ---------------------------------------------------------------- tokens

  /** The claims of a JWT the server issues: subject and expiry time. Signing is not
      modelled. */
  datatype Token = Token(subject: string, expiresAt: int)

  /** create_access_token's expiry: `now` plus the given delta, or plus 15 minutes when
      no delta (or a zero one) is given. */
  function TokenExpiry(now: int, delta: Option<int>): (e: int)
    ensures delta.Some? && delta.value != 0 ==> e == now + delta.value
    ensures delta.None? || delta.value == 0 ==> e == now + DefaultTokenSeconds
  {
    if delta.Some? && delta.value != 0 then now + delta.value else now + DefaultTokenSeconds
  }

  function CreateAccessToken(subject: string, now: int, delta: Option<int>): (t: Token)
    ensures t.subject == subject && t.expiresAt == TokenExpiry(now, delta)
  {
    Token(subject, TokenExpiry(now, delta))
  }

  // ---------------------------------------------------------------- validation

  /** The key has an expiry date and it lies strictly before `now`. */
  predicate Expired(k: AccessKey, now: int) {
    k.expiresAt.Some? && k.expiresAt.value < now
  }

  /** The key has a non-zero usage limit and has been used that often. A limit of 0
      counts as no limit. */
  predicate LimitReached(k: AccessKey) {
    k.maxUsage.Some? && k.maxUsage.value != 0 && k.usageCount >= k.maxUsage.value
  }

  datatype Admission = Admitted | Refused(message: string)

  /** The checks of validate_access_key, in their order: unknown or inactive, expired,
      usage limit reached. */
  function Admit(keys: map<string, AccessKey>, candidate: string, now: int): (r: Admission)
    ensures r == Refused(InvalidKeyMessage) <==> candidate !in keys || !keys[candidate].isActive
    ensures r == Refused(ExpiredKeyMessage) <==>
      candidate in keys && keys[candidate].isActive && Expired(keys[candidate], now)
    ensures r == Refused(LimitReachedMessage) <==>
      candidate in keys && keys[candidate].isActive && !Expired(keys[candidate], now) && LimitReached(keys[candidate])
    ensures r == Admitted <==>
      candidate in keys && keys[candidate].isActive && !Expired(keys[candidate], now) && !LimitReached(keys[candidate])
  {
    if candidate !in keys || !keys[candidate].isActive then Refused(InvalidKeyMessage)
    else if Expired(keys[candidate], now) then Refused(ExpiredKeyMessage)
    else if LimitReached(keys[candidate]) then Refused(LimitReachedMessage)
    else Admitted
  }

  /** The key table after one validation attempt: one more use of an admitted key. */
  function Redeem(keys: map<string, AccessKey>, candidate: string, now: int): (r: map<string, AccessKey>)
    ensures r.Keys == keys.Keys
    ensures forall k :: k in keys && k != candidate ==> r[k] == keys[k]
    ensures Admit(keys, candidate, now) == Admitted ==>
      r[candidate] == keys[candidate].(usageCount := keys[candidate].usageCount + 1)
    ensures Admit(keys, candidate, now) != Admitted ==> r == keys
  {
    if Admit(keys, candidate, now) == Admitted
    then keys[candidate := keys[candidate].(usageCount := keys[candidate].usageCount + 1)]
    else keys
  }

  /** A key with a positive usage limit never counts more uses than the limit. */
  predicate WithinLimit(k: AccessKey) {
    k.usageCount >= 0 && (k.maxUsage.Some? && k.maxUsage.value > 0 ==> k.usageCount <= k.maxUsage.value)
  }

  predicate KeysWellFormed(keys: map<string, AccessKey>) {
    forall k :: k in keys ==> keys[k].key == k && WithinLimit(keys[k])
  }

  /** Validation keeps every key within its usage limit. */
  lemma RedeemKeepsLimits(keys: map<string, AccessKey>, candidate: string, now: int)
    requires KeysWellFormed(keys)
    ensures KeysWellFormed(Redeem(keys, candidate, now))
  {
    var r := Redeem(keys, candidate, now);
    forall k | k in r ensures r[k].key == k && WithinLimit(r[k]) {
      assert k in keys;
    }
  }

  /** A usage limit of 0 means unlimited: an active, unexpired key with it is admitted
      however often it was used. */
  lemma ZeroLimitIsUnlimited(keys: map<string, AccessKey>, candidate: string, now: int)
    requires candidate in keys && keys[candidate].isActive && !Expired(keys[candidate], now)
    requires keys[candidate].maxUsage == Some(0) || keys[candidate].maxUsage == None
    ensures Admit(keys, candidate, now) == Admitted
  {
  }

  /** An expiry date equal to `now` has not passed yet. */
  lemma ExpiryIsExclusive(k: AccessKey, now: int)
    requires k.expiresAt == Some(now)
    ensures !Expired(k, now)
  {
  }

  /** The number of admitted attempts in a run of validations. */
  function Admissions(keys: map<string, AccessKey>, attempts: seq<(string, int)>, target: string): (n: nat)
    decreases |attempts|
  {
    if |attempts| == 0 then 0
    else
      var (c, t) := attempts[0];
      (if c == target && Admit(keys, c, t) == Admitted then 1 else 0)
      + Admissions(Redeem(keys, c, t), attempts[1..], target)
  }

  function RedeemAll(keys: map<string, AccessKey>, attempts: seq<(string, int)>): map<string, AccessKey>
    decreases |attempts|
  {
    if |attempts| == 0 then keys
    else RedeemAll(Redeem(keys, attempts[0].0, attempts[0].1), attempts[1..])
  }

  /** Over any run of validations, each admission of a key adds exactly one to its usage
      count, so a key with usage limit m > 0 is admitted at most m - usage times. */
  lemma {:induction false} AdmissionsCountUsage(keys: map<string, AccessKey>, attempts: seq<(string, int)>, target: string)
    requires KeysWellFormed(keys) && target in keys
    ensures target in RedeemAll(keys, attempts)
    ensures RedeemAll(keys, attempts)[target].usageCount
            == keys[target].usageCount + Admissions(keys, attempts, target)
    ensures keys[target].maxUsage.Some? && keys[target].maxUsage.value > 0 ==>
      Admissions(keys, attempts, target) <= keys[target].maxUsage.value - keys[target].usageCount
    decreases |attempts|
  {
    if |attempts| > 0 {
      var (c, t) := attempts[0];
      var next := Redeem(keys, c, t);
      RedeemKeepsLimits(keys, c, t);
      AdmissionsCountUsage(next, attempts[1..], target);
      assert next[target].maxUsage == keys[target].maxUsage;
      var fin := RedeemAll(next, attempts[1..]);
      assert KeysWellFormed(fin) by {
        RedeemAllKeepsLimits(next, attempts[1..]);
      }
      assert WithinLimit(fin[target]);
    }
  }

  lemma {:induction false} RedeemAllKeepsLimits(keys: map<string, AccessKey>, attempts: seq<(string, int)>)
    requires KeysWellFormed(keys)
    ensures KeysWellFormed(RedeemAll(keys, attempts))
    ensures RedeemAll(keys, attempts).Keys == keys.Keys
    decreases |attempts|
  {
    if |attempts| > 0 {
      RedeemKeepsLimits(keys, attempts[0].0, attempts[0].1);
      RedeemAllKeepsLimits(Redeem(keys, attempts[0].0, attempts[0].1), attempts[1..]);
    }
  }

  // ---------------------------------------------------------------- users

  predicate OneUserPerKey(users: seq<User>) {
    forall i, j :: 0 <= i < j < |users| ==> users[i].accessKey != users[j].accessKey
  }

  function FindUser(users: seq<User>, key: string): (r: Option<nat>)
    ensures r.Some? ==> r.value < |users| && users[r.value].accessKey == key
    ensures r.None? <==> forall j :: 0 <= j < |users| ==> users[j].accessKey != key
  {
    Seqs.FirstIndex(users, (u: User) => u.accessKey == key)
  }

  /** The session part of validate_access_key: stamp `last_login` on the key's user, or
      insert a new user for the key. */
  function Login(users: seq<User>, key: string, userId: string, now: int): seq<User> {
    match FindUser(users, key)
    case Some(i) => users[i := users[i].(lastLogin := Some(now))]
    case None => users + [User(userId, None, key, now, Some(now))]
  }

  /** After a login the key has exactly one user, logged in at `now`; an existing user
      keeps its id and creation time; users of other keys are untouched. */
  lemma LoginEffect(users: seq<User>, key: string, userId: string, now: int)
    requires OneUserPerKey(users)
    ensures var r := Login(users, key, userId, now);
      && OneUserPerKey(r)
      && FindUser(r, key).Some?
      && r[FindUser(r, key).value].lastLogin == Some(now)
      && (FindUser(users, key).Some? ==>
            var u := users[FindUser(users, key).value];
            r[FindUser(r, key).value] == u.(lastLogin := Some(now)))
      && (FindUser(users, key).None? ==> r[FindUser(r, key).value] == User(userId, None, key, now, Some(now)))
      && (forall u: User :: u.accessKey != key ==> (u in r <==> u in users))
  {
    var r := Login(users, key, userId, now);
    match FindUser(users, key)
    case Some(i) =>
      assert r[i].accessKey == key;
      assert FindUser(r, key) == Some(i) by {
        var f := FindUser(r, key);
        assert f.Some?;
        assert r[f.value].accessKey == r[i].accessKey;
      }
      forall u: User | u.accessKey != key ensures u in r <==> u in users {
        if u in users {
          var j :| 0 <= j < |users| && users[j] == u;
          assert r[j] == u;
        }
        if u in r {
          var j :| 0 <= j < |r| && r[j] == u;
          assert users[j] == u;
        }
      }
    case None =>
      var n := |users|;
      assert r[n].accessKey == key;
      assert FindUser(r, key) == Some(n) by {
        assert forall j :: 0 <= j < n ==> r[j] == users[j];
        var f := FindUser(r, key);
        assert f.Some?;
      }
  }

  // ---------------------------------------------------------------- courses

  /** A course as the server stores it: published or not, with free-form module
      documents. */
  datatype PortalCourse = PortalCourse(
    id: string,
    title: string,
    description: string,
    content: string,
    isPublished: bool,
    createdAt: int,
    updatedAt: int,
    modules: seq<map<string, string>>)

  function NewPortalCourse(id: string, title: string, description: string, now: int): (c: PortalCourse)
    ensures c.id == id && c.title == title && c.description == description
    ensures c.content == "" && !c.isPublished && c.modules == [] && c.createdAt == now && c.updatedAt == now
  {
    PortalCourse(id, title, description, "", false, now, now, [])
  }

  /** A key may see a course when it is published and the key either names no courses or
      names this one. */
  predicate Visible(k: AccessKey, c: PortalCourse) {
    c.isPublished && (k.courseIds == [] || c.id in k.courseIds)
  }

  // ---------------------------------------------------------------- key issuing

  /** The fields shared by the keys of one batch. */
  datatype KeyTemplate = KeyTemplate(
    createdAt: int,
    expiresAt: Option<int>,
    maxUsage: Option<int>,
    courseIds: seq<string>,
    createdBy: string)

  /** The expiry of an issued batch: `expires_days` days from now, none when absent or 0. */
  function BatchExpiry(now: int, expiresDays: Option<int>): (e: Option<int>)
    ensures expiresDays.Some? && expiresDays.value != 0 ==> e == Some(now + expiresDays.value * SecondsPerDay)
    ensures expiresDays.None? || expiresDays.value == 0 ==> e.None?
  {
    if expiresDays.Some? && expiresDays.value != 0 then Some(now + expiresDays.value * SecondsPerDay) else None
  }

  function IssuedKey(id: string, key: string, t: KeyTemplate): (k: AccessKey)
    ensures k.key == key && k.id == id && k.isActive && k.usageCount == 0
    ensures k.expiresAt == t.expiresAt && k.maxUsage == t.maxUsage && k.courseIds == t.courseIds
    ensures k.createdBy == Some(t.createdBy) && k.createdAt == t.createdAt
  {
    NewAccessKey(id, key, t.createdAt).(expiresAt := t.expiresAt, maxUsage := t.maxUsage,
                                        courseIds := t.courseIds, createdBy := Some(t.createdBy))
  }

  /** The key table after inserting `ks` (with document ids `ids`) one by one. */
  function Issue(keys: map<string, AccessKey>, ks: seq<string>, ids: seq<string>, t: KeyTemplate): map<string, AccessKey>
    requires |ks| == |ids|
    decreases |ks|
  {
    if |ks| == 0 then keys
    else
      var n := |ks| - 1;
      Issue(keys, ks[..n], ids[..n], t)[ks[n] := IssuedKey(ids[n], ks[n], t)]
  }

  /** Keys a batch can use: distinct and not yet stored. */
  predicate FreshKeys(keys: map<string, AccessKey>, ks: seq<string>) {
    (forall i, j :: 0 <= i < j < |ks| ==> ks[i] != ks[j]) && forall i :: 0 <= i < |ks| ==> ks[i] !in keys
  }

  /** Issuing adds exactly the new keys to the table. */
  lemma {:induction false} IssueKeySet(keys: map<string, AccessKey>, ks: seq<string>, ids: seq<string>, t: KeyTemplate)
    requires |ks| == |ids|
    ensures forall k :: k in Issue(keys, ks, ids, t) <==> k in keys || k in ks
    decreases |ks|
  {
    if |ks| > 0 {
      var n := |ks| - 1;
      IssueKeySet(keys, ks[..n], ids[..n], t);
      assert ks == ks[..n] + [ks[n]];
    }
  }

  /** With fresh keys the table grows by one entry per key. */
  lemma {:induction false} IssueDomain(keys: map<string, AccessKey>, ks: seq<string>, ids: seq<string>, t: KeyTemplate)
    requires |ks| == |ids| && FreshKeys(keys, ks)
    ensures forall k :: k in Issue(keys, ks, ids, t) <==> k in keys || k in ks
    ensures |Issue(keys, ks, ids, t)| == |keys| + |ks|
    decreases |ks|
  {
    IssueKeySet(keys, ks, ids, t);
    if |ks| > 0 {
      var n := |ks| - 1;
      assert FreshKeys(keys, ks[..n]);
      IssueDomain(keys, ks[..n], ids[..n], t);
      var prev := Issue(keys, ks[..n], ids[..n], t);
      assert ks[n] !in ks[..n];
      assert ks[n] !in prev;
    }
  }

  /** Every stored key keeps its document; each new key gets the batch's fields, unused. */
  lemma {:induction false} IssueValues(keys: map<string, AccessKey>, ks: seq<string>, ids: seq<string>, t: KeyTemplate)
    requires |ks| == |ids| && FreshKeys(keys, ks)
    ensures forall k :: k in keys ==> k in Issue(keys, ks, ids, t) && Issue(keys, ks, ids, t)[k] == keys[k]
    ensures forall i :: 0 <= i < |ks| ==>
      ks[i] in Issue(keys, ks, ids, t) && Issue(keys, ks, ids, t)[ks[i]] == IssuedKey(ids[i], ks[i], t)
    decreases |ks|
  {
    if |ks| > 0 {
      var n := |ks| - 1;
      assert FreshKeys(keys, ks[..n]);
      IssueValues(keys, ks[..n], ids[..n], t);
      forall i | 0 <= i < n
        ensures ks[i] in Issue(keys, ks, ids, t) && Issue(keys, ks, ids, t)[ks[i]] == IssuedKey(ids[i], ks[i], t)
      {
        assert ks[..n][i] == ks[i] && ids[..n][i] == ids[i];
      }
    }
  }

  /** Issued keys are well formed whatever the batch's usage limit. */
  lemma {:induction false} IssueKeepsWellFormed(keys: map<string, AccessKey>, ks: seq<string>, ids: seq<string>, t: KeyTemplate)
    requires |ks| == |ids| && KeysWellFormed(keys)
    ensures KeysWellFormed(Issue(keys, ks, ids, t))
    decreases |ks|
  {
    if |ks| > 0 {
      IssueKeepsWellFormed(keys, ks[..|ks| - 1], ids[..|ks| - 1], t);
    }
  }

  /** The number of keys issued for a requested count: none for a negative count. */
  function BatchSize(count: int): nat {
    if count < 0 then 0 else count
  }

  datatype Generated = Generated(success: bool, message: string, keys: seq<string>)

  function GeneratedMessage(count: int): string {
    Text.Decimal(count) + " Access-Keys erfolgreich generiert"
  }

  /** One entry of a send request: an address and an optional name. */
  datatype EmailRequest = EmailRequest(email: string, name: Option<string>)

  datatype BulkEmailRequest = BulkEmailRequest(
    recipients: seq<EmailRequest>,
    count: Option<int>,
    expiresDays: Option<int>,
    maxUsage: Option<int>,
    courseIds: seq<string>)

  /** The request's count, or the number of recipients when it gives none (or 0). */
  function RequestedCount(req: BulkEmailRequest): (n: int)
    ensures req.count.None? || req.count.value == 0 ==> n == |req.recipients|
    ensures req.count.Some? && req.count.value != 0 ==> n == req.count.value
  {
    if req.count.Some? && req.count.value != 0 then req.count.value else |req.recipients|
  }

  /** `name or ""`. */
  function NameOrEmpty(name: Option<string>): string {
    if name.Some? then name.value else ""
  }

  /** The recipient list handed to the bulk mailer. */
  function RecipientData(rs: seq<EmailRequest>): (ds: seq<Email.Recipient>)
    ensures |ds| == |rs|
    ensures forall i :: 0 <= i < |rs| ==> ds[i] == Email.Recipient(rs[i].email, NameOrEmpty(rs[i].name))
  {
    seq(|rs|, i requires 0 <= i < |rs| => Email.Recipient(rs[i].email, NameOrEmpty(rs[i].name)))
  }

  datatype BulkSent = BulkSent(success: bool, message: string, emailResults: Email.BulkReport, generatedKeysCount: nat)

  datatype SingleSent = SingleSent(success: bool, message: string, accessKey: string)

  // ---------------------------------------------------------------- the server

  class PortalServer {
    var accessKeys: map<string, AccessKey>
    var users: seq<User>
    var courses: seq<PortalCourse>

    ghost predicate Valid()
      reads this
    {
      KeysWellFormed(accessKeys) && OneUserPerKey(users)
    }

    constructor ()
      ensures Valid()
      ensures accessKeys == map[] && users == [] && courses == []
    {
      accessKeys, users, courses := map[], [], [];
    }

    /** validate_access_key. A refused key changes nothing; an admitted key counts one
        more use, logs its user in and receives a 30-minute token. `userId` is the id a
        new user document gets. */
    method ValidateAccessKey(candidate: string, userId: string, now: int)
      returns (success: bool, message: string, token: Option<Token>)
      requires Valid()
      modifies this
      ensures Valid()
      ensures var a := Admit(old(accessKeys), candidate, now);
        && (a.Refused? ==> && !success && message == a.message && token.None?
                           && accessKeys == old(accessKeys) && users == old(users))
        && (a.Admitted? ==> && success && message == ValidatedMessage
                            && token == Some(Token(candidate, now + AccessTokenExpireMinutes * 60))
                            && accessKeys == Redeem(old(accessKeys), candidate, now)
                            && users == Login(old(users), candidate, userId, now))
      ensures courses == old(courses)
    {
      var a := Admit(accessKeys, candidate, now);
      if a.Refused? {
        return false, a.message, None;
      }
      RedeemKeepsLimits(accessKeys, candidate, now);
      ghost var redeemed := Redeem(accessKeys, candidate, now);
      var k := accessKeys[candidate];
      accessKeys := accessKeys[candidate := k.(usageCount := k.usageCount + 1)];
      assert accessKeys == redeemed;
      LoginEffect(users, candidate, userId, now);
      users := Login(users, candidate, userId, now);
      var t := CreateAccessToken(candidate, now, Some(AccessTokenExpireMinutes * 60));
      return true, ValidatedMessage, Some(t);
    }

    /** create_course (admin): inserts the course as given, without checking its id, and
        returns it. */
    method CreateCourse(c: PortalCourse) returns (r: PortalCourse)
      requires Valid()
      modifies this
      ensures Valid()
      ensures r == c && courses == old(courses) + [c]
      ensures accessKeys == old(accessKeys) && users == old(users)
      ensures forall u :: u in accessKeys && Visible(accessKeys[u], c) ==> c in GetUserCourses(u).value
    {
      courses := courses + [c];
      r := c;
    }

    /** get_user_courses for the key `user`: 404 when the key is unknown, otherwise the
        courses the key may see, in stored order. Activity and expiry of the key are not
        checked here. */
    function GetUserCourses(user: string): (r: Result<seq<PortalCourse>, HttpError>)
      reads this
      ensures r.Err? <==> user !in accessKeys
      ensures r.Err? ==> r.error == HttpError(404, "Access key not found")
      ensures r.Ok? ==> forall c :: c in r.value <==> c in courses && Visible(accessKeys[user], c)
    {
      if user !in accessKeys then Err(HttpError(404, "Access key not found"))
      else
        var k := accessKeys[user];
        Ok(Seqs.Filter(courses, (c: PortalCourse) => Visible(k, c)))
    }

    /** get_course_detail: 404 unless a published course has the id; 403 when the key is
        stored and names other courses only. A key without a document is let through. */
    function GetCourseDetail(courseId: string, user: string): (r: Result<PortalCourse, HttpError>)
      reads this
      ensures r.Err? && r.error.status == 404 <==>
        forall j :: 0 <= j < |courses| ==> !(courses[j].id == courseId && courses[j].isPublished)
      ensures r.Err? ==> r.error == HttpError(404, "Kurs nicht gefunden") || r.error == HttpError(403, "Kein Zugriff auf diesen Kurs")
      ensures r.Err? && r.error.status == 403 ==>
        user in accessKeys && accessKeys[user].courseIds != [] && courseId !in accessKeys[user].courseIds
      ensures r.Ok? ==> r.value in courses && r.value.id == courseId && r.value.isPublished
      ensures r.Ok? ==> user !in accessKeys || Visible(accessKeys[user], r.value)
    {
      match Seqs.FirstIndex(courses, (c: PortalCourse) => c.id == courseId && c.isPublished)
      case None => Err(HttpError(404, "Kurs nicht gefunden"))
      case Some(i) =>
        if user in accessKeys && accessKeys[user].courseIds != [] && courseId !in accessKeys[user].courseIds
        then Err(HttpError(403, "Kein Zugriff auf diesen Kurs"))
        else Ok(courses[i])
    }

    /** For a stored key, the detail of a course is available exactly when a course with
        that id is in the key's listing, and it is one of the listed courses. */
    lemma DetailMatchesListing(courseId: string, user: string)
      requires user in accessKeys
      ensures GetUserCourses(user).Ok?
      ensures GetCourseDetail(courseId, user).Ok? <==>
        exists c :: c in GetUserCourses(user).value && c.id == courseId
      ensures GetCourseDetail(courseId, user).Ok? ==> GetCourseDetail(courseId, user).value in GetUserCourses(user).value
    {
      var listing := GetUserCourses(user).value;
      var d := GetCourseDetail(courseId, user);
      if c :| c in listing && c.id == courseId {
        var j :| 0 <= j < |courses| && courses[j] == c;
        assert courses[j].id == courseId && courses[j].isPublished;
        assert d.Ok?;
      }
    }

    /** generate_access_keys: more than 100 keys are refused before anything is stored;
        otherwise `count` keys (none for a negative count) are stored with the batch's
        fields. `newKeys` supplies the random keys, `ids` their document ids. */
    method GenerateAccessKeys(adminEmail: string, newKeys: seq<string>, ids: seq<string>, now: int,
                              count: int := 1, expiresDays: Option<int> := None, maxUsage: Option<int> := None,
                              courseIds: seq<string> := [])
      returns (r: Result<Generated, HttpError>)
      requires Valid()
      requires count <= MaxKeysPerBatch ==>
        |newKeys| >= BatchSize(count) && |ids| >= BatchSize(count) && FreshKeys(accessKeys, newKeys[..BatchSize(count)])
      modifies this
      ensures Valid()
      ensures count > MaxKeysPerBatch ==>
        r == Err(HttpError(400, "Maximal 100 Keys auf einmal generierbar")) && accessKeys == old(accessKeys)
      ensures count <= MaxKeysPerBatch ==>
        var n := BatchSize(count);
        && r == Ok(Generated(true, GeneratedMessage(count), newKeys[..n]))
        && accessKeys == Issue(old(accessKeys), newKeys[..n], ids[..n],
                               KeyTemplate(now, BatchExpiry(now, expiresDays), maxUsage, courseIds, adminEmail))
      ensures users == old(users) && courses == old(courses)
    {
      if count > MaxKeysPerBatch {
        return Err(HttpError(400, "Maximal 100 Keys auf einmal generierbar"));
      }
      var n := BatchSize(count);
      var t := KeyTemplate(now, BatchExpiry(now, expiresDays), maxUsage, courseIds, adminEmail);
      IssueKeys(newKeys[..n], ids[..n], t);
      r := Ok(Generated(true, GeneratedMessage(count), newKeys[..n]));
    }

    /** The insert loop shared by the key-issuing routes. */
    method IssueKeys(ks: seq<string>, ids: seq<string>, t: KeyTemplate)
      requires Valid() && |ks| == |ids|
      modifies this
      ensures Valid()
      ensures accessKeys == Issue(old(accessKeys), ks, ids, t)
      ensures users == old(users) && courses == old(courses)
    {
      var i := 0;
      while i < |ks|
        invariant 0 <= i <= |ks|
        invariant Valid()
        invariant accessKeys == Issue(old(accessKeys), ks[..i], ids[..i], t)
        invariant users == old(users) && courses == old(courses)
      {
        assert ks[..i + 1][..i] == ks[..i] && ids[..i + 1][..i] == ids[..i];
        IssueKeepsWellFormed(old(accessKeys), ks[..i + 1], ids[..i + 1], t);
        accessKeys := accessKeys[ks[i] := IssuedKey(ids[i], ks[i], t)];
        i := i + 1;
      }
      Seqs.TakeAll(ks);
      Seqs.TakeAll(ids);
    }

    /** send_access_keys_email: at most 50 recipients, and the count (when given) must equal
        their number; then one key per recipient is stored and the keys are mailed, key i
        to recipient i. The keys stay stored whatever the mail outcome. */
    method SendAccessKeysEmail(req: BulkEmailRequest, adminEmail: string, newKeys: seq<string>, ids: seq<string>,
                               mailer: Email.EmailService, transport: Email.Mail -> bool, now: int)
      returns (r: Result<BulkSent, HttpError>)
      requires Valid()
      requires |req.recipients| <= MaxRecipientsPerBatch ==>
        |newKeys| >= |req.recipients| && |ids| >= |req.recipients| && FreshKeys(accessKeys, newKeys[..|req.recipients|])
      modifies this, mailer
      ensures Valid()
      ensures |req.recipients| > MaxRecipientsPerBatch ==>
        r == Err(HttpError(400, "Maximal 50 E-Mails auf einmal versendbar"))
      ensures |req.recipients| <= MaxRecipientsPerBatch && RequestedCount(req) != |req.recipients| ==>
        r == Err(HttpError(400, "Anzahl der Keys muss mit Anzahl der Empfänger übereinstimmen"))
      ensures r.Err? ==> accessKeys == old(accessKeys) && mailer.attempted == old(mailer.attempted)
      ensures r.Ok? <==> |req.recipients| <= MaxRecipientsPerBatch && RequestedCount(req) == |req.recipients|
      ensures r.Ok? ==>
        var n := |req.recipients|;
        var data := RecipientData(req.recipients);
        && accessKeys == Issue(old(accessKeys), newKeys[..n], ids[..n],
                               KeyTemplate(now, BatchExpiry(now, req.expiresDays), req.maxUsage, req.courseIds, adminEmail))
        && r == Ok(BulkSent(true, "Access-Keys erfolgreich generiert und versendet",
                            Email.Tally(data, Email.Deliveries(mailer.isConfigured, mailer.From(), data, newKeys[..n], transport)),
                            n))
        && mailer.attempted
           == old(mailer.attempted) + (if mailer.isConfigured then Email.BulkMails(mailer.From(), data, newKeys[..n]) else [])
      ensures users == old(users) && courses == old(courses)
    {
      var n := |req.recipients|;
      if n > MaxRecipientsPerBatch {
        return Err(HttpError(400, "Maximal 50 E-Mails auf einmal versendbar"));
      }
      if RequestedCount(req) != n {
        return Err(HttpError(400, "Anzahl der Keys muss mit Anzahl der Empfänger übereinstimmen"));
      }
      var t := KeyTemplate(now, BatchExpiry(now, req.expiresDays), req.maxUsage, req.courseIds, adminEmail);
      IssueKeys(newKeys[..n], ids[..n], t);
      var data := RecipientData(req.recipients);
      var sent := mailer.SendBulkAccessKeys(data, newKeys[..n], transport);
      match sent
      case Ok(report) =>
        r := Ok(BulkSent(true, "Access-Keys erfolgreich generiert und versendet", report, n));
    }

    /** send_single_access_key: stores one key and mails it; when the mail does not go out
        the key is deleted again, so the table is as before, and a 500 is raised. */
    method SendSingleAccessKey(req: EmailRequest, adminEmail: string, key: string, id: string,
                               mailer: Email.EmailService, transport: Email.Mail -> bool, now: int,
                               expiresDays: Option<int> := None, maxUsage: Option<int> := None,
                               courseIds: seq<string> := [])
      returns (r: Result<SingleSent, HttpError>)
      requires Valid() && key !in accessKeys
      modifies this, mailer
      ensures Valid()
      ensures var t := KeyTemplate(now, BatchExpiry(now, expiresDays), maxUsage, courseIds, adminEmail);
              var m := Email.AccessKeyMail(mailer.From(), req.email, key, NameOrEmpty(req.name));
              var delivered := mailer.isConfigured && transport(m);
        && (delivered ==> && r == Ok(SingleSent(true, "Access-Key erfolgreich an " + req.email + " versendet", key))
                          && accessKeys == old(accessKeys)[key := IssuedKey(id, key, t)])
        && (!delivered ==> && r == Err(HttpError(500, "Access-Key generiert, aber E-Mail-Versendung fehlgeschlagen"))
                           && accessKeys == old(accessKeys))
        && mailer.attempted == old(mailer.attempted) + (if mailer.isConfigured then [m] else [])
      ensures users == old(users) && courses == old(courses)
    {
      var t := KeyTemplate(now, BatchExpiry(now, expiresDays), maxUsage, courseIds, adminEmail);
      var before := accessKeys;
      accessKeys := accessKeys[key := IssuedKey(id, key, t)];
      var ok := mailer.SendAccessKeyEmail(req.email, key, transport, NameOrEmpty(req.name));
      if ok {
        r := Ok(SingleSent(true, "Access-Key erfolgreich an " + req.email + " versendet", key));
      } else {
        accessKeys := accessKeys - {key};
        assert accessKeys == before;
        r := Err(HttpError(500, "Access-Key generiert, aber E-Mail-Versendung fehlgeschlagen"));
      }
    }
  }
}

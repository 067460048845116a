/** The `UserAccount` aggregate of the IAM module: a user built from six validated
    fields, an active/inactive state machine, password changes, and the
    `UserCreated` event raised when a new account is made. The aggregate is an
    `AggregateRoot` whose props are a `UserAccountProps` value; the subclass methods
    are methods over it. */
module UserAccounts {
  import opened JsValues
  import opened Options
  import opened Results
  import opened Errors
  import opened EntityIds
  import opened ActiveFlags
  import opened DomainEvents
  import opened Aggregates
  import Strings
  import ExternalIds
  import Emails
  import Names
  import HashedPasswords
  import UserRoles

  /** `UserAccountProps`, each value object by the string (or flag) it holds and each
      `Date` as milliseconds. */
  datatype UserAccountProps = UserAccountProps(
    username: string,
    firstName: string,
    lastName: string,
    email: string,
    password: string,
    role: string,
    isActive: ActiveFlag,
    createdAt: int,
    updatedAt: int)

  /** `CreateUserProps`: the raw input of `create`. */
  datatype CreateUserProps = CreateUserProps(
    username: string,
    firstName: string,
    lastName: string,
    email: string,
    passwordHash: string,
    role: string)

  type UserAccount = AggregateRoot<UserAccountProps>

  /** The six value-object checks, in the order `Result.all` receives them. */
  function Checks(p: CreateUserProps): (cs: seq<Result<string, DomainError>>)
    ensures |cs| == 6
  {
    [ExternalIds.Create(p.username), Emails.Create(p.email), Names.Create(p.firstName),
     Names.Create(p.lastName), HashedPasswords.Create(p.passwordHash), UserRoles.Create(p.role)]
  }

  /** The props `create` builds at time `now`, or the error of the validation. */
  function InitialProps(p: CreateUserProps, now: int): (r: Result<UserAccountProps, DomainError>)
    ensures r.Ok? <==> forall i :: 0 <= i < 6 ==> Checks(p)[i].Ok?
    ensures r.Ok? ==> r.value.username == Checks(p)[0].value && r.value.email == Checks(p)[1].value
                      && r.value.firstName == Checks(p)[2].value && r.value.lastName == Checks(p)[3].value
                      && r.value.password == Checks(p)[4].value && r.value.role == Checks(p)[5].value
    ensures r.Ok? ==> IsActive(r.value.isActive) && r.value.createdAt == now && r.value.updatedAt == now
  {
    match Combine(Checks(p))
    case Err(e) => Err(e)
    case Ok(vs) => Ok(UserAccountProps(vs[0], vs[2], vs[3], vs[1], vs[4], vs[5], Active(), now, now))
  }

  /** An account made by `create` holds the normalised values: trimmed user name and
      hash, trimmed lower-case address, upper-case names, the role as given. */
  lemma InitialPropsValues(p: CreateUserProps, now: int)
    requires InitialProps(p, now).Ok?
    ensures InitialProps(p, now).value.username == Strings.Trim(p.username)
    ensures InitialProps(p, now).value.email == Strings.ToLowerAscii(Strings.Trim(p.email))
    ensures InitialProps(p, now).value.firstName == Names.ToUpper(Strings.Trim(p.firstName))
    ensures InitialProps(p, now).value.lastName == Names.ToUpper(Strings.Trim(p.lastName))
    ensures InitialProps(p, now).value.password == Strings.Trim(p.passwordHash)
    ensures InitialProps(p, now).value.role == p.role
  {
    var cs := Checks(p);
    assert cs[0].Ok? && cs[1].Ok? && cs[2].Ok? && cs[3].Ok? && cs[4].Ok? && cs[5].Ok?;
    assert cs[0] == ExternalIds.Create(p.username) && cs[1] == Emails.Create(p.email);
    assert cs[2] == Names.Create(p.firstName) && cs[3] == Names.Create(p.lastName);
    assert cs[4] == HashedPasswords.Create(p.passwordHash) && cs[5] == UserRoles.Create(p.role);
  }

  /** The first failing check decides the error; later fields are not looked at. */
  lemma InitialPropsFirstError(p: CreateUserProps, now: int, i: nat)
    requires i < 6 && Checks(p)[i].Err?
    requires forall j :: 0 <= j < i ==> Checks(p)[j].Ok?
    ensures InitialProps(p, now) == Err(Checks(p)[i].error)
  {
    CombineFirstErr(Checks(p), i);
  }

  /** `{ email, username, role }` of the event. */
  function CreatedPayload(q: UserAccountProps): JsValue
  {
    JsObject([Field("email", JsString(q.email)), Field("username", JsString(q.username)),
              Field("role", JsString(q.role))])
  }

  /** `new UserCreatedEvent({ aggregateId, payload })`; the event's own id and time are
      the parameters `eventGenerated` and `eventTime`. */
  function CreatedEvent(id: UniqueEntityId, q: UserAccountProps, eventGenerated: string, eventTime: int): DomainEvent
  {
    DomainEvents.New(UserCreatedName, id, CreatedPayload(q), None, None, eventGenerated, eventTime)
  }

  /** The event concerns the new user, is named `Iam.UserCreated`, and carries the
      normalised e-mail address, user name and role. */
  lemma CreatedEventShape(id: UniqueEntityId, q: UserAccountProps, eventGenerated: string, eventTime: int)
    ensures var e := CreatedEvent(id, q, eventGenerated, eventTime);
            e.aggregateId == id && e.eventName == "Iam.UserCreated" && e.occurredOn == eventTime
            && e.eventId == eventGenerated && e.payload.JsObject?
            && Keys(e.payload.fields) == ["email", "username", "role"]
            && Lookup(e.payload.fields, "email") == JsString(q.email)
            && Lookup(e.payload.fields, "username") == JsString(q.username)
            && Lookup(e.payload.fields, "role") == JsString(q.role)
  {
    var fs := CreatedPayload(q).fields;
    assert Keys(fs) == ["email", "username", "role"];
    assert DistinctKeys(fs);
    LookupDistinct(fs, 0);
    LookupDistinct(fs, 1);
    LookupDistinct(fs, 2);
  }

  /** `UserAccount.create`: on a validation failure no account is made and the first
      error is returned; otherwise a new active account with the normalised fields
      and the given or a generated id, holding one `UserCreated` event exactly when
      no id was given. */
  method Create(p: CreateUserProps, id: Option<UniqueEntityId>, generated: string, now: int,
                eventGenerated: string, eventTime: int) returns (r: Result<UserAccount, DomainError>)
    ensures InitialProps(p, now).Err? ==> r == Err(InitialProps(p, now).error)
    ensures InitialProps(p, now).Ok? ==>
              r.Ok? && fresh(r.value) && fresh(r.value.events)
              && r.value.id == OrGenerate(id, generated)
              && r.value.props == InitialProps(p, now).value
              && r.value.Pending() == (if id.None? then [CreatedEvent(r.value.id, r.value.props, eventGenerated, eventTime)] else [])
  {
    var props := InitialProps(p, now);
    if props.Err? {
      return Err(props.error);
    }
    var user := NewAccount(props.value, id, generated, eventGenerated, eventTime);
    return Ok(user);
  }

  /** The successful half of `create`: `new UserAccount(props, id)`, then the event when
      no id was given. */
  method NewAccount(q: UserAccountProps, id: Option<UniqueEntityId>, generated: string,
                    eventGenerated: string, eventTime: int) returns (user: UserAccount)
    ensures fresh(user) && fresh(user.events)
    ensures user.id == OrGenerate(id, generated) && user.props == q
    ensures user.Pending() == (if id.None? then [CreatedEvent(user.id, q, eventGenerated, eventTime)] else [])
  {
    user := new AggregateRoot(q, id, generated);
    if id.None? {
      user.AddDomainEvent(CreatedEvent(user.id, q, eventGenerated, eventTime));
    }
  }

  // ---------------------------------------------------------------------------
  // Getters

  function Username(u: UserAccount): string
    reads u
  {
    u.props.username
  }

  function Email(u: UserAccount): string
    reads u
  {
    u.props.email
  }

  function FirstName(u: UserAccount): string
    reads u
  {
    u.props.firstName
  }

  function LastName(u: UserAccount): string
    reads u
  {
    u.props.lastName
  }

  /** `fullName`: first name, one space, last name. */
  function FullName(u: UserAccount): (s: string)
    reads u
    ensures |s| == |FirstName(u)| + 1 + |LastName(u)|
    ensures s[..|FirstName(u)|] == FirstName(u) && s[|FirstName(u)|] == ' ' && s[|FirstName(u)| + 1..] == LastName(u)
  {
    u.props.firstName + " " + u.props.lastName
  }

  function Role(u: UserAccount): string
    reads u
  {
    u.props.role
  }

  predicate IsActiveUser(u: UserAccount)
    reads u
  {
    IsActive(u.props.isActive)
  }

  function PasswordHash(u: UserAccount): string
    reads u
  {
    u.props.password
  }

  function CreatedAt(u: UserAccount): int
    reads u
  {
    u.props.createdAt
  }

  function UpdatedAt(u: UserAccount): int
    reads u
  {
    u.props.updatedAt
  }

  /** A freshly created account reports its input through the getters in normalised
      form: trimmed user name and hash, trimmed lower-case address, upper-case names,
      the role as given, active, and created and updated at the same instant. */
  lemma CreatedUserGetters(u: UserAccount, p: CreateUserProps, now: int)
    requires InitialProps(p, now) == Ok(u.props)
    ensures Username(u) == Strings.Trim(p.username)
    ensures Email(u) == Strings.ToLowerAscii(Strings.Trim(p.email))
    ensures FullName(u) == Names.ToUpper(Strings.Trim(p.firstName)) + " " + Names.ToUpper(Strings.Trim(p.lastName))
    ensures PasswordHash(u) == Strings.Trim(p.passwordHash) && Role(u) == p.role
    ensures IsActiveUser(u) && CreatedAt(u) == UpdatedAt(u) == now
  {
    InitialPropsValues(p, now);
  }

  // ---------------------------------------------------------------------------
  // State changes

  /** The props after `deactivate`, or its error: only `isActive` changes. */
  function Deactivated(q: UserAccountProps, userId: string): (r: Result<UserAccountProps, DomainError>)
    ensures r.Err? <==> IsInactive(q.isActive)
    ensures r.Err? ==> r.error == UserAlreadyInactive(userId)
    ensures r.Ok? ==> r.value == q.(isActive := Inactive())
  {
    if IsInactive(q.isActive) then Err(UserAlreadyInactive(userId)) else Ok(q.(isActive := Inactive()))
  }

  /** The props after `activate`, or its error: only `isActive` changes. */
  function Activated(q: UserAccountProps, userId: string): (r: Result<UserAccountProps, DomainError>)
    ensures r.Err? <==> IsActive(q.isActive)
    ensures r.Err? ==> r.error == UserAlreadyActive(userId)
    ensures r.Ok? ==> r.value == q.(isActive := Active())
  {
    if IsActive(q.isActive) then Err(UserAlreadyActive(userId)) else Ok(q.(isActive := Active()))
  }

  /** The props after `changePassword` at time `now`, or its error. */
  function PasswordChanged(q: UserAccountProps, newHash: string, now: int): (r: Result<UserAccountProps, DomainError>)
    ensures r.Err? <==> HashedPasswords.Create(newHash).Err?
    ensures r.Err? ==> r.error == HashedPasswords.Create(newHash).error
    ensures r.Ok? ==> r.value == q.(password := Strings.Trim(newHash), updatedAt := now)
  {
    match HashedPasswords.Create(newHash)
    case Err(e) => Err(e)
    case Ok(h) => Ok(q.(password := h, updatedAt := now))
  }

  /** The state machine: from any state exactly one of the two transitions succeeds,
      it lands in the other state, and the other transition then undoes it. */
  lemma ActivationStateMachine(q: UserAccountProps, userId: string)
    ensures Activated(q, userId).Ok? != Deactivated(q, userId).Ok?
    ensures Deactivated(q, userId).Ok? ==>
              IsInactive(Deactivated(q, userId).value.isActive) && Activated(Deactivated(q, userId).value, userId) == Ok(q)
    ensures Activated(q, userId).Ok? ==>
              IsActive(Activated(q, userId).value.isActive) && Deactivated(Activated(q, userId).value, userId) == Ok(q)
    ensures Deactivated(q, userId).Ok? ==> Deactivated(Deactivated(q, userId).value, userId) == Err(UserAlreadyInactive(userId))
    ensures Activated(q, userId).Ok? ==> Activated(Activated(q, userId).value, userId) == Err(UserAlreadyActive(userId))
  {
    FlagLaws(q.isActive);
  }

  /** A password change keeps the account's state, identity fields and creation time,
      and the new hash is accepted again unchanged. */
  lemma PasswordChangeKeepsTheRest(q: UserAccountProps, newHash: string, now: int)
    requires PasswordChanged(q, newHash, now).Ok?
    ensures var q' := PasswordChanged(q, newHash, now).value;
            q'.username == q.username && q'.email == q.email && q'.firstName == q.firstName
            && q'.lastName == q.lastName && q'.role == q.role && q'.isActive == q.isActive
            && q'.createdAt == q.createdAt
            && HashedPasswords.Create(q'.password) == Ok(q'.password)
  {
    HashedPasswords.CreateIdempotent(newHash);
  }

  /** `changePassword`: through `updateProps`; the pending events stay as they are. */
  method ChangePassword(u: UserAccount, newHash: string, now: int) returns (r: Result<(), DomainError>)
    modifies u
    ensures PasswordChanged(old(u.props), newHash, now).Err? ==>
              r == Err(PasswordChanged(old(u.props), newHash, now).error) && u.props == old(u.props)
    ensures PasswordChanged(old(u.props), newHash, now).Ok? ==>
              r == Ok(()) && u.props == PasswordChanged(old(u.props), newHash, now).value
    ensures u.events == old(u.events) && u.Pending() == old(u.Pending())
  {
    var passResult := HashedPasswords.Create(newHash);
    if passResult.Err? {
      return Err(passResult.error);
    }
    u.UpdateProps(u.props.(password := passResult.value, updatedAt := now));
    return Ok(());
  }

  /** `deactivate`. */
  method Deactivate(u: UserAccount) returns (r: Result<(), DomainError>)
    modifies u
    ensures Deactivated(old(u.props), ToString(u.id)).Err? ==>
              r == Err(UserAlreadyInactive(ToString(u.id))) && u.props == old(u.props)
    ensures Deactivated(old(u.props), ToString(u.id)).Ok? ==>
              r == Ok(()) && u.props == Deactivated(old(u.props), ToString(u.id)).value
    ensures u.events == old(u.events) && u.Pending() == old(u.Pending())
  {
    if IsInactive(u.props.isActive) {
      return Err(UserAlreadyInactive(ToString(u.id)));
    }
    u.UpdateProps(u.props.(isActive := Inactive()));
    return Ok(());
  }

  /** `activate`. */
  method Activate(u: UserAccount) returns (r: Result<(), DomainError>)
    modifies u
    ensures Activated(old(u.props), ToString(u.id)).Err? ==>
              r == Err(UserAlreadyActive(ToString(u.id))) && u.props == old(u.props)
    ensures Activated(old(u.props), ToString(u.id)).Ok? ==>
              r == Ok(()) && u.props == Activated(old(u.props), ToString(u.id)).value
    ensures u.events == old(u.events) && u.Pending() == old(u.Pending())
  {
    if IsActive(u.props.isActive) {
      return Err(UserAlreadyActive(ToString(u.id)));
    }
    u.UpdateProps(u.props.(isActive := Active()));
    return Ok(());
  }

  /** `UserAccount.unsafe(props, id)`, which the mapper calls but the class does not
      show; assumed to build the aggregate from trusted props and id without raising
      an event. */
  method Unsafe(props: UserAccountProps, id: UniqueEntityId) returns (u: UserAccount)
    ensures fresh(u) && u.id == id && u.props == props && u.Pending() == []
  {
    u := new AggregateRoot(props, Some(id), ToString(id));
  }
}

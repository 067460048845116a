/** `UserMapper`: between a `UserAccount` and the `UserOrmEntity` row that stores it. */
module UserMappers {
  import opened Results
  import opened Errors
  import opened EntityIds
  import opened ActiveFlags
  import opened Aggregates
  import opened UserAccounts
  import ExternalIds
  import Emails
  import Names
  import HashedPasswords
  import UserRoles
  import Strings

  /** The columns of a row. */
  datatype UserRow = UserRow(
    id: string,
    username: string,
    email: string,
    firstName: string,
    lastName: string,
    passwordHash: string,
    role: string,
    isActive: bool,
    createdAt: int,
    updatedAt: int)

  /** `UserOrmEntity`: a row object whose fields are assigned one by one. */
  class UserOrmEntity {
    var id: string
    var username: string
    var email: string
    var firstName: string
    var lastName: string
    var passwordHash: string
    var role: string
    var isActive: bool
    var createdAt: int
    var updatedAt: int

    /** `new UserOrmEntity()`, its fields not yet set (empty here). */
    constructor ()
      ensures Row() == UserRow("", "", "", "", "", "", "", false, 0, 0)
    {
      id, username, email, firstName, lastName := "", "", "", "", "";
      passwordHash, role, isActive, createdAt, updatedAt := "", "", false, 0, 0;
    }

    function Row(): UserRow
      reads this
    {
      UserRow(id, username, email, firstName, lastName, passwordHash, role, isActive, createdAt, updatedAt)
    }
  }

  /** The row that stores account `id` with props `q`: the id string and each
      field's plain value. */
  function PersistedRow(id: UniqueEntityId, q: UserAccountProps): (r: UserRow)
    ensures r.id == ToString(id) && r.isActive == IsActive(q.isActive)
    ensures r.username == q.username && r.email == q.email && r.firstName == q.firstName
    ensures r.lastName == q.lastName && r.passwordHash == q.password && r.role == q.role
    ensures r.createdAt == q.createdAt && r.updatedAt == q.updatedAt
  {
    UserRow(ToString(id), q.username, q.email, q.firstName, q.lastName, q.password, q.role,
            IsActive(q.isActive), q.createdAt, q.updatedAt)
  }

  /** `toPersistence`: a new row, filled from the account's getters. */
  method ToPersistence(u: UserAccount) returns (row: UserOrmEntity)
    ensures fresh(row) && row.Row() == PersistedRow(u.id, u.props)
  {
    row := new UserOrmEntity();
    row.id := ToString(u.id);
    row.username := Username(u);
    row.email := Email(u);
    row.firstName := FirstName(u);
    row.lastName := LastName(u);
    row.passwordHash := PasswordHash(u);
    row.role := Role(u);
    row.isActive := IsActiveUser(u);
    row.createdAt := CreatedAt(u);
    row.updatedAt := UpdatedAt(u);
  }

  /** The id and props `toDomain` hands to `UserAccount.unsafe`: each column through
      its value object's `create(...).unwrap()` in field order, then the id; the first
      failure throws. */
  function Rebuild(r: UserRow): Completion<(UniqueEntityId, UserAccountProps), UnwrapResultError<DomainError>>
  {
    match Unwrap(ExternalIds.Create(r.username))
    case Throws(x) => Throws(x)
    case Returns(username) =>
    match Unwrap(Emails.Create(r.email))
    case Throws(x) => Throws(x)
    case Returns(email) =>
    match Unwrap(Names.Create(r.firstName))
    case Throws(x) => Throws(x)
    case Returns(firstName) =>
    match Unwrap(Names.Create(r.lastName))
    case Throws(x) => Throws(x)
    case Returns(lastName) =>
    match Unwrap(HashedPasswords.Create(r.passwordHash))
    case Throws(x) => Throws(x)
    case Returns(password) =>
    match Unwrap(UserRoles.Create(r.role))
    case Throws(x) => Throws(x)
    case Returns(role) =>
    var props := UserAccountProps(username, firstName, lastName, email, password, role,
                                  if r.isActive then Active() else Inactive(), r.createdAt, r.updatedAt);
    match Unwrap(EntityIds.Create(r.id))
    case Throws(x) => Throws(x)
    case Returns(id) => Returns((id, props))
  }

  /** `toDomain`. */
  method ToDomain(row: UserOrmEntity) returns (c: Completion<UserAccount, UnwrapResultError<DomainError>>)
    ensures Rebuild(old(row.Row())).Throws? ==> c == Throws(Rebuild(old(row.Row())).exception)
    ensures Rebuild(old(row.Row())).Returns? ==>
              c.Returns? && fresh(c.value) && c.value.id == Rebuild(old(row.Row())).value.0
              && c.value.props == Rebuild(old(row.Row())).value.1 && c.value.Pending() == []
  {
    match Rebuild(row.Row())
    case Throws(x) =>
      return Throws(x);
    case Returns((id, props)) =>
      var user := Unsafe(props, id);
      return Returns(user);
  }

  // ---------------------------------------------------------------------------
  // The round trip

  /** Every stored value is accepted unchanged by its value object, and the id is not
      blank. */
  predicate Normalised(id: UniqueEntityId, q: UserAccountProps)
  {
    ExternalIds.Create(q.username) == Ok(q.username)
    && Emails.Create(q.email) == Ok(q.email)
    && Names.Create(q.firstName) == Ok(q.firstName)
    && Names.Create(q.lastName) == Ok(q.lastName)
    && HashedPasswords.Create(q.password) == Ok(q.password)
    && UserRoles.Create(q.role) == Ok(q.role)
    && EntityIds.Create(ToString(id)) == Ok(id)
  }

  /** `toDomain(toPersistence(u))` gives back the same id and props, the active flag
      and both dates included, when every stored value is a fixed point of its
      normalisation. */
  lemma RoundTrip(id: UniqueEntityId, q: UserAccountProps)
    requires Normalised(id, q)
    ensures Rebuild(PersistedRow(id, q)) == Returns((id, q))
  {
    FlagLaws(q.isActive);
  }

  /** An account made by `create` from names without `ÿ`, under a non-blank id, is
      normalised, so it survives the round trip. */
  lemma CreatedAccountsRoundTrip(p: CreateUserProps, now: int, id: UniqueEntityId)
    requires InitialProps(p, now).Ok?
    requires 'ÿ' !in Strings.Trim(p.firstName) && 'ÿ' !in Strings.Trim(p.lastName)
    requires !Strings.AllWhitespace(ToString(id))
    ensures Normalised(id, InitialProps(p, now).value)
    ensures Rebuild(PersistedRow(id, InitialProps(p, now).value)) == Returns((id, InitialProps(p, now).value))
  {
    var cs := Checks(p);
    assert cs[0].Ok? && cs[1].Ok? && cs[2].Ok? && cs[3].Ok? && cs[4].Ok? && cs[5].Ok?;
    ExternalIds.CreateIdempotent(p.username);
    Emails.CreateIdempotent(p.email);
    Names.CreateIdempotentWithoutSmallYDiaeresis(p.firstName);
    Names.CreateIdempotentWithoutSmallYDiaeresis(p.lastName);
    HashedPasswords.CreateIdempotent(p.passwordHash);
    UserRoles.CreateIdempotent(p.role);
    RoundTrip(id, InitialProps(p, now).value);
  }

  /** A row that loads holds values each value object accepts, and loads to their
      normalised forms. */
  lemma RebuildReturns(r: UserRow)
    requires Rebuild(r).Returns?
    ensures ExternalIds.Create(r.username).Ok? && Emails.Create(r.email).Ok?
    ensures Names.Create(r.firstName).Ok? && Names.Create(r.lastName).Ok?
    ensures HashedPasswords.Create(r.passwordHash).Ok? && UserRoles.Create(r.role).Ok?
    ensures EntityIds.Create(r.id).Ok?
    ensures Rebuild(r).value.0 == EntityIds.Create(r.id).value
    ensures Rebuild(r).value.1 ==
              UserAccountProps(ExternalIds.Create(r.username).value, Names.Create(r.firstName).value,
                               Names.Create(r.lastName).value, Emails.Create(r.email).value,
                               HashedPasswords.Create(r.passwordHash).value, UserRoles.Create(r.role).value,
                               if r.isActive then Active() else Inactive(), r.createdAt, r.updatedAt)
  {
    UnwrapContract(ExternalIds.Create(r.username));
    UnwrapContract(Emails.Create(r.email));
    UnwrapContract(Names.Create(r.firstName));
    UnwrapContract(Names.Create(r.lastName));
    UnwrapContract(HashedPasswords.Create(r.passwordHash));
    UnwrapContract(UserRoles.Create(r.role));
    UnwrapContract(EntityIds.Create(r.id));
  }

  /** Loading a row whose names hold no `ÿ` and storing it again gives a row that loads
      to the same account: `toDomain` after `toPersistence` after `toDomain` is
      `toDomain`. */
  lemma ReloadIsStable(r: UserRow)
    requires Rebuild(r).Returns?
    requires 'ÿ' !in Strings.Trim(r.firstName) && 'ÿ' !in Strings.Trim(r.lastName)
    ensures Rebuild(PersistedRow(Rebuild(r).value.0, Rebuild(r).value.1)) == Rebuild(r)
  {
    RebuildReturns(r);
    ExternalIds.CreateIdempotent(r.username);
    Emails.CreateIdempotent(r.email);
    Names.CreateIdempotentWithoutSmallYDiaeresis(r.firstName);
    Names.CreateIdempotentWithoutSmallYDiaeresis(r.lastName);
    HashedPasswords.CreateIdempotent(r.passwordHash);
    UserRoles.CreateIdempotent(r.role);
    var id := Rebuild(r).value.0;
    assert EntityIds.Create(ToString(id)) == Ok(id);
    RoundTrip(id, Rebuild(r).value.1);
  }

  /** A row that loads although a name holds `ÿ` is stored back with `Ÿ`, and loading
      that row throws: the name's hook rejects its own output. */
  lemma ReloadFailsOnSmallYDiaeresis(r: UserRow)
    requires Rebuild(r).Returns?
    requires 'ÿ' in Strings.Trim(r.firstName) || 'ÿ' in Strings.Trim(r.lastName)
    ensures Rebuild(PersistedRow(Rebuild(r).value.0, Rebuild(r).value.1))
            == Throws(UnwrapResultError(UnwrapErrMessage, ArgumentInvalid(Names.InvalidCharactersMessage)))
  {
    RebuildReturns(r);
    ExternalIds.CreateIdempotent(r.username);
    Emails.CreateIdempotent(r.email);
    var row := PersistedRow(Rebuild(r).value.0, Rebuild(r).value.1);
    if 'ÿ' in Strings.Trim(r.firstName) {
      Names.CreateRejectsStoredSmallYDiaeresis(r.firstName);
      RebuildStopsAt(row, 2, ArgumentInvalid(Names.InvalidCharactersMessage));
    } else {
      Names.CreateIdempotentWithoutSmallYDiaeresis(r.firstName);
      Names.CreateRejectsStoredSmallYDiaeresis(r.lastName);
      RebuildStopsAt(row, 3, ArgumentInvalid(Names.InvalidCharactersMessage));
    }
  }

  /** The seven checks `toDomain` makes, in order, the id rendered as its string. */
  function RowChecks(r: UserRow): (cs: seq<Result<string, DomainError>>)
    ensures |cs| == 7
  {
    [ExternalIds.Create(r.username), Emails.Create(r.email), Names.Create(r.firstName),
     Names.Create(r.lastName), HashedPasswords.Create(r.passwordHash), UserRoles.Create(r.role),
     Map(EntityIds.Create(r.id), ToString)]
  }

  /** The first invalid check decides what `toDomain` throws. */
  lemma RebuildThrowsAt(r: UserRow, i: nat)
    requires i < 7 && RowChecks(r)[i].Err?
    requires forall j :: 0 <= j < i ==> RowChecks(r)[j].Ok?
    ensures Rebuild(r) == Throws(UnwrapResultError(UnwrapErrMessage, RowChecks(r)[i].error))
  {
    var cs := RowChecks(r);
    assert i > 0 ==> cs[0].Ok?;
    assert i > 1 ==> cs[1].Ok?;
    assert i > 2 ==> cs[2].Ok?;
    assert i > 3 ==> cs[3].Ok?;
    assert i > 4 ==> cs[4].Ok?;
    assert i > 5 ==> cs[5].Ok?;
    RebuildStopsAt(r, i, cs[i].error);
  }

  lemma RebuildStopsAt(r: UserRow, i: nat, e: DomainError)
    requires i < 7
    requires i == 0 ==> ExternalIds.Create(r.username) == Err(e)
    requires i > 0 ==> ExternalIds.Create(r.username).Ok?
    requires i == 1 ==> Emails.Create(r.email) == Err(e)
    requires i > 1 ==> Emails.Create(r.email).Ok?
    requires i == 2 ==> Names.Create(r.firstName) == Err(e)
    requires i > 2 ==> Names.Create(r.firstName).Ok?
    requires i == 3 ==> Names.Create(r.lastName) == Err(e)
    requires i > 3 ==> Names.Create(r.lastName).Ok?
    requires i == 4 ==> HashedPasswords.Create(r.passwordHash) == Err(e)
    requires i > 4 ==> HashedPasswords.Create(r.passwordHash).Ok?
    requires i == 5 ==> UserRoles.Create(r.role) == Err(e)
    requires i > 5 ==> UserRoles.Create(r.role).Ok?
    requires i == 6 ==> EntityIds.Create(r.id) == Err(e)
    ensures Rebuild(r) == Throws(UnwrapResultError(UnwrapErrMessage, e))
  {
    UnwrapContract(ExternalIds.Create(r.username));
    UnwrapContract(Emails.Create(r.email));
    UnwrapContract(Names.Create(r.firstName));
    UnwrapContract(Names.Create(r.lastName));
    UnwrapContract(HashedPasswords.Create(r.passwordHash));
    UnwrapContract(UserRoles.Create(r.role));
    UnwrapContract(EntityIds.Create(r.id));
  }

  lemma RebuildReturnsWhenValid(r: UserRow)
    requires forall i :: 0 <= i < 7 ==> RowChecks(r)[i].Ok?
    ensures Rebuild(r).Returns?
  {
    var cs := RowChecks(r);
    assert cs[0].Ok? && cs[1].Ok? && cs[2].Ok? && cs[3].Ok? && cs[4].Ok? && cs[5].Ok? && cs[6].Ok?;
    UnwrapContract(ExternalIds.Create(r.username));
    UnwrapContract(Emails.Create(r.email));
    UnwrapContract(Names.Create(r.firstName));
    UnwrapContract(Names.Create(r.lastName));
    UnwrapContract(HashedPasswords.Create(r.passwordHash));
    UnwrapContract(UserRoles.Create(r.role));
    UnwrapContract(EntityIds.Create(r.id));
  }

  /** `toDomain` throws exactly when some stored value, or the id, is invalid, and the
      error it throws wraps that of the first invalid one, as `Result.all` over the
      same checks would report it. */
  lemma RebuildFailsOnFirstInvalid(r: UserRow)
    ensures Rebuild(r).Throws? <==> Combine(RowChecks(r)).Err?
    ensures Rebuild(r).Throws? ==> Rebuild(r).exception == UnwrapResultError(UnwrapErrMessage, Combine(RowChecks(r)).error)
  {
    var cs := RowChecks(r);
    if Combine(cs).Ok? {
      RebuildReturnsWhenValid(r);
    } else {
      assert exists k :: 0 <= k < 7 && cs[k].Err?;
      var k :| 0 <= k < 7 && cs[k].Err?;
      var i := FirstErrIndex(cs, k);
      RebuildFailsAt(r, i);
    }
  }

  /** When the check at `i` is the first invalid one, `toDomain` and `Result.all`
      both fail with its error. */
  lemma RebuildFailsAt(r: UserRow, i: nat)
    requires i < 7 && RowChecks(r)[i].Err?
    requires forall j :: 0 <= j < i ==> RowChecks(r)[j].Ok?
    ensures Rebuild(r).Throws? && Combine(RowChecks(r)).Err?
    ensures Rebuild(r).exception == UnwrapResultError(UnwrapErrMessage, Combine(RowChecks(r)).error)
  {
    CombineFirstErr(RowChecks(r), i);
    RebuildThrowsAt(r, i);
  }

  /** A sequence with an Err at `k` has a first Err, at or before `k`. */
  lemma {:induction false} FirstErrIndex<T, E>(cs: seq<Result<T, E>>, k: nat) returns (i: nat)
    requires k < |cs| && cs[k].Err?
    ensures i <= k && cs[i].Err? && forall j :: 0 <= j < i ==> cs[j].Ok?
  {
    if exists j :: 0 <= j < k && cs[j].Err? {
      var j :| 0 <= j < k && cs[j].Err?;
      i := FirstErrIndex(cs, j);
    } else {
      i := k;
    }
  }
}

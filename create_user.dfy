/** `CreateUserService`: refuses a user whose e-mail address or user name is already
    taken, otherwise hashes the password, creates the account and saves it. The
    repository is an in-memory store of rows with a log of what was saved; the
    hashing service is the function `hash`. */
module CreateUsers {
  import opened Options
  import opened Results
  import opened Errors
  import opened EntityIds
  import opened Aggregates
  import opened UserAccounts
  import opened UserMappers
  import Strings
  import ExternalIds
  import Emails

  datatype CreateUserDto = CreateUserDto(
    username: string,
    email: string,
    firstName: string,
    lastName: string,
    role: string,
    password: string)

  datatype CreateUserResponse = CreateUserResponse(id: string, username: string)

  /** The first stored row with the given e-mail address or user name. */
  function FindConflict(rows: seq<UserRow>, email: string, username: string): (o: Option<UserRow>)
    ensures o.None? <==> forall i :: 0 <= i < |rows| ==> rows[i].email != email && rows[i].username != username
    ensures o.Some? ==> o.value in rows && (o.value.email == email || o.value.username == username)
  {
    if rows == [] then None
    else if rows[0].email == email || rows[0].username == username then Some(rows[0])
    else
      var rest := FindConflict(rows[1..], email, username);
      assert forall i :: 1 <= i < |rows| ==> rows[i] == rows[1..][i - 1];
      rest
  }

  /** `findConflictingUser`: the first stored row with the e-mail address or the user
      name, loaded through `toDomain`, which throws for a row that no longer passes its
      value objects. The loaded account is its id and props. */
  function LoadConflict(rows: seq<UserRow>, email: string, username: string)
    : (r: Completion<Option<(UniqueEntityId, UserAccountProps)>, UnwrapResultError<DomainError>>)
    ensures r == Returns(None) <==> FindConflict(rows, email, username).None?
    ensures FindConflict(rows, email, username).Some? ==>
              (r.Throws? <==> Rebuild(FindConflict(rows, email, username).value).Throws?)
  {
    match FindConflict(rows, email, username)
    case None => Returns(None)
    case Some(c) =>
      match Rebuild(c)
      case Throws(x) => Throws(x)
      case Returns(a) => Returns(Some(a))
  }

  /** An upsert on the primary key: the row replaces the stored row with its id, or is
      added at the end. */
  function Upsert(rows: seq<UserRow>, row: UserRow): (r: seq<UserRow>)
    ensures row in r
  {
    if rows == [] then [row]
    else if rows[0].id == row.id then [row] + rows[1..]
    else [rows[0]] + Upsert(rows[1..], row)
  }

  /** A row with a new id is added at the end. */
  lemma {:induction false} UpsertNewId(rows: seq<UserRow>, row: UserRow)
    requires forall i :: 0 <= i < |rows| ==> rows[i].id != row.id
    ensures Upsert(rows, row) == rows + [row]
  {
    if rows != [] {
      UpsertNewId(rows[1..], row);
      assert [rows[0]] + (rows[1..] + [row]) == rows + [row];
    }
  }

  /** A row whose id is stored replaces the first stored row with that id, in place,
      and leaves every other row where it was. */
  lemma {:induction false} UpsertExistingId(rows: seq<UserRow>, row: UserRow, i: nat)
    requires i < |rows| && rows[i].id == row.id
    requires forall j :: 0 <= j < i ==> rows[j].id != row.id
    ensures var r := Upsert(rows, row);
            |r| == |rows| && r[i] == row
            && forall j :: 0 <= j < |rows| && j != i ==> r[j] == rows[j]
  {
    if i > 0 {
      UpsertExistingId(rows[1..], row, i - 1);
    }
  }

  /** The repository port, over an in-memory store. */
  class UserRepository {
    var rows: seq<UserRow>
    /** Every row `save` has been given, in order. */
    var saved: seq<UserRow>

    constructor (rows: seq<UserRow>)
      ensures this.rows == rows && saved == []
    {
      this.rows := rows;
      saved := [];
    }

    /** `findConflictingUser`: a stored user with this e-mail address or user name,
        loaded through `toDomain`. */
    method FindConflictingUser(email: string, username: string)
      returns (o: Completion<Option<(UniqueEntityId, UserAccountProps)>, UnwrapResultError<DomainError>>)
      ensures o == LoadConflict(rows, email, username)
    {
      o := LoadConflict(rows, email, username);
    }

    /** `save`: maps the account to its row and upserts it. */
    method Save(user: UserAccount)
      modifies this
      ensures rows == Upsert(old(rows), PersistedRow(user.id, user.props))
      ensures saved == old(saved) + [PersistedRow(user.id, user.props)]
    {
      var row := ToPersistence(user);
      rows := Upsert(rows, row.Row());
      saved := saved + [row.Row()];
    }
  }

  /** The props handed to `UserAccount.create`: the dto's fields with the password
      replaced by its hash. */
  function AccountInput(dto: CreateUserDto, passwordHash: string): CreateUserProps
  {
    CreateUserProps(dto.username, dto.firstName, dto.lastName, dto.email, passwordHash, dto.role)
  }

  /** How a run of `execute` ends: its promise resolves to a result, or rejects with
      what `toDomain` threw while loading the conflicting user. */
  type Outcome = Completion<Result<CreateUserResponse, DomainError>, UnwrapResultError<DomainError>>

  /** What a run decides: its outcome, and the row it saves, if any. */
  datatype Decision = Decision(result: Outcome, saved: Option<UserRow>)

  /** The service's decision over the stored rows, when uniqueness is checked with the
      keys `emailKey` and `usernameKey`. The reported identifier is the dto's user
      name when the loaded conflicting user has the user name that was looked up,
      else the dto's address. */
  function Decide(rows: seq<UserRow>, dto: CreateUserDto, emailKey: string, usernameKey: string,
                  hash: string -> string, generated: string, now: int): Decision
  {
    match LoadConflict(rows, emailKey, usernameKey)
    case Throws(x) => Decision(Throws(x), None)
    case Returns(Some(loaded)) =>
      Decision(Returns(Err(UserAlreadyExists(if loaded.1.username == usernameKey then dto.username else dto.email))), None)
    case Returns(None) =>
      match InitialProps(AccountInput(dto, hash(dto.password)), now)
      case Err(e) => Decision(Returns(Err(e)), None)
      case Ok(q) =>
        var id := Generate(generated);
        Decision(Returns(Ok(CreateUserResponse(ToString(id), q.username))), Some(PersistedRow(id, q)))
  }

  /** `execute`, with the keys the uniqueness check uses as parameters. */
  method ExecuteWith(repo: UserRepository, dto: CreateUserDto, emailKey: string, usernameKey: string,
                     hash: string -> string, generated: string, now: int,
                     eventGenerated: string, eventTime: int) returns (r: Outcome)
    modifies repo
    ensures var d := Decide(old(repo.rows), dto, emailKey, usernameKey, hash, generated, now);
            r == d.result
            && (d.saved.None? ==> repo.rows == old(repo.rows) && repo.saved == old(repo.saved))
            && (d.saved.Some? ==> repo.rows == Upsert(old(repo.rows), d.saved.value)
                                  && repo.saved == old(repo.saved) + [d.saved.value])
  {
    var conflict := repo.FindConflictingUser(emailKey, usernameKey);
    if conflict.Throws? {
      return Throws(conflict.exception);
    }
    if conflict.value.Some? {
      var identifier := if conflict.value.value.1.username == usernameKey then dto.username else dto.email;
      return Returns(Err(UserAlreadyExists(identifier)));
    }
    var created := CreateAndSave(repo, dto, hash, generated, now, eventGenerated, eventTime);
    r := Returns(created);
  }

  /** The part of `execute` after the uniqueness check: hash the password, create the
      account, and save it when that succeeds. */
  method CreateAndSave(repo: UserRepository, dto: CreateUserDto, hash: string -> string, generated: string, now: int,
                       eventGenerated: string, eventTime: int) returns (r: Result<CreateUserResponse, DomainError>)
    modifies repo
    ensures var q := InitialProps(AccountInput(dto, hash(dto.password)), now);
            (q.Err? ==> r == Err(q.error) && repo.rows == old(repo.rows) && repo.saved == old(repo.saved))
            && (q.Ok? ==> var row := PersistedRow(Generate(generated), q.value);
                          r == Ok(CreateUserResponse(ToString(Generate(generated)), q.value.username))
                          && repo.rows == Upsert(old(repo.rows), row) && repo.saved == old(repo.saved) + [row])
  {
    var passwordHash := hash(dto.password);
    var created := UserAccounts.Create(AccountInput(dto, passwordHash), None, generated, now, eventGenerated, eventTime);
    if created.Err? {
      return Err(created.error);
    }
    r := SaveCreated(repo, created.value);
  }

  /** Saving a new account and answering with its id and user name. */
  method SaveCreated(repo: UserRepository, user: UserAccount) returns (r: Result<CreateUserResponse, DomainError>)
    requires user as object != repo
    modifies repo
    ensures r == Ok(CreateUserResponse(ToString(user.id), user.props.username))
    ensures repo.rows == Upsert(old(repo.rows), PersistedRow(user.id, user.props))
    ensures repo.saved == old(repo.saved) + [PersistedRow(user.id, user.props)]
  {
    repo.Save(user);
    return Ok(CreateUserResponse(ToString(user.id), Username(user)));
  }

  /** `execute` as written: uniqueness is checked with the dto's raw e-mail address and
      user name. */
  method Execute(repo: UserRepository, dto: CreateUserDto, hash: string -> string, generated: string, now: int,
                 eventGenerated: string, eventTime: int) returns (r: Outcome)
    modifies repo
    ensures var d := Decide(old(repo.rows), dto, dto.email, dto.username, hash, generated, now);
            r == d.result
            && (d.saved.None? ==> repo.rows == old(repo.rows) && repo.saved == old(repo.saved))
            && (d.saved.Some? ==> repo.rows == Upsert(old(repo.rows), d.saved.value)
                                  && repo.saved == old(repo.saved) + [d.saved.value])
  {
    r := ExecuteWith(repo, dto, dto.email, dto.username, hash, generated, now, eventGenerated, eventTime);
  }

  /** The key an input is stored under: its normalised form when its value object
      accepts it, the raw input otherwise (the account is then refused anyway). */
  function EmailKey(raw: string): string
  {
    if Emails.Create(raw).Ok? then Emails.Create(raw).value else raw
  }

  function UsernameKey(raw: string): string
  {
    if ExternalIds.Create(raw).Ok? then ExternalIds.Create(raw).value else raw
  }

  /** `execute` with uniqueness checked on the normalised keys, the form the rows
      store. */
  method ExecuteNormalised(repo: UserRepository, dto: CreateUserDto, hash: string -> string, generated: string, now: int,
                           eventGenerated: string, eventTime: int) returns (r: Outcome)
    modifies repo
    ensures var d := Decide(old(repo.rows), dto, EmailKey(dto.email), UsernameKey(dto.username), hash, generated, now);
            r == d.result
            && (d.saved.None? ==> repo.rows == old(repo.rows) && repo.saved == old(repo.saved))
            && (d.saved.Some? ==> repo.rows == Upsert(old(repo.rows), d.saved.value)
                                  && repo.saved == old(repo.saved) + [d.saved.value])
  {
    r := ExecuteWith(repo, dto, EmailKey(dto.email), UsernameKey(dto.username), hash, generated, now, eventGenerated, eventTime);
  }

  // ---------------------------------------------------------------------------
  // Properties of the decision

  /** A conflict saves nothing. If the conflicting row cannot be loaded, the run
      rejects with what `toDomain` threw; otherwise it ends with
      `UserAlreadyExistsError`, whose identifier is the dto's user name exactly when
      the loaded user name, the trimmed stored one, equals it. */
  lemma ConflictSavesNothing(rows: seq<UserRow>, dto: CreateUserDto, hash: string -> string, generated: string, now: int)
    requires FindConflict(rows, dto.email, dto.username).Some?
    ensures var d := Decide(rows, dto, dto.email, dto.username, hash, generated, now);
            var c := FindConflict(rows, dto.email, dto.username).value;
            d.saved.None?
            && (Rebuild(c).Throws? ==> d.result == Throws(Rebuild(c).exception))
            && (Rebuild(c).Returns? ==>
                  d.result.Returns? && d.result.value.Err? && d.result.value.error.UserAlreadyExists?
                  && d.result.value.error.identifier
                     == if Strings.Trim(c.username) == dto.username then dto.username else dto.email)
            && (c.username != dto.username ==> c.email == dto.email)
  {
    var c := FindConflict(rows, dto.email, dto.username).value;
    if Rebuild(c).Returns? {
      RebuildReturns(c);
    }
  }

  /** A stored user name with surrounding whitespace (a row this service never writes,
      such as a seeded one) is found by the raw lookup, but the loaded user name is
      trimmed, so the error names the dto's e-mail address, not the user name that
      clashed. */
  lemma PaddedStoredUsernameNamesEmail(rows: seq<UserRow>, dto: CreateUserDto, hash: string -> string,
                                       generated: string, now: int)
    requires FindConflict(rows, dto.email, dto.username).Some?
    requires var c := FindConflict(rows, dto.email, dto.username).value;
             Rebuild(c).Returns? && c.username == dto.username && Strings.Trim(dto.username) != dto.username
    ensures Decide(rows, dto, dto.email, dto.username, hash, generated, now).result
            == Returns(Err(UserAlreadyExists(dto.email)))
  {
    ConflictSavesNothing(rows, dto, hash, generated, now);
  }

  /** Without a conflict, the run fails exactly when `UserAccount.create` does, with its
      error and nothing saved; otherwise it saves one row for a new account built
      from the hash of the password, and answers with that row's id and user name. */
  lemma NoConflictCreates(rows: seq<UserRow>, dto: CreateUserDto, emailKey: string, usernameKey: string,
                          hash: string -> string, generated: string, now: int)
    requires FindConflict(rows, emailKey, usernameKey).None?
    ensures var d := Decide(rows, dto, emailKey, usernameKey, hash, generated, now);
            var created := InitialProps(AccountInput(dto, hash(dto.password)), now);
            d.result.Returns?
            && (d.result.value.Err? <==> created.Err?)
            && (created.Err? ==> d.result.value.error == created.error && d.saved.None?)
            && (created.Ok? ==>
                  d.saved.Some? && d.saved.value.id == generated && d.result.value.value.id == generated
                  && d.result.value.value.username == d.saved.value.username == Strings.Trim(dto.username)
                  && d.saved.value.passwordHash == Strings.Trim(hash(dto.password))
                  && d.saved.value.isActive)
  {
    var created := InitialProps(AccountInput(dto, hash(dto.password)), now);
    if created.Ok? {
      InitialPropsValues(AccountInput(dto, hash(dto.password)), now);
    }
  }

  /** No two stored rows share an e-mail address or a user name, and no two share an
      id. */
  predicate UniqueIdentities(rows: seq<UserRow>)
  {
    forall i, j :: 0 <= i < j < |rows| ==>
      rows[i].email != rows[j].email && rows[i].username != rows[j].username && rows[i].id != rows[j].id
  }

  /** As written, a user name that differs from a stored one only by surrounding
      whitespace passes the check, and the account saved under it repeats the stored
      user name. */
  lemma RawCheckAdmitsDuplicate(rows: seq<UserRow>, dto: CreateUserDto, hash: string -> string,
                                generated: string, now: int, k: nat)
    requires k < |rows| && rows[k].username == Strings.Trim(dto.username)
    requires FindConflict(rows, dto.email, dto.username).None?
    requires InitialProps(AccountInput(dto, hash(dto.password)), now).Ok?
    requires forall i :: 0 <= i < |rows| ==> rows[i].id != generated
    ensures var d := Decide(rows, dto, dto.email, dto.username, hash, generated, now);
            d.result.Returns? && d.result.value.Ok? && d.saved.Some? && !UniqueIdentities(Upsert(rows, d.saved.value))
  {
    var d := Decide(rows, dto, dto.email, dto.username, hash, generated, now);
    NoConflictCreates(rows, dto, dto.email, dto.username, hash, generated, now);
    UpsertNewId(rows, d.saved.value);
    var after := Upsert(rows, d.saved.value);
    assert after[k].username == after[|rows|].username;
  }

  /** The input that shows it: a stored `ann`, and a new user ` ann` with another
      address. The raw check finds no conflict, but the stored user name is `ann`
      again. */
  lemma PaddedUsernameSlipsThrough()
    ensures var stored := UserRow("id-1", "ann", "ann@uni.edu", "ANN", "LEE", "0123456789abcdefghij", "STUDENT", true, 0, 0);
            FindConflict([stored], "zoe@uni.edu", " ann").None?
            && ExternalIds.Create(" ann") == Ok(stored.username)
  {
    PaddedUsernameTrims();
    PaddedUsernameFindsNoConflict();
  }

  lemma PaddedUsernameTrims()
    ensures ExternalIds.Create(" ann") == Ok("ann")
  {
    assert !Strings.IsWhitespace("ann"[0]) && !Strings.IsWhitespace("ann"[2]);
    Strings.TrimPadded(" ", "ann", "");
    assert " ann" == " " + "ann" + "";
    assert !Strings.AllWhitespace(" ann") by { assert !Strings.IsWhitespace(" ann"[1]); }
  }

  lemma PaddedUsernameFindsNoConflict()
    ensures FindConflict([UserRow("id-1", "ann", "ann@uni.edu", "ANN", "LEE", "0123456789abcdefghij", "STUDENT", true, 0, 0)],
                         "zoe@uni.edu", " ann").None?
  {
    assert "ann"[0] != " ann"[0];
    assert "ann@uni.edu"[0] != "zoe@uni.edu"[0];
  }

  /** A saved row sits under the normalised keys and the generated id, and only
      follows a check that found no conflict on those keys. */
  lemma SavedUnderNormalisedKeys(rows: seq<UserRow>, dto: CreateUserDto, hash: string -> string,
                                 generated: string, now: int)
    requires Decide(rows, dto, EmailKey(dto.email), UsernameKey(dto.username), hash, generated, now).saved.Some?
    ensures var row := Decide(rows, dto, EmailKey(dto.email), UsernameKey(dto.username), hash, generated, now).saved.value;
            row.email == EmailKey(dto.email) && row.username == UsernameKey(dto.username) && row.id == generated
    ensures FindConflict(rows, EmailKey(dto.email), UsernameKey(dto.username)).None?
  {
    var input := AccountInput(dto, hash(dto.password));
    var cs := Checks(input);
    assert cs[0] == ExternalIds.Create(dto.username) && cs[1] == Emails.Create(dto.email);
  }

  /** Adding a row whose identities are all new keeps them unique. */
  lemma AppendKeepsUnique(rows: seq<UserRow>, row: UserRow)
    requires UniqueIdentities(rows)
    requires forall i :: 0 <= i < |rows| ==>
               rows[i].email != row.email && rows[i].username != row.username && rows[i].id != row.id
    ensures UniqueIdentities(rows + [row])
  {
    var after := rows + [row];
    forall i, j | 0 <= i < j < |after|
      ensures after[i].email != after[j].email && after[i].username != after[j].username && after[i].id != after[j].id
    {
      assert after[i] == rows[i];
    }
  }

  /** Checked on the normalised keys, a run on a store without duplicate identities,
      with a new id, leaves the store without duplicate identities. */
  lemma {:induction false} NormalisedCheckKeepsIdentitiesUnique(rows: seq<UserRow>, dto: CreateUserDto, hash: string -> string,
                                             generated: string, now: int)
    requires UniqueIdentities(rows)
    requires forall i :: 0 <= i < |rows| ==> rows[i].id != generated
    ensures var d := Decide(rows, dto, EmailKey(dto.email), UsernameKey(dto.username), hash, generated, now);
            d.saved.Some? ==> UniqueIdentities(Upsert(rows, d.saved.value))
  {
    var d := Decide(rows, dto, EmailKey(dto.email), UsernameKey(dto.username), hash, generated, now);
    if d.saved.Some? {
      SavedUnderNormalisedKeys(rows, dto, hash, generated, now);
      UpsertNewId(rows, d.saved.value);
      AppendKeepsUnique(rows, d.saved.value);
    }
  }
}

# unsacad core in Dafny

A model of the domain core of the unsacad API: the shared kernel and the IAM module.

The shared kernel covers:

- the `Result` and `Option` tagged unions and their combinators;
- the `Guard` predicates and the `DateUtil` functions;
- the `UniqueEntityID` identifier;
- the `ValueObject`, `Entity`, `AggregateRoot` and `DomainEvent` base classes.

The IAM module covers:

- the value objects `ExternalId`, `Email`, `Name`, `HashedPassword`, `UserRole`, `ActiveFlag` and `ExternalKey`;
- the `UserAccount` aggregate and its `UserMapper`;
- the `CreateUserService`, with its uniqueness rule.

Two HTTP-side pieces are modelled too: the expiry arithmetic of the JWT token service and the `ApiResponseFactory` envelopes.

How the source maps onto Dafny:

- Pure code is datatypes and functions, with the properties stated as lemmas.
- Code that changes objects in place is a class with `modifies` clauses. This covers the aggregate's event list, the mapper's row object, the repository, and the mutable props that the `validate` hooks write back.
- JavaScript values that generic code walks are the closed datatype `JsValues.JsValue`: `unpackRecursively`, `toObject` and `JSON.stringify` all walk them. An argument that may be `null`/`undefined`, or an object of another class, is `JsValues.Arg`.
- The clock (`Date.now()`), random UUIDs and the password hasher are parameters of the operations that use them.

Each value object with a `validate` hook is modelled twice:

- as a total function `Create(raw)`, which gives `Ok(normalised value)` or `Err(ArgumentInvalid(message))` in place of the thrown `ArgumentInvalidException`;
- as a method `Validate` on a mutable `StringProps`, which writes the normalised value back on success and leaves the props unchanged on failure, as the hook does.

`Names.Create` and `Names.Validate` use the character class of `NameVO` as written. The class widened by `Ÿ` appears only in `Names.CreateWidened`, the correction listed under "## Findings".

`UserAccount.create` then runs the six checks in the order `Result.all` receives them.

## Model

| member | source | states |
|---|---|---|
| Results.ExactlyOneVariant | packages/shared-kernel/src/functional/result.ts:44-53 | every result is exactly one of Ok and Err |
| Results.UnwrapContract | packages/shared-kernel/src/functional/result.ts:60-77 | `unwrap` returns exactly the Ok value and otherwise throws `UnwrapResultError` carrying the error; `unwrapErr` is its mirror image; exactly one of the two returns |
| Results.UnwrapOrAgreesWithUnwrap | packages/shared-kernel/src/functional/result.ts:82-91 | `unwrapOr`/`unwrapOrElse` return what `unwrap` returns when it returns, and otherwise the default or the function of the error; on Ok the fallback function is never used |
| Results.MapLaws | packages/shared-kernel/src/functional/result.ts:97-99 | `map` transforms Ok, passes Err through, obeys the functor laws and equals `andThen` followed by `ok` |
| Results.MapErrLaws | packages/shared-kernel/src/functional/result.ts:105-107 | `mapErr` transforms Err, passes Ok through, obeys the functor laws and commutes with `map` |
| Results.AndThenLaws | packages/shared-kernel/src/functional/result.ts:113-115 | `andThen` short-circuits on Err and is a monadic bind (left identity, right identity, associativity) |
| Results.MatchLaws | packages/shared-kernel/src/functional/result.ts:121-123 | `match` runs exactly the handler of the active variant; matching with `ok`/`err` rebuilds the result |
| Results.Combine | packages/shared-kernel/src/functional/result.test.ts:200-217 | `combine` is Ok exactly when every item is Ok, and then holds every value in input order |
| Results.CombineFirstErr | packages/shared-kernel/src/functional/result.test.ts:208-217 | the error of `combine` is that of the leftmost failing item |
| Options.NoneIsShared | packages/shared-kernel/src/functional/option.ts:20-35 | every None is the one shared `NONE` value |
| Options.ExactlyOneVariant | packages/shared-kernel/src/functional/option.ts:40-49 | every option is exactly one of Some and None |
| Options.UnwrapContract | packages/shared-kernel/src/functional/option.ts:54-73 | `unwrap` returns exactly the Some value and throws `UnwrapOptionError` on None; `unwrapOr`/`unwrapOrElse` agree with it and fall back on None |
| Options.MapLaws | packages/shared-kernel/src/functional/option.ts:79-81 | `map` transforms Some, keeps None, obeys the functor laws and equals `andThen` followed by `some` |
| Options.AndThenLaws | packages/shared-kernel/src/functional/option.ts:86-88 | `andThen` short-circuits on None and is a monadic bind |
| Options.MatchLaws | packages/shared-kernel/src/functional/option.ts:93-101 | `match` runs exactly the handler of the active variant and equals `map` then `unwrapOrElse` |
| Guard.IsEmptyCases | packages/shared-kernel/src/guard/guard.ts:8-13 | null and undefined are empty; a string is empty iff it is whitespace only; an array iff it has no items; numbers, booleans, dates and objects never are |
| Guard.ShortLongExclusive | packages/shared-kernel/src/guard/guard.ts:18-27 | no value is both shorter and longer than one bound; it is neither iff its length equals the bound |
| Guard.OutOfRangeInclusive | packages/shared-kernel/src/guard/guard.ts:32-34 | a value is in range iff `min <= value <= max`; both bounds are in range |
| DateUtil.OrderLaws | packages/shared-kernel/src/utils/date.util.ts:22-31 | `isAfter` is `isBefore` with swapped arguments; both are strict, exclusive and total on distinct instants |
| DateUtil.StartOfUtcDay | packages/shared-kernel/src/utils/date.util.ts:55-59 | the result is a multiple of a day with `r <= t < r + day` |
| DateUtil.StartOfUtcDayUnique | packages/shared-kernel/src/utils/date.util.ts:55-59 | it is the only such multiple of a day |
| DateUtil.StartOfUtcDayIdempotent | packages/shared-kernel/src/utils/date.util.ts:55-59 | applying it twice changes nothing |
| DateUtil.IsoOfStartOfUtcDay | packages/shared-kernel/src/utils/date.util.ts:55-59 | the ISO string of the start of the day keeps the date of `t` and reads `T00:00:00.000Z` |
| DateUtil.ToIsoString | packages/shared-kernel/src/utils/date.util.ts:16 | `toISOString` in UTC: the civil date, then `THH:mm:ss.sssZ` (stated by the lemmas below) |
| DateUtil.ReadPad | packages/shared-kernel/src/utils/date.util.ts:16 | a number with at most `width` digits, zero-padded to `width`, reads back as itself |
| DateUtil.TimePartRoundTrip | packages/shared-kernel/src/utils/date.util.ts:16 | the `THH:mm:ss.sssZ` written for a time of day reads back as that time |
| DateUtil.IsoTimeRoundTrip | packages/shared-kernel/src/utils/date.util.ts:16 | the ISO string ends in a 14-character `T…Z` clock that reads back as the milliseconds of the instant into its UTC day |
| DateUtil.IsoDistinguishesTimesOfDay | packages/shared-kernel/src/utils/date.util.ts:16 | two different instants of the same UTC day have different ISO strings |
| DateUtil.IsoExample | packages/shared-kernel/src/utils/date.util.test.ts:52-62 | `toISOString` of the test's instant is `2020-01-02T15:45:30.500Z` |
| EntityIds.New | packages/shared-kernel/src/ddd/unique-entity-id.ts:6-8 | the id holds the given string, or else the generated one |
| EntityIds.AccessorsReturnValue | packages/shared-kernel/src/ddd/unique-entity-id.ts:10-16 | `toString` and `toValue` both return the string the id was built from |
| EntityIds.EqualsLaws | packages/shared-kernel/src/ddd/unique-entity-id.ts:18-26 | `equals` rejects null, undefined and non-ids, and otherwise is string equality, an equivalence relation |
| EntityIds.FreshIdsDiffer | packages/shared-kernel/src/ddd/unique-entity-id.ts:6-8 | ids built from different generated strings are not equal |
| ValueObjects.DomainPrimitiveUnpack | packages/shared-kernel/src/ddd/value-object.base.ts:30-50 | props with a `value` key are a domain primitive, and `value`/`unpack` return that key's value |
| ValueObjects.UnpackIsPlain | packages/shared-kernel/src/ddd/value-object.base.ts:44-50 | unpacking well-typed props leaves no value object anywhere inside the result |
| ValueObjects.PlainIsFixedPoint | packages/shared-kernel/src/ddd/value-object.base.ts:74-93 | `unpackRecursively` returns plain data unchanged |
| ValueObjects.Unpack | packages/shared-kernel/src/ddd/value-object.base.ts:44-50 | `unpack`: the `value` key of a domain primitive, otherwise `unpackRecursively` of the props (stated by `DomainPrimitiveUnpack` and `UnpackIsPlain`) |
| ValueObjects.UnpackRecursively | packages/shared-kernel/src/ddd/value-object.base.ts:74-93 | unwraps nested value objects, maps arrays, rebuilds other non-`Date` objects key by key (an entity through `_id` and `props`, an aggregate also through `_domainEvents`), and returns anything else as it is (stated by `UnpackIsPlain`, `PlainIsFixedPoint` and `UnpackKeepsPendingEvents`) |
| ValueObjects.UnpackKeepsPendingEvents | packages/shared-kernel/src/ddd/value-object.base.ts:83-90 | an aggregate is rebuilt with the keys `_id`, `props` and `_domainEvents`, the last holding every pending event unpacked |
| ValueObjects.Equals | packages/shared-kernel/src/ddd/value-object.base.ts:56-62 | false for a null or undefined argument or one whose props are undefined; otherwise equality of the two `JSON.stringify` texts (stated by the lemmas below) |
| ValueObjects.EqualsLaws | packages/shared-kernel/src/ddd/value-object.base.ts:56-62 | `equals` rejects null and undefined, is reflexive exactly for defined props, symmetric and transitive |
| ValueObjects.PendingEventsAreCompared | packages/shared-kernel/src/ddd/value-object.base.ts:61 | value objects holding the same aggregate id and props are equal iff the aggregates' pending events serialise alike, since `JSON.stringify` writes the own key `_domainEvents` of aggregate-root.base.ts:5 |
| ValueObjects.OnePendingEventBreaksEquality | packages/shared-kernel/src/ddd/value-object.base.ts:61 | the same aggregate with no pending event and with one makes two unequal value objects |
| ValueObjects.UndefinedPropsEqualNothing | packages/shared-kernel/src/ddd/value-object.base.ts:58-61 | a value object whose props are `undefined` equals no other, not even one whose props are `null` |
| ValueObjects.FieldOrderMatters | packages/shared-kernel/src/ddd/value-object.base.ts:61 | the same fields in another order are not equal, because the model's `JSON.stringify` writes keys in insertion order |
| ValueObjects.EqualsFieldwise | packages/shared-kernel/src/ddd/value-object.base.ts:61 | props with the same keys in the same order, whose values stringify alike, are equal |
| ValueObjects.UndefinedMembersIgnored | packages/shared-kernel/src/ddd/value-object.base.ts:61 | a member whose value is `undefined` does not affect equality |
| ValueObjects.DateEqualsItsIsoString | packages/shared-kernel/src/ddd/value-object.base.ts:61 | a value object holding a `Date` equals one holding its ISO string |
| ValueObjects.StringProps.constructor | packages/shared-kernel/src/ddd/value-object.base.ts:23-25 | the mutable `{ value }` props object a `validate` hook receives |
| Entities.New | packages/shared-kernel/src/ddd/entity.base.ts:31-34 | the entity's id is the given id, or else a generated one |
| Entities.ConstructorCopiesProps | packages/shared-kernel/src/ddd/entity.base.ts:33 | the props copy holds the same keys and values in the same order |
| Entities.IsEntityCases | packages/shared-kernel/src/ddd/entity.base.ts:42-44 | entities are recognised; null, plain objects and strings are not |
| Entities.EqualsByIdentity | packages/shared-kernel/src/ddd/entity.base.ts:49-54 | `equals` rejects null, undefined and non-entities, and otherwise compares ids only, whatever the props |
| Entities.ConvertProps | packages/shared-kernel/src/ddd/entity.base.ts:68-74 | the result has the same keys in the same order, each value serialised |
| JsValues.Spread | packages/shared-kernel/src/ddd/entity.base.ts:61-65 | `{ ...base, ...extra }`: keeps distinct keys distinct |
| JsValues.SpreadLookup | apps/api/src/common/http/api-response.factory.ts:82-86 | after a spread, a key of the extra object reads its value there, and any other key reads its value in the base |
| JsValues.SpreadKeySet | apps/api/src/common/http/api-response.factory.ts:82-86 | the spread holds exactly the keys of the base and of the extra object |
| JsValues.SpreadKeepsBaseKeys | packages/shared-kernel/src/ddd/entity.base.ts:61-65 | the base's keys stay first, in their order |
| Entities.Serialize | packages/shared-kernel/src/ddd/entity.base.ts:76-84 | `serializeValue`: a `Date` becomes its ISO string, an array is serialised element by element, an entity becomes its `toObject`, every other non-null object is rebuilt key by key with each value serialised (so a value object becomes `{ props: … }`), and primitives, `null` and `undefined` stay as they are (stated by `SerializeIsJsonReady` and `JsonReadyIsFixedPoint`) |
| Entities.ToObject | packages/shared-kernel/src/ddd/entity.base.ts:60-66 | `{ id, ...convertProps(props) }` (stated by `ToObjectShape`) |
| Entities.ToObjectShape | packages/shared-kernel/src/ddd/entity.base.ts:60-66 | `toObject` starts with `id`, holds exactly `id` and the prop keys with their serialised values, and a prop named `id` overrides the id |
| Entities.SerializeIsJsonReady | packages/shared-kernel/src/ddd/entity.base.ts:76-84 | serialisation leaves no `Date`, value object or entity anywhere inside |
| Entities.JsonReadyIsFixedPoint | packages/shared-kernel/src/ddd/entity.base.ts:76-84 | JSON-ready data serialises to itself |
| DomainEvents.New | packages/shared-kernel/src/ddd/domain-event.base.ts:24-29 | the event keeps its name, aggregate id and payload; the event id and time default to a generated id and the current time |
| DomainEvents.ToJson | packages/shared-kernel/src/ddd/domain-event.base.ts:40-48 | the five-key JSON object of an event (stated by `ToJsonShape`) |
| DomainEvents.ToJsonShape | packages/shared-kernel/src/ddd/domain-event.base.ts:40-48 | `toJSON` holds exactly the five keys in order, with string ids, an ISO time and the payload |
| Aggregates.EventList.constructor | packages/shared-kernel/src/ddd/aggregate-root.base.ts:5 | a new event array holds the given items |
| Aggregates.EventList.Push | packages/shared-kernel/src/ddd/aggregate-root.base.ts:12 | `push` appends one event at the end |
| Aggregates.AggregateRoot.constructor | packages/shared-kernel/src/ddd/aggregate-root.base.ts:5 | a new aggregate has its id and props and a fresh, empty event array |
| Aggregates.AggregateRoot.DomainEvents | packages/shared-kernel/src/ddd/aggregate-root.base.ts:7-9 | the getter returns the live array itself |
| Aggregates.AggregateRoot.AddDomainEvent | packages/shared-kernel/src/ddd/aggregate-root.base.ts:11-13 | the pending events gain the new one at the end |
| Aggregates.AggregateRoot.ClearEvents | packages/shared-kernel/src/ddd/aggregate-root.base.ts:15-17 | a fresh empty array replaces the pending events; the props are kept |
| Aggregates.AggregateRoot.PullEvents | packages/shared-kernel/src/ddd/aggregate-root.base.ts:19-23 | returns a fresh copy of the pending events and leaves a different, empty array behind |
| Aggregates.AggregateRoot.UpdateProps | apps/api/src/modules/iam/domain/user-account.entity.ts:126-148 | replaces the props and keeps the event array |
| Aggregates.AppendThroughGetter | packages/shared-kernel/src/ddd/aggregate-root.base.test.ts:74-84 | pushing onto the array the getter returns adds a pending event |
| Aggregates.PushOntoPulled | packages/shared-kernel/src/ddd/aggregate-root.base.test.ts:63-72 | pushing onto a pulled array leaves the aggregate without pending events |
| Aggregates.PullTwice | packages/shared-kernel/src/ddd/aggregate-root.base.ts:19-23 | a second pull returns nothing |
| ExternalIds.Create | apps/api/src/modules/iam/domain/value-objects/external-id.vo.ts:9-15 | fails with `InvalidExternalIdError(id)` iff the string is blank; otherwise holds the trimmed, non-empty string |
| ExternalIds.CreateIdempotent | apps/api/src/modules/iam/domain/value-objects/external-id.vo.ts:9-15 | re-creating from the stored value gives the same result |
| Emails.PatternIsDecomposition | apps/api/src/modules/iam/domain/value-objects/email.vo.ts:7 | the position-wise check accepts exactly the strings the regular expression matches |
| Emails.Create | apps/api/src/modules/iam/domain/value-objects/email.vo.ts:12-19 | accepted iff the trimmed, lower-cased address matches the pattern, and then holds that address; otherwise `Invalid email format` |
| Emails.AcceptedShape | apps/api/src/modules/iam/domain/value-objects/email.vo.ts:7 | an accepted address has no whitespace and holds an `@` |
| Emails.OneAt | apps/api/src/modules/iam/domain/value-objects/email.vo.ts:7 | an address matching the pattern holds exactly one `@` |
| Emails.CreateIdempotent | apps/api/src/modules/iam/domain/value-objects/email.vo.ts:12-19 | normalising an accepted address again changes nothing |
| Emails.Validate | apps/api/src/modules/iam/domain/value-objects/email.vo.ts:12-19 | the hook writes the normalised address back on success and leaves the props unchanged on failure |
| HashedPasswords.Create | apps/api/src/modules/iam/domain/value-objects/hashed-password.vo.ts:8-17 | fails iff the trimmed hash is shorter than 20; otherwise holds the trimmed hash |
| HashedPasswords.CreateIdempotent | apps/api/src/modules/iam/domain/value-objects/hashed-password.vo.ts:8-17 | an accepted hash validates to itself |
| HashedPasswords.Validate | apps/api/src/modules/iam/domain/value-objects/hashed-password.vo.ts:8-17 | the hook writes the trimmed hash back on success and leaves the props unchanged on failure |
| UserRoles.Create | apps/api/src/modules/iam/domain/value-objects/user-role.vo.ts:5-9 | accepted iff the value is one of the four enum strings, and kept as given |
| UserRoles.NoNormalisation | apps/api/src/modules/iam/domain/iam.types.ts:10-15 | neither case nor surrounding whitespace is forgiven |
| UserRoles.CreateIdempotent | apps/api/src/modules/iam/domain/value-objects/user-role.vo.ts:5-9 | an accepted role validates to itself |
| ActiveFlags.Create | apps/api/src/modules/iam/domain/value-objects/active-flag.vo.ts:11-13 | never fails and holds the given boolean |
| ActiveFlags.FlagLaws | apps/api/src/modules/iam/domain/value-objects/active-flag.vo.ts:15-29 | `active()` is active, `inactive()` is inactive, and every flag is exactly one of the two |
| Strings.Trim | apps/api/src/modules/iam/domain/value-objects/name.vo.ts:8 | the result neither starts nor ends with whitespace, is empty iff the input is blank, and leaves a string without whitespace as it is |
| Strings.TrimIsSlice | apps/api/src/modules/iam/domain/value-objects/name.vo.ts:8 | trimming removes only whitespace, and only from the two ends |
| Strings.TrimIdempotent | apps/api/src/modules/iam/domain/value-objects/name.vo.ts:8 | trimming twice is trimming once |
| Names.Check | apps/api/src/modules/iam/domain/value-objects/name.vo.ts:7-20 | too short iff the trimmed name has fewer than 2 characters; invalid iff one of its characters is outside the given class; otherwise the upper-cased trimmed name |
| Names.Create | apps/api/src/modules/iam/domain/value-objects/name.vo.ts:7-20 | the hook of `NameVO`: `Check` with the class of line 14 exactly (ASCII letters, `À-Ö`, `Ø-ö`, `ø-ÿ`, apostrophe, space, hyphen); its outcome is stated by `Names.Check` |
| Names.CreateWidened | apps/api/src/modules/iam/domain/value-objects/name.vo.ts:7-20 | not the class `NameVO` uses: `Check` with the class of line 14 widened by `Ÿ`, the correction of the first finding |
| Names.ToUpperOfNameChars | apps/api/src/modules/iam/domain/value-objects/name.vo.ts:18 | upper-casing a name of the class stays in the class and is idempotent |
| Names.CreateWidenedIdempotent | apps/api/src/modules/iam/domain/value-objects/name.vo.ts:7-20 | with the class widened by `Ÿ` (not the source's), every stored name is accepted again unchanged |
| Names.CreateIdempotentWithoutSmallYDiaeresis | apps/api/src/modules/iam/domain/value-objects/name.vo.ts:14-19 | every name `NameVO` accepts whose trimmed form holds no `ÿ` is stored in a form the hook accepts again unchanged |
| Names.CreateRejectsStoredSmallYDiaeresis | apps/api/src/modules/iam/domain/value-objects/name.vo.ts:14-19 | every name `NameVO` accepts whose trimmed form holds `ÿ` is stored in a form the same hook rejects as invalid characters |
| Names.CreateRejectsItsOwnOutput | apps/api/src/modules/iam/domain/value-objects/name.vo.ts:14-19 | `Aÿ` is stored as `AŸ`, which `NameVO` rejects and the widened class accepts |
| Names.Validate | apps/api/src/modules/iam/domain/value-objects/name.vo.ts:7-20 | with `NameVO`'s own class, the hook writes the upper-cased name back exactly when `Names.Create` succeeds, and leaves the props unchanged on failure |
| ExternalKeys.PositionalForm | apps/api/src/modules/iam/domain/value-objects/external-key.vo.ts:3-4 | the UUID pattern is 36 positions: hyphens at 8, 13, 18 and 23, `4` at 14, a variant digit at 19, hex elsewhere |
| ExternalKeys.Create | apps/api/src/modules/iam/domain/value-objects/external-key.vo.ts:7-15 | fails iff the trimmed key does not match the pattern; otherwise holds the trimmed 36-character key |
| ExternalKeys.AcceptsUuidUnchanged | apps/api/src/modules/iam/domain/value-objects/external-key.vo.ts:7-15 | a valid key, with any surrounding whitespace, is accepted as the bare key |
| ExternalKeys.CreateIdempotent | apps/api/src/modules/iam/domain/value-objects/external-key.vo.ts:7-15 | re-creating from an accepted key gives that key back |
| ExternalKeys.GenerateSucceeds | apps/api/src/modules/iam/domain/value-objects/external-key.vo.ts:20-23 | a generated version-4 UUID is a valid key, unchanged |
| ExternalKeys.Validate | apps/api/src/modules/iam/domain/value-objects/external-key.vo.ts:7-15 | the hook writes the trimmed key back on success and leaves the props unchanged on failure |
| UserAccounts.Checks | apps/api/src/modules/iam/domain/user-account.entity.ts:44-51 | the six value-object checks, in the order `Result.all` receives them, the names with `NameVO`'s own class |
| UserAccounts.InitialProps | apps/api/src/modules/iam/domain/user-account.entity.ts:43-73 | the props exist iff all six checks pass; they hold the checked values, an active flag, and `createdAt == updatedAt == now` |
| UserAccounts.InitialPropsValues | apps/api/src/modules/iam/domain/user-account.entity.ts:43-73 | a created account holds the trimmed user name, the trimmed lower-cased e-mail address, the upper-cased names, the trimmed hash and the role as given |
| UserAccounts.InitialPropsFirstError | apps/api/src/modules/iam/domain/user-account.entity.ts:44-55 | the first failing check decides the error |
| UserAccounts.CreatedEventShape | apps/api/src/modules/iam/domain/user-account.entity.ts:75-86 | the event concerns the new account, is named `Iam.UserCreated`, and carries its e-mail address, user name and role |
| UserAccounts.Create | apps/api/src/modules/iam/domain/user-account.entity.ts:43-89 | on a failed check, that check's error and no account; otherwise a fresh account with the initial props, holding exactly one pending `UserCreated` event when no id is passed and no pending event when one is |
| UserAccounts.FullName | apps/api/src/modules/iam/domain/user-account.entity.ts:107-109 | the first name, one space, then the last name |
| UserAccounts.CreatedUserGetters | apps/api/src/modules/iam/domain/user-account.entity.ts:95-124 | the getters of a fresh account report its input in normalised form; the account is active, and created and updated at the same time |
| UserAccounts.Deactivated | apps/api/src/modules/iam/domain/user-account.entity.ts:134-140 | fails with `UserAlreadyInactiveError` iff the account is inactive; otherwise only the flag changes |
| UserAccounts.Activated | apps/api/src/modules/iam/domain/user-account.entity.ts:142-148 | fails with `UserAlreadyActiveError` iff the account is active; otherwise only the flag changes |
| UserAccounts.PasswordChanged | apps/api/src/modules/iam/domain/user-account.entity.ts:126-132 | fails iff the new hash is invalid; otherwise only the hash (trimmed) and `updatedAt` change |
| UserAccounts.ActivationStateMachine | apps/api/src/modules/iam/domain/user-account.entity.ts:134-148 | from any state exactly one transition succeeds, it flips the flag, and repeating it fails |
| UserAccounts.PasswordChangeKeepsTheRest | apps/api/src/modules/iam/domain/user-account.entity.ts:126-132 | a password change keeps the flag, the identity fields and the creation time |
| UserAccounts.ChangePassword | apps/api/src/modules/iam/domain/user-account.entity.ts:126-132 | the account's props become those of `PasswordChanged`, or stay as they were with its error; pending events are untouched |
| UserAccounts.Deactivate | apps/api/src/modules/iam/domain/user-account.entity.ts:134-140 | the account's props become those of `Deactivated`, or stay as they were with its error |
| UserAccounts.Activate | apps/api/src/modules/iam/domain/user-account.entity.ts:142-148 | the account's props become those of `Activated`, or stay as they were with its error |
| UserAccounts.Unsafe | apps/api/src/modules/iam/infrastructure/database/user.mapper.ts:45 | a fresh account with the given id and props and no pending events |
| UserMappers.UserOrmEntity.constructor | apps/api/src/modules/iam/infrastructure/database/user.mapper.ts:14 | a new row object, its columns not yet set |
| UserMappers.PersistedRow | apps/api/src/modules/iam/infrastructure/database/user.mapper.ts:13-28 | every column is the corresponding getter's value; the id is its string |
| UserMappers.ToPersistence | apps/api/src/modules/iam/infrastructure/database/user.mapper.ts:13-28 | a fresh row object holding `PersistedRow` of the account |
| UserMappers.Rebuild | apps/api/src/modules/iam/infrastructure/database/user.mapper.ts:30-46 | the value `toDomain` computes from a row: the checked columns in the source's order, or what the first failing `unwrap` throws (stated by `RebuildReturns` and `RebuildThrowsAt`) |
| UserMappers.ToDomain | apps/api/src/modules/iam/infrastructure/database/user.mapper.ts:30-46 | throws what the first invalid column throws, the names checked with `NameVO`'s own class, and otherwise returns a fresh account with the rebuilt id and props |
| UserMappers.RoundTrip | apps/api/src/modules/iam/infrastructure/database/user.mapper.ts:13-46 | `toDomain(toPersistence(u))` gives back the same id and props for a normalised account |
| UserMappers.CreatedAccountsRoundTrip | apps/api/src/modules/iam/infrastructure/database/user.mapper.ts:13-46 | every account `create` makes, under a non-blank id and with no `ÿ` in either trimmed name, survives the round trip |
| UserMappers.RebuildReturns | apps/api/src/modules/iam/infrastructure/database/user.mapper.ts:30-46 | a row loads only if every column passes its value object (the names `NameVO`'s own class), and then loads to their values |
| UserMappers.ReloadIsStable | apps/api/src/modules/iam/infrastructure/database/user.mapper.ts:13-46 | storing a loaded account whose row's trimmed names hold no `ÿ` and loading it again gives the same account |
| UserMappers.ReloadFailsOnSmallYDiaeresis | apps/api/src/modules/iam/infrastructure/database/user.mapper.ts:13-46 | a loaded account whose row's trimmed first or last name holds `ÿ` cannot be loaded again: the second `toDomain` throws `Name contains invalid characters` |
| UserMappers.RowChecks | apps/api/src/modules/iam/infrastructure/database/user.mapper.ts:31-43 | the seven column checks in the order `toDomain` makes them, the names with `NameVO`'s own class |
| UserMappers.RebuildThrowsAt | apps/api/src/modules/iam/infrastructure/database/user.mapper.ts:31-43 | the first failing check decides what `toDomain` throws |
| UserMappers.RebuildFailsOnFirstInvalid | apps/api/src/modules/iam/infrastructure/database/user.mapper.ts:30-46 | `toDomain` throws iff some check fails, carrying the error of the first |
| CreateUsers.FindConflict | apps/api/src/modules/iam/infrastructure/database/mikro-orm-user.repository.ts:40-46 | none iff no stored row has the e-mail address or the user name; otherwise a stored row with one of them |
| CreateUsers.LoadConflict | apps/api/src/modules/iam/infrastructure/database/mikro-orm-user.repository.ts:40-46 | returns no user exactly when no stored row has the e-mail address or the user name; for a found row, throws exactly when `toDomain` of that row throws |
| CreateUsers.UpsertNewId | apps/api/src/modules/iam/infrastructure/database/mikro-orm-user.repository.ts:11-15 | upserting a row with a new id appends it |
| CreateUsers.UpsertExistingId | apps/api/src/modules/iam/infrastructure/database/mikro-orm-user.repository.ts:11-15 | upserting a row whose id is stored replaces the first row with that id in place, keeping the length and every other row |
| CreateUsers.UserRepository.constructor | apps/api/src/modules/iam/infrastructure/database/mikro-orm-user.repository.ts:9 | a repository over the given rows, with nothing saved yet |
| CreateUsers.UserRepository.FindConflictingUser | apps/api/src/modules/iam/infrastructure/database/mikro-orm-user.repository.ts:40-46 | returns the first stored row with the e-mail address or the user name, loaded through `toDomain` (its id and props, or what `toDomain` threw), as `LoadConflict` states |
| CreateUsers.UserRepository.Save | apps/api/src/modules/iam/infrastructure/database/mikro-orm-user.repository.ts:11-15 | upserts the account's persisted row and records it as saved |
| CreateUsers.Decide | apps/api/src/modules/iam/application/create-user/create-user.service.ts:14-55 | the outcome of one run: the rejection `toDomain` threw while loading the conflicting user, or the conflict error naming the user name if the loaded user has the user name looked up and otherwise the e-mail address, or the outcome of `create` and the row to save (stated by `ConflictSavesNothing` and `NoConflictCreates`) |
| CreateUsers.Execute | apps/api/src/modules/iam/application/create-user/create-user.service.ts:14-55 | the run's outcome (a result, or a rejection with what `toDomain` threw) and the store after it are those `Decide` gives for the dto's raw e-mail address and user name |
| CreateUsers.ExecuteWith | apps/api/src/modules/iam/application/create-user/create-user.service.ts:14-55 | the run's result is that of `Decide`; the store gains exactly the saved row, if any |
| CreateUsers.ConflictSavesNothing | apps/api/src/modules/iam/application/create-user/create-user.service.ts:41-55 | a conflict saves nothing; if the conflicting row cannot be loaded the run rejects with what `toDomain` threw, otherwise it answers `UserAlreadyExistsError` naming the dto's user name exactly when the loaded (trimmed) user name equals it, and the dto's e-mail address otherwise, in which case the row has that address |
| CreateUsers.PaddedStoredUsernameNamesEmail | apps/api/src/modules/iam/application/create-user/create-user.service.ts:44-49 | a stored user name with surrounding whitespace that equals the dto's is found, but the loaded name is trimmed, so the error names the dto's e-mail address |
| CreateUsers.NoConflictCreates | apps/api/src/modules/iam/application/create-user/create-user.service.ts:17-38 | without a conflict, the run resolves and fails exactly when `UserAccount.create` does; otherwise it saves the new account's row and answers its id and user name |
| CreateUsers.RawCheckAdmitsDuplicate | apps/api/src/modules/iam/application/create-user/create-user.service.ts:44 | as written, a user name that differs from a stored one only by surrounding whitespace passes the check and reaches `save` as a duplicate (saved in the model, whose store has no unique constraints) |
| CreateUsers.PaddedUsernameSlipsThrough | apps/api/src/modules/iam/application/create-user/create-user.service.ts:44 | the concrete input: stored `ann`, new ` ann` |
| CreateUsers.ExecuteNormalised | apps/api/src/modules/iam/application/create-user/create-user.service.ts:14-55 | `execute` with the check made on the normalised keys |
| CreateUsers.SavedUnderNormalisedKeys | apps/api/src/modules/iam/application/create-user/create-user.service.ts:19-33 | a saved row holds the normalised e-mail address and user name and the generated id, and no stored row has either |
| CreateUsers.NormalisedCheckKeepsIdentitiesUnique | apps/api/src/modules/iam/application/create-user/create-user.service.ts:41-55 | checked on the normalised keys, a run keeps e-mail addresses, user names and ids unique in the store |
| JwtExpiry.Match | apps/api/src/modules/iam/infrastructure/services/jwt-token.service.ts:70 | matches iff the string is one or more ASCII digits and then one of `s`, `m`, `h`, `d`, and yields those two groups |
| JwtExpiry.ParseDuration | apps/api/src/modules/iam/infrastructure/services/jwt-token.service.ts:69-91 | a non-matching string gives 900 seconds; a matching one its number times the seconds of its unit |
| JwtExpiry.ParseFormatted | apps/api/src/modules/iam/infrastructure/services/jwt-token.service.ts:76-90 | `"<n>s"`, `"<n>m"`, `"<n>h"` and `"<n>d"` read as `n`, `60n`, `3600n` and `86400n` |
| JwtExpiry.DefaultDurations | apps/api/src/modules/iam/infrastructure/services/jwt-token.service.ts:6-7 | the default `15m` is 900 seconds, the fallback, and `7d` is 604800 |
| JwtExpiry.ParseExamples | apps/api/src/modules/iam/infrastructure/services/jwt-token.service.ts:70-74 | no unit, no digits, a fraction, a sign, an upper-case or unknown unit, or surrounding whitespace all fall back to 900; leading zeros are read |
| JwtExpiry.GetUnixExpiration | apps/api/src/modules/iam/infrastructure/services/jwt-token.service.ts:59-67 | the result minus the duration is the Unix second in which `nowMs` falls |
| JwtExpiry.AccessTokenExpiry | apps/api/src/modules/iam/infrastructure/services/jwt-token.service.ts:59-67 | with the default lifetime the expiry is 900 seconds after the current second, after `nowMs`; a string lifetime never lies in the past |
| ApiResponses.BuildMeta | apps/api/src/common/http/api-response.factory.ts:81-87 | the meta starts with `timestamp` and `traceId`, has distinct keys, and holds exactly those two and the extra keys |
| ApiResponses.BuildMetaLookup | apps/api/src/common/http/api-response.factory.ts:81-87 | an extra key overrides; otherwise `timestamp` is the ISO time and `traceId` is the given one or the generated one |
| ApiResponses.CeilDiv | apps/api/src/common/http/api-response.factory.ts:48 | `Math.ceil(a / b)`: the least whole number not below the quotient; dividing by zero gives Infinity, -Infinity or NaN |
| ApiResponses.Pagination | apps/api/src/common/http/api-response.factory.ts:48-57 | copies the three inputs; has a previous page iff `page > 1`; for a positive limit, the page count is the ceiling of `totalItems / limit` and there is a next page iff `page * limit < totalItems`; for a zero limit, a next page iff `totalItems > 0`; for a negative limit, a next page iff `page * limit > totalItems` |
| ApiResponses.NextPageByItems | apps/api/src/common/http/api-response.factory.ts:48-55 | `page < ceil(total / limit)` iff `page * limit < total` for a positive limit, and iff `page * limit > total` for a negative one |
| ApiResponses.PageCountLaws | apps/api/src/common/http/api-response.factory.ts:48-57 | for a positive limit and a non-negative item count, the page count is never negative, is zero iff there are no items, and a next page exists iff the page is before the last |
| ApiResponses.NumValue | apps/api/src/common/http/api-response.factory.ts:48 | a finite page count is written as a number, a non-finite one as `null` |
| ApiResponses.Success | apps/api/src/common/http/api-response.factory.ts:38-45 | a successful envelope carrying the data and message unchanged, whose meta is `buildMeta` of the trace id and the extra meta |
| ApiResponses.PaginatedExtra | apps/api/src/common/http/api-response.factory.ts:63 | the computed `pagination` replaces any given one; every other key is kept |
| ApiResponses.Paginated | apps/api/src/common/http/api-response.factory.ts:47-65 | a successful envelope whose meta is `buildMeta` of the trace id and the extra meta with the computed `pagination` |
| ApiResponses.PaginatedMetaAsSuccess | apps/api/src/common/http/api-response.factory.ts:47-65 | apart from `pagination`, the meta reads as that of `success` |
| ApiResponses.Error | apps/api/src/common/http/api-response.factory.ts:67-79 | a failed envelope whose detail carries the code, message, status and details, repeating the top-level message, and whose meta is `buildMeta` of the trace id and the extra meta |

## Left out

- `Result.fromThrowable` and `Result.fromPromise` (result.ts:129-147): these catch JavaScript exceptions and await promises, which have no counterpart here.
- `Result.combine`/`Result.all` (`Results.Combine`): they are not in result.ts, but its tests and `UserAccount.create` call them. They are modelled from the tests, on a homogeneous sequence.
- `DateUtil.now`/`nowISO`: the clock is a parameter.
- `DateUtil.addDays` and `DateUtil.startOfDay`: they work in the local time zone, which is left out.
- `DateUtil.ToIsoString`: does not enforce the ±8.64e15 ms range of a JavaScript `Date`.
- `Object.freeze` in the value object and entity constructors: the model's values are immutable anyway.
- `ValueObject.isValueObject`: its `instanceof` test is the variant `JsValueObject` of `JsValues.JsValue`.
- `ValueObjects.Equals`: numbers are whole numbers, so there are no floating-point texts, `NaN` or `-0`.
- The pending events of an aggregate inside a value object's props are given as JavaScript values (`JsValues.EventSlot`); how a `DomainEvent` instance's own keys are laid out is not derived from its class.
- ToObjectShape: states the keys of `toObject` in insertion order (`id` first). JavaScript lists integer-like keys such as `"0"` or `"42"` first, in ascending numeric order, so for props with such keys the real order differs.
- JsValues.Assign and JsValues.Spread: keep keys in insertion order, appending a new key at the end. JavaScript objects list integer-like keys first in ascending order, which this does not model.
- ValueObjects.Equals, ValueObjects.FieldOrderMatters and ValueObjects.ToJson: `JSON.stringify` is modelled writing keys in insertion order. For integer-like keys JavaScript writes them first in ascending order, so props that differ only in the insertion order of such keys are equal in JavaScript but not in the model.
- `DateUtil.ToIsoString`: the date part has no proved inverse; only the clock part is read back (`DateUtil.IsoTimeRoundTrip`).
- Strings are sequences of code points, while JavaScript's `length` counts UTF-16 units. The two differ only outside the Basic Multilingual Plane (length checks in `Names.Check` and `HashedPasswords.Create`).
- `Emails.Create`: lower-cases ASCII letters only, while `toLowerCase` also folds non-ASCII letters. The pattern's result differs only for addresses with non-ASCII capitals.
- `Names.ToUpper`: covers the Latin-1 letters of the name pattern and `Ÿ`. Other characters never reach it after the character check.
- `Guard.IsOutOfRange`: on integers only.
- `Guard.IsShort` and `Guard.IsLong`: on sequences (strings and arrays).
- `EntityIds.Generate`, `EntityIds.Create`, `UserAccounts.Unsafe` and `Aggregates.AggregateRoot.UpdateProps` model `UniqueEntityID.generate`/`create`, `UserAccount.unsafe` and `updateProps`. The modelled code calls them, but none is defined in the modelled files, so each is modelled as the assumption its doc comment states.
- The static `create` factories of `EmailVO`, `NameVO`, `HashedPasswordVO`, `UserRoleVO` and `ExternalKeyVO` are not defined either. They are modelled as running the class's `validate` hook, with the class's own pattern, and returning its outcome as a `Result`.
- `ExternalKeys.Generate`: passes the UUID through the hook, where the source's constructor does not validate. For the version-4 UUID that `crypto.randomUUID` returns, both give the UUID unchanged (`ExternalKeys.GenerateSucceeds`).
- Random UUIDs (`crypto.randomUUID`) and the password hasher are parameters. The hasher is a function, so its asynchrony is left out.
- Domain events are recorded on the aggregate but never dispatched. `save` does not publish them.
- Transactions are not modelled. The store is a sequence of rows with an upsert on the id.
- `CreateUsers.UserRepository.FindConflictingUser`: returns the loaded account's id and props rather than a fresh `UserAccount` object (the service reads only its user name), and takes the first match in store order where the database's order is unspecified.
- The `@Unique` constraints on the user name and e-mail columns (user.orm-entity.ts:10,14) are not modelled, so a duplicate that slips past the uniqueness check is saved in the model, where the real `save` throws a database error.
- `delete`, `findById`, `findByUsername` and `findByEmail` of the repository are not used by the modelled service.
- JWT signing and verification (`generateAuthTokens`, `verifyToken`) are cryptography and are not modelled; only their expiry arithmetic is.
- `JwtExpiry.ParseDuration`: numbers are exact. JavaScript's `Number` rounds digit strings beyond 2^53, and the product may then be a float.
- The `default` branch of the `switch` in `parseDuration` cannot be reached, since the pattern admits only the four units.
- `JwtExpiry.GetUnixExpiration`: a numeric `expiresIn` is a whole number of seconds.
- `ApiResponses.Pagination`: page, limit and item count are whole numbers. A non-finite page count is written as `null` in the meta, as `JSON.stringify` writes it.
- HTTP framework wiring, configuration loading and the database client are outside the core.

## Findings

| source | as written | input that shows it | evidently intended | confidence | as-written member | corrected member |
|---|---|---|---|---|---|---|
| apps/api/src/modules/iam/domain/value-objects/name.vo.ts:14-19 | the character class admits `ÿ` (U+00FF), and `toUpperCase` turns it into `Ÿ` (U+0178), which the class does not admit | `Aÿ` is accepted and stored as `AŸ`; on reload, `toDomain` runs the same hook on `AŸ` and throws, so the stored account cannot be read back | every stored name should be accepted again, e.g. by admitting `Ÿ` as well | not executed | Names.Create, Names.CreateRejectsItsOwnOutput, Names.CreateRejectsStoredSmallYDiaeresis, UserMappers.ReloadFailsOnSmallYDiaeresis | Names.CreateWidened, Names.CreateWidenedIdempotent |
| apps/api/src/modules/iam/application/create-user/create-user.service.ts:44 | uniqueness is checked with the dto's raw e-mail address and user name, while rows hold the trimmed (and, for the address, lower-cased) values | a stored user `ann`, then a new user ` ann` with another address: no conflict is found and `save` is called with a second row whose user name is `ann`; in the model, which has no unique constraints, that row is saved, while the real `@Unique` column (user.orm-entity.ts:10) makes `save` throw a database error instead of `execute` answering `UserAlreadyExistsError` | check uniqueness on the normalised values the account will hold | not executed | CreateUsers.Execute, CreateUsers.RawCheckAdmitsDuplicate, CreateUsers.PaddedUsernameSlipsThrough | CreateUsers.ExecuteNormalised, CreateUsers.NormalisedCheckKeepsIdentitiesUnique |

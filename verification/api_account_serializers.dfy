/** The user serializers the main tree's views import
    (`foodgram/api/serializers/account.py`): registration that refuses the
    username `me`, the avatar of a user that carries its own avatar file,
    and the creation of a follow row. `get_is_subscribed` and
    `FollowersSerializer.get_recipes` are the same code as in
    `AccountSerializers` and are modelled there. */
module ApiAccountSerializers {
  import opened Common
  import opened Models
  import opened Relation
  import AccountSerializers

  const ReservedUsername: string := "me"
  const UsernameRefused: string := "Невозможно создать пользователя с таким именем!"

  /** `ExtendedUserCreateSerializer.validate_username`: refuses exactly
      `me` and returns every other name unchanged. */
  function ValidateUsername(value: string): (r: Result<string, string>)
    ensures r.Failure? <==> value == ReservedUsername
    ensures r.Success? ==> r.value == value
  {
    if value == "me" then Failure(UsernameRefused) else Success(value)
  }

  /** Registration through this tree's `ExtendedUserCreateSerializer`: the
      field checks, the username's unique validator and `validate_username`
      make up field validation; only when it passes does djoser's
      `validate` run the password validators; then `create` (the same code
      as in the `foodgram` tree). The email
      field is declared on the serializer, so no check of the email runs
      before the insert: a held address, after normalisation, is refused
      by the unique column and answered with djoser's `CannotCreateUser`. */
  function Register(
    env: AccountSerializers.Delegates, users: map<nat, User>, pk: nat, data: AccountSerializers.NewUser)
    : (r: Result<map<nat, User>, string>)
    requires pk !in users
    ensures r.Success? <==>
      && AccountSerializers.FieldsValid(env, data) && data.username != ReservedUsername
      && !AccountSerializers.UsernameInUse(users, data.username)
      && AccountSerializers.PasswordAccepted(env, data) && AccountSerializers.Insertable(env, users, data)
    ensures !AccountSerializers.FieldsValid(env, data) ==> r == Failure(AccountSerializers.InvalidField)
    ensures (AccountSerializers.FieldsValid(env, data)
      && AccountSerializers.UsernameInUse(users, data.username)) ==> r == Failure(AccountSerializers.UsernameTaken)
    ensures (AccountSerializers.FieldsValid(env, data) && !AccountSerializers.UsernameInUse(users, data.username)
      && data.username == ReservedUsername) ==> r == Failure(UsernameRefused)
    ensures (AccountSerializers.FieldsValid(env, data) && data.username != ReservedUsername
      && !AccountSerializers.UsernameInUse(users, data.username)
      && !AccountSerializers.PasswordAccepted(env, data)) ==> r == Failure(AccountSerializers.PasswordRefused)
    ensures (AccountSerializers.FieldsValid(env, data) && data.username != ReservedUsername
      && !AccountSerializers.UsernameInUse(users, data.username) && AccountSerializers.PasswordAccepted(env, data)
      && !AccountSerializers.Insertable(env, users, data)) ==> r == Failure(AccountSerializers.CannotCreateUser)
    ensures r.Success? ==> r.value == AccountSerializers.CreateUser(users, pk, AccountSerializers.Normalized(env, data))
    ensures r.Success? ==> r.value[pk].username == env.nfkc(data.username)
    ensures r.Success? ==> r.value[pk].password == data.password
  {
    if !AccountSerializers.FieldsValid(env, data) then Failure(AccountSerializers.InvalidField)
    else match AccountSerializers.ValidateUniqueUsername(users, data.username)
      case Failure(e) => Failure(e)
      case Success(_) =>
        match ValidateUsername(data.username)
        case Failure(e) => Failure(e)
        case Success(_) =>
          match AccountSerializers.ValidatePassword(env, data)
          case Failure(e) => Failure(e)
          case Success(_) => AccountSerializers.PerformCreate(env, users, pk, data)
  }

  /** The name `me` is refused as such even with a password the validators
      would refuse: `validate` never runs after a field error. */
  lemma ReservedNameBeforeWeakPassword(
    env: AccountSerializers.Delegates, users: map<nat, User>, pk: nat, data: AccountSerializers.NewUser)
    requires pk !in users && AccountSerializers.FieldsValid(env, data)
    requires data.username == ReservedUsername && !AccountSerializers.UsernameInUse(users, data.username)
    requires !AccountSerializers.PasswordAccepted(env, data)
    ensures Register(env, users, pk, data) == Failure(UsernameRefused)
  {
  }

  /** Every registration through this serializer keeps the user table valid
      (when the username's NFKC form stays within 150 characters) and its
      addresses normalised, and was asked for with a name other than `me`. */
  lemma RegisterKeepsUsersValid(
    env: AccountSerializers.Delegates, users: map<nat, User>, pk: nat, data: AccountSerializers.NewUser)
    requires ValidUsers(users) && pk !in users
    requires Register(env, users, pk, data).Success?
    requires |env.nfkc(data.username)| <= UsernameMax
    ensures data.username != ReservedUsername
    ensures ValidUsers(Register(env, users, pk, data).value)
    ensures AccountSerializers.EmailsNormalized(users) ==>
      AccountSerializers.EmailsNormalized(Register(env, users, pk, data).value)
  {
    AccountSerializers.PerformCreateKeepsUsersValid(env, users, pk, data);
  }

  /** The name check compares the name as given, and `create_user` stores
      its NFKC form: the fullwidth `ｍｅ` passes `validate_username` and is stored as
      `me`. */
  lemma FullwidthMeStoredAsMe(
    env: AccountSerializers.Delegates, users: map<nat, User>, pk: nat, data: AccountSerializers.NewUser)
    requires pk !in users && AccountSerializers.FieldsValid(env, data) && AccountSerializers.PasswordAccepted(env, data)
    requires data.username == "ｍｅ" && env.nfkc("ｍｅ") == "me"
    requires !AccountSerializers.UsernameInUse(users, "ｍｅ") && AccountSerializers.Insertable(env, users, data)
    ensures Register(env, users, pk, data).Success?
    ensures Register(env, users, pk, data).value[pk].username == ReservedUsername
  {
    assert data.username != ReservedUsername by {
      assert data.username[0] != 'm';
    }
  }

  /** Registration as `validate_username` evidently means it: the name is
      refused when it, or the form `create_user` would store, is `me`. */
  function RegisterIntended(
    env: AccountSerializers.Delegates, users: map<nat, User>, pk: nat, data: AccountSerializers.NewUser)
    : (r: Result<map<nat, User>, string>)
    requires pk !in users
    ensures r.Success? <==>
      && Register(env, users, pk, data).Success? && env.nfkc(data.username) != ReservedUsername
    ensures r.Success? ==> r == Register(env, users, pk, data)
    ensures (AccountSerializers.FieldsValid(env, data) && !AccountSerializers.UsernameInUse(users, data.username)
      && env.nfkc(data.username) == ReservedUsername) ==> r == Failure(UsernameRefused)
  {
    if !AccountSerializers.FieldsValid(env, data) then Failure(AccountSerializers.InvalidField)
    else match AccountSerializers.ValidateUniqueUsername(users, data.username)
      case Failure(e) => Failure(e)
      case Success(_) =>
        if data.username == ReservedUsername || env.nfkc(data.username) == ReservedUsername then Failure(UsernameRefused)
        else match AccountSerializers.ValidatePassword(env, data)
          case Failure(e) => Failure(e)
          case Success(_) => AccountSerializers.PerformCreate(env, users, pk, data)
  }

  /** Under the intended check no registration stores a user named `me`. */
  lemma IntendedNeverStoresMe(
    env: AccountSerializers.Delegates, users: map<nat, User>, pk: nat, data: AccountSerializers.NewUser)
    requires pk !in users && RegisterIntended(env, users, pk, data).Success?
    ensures RegisterIntended(env, users, pk, data).value[pk].username != ReservedUsername
  {
  }

  /** On a table whose addresses are normalised, as `create_user` leaves
      them, both trees accept the same registrations apart from the name
      `me`, and build the same user table from them: a held address is
      its own normal form, so this tree's insert refuses what the other
      tree's `validate_email` refuses. */
  lemma RegisterAgreesWithFoodgramTree(
    env: AccountSerializers.Delegates, users: map<nat, User>, pk: nat, data: AccountSerializers.NewUser)
    requires pk !in users && data.username != ReservedUsername
    requires AccountSerializers.EmailsNormalized(users)
    ensures Register(env, users, pk, data).Success? <==> AccountSerializers.Register(env, users, pk, data).Success?
    ensures Register(env, users, pk, data).Success? ==>
      Register(env, users, pk, data).value == AccountSerializers.Register(env, users, pk, data).value
  {
    if AccountSerializers.EmailInUse(users, data.email) {
      var id :| id in users && users[id].email == data.email;
      assert AccountSerializers.NormalizeEmail(data.email) == users[id].email;
    }
  }

  /** `UserSerializer.get_avatar`, on a user that carries its avatar file:
      the file's URL when there is a file, `None` otherwise. */
  function GetAvatar(storageUrl: string -> string, u: User): (r: Option<string>)
    ensures r.None? <==> u.avatar == ""
    ensures r.Some? ==> r.value == storageUrl(u.avatar)
  {
    if u.avatar != "" then UserPhotoUrl(storageUrl, u) else None
  }

  /** `FollowSerializer.create`: one new follow row, exactly the pair
      given, after the existing rows. */
  function CreateFollow(t: Table, l: Link): (r: Table)
    ensures multiset(r) == multiset(t) + multiset{l}
    ensures Has(r, l) && |r| == |t| + 1 && r[..|t|] == t
  {
    t + [l]
  }

  /** On a table that does not hold the pair yet, creating it keeps the
      `unique_follower` constraint. */
  lemma CreateFollowKeepsUnique(t: Table, l: Link)
    requires Unique(t) && !Has(t, l)
    ensures Unique(CreateFollow(t, l))
  {
    InsertKeepsUnique(t, l);
  }
}

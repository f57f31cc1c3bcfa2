/** The user serializers of the `foodgram` tree
    (`foodgram/account/serializers.py`): registration with its email check
    and optional password, sign-in through an authentication oracle, and
    the computed fields of the user and subscription representations.

    Password hashing is not modelled: the stored password is the one given,
    and `None` stands for Django's unusable password. The key the database
    gives a new user is a parameter the model only assumes unused. */
module AccountSerializers {
  import opened Common
  import opened Models
  import opened Relation
  import Text

  /** The registration payload after parsing, whitespace trimmed. */
  datatype NewUser = NewUser(
    username: string, email: string, firstName: string, lastName: string, password: Option<string>)

  const EmailTaken: string := "Email занят. Пожалуйста, используйте другой."
  const InvalidField: string := "invalid field"
  const UsernameTaken: string := "A user with that username already exists."
  const BadCredentials: string := "Неверные данные для входа."
  /** The key under which djoser's `validate` reports a password the
      validators refuse; the messages under it come from the configured
      validators and are not modelled. */
  const PasswordRefused: string := "password"
  /** djoser's answer when the insert breaks a unique column. */
  const CannotCreateUser: string := "Unable to create account."

  /** Some user holds `email`. */
  predicate EmailInUse(users: map<nat, User>, email: string) {
    exists id :: id in users && users[id].email == email
  }

  /** The emails in use. */
  function Emails(users: map<nat, User>): (r: set<string>)
    ensures forall e :: e in r <==> EmailInUse(users, e)
  {
    set id | id in users :: users[id].email
  }

  /** `ExtendedUserCreateSerializer.validate_email`: an email no user holds
      is returned unchanged, one already held is rejected. */
  function ValidateEmail(users: map<nat, User>, value: string): (r: Result<string, string>)
    ensures r.Success? <==> !EmailInUse(users, value)
    ensures r.Success? ==> r.value == value
    ensures r.Failure? ==> r.error == EmailTaken
  {
    if value in Emails(users) then Failure(EmailTaken) else Success(value)
  }

  /** `if password: user.set_password(password)`: a password is stored only
      when one was given and it is not empty; otherwise the user keeps the
      unusable password the creation left. */
  function StoredPassword(given: Option<string>): (r: Option<string>)
    ensures r.Some? <==> given.Some? && given.value != ""
    ensures r.Some? ==> r.value == given.value
  {
    match given
    case Some(p) => if p != "" then Some(p) else None
    case None => None
  }

  /** The row `create` inserts (the same code in both trees' creation
      serializers): a new user under the unused key `pk` with the given
      fields, no avatar, not staff, and the password as `StoredPassword`
      rules; every other user is unchanged. */
  function CreateUser(users: map<nat, User>, pk: nat, data: NewUser): (r: map<nat, User>)
    requires pk !in users
    ensures r.Keys == users.Keys + {pk}
    ensures forall id :: id in users ==> r[id] == users[id]
    ensures r[pk].id == pk && r[pk].email == data.email && r[pk].username == data.username
    ensures r[pk].firstName == data.firstName && r[pk].lastName == data.lastName
    ensures r[pk].password.Some? <==> data.password.Some? && data.password.value != ""
    ensures !r[pk].isStaff && r[pk].avatar == ""
  {
    users[pk := User(pk, data.username, data.email, data.firstName, data.lastName, "", StoredPassword(data.password), false)]
  }

  /** The functions registration relies on that this model leaves as
      parameters: the address format of `EmailField`, the character set of
      the username validator, the password validators djoser's `validate`
      runs on the password and the would-be user, and the Unicode NFKC
      normalisation `create_user` applies to the username. */
  datatype Delegates = Delegates(
    email: string -> bool, username: string -> bool, password: (string, NewUser) -> bool,
    nfkc: string -> string)

  /** Some user holds `username`. */
  predicate UsernameInUse(users: map<nat, User>, username: string) {
    exists id :: id in users && users[id].username == username
  }

  /** The field checks of the payload that do not look at the table: a
      required non-blank username of at most 150 characters in the
      validator's character set; required non-blank `first_name` and
      `last_name` of at most 150 characters; a required non-blank email of
      at most 254 characters in address format; and a required non-blank
      password. */
  predicate FieldsValid(env: Delegates, data: NewUser) {
    && 0 < |data.username| <= UsernameMax && env.username(data.username)
    && 0 < |data.firstName| <= PersonNameMax
    && 0 < |data.lastName| <= PersonNameMax
    && 0 < |data.email| <= EmailMax && env.email(data.email)
    && data.password.Some? && data.password.value != ""
  }

  /** djoser's `UserCreateSerializer.validate`: the password validators
      accept the password for the would-be user. DRF calls it only once
      every field has passed its own checks. */
  predicate PasswordAccepted(env: Delegates, data: NewUser) {
    data.password.Some? && env.password(data.password.value, data)
  }

  /** The password validators' verdict as `validate` reports it: the
      payload unchanged when they accept, `PasswordRefused` when not. */
  function ValidatePassword(env: Delegates, data: NewUser): (r: Result<NewUser, string>)
    ensures r.Success? <==> PasswordAccepted(env, data)
    ensures r.Success? ==> r.value == data
    ensures r.Failure? ==> r.error == PasswordRefused
  {
    if data.password.Some? && env.password(data.password.value, data) then Success(data)
    else Failure(PasswordRefused)
  }

  /** The username's unique validator, which the model serializer derives
      from the unique `username` column. */
  function ValidateUniqueUsername(users: map<nat, User>, value: string): (r: Result<string, string>)
    ensures r.Success? <==> !UsernameInUse(users, value)
    ensures r.Success? ==> r.value == value
    ensures r.Failure? ==> r.error == UsernameTaken
  {
    if exists id :: id in users && users[id].username == value then Failure(UsernameTaken) else Success(value)
  }

  /** `BaseUserManager.normalize_email`: the address is split at its last
      `@` and the domain part lowercased; an address without `@` is kept.
      The field has already trimmed the address, so the `strip()` there
      changes nothing. */
  function NormalizeEmail(email: string): (r: string)
    ensures |r| == |email|
    ensures '@' !in email ==> r == email
    ensures '@' in email ==>
      var k := Text.LastIndexOf(email, '@').value;
      r[..k + 1] == email[..k + 1] && r[k + 1..] == Text.Lower(email[k + 1..])
  {
    match Text.LastIndexOf(email, '@')
    case None => email
    case Some(k) => email[..k] + "@" + Text.Lower(email[k + 1..])
  }

  /** Normalising a normalised address changes nothing, so every address
      `create_user` has stored is its own normal form. */
  lemma NormalizeEmailIdempotent(email: string)
    ensures NormalizeEmail(NormalizeEmail(email)) == NormalizeEmail(email)
  {
    var n := NormalizeEmail(email);
    if '@' in email {
      var k := Text.LastIndexOf(email, '@').value;
      var domain := email[k + 1..];
      Text.LowerKeepsAt(domain);
      assert n == email[..k + 1] + Text.Lower(domain);
      assert n[k] == '@';
      assert '@' !in n[k + 1..] by {
        assert n[k + 1..] == Text.Lower(domain);
      }
      assert Text.LastIndexOf(n, '@') == Some(k);
      Text.LowerIdempotent(domain);
      assert NormalizeEmail(n)[k + 1..] == Text.Lower(Text.Lower(domain));
      assert NormalizeEmail(n) == NormalizeEmail(n)[..k + 1] + NormalizeEmail(n)[k + 1..];
    }
  }

  /** `normalize_email` lowercases the domain of `a@X.com`. */
  lemma MixedCaseDomainNormalized()
    ensures NormalizeEmail("a@X.com") == "a@x.com"
  {
    assert Text.LastIndexOf("a@X.com", '@') == Some(1) by {
      assert "a@X.com"[1] == '@';
      assert "a@X.com"[2..] == "X.com";
    }
    assert Text.Lower("X.com") == "x.com";
  }

  /** The username and email `create_user` stores: NFKC form and the
      normalised address. */
  function Normalized(env: Delegates, data: NewUser): (r: NewUser)
    ensures r.username == env.nfkc(data.username) && r.email == NormalizeEmail(data.email)
    ensures r.firstName == data.firstName && r.lastName == data.lastName && r.password == data.password
  {
    data.(username := env.nfkc(data.username), email := NormalizeEmail(data.email))
  }

  /** The unique `username` and `email` columns accept the normalised
      values. */
  predicate Insertable(env: Delegates, users: map<nat, User>, data: NewUser) {
    !UsernameInUse(users, env.nfkc(data.username)) && !EmailInUse(users, NormalizeEmail(data.email))
  }

  /** djoser's `UserCreateSerializer.create`, which `create` in both trees
      wraps: `create_user` inserts the normalised username and email, the
      unique columns refuse a value some user already holds, and djoser
      answers that integrity error with `CannotCreateUser`, leaving the
      table as it was. */
  function PerformCreate(env: Delegates, users: map<nat, User>, pk: nat, data: NewUser)
    : (r: Result<map<nat, User>, string>)
    requires pk !in users
    ensures r.Success? <==> Insertable(env, users, data)
    ensures r.Failure? ==> r.error == CannotCreateUser
    ensures r.Success? ==> r.value == CreateUser(users, pk, Normalized(env, data))
  {
    if Insertable(env, users, data) then Success(CreateUser(users, pk, Normalized(env, data)))
    else Failure(CannotCreateUser)
  }

  /** Registration through `ExtendedUserCreateSerializer`: the field checks,
      the username's unique validator and `validate_email` (both comparing
      the values as given) make up field validation; only when it passes
      does djoser's `validate` run the password validators; then `create`
      stores the normalised values and is refused when those are held. It
      succeeds exactly for valid fields whose username and email are
      unused both as given and normalised and whose password the
      validators accept; one error is reported where field validation
      collects one per field. */
  function Register(env: Delegates, users: map<nat, User>, pk: nat, data: NewUser)
    : (r: Result<map<nat, User>, string>)
    requires pk !in users
    ensures r.Success? <==>
      && FieldsValid(env, data) && !UsernameInUse(users, data.username) && !EmailInUse(users, data.email)
      && PasswordAccepted(env, data) && Insertable(env, users, data)
    ensures !FieldsValid(env, data) ==> r == Failure(InvalidField)
    ensures FieldsValid(env, data) && UsernameInUse(users, data.username) ==> r == Failure(UsernameTaken)
    ensures (FieldsValid(env, data) && !UsernameInUse(users, data.username)
      && EmailInUse(users, data.email)) ==> r == Failure(EmailTaken)
    ensures (FieldsValid(env, data) && !UsernameInUse(users, data.username) && !EmailInUse(users, data.email)
      && !PasswordAccepted(env, data)) ==> r == Failure(PasswordRefused)
    ensures (FieldsValid(env, data) && !UsernameInUse(users, data.username) && !EmailInUse(users, data.email)
      && PasswordAccepted(env, data) && !Insertable(env, users, data)) ==> r == Failure(CannotCreateUser)
    ensures r.Success? ==> r.value == CreateUser(users, pk, Normalized(env, data))
    ensures r.Success? ==> r.value[pk].username == env.nfkc(data.username)
    ensures r.Success? ==> r.value[pk].email == NormalizeEmail(data.email)
    ensures r.Success? ==> r.value[pk].password == data.password
  {
    if !FieldsValid(env, data) then Failure(InvalidField)
    else match ValidateUniqueUsername(users, data.username)
      case Failure(e) => Failure(e)
      case Success(_) =>
        match ValidateEmail(users, data.email)
        case Failure(e) => Failure(e)
        case Success(_) =>
          match ValidatePassword(env, data)
          case Failure(e) => Failure(e)
          case Success(_) => PerformCreate(env, users, pk, data)
  }

  /** A held username is reported as such even when the password is one
      the validators would refuse: `validate` never runs after a field
      error. */
  lemma HeldUsernameBeforeWeakPassword(env: Delegates, users: map<nat, User>, pk: nat, data: NewUser)
    requires pk !in users && FieldsValid(env, data)
    requires UsernameInUse(users, data.username) && !PasswordAccepted(env, data)
    ensures Register(env, users, pk, data) == Failure(UsernameTaken)
    ensures Register(env, users, pk, data) != Failure(PasswordRefused)
  {
  }

  /** An address that differs from a held one only in the case of its
      domain passes `validate_email` but is refused at the insert. */
  lemma MixedCaseDomainRefused(env: Delegates, users: map<nat, User>, pk: nat, data: NewUser)
    requires pk !in users && FieldsValid(env, data) && PasswordAccepted(env, data)
    requires !UsernameInUse(users, data.username) && !UsernameInUse(users, env.nfkc(data.username))
    requires data.email == "a@X.com" && !EmailInUse(users, "a@X.com") && EmailInUse(users, "a@x.com")
    ensures Register(env, users, pk, data) == Failure(CannotCreateUser)
  {
    MixedCaseDomainNormalized();
  }

  /** Every stored address is in normal form, as `create_user` leaves it. */
  predicate EmailsNormalized(users: map<nat, User>) {
    forall id :: id in users ==> NormalizeEmail(users[id].email) == users[id].email
  }

  /** A row whose username and email nobody holds, within the field
      bounds, keeps the user table valid. */
  lemma CreateUserKeepsUsersValid(users: map<nat, User>, pk: nat, data: NewUser)
    requires ValidUsers(users) && pk !in users
    requires !UsernameInUse(users, data.username) && !EmailInUse(users, data.email)
    requires |data.username| <= UsernameMax && |data.email| <= EmailMax
    requires |data.firstName| <= PersonNameMax && |data.lastName| <= PersonNameMax
    ensures ValidUsers(CreateUser(users, pk, data))
  {
    var r := CreateUser(users, pk, data);
    assert ValidUser(r[pk]);
    assert UniqueUsernames(r) by {
      assert forall id :: id in users ==> users[id].username != data.username;
    }
    assert UniqueEmails(r) by {
      assert forall id :: id in users ==> users[id].email != data.email;
    }
  }

  /** The row `PerformCreate` writes keeps the table valid and its
      addresses normalised, when the NFKC form of the username stays within
      the column's 150 characters. */
  lemma PerformCreateKeepsUsersValid(env: Delegates, users: map<nat, User>, pk: nat, data: NewUser)
    requires ValidUsers(users) && pk !in users && FieldsValid(env, data)
    requires PerformCreate(env, users, pk, data).Success?
    requires |env.nfkc(data.username)| <= UsernameMax
    ensures ValidUsers(PerformCreate(env, users, pk, data).value)
    ensures EmailsNormalized(users) ==> EmailsNormalized(PerformCreate(env, users, pk, data).value)
  {
    var n := Normalized(env, data);
    var r := PerformCreate(env, users, pk, data).value;
    assert r == CreateUser(users, pk, n);
    CreateUserKeepsUsersValid(users, pk, n);
    NormalizeEmailIdempotent(data.email);
    assert NormalizeEmail(r[pk].email) == r[pk].email;
  }

  /** Registration keeps the user table valid: the checks at the insert
      keep usernames and emails unique, and the field checks keep the
      lengths, as long as the username's NFKC form stays within 150
      characters. It also keeps every stored address normalised. */
  lemma RegisterKeepsUsersValid(env: Delegates, users: map<nat, User>, pk: nat, data: NewUser)
    requires ValidUsers(users) && pk !in users
    requires Register(env, users, pk, data).Success?
    requires |env.nfkc(data.username)| <= UsernameMax
    ensures ValidUsers(Register(env, users, pk, data).value)
    ensures EmailsNormalized(users) ==> EmailsNormalized(Register(env, users, pk, data).value)
  {
    PerformCreateKeepsUsersValid(env, users, pk, data);
  }

  /** `SigninSerializer.validate`: fails exactly when `authenticate` finds no
      user for the email and password, and otherwise hands on the user it
      found. */
  function Signin(authenticate: (string, string) -> Option<nat>, email: string, password: string)
    : (r: Result<nat, string>)
    ensures r.Failure? <==> authenticate(email, password).None?
    ensures r.Success? ==> r.value == authenticate(email, password).value
  {
    match authenticate(email, password)
    case None => Failure(BadCredentials)
    case Some(user) => Success(user)
  }

  /** `UserSerializer.get_avatar`: the avatar's URL when the user has an
      avatar row with a file, otherwise `None`. */
  function GetAvatar(storageUrl: string -> string, avatars: map<nat, Avatar>, user: nat): (r: Option<string>)
    ensures r.Some? <==> user in avatars && avatars[user].image != ""
    ensures r.Some? ==> r.value == storageUrl(avatars[user].image)
  {
    if user in avatars then AvatarPhotoUrl(storageUrl, avatars[user]) else None
  }

  /** `UserSerializer.get_is_subscribed` (the same code in both trees):
      false for an anonymous requester, otherwise whether the requester
      follows `obj`. */
  function IsSubscribed(follows: Table, who: Requester, obj: nat): (r: bool)
    ensures !who.IsAuthenticated() ==> !r
    ensures who.IsAuthenticated() ==> (r <==> Has(follows, Link(who.id, obj)))
  {
    match who
    case Anonymous => false
    case Member(user, _) => Link(user, obj) in follows
  }

  /** `FollowersSerializer.get_is_subscribed`: whether `requester` follows
      `following`, with no check of authentication. */
  function SubscribedTo(follows: Table, requester: nat, following: nat): (r: bool)
    ensures r <==> Has(follows, Link(requester, following))
  {
    Link(requester, following) in follows
  }

  /** `FollowersSerializer.get_recipes` (the same code in both trees): the
      followed user's recipes in table order, cut to the first `limit` when
      a limit is given (`recipes[:limit]`, which keeps all of them when
      there are fewer). */
  function GetRecipes(recipes: seq<Recipe>, author: nat, limit: Option<nat>): (r: seq<Recipe>)
    ensures forall x :: x in r ==> x in recipes && x.author == author
    ensures limit.None? ==> r == AuthoredBy(recipes, author)
    ensures limit.Some? ==> |r| == if limit.value < RecipesCount(recipes, author) then limit.value else RecipesCount(recipes, author)
    ensures r == AuthoredBy(recipes, author)[..|r|]
  {
    var all := AuthoredBy(recipes, author);
    match limit
    case None => all
    case Some(n) => if n < |all| then all[..n] else all
  }

  /** `FollowersSerializer.get_recipes_count`: the number of recipes by the
      followed user. */
  function GetRecipesCount(recipes: seq<Recipe>, author: nat): (r: nat)
    ensures r == |AuthoredBy(recipes, author)|
  {
    RecipesCount(recipes, author)
  }

  /** The count does not depend on the limit: it bounds every limited list
      and equals the unlimited one's length. */
  lemma CountIgnoresLimit(recipes: seq<Recipe>, author: nat, limit: Option<nat>)
    ensures |GetRecipes(recipes, author, limit)| <= GetRecipesCount(recipes, author)
    ensures |GetRecipes(recipes, author, None)| == GetRecipesCount(recipes, author)
  {
  }

  /** One entry of the subscriptions list, as `FollowersSerializer` renders
      a follow row: the followed user's fields, whether the requester
      follows them, their recipes (limited) and recipe count, and avatar. */
  datatype FollowerView = FollowerView(
    id: nat, email: string, username: string, firstName: string, lastName: string,
    isSubscribed: bool, recipes: seq<Recipe>, recipesCount: nat, avatar: Option<string>)

  function RepresentFollow(
    storageUrl: string -> string, users: map<nat, User>, avatars: map<nat, Avatar>, recipes: seq<Recipe>, follows: Table,
    requester: nat, row: Link, limit: Option<nat>): (r: FollowerView)
    requires row.target in users
    ensures var u := users[row.target];
      && r.id == u.id && r.email == u.email && r.username == u.username
      && r.firstName == u.firstName && r.lastName == u.lastName
    ensures r.isSubscribed <==> Has(follows, Link(requester, row.target))
    ensures r.recipesCount == |AuthoredBy(recipes, row.target)|
    ensures |r.recipes| <= r.recipesCount
    ensures r.recipes == AuthoredBy(recipes, row.target)[..|r.recipes|]
    ensures limit.None? ==> r.recipes == AuthoredBy(recipes, row.target)
    ensures limit.Some? ==> |r.recipes| == if limit.value < r.recipesCount then limit.value else r.recipesCount
    ensures r.avatar.Some? <==> row.target in avatars && avatars[row.target].image != ""
    ensures r.avatar.Some? ==> r.avatar.value == storageUrl(avatars[row.target].image)
  {
    var u := users[row.target];
    CountIgnoresLimit(recipes, row.target, limit);
    FollowerView(u.id, u.email, u.username, u.firstName, u.lastName,
      SubscribedTo(follows, requester, row.target),
      GetRecipes(recipes, row.target, limit), GetRecipesCount(recipes, row.target),
      GetAvatar(storageUrl, avatars, row.target))
  }
}

/**
 * The user controller's rules: the password policy, the order of checks when
 * an account is created, and the change set a profile update writes.
 */
module Users {
  import opened Common

  /** A row of the user table; `password` holds the bcrypt hash. */
  datatype User = User(
    id: UserId,
    pseudo: string,
    email: string,
    password: string,
    description: Option<string>,
    image: Option<string>,
    xp: int,
    favoriteGames: set<GameId>)

  const MIN_PASSWORD_LENGTH: nat := 8

  /** The characters of the class `[!@#$%^&*(),.?":{}|<>]`. */
  const SPECIAL_CHARS: string := "!@#$%^&*(),.?\":{}|<>"

  datatype PasswordError = TooShort | NoSpecialChar

  /**
   * JavaScript's `length` of a string: UTF-16 code units, so a character
   * outside the Basic Multilingual Plane counts twice.
   */
  function Utf16Length(s: string): (n: nat)
    ensures |s| <= n <= 2 * |s|
  {
    if s == [] then 0
    else (if s[0] as int > 0xFFFF then 2 else 1) + Utf16Length(s[1..])
  }

  /** The regular-expression test: some character of `p` is special. */
  function HasSpecialChar(p: string): (r: bool)
    ensures r <==> exists i :: 0 <= i < |p| && p[i] in SPECIAL_CHARS
  {
    if p == [] then false
    else if p[0] in SPECIAL_CHARS then true
    else
      var rest := HasSpecialChar(p[1..]);
      assert rest <==> exists i :: 1 <= i < |p| && p[i] in SPECIAL_CHARS by {
        if rest {
          var j :| 0 <= j < |p[1..]| && p[1..][j] in SPECIAL_CHARS;
          assert p[j + 1] in SPECIAL_CHARS;
        }
        if exists i :: 1 <= i < |p| && p[i] in SPECIAL_CHARS {
          var i :| 1 <= i < |p| && p[i] in SPECIAL_CHARS;
          assert p[1..][i - 1] in SPECIAL_CHARS;
        }
      }
      rest
  }

  /**
   * validatePassword: no error iff the password is at least eight units long
   * and holds a special character; the length is checked first.
   */
  function ValidatePassword(password: string): (r: Option<PasswordError>)
    ensures r == None <==>
      Utf16Length(password) >= MIN_PASSWORD_LENGTH
      && exists i :: 0 <= i < |password| && password[i] in SPECIAL_CHARS
    ensures Utf16Length(password) < MIN_PASSWORD_LENGTH ==> r == Some(TooShort)
    ensures r == Some(NoSpecialChar) <==>
      Utf16Length(password) >= MIN_PASSWORD_LENGTH
      && forall i :: 0 <= i < |password| ==> password[i] !in SPECIAL_CHARS
  {
    if Utf16Length(password) < MIN_PASSWORD_LENGTH then Some(TooShort)
    else if !HasSpecialChar(password) then Some(NoSpecialChar)
    else None
  }

  predicate EmailInUse(users: seq<User>, email: string) {
    exists i :: 0 <= i < |users| && users[i].email == email
  }

  predicate PseudoInUse(users: seq<User>, pseudo: string) {
    exists i :: 0 <= i < |users| && users[i].pseudo == pseudo
  }

  /** Ids, e-mails and pseudos are unique across the table. */
  ghost predicate Unique(users: seq<User>) {
    forall i, j :: 0 <= i < j < |users| ==>
      && users[i].id != users[j].id
      && users[i].email != users[j].email
      && users[i].pseudo != users[j].pseudo
  }

  /** findByPk: the position of the row with primary key `id`. */
  function IndexOf(users: seq<User>, id: UserId): (r: Option<nat>)
    ensures r.Some? ==> r.value < |users| && users[r.value].id == id
    ensures r.None? <==> forall i :: 0 <= i < |users| ==> users[i].id != id
  {
    if users == [] then None
    else if users[0].id == id then Some(0)
    else
      match IndexOf(users[1..], id)
      case None => None
      case Some(k) => Some(k + 1)
  }

  datatype CreateUserError =
    | MissingField
    | WeakPassword(reason: PasswordError)
    | EmailTaken
    | PseudoTaken
  {
    function Status(): nat {
      match this
      case MissingField => 400
      case WeakPassword(_) => 400
      case EmailTaken => 409
      case PseudoTaken => 409
    }
  }

  /**
   * createUser's checks in their order, the first failure winning: missing
   * field, weak password, e-mail in use, pseudo in use.
   */
  function CreateUserCheck(users: seq<User>, pseudo: Option<string>, email: Option<string>, password: Option<string>)
    : (r: Option<CreateUserError>)
    ensures r == Some(MissingField) <==> !(Present(pseudo) && Present(email) && Present(password))
    ensures (r.Some? && r.value.WeakPassword?) <==>
      Present(pseudo) && Present(email) && Present(password) && ValidatePassword(password.value).Some?
    ensures r.Some? && r.value.WeakPassword? ==> Some(r.value.reason) == ValidatePassword(password.value)
    ensures r == Some(EmailTaken) <==>
      Present(pseudo) && Present(email) && Present(password) && ValidatePassword(password.value).None?
      && EmailInUse(users, email.value)
    ensures r == Some(PseudoTaken) <==>
      Present(pseudo) && Present(email) && Present(password) && ValidatePassword(password.value).None?
      && !EmailInUse(users, email.value) && PseudoInUse(users, pseudo.value)
    ensures r == None <==>
      Present(pseudo) && Present(email) && Present(password) && ValidatePassword(password.value).None?
      && !EmailInUse(users, email.value) && !PseudoInUse(users, pseudo.value)
  {
    if !Present(pseudo) || !Present(email) || !Present(password) then Some(MissingField)
    else if ValidatePassword(password.value).Some? then Some(WeakPassword(ValidatePassword(password.value).value))
    else if EmailInUse(users, email.value) then Some(EmailTaken)
    else if PseudoInUse(users, pseudo.value) then Some(PseudoTaken)
    else None
  }

  /** The fields of a profile update request (`req.body`). */
  datatype ProfileUpdate = ProfileUpdate(
    pseudo: Option<string>,
    description: Option<string>,
    favoriteGames: Option<seq<GameId>>,
    image: Option<string>,
    currentPassword: Option<string>,
    newPassword: Option<string>)

  /** The `changes` object: the fields `user.update` writes. */
  datatype Changes = Changes(
    pseudo: Option<string>,
    description: Option<string>,
    image: Option<string>,
    password: Option<string>)

  datatype UpdateError =
    | ProfileNotFound
    | PseudoConflict
    | BadImageUrl
    | CurrentPasswordMissing
    | CurrentPasswordIncorrect
    | NewPasswordWeak(reason: PasswordError)
  {
    function Status(): nat {
      match this
      case ProfileNotFound => 404
      case PseudoConflict => 409
      case BadImageUrl => 400
      case CurrentPasswordMissing => 400
      case CurrentPasswordIncorrect => 401
      case NewPasswordWeak(_) => 400
    }
  }

  /** `url` is `prefix` followed by at least one character, none a space or a double quote. */
  predicate UrlWithScheme(url: string, prefix: string) {
    && |prefix| < |url|
    && url[..|prefix|] == prefix
    && forall i :: |prefix| <= i < |url| ==> url[i] != ' ' && url[i] != '"'
  }

  /** The test `/^(ftp|http|https):\/\/[^ "]+$/`. */
  predicate ValidImageUrl(url: string) {
    UrlWithScheme(url, "ftp://") || UrlWithScheme(url, "http://") || UrlWithScheme(url, "https://")
  }

  predicate PseudoChanged(stored: User, req: ProfileUpdate) {
    Present(req.pseudo) && req.pseudo.value != stored.pseudo
  }

  predicate DescriptionChanged(stored: User, req: ProfileUpdate) {
    Present(req.description) && Some(req.description.value) != stored.description
  }

  predicate ImageChanged(stored: User, req: ProfileUpdate) {
    Present(req.image) && Some(req.image.value) != stored.image
  }

  /** The requested pseudo differs from the stored one and another user holds it. */
  predicate PseudoClash(stored: User, users: seq<User>, req: ProfileUpdate) {
    PseudoChanged(stored, req) && PseudoInUse(users, req.pseudo.value)
  }

  /** The requested image differs from the stored one and is not a valid URL. */
  predicate BadImage(stored: User, req: ProfileUpdate) {
    ImageChanged(stored, req) && !ValidImageUrl(req.image.value)
  }

  /** The password part of a request passes: current password given and right, new one valid. */
  predicate PasswordChangeAccepted(stored: User, req: ProfileUpdate, matches: (string, string) -> bool) {
    Present(req.newPassword) ==>
      && Present(req.currentPassword)
      && matches(req.currentPassword.value, stored.password)
      && ValidatePassword(req.newPassword.value).None?
  }

  /**
   * updateUser up to `user.update`: each field enters the change set only if
   * supplied and different from the stored value; a clashing pseudo, a bad
   * image URL or a refused password change answers an error instead, before
   * anything is written. `matches` is bcrypt's comparison, `newHash` the hash
   * of the new password.
   */
  function ChangeSet(stored: User, users: seq<User>, req: ProfileUpdate,
                     matches: (string, string) -> bool, newHash: string): (r: Result<Changes, UpdateError>)
    ensures r.Ok? <==>
      !PseudoClash(stored, users, req) && !BadImage(stored, req) && PasswordChangeAccepted(stored, req, matches)
    ensures r == Err(PseudoConflict) <==> PseudoClash(stored, users, req)
    ensures r == Err(BadImageUrl) <==> !PseudoClash(stored, users, req) && BadImage(stored, req)
    ensures r == Err(CurrentPasswordMissing) <==>
      && !PseudoClash(stored, users, req) && !BadImage(stored, req)
      && Present(req.newPassword) && !Present(req.currentPassword)
    ensures r == Err(CurrentPasswordIncorrect) <==>
      && !PseudoClash(stored, users, req) && !BadImage(stored, req)
      && Present(req.newPassword) && Present(req.currentPassword)
      && !matches(req.currentPassword.value, stored.password)
    ensures (r.Err? && r.error.NewPasswordWeak?) <==>
      && !PseudoClash(stored, users, req) && !BadImage(stored, req)
      && Present(req.newPassword) && Present(req.currentPassword)
      && matches(req.currentPassword.value, stored.password)
      && ValidatePassword(req.newPassword.value).Some?
    ensures r.Err? && r.error.NewPasswordWeak? ==> ValidatePassword(req.newPassword.value) == Some(r.error.reason)
    ensures r != Err(ProfileNotFound)
    ensures r.Ok? ==>
      && (r.value.pseudo.Some? <==> PseudoChanged(stored, req))
      && (r.value.pseudo.Some? ==> r.value.pseudo == req.pseudo)
      && (r.value.description.Some? <==> DescriptionChanged(stored, req))
      && (r.value.description.Some? ==> r.value.description == req.description)
      && (r.value.image.Some? <==> ImageChanged(stored, req))
      && (r.value.image.Some? ==> r.value.image == req.image)
      && (r.value.password.Some? <==> Present(req.newPassword))
      && (r.value.password.Some? ==> r.value.password == Some(newHash))
  {
    if PseudoClash(stored, users, req) then Err(PseudoConflict)
    else if BadImage(stored, req) then Err(BadImageUrl)
    else if Present(req.newPassword) && !Present(req.currentPassword) then Err(CurrentPasswordMissing)
    else if Present(req.newPassword) && !matches(req.currentPassword.value, stored.password) then
      Err(CurrentPasswordIncorrect)
    else if Present(req.newPassword) && ValidatePassword(req.newPassword.value).Some? then
      Err(NewPasswordWeak(ValidatePassword(req.newPassword.value).value))
    else
      Ok(Changes(
        if PseudoChanged(stored, req) then req.pseudo else None,
        if DescriptionChanged(stored, req) then req.description else None,
        if ImageChanged(stored, req) then req.image else None,
        if Present(req.newPassword) then Some(newHash) else None))
  }

  /** `user.update(changes)`: the fields in the change set replaced, the others kept. */
  function ApplyChanges(u: User, c: Changes): (v: User)
    ensures v.id == u.id && v.email == u.email && v.xp == u.xp && v.favoriteGames == u.favoriteGames
    ensures c.pseudo.Some? ==> v.pseudo == c.pseudo.value
    ensures c.pseudo.None? ==> v.pseudo == u.pseudo
    ensures c.description.Some? ==> v.description == c.description
    ensures c.description.None? ==> v.description == u.description
    ensures c.image.Some? ==> v.image == c.image
    ensures c.image.None? ==> v.image == u.image
    ensures c.password.Some? ==> v.password == c.password.value
    ensures c.password.None? ==> v.password == u.password
    ensures c == Changes(None, None, None, None) ==> v == u
  {
    u.(pseudo := c.pseudo.GetOr(u.pseudo),
       description := if c.description.Some? then c.description else u.description,
       image := if c.image.Some? then c.image else u.image,
       password := c.password.GetOr(u.password))
  }

  /** `setFavoriteGames` with the games of the request that exist; left alone when no array was sent. */
  function WithFavorites(u: User, requested: Option<seq<GameId>>, games: set<GameId>): (v: User)
    ensures v.favoriteGames == if requested.Some? then set g | g in requested.value && g in games else u.favoriteGames
    ensures v.favoriteGames <= games || requested.None?
    ensures v.(favoriteGames := u.favoriteGames) == u
  {
    if requested.Some? then u.(favoriteGames := set g | g in requested.value && g in games) else u
  }

  /** A request that supplies nothing different from the stored profile changes nothing. */
  lemma NothingSuppliedNothingChanged(stored: User, users: seq<User>, req: ProfileUpdate,
                                      matches: (string, string) -> bool, newHash: string)
    requires !PseudoChanged(stored, req) && !DescriptionChanged(stored, req) && !ImageChanged(stored, req)
    requires !Present(req.newPassword)
    ensures ChangeSet(stored, users, req, matches, newHash) == Ok(Changes(None, None, None, None))
    ensures ApplyChanges(stored, ChangeSet(stored, users, req, matches, newHash).value) == stored
  {
  }

  /** A profile update keeps ids, e-mails and pseudos unique. */
  lemma UpdateKeepsUnique(users: seq<User>, i: nat, v: User)
    requires Unique(users) && i < |users|
    requires v.id == users[i].id && v.email == users[i].email
    requires v.pseudo == users[i].pseudo || !PseudoInUse(users, v.pseudo)
    ensures Unique(users[i := v])
  {
    var after := users[i := v];
    forall j, k | 0 <= j < k < |after|
      ensures after[j].id != after[k].id && after[j].email != after[k].email && after[j].pseudo != after[k].pseudo
    {
      if j == i && v.pseudo != users[i].pseudo {
        assert users[k].pseudo != v.pseudo;
      } else if k == i && v.pseudo != users[i].pseudo {
        assert users[j].pseudo != v.pseudo;
      }
    }
  }

  /** A new account keeps ids, e-mails and pseudos unique. */
  lemma CreateKeepsUnique(users: seq<User>, u: User)
    requires Unique(users)
    requires forall i :: 0 <= i < |users| ==> users[i].id != u.id
    requires !EmailInUse(users, u.email) && !PseudoInUse(users, u.pseudo)
    ensures Unique(users + [u])
  {
    var after := users + [u];
    forall j, k | 0 <= j < k < |after|
      ensures after[j].id != after[k].id && after[j].email != after[k].email && after[j].pseudo != after[k].pseudo
    {
      if k == |users| {
        assert after[j] == users[j];
      }
    }
  }

  /** The user table, with its auto-incremented key. */
  class UserTable {
    var users: seq<User>
    var nextId: nat

    ghost predicate Valid()
      reads this
    {
      && (forall i :: 0 <= i < |users| ==> users[i].id < nextId)
      && Unique(users)
    }

    constructor ()
      ensures Valid() && users == [] && nextId == 1
    {
      users, nextId := [], 1;
    }

    /** createUser: the checks of `CreateUserCheck`, then a new row with xp 0. */
    method CreateUser(pseudo: Option<string>, email: Option<string>, password: Option<string>, hash: string)
      returns (r: Result<User, CreateUserError>)
      requires Valid()
      modifies this
      ensures Valid()
      ensures CreateUserCheck(old(users), pseudo, email, password).Some? ==>
        && r == Err(CreateUserCheck(old(users), pseudo, email, password).value)
        && users == old(users) && nextId == old(nextId)
      ensures CreateUserCheck(old(users), pseudo, email, password).None? ==>
        && r == Ok(User(old(nextId), pseudo.value, email.value, hash, None, None, 0, {}))
        && users == old(users) + [r.value]
        && nextId == old(nextId) + 1
    {
      if !Present(pseudo) || !Present(email) || !Present(password) {
        return Err(MissingField);
      }
      var passwordError := ValidatePassword(password.value);
      if passwordError.Some? {
        return Err(WeakPassword(passwordError.value));
      }
      if EmailInUse(users, email.value) {
        return Err(EmailTaken);
      }
      if PseudoInUse(users, pseudo.value) {
        return Err(PseudoTaken);
      }
      var newUser := User(nextId, pseudo.value, email.value, hash, None, None, 0, {});
      CreateKeepsUnique(users, newUser);
      users := users + [newUser];
      nextId := nextId + 1;
      r := Ok(newUser);
    }

    /**
     * updateUser: build the change set field by field, returning on the first
     * refusal; then write it, then replace the favourite games when an array
     * was sent. `games` are the ids of the game table.
     */
    method UpdateUser(userId: UserId, req: ProfileUpdate, games: set<GameId>,
                      matches: (string, string) -> bool, newHash: string)
      returns (r: Result<User, UpdateError>)
      requires Valid()
      modifies this
      ensures Valid() && nextId == old(nextId)
      ensures IndexOf(old(users), userId).None? ==> r == Err(ProfileNotFound) && users == old(users)
      ensures IndexOf(old(users), userId).Some? ==>
        var i := IndexOf(old(users), userId).value;
        var cs := ChangeSet(old(users)[i], old(users), req, matches, newHash);
        && (cs.Err? ==> r == Err(cs.error) && users == old(users))
        && (cs.Ok? ==>
              && users == old(users)[i := WithFavorites(ApplyChanges(old(users)[i], cs.value), req.favoriteGames, games)]
              && r == Ok(users[i]))
    {
      var index := IndexOf(users, userId);
      if index.None? {
        return Err(ProfileNotFound);
      }
      var i := index.value;
      var user := users[i];
      var changes := Changes(None, None, None, None);

      if Present(req.pseudo) && req.pseudo.value != user.pseudo {
        if PseudoInUse(users, req.pseudo.value) {
          return Err(PseudoConflict);
        }
        changes := changes.(pseudo := req.pseudo);
      }
      if Present(req.description) && Some(req.description.value) != user.description {
        changes := changes.(description := req.description);
      }
      if Present(req.image) && Some(req.image.value) != user.image {
        if !ValidImageUrl(req.image.value) {
          return Err(BadImageUrl);
        }
        changes := changes.(image := req.image);
      }
      if Present(req.newPassword) {
        if !Present(req.currentPassword) {
          return Err(CurrentPasswordMissing);
        }
        if !matches(req.currentPassword.value, user.password) {
          return Err(CurrentPasswordIncorrect);
        }
        var passwordError := ValidatePassword(req.newPassword.value);
        if passwordError.Some? {
          return Err(NewPasswordWeak(passwordError.value));
        }
        changes := changes.(password := Some(newHash));
      }
      assert ChangeSet(user, users, req, matches, newHash) == Ok(changes);

      var updated := WithFavorites(ApplyChanges(user, changes), req.favoriteGames, games);
      UpdateKeepsUnique(users, i, updated);
      users := users[i := updated];
      r := Ok(updated);
    }
  }
}

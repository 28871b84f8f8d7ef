/** The account handlers: signup and login validation, and the field merge
    of a profile update. Password hashing and comparison are parameters. */
module Accounts {
  import opened Common
  import opened UserModel

  // ---------------------------------------------------------------------
  // signup

  /** The guards of `signup`, in the order the handler runs them. */
  function SignupCheck(users: seq<User>, fullName: Option<string>, email: Option<string>,
                       password: Option<string>, bio: Option<string>): Option<Failure>
  {
    if !Truthy(fullName) || !Truthy(email) || !Truthy(password) || !Truthy(bio) then
      Some(ApiError(400, "Bad Request"))
    else if FindByEmail(users, email.value).Some? then
      Some(ApiError(409, "User with the same email already exists"))
    else None
  }

  /** A signup passes iff all four fields are non-empty and the email is
      new; a missing field is reported as 400 before the email is looked
      up, and a taken email as 409. */
  lemma SignupGuards(users: seq<User>, fullName: Option<string>, email: Option<string>,
                     password: Option<string>, bio: Option<string>)
    ensures SignupCheck(users, fullName, email, password, bio).None?
            <==> Truthy(fullName) && Truthy(email) && Truthy(password) && Truthy(bio)
                 && forall i :: 0 <= i < |users| ==> users[i].email != email.value
    ensures !(Truthy(fullName) && Truthy(email) && Truthy(password) && Truthy(bio))
            ==> SignupCheck(users, fullName, email, password, bio) == Some(ApiError(400, "Bad Request"))
    ensures Truthy(fullName) && Truthy(email) && Truthy(password) && Truthy(bio)
            && (exists i :: 0 <= i < |users| && users[i].email == email.value)
            ==> SignupCheck(users, fullName, email, password, bio).value.status == 409
  {
  }

  /** `signup`: on success exactly one user is created, with the hashed
      password and an empty picture, and returned without the password. */
  method Signup(store: UserStore, fullName: Option<string>, email: Option<string>,
                password: Option<string>, bio: Option<string>,
                hash: string -> string, freshId: UserId)
    returns (r: Result<PublicUser>)
    requires store.Valid()
    requires forall i :: 0 <= i < |store.users| ==> store.users[i].id != freshId
    modifies store
    ensures store.Valid()
    ensures SignupCheck(old(store.users), fullName, email, password, bio).Some? ==>
              r == Err(SignupCheck(old(store.users), fullName, email, password, bio).value)
              && store.users == old(store.users)
    ensures SignupCheck(old(store.users), fullName, email, password, bio).None? ==>
              var u := User(freshId, email.value, fullName.value, hash(password.value), "", bio.value, None);
              store.users == old(store.users) + [u] && r == Ok(201, Public(u))
  {
    var failure := SignupCheck(store.users, fullName, email, password, bio);
    if failure.Some? {
      return Err(failure.value);
    }
    var user := User(freshId, email.value, fullName.value, hash(password.value), "", bio.value, None);
    store.Create(user);
    r := Ok(201, Public(user));
  }

  // ---------------------------------------------------------------------
  // login

  /** `login`: email presence, then password presence, then the lookup, then
      the password comparison `compare(plain, hash)`. */
  function Login(users: seq<User>, email: Option<string>, password: Option<string>,
                 compare: (string, string) -> bool): Result<PublicUser>
  {
    if !Truthy(email) then Err(ApiError(400, "Email is Required"))
    else if !Truthy(password) then Err(ApiError(400, "Password is Required"))
    else match FindByEmail(users, email.value)
      case None => Err(ApiError(400, "User does not exist"))
      case Some(user) =>
        if !compare(password.value, user.password) then Err(ApiError(400, "Incorrect Password"))
        else Ok(200, Public(user))
  }

  /** Login succeeds iff both fields are present, a user has that email and
      the password matches its hash; the user comes back without its
      password. A missing email is reported whatever the password, and every
      refusal is a 400. */
  lemma LoginOutcome(users: seq<User>, email: Option<string>, password: Option<string>,
                     compare: (string, string) -> bool)
    ensures !Truthy(email) ==> Login(users, email, password, compare) == Err(ApiError(400, "Email is Required"))
    ensures Truthy(email) && !Truthy(password)
            ==> Login(users, email, password, compare) == Err(ApiError(400, "Password is Required"))
    ensures Login(users, email, password, compare).Err? ==> Login(users, email, password, compare).failure.status == 400
    ensures Login(users, email, password, compare).Ok?
            <==> Truthy(email) && Truthy(password)
                 && (exists i :: 0 <= i < |users| && users[i].email == email.value)
                 && compare(password.value, FindByEmail(users, email.value).value.password)
    ensures Login(users, email, password, compare).Ok?
            ==> exists u :: u in users && u.email == email.value
                            && Login(users, email, password, compare).value == Public(u)
  {
  }

  /** Under unique emails, login answers for the one user with that email. */
  lemma LoginFindsTheUser(users: seq<User>, k: nat, password: string, compare: (string, string) -> bool)
    requires UniqueKeys(users) && k < |users| && users[k].email != "" && password != ""
    ensures Login(users, Some(users[k].email), Some(password), compare)
            == if compare(password, users[k].password) then Ok(200, Public(users[k]))
               else Err(ApiError(400, "Incorrect Password"))
  {
    var found := FindByEmail(users, users[k].email);
    assert users[k] in users;
    var j :| 0 <= j < |users| && users[j] == found.value;
  }

  // ---------------------------------------------------------------------
  // updateProfile

  /** `isBase64`: the picture is uploaded when it starts with "data:" or
      contains "base64,". */
  predicate IsBase64(profilePic: string)
  {
    StartsWith(profilePic, "data:") || Contains(profilePic, "base64,")
  }

  /** A picture with no comma in it, such as a plain image URL, is uploaded
      only when it is a data URL. */
  lemma CommaFreeIsBase64(profilePic: string)
    requires ',' !in profilePic
    ensures IsBase64(profilePic) <==> StartsWith(profilePic, "data:")
  {
    ContainedChars(profilePic, "base64,", 6);
  }

  /** Every character of a contained part is a character of the whole. */
  lemma ContainedChars(s: string, part: string, k: nat)
    requires k < |part|
    ensures Contains(s, part) ==> part[k] in s
  {
    if Contains(s, part) {
      var i :| 0 <= i <= |s| - |part| && StartsWith(s[i..], part);
      assert s[i + k] == s[i..][..|part|][k];
    }
  }

  /** The picture fields after the merge: an uploaded picture takes the
      upload's URL and public id, any other truthy picture replaces the URL
      and keeps the public id, and no picture changes nothing. A failed
      upload throws before the document is touched, so `UpdateProfile`
      never merges in that case; the function leaves the user as it is. */
  function MergedPicture(user: User, profilePic: Option<string>, upload: string -> UploadOutcome): User
  {
    if !Truthy(profilePic) then user
    else if !IsBase64(profilePic.value) then user.(profilePic := profilePic.value)
    else if upload(profilePic.value).Uploaded? then
      user.(profilePic := upload(profilePic.value).secureUrl,
            profilePicPublicId := Some(upload(profilePic.value).publicId))
    else user
  }

  /** The user document after the field-by-field update: bio and fullName
      are overwritten whenever they were sent, even as "". */
  function Merged(user: User, profilePic: Option<string>, bio: Option<string>,
                  fullName: Option<string>, upload: string -> UploadOutcome): User
  {
    var withBio := if bio.Some? then user.(bio := bio.value) else user;
    var withName := if fullName.Some? then withBio.(fullName := fullName.value) else withBio;
    MergedPicture(withName, profilePic, upload)
  }

  /** The merge touches only bio, fullName, profilePic and its public id;
      it keeps id, email and password hash; each of the four follows its rule. */
  lemma MergedFields(user: User, profilePic: Option<string>, bio: Option<string>,
                     fullName: Option<string>, upload: string -> UploadOutcome)
    ensures var m := Merged(user, profilePic, bio, fullName, upload);
      && m.id == user.id && m.email == user.email && m.password == user.password
      && m.bio == (if bio.Some? then bio.value else user.bio)
      && m.fullName == (if fullName.Some? then fullName.value else user.fullName)
      && (!Truthy(profilePic) ==> m.profilePic == user.profilePic && m.profilePicPublicId == user.profilePicPublicId)
      && ((Truthy(profilePic) && !IsBase64(profilePic.value))
            ==> m.profilePic == profilePic.value && m.profilePicPublicId == user.profilePicPublicId)
      && ((Truthy(profilePic) && IsBase64(profilePic.value) && upload(profilePic.value).Uploaded?)
            ==> m.profilePic == upload(profilePic.value).secureUrl
                && m.profilePicPublicId == Some(upload(profilePic.value).publicId))
  {
  }

  /** `updateProfile` on the user `userId`. Returns the answer and the
      public id of the old picture whose deletion was attempted, if any; the
      outcome of that deletion is swallowed, so it is not an input. The
      save runs the schema's validators: an empty fullName is refused. */
  method UpdateProfile(store: UserStore, userId: UserId, profilePic: Option<string>,
                       bio: Option<string>, fullName: Option<string>,
                       upload: string -> UploadOutcome)
    returns (r: Result<PublicUser>, cleanup: Option<string>)
    requires store.Valid()
    modifies store
    ensures store.Valid()
    ensures !Truthy(profilePic) && !Truthy(bio) && !Truthy(fullName) ==>
              r == Err(ApiError(400, "Bad Request")) && store.users == old(store.users) && cleanup == None
    ensures (Truthy(profilePic) || Truthy(bio) || Truthy(fullName))
            && IndexOfId(old(store.users), userId).None? ==>
              r == Err(ApiError(404, "User not found")) && store.users == old(store.users) && cleanup == None
    ensures (Truthy(profilePic) || Truthy(bio) || Truthy(fullName))
            && IndexOfId(old(store.users), userId).Some? ==>
              var k := IndexOfId(old(store.users), userId).value;
              var user := old(store.users)[k];
              var uploading := Truthy(profilePic) && IsBase64(profilePic.value);
              var merged := Merged(user, profilePic, bio, fullName, upload);
              && (uploading && upload(profilePic.value).UploadFailed? ==>
                    r == Err(Thrown) && store.users == old(store.users) && cleanup == None)
              && (!(uploading && upload(profilePic.value).UploadFailed?) ==>
                    && cleanup == (if uploading && Truthy(user.profilePicPublicId) then user.profilePicPublicId else None)
                    && (merged.fullName == "" ==> r == Err(Thrown) && store.users == old(store.users))
                    && (merged.fullName != "" ==>
                          r == Ok(200, Public(merged)) && store.users == old(store.users)[k := merged]))
  {
    cleanup := None;
    if !Truthy(profilePic) && !Truthy(bio) && !Truthy(fullName) {
      return Err(ApiError(400, "Bad Request")), None;
    }
    var found := IndexOfId(store.users, userId);
    if found.None? {
      return Err(ApiError(404, "User not found")), None;
    }
    var k := found.value;
    var user := store.users[k];
    if bio.Some? {
      user := user.(bio := bio.value);
    }
    if fullName.Some? {
      user := user.(fullName := fullName.value);
    }
    if Truthy(profilePic) {
      var pic := profilePic.value;
      if IsBase64(pic) {
        var uploaded := upload(pic);
        if uploaded.UploadFailed? {
          return Err(Thrown), None;
        }
        if Truthy(user.profilePicPublicId) {
          // the old image is deleted here; a failed delete is only logged
          cleanup := user.profilePicPublicId;
        }
        user := user.(profilePic := uploaded.secureUrl);
        user := user.(profilePicPublicId := Some(uploaded.publicId));
      } else {
        user := user.(profilePic := pic);
      }
    }
    if user.fullName == "" {
      // save(): fullName is a required field
      r := Err(Thrown);
      return;
    }
    store.Save(k, user);
    r := Ok(200, Public(user));
  }
}

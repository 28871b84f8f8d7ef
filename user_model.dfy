/** The user record, the password-free view of it that handlers return, and
    the user collection. */
module UserModel {
  import opened Common

  /** A stored user. `password` holds the hash; `profilePic` defaults to "";
      `profilePicPublicId` is the image host's id of an uploaded picture. */
  datatype User = User(
    id: UserId,
    email: string,
    fullName: string,
    password: string,
    profilePic: string,
    bio: string,
    profilePicPublicId: Option<string>)

  /** A user as handlers return it: every field but the password. */
  datatype PublicUser = PublicUser(
    id: UserId,
    email: string,
    fullName: string,
    profilePic: string,
    bio: string,
    profilePicPublicId: Option<string>)

  /** `toObject()` followed by `delete password`, or `.select("-password")`. */
  function Public(u: User): (p: PublicUser)
    ensures p.id == u.id && p.email == u.email && p.fullName == u.fullName
    ensures p.profilePic == u.profilePic && p.bio == u.bio
    ensures p.profilePicPublicId == u.profilePicPublicId
  {
    PublicUser(u.id, u.email, u.fullName, u.profilePic, u.bio, u.profilePicPublicId)
  }

  /** `findOne({email})`: the first user with that email. */
  function FindByEmail(users: seq<User>, email: string): (r: Option<User>)
    ensures r.None? <==> forall i :: 0 <= i < |users| ==> users[i].email != email
    ensures r.Some? ==> r.value in users && r.value.email == email
  {
    if users == [] then None
    else if users[0].email == email then Some(users[0])
    else FindByEmail(users[1..], email)
  }

  /** The position of the user with id `id`, if any. */
  function IndexOfId(users: seq<User>, id: UserId): (r: Option<nat>)
    ensures r.None? <==> forall i :: 0 <= i < |users| ==> users[i].id != id
    ensures r.Some? ==> r.value < |users| && users[r.value].id == id
                        && forall i :: 0 <= i < r.value ==> users[i].id != id
  {
    if users == [] then None
    else if users[0].id == id then Some(0)
    else match IndexOfId(users[1..], id)
         case None => None
         case Some(k) => Some(k + 1)
  }

  /** Emails are unique (the schema's unique index) and so are ids. */
  predicate UniqueKeys(users: seq<User>)
  {
    forall i, j :: 0 <= i < j < |users| ==> users[i].email != users[j].email && users[i].id != users[j].id
  }

  class UserStore {
    var users: seq<User>

    ghost predicate Valid()
      reads this
    {
      UniqueKeys(users)
    }

    constructor ()
      ensures Valid() && users == []
    {
      users := [];
    }

    /** `User.create`: append a user whose email and id are not taken. */
    method Create(u: User)
      requires Valid()
      requires forall i :: 0 <= i < |users| ==> users[i].email != u.email && users[i].id != u.id
      modifies this
      ensures Valid()
      ensures users == old(users) + [u]
    {
      users := users + [u];
    }

    /** `user.save()` of a loaded user: the document at position `k` is
        replaced; email and id are unchanged, so uniqueness is kept. */
    method Save(k: nat, u: User)
      requires Valid()
      requires k < |users| && u.id == users[k].id && u.email == users[k].email
      modifies this
      ensures Valid()
      ensures users == old(users)[k := u]
    {
      users := users[k := u];
    }
  }
}

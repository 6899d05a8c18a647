/** The authentication endpoints (`backend/routers/auth.py`): registration,
    login, the current user, and linking two accounts as partners. Password
    hashing, its check and token signing are foreign code and are passed in
    as functions. */
module AuthApi {
  import opened Wrappers
  import opened Tables
  import opened Database

  datatype RegisterRequest = RegisterRequest(
    username: string, password: string, role: string, displayName: string,
    anniversaryDate: Option<string>, relationshipStart: Option<string>)

  /** A stored user as the API shows it: everything but the password hash. */
  datatype UserResponse = UserResponse(
    id: string, username: string, role: string, displayName: string, partnerId: Option<string>,
    anniversaryDate: Option<string>, relationshipStart: Option<string>, createdAt: int)

  datatype LoginResponse = LoginResponse(accessToken: string, tokenType: string, user: UserResponse)

  datatype LinkResponse = LinkResponse(message: string, partnerName: string)

  const UsernameTaken := "Username already registered"
  const BadRole := "Role must be either 'boyfriend' or 'girlfriend'"
  const BadCredentials := "Incorrect username or password"
  const UserMissing := "User not found"
  const PartnerMissing := "Partner not found"
  const SameRole := "Partner must have a different role (one boyfriend, one girlfriend)"
  const Linked := "Successfully linked with partner"

  predicate ValidRole(role: string) {
    role == "boyfriend" || role == "girlfriend"
  }

  function Response(u: User): UserResponse {
    UserResponse(u.id, u.username, u.role, u.displayName, u.partnerId, u.anniversaryDate,
                 u.relationshipStart, u.createdAt)
  }

  /** The user `register` stores: the request's fields, the hash of the
      password instead of the password, and no partner. */
  function NewUser(req: RegisterRequest, hash: string -> string, id: string, now: int): (u: User)
    ensures u.username == req.username && u.role == req.role && u.displayName == req.displayName
    ensures u.passwordHash == hash(req.password) && u.partnerId.None?
    ensures u.anniversaryDate == req.anniversaryDate && u.relationshipStart == req.relationshipStart
  {
    User(id, req.username, hash(req.password), req.role, req.displayName, None,
         req.anniversaryDate, req.relationshipStart, now)
  }

  /** The claims `login` signs: the user's id as subject, name, role, display
      name and partner. */
  function Claims(u: User): CurrentUser {
    CurrentUser(u.id, u.username, u.role, u.displayName, u.partnerId)
  }

  /** Adding a user whose name is not taken keeps user names unique. */
  lemma RegisterKeepsUsernamesUnique(users: seq<User>, u: User)
    requires UniqueKeys(users, Username)
    requires forall x :: x in users ==> x.username != u.username
    ensures UniqueKeys(users + [u], Username)
  {
    var all := users + [u];
    forall i, j | 0 <= i < j < |all| ensures all[i].username != all[j].username {
      assert all[i] in users;
      if j == |users| {
      } else {
        assert all[j] == users[j];
      }
    }
  }

  /** `register`: a taken user name is refused first, then a role other than
      boyfriend or girlfriend; otherwise exactly one user is added. */
  method Register(db: Db, req: RegisterRequest, hash: string -> string, id: string, now: int)
    returns (r: Outcome<UserResponse>)
    modifies db`users
    ensures (exists u :: u in old(db.users) && u.username == req.username) ==>
              r == Error(BadRequest, UsernameTaken) && db.users == old(db.users)
    ensures (forall u :: u in old(db.users) ==> u.username != req.username) && !ValidRole(req.role) ==>
              r == Error(BadRequest, BadRole) && db.users == old(db.users)
    ensures (forall u :: u in old(db.users) ==> u.username != req.username) && ValidRole(req.role) ==>
              db.users == old(db.users) + [NewUser(req, hash, id, now)]
              && r == Ok(Response(NewUser(req, hash, id, now)))
    ensures UniqueKeys(old(db.users), Username) ==> UniqueKeys(db.users, Username)
  {
    var existing := First(db.users, KeyIs(Username, req.username));
    FirstSpec(db.users, KeyIs(Username, req.username));
    if existing.Some? {
      return Error(BadRequest, UsernameTaken);
    }
    if !ValidRole(req.role) {
      return Error(BadRequest, BadRole);
    }
    var user := NewUser(req, hash, id, now);
    if UniqueKeys(db.users, Username) {
      RegisterKeepsUsernamesUnique(db.users, user);
    }
    db.users := db.users + [user];
    r := Ok(Response(user));
  }

  /** `login`: an unknown name and a wrong password give the same 401; a
      success signs the claims of a stored user with that name whose hash
      matches, and with unique names it succeeds exactly when there is one. */
  method Login(db: Db, username: string, password: string, verify: (string, string) -> bool,
               sign: CurrentUser -> string)
    returns (r: Outcome<LoginResponse>)
    ensures r.Error? ==> r == Error(Unauthorized, BadCredentials)
    ensures r.Ok? ==> exists u :: (u in db.users && u.username == username
                                   && verify(password, u.passwordHash)
                                   && r.value == LoginResponse(sign(Claims(u)), "bearer", Response(u)))
    ensures UniqueKeys(db.users, Username) ==>
              (r.Ok? <==> exists u :: u in db.users && u.username == username && verify(password, u.passwordHash))
  {
    var found := First(db.users, KeyIs(Username, username));
    FirstSpec(db.users, KeyIs(Username, username));
    if found.None? {
      return Error(Unauthorized, BadCredentials);
    }
    var u := found.value;
    if !verify(password, u.passwordHash) {
      if UniqueKeys(db.users, Username) {
        forall x | x in db.users && x.username == username ensures x == u {
          var i :| 0 <= i < |db.users| && db.users[i] == x;
          var j :| 0 <= j < |db.users| && db.users[j] == u;
          assert i == j;
        }
      }
      return Error(Unauthorized, BadCredentials);
    }
    r := Ok(LoginResponse(sign(Claims(u)), "bearer", Response(u)));
  }

  /** A freshly registered user is the one `login` finds under that name. */
  lemma RegisteredUserIsFound(users: seq<User>, req: RegisterRequest, hash: string -> string, id: string, now: int)
    requires forall x :: x in users ==> x.username != req.username
    ensures First(users + [NewUser(req, hash, id, now)], KeyIs(Username, req.username))
            == Some(NewUser(req, hash, id, now))
  {
    var all := users + [NewUser(req, hash, id, now)];
    forall j | 0 <= j < |users| ensures !KeyIs(Username, req.username)(all[j]) {
      assert all[j] in users && Username(all[j]) != req.username;
    }
    FirstIsEarliest(all, KeyIs(Username, req.username), |users|);
  }

  /** `get_me`: the stored user with the token's id, or 404. */
  method GetMe(db: Db, current: CurrentUser) returns (r: Outcome<UserResponse>)
    ensures r.Error? <==> forall u :: u in db.users ==> u.id != current.id
    ensures r.Error? ==> r == Error(NotFound, UserMissing)
    ensures r.Ok? ==> exists u :: u in db.users && u.id == current.id && r.value == Response(u)
  {
    var found := First(db.users, KeyIs(UserId, current.id));
    FirstSpec(db.users, KeyIs(UserId, current.id));
    if found.None? {
      return Error(NotFound, UserMissing);
    }
    r := Ok(Response(found.value));
  }

  function WithPartner(partnerId: string): User -> User {
    (u: User) => u.(partnerId := Some(partnerId))
  }

  /** The two `update_one` calls of `link_partner`: the user's partner is set
      to the other one, then the other one's partner to the user. */
  function LinkBoth(users: seq<User>, userId: string, partnerId: string): seq<User> {
    var once := UpdateFirst(users, KeyIs(UserId, userId), WithPartner(partnerId));
    UpdateFirst(once, KeyIs(UserId, partnerId), WithPartner(userId))
  }

  /** With unique ids, linking two different users makes each the other's
      partner, changes nothing else about them, and leaves every other user
      as it was. */
  lemma LinkIsSymmetric(users: seq<User>, userId: string, partnerId: string)
    requires UniqueKeys(users, UserId) && userId != partnerId
    ensures |LinkBoth(users, userId, partnerId)| == |users|
    ensures forall i :: 0 <= i < |users| ==>
              LinkBoth(users, userId, partnerId)[i]
              == if users[i].id == userId then users[i].(partnerId := Some(partnerId))
                 else if users[i].id == partnerId then users[i].(partnerId := Some(userId))
                 else users[i]
  {
    var once := UpdateFirst(users, KeyIs(UserId, userId), WithPartner(partnerId));
    UpdateByUniqueKey(users, UserId, userId, WithPartner(partnerId));
    assert forall i :: 0 <= i < |once| ==> once[i].id == users[i].id;
    UpdateByUniqueKey(once, UserId, partnerId, WithPartner(userId));
  }

  /** `link_partner`: an unknown partner name gives 404 and a partner of the
      same role 400, both without change; otherwise both users are linked. */
  method LinkPartner(db: Db, partnerUsername: string, current: CurrentUser)
    returns (r: Outcome<LinkResponse>)
    modifies db`users
    ensures (forall u :: u in old(db.users) ==> u.username != partnerUsername) ==>
              r == Error(NotFound, PartnerMissing) && db.users == old(db.users)
    ensures var partner := First(old(db.users), KeyIs(Username, partnerUsername));
            partner.Some? && partner.value.role == current.role ==>
              r == Error(BadRequest, SameRole) && db.users == old(db.users)
    ensures var partner := First(old(db.users), KeyIs(Username, partnerUsername));
            partner.Some? && partner.value.role != current.role ==>
              partner.value in old(db.users) && partner.value.username == partnerUsername
              && r == Ok(LinkResponse(Linked, partner.value.displayName))
              && db.users == LinkBoth(old(db.users), current.id, partner.value.id)
  {
    var found := First(db.users, KeyIs(Username, partnerUsername));
    FirstSpec(db.users, KeyIs(Username, partnerUsername));
    if found.None? {
      return Error(NotFound, PartnerMissing);
    }
    var partner := found.value;
    if partner.role == current.role {
      return Error(BadRequest, SameRole);
    }
    db.users := UpdateFirst(db.users, KeyIs(UserId, current.id), WithPartner(partner.id));
    db.users := UpdateFirst(db.users, KeyIs(UserId, partner.id), WithPartner(current.id));
    r := Ok(LinkResponse(Linked, partner.displayName));
  }
}

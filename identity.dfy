/** The part of the ASP.NET Identity user store that the authentication
    controller talks to: look a user up by name, read its roles, and create a
    new user. Password hashing, password verification and the store's own
    validation rules are external and are passed in as functions. */
module Identity {

  datatype Option<T> = None | Some(value: T)

  /** One stored user (ApplicationUser, an IdentityUser). */
  datatype ApplicationUser = ApplicationUser(
    UserName: string,
    Email: string,
    SecurityStamp: string,
    PasswordHash: string,
    Roles: seq<string>)

  /** What the store answers to a creation request. */
  datatype IdentityResult = Succeeded | Failed(Errors: seq<string>)

  /** Checks a presented password against a stored hash. */
  type PasswordVerifier = (string, string) -> bool

  /** Turns a password into the hash the store keeps. */
  type PasswordHasher = string -> string

  /** The store's own rules for a new user and its password (password policy,
      allowed characters, ...): the list of violations, empty when none. */
  type UserValidator = (ApplicationUser, string) -> seq<string>

  /** The error the store reports when the user name is already taken. */
  const DuplicateUserName := "DuplicateUserName"

  /** Every user is filed under its own user name. */
  ghost predicate WellKeyed(users: map<string, ApplicationUser>)
  {
    forall n :: n in users ==> users[n].UserName == n
  }

  /** The store's answer to a creation request and the user table afterwards:
      a name already taken or a rule violation leaves the table as it was;
      otherwise the user is added, with the hash of its password. The name
      is checked first here; Identity checks the password rules first, so
      the two may report different errors for a request that breaks both,
      while the outcome and the table are the same. */
  function CreateResult(users: map<string, ApplicationUser>, user: ApplicationUser,
                        password: string, hasher: PasswordHasher, validate: UserValidator)
    : (r: (IdentityResult, map<string, ApplicationUser>))
    ensures r.0.Succeeded? <==> user.UserName !in users && validate(user, password) == []
    ensures r.0.Failed? ==> r.1 == users && r.0.Errors != []
    ensures r.0.Succeeded? ==>
              r.1.Keys == users.Keys + {user.UserName} &&
              r.1[user.UserName] == user.(PasswordHash := hasher(password)) &&
              forall n :: n in users ==> r.1[n] == users[n]
    ensures |r.1| == if r.0.Succeeded? then |users| + 1 else |users|
    ensures WellKeyed(users) ==> WellKeyed(r.1)
  {
    if user.UserName in users then
      (Failed([DuplicateUserName]), users)
    else
      var errors := validate(user, password);
      if errors != [] then
        (Failed(errors), users)
      else
        (Succeeded, users[user.UserName := user.(PasswordHash := hasher(password))])
  }

  /** The user table, which the controller shares with every request. */
  class UserStore {
    var users: map<string, ApplicationUser>

    ghost predicate Valid()
      reads this
    {
      WellKeyed(users)
    }

    constructor ()
      ensures Valid() && users == map[]
    {
      users := map[];
    }

    /** FindByNameAsync: the user filed under that name, if any. */
    function FindByName(userName: string): (r: Option<ApplicationUser>)
      reads this
      ensures r.Some? <==> userName in users
      ensures r.Some? ==> r.value == users[userName]
      ensures Valid() && r.Some? ==> r.value.UserName == userName
    {
      if userName in users then Some(users[userName]) else None
    }

    /** CreateAsync(user, password): hash the password and insert the user,
        unless the name is taken or the store's rules refuse it. */
    method Create(user: ApplicationUser, password: string,
                  hasher: PasswordHasher, validate: UserValidator)
      returns (result: IdentityResult)
      requires Valid()
      modifies this
      ensures Valid()
      ensures (result, users) == CreateResult(old(users), user, password, hasher, validate)
    {
      if user.UserName in users {
        return Failed([DuplicateUserName]);
      }
      var errors := validate(user, password);
      if errors != [] {
        return Failed(errors);
      }
      users := users[user.UserName := user.(PasswordHash := hasher(password))];
      result := Succeeded;
    }
  }
}

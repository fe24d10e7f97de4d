/** The mock authentication of the client (client/src/lib/auth.ts, class
    AuthService): the two built-in accounts, registration as a public user, the
    signed-in user kept in localStorage under one key, and the role table that
    decides permissions. */
module Auth {
  import opened JsBuiltins
  import opened Reviews

  const AdminEmail := "admin@mlpresearch.com"
  const ReviewerEmail := "reviewer@mlpresearch.com"
  const DemoPassword := "demo"

  /** A user record. The role is kept as the text stored with it: a record read back
      from storage can carry any role. */
  datatype User = User(id: string, username: string, email: string, role: string, createdAt: Instant)

  /** The value under the storage key: nothing (or the empty string), text that does
      not parse, or a stored user. */
  datatype StoredAuth = Absent | Corrupt | Saved(user: User)

  /** A settled login or registration promise: the user, or the rejection message. */
  datatype Outcome = Signed(user: User) | Rejected(message: string)

  /** The permissions of each role; a role outside the table has none. */
  function Permissions(role: string): seq<string> {
    if role == "admin" then ["read:all", "write:all", "delete:all", "manage:users"]
    else if role == "reviewer" then ["read:all", "write:reviews", "edit:own"]
    else if role == "public" then ["read:public", "comment:public"]
    else []
  }

  /** hasPermission: without a user only "read:public" is allowed; with one, exactly
      the permissions of its role. */
  function HasPermission(user: Option<User>, permission: string): (r: bool)
    ensures user.None? ==> (r <==> permission == "read:public")
    ensures user.Some? && user.value.role == "admin" ==>
              (r <==> permission in {"read:all", "write:all", "delete:all", "manage:users"})
    ensures user.Some? && user.value.role == "reviewer" ==>
              (r <==> permission in {"read:all", "write:reviews", "edit:own"})
    ensures user.Some? && user.value.role == "public" ==>
              (r <==> permission in {"read:public", "comment:public"})
    ensures user.Some? && user.value.role !in {"admin", "reviewer", "public"} ==> !r
  {
    if user.None? then permission == "read:public"
    else permission in Permissions(user.value.role)
  }

  /** The tables are not nested: an administrator or a reviewer may not do what a
      visitor or a public user may, and a reviewer is not an administrator. */
  lemma RolesAreNotNested(u: User)
    ensures u.role == "admin" ==> !HasPermission(Some(u), "read:public")
    ensures u.role == "reviewer" ==> !HasPermission(Some(u), "read:public")
    ensures u.role == "reviewer" ==> !HasPermission(Some(u), "write:all")
    ensures u.role == "public" ==> !HasPermission(Some(u), "read:all")
  {
  }

  /** The credential check of login: exactly the two built-in e-mail addresses with
      the password "demo" succeed, as the administrator (id "1") and the reviewer
      (id "2"); everything else is rejected with "Invalid credentials". */
  function Authenticate(email: string, password: string, now: Instant): (r: Outcome)
    ensures r.Signed? <==> password == DemoPassword && (email == AdminEmail || email == ReviewerEmail)
    ensures r.Rejected? ==> r.message == "Invalid credentials"
    ensures r.Signed? ==> r.user.email == email && r.user.createdAt == now
    ensures r.Signed? ==> (r.user.role == "admin" <==> email == AdminEmail)
    ensures r.Signed? ==> (r.user.id == "1" <==> r.user.role == "admin")
    ensures r.Signed? ==> r.user.role in {"admin", "reviewer"}
  {
    if email == AdminEmail && password == DemoPassword then
      Signed(User("1", "admin", email, "admin", now))
    else if email == ReviewerEmail && password == DemoPassword then
      Signed(User("2", "reviewer", email, "reviewer", now))
    else
      Rejected("Invalid credentials")
  }

  /** The user register creates: a public user whose id is the current time in
      milliseconds, printed in decimal. */
  function Registered(username: string, email: string, now: Instant): (u: User)
    ensures u.role == "public" && u.username == username && u.email == email
    ensures u.id == IntToString(now.millis) && u.createdAt == now
  {
    User(IntToString(now.millis), username, email, "public", now)
  }

  /** A registered user can do what a public user can and nothing else; in
      particular it is never an administrator or a reviewer. */
  lemma RegisteredIsPublic(username: string, email: string, now: Instant, permission: string)
    ensures HasPermission(Some(Registered(username, email, now)), permission)
            <==> permission == "read:public" || permission == "comment:public"
  {
  }

  /** Two registrations at different milliseconds get different ids. */
  lemma RegisteredIdsDiffer(a: Instant, b: Instant, username: string, email: string)
    requires a.millis != b.millis
    ensures Registered(username, email, a).id != Registered(username, email, b).id
  {
    if IntToString(a.millis) == IntToString(b.millis) {
      IntToStringInjective(a.millis, b.millis);
    }
  }

  class AuthService {
    /** localStorage["mlp_auth_state"] */
    var stored: StoredAuth

    constructor (initial: StoredAuth)
      ensures stored == initial
    {
      stored := initial;
    }

    /** getCurrentUser: the stored user, or null when the key is absent or its text
        does not parse. */
    function GetCurrentUser(): (r: Option<User>)
      reads this
      ensures r.None? <==> stored.Absent? || stored.Corrupt?
      ensures r.Some? ==> stored == Saved(r.value)
    {
      if stored.Saved? then Some(stored.user) else None
    }

    /** setStoredUser: a failing write is swallowed and leaves the old value. */
    method SetStoredUser(user: User, writeSucceeds: bool)
      modifies this
      ensures stored == if writeSucceeds then Saved(user) else old(stored)
    {
      if writeSucceeds {
        stored := Saved(user);
      }
    }

    /** login: on success the user is stored (when the write succeeds) and becomes
        the current user; a rejected login leaves storage as it was. */
    method Login(email: string, password: string, now: Instant, writeSucceeds: bool) returns (r: Outcome)
      modifies this
      ensures r == Authenticate(email, password, now)
      ensures r.Signed? && writeSucceeds ==> GetCurrentUser() == Some(r.user)
      ensures stored == if r.Signed? && writeSucceeds then Saved(r.user) else old(stored)
    {
      r := Authenticate(email, password, now);
      if r.Signed? {
        SetStoredUser(r.user, writeSucceeds);
      }
    }

    /** register: always succeeds, with a public user, who is stored. */
    method Register(username: string, email: string, now: Instant, writeSucceeds: bool) returns (user: User)
      modifies this
      ensures user == Registered(username, email, now)
      ensures stored == if writeSucceeds then Saved(user) else old(stored)
    {
      user := Registered(username, email, now);
      SetStoredUser(user, writeSucceeds);
    }

    /** logout: the key is removed, so nobody is signed in. */
    method Logout()
      modifies this
      ensures stored == Absent && GetCurrentUser() == None
    {
      stored := Absent;
    }
  }
}

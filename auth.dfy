/**
 * The session (src/hooks/useAuth.tsx): the `{user, isAuthenticated}` state,
 * the one storage slot `fitmanager_user`, and the restore, login and logout
 * transitions.
 */
module Auth {
  import opened Wrappers
  import opened Types

  datatype AuthState = AuthState(user: Option<User>, isAuthenticated: bool)

  /** The state before anything is restored. */
  const Initial: AuthState := AuthState(None, false)

  /** The intended invariant: authenticated exactly when there is a user. */
  predicate Consistent(s: AuthState)
  {
    s.isAuthenticated == s.user.Some?
  }

  /** The text in the storage slot, classified by what `JSON.parse` makes of it. */
  datatype Stored =
    | Missing             // no item: `getItem` returns null
    | EmptyText           // the empty string, which is falsy
    | UserJson(user: User) // the JSON text of a user record
    | NullJson            // the JSON text `null`
    | Malformed           // text on which `JSON.parse` throws

  const AdminUser: User := User("1", "admin", Admin, "مدير النظام")
  const EmployeeUser: User := User("2", "employee", Employee, "موظف الاستقبال")

  /** The fixed credential table of `login`. */
  function Credentials(username: string, password: string): (r: Option<User>)
    ensures r.Some? <==> (username == "admin" && password == "admin123") ||
                         (username == "employee" && password == "emp123")
    ensures r.Some? ==> r.value.username == username
    ensures r.Some? ==> (r.value.role == Admin <==> username == "admin")
  {
    if username == "admin" && password == "admin123" then Some(AdminUser)
    else if username == "employee" && password == "emp123" then Some(EmployeeUser)
    else None
  }

  /**
   * The restore effect as written: any stored text that `JSON.parse` accepts
   * becomes the user, and the state is marked authenticated; text it rejects
   * is removed.
   */
  function RestoreAsWritten(s: AuthState, slot: Stored): (r: (AuthState, Stored))
    ensures r.0.isAuthenticated <==> s.isAuthenticated || slot.UserJson? || slot.NullJson?
    ensures r.1 != slot <==> slot.Malformed?
  {
    match slot
    case Missing => (s, slot)
    case EmptyText => (s, slot)
    case UserJson(u) => (AuthState(Some(u), true), slot)
    case NullJson => (AuthState(None, true), slot)
    case Malformed => (s, Missing)
  }

  /** A stored `null` parses, so the restored state is authenticated without a user. */
  lemma RestoreAsWrittenBreaksConsistency()
    ensures Consistent(Initial)
    ensures var (s, slot) := RestoreAsWritten(Initial, NullJson);
            !Consistent(s) && s.isAuthenticated && s.user == None && slot == NullJson
  {
  }

  /** The restore effect with a stored `null` treated like any other text that is not a user: removed. */
  function Restore(s: AuthState, slot: Stored): (r: (AuthState, Stored))
    ensures slot.UserJson? ==> r == (AuthState(Some(slot.user), true), slot)
    ensures slot.Malformed? || slot.NullJson? ==> r == (s, Missing)
    ensures slot.Missing? || slot.EmptyText? ==> r == (s, slot)
  {
    match slot
    case UserJson(u) => (AuthState(Some(u), true), slot)
    case NullJson => (s, Missing)
    case Malformed => (s, Missing)
    case _ => (s, slot)
  }

  /** The corrected restore differs from the written one only on a stored `null`. */
  lemma RestoreAgreesOtherwise(s: AuthState, slot: Stored)
    ensures slot != NullJson ==> Restore(s, slot) == RestoreAsWritten(s, slot)
    ensures Consistent(s) ==> Consistent(Restore(s, slot).0)
  {
  }

  /** The session state and its storage slot. */
  class AuthProvider {
    var authState: AuthState
    var storage: Stored

    predicate Valid()
      reads this
    {
      Consistent(authState)
    }

    /** The provider as mounted, over whatever the slot already holds. */
    constructor (saved: Stored)
      ensures authState == Initial && storage == saved && Valid()
    {
      authState := Initial;
      storage := saved;
    }

    /** The mount effect: adopt a stored user, drop stored text that is not one. */
    method RestoreSession()
      requires Valid()
      modifies this
      ensures (authState, storage) == Restore(old(authState), old(storage))
      ensures Valid()
    {
      match storage
      case UserJson(u) =>
        authState := AuthState(Some(u), true);
      case NullJson =>
        storage := Missing;
      case Malformed =>
        storage := Missing;
      case _ =>
    }

    /**
     * `login`: on a match in the table, authenticate and store the user;
     * otherwise change nothing. `writeFails` says whether `localStorage.setItem`
     * throws (a full quota, say): the state update before it has already been
     * made, the `catch` returns false, and the slot keeps its old content.
     */
    method Login(username: string, password: string, writeFails: bool) returns (ok: bool)
      requires Valid()
      modifies this
      ensures ok <==> Credentials(username, password).Some? && !writeFails
      ensures Credentials(username, password).Some? ==> authState == AuthState(Credentials(username, password), true)
      ensures Credentials(username, password).Some? && !writeFails ==> storage == UserJson(Credentials(username, password).value)
      ensures Credentials(username, password).None? ==> authState == old(authState)
      ensures Credentials(username, password).None? || writeFails ==> storage == old(storage)
      ensures Valid()
    {
      var user := Credentials(username, password);
      if user.Some? {
        authState := AuthState(user, true);
        if writeFails {
          return false;
        }
        storage := UserJson(user.value);
        return true;
      }
      return false;
    }

    /** `logout`: forget the user and empty the slot, whatever the state was. */
    method Logout()
      modifies this
      ensures authState == Initial && storage == Missing
      ensures Valid()
    {
      authState := Initial;
      storage := Missing;
    }
  }

  /**
   * A login whose storage write throws reports failure, yet the session is
   * signed in, and the slot does not hold the user for the next mount.
   */
  method LoginFailedWriteSignsIn(p: AuthProvider)
    requires p.Valid() && p.storage == Missing
    modifies p
  {
    var ok := p.Login("admin", "admin123", true);
    assert !ok && p.authState.isAuthenticated && p.authState.user == Some(AdminUser);
    assert p.storage == Missing;
  }

  /** Logging out twice leaves the same state as logging out once. */
  method LogoutIdempotent(p: AuthProvider)
    modifies p
  {
    p.Logout();
    var once, slot := p.authState, p.storage;
    p.Logout();
    assert p.authState == once && p.storage == slot;
  }
}

/**
 * The browser-local account store: a list of `{email, password}` records
 * kept under one storage key, the signed-in email under another, and the
 * in-memory `user` and `loading` state of the provider.
 */
module AuthContext {
  import opened Common

  /** A stored account. The password is an optional field of the stored
      record: a record written without one reads back as `None`. */
  datatype LocalUser = LocalUser(email: string, password: Option<string>)

  /** The signed-in user as held in memory: the email and nothing else, so
      the active state never carries a password. */
  datatype ActiveUser = ActiveUser(email: string)

  /** What the users key holds: nothing, a list that parses, or text that
      does not parse as a list of users. */
  datatype UsersSlot = Missing | Stored(list: seq<LocalUser>) | Corrupt

  /** The list the operations read from the users key: an absent key reads
      as the empty list, unparsable contents make the operation throw. */
  function Parsed(slot: UsersSlot): (r: Option<seq<LocalUser>>)
    ensures r.None? <==> slot.Corrupt?
    ensures slot.Missing? ==> r == Some([])
    ensures slot.Stored? ==> r == Some(slot.list)
  {
    match slot
    case Missing => Some([])
    case Stored(list) => Some(list)
    case Corrupt => None
  }

  /** `users.some(u => u.email === email)`. */
  predicate HasEmail(users: seq<LocalUser>, email: string)
  {
    exists i :: 0 <= i < |users| && users[i].email == email
  }

  /** No two stored accounts share an email. */
  predicate DistinctEmails(users: seq<LocalUser>)
  {
    forall i, j :: 0 <= i < j < |users| ==> users[i].email != users[j].email
  }

  /** `users.find(u => u.email === email)`: the first account with that
      email, or nothing when there is none. */
  function FindUser(users: seq<LocalUser>, email: string): (r: Option<LocalUser>)
    ensures r.None? <==> !HasEmail(users, email)
    ensures r.Some? ==> exists k :: 0 <= k < |users| && users[k] == r.value && r.value.email == email
                                    && forall j :: 0 <= j < k ==> users[j].email != email
  {
    if |users| == 0 then None
    else if users[0].email == email then Some(users[0])
    else
      var r := FindUser(users[1..], email);
      FirstMatchInTail(users, email, r);
      r
  }

  /** The first match in `users` is the first match in its tail when the
      head has another email. */
  lemma FirstMatchInTail(users: seq<LocalUser>, email: string, r: Option<LocalUser>)
    requires |users| > 0 && users[0].email != email
    requires r.None? <==> !HasEmail(users[1..], email)
    requires r.Some? ==> exists k :: 0 <= k < |users[1..]| && users[1..][k] == r.value && r.value.email == email
                                     && forall j :: 0 <= j < k ==> users[1..][j].email != email
    ensures r.None? <==> !HasEmail(users, email)
    ensures r.Some? ==> exists k :: 0 <= k < |users| && users[k] == r.value && r.value.email == email
                                    && forall j :: 0 <= j < k ==> users[j].email != email
  {
    if HasEmail(users, email) {
      var i :| 0 <= i < |users| && users[i].email == email;
      assert users[1..][i - 1].email == email;
    }
    if r.Some? {
      var k :| 0 <= k < |users[1..]| && users[1..][k] == r.value && r.value.email == email
               && forall j :: 0 <= j < k ==> users[1..][j].email != email;
      assert users[k + 1] == r.value;
      assert forall j :: 1 <= j < k + 1 ==> users[j].email == users[1..][j - 1].email;
    }
  }

  /** Appending an account whose email is not yet stored keeps the emails
      pairwise distinct. */
  lemma SignUpKeepsDistinct(users: seq<LocalUser>, u: LocalUser)
    requires DistinctEmails(users) && !HasEmail(users, u.email)
    ensures DistinctEmails(users + [u])
  {
    var s := users + [u];
    forall i, j | 0 <= i < j < |s| ensures s[i].email != s[j].email {
      if j == |users| {
        assert s[i] == users[i];
      } else {
        assert s[i] == users[i] && s[j] == users[j];
      }
    }
  }

  /** With distinct emails, the sign-in check accepts exactly the stored
      email and password pairs; a record stored without a password never
      passes it, since the entered password is always a string. */
  lemma SignInMatchesStoredPair(users: seq<LocalUser>, email: string, password: string)
    requires DistinctEmails(users)
    ensures (FindUser(users, email).Some? && FindUser(users, email).value.password == Some(password))
            <==> LocalUser(email, Some(password)) in users
  {
    var r := FindUser(users, email);
    if LocalUser(email, Some(password)) in users {
      var i :| 0 <= i < |users| && users[i] == LocalUser(email, Some(password));
      assert users[i].email == email;
      var k :| 0 <= k < |users| && users[k] == r.value && r.value.email == email
               && forall j :: 0 <= j < k ==> users[j].email != email;
      assert k == i;
    }
  }

  /** The provider's state: the two storage keys and the in-memory fields. */
  class AuthStore {
    var users: UsersSlot
    var session: Option<string>
    var user: Option<ActiveUser>
    var loading: bool

    /** A signed-in user is the one the session key names, and is stored. */
    ghost predicate Valid()
      reads this
    {
      user.Some? ==> session == Some(user.value.email) && users.Stored? && HasEmail(users.list, user.value.email)
    }

    /** The provider as first rendered: nobody signed in, still loading. */
    constructor (users: UsersSlot, session: Option<string>)
      ensures Valid()
      ensures this.users == users && this.session == session
      ensures user == None && loading
    {
      this.users := users;
      this.session := session;
      user := None;
      loading := true;
    }

    /** The mount-time effect: signs in the user the session key names when
        that user is stored, and drops a session that names nobody. An empty
        session email counts as no session. */
    method Restore()
      requires Valid()
      modifies this
      ensures Valid() && !loading && users == old(users)
      ensures var found := Truthy(old(session)) && Parsed(users).Some?
                           && FindUser(Parsed(users).value, old(session).value).Some?;
              && (found ==> user == Some(ActiveUser(old(session).value)) && session == old(session))
              && (!found ==> user == old(user))
              && (Truthy(old(session)) && !found ==> session == None)
              && (!Truthy(old(session)) ==> session == old(session))
              && (old(user).None? ==> (user.Some? <==> found))
    {
      loading := true;
      if Truthy(session) {
        match Parsed(users) {
          case None =>
            session := None;
          case Some(list) =>
            var found := FindUser(list, session.value);
            if found.Some? {
              user := Some(ActiveUser(found.value.email));
            } else {
              session := None;
            }
        }
      }
      loading := false;
    }

    /** `signIn`: succeeds exactly when the first stored account with the
        email has the given password; only then do the user and the session
        change. */
    method SignIn(email: string, password: string) returns (ok: bool)
      requires Valid()
      modifies this
      ensures Valid() && !loading && users == old(users)
      ensures ok <==> Parsed(users).Some? && FindUser(Parsed(users).value, email).Some?
                      && FindUser(Parsed(users).value, email).value.password == Some(password)
      ensures (Parsed(users).Some? && FindUser(Parsed(users).value, email).Some?
               && FindUser(Parsed(users).value, email).value.password.None?) ==> !ok
      ensures ok ==> user == Some(ActiveUser(email)) && session == Some(email)
      ensures !ok ==> user == old(user) && session == old(session)
    {
      loading := true;
      match Parsed(users) {
        case None =>
          ok := false;
        case Some(list) =>
          var found := FindUser(list, email);
          if found.Some? && found.value.password == Some(password) {
            user := Some(ActiveUser(found.value.email));
            session := Some(found.value.email);
            ok := true;
          } else {
            ok := false;
          }
      }
      loading := false;
    }

    /** `signUp`: refuses an email that is already stored; otherwise appends
        one account at the end and writes the list back. Nobody is signed in
        or out. */
    method SignUp(email: string, password: string) returns (ok: bool)
      requires Valid()
      modifies this
      ensures Valid() && !loading
      ensures user == old(user) && session == old(session)
      ensures ok <==> Parsed(old(users)).Some? && !HasEmail(Parsed(old(users)).value, email)
      ensures ok ==> users == Stored(Parsed(old(users)).value + [LocalUser(email, Some(password))])
      ensures !ok ==> users == old(users)
      ensures Parsed(old(users)).Some? && DistinctEmails(Parsed(old(users)).value) ==>
                Parsed(users).Some? && DistinctEmails(Parsed(users).value)
    {
      loading := true;
      match Parsed(users) {
        case None =>
          ok := false;
        case Some(list) =>
          if FindUser(list, email).Some? {
            ok := false;
          } else {
            if DistinctEmails(list) {
              SignUpKeepsDistinct(list, LocalUser(email, Some(password)));
            }
            if user.Some? {
              var i :| 0 <= i < |list| && list[i].email == user.value.email;
              assert (list + [LocalUser(email, Some(password))])[i] == list[i];
            }
            users := Stored(list + [LocalUser(email, Some(password))]);
            ok := true;
          }
      }
      loading := false;
    }

    /** `signOut`: nobody is signed in and the session key is gone; the
        accounts stay. */
    method SignOut()
      modifies this
      ensures Valid() && !loading
      ensures user == None && session == None && users == old(users)
    {
      loading := true;
      user := None;
      session := None;
      loading := false;
    }
  }
}

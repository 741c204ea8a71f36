/**
 * The credential store: the bootstrap administrator (app.py:337-342), the
 * login query (app.py:353-378) and the checks user creation relies on.
 */
module Credentials {
  import opened Wrappers
  import opened Schema

  /** `hash_pass` (app.py:175-176): the digest determines the password it was made from. */
  function HashPass(p: string): (d: Digest)
    ensures d.password == p
  {
    Sha256(p)
  }

  /** The account inserted when the user table is empty. */
  const DefaultAdmin: User := User("admin", HashPass("admin123"), Admin)

  /** What a successful login stores in the session (app.py:370-374). */
  datatype Session = Session(id: nat, username: string, role: Role)

  /** Position of the first user with this username and this stored digest. */
  function FindLogin(users: seq<User>, username: string, digest: Digest): (r: Option<nat>)
    ensures r.Some? ==> r.value < |users| && users[r.value].username == username && users[r.value].password == digest
    ensures r.None? <==> forall j :: 0 <= j < |users| ==> !(users[j].username == username && users[j].password == digest)
  {
    if |users| == 0 then None
    else if users[0].username == username && users[0].password == digest then Some(0)
    else match FindLogin(users[1..], username, digest)
      case None => None
      case Some(k) => Some(k + 1)
  }

  /**
   * `SELECT id,role FROM users WHERE username=%s AND password=%s`: a session
   * for the matching user, or nothing. An unknown username and a wrong
   * password give the same answer.
   */
  function Authenticate(users: seq<User>, username: string, password: string): (r: Option<Session>)
    ensures r.Some? <==> exists i :: 0 <= i < |users| && users[i].username == username && users[i].password == HashPass(password)
    ensures r.Some? ==>
      && r.value.id < |users| && r.value.username == username
      && users[r.value.id].username == username && users[r.value.id].password == HashPass(password)
      && r.value.role == users[r.value.id].role
  {
    match FindLogin(users, username, HashPass(password))
    case None => None
    case Some(i) => Some(Session(i, username, users[i].role))
  }

  /**
   * A user appended under a fresh username logs in with exactly the password
   * it was created with, and gets the role it was created with.
   */
  lemma {:induction false} LoginAfterCreate(users: seq<User>, username: string, password: string, role: Role, attempt: string)
    requires FindUser(users, username).None?
    ensures var r := Authenticate(users + [User(username, HashPass(password), role)], username, attempt);
      (r.Some? <==> attempt == password) && (r.Some? ==> r.value == Session(|users|, username, role))
  {
    var all := users + [User(username, HashPass(password), role)];
    var r := Authenticate(all, username, attempt);
    if r.Some? {
      assert all[r.value.id].password == Sha256(attempt);
      assert forall j :: 0 <= j < |users| ==> all[j].username != username;
    } else {
      assert !(all[|users|].username == username && all[|users|].password == HashPass(attempt));
    }
  }

  /**
   * On a freshly bootstrapped user table, `admin` logs in exactly with the
   * default password, as the administrator.
   */
  lemma DefaultAdminLogin(attempt: string)
    ensures Authenticate([DefaultAdmin], "admin", attempt)
      == if attempt == "admin123" then Some(Session(0, "admin", Admin)) else None
  {
    if attempt != "admin123" {
      assert HashPass(attempt) != HashPass("admin123");
    }
  }
}

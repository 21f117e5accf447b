/** The user routes: list the active users by name, add one, patch the
    name or avatar, and remove one (a soft delete). */
module Users {
  import opened Base
  import opened Seqs
  import opened Database

  /** A field of a PATCH body: not supplied, an explicit null, or a value. */
  datatype Field<T> = Absent | Null | Given(value: T)

  /** What PATCH answers: the id with the name and avatar now stored. */
  datatype Profile = Profile(id: Id, name: string, avatar: Option<string>)

  /** `ORDER BY name`, comparing (id, user) pairs by the user's name. */
  function ByName(): ((Id, User), (Id, User)) -> bool {
    (a: (Id, User), b: (Id, User)) => LexLe(a.1.name, b.1.name)
  }

  lemma ByNameIsPreorder()
    ensures TotalPreorder(ByName())
  {
    forall a: (Id, User), b: (Id, User) ensures ByName()(a, b) || ByName()(b, a) {
      LexLeTotal(a.1.name, b.1.name);
    }
    forall a: (Id, User), b: (Id, User), c: (Id, User) | ByName()(a, b) && ByName()(b, c)
      ensures ByName()(a, c)
    {
      LexLeTransitive(a.1.name, b.1.name, c.1.name);
    }
  }

  /** The active users below `n` in id order, with their ids. */
  function ActiveInIdOrder(users: map<Id, User>, n: nat): (l: seq<(Id, User)>)
    ensures forall i :: 0 <= i < |l| ==> l[i].0 in users && users[l[i].0] == l[i].1
  {
    var ks := Keys(users, IsActiveUser(), n);
    KeysSpec(users, IsActiveUser(), n);
    seq(|ks|, i requires 0 <= i < |ks| => (ks[i], users[ks[i]]))
  }

  /** `GET /users`: `SELECT * FROM users WHERE is_active = 1 ORDER BY name`,
      ties in id order. */
  function ListActive(users: map<Id, User>, n: nat): seq<(Id, User)> {
    SortBy(ActiveInIdOrder(users, n), ByName())
  }

  function List(db: Db): seq<(Id, User)>
    reads db
  {
    ListActive(db.users, db.nextUser)
  }

  /** The list holds exactly the active users, each once, sorted by name. */
  lemma ListActiveSpec(users: map<Id, User>, n: nat)
    requires forall k :: k in users ==> k < n
    ensures forall id, u :: (id, u) in ListActive(users, n) <==> id in users && users[id] == u && u.isActive
    ensures multiset(ListActive(users, n)) == multiset(ActiveInIdOrder(users, n))
    ensures forall i, j :: 0 <= i < j < |ActiveInIdOrder(users, n)| ==> ActiveInIdOrder(users, n)[i].0 < ActiveInIdOrder(users, n)[j].0
    ensures SortedBy(ListActive(users, n), ByName())
  {
    var l := ActiveInIdOrder(users, n);
    var ks := Keys(users, IsActiveUser(), n);
    KeysSpec(users, IsActiveUser(), n);
    SortByPermutes(l, ByName());
    ByNameIsPreorder();
    SortBySorted(l, ByName());
    forall id, u ensures (id, u) in ListActive(users, n) <==> id in users && users[id] == u && u.isActive {
      SortByMembers(l, ByName(), (id, u));
      if id in users && users[id] == u && u.isActive {
        assert id in ks;
        var i :| 0 <= i < |ks| && ks[i] == id;
        assert l[i] == (id, u);
      }
    }
  }

  /** `POST /users`. */
  method Add(db: Db, name: Option<string>, avatar: Option<string>) returns (r: Reply<Id>)
    requires db.Valid()
    modifies db
    ensures db.Valid()
    ensures Falsy(name) ==> r == Failed(400, "Name is required") && unchanged(db)
    ensures !Falsy(name) ==>
      && r == Ok(old(db.nextUser))
      && db.users == old(db.users)[old(db.nextUser) := User(name.value, if Falsy(avatar) then None else avatar, true)]
      && db.nextUser == old(db.nextUser) + 1
      && db.events == old(db.events) && db.expenses == old(db.expenses)
      && db.nextEvent == old(db.nextEvent) && db.nextExpense == old(db.nextExpense)
  {
    if Falsy(name) {
      return Failed(400, "Name is required");
    }
    var id := db.nextUser;
    db.users := db.users[id := User(name.value, if Falsy(avatar) then None else avatar, true)];
    db.nextUser := id + 1;
    r := Ok(id);
  }

  /** A newly added user is listed, under the given name. */
  lemma AddedUserIsListed(users: map<Id, User>, n: nat, name: string, avatar: Option<string>)
    requires forall k :: k in users ==> k < n
    ensures (n, User(name, avatar, true)) in ListActive(users[n := User(name, avatar, true)], n + 1)
  {
    ListActiveSpec(users[n := User(name, avatar, true)], n + 1);
  }

  /** The stored user after a PATCH with a non-null name: a supplied field
      replaces the stored one (a null avatar clears it), an absent one is
      kept; the active flag never changes. */
  function Patched(u: User, name: Field<string>, avatar: Field<string>): (p: User)
    requires !name.Null?
  {
    User(if name.Given? then name.value else u.name,
         match avatar case Absent => u.avatar case Null => None case Given(a) => Some(a),
         u.isActive)
  }

  /** Patching again with the same body changes nothing more. */
  lemma PatchIdempotent(u: User, name: Field<string>, avatar: Field<string>)
    requires !name.Null?
    ensures Patched(Patched(u, name, avatar), name, avatar) == Patched(u, name, avatar)
    ensures Patched(u, Absent, Absent) == u
  {
  }

  /** `PATCH /users/:id`. A null name reaches the NOT NULL column and the
      UPDATE fails. */
  method Patch(db: Db, id: Id, name: Field<string>, avatar: Field<string>) returns (r: Reply<Profile>)
    requires db.Valid()
    modifies db
    ensures db.Valid()
    ensures id !in old(db.users) ==> r == Failed(404, "User not found") && unchanged(db)
    ensures id in old(db.users) && name.Null? ==>
      r.Failed? && r.status == 500 && unchanged(db)
    ensures id in old(db.users) && !name.Null? ==>
      var u := Patched(old(db.users)[id], name, avatar);
      && r == Ok(Profile(id, u.name, u.avatar))
      && db.users == old(db.users)[id := u]
      && db.events == old(db.events) && db.expenses == old(db.expenses)
      && db.nextUser == old(db.nextUser) && db.nextEvent == old(db.nextEvent) && db.nextExpense == old(db.nextExpense)
  {
    if id !in db.users {
      return Failed(404, "User not found");
    }
    if name.Null? {
      return Failed(500, "NOT NULL constraint failed: users.name");
    }
    var u := Patched(db.users[id], name, avatar);
    db.users := db.users[id := u];
    r := Ok(Profile(id, u.name, u.avatar));
  }

  /** `DELETE /users/:id`: `UPDATE users SET is_active = 0`; always a success. */
  method Remove(db: Db, id: Id) returns (r: Reply<()>)
    requires db.Valid()
    modifies db
    ensures db.Valid()
    ensures r == Ok(())
    ensures id in old(db.users) ==> db.users == old(db.users)[id := old(db.users)[id].(isActive := false)]
    ensures id !in old(db.users) ==> db.users == old(db.users)
    ensures db.events == old(db.events) && db.expenses == old(db.expenses)
    ensures db.nextUser == old(db.nextUser) && db.nextEvent == old(db.nextEvent) && db.nextExpense == old(db.nextExpense)
  {
    if id in db.users {
      db.users := db.users[id := db.users[id].(isActive := false)];
    }
    r := Ok(());
  }

  /** A removed user drops out of the list but keeps its row, so its
      expense rows still join. */
  lemma RemovedUserUnlisted(users: map<Id, User>, n: nat, id: Id, rows: seq<Expense>)
    requires forall k :: k in users ==> k < n
    requires id in users
    ensures var after := users[id := users[id].(isActive := false)];
      && (forall u :: (id, u) !in ListActive(after, n))
      && Joined(rows, after) == Joined(rows, users)
  {
    var after := users[id := users[id].(isActive := false)];
    ListActiveSpec(after, n);
    FilterSame(rows, HasUser(after), HasUser(users));
  }
}

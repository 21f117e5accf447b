/** The browser's in-memory profile store: profiles keyed by the decimal
    spelling of the user id, looked up synchronously, and merged from the
    user objects carried by API responses. Loading from IndexedDB and the
    network, and the change notification itself, are outside the model;
    `PopulateFromExpenses` reports whether it would notify. */
module UserStore {
  import opened Base

  /** A stored profile; `id` is None where `parseInt` gives NaN. */
  datatype Profile = Profile(id: Option<nat>, name: Option<string>, avatar: Option<string>)

  /** A user object from an API response: expense rows carry `user_id`,
      `user_name`, `user_avatar`; user rows carry `id`, `name`, `avatar`. */
  datatype Incoming = Incoming(
    userId: Option<nat>, id: Option<nat>,
    userName: Option<string>, name: Option<string>,
    userAvatar: Option<string>, avatar: Option<string>)

  /** `String(x)` of an optional id; an absent one is spelled "undefined". */
  function KeyOf(id: Option<nat>): string {
    if id.Some? then NatToString(id.value) else "undefined"
  }

  /** The value of a run of digits. */
  function DigitsValue(s: string): nat
    requires forall i :: 0 <= i < |s| ==> IsDigit(s[i])
  {
    if s == [] then 0 else DigitsValue(s[..|s| - 1]) * 10 + DigitValue(s[|s| - 1])
  }

  /** The leading digits of a string. */
  function LeadingDigits(s: string): (d: string)
    ensures |d| <= |s| && d == s[..|d|]
    ensures forall i :: 0 <= i < |d| ==> IsDigit(d[i])
    ensures |d| < |s| ==> !IsDigit(s[|d|])
  {
    if s == [] || !IsDigit(s[0]) then [] else [s[0]] + LeadingDigits(s[1..])
  }

  /** `parseInt(s)` on non-negative decimal input: the value of the leading
      digits, or None (NaN) when there are none. */
  function ParseInt(s: string): Option<nat> {
    var d := LeadingDigits(s);
    if d == [] then None else Some(DigitsValue(d))
  }

  lemma {:induction false} DigitsValueOfNat(n: nat)
    ensures DigitsValue(NatToString(n)) == n
  {
    var s := NatToString(n);
    if n >= 10 {
      DigitsValueOfNat(n / 10);
      assert s[..|s| - 1] == NatToString(n / 10);
    }
  }

  lemma {:induction false} AllDigitsLead(s: string)
    requires forall i :: 0 <= i < |s| ==> IsDigit(s[i])
    ensures LeadingDigits(s) == s
  {
    if s != [] {
      AllDigitsLead(s[1..]);
    }
  }

  /** `parseInt(String(id))` gives the id back, and NaN for "undefined". */
  lemma ParseKey(id: Option<nat>)
    ensures ParseInt(KeyOf(id)) == id
  {
    if id.Some? {
      AllDigitsLead(NatToString(id.value));
      DigitsValueOfNat(id.value);
    } else {
      assert !IsDigit(KeyOf(id)[0]);
    }
  }

  /** `u.user_id || u.id`. */
  function IdOf(u: Incoming): Option<nat> {
    if u.userId.Some? && u.userId.value != 0 then u.userId else u.id
  }

  /** `u.user_name || u.name`. */
  function NameOf(u: Incoming): Option<string> {
    if !Falsy(u.userName) then u.userName else u.name
  }

  /** `u.user_avatar || u.avatar`. */
  function AvatarOf(u: Incoming): Option<string> {
    if !Falsy(u.userAvatar) then u.userAvatar else u.avatar
  }

  function Key(u: Incoming): string {
    KeyOf(IdOf(u))
  }

  /** The entry written for `u`: `{id: parseInt(id), name, avatar}`. */
  function EntryOf(u: Incoming): Profile {
    Profile(ParseInt(Key(u)), NameOf(u), AvatarOf(u))
  }

  /** The written entry carries the incoming id (the row's `user_id` when
      set, its `id` otherwise), name and avatar. */
  lemma EntryCarriesIncoming(u: Incoming)
    ensures EntryOf(u) == Profile(IdOf(u), NameOf(u), AvatarOf(u))
    ensures u.userId.Some? && u.userId.value != 0 ==> EntryOf(u).id == u.userId
  {
    ParseKey(IdOf(u));
  }

  /** An entry is written only for a truthy avatar that is new or differs
      from the stored one. */
  predicate WouldWrite(m: map<string, Profile>, u: Incoming) {
    !Falsy(AvatarOf(u)) && (Key(u) !in m || m[Key(u)].avatar != AvatarOf(u))
  }

  /** One iteration of the merge loop. */
  function Step(m: map<string, Profile>, u: Incoming): (m': map<string, Profile>)
    ensures WouldWrite(m, u) ==> m' != m
    ensures !WouldWrite(m, u) ==> m' == m
  {
    if WouldWrite(m, u) then
      assert m[Key(u) := EntryOf(u)][Key(u)].avatar == AvatarOf(u);
      m[Key(u) := EntryOf(u)]
    else m
  }

  /** The map after merging `items` in order. */
  function Merge(m: map<string, Profile>, items: seq<Incoming>): map<string, Profile> {
    if items == [] then m else Step(Merge(m, items[..|items| - 1]), items[|items| - 1])
  }

  /** Whether any iteration wrote, i.e. whether the store notifies and
      persists. */
  function Writes(m: map<string, Profile>, items: seq<Incoming>): bool {
    items != [] && (Writes(m, items[..|items| - 1]) || WouldWrite(Merge(m, items[..|items| - 1]), items[|items| - 1]))
  }

  predicate Mentioned(items: seq<Incoming>, k: string) {
    exists i :: 0 <= i < |items| && Key(items[i]) == k
  }

  /** Keys no item maps to keep their entries (or their absence). */
  lemma {:induction false} UntouchedKeys(m: map<string, Profile>, items: seq<Incoming>, k: string)
    requires !Mentioned(items, k)
    ensures k in Merge(m, items) <==> k in m
    ensures k in m ==> Merge(m, items)[k] == m[k]
  {
    if items != [] {
      var init := items[..|items| - 1];
      assert forall i :: 0 <= i < |init| ==> init[i] == items[i];
      UntouchedKeys(m, init, k);
    }
  }

  /** Without a single write the store is unchanged: in particular when no
      item has a truthy avatar. */
  lemma {:induction false} NoWritesNoChange(m: map<string, Profile>, items: seq<Incoming>)
    ensures !Writes(m, items) ==> Merge(m, items) == m
    ensures (forall i :: 0 <= i < |items| ==> Falsy(AvatarOf(items[i]))) ==> !Writes(m, items)
  {
    if items != [] {
      var init := items[..|items| - 1];
      assert forall i :: 0 <= i < |init| ==> init[i] == items[i];
      NoWritesNoChange(m, init);
    }
  }

  /** Every item with a truthy avatar finds that avatar stored under its key. */
  predicate Holds(m: map<string, Profile>, items: seq<Incoming>) {
    forall i :: 0 <= i < |items| && !Falsy(AvatarOf(items[i])) ==>
      Key(items[i]) in m && m[Key(items[i])].avatar == AvatarOf(items[i])
  }

  predicate DistinctKeys(items: seq<Incoming>) {
    forall i, j :: 0 <= i < j < |items| ==> Key(items[i]) != Key(items[j])
  }

  lemma {:induction false} MergeHolds(m: map<string, Profile>, items: seq<Incoming>)
    requires DistinctKeys(items)
    ensures Holds(Merge(m, items), items)
  {
    if items != [] {
      var init := items[..|items| - 1];
      var last := items[|items| - 1];
      assert forall i :: 0 <= i < |init| ==> init[i] == items[i];
      MergeHolds(m, init);
      var before := Merge(m, init);
      forall i | 0 <= i < |items| && !Falsy(AvatarOf(items[i]))
        ensures Key(items[i]) in Merge(m, items) && Merge(m, items)[Key(items[i])].avatar == AvatarOf(items[i])
      {
        if i < |items| - 1 {
          assert Key(items[i]) != Key(last);
        }
      }
    }
  }

  lemma {:induction false} HeldMergeIsIdle(m: map<string, Profile>, items: seq<Incoming>)
    requires Holds(m, items)
    ensures Merge(m, items) == m && !Writes(m, items)
  {
    if items != [] {
      var init := items[..|items| - 1];
      assert forall i :: 0 <= i < |init| ==> init[i] == items[i];
      HeldMergeIsIdle(m, init);
      assert !WouldWrite(m, items[|items| - 1]);
    }
  }

  /** A second merge of the same items, each id occurring once, changes
      nothing and does not notify. */
  lemma PopulateTwice(m: map<string, Profile>, items: seq<Incoming>)
    requires DistinctKeys(items)
    ensures Merge(Merge(m, items), items) == Merge(m, items)
    ensures !Writes(Merge(m, items), items)
  {
    MergeHolds(m, items);
    HeldMergeIsIdle(Merge(m, items), items);
  }

  /** The avatar lookup: `_users.get(String(id))?.avatar || null`. */
  function AvatarFor(m: map<string, Profile>, id: nat): (r: Option<string>)
    ensures r.Some? <==> NatToString(id) in m && !Falsy(m[NatToString(id)].avatar)
    ensures r.Some? ==> r == m[NatToString(id)].avatar
  {
    var k := NatToString(id);
    if k in m && !Falsy(m[k].avatar) then m[k].avatar else None
  }

  /** The name lookup: `_users.get(String(id))?.name || null`. */
  function NameFor(m: map<string, Profile>, id: nat): (r: Option<string>)
    ensures r.Some? <==> NatToString(id) in m && !Falsy(m[NatToString(id)].name)
    ensures r.Some? ==> r == m[NatToString(id)].name
  {
    var k := NatToString(id);
    if k in m && !Falsy(m[k].name) then m[k].name else None
  }

  /** After a merge in which a user's id occurs once, with a truthy
      avatar, the avatar lookup finds that avatar. */
  lemma AvatarAfterMerge(m: map<string, Profile>, items: seq<Incoming>, i: nat)
    requires DistinctKeys(items) && i < |items|
    requires IdOf(items[i]).Some? && !Falsy(AvatarOf(items[i]))
    ensures AvatarFor(Merge(m, items), IdOf(items[i]).value) == AvatarOf(items[i])
  {
    MergeHolds(m, items);
  }

  /** An id occurring twice is written twice, so merging the same items
      again writes again even though the store already ends as it was. */
  lemma RepeatedIdWritesAgain()
    ensures var a := Incoming(Some(1), None, Some("A"), None, Some("x"), None);
      var b := Incoming(Some(1), None, Some("A"), None, Some("y"), None);
      var m := map["1" := Profile(Some(1), Some("A"), Some("y"))];
      Merge(m, [a, b]) == m && Writes(m, [a, b])
  {
    var a := Incoming(Some(1), None, Some("A"), None, Some("x"), None);
    var b := Incoming(Some(1), None, Some("A"), None, Some("y"), None);
    var m := map["1" := Profile(Some(1), Some("A"), Some("y"))];
    assert NatToString(1) == "1";
    ParseKey(Some(1));
    assert [a, b][..1] == [a];
    assert [a][..0] == [];
    assert Merge(m, [a]) == m["1" := Profile(Some(1), Some("A"), Some("x"))];
    assert Merge(m, [a, b]) == m["1" := Profile(Some(1), Some("A"), Some("x"))]["1" := Profile(Some(1), Some("A"), Some("y"))];
  }

  class Store {
    var users: map<string, Profile>

    constructor ()
      ensures users == map[]
    {
      users := map[];
    }

    function GetAvatar(userId: nat): Option<string>
      reads this
    {
      AvatarFor(users, userId)
    }

    function GetName(userId: nat): Option<string>
      reads this
    {
      NameFor(users, userId)
    }

    /** `_users.get(String(id)) || null`. */
    function GetUser(userId: nat): (r: Option<Profile>)
      reads this
      ensures r.Some? <==> NatToString(userId) in users
      ensures r.Some? ==> r.value == users[NatToString(userId)]
    {
      var k := NatToString(userId);
      if k in users then Some(users[k]) else None
    }

    /** `populateFromExpenses(items)`: the loop over the items; the answer
        says whether the store notifies its subscribers and persists. */
    method PopulateFromExpenses(items: seq<Incoming>) returns (notified: bool)
      modifies this
      ensures users == Merge(old(users), items)
      ensures notified == Writes(old(users), items)
    {
      var changed := false;
      for i := 0 to |items|
        invariant users == Merge(old(users), items[..i])
        invariant changed == Writes(old(users), items[..i])
      {
        assert items[..i + 1][..i] == items[..i];
        var u := items[i];
        var id := KeyOf(IdOf(u));
        var name := NameOf(u);
        var avatar := AvatarOf(u);
        if !Falsy(avatar) && (id !in users || users[id].avatar != avatar) {
          users := users[id := Profile(ParseInt(id), name, avatar)];
          changed := true;
        }
      }
      assert items[..|items|] == items;
      notified := changed;
    }
  }
}

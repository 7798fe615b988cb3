/**
 * The browser-side credential store of lib/auth.ts. Local storage is a map from keys to
 * strings: `user_<name>` holds a password and `user_meta_<name>` an account's metadata. The
 * signed-in user, which the source keeps as JSON under `auth_user`, is kept here as a record
 * beside the map.
 */
module Auth {
  import opened Options
  import opened Strings
  import opened Seqs

  /** The signed-in user. */
  datatype User = User(username: string, loggedIn: bool, isAdmin: bool)

  datatype Store = Store(items: map<string, string>, authUser: Option<User>)

  /** The built-in administrator account. */
  const AdminName := "Cacto"
  const AdminPassword := "Almafa123%"

  const UserPrefix := "user_"
  const MetaPrefix := "user_meta_"

  /** The metadata string `makeAdmin` writes: `{ isAdmin: true }` serialised. */
  const AdminMeta := "{\"isAdmin\":true}"

  function PasswordKey(name: string): string { UserPrefix + name }
  function MetaKey(name: string): string { MetaPrefix + name }

  /** `localStorage.getItem(key)` used as a condition: a missing key and an empty value are
      both false. */
  predicate Present(s: Store, key: string)
  {
    key in s.items && s.items[key] != ""
  }

  /** `login`: the built-in administrator always gets in, whatever is stored. Anyone else
      gets in when a non-empty password is stored for the name and equals the one given.
      Success signs the user in; failure changes nothing. */
  function Login(s: Store, name: string, password: string): (r: (Store, bool))
    ensures name == AdminName && password == AdminPassword ==>
              r == (s.(authUser := Some(User(name, true, true))), true)
    ensures !(name == AdminName && password == AdminPassword) ==>
              (r.1 <==> Present(s, PasswordKey(name)) && s.items[PasswordKey(name)] == password)
    ensures !(name == AdminName && password == AdminPassword) ==>
              r.0 == if r.1 then s.(authUser := Some(User(name, true, false))) else s
    ensures r.0.items == s.items
  {
    if name == AdminName && password == AdminPassword then
      (s.(authUser := Some(User(name, true, true))), true)
    else
      var key := PasswordKey(name);
      if key in s.items && s.items[key] != "" && s.items[key] == password then
        (s.(authUser := Some(User(name, true, false))), true)
      else (s, false)
  }

  /** Why a sign-up was refused, in the order the source checks. */
  datatype SignupOutcome = Created | PasswordMismatch | TooShort | NameTaken

  /** `signup`: the confirmation must match, the name must have at least 3 characters and
      the password at least 6, counted as `length` counts them (UTF-16 code units), and the
      name must not be taken. Success stores the password and signs the new user in. */
  function Signup(s: Store, name: string, password: string, confirm: string): (r: (Store, SignupOutcome))
    ensures r.1 != Created ==> r.0 == s
    ensures r.1 == PasswordMismatch <==> password != confirm
    ensures r.1 == TooShort <==> password == confirm && (Utf16Length(name) < 3 || Utf16Length(password) < 6)
    ensures r.1 == NameTaken <==>
              && password == confirm && Utf16Length(name) >= 3 && Utf16Length(password) >= 6
              && Present(s, PasswordKey(name))
    ensures r.1 == Created ==>
              && r.0.items == s.items[PasswordKey(name) := password]
              && r.0.authUser == Some(User(name, true, false))
  {
    if password != confirm then (s, PasswordMismatch)
    else if Utf16Length(name) < 3 || Utf16Length(password) < 6 then (s, TooShort)
    else if Present(s, PasswordKey(name)) then (s, NameTaken)
    else (Store(s.items[PasswordKey(name) := password], Some(User(name, true, false))), Created)
  }

  /** Lengths are code units: three characters above U+FFFF make a six-unit password, which
      is long enough. */
  lemma SignupCountsCodeUnits(s: Store)
    requires !Present(s, PasswordKey("bob"))
    ensures var p := "\U{1F600}\U{1F600}\U{1F600}";
            |p| == 3 && Signup(s, "bob", p, p).1 == Created
  {
    var p := "\U{1F600}\U{1F600}\U{1F600}";
    assert Utf16Length(p) == 6 by {
      assert p[1..] == "\U{1F600}\U{1F600}" && p[1..][1..] == "\U{1F600}";
    }
    assert Utf16Length("bob") == 3 by {
      assert "bob"[1..] == "ob" && "ob"[1..] == "b";
    }
  }

  /** `signup`'s boolean result. */
  function SignupOk(s: Store, name: string, password: string, confirm: string): (r: bool)
    ensures r <==> Signup(s, name, password, confirm).1 == Created
  {
    Signup(s, name, password, confirm).1 == Created
  }

  /** A successful sign-up makes the same credentials log in, as a non-administrator unless
      they are the built-in administrator's. */
  lemma SignupThenLogin(s: Store, name: string, password: string)
    requires SignupOk(s, name, password, password)
    ensures var s' := Signup(s, name, password, password).0;
            Login(s', name, password).1
            && Login(s', name, password).0.authUser.value.isAdmin == (name == AdminName && password == AdminPassword)
  {
  }

  /** `logout`: only the signed-in user is forgotten. */
  function Logout(s: Store): (r: Store)
    ensures r.items == s.items && r.authUser == None
    ensures !IsAuthenticated(r) && !IsAdmin(r)
  {
    s.(authUser := None)
  }

  /** `getCurrentUser`. */
  function CurrentUser(s: Store): (r: Option<User>)
    ensures r == s.authUser
  {
    s.authUser
  }

  predicate IsAuthenticated(s: Store)
  {
    CurrentUser(s).Some? && CurrentUser(s).value.loggedIn
  }

  predicate IsAdmin(s: Store)
  {
    CurrentUser(s).Some? && CurrentUser(s).value.isAdmin
  }

  /** Logging in, with any credentials that succeed, signs in; as an administrator exactly
      for the built-in account. */
  lemma LoginSignsIn(s: Store, name: string, password: string)
    requires Login(s, name, password).1
    ensures IsAuthenticated(Login(s, name, password).0)
    ensures IsAdmin(Login(s, name, password).0) <==> name == AdminName && password == AdminPassword
    ensures CurrentUser(Login(s, name, password).0).value.username == name
  {
  }

  /** `deleteUser`: the built-in administrator cannot be deleted; for anyone else the
      password and metadata entries are removed, whether or not they existed. */
  function DeleteUser(s: Store, name: string): (r: (Store, bool))
    ensures name == AdminName ==> r == (s, false)
    ensures name != AdminName ==>
              && r.1 && r.0.authUser == s.authUser
              && PasswordKey(name) !in r.0.items && MetaKey(name) !in r.0.items
              && forall k :: k != PasswordKey(name) && k != MetaKey(name) ==>
                   (k in r.0.items <==> k in s.items) && (k in s.items ==> r.0.items[k] == s.items[k])
  {
    if name == AdminName then (s, false)
    else (s.(items := s.items - {PasswordKey(name), MetaKey(name)}), true)
  }

  /** `makeAdmin`: refused for a name without a stored password; otherwise the metadata
      marks the account as administrator, and if it is the signed-in user that user becomes
      an administrator at once. */
  function MakeAdmin(s: Store, name: string): (r: (Store, bool))
    ensures !Present(s, PasswordKey(name)) ==> r == (s, false)
    ensures Present(s, PasswordKey(name)) ==>
              && r.1
              && r.0.items == s.items[MetaKey(name) := AdminMeta]
              && (if s.authUser.Some? && s.authUser.value.username == name
                  then r.0.authUser == Some(s.authUser.value.(isAdmin := true))
                  else r.0.authUser == s.authUser)
  {
    if !Present(s, PasswordKey(name)) then (s, false)
    else
      var items := s.items[MetaKey(name) := AdminMeta];
      match s.authUser
      case Some(u) =>
        if u.username == name then (Store(items, Some(u.(isAdmin := true))), true)
        else (Store(items, s.authUser), true)
      case None => (Store(items, None), true)
  }

  /** One row of the user list. */
  datatype Entry = Entry(username: string, isAdmin: bool)

  /** A key the user list reports: it starts with `user_` and is not exactly `user_meta`, so
      metadata keys `user_meta_<name>` are reported too. */
  predicate IsListedKey(k: string)
  {
    StartsWith(k, UserPrefix) && k != "user_meta"
  }

  /** Whether a stored metadata string marks an administrator. The source parses it as
      JSON and tests `isAdmin === true`; `parsesAdmin` stands for that parse, and an empty
      value counts as no metadata. */
  predicate MetaSaysAdmin(s: Store, name: string, parsesAdmin: string -> bool)
  {
    Present(s, MetaKey(name)) && parsesAdmin(s.items[MetaKey(name)])
  }

  /** The listed keys among `keys`, in their order. */
  function ListedKeys(keys: seq<string>): (r: seq<string>)
    ensures forall i :: 0 <= i < |r| ==> IsListedKey(r[i])
  {
    Filter(keys, IsListedKey)
  }

  /** The row the user list shows for a listed key: the name after `user_`, and whether its
      metadata marks an administrator. */
  function KeyEntry(s: Store, k: string, parsesAdmin: string -> bool): (e: Entry)
    requires IsListedKey(k)
    ensures PasswordKey(e.username) == k
    ensures e.isAdmin == MetaSaysAdmin(s, e.username, parsesAdmin)
  {
    var name := k[|UserPrefix|..];
    assert k == k[..|UserPrefix|] + name;
    Entry(name, MetaSaysAdmin(s, name, parsesAdmin))
  }

  /** The entries for the listed keys among `keys`: one per listed key, in their order. */
  function ListKeys(s: Store, keys: seq<string>, parsesAdmin: string -> bool): (r: seq<Entry>)
    ensures |r| == |ListedKeys(keys)| <= |keys|
    ensures forall i :: 0 <= i < |r| ==> r[i] == KeyEntry(s, ListedKeys(keys)[i], parsesAdmin)
    ensures forall e :: e in r ==>
              && PasswordKey(e.username) in keys && IsListedKey(PasswordKey(e.username))
              && e.isAdmin == MetaSaysAdmin(s, e.username, parsesAdmin)
    ensures forall k :: k in keys && IsListedKey(k) ==>
              Entry(k[|UserPrefix|..], MetaSaysAdmin(s, k[|UserPrefix|..], parsesAdmin)) in r
  {
    if |keys| == 0 then []
    else
      var rest := ListKeys(s, keys[1..], parsesAdmin);
      ListedKeysCons(keys);
      var r := if IsListedKey(keys[0]) then [KeyEntry(s, keys[0], parsesAdmin)] + rest else rest;
      RowsListed(s, keys, parsesAdmin, r);
      r
  }

  /** Rows that follow the listed keys one for one name exactly the listed keys. */
  lemma RowsListed(s: Store, keys: seq<string>, parsesAdmin: string -> bool, r: seq<Entry>)
    requires |r| == |ListedKeys(keys)|
    requires forall i :: 0 <= i < |r| ==> r[i] == KeyEntry(s, ListedKeys(keys)[i], parsesAdmin)
    ensures forall e :: e in r ==>
              && PasswordKey(e.username) in keys && IsListedKey(PasswordKey(e.username))
              && e.isAdmin == MetaSaysAdmin(s, e.username, parsesAdmin)
    ensures forall k :: k in keys && IsListedKey(k) ==>
              Entry(k[|UserPrefix|..], MetaSaysAdmin(s, k[|UserPrefix|..], parsesAdmin)) in r
  {
    var ks := ListedKeys(keys);
    forall e | e in r
      ensures && PasswordKey(e.username) in keys && IsListedKey(PasswordKey(e.username))
              && e.isAdmin == MetaSaysAdmin(s, e.username, parsesAdmin)
    {
      var i :| 0 <= i < |r| && r[i] == e;
      assert ks[i] in keys && IsListedKey(ks[i]);
    }
    forall k | k in keys && IsListedKey(k)
      ensures Entry(k[|UserPrefix|..], MetaSaysAdmin(s, k[|UserPrefix|..], parsesAdmin)) in r
    {
      var i :| 0 <= i < |keys| && keys[i] == k;
      assert k in ks;
      var j :| 0 <= j < |ks| && ks[j] == k;
      assert r[j] == KeyEntry(s, k, parsesAdmin);
    }
  }

  lemma ListedKeysCons(keys: seq<string>)
    requires |keys| > 0
    ensures ListedKeys(keys) ==
              if IsListedKey(keys[0]) then [keys[0]] + ListedKeys(keys[1..]) else ListedKeys(keys[1..])
  {
  }

  /** `keys` enumerates the store's keys, each once, as `localStorage.key(i)` does. */
  predicate Enumerates(s: Store, keys: seq<string>)
  {
    && (forall k :: k in keys ==> k in s.items)
    && (forall k :: k in s.items ==> k in keys)
    && forall i, j :: 0 <= i < j < |keys| ==> keys[i] != keys[j]
  }

  /** `getAllUsers`: the built-in administrator first, then one entry per listed key in
      storage order, named by the key without its `user_` prefix. */
  function GetAllUsers(s: Store, keys: seq<string>, parsesAdmin: string -> bool): (r: seq<Entry>)
    requires Enumerates(s, keys)
    ensures |r| >= 1 && r[0] == Entry(AdminName, true)
    ensures |r| == 1 + |ListedKeys(keys)|
    ensures forall i :: 1 <= i < |r| ==> r[i] == KeyEntry(s, ListedKeys(keys)[i - 1], parsesAdmin)
    ensures forall i :: 1 <= i < |r| ==>
              && PasswordKey(r[i].username) in s.items && IsListedKey(PasswordKey(r[i].username))
              && r[i].isAdmin == MetaSaysAdmin(s, r[i].username, parsesAdmin)
  {
    ListedKeysStored(s, keys);
    [Entry(AdminName, true)] + ListKeys(s, keys, parsesAdmin)
  }

  /** Every listed key is a stored key. */
  lemma ListedKeysStored(s: Store, keys: seq<string>)
    requires Enumerates(s, keys)
    ensures forall i :: 0 <= i < |ListedKeys(keys)| ==> ListedKeys(keys)[i] in s.items
  {
    forall i | 0 <= i < |ListedKeys(keys)|
      ensures ListedKeys(keys)[i] in s.items
    {
      assert ListedKeys(keys)[i] in keys;
    }
  }

  /** A name is listed after the administrator exactly when a password entry exists for it
      (`user_meta` itself aside). */
  lemma ListedIffStored(s: Store, keys: seq<string>, parsesAdmin: string -> bool, name: string)
    requires Enumerates(s, keys)
    ensures (exists i :: 1 <= i < |GetAllUsers(s, keys, parsesAdmin)| && GetAllUsers(s, keys, parsesAdmin)[i].username == name)
            <==> PasswordKey(name) in s.items && name != "meta"
  {
    var r := GetAllUsers(s, keys, parsesAdmin);
    var k := PasswordKey(name);
    assert k[|UserPrefix|..] == name;
    if k in s.items && name != "meta" {
      assert IsListedKey(k);
      var e := Entry(name, MetaSaysAdmin(s, name, parsesAdmin));
      assert e in r[1..];
      var i :| 0 <= i < |r[1..]| && r[1..][i] == e;
      assert r[i + 1].username == name;
    }
  }

  /** After `makeAdmin` succeeds, the user list reports the account as an administrator,
      provided the metadata `makeAdmin` writes parses as such. */
  lemma MakeAdminListed(s: Store, name: string, keys: seq<string>, parsesAdmin: string -> bool)
    requires Present(s, PasswordKey(name)) && parsesAdmin(AdminMeta)
    requires Enumerates(MakeAdmin(s, name).0, keys)
    ensures forall i :: 1 <= i < |GetAllUsers(MakeAdmin(s, name).0, keys, parsesAdmin)| ==>
              var e := GetAllUsers(MakeAdmin(s, name).0, keys, parsesAdmin)[i];
              e.username == name ==> e.isAdmin
  {
  }

  /** After deleting a user other than the built-in administrator, the list no longer
      reports that name. */
  lemma DeleteUserUnlisted(s: Store, name: string, keys: seq<string>, parsesAdmin: string -> bool)
    requires name != AdminName
    requires Enumerates(DeleteUser(s, name).0, keys)
    ensures forall i :: 1 <= i < |GetAllUsers(DeleteUser(s, name).0, keys, parsesAdmin)| ==>
              GetAllUsers(DeleteUser(s, name).0, keys, parsesAdmin)[i].username != name
  {
  }
}

/**
 * The user repository: five functions over the browser's local storage,
 * which keep every user in one JSON array stored under the key `USER`.
 */
module Storage {
  import opened Basics
  import opened Seqs
  import opened Users

  /** The only key the repository reads or writes. */
  const UserKey: string := "USER"

  /**
   * A string held in local storage. `Json(users)` is `JSON.stringify(users)`,
   * which is never the empty string and which `JSON.parse` turns back into
   * `users`. `Foreign(text)` stands only for the empty string or for text
   * that is not the JSON of a user array: text `JSON.parse` rejects, or text
   * that parses to something other than an array, which the model treats
   * as a parse error too.
   */
  datatype Entry = Json(users: seq<User>) | Foreign(text: string)

  /**
   * The stored text did not yield a user array: `JSON.parse` threw, or it
   * returned something other than an array. Nothing in the repository
   * catches the error.
   */
  datatype StorageError = MalformedBlob

  /** `window.localStorage`: a string-keyed table that `setItem` overwrites. */
  class LocalStorage {
    var items: map<string, Entry>

    constructor ()
      ensures items == map[]
    {
      items := map[];
    }

    /** `localStorage.setItem(key, value)`. */
    method SetItem(key: string, value: Entry)
      modifies this
      ensures items == old(items)[key := value]
    {
      items := items[key := value];
    }
  }

  /**
   * `getUsers()`: the array stored under `USER`; the empty array when the key
   * is missing or holds the empty string (both are falsy); a thrown parse
   * error for any other text.
   */
  function GetUsers(items: map<string, Entry>): (r: Result<seq<User>, StorageError>)
    ensures UserKey !in items ==> r == Ok([])
    ensures r.Err? <==> UserKey in items && items[UserKey].Foreign? && items[UserKey].text != ""
    ensures r.Ok? && r.value != [] ==> UserKey in items && items[UserKey] == Json(r.value)
    ensures UserKey in items && items[UserKey].Json? ==> r == Ok(items[UserKey].users)
  {
    if UserKey !in items then Ok([])
    else match items[UserKey]
      case Json(users) => Ok(users)
      case Foreign(text) => if text == "" then Ok([]) else Err(MalformedBlob)
  }

  /** Only the `USER` entry decides what `getUsers` returns. */
  lemma GetUsersReadsOnlyUserKey(a: map<string, Entry>, b: map<string, Entry>)
    requires UserKey in a <==> UserKey in b
    requires UserKey in a ==> a[UserKey] == b[UserKey]
    ensures GetUsers(a) == GetUsers(b)
  {
  }

  /** Whatever `createUser` or `removeUserById` wrote is what `getUsers` reads back. */
  lemma GetUsersAfterWrite(items: map<string, Entry>, users: seq<User>)
    ensures GetUsers(items[UserKey := Json(users)]) == Ok(users)
  {
  }

  /** `getUserById(userId)`: the first stored record with that id, if any. */
  function GetUserById(items: map<string, Entry>, userId: string): (r: Result<Option<User>, StorageError>)
    ensures r.Err? <==> GetUsers(items).Err?
    ensures r.Ok? && r.value.Some? ==> r.value.value.id == userId && r.value.value in GetUsers(items).value
    ensures r.Ok? && r.value.None? <==> GetUsers(items).Ok? && forall u :: u in GetUsers(items).value ==> u.id != userId
  {
    match GetUsers(items)
    case Ok(users) => Ok(FindById(users, userId))
    case Err(e) => Err(e)
  }

  /** `createUser(newUser)`: append to the stored array and write it back. */
  method CreateUser(storage: LocalStorage, newUser: User) returns (r: Result<(), StorageError>)
    modifies storage
    ensures r.Ok? <==> GetUsers(old(storage.items)).Ok?
    ensures r.Err? ==> storage.items == old(storage.items)
    ensures r.Ok? ==> storage.items == old(storage.items)[UserKey := Json(GetUsers(old(storage.items)).value + [newUser])]
    ensures r.Ok? ==> GetUsers(storage.items) == Ok(GetUsers(old(storage.items)).value + [newUser])
    ensures r.Ok? && (forall u :: u in GetUsers(old(storage.items)).value ==> u.id != newUser.id)
            ==> GetUserById(storage.items, newUser.id) == Ok(Some(newUser))
  {
    var stored := GetUsers(storage.items);
    if stored.Err? {
      return Err(stored.error);
    }
    storage.SetItem(UserKey, Json(stored.value + [newUser]));
    if forall u :: u in stored.value ==> u.id != newUser.id {
      FindByIdAppendFresh(stored.value, newUser);
    }
    r := Ok(());
  }

  /** `removeUserById(userId)`: drop every record with that id and write the rest back. */
  method RemoveUserById(storage: LocalStorage, userId: string) returns (r: Result<(), StorageError>)
    modifies storage
    ensures r.Ok? <==> GetUsers(old(storage.items)).Ok?
    ensures r.Err? ==> storage.items == old(storage.items)
    ensures r.Ok? ==> storage.items == old(storage.items)[UserKey := Json(WithoutId(GetUsers(old(storage.items)).value, userId))]
    ensures r.Ok? ==> GetUserById(storage.items, userId) == Ok(None)
  {
    var stored := GetUsers(storage.items);
    if stored.Err? {
      return Err(stored.error);
    }
    storage.SetItem(UserKey, Json(WithoutId(stored.value, userId)));
    r := Ok(());
  }

  /** The array `editUser(newUser)` leaves behind: the others in order, then `newUser`. */
  function Edited(users: seq<User>, newUser: User): (r: seq<User>)
    ensures |r| == |users| - CountId(users, newUser.id) + 1
    ensures r[|r| - 1] == newUser
    ensures forall i :: 0 <= i < |r| - 1 ==> r[i].id != newUser.id
  {
    WithoutId(users, newUser.id) + [newUser]
  }

  /** `editUser(newUser)`: `removeUserById(newUser.id)` and then `createUser(newUser)`. */
  method EditUser(storage: LocalStorage, newUser: User) returns (r: Result<(), StorageError>)
    modifies storage
    ensures r.Ok? <==> GetUsers(old(storage.items)).Ok?
    ensures r.Err? ==> storage.items == old(storage.items)
    ensures r.Ok? ==> storage.items == old(storage.items)[UserKey := Json(Edited(GetUsers(old(storage.items)).value, newUser))]
    ensures r.Ok? ==> GetUserById(storage.items, newUser.id) == Ok(Some(newUser))
  {
    r := RemoveUserById(storage, newUser.id);
    if r.Err? {
      return;
    }
    r := CreateUser(storage, newUser);
  }

  /** Appending a record whose id is new makes it the one `find` returns. */
  lemma FindByIdAppendFresh(users: seq<User>, newUser: User)
    requires forall u :: u in users ==> u.id != newUser.id
    ensures FindById(users + [newUser], newUser.id) == Some(newUser)
  {
    var s := users + [newUser];
    assert s[|users|].id == newUser.id;
    var i :| 0 <= i < |s| && s[i] == FindById(s, newUser.id).value && s[i].id == newUser.id;
    assert i == |users|;
  }

  /** `createUser` checks no uniqueness: the id count always rises by one. */
  lemma {:induction false} CountIdAppend(users: seq<User>, newUser: User)
    ensures CountId(users + [newUser], newUser.id) == CountId(users, newUser.id) + 1
  {
    if users == [] {
      assert users + [newUser] == [newUser];
    } else {
      assert (users + [newUser])[1..] == users[1..] + [newUser];
      CountIdAppend(users[1..], newUser);
    }
  }

  /** After an edit, exactly one record has the edited id, it is `newUser`, and it is last. */
  lemma EditedHasOneRecordForId(users: seq<User>, newUser: User)
    ensures CountId(Edited(users, newUser), newUser.id) == 1
    ensures Edited(users, newUser)[|Edited(users, newUser)| - 1] == newUser
    ensures forall u :: u in Edited(users, newUser) && u.id == newUser.id ==> u == newUser
  {
    var w := WithoutId(users, newUser.id);
    assert CountId(w, newUser.id) == 0 by {
      FilterDropsRejected(w, HasOtherId(newUser.id), HasId(newUser.id));
      WithoutAbsentId(w, newUser.id);
    }
    CountIdAppend(w, newUser);
  }

  /** Records with other ids survive an edit, in their original relative order. */
  lemma EditedKeepsOthers(users: seq<User>, newUser: User)
    ensures Embeds(Edited(users, newUser)[..|Edited(users, newUser)| - 1], users)
    ensures forall u :: u in users && u.id != newUser.id ==> u in Edited(users, newUser)
  {
    var e := Edited(users, newUser);
    assert e[..|e| - 1] == WithoutId(users, newUser.id);
  }

  /** Editing an id that is not stored is the same as creating the record. */
  lemma EditAbsentIsCreate(users: seq<User>, newUser: User)
    requires forall u :: u in users ==> u.id != newUser.id
    ensures Edited(users, newUser) == users + [newUser]
  {
    WithoutAbsentId(users, newUser.id);
  }

  /** Editing twice with the same record leaves what editing once left. */
  lemma EditIdempotent(users: seq<User>, newUser: User)
    ensures Edited(Edited(users, newUser), newUser) == Edited(users, newUser)
  {
    var w := WithoutId(users, newUser.id);
    WithoutIdAppend(w, [newUser], newUser.id);
    WithoutIdIdempotent(users, newUser.id);
    assert WithoutId([newUser], newUser.id) == [];
  }

  /** When the id occurred exactly once, an edit keeps the number of records. */
  lemma EditKeepsLength(users: seq<User>, newUser: User)
    requires CountId(users, newUser.id) == 1
    ensures |Edited(users, newUser)| == |users|
  {
  }
}

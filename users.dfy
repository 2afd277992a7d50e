/**
 * The `User` record (the `User` type of the list page) and the two
 * id-keyed views of a user list that the storage functions are built on.
 */
module Users {
  import opened Basics
  import opened Seqs

  datatype User = User(
    id: string,
    name: string,
    imageUrl: string,
    company: string,
    role: string,
    verified: bool,
    status: string)

  /** The callback `user => user.id !== userId`. */
  function HasOtherId(userId: string): User -> bool
  {
    (u: User) => u.id != userId
  }

  /** The callback `user => user.id === userId`. */
  function HasId(userId: string): User -> bool
  {
    (u: User) => u.id == userId
  }

  /** Number of records carrying `userId`; ids are not unique in the store. */
  function CountId(users: seq<User>, userId: string): (n: nat)
    ensures n <= |users|
  {
    CountWhere(users, HasId(userId))
  }

  /** No record carries `userId` exactly when its count is zero. */
  lemma CountIdZero(users: seq<User>, userId: string)
    ensures CountId(users, userId) == 0 <==> forall i :: 0 <= i < |users| ==> users[i].id != userId
  {
    CountWhereZero(users, HasId(userId));
  }

  /** `users.filter(user => user.id !== userId)`. */
  function WithoutId(users: seq<User>, userId: string): (r: seq<User>)
    ensures forall i :: 0 <= i < |r| ==> r[i].id != userId && r[i] in users
    ensures forall i :: 0 <= i < |users| && users[i].id != userId ==> users[i] in r
    ensures |r| == |users| - CountId(users, userId)
    ensures Embeds(r, users)
  {
    FilterDropsRejected(users, HasOtherId(userId), HasId(userId));
    Filter(users, HasOtherId(userId))
  }

  /** `users.find(user => user.id === userId)`. */
  function FindById(users: seq<User>, userId: string): (r: Option<User>)
    ensures r.None? <==> forall i :: 0 <= i < |users| ==> users[i].id != userId
    ensures r.Some? ==> exists i :: 0 <= i < |users| && users[i] == r.value && r.value.id == userId
                                    && forall j :: 0 <= j < i ==> users[j].id != userId
  {
    Find(users, HasId(userId))
  }

  /** Removing an id that no record carries changes nothing. */
  lemma WithoutAbsentId(users: seq<User>, userId: string)
    requires forall i :: 0 <= i < |users| ==> users[i].id != userId
    ensures WithoutId(users, userId) == users
  {
    FilterKeepsAll(users, HasOtherId(userId));
  }

  /** Removing the same id twice is removing it once. */
  lemma WithoutIdIdempotent(users: seq<User>, userId: string)
    ensures WithoutId(WithoutId(users, userId), userId) == WithoutId(users, userId)
  {
    FilterIdempotent(users, HasOtherId(userId));
  }

  /** Removal distributes over concatenation. */
  lemma WithoutIdAppend(a: seq<User>, b: seq<User>, userId: string)
    ensures WithoutId(a + b, userId) == WithoutId(a, userId) + WithoutId(b, userId)
  {
    FilterAppend(a, b, HasOtherId(userId));
  }
}

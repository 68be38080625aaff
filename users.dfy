/**
 * The in-memory user table: its records, the linear searches the handlers run over it
 * (`Array.prototype.find` and `findIndex`), `splice(k, 1)`, and the invariant the
 * handlers keep.
 */
module Users {

  import opened Options
  import opened Validation

  /** One user record; `id` and `createdAt` are assigned by the server when it is created. */
  datatype User = User(id: string, name: string, email: string, createdAt: string)

  /** What a search compares: the record's id, or its email. */
  datatype Key = ById(id: string) | ByEmail(email: string)

  predicate Matches(u: User, key: Key)
  {
    match key
    case ById(id) => u.id == id
    case ByEmail(email) => u.email == email
  }

  /**
   * Reference definition of a search: the index of the first record matching `key`, or -1
   * when there is none (the convention of `findIndex`).
   */
  function FirstIndex(s: seq<User>, key: Key): (i: int)
    ensures -1 <= i < |s|
    ensures i == -1 <==> forall j :: 0 <= j < |s| ==> !Matches(s[j], key)
    ensures 0 <= i ==> Matches(s[i], key) && forall j :: 0 <= j < i ==> !Matches(s[j], key)
  {
    if s == [] then -1
    else if Matches(s[0], key) then 0
    else
      var i := FirstIndex(s[1..], key);
      if i == -1 then -1 else i + 1
  }

  /** `users.findIndex(u => ...)`: scan from the front and stop at the first match. */
  method FindIndex(s: seq<User>, key: Key) returns (i: int)
    ensures i == FirstIndex(s, key)
  {
    var k := 0;
    while k < |s|
      invariant 0 <= k <= |s|
      invariant forall j :: 0 <= j < k ==> !Matches(s[j], key)
    {
      if Matches(s[k], key) {
        return k;
      }
      k := k + 1;
    }
    return -1;
  }

  /** `users.find(u => ...)`: the first matching record itself, or nothing. */
  method Find(s: seq<User>, key: Key) returns (r: Option<User>)
    ensures r.None? <==> forall j :: 0 <= j < |s| ==> !Matches(s[j], key)
    ensures r.Some? ==> r.value == s[FirstIndex(s, key)] && Matches(r.value, key)
  {
    var i := FindIndex(s, key);
    r := if i == -1 then None else Some(s[i]);
  }

  /** `s.splice(k, 1)` as a value: the sequence with the element at `k` taken out. */
  function RemoveAt(s: seq<User>, k: nat): (r: seq<User>)
    requires k < |s|
    ensures |r| == |s| - 1
    ensures forall j :: 0 <= j < k ==> r[j] == s[j]
    ensures forall j :: k <= j < |r| ==> r[j] == s[j + 1]
  {
    s[..k] + s[k + 1..]
  }

  /** A record the validator would accept: a non-empty name and an email holding an '@'. */
  ghost predicate WellFormed(u: User)
  {
    u.name != "" && HasAt(u.email)
  }

  /** No two records share an id or an email, and every record passed validation. */
  ghost predicate StoreInvariant(users: seq<User>)
  {
    && (forall i, j :: 0 <= i < j < |users| ==> users[i].id != users[j].id)
    && (forall i, j :: 0 <= i < j < |users| ==> users[i].email != users[j].email)
    && (forall i :: 0 <= i < |users| ==> WellFormed(users[i]))
  }

  /** The two records the process starts with. */
  function Seed(firstCreatedAt: string, secondCreatedAt: string): (users: seq<User>)
    ensures |users| == 2 && StoreInvariant(users)
    ensures FirstIndex(users, ById("1")) == 0 && FirstIndex(users, ById("2")) == 1
  {
    var john := User("1", "John Doe", "john@example.com", firstCreatedAt);
    var jane := User("2", "Jane Smith", "jane@example.com", secondCreatedAt);
    assert john.email[4] == '@' && jane.email[4] == '@';
    [john, jane]
  }

  /** Appending a well-formed record whose id and email are both new keeps the invariant. */
  lemma AppendKeepsInvariant(users: seq<User>, u: User)
    requires StoreInvariant(users)
    requires FirstIndex(users, ById(u.id)) == -1 && FirstIndex(users, ByEmail(u.email)) == -1
    requires WellFormed(u)
    ensures StoreInvariant(users + [u])
  {
  }

  /** Removing any one record keeps the invariant. */
  lemma RemoveKeepsInvariant(users: seq<User>, k: nat)
    requires StoreInvariant(users) && k < |users|
    ensures StoreInvariant(RemoveAt(users, k))
  {
  }

  /** `splice(k, 1)` takes out exactly one occurrence of the element at `k` and nothing else. */
  lemma RemoveAtTakesOne(s: seq<User>, k: nat)
    requires k < |s|
    ensures multiset(RemoveAt(s, k)) + multiset{s[k]} == multiset(s)
  {
    assert s == s[..k] + [s[k]] + s[k + 1..];
  }

  /** With ids distinct, once the record with `id` is removed no record has that id. */
  lemma RemovedIdIsGone(users: seq<User>, id: string)
    requires StoreInvariant(users)
    requires FirstIndex(users, ById(id)) != -1
    ensures FirstIndex(RemoveAt(users, FirstIndex(users, ById(id))), ById(id)) == -1
  {
  }

  /** A record appended under a new id is what a later search for that id finds. */
  lemma AppendedIsFound(users: seq<User>, u: User)
    requires FirstIndex(users, ById(u.id)) == -1
    ensures FirstIndex(users + [u], ById(u.id)) == |users|
  {
    var s := users + [u];
    assert Matches(s[|users|], ById(u.id));
    assert forall j :: 0 <= j < |users| ==> s[j] == users[j];
  }

}

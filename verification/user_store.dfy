/** The demo back end's in-memory user store: a map from id to user and an id counter,
    behind the create/read/update/delete endpoints of `/api/users`.

    Each endpoint is a transition from one store to the next plus the HTTP response it
    sends. Ids are Java `Long`s and the counter is an `AtomicLong`, so the counter's
    increment wraps at Long.MAX_VALUE; that wrap is written out below.
 */
module UserStore {
  import opened Wrappers

  const LongMin: int := -0x8000_0000_0000_0000
  const LongMax: int := 0x7FFF_FFFF_FFFF_FFFF

  /** A Java `long`. */
  type Long = x: int | LongMin <= x <= LongMax

  const Ok: nat := 200
  const Created: nat := 201
  const NoContent: nat := 204
  const NotFound: nat := 404

  datatype User = User(id: Long, name: string, email: string, role: string)

  datatype Store = Store(users: map<Long, User>, idCounter: Long)

  /** An HTTP response: status code and optional body. */
  datatype Response<T> = Response(status: nat, body: Option<T>)

  /** The store after an endpoint ran, and what the endpoint answered. */
  datatype Exchange<T> = Exchange(store: Store, response: Response<T>)

  /** `AtomicLong.getAndIncrement`'s new value: two's-complement wrap at the top. */
  function IncrementLong(x: Long): (r: Long)
    ensures x < LongMax ==> r == x + 1
    ensures x == LongMax ==> r == LongMin
  {
    if x == LongMax then LongMin else x + 1
  }

  /** Every stored user sits under its own id. */
  predicate KeyedById(s: Store)
  {
    forall id :: id in s.users ==> s.users[id].id == id
  }

  /** Every stored user sits under its own id, and every id was issued before the counter. */
  predicate Valid(s: Store)
  {
    KeyedById(s) && forall id :: id in s.users ==> id < s.idCounter
  }

  /** The store the controller's constructor builds: three demo users, next id 4. */
  function Initial(): (s: Store)
    ensures s.users.Keys == {1, 2, 3}
    ensures s.idCounter == 4
    ensures Valid(s)
  {
    Store(
      map[
        1 := User(1, "John Doe", "john@example.com", "Admin"),
        2 := User(2, "Jane Smith", "jane@example.com", "User"),
        3 := User(3, "Bob Johnson", "bob@example.com", "User")],
      4)
  }

  /** GET /users/{id}: 200 with the stored user, or 404; the store never changes. */
  function GetUserById(s: Store, id: Long): (r: Exchange<User>)
    ensures r.store == s
    ensures r.response.status == Ok <==> id in s.users
    ensures r.response.status == Ok || r.response.status == NotFound
    ensures id in s.users ==> r.response.body == Some(s.users[id])
    ensures id !in s.users ==> r.response.body == None
  {
    if id in s.users then Exchange(s, Response(Ok, Some(s.users[id])))
    else Exchange(s, Response(NotFound, None))
  }

  /** POST /users: the user is stored under the counter's current value, whatever id the
      client sent, and the counter moves on by one. */
  function CreateUser(s: Store, u: User): (r: Exchange<User>)
    ensures r.response.status == Created
    ensures r.response.body == Some(u.(id := s.idCounter))
    ensures r.store.users == s.users[s.idCounter := u.(id := s.idCounter)]
    ensures s.idCounter < LongMax ==> r.store.idCounter == s.idCounter + 1
    ensures Valid(s) ==> s.idCounter !in s.users
    ensures Valid(s) && s.idCounter < LongMax ==> Valid(r.store)
  {
    var id := s.idCounter;
    var stored := u.(id := id);
    Exchange(Store(s.users[id := stored], IncrementLong(s.idCounter)), Response(Created, Some(stored)))
  }

  /** PUT /users/{id}: replaces a present user, forcing the id to the path id; never creates. */
  function UpdateUser(s: Store, id: Long, u: User): (r: Exchange<User>)
    ensures r.store.idCounter == s.idCounter
    ensures r.store.users.Keys == s.users.Keys
    ensures id in s.users ==> r.response == Response(Ok, Some(u.(id := id)))
                              && r.store.users == s.users[id := u.(id := id)]
    ensures id !in s.users ==> r == Exchange(s, Response(NotFound, None))
    ensures Valid(s) ==> Valid(r.store)
  {
    if id in s.users then
      var stored := u.(id := id);
      Exchange(Store(s.users[id := stored], s.idCounter), Response(Ok, Some(stored)))
    else Exchange(s, Response(NotFound, None))
  }

  /** DELETE /users/{id}: removes exactly that key with 204, or answers 404 and changes nothing. */
  function DeleteUser(s: Store, id: Long): (r: Exchange<()>)
    ensures r.store.idCounter == s.idCounter
    ensures r.store.users.Keys == s.users.Keys - {id}
    ensures forall k :: k in r.store.users ==> r.store.users[k] == s.users[k]
    ensures id in s.users ==> r.response == Response(NoContent, None)
    ensures id !in s.users ==> r == Exchange(s, Response(NotFound, None))
    ensures Valid(s) ==> Valid(r.store)
  {
    if id in s.users then Exchange(Store(s.users - {id}, s.idCounter), Response(NoContent, None))
    else Exchange(s, Response(NotFound, None))
  }

  /** GET /users: 200 with every stored user exactly once. The map's iteration order is
      unspecified, so the order here is an arbitrary choice of the implementation. Every store
      the endpoints build keeps users under their own ids, also after the counter wrapped. */
  method GetAllUsers(s: Store) returns (status: nat, list: seq<User>)
    requires KeyedById(s)
    ensures status == Ok
    ensures |list| == |s.users|
    ensures forall i :: 0 <= i < |list| ==> list[i].id in s.users && s.users[list[i].id] == list[i]
    ensures forall id :: id in s.users ==> s.users[id] in list
    ensures forall i, j :: 0 <= i < j < |list| ==> list[i].id != list[j].id
  {
    status := Ok;
    list := [];
    var rest := s.users.Keys;
    while rest != {}
      invariant rest <= s.users.Keys
      invariant |list| + |rest| == |s.users|
      invariant forall i :: 0 <= i < |list| ==> list[i].id in s.users - rest && s.users[list[i].id] == list[i]
      invariant forall id :: id in s.users && id !in rest ==> s.users[id] in list
      invariant forall i, j :: 0 <= i < j < |list| ==> list[i].id != list[j].id
      decreases rest
    {
      var id :| id in rest;
      list := list + [s.users[id]];
      rest := rest - {id};
    }
  }

  // ---------------------------------------------------------------------------
  // Sequences of requests

  datatype Request =
    | Get(id: Long)
    | Create(user: User)
    | Update(id: Long, user: User)
    | Delete(id: Long)

  /** One request's effect on the store. */
  function Apply(s: Store, q: Request): Store
  {
    match q
    case Get(id) => GetUserById(s, id).store
    case Create(u) => CreateUser(s, u).store
    case Update(id, u) => UpdateUser(s, id, u).store
    case Delete(id) => DeleteUser(s, id).store
  }

  /** The store after a sequence of requests, in order. */
  function Run(s: Store, qs: seq<Request>): Store
    decreases |qs|
  {
    if |qs| == 0 then s else Run(Apply(s, qs[0]), qs[1..])
  }

  /** Every endpoint keeps the store valid, as long as the counter has not reached Long.MAX_VALUE. */
  lemma ApplyPreservesValid(s: Store, q: Request)
    requires Valid(s)
    requires s.idCounter < LongMax
    ensures Valid(Apply(s, q))
    ensures Apply(s, q).idCounter >= s.idCounter
    ensures Apply(s, q).idCounter <= s.idCounter + 1
  {
  }

  /** Validity and a non-decreasing counter hold across any run that does not reach the wrap. */
  lemma {:induction false} RunPreservesValid(s: Store, qs: seq<Request>)
    requires Valid(s)
    requires s.idCounter + |qs| <= LongMax
    ensures Valid(Run(s, qs))
    ensures s.idCounter <= Run(s, qs).idCounter <= s.idCounter + |qs|
    decreases |qs|
  {
    if |qs| > 0 {
      ApplyPreservesValid(s, qs[0]);
      RunPreservesValid(Apply(s, qs[0]), qs[1..]);
    }
  }

  /** Users stay under their own ids across any run, also once the counter has wrapped. */
  lemma {:induction false} RunKeepsKeyedById(s: Store, qs: seq<Request>)
    requires KeyedById(s)
    ensures KeyedById(Run(s, qs))
    decreases |qs|
  {
    if |qs| > 0 {
      assert KeyedById(Apply(s, qs[0]));
      RunKeepsKeyedById(Apply(s, qs[0]), qs[1..]);
    }
  }

  /** An id that is below the counter but not stored stays absent forever: creates only use
      fresh ids and updates never create. In particular a deleted id is never reissued. */
  lemma {:induction false} AbsentIssuedIdStaysAbsent(s: Store, id: Long, qs: seq<Request>)
    requires Valid(s)
    requires id < s.idCounter && id !in s.users
    requires s.idCounter + |qs| <= LongMax
    ensures id !in Run(s, qs).users
    decreases |qs|
  {
    if |qs| > 0 {
      ApplyPreservesValid(s, qs[0]);
      AbsentIssuedIdStaysAbsent(Apply(s, qs[0]), id, qs[1..]);
    }
  }

  /** After DELETE of a stored id, no later sequence of requests brings it back, and a GET of it
      answers 404. */
  lemma DeletedStaysDeleted(s: Store, id: Long, qs: seq<Request>)
    requires Valid(s)
    requires id in s.users
    requires s.idCounter + |qs| <= LongMax
    ensures var after := Run(DeleteUser(s, id).store, qs);
            id !in after.users && GetUserById(after, id).response.status == NotFound
  {
    AbsentIssuedIdStaysAbsent(DeleteUser(s, id).store, id, qs);
  }

  /** A create never overwrites: every user present before is still there afterwards, unchanged. */
  lemma CreateNeverOverwrites(s: Store, u: User)
    requires Valid(s)
    ensures var r := CreateUser(s, u);
            && (forall k :: k in s.users ==> k in r.store.users && r.store.users[k] == s.users[k])
            && |r.store.users| == |s.users| + 1
  {
  }

  /** Once the counter sits at Long.MAX_VALUE, the next create wraps it to Long.MIN_VALUE and the
      "every id is below the counter" part of validity no longer holds. */
  lemma CreateAtLongMaxWraps(s: Store, u: User)
    requires Valid(s)
    requires s.idCounter == LongMax
    ensures CreateUser(s, u).store.idCounter == LongMin
    ensures !Valid(CreateUser(s, u).store)
  {
    var r := CreateUser(s, u);
    assert LongMax in r.store.users && !(LongMax < r.store.idCounter);
  }
}

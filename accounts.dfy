/** The tenant-scoped user store and booking ledger. Each tenant ("agent") owns
    a `users` collection, keyed by user name, and a `bookings` collection, keyed
    by booking id. Functions on one tenant's `Scope` specify each operation;
    the `Store` class holds every tenant's scope and performs the operations
    step by step, as the database calls do. */
module Accounts {
  import opened Common
  import opened Text
  import Auth

  /** A user document: name, plaintext password, and the ids of the user's
      bookings, a field that exists only after the first booking. */
  datatype UserDoc = UserDoc(username: string, password: string, bookings: Option<seq<string>>)

  /** One tenant's collections. */
  datatype Scope = Scope(users: map<string, UserDoc>, bookings: map<string, Json>)

  /** How an operation ends: with a result, with one of the four domain errors,
      or with the token library's exception, which no rescue turns into a
      domain error. */
  datatype Outcome<+T> = Done(value: T) | Fail(error: StoreError) | Raised(cause: Auth.JwtError)

  function LoginContext(agent: string, user: string): string
  {
    "KV get - scoped to " + agent + ".users: for password field in document " + user
  }

  function SignUpContext(agent: string, user: string): string
  {
    "KV insert - scoped to " + agent + ".users: document " + user
  }

  function ListContext(agent: string, user: string, count: nat): string
  {
    "KV get - scoped to " + agent + ".users: for " + NatToString(count) + " bookings in document " + user
  }

  function AddContext(agent: string, user: string): string
  {
    "KV update - scoped to " + agent + ".users: for bookings field in document " + user
  }

  /** The `{ 'token' => ... }` object login and sign-up reply with. */
  function TokenReply(token: string): Json
  {
    JObj(map["token" := JStr(token)])
  }

  /** `get_user`: read the stored password and compare it exactly. */
  function Login(s: Scope, agent: string, user: string, password: string): Outcome<Envelope<Json>>
  {
    if user !in s.users then Fail(UserNotFound)
    else if s.users[user].password != password then Fail(PasswordMismatch)
    else Done(Envelope([LoginContext(agent, user)], TokenReply(Auth.GenToken(user))))
  }

  /** `save_user`: an atomic create of `{username, password}` under the name. */
  function SignUp(s: Scope, agent: string, user: string, password: string): (Outcome<Envelope<Json>>, Scope)
  {
    if user in s.users then (Fail(UserAlreadyExists), s)
    else
      (Done(Envelope([SignUpContext(agent, user)], TokenReply(Auth.GenToken(user)))),
       s.(users := s.users[user := UserDoc(user, password, None)]))
  }

  /** The booking documents of `ids`, in list order, or None when one of the
      ids has no document. */
  function Resolve(ids: seq<string>, bookings: map<string, Json>): (r: Option<seq<Json>>)
    ensures r.Some? <==> forall k :: 0 <= k < |ids| ==> ids[k] in bookings
    ensures r.Some? ==> |r.value| == |ids| && forall k :: 0 <= k < |ids| ==> r.value[k] == bookings[ids[k]]
  {
    if ids == [] then Some([])
    else
      var last := ids[|ids| - 1];
      match Resolve(ids[..|ids| - 1], bookings)
      case None => None
      case Some(rows) => if last in bookings then Some(rows + [bookings[last]]) else None
  }

  /** `get_user_flights`: check the token, read the user's booking ids (none
      when the field is absent), fetch each booking. The rescue covers every
      fetch, so a dangling id also reads as a missing user. */
  function ListBookings(s: Scope, agent: string, user: string, header: string): Outcome<Envelope<seq<Json>>>
  {
    match Auth.Authenticated(header, user)
    case Raised(e) => Raised(e)
    case Verdict(ok) =>
      if !ok then Fail(InvalidUserToken)
      else if user !in s.users then Fail(UserNotFound)
      else match s.users[user].bookings
        case None => Done(Envelope([ListContext(agent, user, 0)], []))
        case Some(ids) =>
          match Resolve(ids, s.bookings)
          case None => Fail(UserNotFound)
          case Some(rows) => Done(Envelope([ListContext(agent, user, |rows|)], rows))
  }

  /** The only payload written: the first of the flights, or nil. */
  function FirstFlight(flights: seq<Json>): Json
  {
    if |flights| > 0 then flights[0] else JNull
  }

  /** `update_user_flights`: check the token, upsert the first flight under
      the new id, then append the id to the user's list, creating the list if
      absent. The two writes are separate: when the user is missing, the
      booking is already written. */
  function AddBooking(s: Scope, agent: string, user: string, header: string, flights: seq<Json>, id: string)
    : (Outcome<Envelope<Json>>, Scope)
  {
    match Auth.Authenticated(header, user)
    case Raised(e) => (Raised(e), s)
    case Verdict(ok) =>
      if !ok then (Fail(InvalidUserToken), s)
      else
        var first := FirstFlight(flights);
        var written := s.(bookings := s.bookings[id := first]);
        if user !in written.users then (Fail(UserNotFound), written)
        else
          var doc := written.users[user];
          var ids := IdsOf(doc);
          (Done(Envelope([AddContext(agent, user)], JObj(map["added" := JArr([first])]))),
           written.(users := written.users[user := doc.(bookings := Some(ids + [id]))]))
  }

  /** Every booking id held by a user names a booking document. */
  ghost predicate Integrity(s: Scope)
  {
    forall u, k :: u in s.users && s.users[u].bookings.Some? && 0 <= k < |s.users[u].bookings.value|
      ==> s.users[u].bookings.value[k] in s.bookings
  }

  /** Some user's list holds `id`. */
  ghost predicate Referenced(s: Scope, id: string)
  {
    exists u, k :: u in s.users && s.users[u].bookings.Some? && 0 <= k < |s.users[u].bookings.value|
      && s.users[u].bookings.value[k] == id
  }

  // ---------------------------------------------------------------------
  // Logging in and signing up

  /** A login fails with UserNotFound exactly when there is no such user, with
      PasswordMismatch exactly when the stored password differs, and otherwise
      returns a token that authenticates that user and nobody else. */
  lemma LoginOutcomes(s: Scope, agent: string, user: string, password: string, scheme: string, other: string)
    requires scheme != [] && NoSpace(scheme)
    ensures Login(s, agent, user, password) == Fail(UserNotFound) <==> user !in s.users
    ensures Login(s, agent, user, password) == Fail(PasswordMismatch)
      <==> user in s.users && s.users[user].password != password
    ensures Login(s, agent, user, password).Done?
      <==> user in s.users && s.users[user].password == password
    ensures Login(s, agent, user, password).Done? ==>
      Login(s, agent, user, password).value.data == TokenReply(Auth.GenToken(user))
    ensures Auth.Authenticated(scheme + " " + Auth.GenToken(user), other) == Auth.Verdict(other == user)
  {
    Auth.GenTokenAuthenticates(scheme, user, other);
  }

  /** Signing up fails with UserAlreadyExists, changing nothing, exactly when
      the name is taken; otherwise it adds exactly the entry
      `{username, password}` under the name and touches no booking. */
  lemma SignUpEffect(s: Scope, agent: string, user: string, password: string)
    ensures SignUp(s, agent, user, password).0 == Fail(UserAlreadyExists) <==> user in s.users
    ensures user in s.users ==> SignUp(s, agent, user, password).1 == s
    ensures user !in s.users ==>
      && SignUp(s, agent, user, password).0.Done?
      && SignUp(s, agent, user, password).1.users.Keys == s.users.Keys + {user}
      && SignUp(s, agent, user, password).1.users[user] == UserDoc(user, password, None)
      && (forall u :: u in s.users ==> SignUp(s, agent, user, password).1.users[u] == s.users[u])
    ensures SignUp(s, agent, user, password).1.bookings == s.bookings
  {
  }

  /** After signing up, the same credentials log in and yield the same token,
      and any other password is refused with PasswordMismatch. */
  lemma SignUpThenLogin(s: Scope, agent: string, user: string, password: string, wrong: string)
    requires user !in s.users && wrong != password
    ensures var (r, s') := SignUp(s, agent, user, password);
      && r.Done?
      && Login(s', agent, user, password) == Done(Envelope([LoginContext(agent, user)], r.value.data))
      && Login(s', agent, user, wrong) == Fail(PasswordMismatch)
  {
  }

  /** A second sign-up under the same name fails and leaves the first one's
      state as it was. */
  lemma SignUpTwice(s: Scope, agent: string, user: string, p1: string, p2: string)
    ensures var s' := SignUp(s, agent, user, p1).1;
      SignUp(s', agent, user, p2) == (Fail(UserAlreadyExists), s')
  {
  }

  // ---------------------------------------------------------------------
  // Listing bookings

  /** The token is checked before anything is read: when the check does not
      pass, the outcome does not depend on the tenant's data, and it is
      InvalidUserToken for a wrong user and the library's exception for a
      token that does not decode. */
  lemma ListChecksTokenFirst(s1: Scope, s2: Scope, agent: string, user: string, header: string)
    requires Auth.Authenticated(header, user) != Auth.Verdict(true)
    ensures ListBookings(s1, agent, user, header) == ListBookings(s2, agent, user, header)
    ensures Auth.Authenticated(header, user) == Auth.Verdict(false) ==>
      ListBookings(s1, agent, user, header) == Fail(InvalidUserToken)
    ensures Auth.Authenticated(header, user).Raised? ==>
      ListBookings(s1, agent, user, header) == Raised(Auth.Authenticated(header, user).cause)
  {
  }

  /** With a passing token: a missing user gives UserNotFound; a user without
      the `bookings` field gets an empty list; otherwise the list holds the
      booking documents in the order of the ids, or is UserNotFound when an id
      dangles; the context reports the number of rows. */
  lemma {:induction false} ListOutcomes(s: Scope, agent: string, user: string, header: string)
    requires Auth.Authenticated(header, user) == Auth.Verdict(true)
    ensures user !in s.users ==> ListBookings(s, agent, user, header) == Fail(UserNotFound)
    ensures user in s.users && s.users[user].bookings.None? ==>
      ListBookings(s, agent, user, header) == Done(Envelope([ListContext(agent, user, 0)], []))
    ensures user in s.users && s.users[user].bookings.Some? ==>
      var ids := s.users[user].bookings.value;
      && ((exists k :: 0 <= k < |ids| && ids[k] !in s.bookings) <==> ListBookings(s, agent, user, header) == Fail(UserNotFound))
      && (ListBookings(s, agent, user, header).Done? ==>
            var rows := ListBookings(s, agent, user, header).value.data;
            && |rows| == |ids|
            && (forall k :: 0 <= k < |ids| ==> rows[k] == s.bookings[ids[k]])
            && ListBookings(s, agent, user, header).value.context == [ListContext(agent, user, |ids|)])
  {
  }

  /** Under Integrity, a known user with a valid token always gets a list. */
  lemma ListWithIntegrity(s: Scope, agent: string, user: string, header: string)
    requires Integrity(s) && user in s.users
    requires Auth.Authenticated(header, user) == Auth.Verdict(true)
    ensures ListBookings(s, agent, user, header).Done?
  {
    if s.users[user].bookings.Some? {
      var ids := s.users[user].bookings.value;
      assert forall k :: 0 <= k < |ids| ==> ids[k] in s.bookings;
    }
  }

  /** Two booking lists with the same count report the same context, and
      different counts never do. */
  lemma ListContextCounts(agent: string, user: string, m: nat, n: nat)
    ensures ListContext(agent, user, m) == ListContext(agent, user, n) <==> m == n
  {
    var prefix := "KV get - scoped to " + agent + ".users: for ";
    var suffix := " bookings in document " + user;
    if ListContext(agent, user, m) == ListContext(agent, user, n) {
      var a := ListContext(agent, user, m);
      assert a == prefix + NatToString(m) + suffix;
      assert a == prefix + NatToString(n) + suffix;
      assert |NatToString(m)| == |NatToString(n)|;
      assert NatToString(m) == a[|prefix|..|prefix| + |NatToString(m)|];
      assert NatToString(n) == a[|prefix|..|prefix| + |NatToString(n)|];
      ParseNatToString(m);
      ParseNatToString(n);
    }
  }

  // ---------------------------------------------------------------------
  // Adding a booking

  /** With a passing token, only the first flight is written, under the given
      id; the reply lists that flight as added; without a passing token
      nothing is written, a rejected token fails with InvalidUserToken and the
      library's exception passes through unchanged. */
  lemma AddWritesFirstFlight(s: Scope, agent: string, user: string, header: string, flights: seq<Json>, id: string)
    ensures Auth.Authenticated(header, user) == Auth.Verdict(false) ==>
      AddBooking(s, agent, user, header, flights, id).0 == Fail(InvalidUserToken)
    ensures Auth.Authenticated(header, user).Raised? ==>
      AddBooking(s, agent, user, header, flights, id).0 == Raised(Auth.Authenticated(header, user).cause)
    ensures Auth.Authenticated(header, user) != Auth.Verdict(true) ==>
      AddBooking(s, agent, user, header, flights, id).1 == s
    ensures Auth.Authenticated(header, user) == Auth.Verdict(true) ==>
      && AddBooking(s, agent, user, header, flights, id).1.bookings == s.bookings[id := FirstFlight(flights)]
      && (AddBooking(s, agent, user, header, flights, id).0.Done? ==>
            AddBooking(s, agent, user, header, flights, id).0.value.data == JObj(map["added" := JArr([FirstFlight(flights)])]))
  {
  }

  /** A successful add appends the id at the end of the user's list, which
      starts empty when the field was absent; the rest of the user document and
      every other user stay as they were. */
  lemma AddAppendsId(s: Scope, agent: string, user: string, header: string, flights: seq<Json>, id: string)
    requires Auth.Authenticated(header, user) == Auth.Verdict(true) && user in s.users
    ensures var (r, s') := AddBooking(s, agent, user, header, flights, id);
      && r.Done?
      && s'.users.Keys == s.users.Keys
      && s'.users[user] == s.users[user].(bookings := Some(IdsOf(s.users[user]) + [id]))
      && (forall u :: u in s.users && u != user ==> s'.users[u] == s.users[u])
  {
  }

  /** Adding a booking keeps Integrity, whether it succeeds or not. */
  lemma AddKeepsIntegrity(s: Scope, agent: string, user: string, header: string, flights: seq<Json>, id: string)
    requires Integrity(s)
    ensures Integrity(AddBooking(s, agent, user, header, flights, id).1)
  {
    var s' := AddBooking(s, agent, user, header, flights, id).1;
    forall u, k | u in s'.users && s'.users[u].bookings.Some? && 0 <= k < |s'.users[u].bookings.value|
      ensures s'.users[u].bookings.value[k] in s'.bookings
    {
      if Auth.Authenticated(header, user) == Auth.Verdict(true) && u == user && user in s.users {
        var old_ids := IdsOf(s.users[user]);
        if k < |old_ids| {
          assert s'.users[u].bookings.value[k] == old_ids[k];
        }
      }
    }
  }

  /** Signing up keeps Integrity. */
  lemma SignUpKeepsIntegrity(s: Scope, agent: string, user: string, password: string)
    requires Integrity(s)
    ensures Integrity(SignUp(s, agent, user, password).1)
  {
  }

  /** Adding a fresh booking and then listing gives the earlier list with the
      new flight at its end. */
  lemma {:induction false} AddThenList(s: Scope, agent: string, user: string, header: string, flights: seq<Json>, id: string)
    requires Integrity(s) && id !in s.bookings && user in s.users
    requires Auth.Authenticated(header, user) == Auth.Verdict(true)
    ensures ListBookings(s, agent, user, header).Done?
    ensures var s' := AddBooking(s, agent, user, header, flights, id).1;
      ListBookings(s', agent, user, header).Done?
      && ListBookings(s', agent, user, header).value.data
        == ListBookings(s, agent, user, header).value.data + [FirstFlight(flights)]
  {
    var first := FirstFlight(flights);
    var s' := AddBooking(s, agent, user, header, flights, id).1;
    var ids := IdsOf(s.users[user]);
    ListWithIntegrity(s, agent, user, header);
    ListResolves(s, agent, user, header);
    AddAppendsId(s, agent, user, header, flights, id);
    AddWritesFirstFlight(s, agent, user, header, flights, id);
    ListResolves(s', agent, user, header);
    assert forall k :: 0 <= k < |ids| ==> ids[k] in s.bookings;
    ResolveFresh(ids, s.bookings, id, first);
    ResolveSnoc(ids, s'.bookings, id);
  }

  /** The ids a user document lists, none when the field is absent. */
  function IdsOf(doc: UserDoc): seq<string>
  {
    if doc.bookings.Some? then doc.bookings.value else []
  }

  /** With a passing token and a known user, listing is resolving the user's
      ids. */
  lemma ListResolves(s: Scope, agent: string, user: string, header: string)
    requires Auth.Authenticated(header, user) == Auth.Verdict(true) && user in s.users
    ensures ListBookings(s, agent, user, header).Done? <==> Resolve(IdsOf(s.users[user]), s.bookings).Some?
    ensures ListBookings(s, agent, user, header).Done? ==>
      ListBookings(s, agent, user, header).value.data == Resolve(IdsOf(s.users[user]), s.bookings).value
  {
  }

  /** Resolving one more id that has a document appends that document. */
  lemma ResolveSnoc(ids: seq<string>, bookings: map<string, Json>, id: string)
    requires id in bookings && Resolve(ids, bookings).Some?
    ensures Resolve(ids + [id], bookings) == Some(Resolve(ids, bookings).value + [bookings[id]])
  {
    assert (ids + [id])[..|ids|] == ids;
  }

  /** Writing a document under an id none of `ids` uses leaves their
      resolution as it was. */
  lemma ResolveFresh(ids: seq<string>, bookings: map<string, Json>, id: string, doc: Json)
    requires id !in bookings
    requires forall k :: 0 <= k < |ids| ==> ids[k] in bookings
    ensures Resolve(ids, bookings[id := doc]) == Resolve(ids, bookings)
  {
    var r := Resolve(ids, bookings[id := doc]);
    var q := Resolve(ids, bookings);
    assert r.Some? && q.Some?;
    assert forall k :: 0 <= k < |ids| ==> ids[k] != id;
    assert r.value == q.value;
  }

  /** When the user is missing, the outcome is UserNotFound but the booking
      has been written; under Integrity, and with a fresh id, no user refers
      to it: it is an orphan. */
  lemma MissingUserLeavesOrphan(s: Scope, agent: string, user: string, header: string, flights: seq<Json>, id: string)
    requires Auth.Authenticated(header, user) == Auth.Verdict(true) && user !in s.users
    ensures var (r, s') := AddBooking(s, agent, user, header, flights, id);
      && r == Fail(UserNotFound)
      && s'.users == s.users
      && id in s'.bookings && s'.bookings[id] == FirstFlight(flights)
    ensures Integrity(s) && id !in s.bookings ==>
      !Referenced(AddBooking(s, agent, user, header, flights, id).1, id)
  {
  }

  // ---------------------------------------------------------------------
  // The store

  /** Every tenant's scope, updated in place by the operations. */
  class Store {
    var tenants: map<string, Scope>

    /** The tenants exist beforehand, with empty collections. */
    constructor (names: set<string>)
      ensures tenants.Keys == names
      ensures forall t :: t in names ==> tenants[t] == Scope(map[], map[])
      ensures Valid()
    {
      tenants := map t | t in names :: Scope(map[], map[]);
    }

    /** Every tenant's scope keeps Integrity. */
    ghost predicate Valid()
      reads this
    {
      IntegrityEverywhere(tenants)
    }

    /** `get_user`; it changes nothing. */
    method GetUser(user: string, password: string, agent: string) returns (r: Outcome<Envelope<Json>>)
      requires agent in tenants
      requires Downcase(agent) == agent && Downcase(user) == user
      ensures r == Login(tenants[agent], agent, user, password)
    {
      var users := tenants[agent].users;
      if user !in users {
        return Fail(UserNotFound);
      }
      var docPass := users[user].password;
      if docPass != password {
        return Fail(PasswordMismatch);
      }
      r := Done(Envelope([LoginContext(agent, user)], TokenReply(Auth.GenToken(user))));
    }

    /** `save_user`: insert into this tenant's users only. */
    method SaveUser(user: string, password: string, agent: string) returns (r: Outcome<Envelope<Json>>)
      requires agent in tenants
      requires Downcase(agent) == agent && Downcase(user) == user
      modifies this
      ensures agent in tenants
      ensures (r, tenants[agent]) == SignUp(old(tenants[agent]), agent, user, password)
      ensures tenants == old(tenants)[agent := tenants[agent]]
      ensures old(Valid()) ==> Valid()
    {
      var scope := tenants[agent];
      if user in scope.users {
        r := Fail(UserAlreadyExists);
      } else {
        tenants := tenants[agent := scope.(users := scope.users[user := UserDoc(user, password, None)])];
        r := Done(Envelope([SignUpContext(agent, user)], TokenReply(Auth.GenToken(user))));
      }
      if old(Valid()) {
        SignUpKeepsIntegrity(scope, agent, user, password);
        ReplaceScope(old(tenants), agent, tenants[agent]);
      }
    }

    /** `get_user_flights`: fetch the bookings one id at a time. */
    method GetUserFlights(user: string, agent: string, header: string) returns (r: Outcome<Envelope<seq<Json>>>)
      requires agent in tenants
      requires Downcase(agent) == agent && Downcase(user) == user
      ensures r == ListBookings(tenants[agent], agent, user, header)
      ensures Valid() && user in tenants[agent].users && Auth.Authenticated(header, user) == Auth.Verdict(true)
        ==> r.Done?
    {
      var scope := tenants[agent];
      var auth := Auth.Authenticated(header, user);
      if auth.Raised? {
        return Raised(auth.cause);
      }
      if !auth.ok {
        return Fail(InvalidUserToken);
      }
      if user !in scope.users {
        return Fail(UserNotFound);
      }
      var rows: seq<Json> := [];
      var field := scope.users[user].bookings;
      if field.Some? {
        var ids := field.value;
        for i := 0 to |ids|
          invariant Resolve(ids[..i], scope.bookings) == Some(rows)
        {
          assert ids[..i + 1][..i] == ids[..i];
          if ids[i] !in scope.bookings {
            return Fail(UserNotFound);
          }
          rows := rows + [scope.bookings[ids[i]]];
        }
        assert ids[..|ids|] == ids;
      }
      r := Done(Envelope([ListContext(agent, user, |rows|)], rows));
    }

    /** `update_user_flights`: the booking write, then the append to the
      user's list, as two separate updates of the tenant's scope. */
    method UpdateUserFlights(user: string, agent: string, header: string, flights: seq<Json>, flightId: string)
      returns (r: Outcome<Envelope<Json>>)
      requires agent in tenants
      requires Downcase(agent) == agent && Downcase(user) == user
      modifies this
      ensures agent in tenants
      ensures (r, tenants[agent]) == AddBooking(old(tenants[agent]), agent, user, header, flights, flightId)
      ensures tenants == old(tenants)[agent := tenants[agent]]
      ensures old(Valid()) ==> Valid()
    {
      ghost var before := tenants;
      ghost var expected := AddBooking(tenants[agent], agent, user, header, flights, flightId);
      var auth := Auth.Authenticated(header, user);
      if auth.Raised? {
        r := Raised(auth.cause);
        assert expected == (r, before[agent]);
      } else if !auth.ok {
        r := Fail(InvalidUserToken);
        assert expected == (r, before[agent]);
      } else {
        assert auth == Auth.Verdict(true);
        var newFlight := if |flights| > 0 then flights[0] else JNull;
        var scope := tenants[agent];
        tenants := tenants[agent := scope.(bookings := scope.bookings[flightId := newFlight])];
        scope := tenants[agent];
        if user !in scope.users {
          r := Fail(UserNotFound);
        } else {
          var doc := scope.users[user];
          var ids := IdsOf(doc);
          tenants := tenants[agent := scope.(users := scope.users[user := doc.(bookings := Some(ids + [flightId]))])];
          r := Done(Envelope([AddContext(agent, user)], JObj(map["added" := JArr([newFlight])])));
        }
      }
      assert (r, tenants[agent]) == expected;
      if old(Valid()) {
        AddKeepsIntegrity(before[agent], agent, user, header, flights, flightId);
        ReplaceScope(before, agent, tenants[agent]);
      }
    }
  }

  /** Every tenant's scope keeps Integrity. */
  ghost predicate IntegrityEverywhere(tenants: map<string, Scope>)
  {
    forall t :: t in tenants ==> Integrity(tenants[t])
  }

  /** Replacing one tenant's scope by one that keeps Integrity keeps it in
      every tenant. */
  lemma ReplaceScope(tenants: map<string, Scope>, agent: string, scope: Scope)
    requires IntegrityEverywhere(tenants) && Integrity(scope)
    ensures IntegrityEverywhere(tenants[agent := scope])
  {
  }

  /** The same name signs up independently in two tenants. */
  method SameNameInTwoTenants(store: Store, user: string, password: string, a: string, b: string)
    returns (ra: Outcome<Envelope<Json>>, rb: Outcome<Envelope<Json>>)
    requires a != b && a in store.tenants && b in store.tenants
    requires Downcase(a) == a && Downcase(b) == b && Downcase(user) == user
    requires user !in store.tenants[a].users && user !in store.tenants[b].users
    modifies store
    ensures ra.Done? && rb.Done?
    ensures a in store.tenants && b in store.tenants
    ensures user in store.tenants[a].users && user in store.tenants[b].users
  {
    ra := store.SaveUser(user, password, a);
    rb := store.SaveUser(user, password, b);
  }
}

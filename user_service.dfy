/** UserServiceImpl: registration (createUser) and deactivation with the
    anonymisation of the user's reports (deactivateUser). */
module UserService {
  import opened Common
  import opened Domain
  import opened Repository

  /** The fields of a registration request the service reads; phone,
      address, city and birth date are copied through and not modelled. */
  datatype Registration = Registration(
    id: UserId, fullName: string, email: string, password: string, longitude: real, latitude: real)

  function Abs(x: real): real
  {
    if x < 0.0 then -x else x
  }

  /** createUser's coordinate check: |longitude| <= 180 and |latitude| <= 90. */
  predicate ValidCoordinates(longitude: real, latitude: real)
  {
    Abs(longitude) <= 180.0 && Abs(latitude) <= 90.0
  }

  /** User.builder() as createUser calls it. Lombok's @Builder does not
      apply the initializer `active = true` of User (it lacks
      @Builder.Default), so the built user has `active == false`. */
  function BuiltUserAsWritten(req: Registration, encoded: string): (u: User)
    ensures !u.active
  {
    User(req.fullName, req.email, encoded, Client, Registered, Some(Point(req.longitude, req.latitude)),
         false, None, [], [], [], [])
  }

  /** The user createUser evidently means to build: the same fields, but
      active like every user the default constructor makes. */
  function NewUser(req: Registration, encoded: string): (u: User)
    ensures u.active && u.role == Client && u.status == Registered
    ensures u.reports == [] && u.activationCodes == [] && u.likedReports == []
    ensures u.email == req.email && u.password == encoded && u.location == Some(Point(req.longitude, req.latitude))
    ensures u == BuiltUserAsWritten(req, encoded).(active := true)
  {
    User(req.fullName, req.email, encoded, Client, Registered, Some(Point(req.longitude, req.latitude)),
         true, None, [], [], [], [])
  }

  /** The user after deactivateUser has switched it off. */
  function Deactivated(u: User, now: Time): (u': User)
    ensures !u'.active && u'.status == Inactive && u'.deactivationDate == Some(now)
    ensures u' == u.(active := u'.active, status := u'.status, deactivationDate := u'.deactivationDate)
  {
    u.(active := false, status := Inactive, deactivationDate := Some(now))
  }

  /** One report after the anonymisation loop: a report of the user that
      is not anonymous yet loses its owner; every other report is left. */
  function Anonymized(r: Report, userId: UserId): Report
  {
    if r.idUser == userId && !r.anonymous then r.(anonymous := true, status := Anonymous, idUser := AnonymousOwner)
    else r
  }

  function AnonymizedAll(reports: map<ReportId, Report>, userId: UserId): (m: map<ReportId, Report>)
    ensures m.Keys == reports.Keys
  {
    map id | id in reports :: Anonymized(reports[id], userId)
  }

  /** What the anonymisation does to the collection: the user's reports
      that were not anonymous become anonymous, ANONYMOUS and owned by
      "ANONYMOUS"; all other reports are unchanged; and (unless the user's
      id is "ANONYMOUS" itself) the only reports still carrying the user's
      id are those that were already anonymous. */
  lemma AnonymizationEffect(reports: map<ReportId, Report>, userId: UserId)
    ensures var m := AnonymizedAll(reports, userId);
      forall id :: id in reports ==>
        && (reports[id].idUser == userId && !reports[id].anonymous ==>
              m[id] == reports[id].(anonymous := true, status := Anonymous, idUser := AnonymousOwner))
        && (reports[id].idUser != userId || reports[id].anonymous ==> m[id] == reports[id])
        && (userId != AnonymousOwner && m[id].idUser == userId ==> reports[id].anonymous)
        && m[id].anonymous == (reports[id].anonymous || reports[id].idUser == userId)
  {
  }

  /** Anonymising twice is anonymising once. */
  lemma AnonymizationIdempotent(reports: map<ReportId, Report>, userId: UserId)
    ensures AnonymizedAll(AnonymizedAll(reports, userId), userId) == AnonymizedAll(reports, userId)
  {
    var once := AnonymizedAll(reports, userId);
    forall id | id in once
      ensures AnonymizedAll(once, userId)[id] == once[id]
    {
      assert once[id] == Anonymized(reports[id], userId);
    }
  }

  /** Anonymisation keeps every report's invariant. */
  lemma AnonymizationKeepsInvariant(reports: map<ReportId, Report>, userId: UserId)
    requires forall id :: id in reports ==> ReportInvariant(reports[id])
    ensures forall id :: id in AnonymizedAll(reports, userId) ==> ReportInvariant(AnonymizedAll(reports, userId)[id])
  {
  }

  /** The outcome of deactivateUser and the users and reports it leaves. */
  datatype Deactivation = Deactivation(outcome: Outcome, users: map<UserId, User>, reports: map<ReportId, Report>)

  /** deactivateUser on the stored users and reports: an unknown user is
      not found; an inactive user returns early with nothing changed;
      otherwise the user is switched off and its reports anonymised. */
  function Deactivate(users: map<UserId, User>, reports: map<ReportId, Report>, userId: UserId,
                      now: Time): (d: Deactivation)
    ensures d.outcome == (if userId in users then Pass else Fail(NotFound))
    ensures d.users.Keys == users.Keys && d.reports.Keys == reports.Keys
    ensures forall id :: id in users && id != userId ==> d.users[id] == users[id]
    ensures userId in users ==> !d.users[userId].active
    ensures !(userId in users && users[userId].active) ==> d.users == users && d.reports == reports
    ensures userId in users && users[userId].active ==>
      d.users[userId] == Deactivated(users[userId], now) &&
      forall id :: id in reports ==> d.reports[id] == Anonymized(reports[id], userId)
  {
    if userId !in users then Deactivation(Fail(NotFound), users, reports)
    else if !users[userId].active then Deactivation(Pass, users, reports)
    else Deactivation(Pass, users[userId := Deactivated(users[userId], now)], AnonymizedAll(reports, userId))
  }

  /** Deactivating a user a second time changes nothing. */
  lemma DeactivateIdempotent(users: map<UserId, User>, reports: map<ReportId, Report>, userId: UserId,
                             now: Time, later: Time)
    ensures var d := Deactivate(users, reports, userId, now);
      Deactivate(d.users, d.reports, userId, later) == d
  {
  }

  /** The discrepancy: a user saved as createUser builds it is inactive from
      the start, so deactivateUser returns at its first check: the user
      stays REGISTERED and active is never cleared by it, and not one of the
      user's reports is anonymised. */
  lemma BuiltUserIsNeverDeactivated(users: map<UserId, User>, reports: map<ReportId, Report>,
                                    req: Registration, encoded: string, now: Time)
    ensures var users' := users[req.id := BuiltUserAsWritten(req, encoded)];
      Deactivate(users', reports, req.id, now) == Deactivation(Pass, users', reports)
    ensures var users' := users[req.id := BuiltUserAsWritten(req, encoded)];
      Deactivate(users', reports, req.id, now).users[req.id].status == Registered
  {
  }

  /** With the corrected builder the first deactivation switches the user
      off and anonymises its reports, after which (unless its id is
      "ANONYMOUS") the only reports still carrying its id are those that
      were already anonymous. */
  lemma NewUserIsDeactivatedOnce(users: map<UserId, User>, reports: map<ReportId, Report>,
                                 req: Registration, encoded: string, now: Time)
    ensures var users' := users[req.id := NewUser(req, encoded)];
      var d := Deactivate(users', reports, req.id, now);
      && d.outcome == Pass
      && d.users == users'[req.id := Deactivated(NewUser(req, encoded), now)]
      && d.users[req.id].status == Inactive
      && d.reports == AnonymizedAll(reports, req.id)
    ensures var d := Deactivate(users[req.id := NewUser(req, encoded)], reports, req.id, now);
      req.id != AnonymousOwner ==>
        forall id :: id in reports && d.reports[id].idUser == req.id ==> reports[id].anonymous
  {
    AnonymizationEffect(reports, req.id);
  }

  /** Adding a user whose address no user that is not DELETED has keeps the
      addresses unique, even when the id overwrites an existing user. */
  lemma {:induction false} FreshEmailKeepsUnique(users: map<UserId, User>, id: UserId, u: User)
    requires EmailsUnique(users)
    requires !EmailInUse(users, u.email)
    ensures EmailsUnique(users[id := u])
  {
    var users' := users[id := u];
    forall a, b | a in users' && b in users' && a != b && users'[a].status != Deleted && users'[b].status != Deleted
      ensures users'[a].email != users'[b].email
    {
      if a == id {
        assert b in users && users[b] == users'[b];
      } else if b == id {
        assert a in users && users[a] == users'[a];
      } else {
        assert users[a] == users'[a] && users[b] == users'[b];
      }
    }
  }

  /** The forEach of deactivateUser over the reports findByIdUser loads,
      before saveAll writes them back. */
  method AnonymizeReports(before: map<ReportId, Report>, userId: UserId) returns (reports: map<ReportId, Report>)
    ensures reports == AnonymizedAll(before, userId)
  {
    var todo := set id | id in before && before[id].idUser == userId;
    reports := before;
    while todo != {}
      invariant todo <= before.Keys
      invariant reports.Keys == before.Keys
      invariant forall id :: id in before ==>
        reports[id] == if id in todo then before[id] else Anonymized(before[id], userId)
      decreases todo
    {
      var id :| id in todo;
      var r := reports[id];
      if !r.anonymous {
        reports := reports[id := r.(anonymous := true, status := Anonymous, idUser := AnonymousOwner)];
      }
      todo := todo - {id};
    }
  }

  class Service {
    const store: Store
    /** BCryptPasswordEncoder.encode, left abstract. */
    const encode: string -> string

    constructor(store: Store, encode: string -> string)
      ensures this.store == store && this.encode == encode
    {
      this.store := store;
      this.encode := encode;
    }

    /** createUser: the address check comes before the coordinate check.
        The user is saved under the requested id, replacing any user with
        that id. The user saved is the active one createUser evidently
        means to build (NewUser), not BuiltUserAsWritten. */
    method CreateUser(req: Registration) returns (res: Result<User>)
      requires store.Valid()
      modifies store`users
      ensures store.Valid()
      ensures EmailInUse(old(store.users), req.email) ==> res == Err(ValueConflict)
      ensures !EmailInUse(old(store.users), req.email) && !ValidCoordinates(req.longitude, req.latitude) ==>
        res == Err(IllegalArgument)
      ensures res.Ok? <==> !EmailInUse(old(store.users), req.email) && ValidCoordinates(req.longitude, req.latitude)
      ensures res.Ok? ==> res.value == NewUser(req, encode(req.password)) && store.users == old(store.users)[req.id := res.value]
      ensures res.Err? ==> store.users == old(store.users)
      ensures old(EmailsUnique(store.users)) ==> EmailsUnique(store.users)
    {
      var existing := store.FindByEmail(req.email);
      if existing.Some? {
        return Err(ValueConflict);
      }
      if Abs(req.longitude) > 180.0 || Abs(req.latitude) > 90.0 {
        return Err(IllegalArgument);
      }
      var u := NewUser(req, encode(req.password));
      if EmailsUnique(store.users) {
        FreshEmailKeepsUnique(store.users, req.id, u);
      }
      store.users := store.users[req.id := u];
      res := Ok(u);
    }

    /** deactivateUser: switches an active user off and anonymises, one by
        one, the reports whose owner is the user. */
    method DeactivateUser(userId: UserId, now: Time) returns (o: Outcome)
      requires store.Valid()
      modifies store`users, store`reports
      ensures store.Valid()
      ensures o == (if userId in old(store.users) then Pass else Fail(NotFound))
      ensures userId !in old(store.users) || !old(store.users)[userId].active ==>
        store.users == old(store.users) && store.reports == old(store.reports)
      ensures userId in old(store.users) && old(store.users)[userId].active ==>
        && store.users == old(store.users)[userId := Deactivated(old(store.users)[userId], now)]
        && store.reports == AnonymizedAll(old(store.reports), userId)
      ensures Deactivation(o, store.users, store.reports) == Deactivate(old(store.users), old(store.reports), userId, now)
    {
      if userId !in store.users {
        return Fail(NotFound);
      }
      var user := store.users[userId];
      if !user.active {
        return Pass;
      }
      store.users := store.users[userId := Deactivated(user, now)];
      AnonymizationKeepsInvariant(store.reports, userId);
      store.reports := AnonymizeReports(store.reports, userId);
      o := Pass;
    }
  }
}

/** AuthServiceImpl: login, which re-sends or issues an activation code to a
    user that is not ACTIVE yet, account activation, and the password reset
    by one-time code. Codes live fifteen minutes; a code "has not expired"
    when its expiration instant is strictly after `now` (Date.after). */
module AuthService {
  import opened Common
  import opened Domain
  import opened Repository

  /** A code login may send again: unused and not expired. */
  predicate Reusable(c: OneTimeCode, now: Time)
  {
    !c.used && c.expirationDate > now
  }

  /** A code activateUser accepts: the right text and unused; the
      expiration is not looked at. */
  predicate ActivationAccepts(c: OneTimeCode, code: string)
  {
    c.code == code && !c.used
  }

  /** A code resetPassword accepts: the right text, unused, not expired. */
  predicate ResetAccepts(c: OneTimeCode, code: string, now: Time)
  {
    c.code == code && !c.used && c.expirationDate > now
  }

  function FirstReusable(codes: seq<OneTimeCode>, now: Time): (r: Option<nat>)
    ensures r.Some? ==> r.value < |codes| && Reusable(codes[r.value], now)
    ensures r.Some? ==> forall j :: 0 <= j < r.value ==> !Reusable(codes[j], now)
    ensures r.None? <==> forall j :: 0 <= j < |codes| ==> !Reusable(codes[j], now)
  {
    FirstIndex(codes, c => Reusable(c, now))
  }

  function FirstActivationMatch(codes: seq<OneTimeCode>, code: string): (r: Option<nat>)
    ensures r.Some? ==> r.value < |codes| && ActivationAccepts(codes[r.value], code)
    ensures r.Some? ==> forall j :: 0 <= j < r.value ==> !ActivationAccepts(codes[j], code)
    ensures r.None? <==> forall j :: 0 <= j < |codes| ==> !ActivationAccepts(codes[j], code)
  {
    FirstIndex(codes, c => ActivationAccepts(c, code))
  }

  function FirstResetMatch(codes: seq<OneTimeCode>, code: string, now: Time): (r: Option<nat>)
    ensures r.Some? ==> r.value < |codes| && ResetAccepts(codes[r.value], code, now)
    ensures r.Some? ==> forall j :: 0 <= j < r.value ==> !ResetAccepts(codes[j], code, now)
    ensures r.None? <==> forall j :: 0 <= j < |codes| ==> !ResetAccepts(codes[j], code, now)
  {
    FirstIndex(codes, c => ResetAccepts(c, code, now))
  }

  /** A code created now: unused, expiring fifteen minutes later. */
  function IssueCode(code: string, now: Time): (c: OneTimeCode)
    ensures c.code == code && !c.used && c.creationDate == now && c.expirationDate == now + CodeLifetime
  {
    OneTimeCode(code, now, now + CodeLifetime, false)
  }

  /** setUsed(true) on the code at index k. */
  function MarkUsed(codes: seq<OneTimeCode>, k: nat): (r: seq<OneTimeCode>)
    requires k < |codes|
    ensures |r| == |codes| && r[k] == codes[k].(used := true)
    ensures forall j :: 0 <= j < |codes| && j != k ==> r[j] == codes[j]
  {
    codes[k := codes[k].(used := true)]
  }

  /** What login does with the activation codes of a user that is not
      ACTIVE: the list afterwards and the code it mails. `newCode` is the
      random code it would create. */
  function LoginCodes(codes: seq<OneTimeCode>, now: Time, newCode: string): (seq<OneTimeCode>, string)
  {
    match FirstReusable(codes, now)
    case Some(k) => (codes, codes[k].code)
    case None => (codes + [IssueCode(newCode, now)], newCode)
  }

  /** Login either re-sends the first reusable code and keeps the list, or,
      when there is none, appends exactly one new code and sends it; either
      way the code sent is reusable in the list afterwards. */
  lemma LoginReusesOrIssues(codes: seq<OneTimeCode>, now: Time, newCode: string)
    ensures var (codes', sent) := LoginCodes(codes, now, newCode);
      && ((exists k :: 0 <= k < |codes| && Reusable(codes[k], now)) ==>
            && codes' == codes
            && exists k :: 0 <= k < |codes| && Reusable(codes[k], now) && sent == codes[k].code
                           && forall j :: 0 <= j < k ==> !Reusable(codes[j], now))
      && ((forall k :: 0 <= k < |codes| ==> !Reusable(codes[k], now)) ==>
            codes' == codes + [IssueCode(newCode, now)] && sent == newCode)
      && exists k :: 0 <= k < |codes'| && codes'[k].code == sent && Reusable(codes'[k], now)
  {
    var (codes', sent) := LoginCodes(codes, now, newCode);
    match FirstReusable(codes, now)
    case Some(k) =>
      assert codes'[k].code == sent && Reusable(codes'[k], now);
    case None =>
      assert codes'[|codes|].code == sent && Reusable(codes'[|codes|], now);
  }

  /** A second login at the same instant sends the same code and adds none. */
  lemma SecondLoginAddsNoCode(codes: seq<OneTimeCode>, now: Time, newCode: string, newCode2: string)
    ensures var (codes', sent) := LoginCodes(codes, now, newCode);
      LoginCodes(codes', now, newCode2) == (codes', sent)
  {
    var (codes', sent) := LoginCodes(codes, now, newCode);
    if FirstReusable(codes, now).None? {
      assert Reusable(codes'[|codes|], now);
      assert FirstReusable(codes', now) == Some(|codes|);
    }
  }

  /** The quirk at activateUser: a matching unused code is accepted however
      long ago it expired. */
  lemma ExpiredActivationCodeAccepted(codes: seq<OneTimeCode>, k: nat, now: Time)
    requires k < |codes| && !codes[k].used && codes[k].expirationDate <= now
    ensures FirstActivationMatch(codes, codes[k].code).Some?
    ensures !Reusable(codes[k], now)
  {
  }

  /** A freshly issued reset code is accepted exactly until its fifteen
      minutes are over. */
  lemma ResetCodeLifetime(code: string, issuedAt: Time, now: Time)
    ensures ResetAccepts(IssueCode(code, issuedAt), code, now) <==> now < issuedAt + CodeLifetime
  {
  }

  /** Each text appears at most once among the codes. */
  predicate CodeOccursOnce(codes: seq<OneTimeCode>, code: string)
  {
    forall i, j :: 0 <= i < j < |codes| && codes[i].code == code ==> codes[j].code != code
  }

  /** A code used once cannot be used again, as long as its text is not
      duplicated in the list (two codes drawn with the same six random
      characters would each work once). */
  lemma ActivationCodeSingleUse(codes: seq<OneTimeCode>, code: string)
    requires CodeOccursOnce(codes, code)
    requires FirstActivationMatch(codes, code).Some?
    ensures FirstActivationMatch(MarkUsed(codes, FirstActivationMatch(codes, code).value), code).None?
  {
    var k := FirstActivationMatch(codes, code).value;
    var codes' := MarkUsed(codes, k);
    assert forall j :: 0 <= j < |codes'| && j != k ==> codes'[j] == codes[j];
  }

  lemma ResetCodeSingleUse(codes: seq<OneTimeCode>, code: string, now: Time, later: Time)
    requires CodeOccursOnce(codes, code)
    requires FirstResetMatch(codes, code, now).Some?
    ensures FirstResetMatch(MarkUsed(codes, FirstResetMatch(codes, code, now).value), code, later).None?
  {
    var k := FirstResetMatch(codes, code, now).value;
    var codes' := MarkUsed(codes, k);
    assert forall j :: 0 <= j < |codes'| && j != k ==> codes'[j] == codes[j];
  }

  /** The user findByEmail answers with. */
  predicate Holds(users: map<UserId, User>, id: UserId, email: string)
  {
    id in users && users[id].status != Deleted && users[id].email == email
  }

  class Service {
    const store: Store
    const outbox: Outbox
    /** PasswordEncoder.encode and PasswordEncoder.matches(raw, encoded), left abstract. */
    const encode: string -> string
    const matches: (string, string) -> bool

    constructor(store: Store, outbox: Outbox, encode: string -> string, matches: (string, string) -> bool)
      ensures this.store == store && this.outbox == outbox && this.encode == encode && this.matches == matches
    {
      this.store := store;
      this.outbox := outbox;
      this.encode := encode;
      this.matches := matches;
    }

    /** login: Ok carries the id of the user that signed in. `newCode` is
        the random six-character code a new activation code would get, and
        `delivered` says whether the mail server accepted the activation
        e-mail; a refused e-mail surfaces as the mailer's exception instead
        of the "not activated" one, after any new code is saved. */
    method Login(email: string, password: string, now: Time, newCode: string, delivered: bool)
      returns (res: Result<UserId>)
      requires EmailsUnique(store.users)
      modifies store`users, outbox`sent
      ensures EmailsUnique(store.users)
      ensures !EmailInUse(old(store.users), email) ==> res == Err(Auth(UnknownEmail)) && unchanged(store, outbox)
      ensures forall id :: Holds(old(store.users), id, email) && old(store.users)[id].status != Active ==>
        var u := old(store.users)[id];
        var (codes, sent) := LoginCodes(u.activationCodes, now, newCode);
        && res == (if delivered then Err(Auth(NotActivated)) else Err(MailFailed))
        && store.users == old(store.users)[id := u.(activationCodes := codes)]
        && outbox.sent == old(outbox.sent) + (if delivered then [ActivationEmail(u.email, sent)] else [])
      ensures forall id :: Holds(old(store.users), id, email) && old(store.users)[id].status == Active ==>
        && res == (if matches(password, old(store.users)[id].password) then Ok(id) else Err(Auth(WrongPassword)))
        && unchanged(store, outbox)
    {
      var found := store.FindByEmail(email);
      if found.None? {
        return Err(Auth(UnknownEmail));
      }
      var id := found.value;
      var u := store.users[id];
      if u.status != Active {
        var k := FirstReusable(u.activationCodes, now);
        var sent;
        if k.Some? {
          sent := u.activationCodes[k.value].code;
        } else {
          sent := newCode;
          var u' := u.(activationCodes := u.activationCodes + [IssueCode(newCode, now)]);
          SameLoginKeepsEmailsUnique(store.users, id, u');
          store.users := store.users[id := u'];
        }
        if !delivered {
          return Err(MailFailed);
        }
        outbox.sent := outbox.sent + [ActivationEmail(u.email, sent)];
        return Err(Auth(NotActivated));
      }
      if !matches(password, u.password) {
        return Err(Auth(WrongPassword));
      }
      res := Ok(id);
    }

    /** activateUser: marks the first matching unused code used and makes
        the user ACTIVE. */
    method ActivateUser(email: string, code: string) returns (o: Outcome)
      requires EmailsUnique(store.users)
      modifies store`users
      ensures EmailsUnique(store.users)
      ensures !EmailInUse(old(store.users), email) ==> o == Fail(ValueConflict) && store.users == old(store.users)
      ensures forall id :: Holds(old(store.users), id, email) ==>
        var u := old(store.users)[id];
        && (FirstActivationMatch(u.activationCodes, code).None? ==>
              o == Fail(ValueConflict) && store.users == old(store.users))
        && (FirstActivationMatch(u.activationCodes, code).Some? ==>
              && o == Pass
              && store.users == old(store.users)[id := u.(
                   activationCodes := MarkUsed(u.activationCodes, FirstActivationMatch(u.activationCodes, code).value),
                   status := Active)])
    {
      var found := store.FindByEmail(email);
      if found.None? {
        return Fail(ValueConflict);
      }
      var id := found.value;
      var u := store.users[id];
      var k := FirstActivationMatch(u.activationCodes, code);
      if k.None? {
        return Fail(ValueConflict);
      }
      var u' := u.(activationCodes := MarkUsed(u.activationCodes, k.value), status := Active);
      SameLoginKeepsEmailsUnique(store.users, id, u');
      store.users := store.users[id := u'];
      o := Pass;
    }

    /** sendPasswordResetCode: appends one new reset code and mails it; the
        code is saved before the e-mail goes out, so a refused e-mail
        (`delivered` false) fails the call with the code already stored. */
    method SendPasswordResetCode(email: string, now: Time, newCode: string, delivered: bool) returns (o: Outcome)
      requires EmailsUnique(store.users)
      modifies store`users, outbox`sent
      ensures EmailsUnique(store.users)
      ensures !EmailInUse(old(store.users), email) ==> o == Fail(Auth(UnknownEmail)) && unchanged(store, outbox)
      ensures forall id :: Holds(old(store.users), id, email) ==>
        var u := old(store.users)[id];
        && o == (if delivered then Pass else Fail(MailFailed))
        && store.users == old(store.users)[id := u.(resetCodes := u.resetCodes + [IssueCode(newCode, now)])]
        && outbox.sent == old(outbox.sent) + (if delivered then [ResetEmail(u.email, newCode)] else [])
    {
      var found := store.FindByEmail(email);
      if found.None? {
        return Fail(Auth(UnknownEmail));
      }
      var id := found.value;
      var u := store.users[id];
      var u' := u.(resetCodes := u.resetCodes + [IssueCode(newCode, now)]);
      SameLoginKeepsEmailsUnique(store.users, id, u');
      store.users := store.users[id := u'];
      if !delivered {
        return Fail(MailFailed);
      }
      outbox.sent := outbox.sent + [ResetEmail(u.email, newCode)];
      o := Pass;
    }

    /** resetPassword: uses up the first matching valid code and stores the
        new password encoded. */
    method ResetPassword(email: string, code: string, newPassword: string, now: Time) returns (o: Outcome)
      requires EmailsUnique(store.users)
      modifies store`users
      ensures EmailsUnique(store.users)
      ensures !EmailInUse(old(store.users), email) ==> o == Fail(Auth(UnknownEmail)) && store.users == old(store.users)
      ensures forall id :: Holds(old(store.users), id, email) ==>
        var u := old(store.users)[id];
        && (FirstResetMatch(u.resetCodes, code, now).None? ==>
              o == Fail(Auth(InvalidCode)) && store.users == old(store.users))
        && (FirstResetMatch(u.resetCodes, code, now).Some? ==>
              && o == Pass
              && store.users == old(store.users)[id := u.(
                   resetCodes := MarkUsed(u.resetCodes, FirstResetMatch(u.resetCodes, code, now).value),
                   password := encode(newPassword))])
    {
      var found := store.FindByEmail(email);
      if found.None? {
        return Fail(Auth(UnknownEmail));
      }
      var id := found.value;
      var u := store.users[id];
      var k := FirstResetMatch(u.resetCodes, code, now);
      if k.None? {
        return Fail(Auth(InvalidCode));
      }
      var u' := u.(resetCodes := MarkUsed(u.resetCodes, k.value), password := encode(newPassword));
      SameLoginKeepsEmailsUnique(store.users, id, u');
      store.users := store.users[id := u'];
      o := Pass;
    }
  }
}

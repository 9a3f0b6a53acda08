/** Shared vocabulary of the services: optional values, results, the error
    taxonomy the services raise, time units and a few sequence helpers. */
module Common {

  datatype Option<+T> = None | Some(value: T)

  /** Which guard raised a ForbiddenActionException; the tag keeps the order
      of the guards observable. */
  datatype ForbiddenReason =
    | DeadlineExpired      // a REJECTED report whose resubmission deadline has passed
    | NotOwner             // the caller does not own the report
    | NotOwnerNorAdmin     // deletion by someone who is neither owner nor admin
    | NotPending           // the report is not PENDING
    | NotRejected          // resubmission of a report that is not REJECTED
    | NotRejectable        // rejection of a report that is neither PENDING nor VERIFIED
    | NotAdmin             // an administrator-only operation called by a client
    | ResubmissionLimit    // the report has been resubmitted three times already

  /** Why an AuthException was raised. */
  datatype AuthReason = UnknownEmail | NotActivated | WrongPassword | InvalidCode

  /** The exceptions of the services, one constructor per exception class
      (and per message where the message carries data). */
  datatype Error =
    | NotFound                              // ResourceNotFoundException (report, user, category)
    | CategoriesNotFound(ids: seq<nat>)     // ResourceNotFoundException listing every unknown category id
    | Forbidden(reason: ForbiddenReason)    // ForbiddenActionException
    | AccessDenied                          // Spring's AccessDeniedException
    | BusinessRule                          // BusinessException of the report state machine
    | CategoryInUse(usage: nat)             // BusinessException carrying how many reports use a category
    | IllegalArgument                       // IllegalArgumentException
    | ValueConflict                         // ValueConflictException
    | Auth(why: AuthReason)                 // AuthException
    | UploadFailed                          // RuntimeException thrown by the image upload
    | MailFailed                            // RuntimeException thrown when an e-mail cannot be sent

  datatype Result<+T> = Ok(value: T) | Err(error: Error)

  datatype Outcome = Pass | Fail(error: Error)

  /** Instants are milliseconds on one clock; `now` is always a parameter. */
  type Time = int

  const MillisPerMinute: int := 60 * 1000
  const MillisPerDay: int := 24 * 60 * MillisPerMinute

  /** The calendar day of an instant (LocalDateTime.toLocalDate). */
  function Day(t: Time): int
  {
    t / MillisPerDay
  }

  /** `s == null || s.trim().isEmpty()`: trim drops every character up to
      U+0020, so a string is blank when it holds only such characters. */
  predicate Blank(s: Option<string>)
  {
    s.None? || forall i :: 0 <= i < |s.value| ==> s.value[i] <= ' '
  }

  predicate NoDuplicates<T(==)>(s: seq<T>)
  {
    forall i, j :: 0 <= i < j < |s| ==> s[i] != s[j]
  }

  /** List.remove(Object): drops the first occurrence of x, if any. */
  function RemoveFirst<T(==)>(s: seq<T>, x: T): (r: seq<T>)
    ensures x !in s ==> r == s
    ensures x in s ==> |r| == |s| - 1
    ensures multiset(r) == multiset(s) - multiset{x}
  {
    if s == [] then []
    else
      assert s == [s[0]] + s[1..];
      if s[0] == x then s[1..] else [s[0]] + RemoveFirst(s[1..], x)
  }

  /** RemoveFirst drops the first occurrence of x and nothing else: when x
      first occurs at k, the result is s without index k, in order. */
  lemma RemoveFirstAt<T>(s: seq<T>, x: T, k: nat)
    requires k < |s| && s[k] == x && x !in s[..k]
    ensures RemoveFirst(s, x) == s[..k] + s[k + 1..]
  {
    assert forall i :: 0 <= i < k ==> s[i] != x by {
      forall i | 0 <= i < k ensures s[i] != x { assert s[i] == s[..k][i]; }
    }
    RemoveFirstBefore(s, x, k);
  }

  lemma {:induction false} RemoveFirstBefore<T>(s: seq<T>, x: T, k: nat)
    requires k < |s| && s[k] == x && forall i :: 0 <= i < k ==> s[i] != x
    ensures RemoveFirst(s, x) == s[..k] + s[k + 1..]
  {
    if k == 0 {
      assert s[0] == x;
    } else {
      RemoveFirstBefore(s[1..], x, k - 1);
      assert s[0] != x;
      assert RemoveFirst(s, x) == [s[0]] + RemoveFirst(s[1..], x);
      DropAfterHead(s, k);
    }
  }

  lemma DropAfterHead<T>(s: seq<T>, k: nat)
    requires 0 < k < |s|
    ensures s[..k] + s[k + 1..] == [s[0]] + (s[1..][..k - 1] + s[1..][k..])
  {
    assert s[..k] == [s[0]] + s[1..][..k - 1];
    assert s[k + 1..] == s[1..][k..];
  }

  /** Removing x leaves the membership of every other value as it was. */
  lemma RemoveFirstOthers<T>(s: seq<T>, x: T, y: T)
    requires y != x
    ensures y in RemoveFirst(s, x) <==> y in s
  {
    assert multiset(RemoveFirst(s, x))[y] == multiset(s)[y];
  }

  /** Removing an element from a list without duplicates removes it
      entirely and keeps the list free of duplicates. */
  lemma {:induction false} RemoveFirstNoDuplicates<T>(s: seq<T>, x: T)
    requires NoDuplicates(s)
    ensures NoDuplicates(RemoveFirst(s, x)) && x !in RemoveFirst(s, x)
  {
    if s != [] {
      var t := s[1..];
      assert NoDuplicates(t) by {
        forall i, j | 0 <= i < j < |t| ensures t[i] != t[j] {
          assert t[i] == s[i + 1] && t[j] == s[j + 1];
        }
      }
      assert s[0] !in t by {
        forall j | 0 <= j < |t| ensures t[j] != s[0] {
          assert t[j] == s[j + 1];
        }
      }
      if s[0] != x {
        RemoveFirstNoDuplicates(t, x);
        var rest := RemoveFirst(t, x);
        assert s[0] !in rest by {
          if s[0] in rest {
            RemovedFrom(t, x, s[0]);
          }
        }
        ConsNoDuplicates(s[0], rest);
      }
    }
  }

  lemma RemovedFrom<T>(s: seq<T>, x: T, y: T)
    requires y in RemoveFirst(s, x)
    ensures y in s
  {
    assert y in multiset(RemoveFirst(s, x));
  }

  lemma ConsNoDuplicates<T>(x: T, s: seq<T>)
    requires NoDuplicates(s) && x !in s
    ensures NoDuplicates([x] + s)
  {
    var r := [x] + s;
    forall i, j | 0 <= i < j < |r| ensures r[i] != r[j] {
      assert r[j] == s[j - 1];
      if i > 0 {
        assert r[i] == s[i - 1];
      }
    }
  }

  /** Stream.filter(p).findFirst(), as the index of the first match. */
  function FirstIndex<T>(s: seq<T>, p: T -> bool): (r: Option<nat>)
    ensures r.Some? ==> r.value < |s| && p(s[r.value])
    ensures r.Some? ==> forall j :: 0 <= j < r.value ==> !p(s[j])
    ensures r.None? <==> forall j :: 0 <= j < |s| ==> !p(s[j])
  {
    if s == [] then None
    else if p(s[0]) then Some(0)
    else match FirstIndex(s[1..], p)
      case None => None
      case Some(k) => Some(k + 1)
  }
}

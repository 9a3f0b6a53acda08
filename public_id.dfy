/** The public id of an image hosted on Cloudinary, recovered from its URL
    (CloudinaryServiceImpl.extractPublicIdFromUrl): split the URL on
    "/upload/", drop a leading "v<digits>/" version segment from the second
    piece, and cut the extension off at the last dot. */
module CloudinaryPublicId {
  import opened Common

  const UploadMarker: string := "/upload/"

  /** p occurs in s at index i. */
  predicate At(s: string, i: nat, p: string)
  {
    i + |p| <= |s| && s[i..i + |p|] == p
  }

  /** String.indexOf(p, from) that answers None for -1. */
  function IndexOf(s: string, p: string, from: nat): (r: Option<nat>)
    requires from <= |s|
    decreases |s| - from
    ensures r.Some? ==> from <= r.value && r.value + |p| <= |s|
  {
    if At(s, from, p) then Some(from)
    else if from == |s| then None
    else IndexOf(s, p, from + 1)
  }

  /** indexOf finds the first occurrence at or after `from`, and nothing
      exactly when there is none. */
  lemma {:induction false} IndexOfFirst(s: string, p: string, from: nat)
    requires from <= |s|
    decreases |s| - from
    ensures var r := IndexOf(s, p, from);
      && (r.Some? ==> At(s, r.value, p) && forall j :: from <= j < r.value ==> !At(s, j, p))
      && (r.None? <==> forall j :: from <= j <= |s| ==> !At(s, j, p))
  {
    if !At(s, from, p) && from < |s| {
      IndexOfFirst(s, p, from + 1);
    }
  }

  /** The pieces of s between the leftmost non-overlapping occurrences of sep,
      scanning left to right, empty pieces included. */
  function Pieces(s: string, sep: string): (r: seq<string>)
    requires |sep| > 0
    decreases |s|
    ensures |r| >= 1
  {
    match IndexOf(s, sep, 0)
    case None => [s]
    case Some(i) => [s[..i]] + Pieces(s[i + |sep|..], sep)
  }

  function DropTrailingEmpty(parts: seq<string>): (r: seq<string>)
    ensures |r| <= |parts| && r == parts[..|r|]
    ensures r == [] || r[|r| - 1] != ""
    ensures forall k :: |r| <= k < |parts| ==> parts[k] == ""
  {
    if |parts| > 0 && parts[|parts| - 1] == "" then DropTrailingEmpty(parts[..|parts| - 1]) else parts
  }

  /** String.split(sep) for a separator without regex metacharacters: when
      sep does not occur the result is the string itself; otherwise the pieces
      with the trailing empty ones removed. */
  function Split(s: string, sep: string): seq<string>
    requires |sep| > 0
  {
    var pieces := Pieces(s, sep);
    if |pieces| == 1 then pieces else DropTrailingEmpty(pieces)
  }

  predicate IsDigit(c: char)
  {
    '0' <= c <= '9'
  }

  /** The first index at or after i that does not hold a digit. */
  function DigitsEnd(s: string, i: nat): (j: nat)
    requires i <= |s|
    decreases |s| - i
    ensures i <= j <= |s|
    ensures forall k :: i <= k < j ==> IsDigit(s[k])
    ensures j < |s| ==> !IsDigit(s[j])
  {
    if i < |s| && IsDigit(s[i]) then DigitsEnd(s, i + 1) else i
  }

  /** path.replaceFirst("^v\\d+/", ""). */
  function StripVersion(path: string): (r: string)
    ensures |r| <= |path| && r == path[|path| - |r|..]
  {
    if |path| > 0 && path[0] == 'v' then
      var j := DigitsEnd(path, 1);
      if j > 1 && j < |path| && path[j] == '/' then path[j + 1..] else path
    else path
  }

  /** String.lastIndexOf(c), -1 when c does not occur. */
  function LastIndexOf(s: string, c: char): (k: int)
    ensures -1 <= k < |s|
    ensures k >= 0 ==> s[k] == c && forall j :: k < j < |s| ==> s[j] != c
    ensures k < 0 <==> c !in s
  {
    if s == [] then -1
    else if s[|s| - 1] == c then |s| - 1
    else
      assert s == s[..|s| - 1] + [s[|s| - 1]];
      LastIndexOf(s[..|s| - 1], c)
  }

  /** The public id carried by the path after "/upload/"; None where
      substring(0, -1) throws and the exception is swallowed. */
  function PublicIdOfPath(path: string): Option<string>
  {
    var p := StripVersion(path);
    var k := LastIndexOf(p, '.');
    if k < 0 then None else Some(p[..k])
  }

  function ExtractPublicIdFromUrl(url: string): Option<string>
  {
    var parts := Split(url, UploadMarker);
    if |parts| > 1 then PublicIdOfPath(parts[1]) else None
  }

  // ---------------------------------------------------------------------
  // Properties

  /** Pieces when sep is found at i: the text before it, then the pieces of the rest. */
  lemma PiecesAt(s: string, sep: string, i: nat)
    requires |sep| > 0 && IndexOf(s, sep, 0) == Some(i)
    ensures Pieces(s, sep) == [s[..i]] + Pieces(s[i + |sep|..], sep)
  {
    var rest := s[i + |sep|..];
    assert Pieces(s, sep) == [s[..i]] + Pieces(rest, sep);
  }

  /** A URL without "/upload/" carries no public id. */
  lemma NoMarkerNoId(url: string)
    requires IndexOf(url, UploadMarker, 0).None?
    ensures ExtractPublicIdFromUrl(url).None?
  {
  }

  /** Split of prefix + sep, when that sep is the first occurrence: the
      trailing empty piece is dropped, so at most one piece is left. */
  lemma {:induction false} SplitNothingAfter(prefix: string, sep: string)
    requires |sep| > 0
    requires IndexOf(prefix + sep, sep, 0) == Some(|prefix|)
    ensures |Split(prefix + sep, sep)| <= 1
  {
    var url := prefix + sep;
    PiecesAt(url, sep, |prefix|);
    assert url[..|prefix|] == prefix;
    assert url[|prefix| + |sep|..] == [];
    assert IndexOf([], sep, 0).None?;
    assert Pieces(url, sep) == [prefix, []];
    assert [prefix, []][..1] == [prefix];
    assert DropTrailingEmpty([prefix, []]) == DropTrailingEmpty([prefix]);
  }

  /** Nothing after the first "/upload/": split drops the trailing empty
      piece and there is no second part, so there is no public id. */
  lemma NothingAfterMarker(prefix: string)
    requires IndexOf(prefix + UploadMarker, UploadMarker, 0) == Some(|prefix|)
    ensures ExtractPublicIdFromUrl(prefix + UploadMarker).None?
  {
    SplitNothingAfter(prefix, UploadMarker);
  }

  /** A non-empty piece survives the removal of trailing empty pieces. */
  lemma KeptPiece(parts: seq<string>, k: nat)
    requires k < |parts| && parts[k] != []
    ensures k < |DropTrailingEmpty(parts)| && DropTrailingEmpty(parts)[k] == parts[k]
  {
  }

  /** The pieces of a + sep + rest, when that sep is the first occurrence. */
  lemma {:induction false} PiecesOfJoin(a: string, sep: string, rest: string)
    requires |sep| > 0
    requires IndexOf(a + sep + rest, sep, 0) == Some(|a|)
    ensures Pieces(a + sep + rest, sep) == [a] + Pieces(rest, sep)
  {
    var url := a + sep + rest;
    PiecesAt(url, sep, |a|);
    assert url[..|a|] == a;
    assert url[|a| + |sep|..] == rest;
  }

  /** Split when sep occurs first after a, then after b (b not empty): the
      second part is b. */
  lemma {:induction false} SplitSecond(a: string, b: string, c: string, sep: string)
    requires |sep| > 0 && b != []
    requires IndexOf(a + sep + (b + sep + c), sep, 0) == Some(|a|)
    requires IndexOf(b + sep + c, sep, 0) == Some(|b|)
    ensures |Split(a + sep + (b + sep + c), sep)| >= 2
    ensures Split(a + sep + (b + sep + c), sep)[1] == b
  {
    PiecesOfJoin(a, sep, b + sep + c);
    PiecesOfJoin(b, sep, c);
    var pieces := Pieces(a + sep + (b + sep + c), sep);
    assert pieces == [a] + ([b] + Pieces(c, sep));
    assert |pieces| >= 3 && pieces[1] == b;
    KeptPiece(pieces, 1);
  }

  /** With several "/upload/" segments only the text between the first and
      the second one is used. */
  lemma SecondPieceOnly(a: string, b: string, c: string)
    requires IndexOf(a + UploadMarker + b + UploadMarker + c, UploadMarker, 0) == Some(|a|)
    requires IndexOf(b + UploadMarker + c, UploadMarker, 0) == Some(|b|)
    requires b != ""
    ensures ExtractPublicIdFromUrl(a + UploadMarker + b + UploadMarker + c) == PublicIdOfPath(b)
  {
    assert a + UploadMarker + b + UploadMarker + c == a + UploadMarker + (b + UploadMarker + c);
    SplitSecond(a, b, c, UploadMarker);
  }

  /** A leading version segment is removed once and only at the start. */
  lemma {:induction false} StripVersionOnce(digits: string, rest: string)
    requires |digits| > 0 && forall k :: 0 <= k < |digits| ==> IsDigit(digits[k])
    ensures StripVersion("v" + digits + "/" + rest) == rest
  {
    var path := "v" + digits + "/" + rest;
    assert path[0] == 'v' && path[|digits| + 1] == '/';
    forall k | 1 <= k < |digits| + 1 ensures IsDigit(path[k]) {
      assert path[k] == digits[k - 1];
    }
    DigitsEndOfRun(path, 1, |digits| + 1);
    assert path[|digits| + 2..] == rest;
  }

  lemma {:induction false} DigitsEndOfRun(s: string, i: nat, j: nat)
    requires i <= j < |s|
    requires forall k :: i <= k < j ==> IsDigit(s[k])
    requires !IsDigit(s[j])
    ensures DigitsEnd(s, i) == j
    decreases j - i
  {
    if i < j {
      DigitsEndOfRun(s, i + 1, j);
    }
  }

  /** The path starts with "v", one or more digits and "/": what the
      pattern ^v\d+/ matches, ending at the slash at index j. */
  predicate VersionPrefixed(path: string)
  {
    |path| > 0 && path[0] == 'v' &&
    exists j :: 1 < j < |path| && path[j] == '/' && forall k :: 1 <= k < j ==> IsDigit(path[k])
  }

  /** The path is kept whole exactly when it does not start with a version
      segment ("vacation/a.png", "v/a.png" and "v12a/b" are kept). */
  lemma NoVersionKept(path: string)
    ensures StripVersion(path) == path <==> !VersionPrefixed(path)
  {
    forall j | 1 < j < |path| && path[j] == '/' && (forall k :: 1 <= k < j ==> IsDigit(path[k]))
      ensures DigitsEnd(path, 1) == j
    {
      DigitsEndOfRun(path, 1, j);
    }
    if |path| > 0 && path[0] == 'v' {
      var j := DigitsEnd(path, 1);
      if j > 1 && j < |path| && path[j] == '/' {
        assert |StripVersion(path)| < |path|;
        assert 1 < j < |path| && path[j] == '/' && forall k :: 1 <= k < j ==> IsDigit(path[k]);
      }
    }
  }


  /** The public id is what remains before the last dot ... */
  lemma {:induction false} CutAtLastDot(id: string, ext: string)
    requires '.' !in ext
    ensures LastIndexOf(id + "." + ext, '.') == |id|
    ensures (id + "." + ext)[..|id|] == id
  {
    var s := id + "." + ext;
    assert s[|id|] == '.';
    forall j | |id| < j < |s| ensures s[j] != '.' {
      assert s[j] == ext[j - |id| - 1];
    }
    assert s[..|id|] == id;
  }

  /** ... and a path without a dot yields null. */
  lemma NoDotNoId(path: string)
    requires '.' !in StripVersion(path)
    ensures PublicIdOfPath(path).None?
  {
  }

  /** An occurrence found in a prefix is still the first one in any extension. */
  lemma {:induction false} FirstOccurrenceExtends(s: string, t: string, sep: string, i: nat)
    requires IndexOf(s, sep, 0) == Some(i)
    ensures IndexOf(s + t, sep, 0) == Some(i)
  {
    var u := s + t;
    IndexOfFirst(s, sep, 0);
    IndexOfFirst(u, sep, 0);
    assert u[i..i + |sep|] == s[i..i + |sep|];
    forall j | 0 <= j < i ensures !At(u, j, sep) {
      assert !At(s, j, sep);
      assert j + |sep| <= |s|;
      assert u[j..j + |sep|] == s[j..j + |sep|];
    }
    var r := IndexOf(u, sep, 0);
    assert At(u, i, sep);
  }

  /** The round trip for the URLs Cloudinary hands out:
      base + "/upload/v<digits>/" + id + "." + ext gives back id. */
  lemma {:induction false} CanonicalUrl(base: string, digits: string, id: string, ext: string)
    requires |digits| > 0 && forall k :: 0 <= k < |digits| ==> IsDigit(digits[k])
    requires '.' !in ext
    requires IndexOf(base + UploadMarker, UploadMarker, 0) == Some(|base|)
    requires IndexOf("v" + digits + "/" + (id + "." + ext), UploadMarker, 0).None?
    ensures ExtractPublicIdFromUrl(base + UploadMarker + ("v" + digits + "/" + (id + "." + ext))) == Some(id)
  {
    var m := UploadMarker;
    var path := "v" + digits + "/" + (id + "." + ext);
    FirstOccurrenceExtends(base + m, path, m, |base|);
    PiecesOfJoin(base, m, path);
    var pieces := Pieces(base + m + path, m);
    assert pieces == [base, path];
    KeptPiece(pieces, 1);
    StripVersionOnce(digits, id + "." + ext);
    CutAtLastDot(id, ext);
  }
}

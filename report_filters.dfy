/** The report search of ReportServiceImpl: the administrator's filter
    (getReportsWithFilters) and the one behind the PDF export
    (filterReports), as predicates on one report. The great-circle
    distance is a parameter `dist(lat1, lon1, lat2, lon2)` in kilometres. */
module ReportFilters {
  import opened Common
  import opened Domain

  type Distance = (real, real, real, real) -> real

  /** The optional criteria; an absent criterion does not filter. Dates are
      calendar days, compared with the day of the report's date. */
  datatype Filter = Filter(
    categories: Option<seq<CategoryId>>,
    status: Option<string>,
    startDay: Option<int>,
    endDay: Option<int>,
    latitude: Option<real>,
    longitude: Option<real>,
    radiusKm: Option<real>)

  const NoCriteria := Filter(None, None, None, None, None, None, None)

  // ---------------------------------------------------------------------
  // ASCII case folding (String.equalsIgnoreCase on the status names)

  function Upper(c: char): char
  {
    if 'a' <= c <= 'z' then (c as int - 32) as char else c
  }

  function UpperAll(s: string): (r: string)
    ensures |r| == |s| && forall i :: 0 <= i < |s| ==> r[i] == Upper(s[i])
  {
    if s == [] then [] else [Upper(s[0])] + UpperAll(s[1..])
  }

  function Lower(c: char): char
  {
    if 'A' <= c <= 'Z' then (c as int + 32) as char else c
  }

  function LowerAll(s: string): (r: string)
    ensures |r| == |s| && forall i :: 0 <= i < |s| ==> r[i] == Lower(s[i])
  {
    if s == [] then [] else [Lower(s[0])] + LowerAll(s[1..])
  }

  predicate EqualsIgnoreCase(a: string, b: string)
  {
    |a| == |b| && forall i :: 0 <= i < |a| ==> Upper(a[i]) == Upper(b[i])
  }

  // ---------------------------------------------------------------------
  // The criteria, one predicate each

  /** getReportsWithFilters: an absent list keeps everything; a present list
      keeps the reports sharing at least one category with it, so an empty
      list keeps nothing. */
  predicate CategoriesMatch(r: Report, cats: Option<seq<CategoryId>>)
  {
    cats.None? || (|cats.value| > 0 && exists i :: 0 <= i < |r.categories| && r.categories[i] in cats.value)
  }

  /** filterReports writes the same criterion without the emptiness test. */
  predicate PdfCategoriesMatch(r: Report, cats: Option<seq<CategoryId>>)
  {
    cats.None? || exists i :: 0 <= i < |r.categories| && r.categories[i] in cats.value
  }

  predicate StatusMatches(r: Report, status: Option<string>)
  {
    status.None? || EqualsIgnoreCase(StatusName(r.status), status.value)
  }

  /** getReportsWithFilters: both bounds inclusive, each optional. */
  predicate DateMatches(r: Report, startDay: Option<int>, endDay: Option<int>)
  {
    if startDay.None? && endDay.None? then true
    else
      (startDay.None? || Day(r.date) >= startDay.value) &&
      (endDay.None? || Day(r.date) <= endDay.value)
  }

  /** filterReports checks the two bounds as two separate filters. */
  predicate PdfStartMatches(r: Report, startDay: Option<int>)
  {
    startDay.None? || !(Day(r.date) < startDay.value)
  }

  predicate PdfEndMatches(r: Report, endDay: Option<int>)
  {
    endDay.None? || !(Day(r.date) > endDay.value)
  }

  /** The radius criterion applies only when all three of latitude,
      longitude and radius are given; the report's point is passed as
      (latitude, longitude) = (y, x). */
  predicate WithinRadius(r: Report, f: Filter, dist: Distance)
  {
    if f.latitude.None? || f.longitude.None? || f.radiusKm.None? then true
    else dist(r.location.latitude, r.location.longitude, f.latitude.value, f.longitude.value) <= f.radiusKm.value
  }

  predicate AdminMatches(r: Report, f: Filter, dist: Distance)
  {
    CategoriesMatch(r, f.categories) && StatusMatches(r, f.status) &&
    DateMatches(r, f.startDay, f.endDay) && WithinRadius(r, f, dist)
  }

  predicate PdfMatches(r: Report, f: Filter, dist: Distance)
  {
    StatusMatches(r, f.status) && PdfCategoriesMatch(r, f.categories) &&
    PdfStartMatches(r, f.startDay) && PdfEndMatches(r, f.endDay) && WithinRadius(r, f, dist)
  }

  /** filterReports: the stream of all reports filtered by the PDF
      criteria, keeping their order. */
  function Select(rs: seq<Report>, f: Filter, dist: Distance): (out: seq<Report>)
    ensures |out| <= |rs|
    ensures forall r :: r in out <==> r in rs && PdfMatches(r, f, dist)
  {
    if rs == [] then []
    else
      var rest := Select(rs[1..], f, dist);
      assert forall r :: r in rs <==> r == rs[0] || r in rs[1..];
      if PdfMatches(rs[0], f, dist) then [rs[0]] + rest else rest
  }

  // ---------------------------------------------------------------------
  // Properties

  /** The PDF export selects exactly the reports the administrator's search
      selects: the missing emptiness test and the split date test change
      nothing. */
  lemma PdfFilterAgrees(r: Report, f: Filter, dist: Distance)
    ensures PdfMatches(r, f, dist) <==> AdminMatches(r, f, dist)
  {
    if f.categories.Some? && |f.categories.value| == 0 {
      assert !PdfCategoriesMatch(r, f.categories);
    }
  }

  /** An empty category list selects nothing, an absent one everything. */
  lemma EmptyCategoryListSelectsNothing(r: Report, f: Filter, dist: Distance)
    requires f.categories == Some([])
    ensures !AdminMatches(r, f, dist) && !PdfMatches(r, f, dist)
  {
  }

  /** With no criterion every report is selected, in its order. */
  lemma {:induction false} NoCriteriaSelectsAll(rs: seq<Report>, dist: Distance)
    ensures Select(rs, NoCriteria, dist) == rs
  {
    if rs != [] {
      NoCriteriaSelectsAll(rs[1..], dist);
    }
  }

  /** The status criterion ignores case: a filter value matches a report
      exactly when its upper-case form is the status's name. */
  lemma StatusIgnoresCase(r: Report, s: string)
    ensures StatusMatches(r, Some(s)) <==> UpperAll(s) == StatusName(r.status)
  {
    var n := StatusName(r.status);
    NameIsUpperCase(r.status);
    if StatusMatches(r, Some(s)) {
      assert forall i :: 0 <= i < |s| ==> UpperAll(s)[i] == n[i];
    }
  }

  /** Every spelling of a status name in lower case matches it. */
  lemma LowerCaseStatusMatches(r: Report)
    ensures StatusMatches(r, Some(LowerAll(StatusName(r.status))))
  {
    var n := StatusName(r.status);
    NameIsUpperCase(r.status);
    forall i | 0 <= i < |n| ensures Upper(LowerAll(n)[i]) == Upper(n[i]) {
      assert LowerAll(n)[i] == Lower(n[i]);
    }
  }

  lemma NameIsUpperCase(s: ReportStatus)
    ensures forall i :: 0 <= i < |StatusName(s)| ==> 'A' <= StatusName(s)[i] <= 'Z'
  {
  }

  /** The date range is inclusive at both ends: a range of one day selects
      the reports of that day and no other. */
  lemma DateRangeInclusive(r: Report, day: int)
    ensures DateMatches(r, Some(day), Some(day)) <==> Day(r.date) == day
  {
  }

  /** The radius criterion is ignored unless all three values are given. */
  lemma PartialRadiusIgnored(r: Report, f: Filter, dist: Distance)
    requires f.latitude.None? || f.longitude.None? || f.radiusKm.None?
    ensures WithinRadius(r, f, dist)
  {
  }
}

# ResQNET report, user, category and authentication services

ResQNET is the back end of a citizen emergency-reporting platform. Clients
file geo-located reports of incidents, edit them while they are pending,
mark other reports as important, and resubmit rejected reports within a
deadline. Administrators verify, resolve or reject reports, and maintain
the category catalogue. Users register, activate their account with a
one-time code mailed to them, and reset their password the same way.
Deactivating a user anonymises their reports.

The model follows the service layer, one Dafny module per service:

- `Common`: results and error kinds, time in milliseconds, and list helpers (`List.remove`, `findFirst`).
- `Domain`: reports, users, one-time codes, categories and their enumerations, plus the invariant every stored report keeps.
- `Repository`: the document store as a class `Store` with one map per collection, plus its e-mail lookup, and an `Outbox` class collecting every e-mail, WebSocket message and event the services send.
- `ReportRules`: the pure rules of `ReportServiceImpl`: status transitions and their stamps, rejection, edit, resubmission, deletion and the importance toggle.
- `ReportFilters`: the administrator's search and the PDF export's filter.
- `ReportService`, `UserService`, `CategoryService` and `AuthService`: each service is a class whose methods change the store and the outbox. Each method is specified against the pure functions above.
- `CloudinaryPublicId`: recovering an image's public id from its URL.

The clock, the random code generator, the password encoder, the distance
function, the outcome of image uploads and e-mail delivery, and the result
of the geographic query are parameters of the operations or of the service
classes.

Behaviours of the source the model keeps on purpose:

- The activation code is accepted after it has expired.
- Deleting a report removes its id from the caller's report list, even when the caller is an administrator who does not own it.
- The owner may move a VERIFIED report to RESOLVED.
- A DELETED category still counts as existing when a report names it.
- A missing report owner in `rejectReportWithReason` is reported as not found, after the rejection has already been saved.
- `createUser` saves under the requested id and replaces any user with that id.

## Model

| member | source | states |
|---|---|---|
| Common.RemoveFirst | src/main/java/co/edu/uniquindio/services/implementations/ReportServiceImpl.java:185-187 | List.remove(Object): one copy of the value fewer and nothing else in the multiset; the list is unchanged when the value is absent |
| Common.RemoveFirstAt | src/main/java/co/edu/uniquindio/services/implementations/ReportServiceImpl.java:185-187 | List.remove(Object) drops exactly the first occurrence of the value and keeps the rest in order |
| Common.RemoveFirstOthers | src/main/java/co/edu/uniquindio/services/implementations/ReportServiceImpl.java:185-187 | every other value occurs after the removal exactly when it occurred before |
| Common.RemoveFirstNoDuplicates | src/main/java/co/edu/uniquindio/services/implementations/ReportServiceImpl.java:185-187 | after removing a value from a list without duplicates the value no longer occurs and the list stays duplicate-free |
| Common.FirstIndex | src/main/java/co/edu/uniquindio/services/implementations/AuthServiceImpl.java:44-46 | Stream.filter(..).findFirst(): the index found satisfies the predicate and no earlier one does; none only when no element does |
| Repository.Store.FindByEmail | src/main/java/co/edu/uniquindio/repositories/UserRepository.java:17-18 | findByEmail finds a user with that address who is not DELETED, and none exactly when there is no such user; with unique addresses the one found is the only one |
| ReportRules.StatusPermission | src/main/java/co/edu/uniquindio/services/implementations/ReportServiceImpl.java:516-523 | a status change is permitted exactly to an administrator, or to the owner asking for RESOLVED; otherwise access is denied |
| ReportRules.StateRequirements | src/main/java/co/edu/uniquindio/services/implementations/ReportServiceImpl.java:525-551 | the target-state rules fail with an illegal argument exactly when REJECTED is asked for without a reason; PENDING and ANONYMOUS targets always pass |
| ReportRules.CheckStatusChange | src/main/java/co/edu/uniquindio/services/implementations/ReportServiceImpl.java:213-217 | the permission check, then the state rules of a status change; characterised by the TransitionTable and StatusChangeErrors rows |
| ReportRules.TransitionTable | src/main/java/co/edu/uniquindio/services/implementations/ReportServiceImpl.java:516-551 | the whole permission table: an administrator may move to any state (REJECTED only with a reason), an owner only to RESOLVED and not from REJECTED, nobody else anything |
| ReportRules.StatusChangeErrors | src/main/java/co/edu/uniquindio/services/implementations/ReportServiceImpl.java:213-217 | the permission check is reported before the state rules, and each failure carries its own error |
| ReportRules.StatusChangeResult | src/main/java/co/edu/uniquindio/services/implementations/ReportServiceImpl.java:204-224 | a status change succeeds exactly when both checks pass; its report is the stamped one and its error is the first failing check |
| ReportRules.StampStatus | src/main/java/co/edu/uniquindio/services/implementations/ReportServiceImpl.java:553-576 | setStatusSpecificData: the per-target stamps; characterised by the StatusChangeStamps row |
| ReportRules.ApplyStatus | src/main/java/co/edu/uniquindio/services/implementations/ReportServiceImpl.java:219-221 | the status is set and then stamped; characterised by the StatusChangeStamps and ApplyStatusKeepsInvariant rows |
| ReportRules.StatusChangeStamps | src/main/java/co/edu/uniquindio/services/implementations/ReportServiceImpl.java:553-576 | VERIFIED and RESOLVED record who and when, REJECTED records the reason and the deadline, and the report content is left untouched |
| ReportRules.ApplyStatusKeepsInvariant | src/main/java/co/edu/uniquindio/services/implementations/ReportServiceImpl.java:219-222 | a stamped report still satisfies the report invariant |
| ReportRules.CheckRejection | src/main/java/co/edu/uniquindio/services/implementations/ReportServiceImpl.java:244-252 | a rejection passes exactly for a PENDING or VERIFIED report with a non-blank reason; otherwise the status error comes before the missing-reason error |
| ReportRules.RejectResult | src/main/java/co/edu/uniquindio/services/implementations/ReportServiceImpl.java:244-258 | the rejected report is REJECTED with the reason, the rejection date and a deadline of the resubmission window |
| ReportRules.RejectionAgreesWithStatusChange | src/main/java/co/edu/uniquindio/services/implementations/ReportServiceImpl.java:233-258 | rejecting with a reason succeeds exactly when an administrator moving the report to REJECTED would, and then yields the same report |
| ReportRules.CheckEdit | src/main/java/co/edu/uniquindio/services/implementations/ReportServiceImpl.java:111-124 | an edit passes exactly for the owner of a PENDING report still inside any rejection deadline; each refusal is a forbidden error, the deadline first |
| ReportRules.EditResult | src/main/java/co/edu/uniquindio/services/implementations/ReportServiceImpl.java:106-143 | the order of the edit errors: the checks, then the unknown categories, then a failed upload; on success the edited report |
| ReportRules.EditEffect | src/main/java/co/edu/uniquindio/services/implementations/ReportServiceImpl.java:135-143 | an edit replaces the text fields, categories and location, replaces the images only when new ones were uploaded, and stamps the date |
| ReportRules.CheckResubmission | src/main/java/co/edu/uniquindio/services/implementations/ReportServiceImpl.java:297-318 | a resubmission passes exactly for the owner of a REJECTED report within its deadline and with fewer than three resubmissions |
| ReportRules.ResubmitResult | src/main/java/co/edu/uniquindio/services/implementations/ReportServiceImpl.java:295-339 | the order of the resubmission errors and, on success, the resubmitted report |
| ReportRules.ResubmissionEffect | src/main/java/co/edu/uniquindio/services/implementations/ReportServiceImpl.java:329-339 | a resubmitted report is PENDING again, its counter grows by one and stays at most three, and it keeps the invariant |
| ReportRules.FourthResubmissionRefused | src/main/java/co/edu/uniquindio/services/implementations/ReportServiceImpl.java:315-317 | a report resubmitted three times cannot be resubmitted again |
| ReportRules.NewReport | src/main/java/co/edu/uniquindio/services/implementations/ReportServiceImpl.java:76-85 | a new report is PENDING, owned by its creator, not anonymous, never resubmitted, rejected, verified or resolved, liked by nobody; it carries the request's title, description, location and categories, the creation instant and the uploaded images |
| ReportRules.CheckDelete | src/main/java/co/edu/uniquindio/services/implementations/ReportServiceImpl.java:158-165 | a deletion passes exactly for an administrator or the owner of a PENDING report; ownership is checked before the status |
| ReportRules.Toggle | src/main/java/co/edu/uniquindio/services/implementations/ReportServiceImpl.java:176-201 | un-marks when the user already lists the report and marks otherwise; characterised by the ToggleKeepsConsistency, ToggleTouchesOnlyPair, ToggleKeepsLikesConsistent and ToggleTwice rows |
| ReportRules.ToggleKeepsConsistency | src/main/java/co/edu/uniquindio/services/implementations/ReportServiceImpl.java:176-201 | toggling keeps the report's likedBy and the user's likedReports in agreement and the counter equal to the number of likes |
| ReportRules.ToggleTouchesOnlyPair | src/main/java/co/edu/uniquindio/services/implementations/ReportServiceImpl.java:184-196 | the toggle changes the report's likedBy only at the user and the user's likedReports only at the report |
| ReportRules.ToggleKeepsLikesConsistent | src/main/java/co/edu/uniquindio/services/implementations/ReportServiceImpl.java:176-201 | across all stored reports and users, likedBy and likedReports stay mirror images, no list repeats an entry and each counter stays the number of likes |
| ReportRules.ToggleKeepsReportInvariant | src/main/java/co/edu/uniquindio/services/implementations/ReportServiceImpl.java:186-195 | toggling keeps the report invariant |
| ReportRules.ToggleTwiceFromUnmarked | src/main/java/co/edu/uniquindio/services/implementations/ReportServiceImpl.java:176-201 | marking and then unmarking a report restores the report and the user exactly |
| ReportRules.ToggleTwiceFromMarked | src/main/java/co/edu/uniquindio/services/implementations/ReportServiceImpl.java:176-201 | unmarking and then marking restores the counter and the like collections as multisets, and nothing else changes |
| ReportFilters.AdminMatches | src/main/java/co/edu/uniquindio/services/implementations/ReportServiceImpl.java:354-362 | the criteria of getReportsWithFilters; characterised by the PdfFilterAgrees, EmptyCategoryListSelectsNothing, StatusIgnoresCase, DateRangeInclusive and PartialRadiusIgnored rows |
| ReportFilters.PdfMatches | src/main/java/co/edu/uniquindio/services/implementations/ReportServiceImpl.java:481-485 | the criteria of filterReports; characterised by the Select and PdfFilterAgrees rows |
| ReportFilters.Select | src/main/java/co/edu/uniquindio/services/implementations/ReportServiceImpl.java:475-486 | filterReports keeps exactly the reports that meet the PDF criteria, and no more than it was given |
| ReportFilters.PdfFilterAgrees | src/main/java/co/edu/uniquindio/services/implementations/ReportServiceImpl.java:354-362 | the PDF export's filter selects exactly the reports the administrator's search selects |
| ReportFilters.EmptyCategoryListSelectsNothing | src/main/java/co/edu/uniquindio/services/implementations/ReportServiceImpl.java:354 | an empty category list selects no report in either search |
| ReportFilters.NoCriteriaSelectsAll | src/main/java/co/edu/uniquindio/services/implementations/ReportServiceImpl.java:481 | with no criterion filterReports returns all reports in their order |
| ReportFilters.StatusIgnoresCase | src/main/java/co/edu/uniquindio/services/implementations/ReportServiceImpl.java:354 | a status value matches exactly when its upper-case form is the report status name |
| ReportFilters.LowerCaseStatusMatches | src/main/java/co/edu/uniquindio/services/implementations/ReportServiceImpl.java:481 | the lower-case spelling of a status name matches that status |
| ReportFilters.DateRangeInclusive | src/main/java/co/edu/uniquindio/services/implementations/ReportServiceImpl.java:355-358 | the date range is inclusive at both ends: a one-day range selects exactly the reports of that day |
| ReportFilters.PartialRadiusIgnored | src/main/java/co/edu/uniquindio/services/implementations/ReportServiceImpl.java:359-362 | the radius criterion is ignored unless latitude, longitude and radius are all given |
| ReportService.UnknownCategories | src/main/java/co/edu/uniquindio/services/implementations/ReportServiceImpl.java:59-73 | only requested ids that name no category are reported; none exactly when all exist |
| ReportService.UnknownCategoriesAppend | src/main/java/co/edu/uniquindio/services/implementations/ReportServiceImpl.java:63-68 | the ids are checked one by one in request order: the unknown ids of a concatenation are those of each part, concatenated |
| ReportService.UnknownCategoriesCount | src/main/java/co/edu/uniquindio/services/implementations/ReportServiceImpl.java:63-68 | every unknown id is reported as often as it was requested, and no known id is reported |
| ReportService.Service.InvalidCategories | src/main/java/co/edu/uniquindio/services/implementations/ReportServiceImpl.java:59-73 | the loop over the requested categories collects exactly the unknown ones |
| ReportService.NearbyNotices | src/main/java/co/edu/uniquindio/services/implementations/ReportServiceImpl.java:408-441 | at most one notice per nearby user; exactly which ones by the NearbyNoticesExactly row |
| ReportService.NearbyNoticesExactly | src/main/java/co/edu/uniquindio/services/implementations/ReportServiceImpl.java:408-441 | a notice about the report for every nearby user who has a location and whose event did not fail, and for nobody else |
| ReportService.Service.NotifyNearbyUsers | src/main/java/co/edu/uniquindio/services/implementations/ReportServiceImpl.java:408-441 | the loop appends exactly those notices to the outbox |
| ReportService.AdminCheck | src/main/java/co/edu/uniquindio/services/implementations/ReportServiceImpl.java:443-449 | passes exactly for an administrator; an unknown user is not found, any other user is forbidden |
| ReportService.Service.CreateReport | src/main/java/co/edu/uniquindio/services/implementations/ReportServiceImpl.java:55-103 | a report is created exactly for a known user with known categories and a successful upload; it is stored under a fresh id, added to the user's list, and the nearby users are notified, never the author |
| ReportService.Service.UpdateReport | src/main/java/co/edu/uniquindio/services/implementations/ReportServiceImpl.java:106-148 | the stored report becomes the edit result, or nothing changes and the first failing check is reported |
| ReportService.Service.DeleteReport | src/main/java/co/edu/uniquindio/services/implementations/ReportServiceImpl.java:151-173 | the report leaves the store and the caller's report list exactly when the delete check passes |
| ReportService.Service.ToggleReportImportance | src/main/java/co/edu/uniquindio/services/implementations/ReportServiceImpl.java:176-201 | known report and user: the pair becomes their toggle; otherwise not found and nothing changes; consistency of the likes over the whole store is kept |
| ReportService.Service.UpdateReportStatus | src/main/java/co/edu/uniquindio/services/implementations/ReportServiceImpl.java:204-230 | the report becomes the status-change result and one status notice, which says whether an administrator verified it, is sent; on failure nothing changes |
| ReportService.Service.RejectReportWithReason | src/main/java/co/edu/uniquindio/services/implementations/ReportServiceImpl.java:233-292 | an administrator rejects the report, which is saved before the owner is looked up; the owner then gets the e-mail if it went out and the notice |
| ReportService.Service.ResubmitReport | src/main/java/co/edu/uniquindio/services/implementations/ReportServiceImpl.java:295-348 | the stored report becomes the resubmission result, or nothing changes |
| ReportService.Service.GetReportsWithFilters | src/main/java/co/edu/uniquindio/services/implementations/ReportServiceImpl.java:351-366 | an administrator gets exactly the ids of the reports meeting the filter; anyone else gets the admin-check error |
| ReportService.Service.GetReportsByUserId | src/main/java/co/edu/uniquindio/services/implementations/ReportServiceImpl.java:369-378 | a known user gets exactly the ids on their list that name existing reports |
| ReportService.Service.GetReportById | src/main/java/co/edu/uniquindio/services/implementations/ReportServiceImpl.java:381-387 | the stored report, or not found exactly when it is missing |
| ReportService.Service.GetLikedBy | src/main/java/co/edu/uniquindio/services/implementations/ReportServiceImpl.java:489-492 | the ids of the users who marked the report, or not found |
| ReportService.Service.GetLikedReports | src/main/java/co/edu/uniquindio/services/implementations/ReportServiceImpl.java:495-498 | the ids of the reports the user marked, or not found |
| UserService.BuiltUserAsWritten | src/main/java/co/edu/uniquindio/services/implementations/UserServiceImpl.java:54-58 | the user the builder produces is not active |
| UserService.NewUser | src/main/java/co/edu/uniquindio/services/implementations/UserServiceImpl.java:54-58 | the user built as intended: active, a CLIENT, REGISTERED, at the given point, with the encoded password and empty lists; it differs from the built one only in being active |
| UserService.Deactivate | src/main/java/co/edu/uniquindio/services/implementations/UserServiceImpl.java:78-108 | deactivateUser on the stored users and reports: unknown user not found; an inactive user changes nothing; otherwise only that user changes, to the deactivated one, and every report becomes its anonymised form |
| UserService.DeactivateIdempotent | src/main/java/co/edu/uniquindio/services/implementations/UserServiceImpl.java:82-85 | deactivating a user a second time changes nothing |
| UserService.BuiltUserIsNeverDeactivated | src/main/java/co/edu/uniquindio/services/implementations/UserServiceImpl.java:82-85 | once the user createUser builds is saved, deactivateUser on it succeeds and leaves the users and the reports exactly as they were, the user REGISTERED |
| UserService.NewUserIsDeactivatedOnce | src/main/java/co/edu/uniquindio/services/implementations/UserServiceImpl.java:82-103 | once a user built as intended is saved, deactivateUser makes it INACTIVE and anonymises the reports, after which only already-anonymous reports carry its id |
| UserService.Deactivated | src/main/java/co/edu/uniquindio/services/implementations/UserServiceImpl.java:87-89 | a deactivated user is inactive, INACTIVE, stamped with the instant, and otherwise unchanged |
| UserService.Anonymized | src/main/java/co/edu/uniquindio/services/implementations/UserServiceImpl.java:96-101 | one report after the anonymisation step; characterised by the AnonymizationEffect row |
| UserService.AnonymizedAll | src/main/java/co/edu/uniquindio/services/implementations/UserServiceImpl.java:93-103 | anonymisation keeps the set of report ids |
| UserService.AnonymizeReports | src/main/java/co/edu/uniquindio/services/implementations/UserServiceImpl.java:93-103 | the loop over the user's reports produces exactly the anonymised collection |
| UserService.AnonymizationEffect | src/main/java/co/edu/uniquindio/services/implementations/UserServiceImpl.java:93-103 | the user's reports that were not anonymous become anonymous, ANONYMOUS and ownerless; all other reports are unchanged |
| UserService.AnonymizationIdempotent | src/main/java/co/edu/uniquindio/services/implementations/UserServiceImpl.java:93-103 | anonymising twice is anonymising once |
| UserService.AnonymizationKeepsInvariant | src/main/java/co/edu/uniquindio/services/implementations/UserServiceImpl.java:96-101 | anonymisation keeps every report's invariant |
| UserService.FreshEmailKeepsUnique | src/main/java/co/edu/uniquindio/services/implementations/UserServiceImpl.java:41-43 | adding a user whose address is not in use keeps the addresses unique |
| UserService.Service.CreateUser | src/main/java/co/edu/uniquindio/services/implementations/UserServiceImpl.java:39-66 | an address in use is refused before bad coordinates; otherwise the user built as intended (active) is saved under its id |
| UserService.Service.DeactivateUser | src/main/java/co/edu/uniquindio/services/implementations/UserServiceImpl.java:78-108 | unknown user: not found; inactive user: nothing changes; otherwise the user is deactivated and exactly their reports are anonymised; the outcome and the new collections are those of `Deactivate` |
| CategoryService.WithStatus | src/main/java/co/edu/uniquindio/services/implementations/CategoryServiceImpl.java:106-111 | exactly the categories with the given status |
| CategoryService.FindAll | src/main/java/co/edu/uniquindio/services/implementations/CategoryServiceImpl.java:54-59 | exactly the ACTIVE categories |
| CategoryService.AllCategoryNames | src/main/java/co/edu/uniquindio/services/implementations/CategoryServiceImpl.java:86-91 | a name is listed exactly when an ACTIVE category has it |
| CategoryService.FindActiveById | src/main/java/co/edu/uniquindio/services/implementations/CategoryServiceImpl.java:94-97 | found exactly when the category exists and is ACTIVE; otherwise not found |
| CategoryService.UsageCount | src/main/java/co/edu/uniquindio/services/implementations/CategoryServiceImpl.java:73 | countReportsUsingCategory: the number of stored reports naming the category; related to the in-use test by the InUseIffCounted row |
| CategoryService.InUseIffCounted | src/main/java/co/edu/uniquindio/services/implementations/CategoryServiceImpl.java:72-73 | a category is in use exactly when the count of reports using it is positive |
| CategoryService.OneNamePerActiveCategory | src/main/java/co/edu/uniquindio/services/implementations/CategoryServiceImpl.java:86-91 | with unique active names there are exactly as many names as ACTIVE categories |
| CategoryService.UniqueNameKeepsUnique | src/main/java/co/edu/uniquindio/services/implementations/CategoryServiceImpl.java:99-103 | storing an active category whose name no other active one has keeps the names unique |
| CategoryService.Service.Save | src/main/java/co/edu/uniquindio/services/implementations/CategoryServiceImpl.java:26-35 | refused exactly when an ACTIVE category has the name; otherwise a new ACTIVE category under a fresh id |
| CategoryService.Service.Update | src/main/java/co/edu/uniquindio/services/implementations/CategoryServiceImpl.java:38-51 | only an ACTIVE category changes; a taken name is refused only when the name changes |
| CategoryService.Service.DeleteById | src/main/java/co/edu/uniquindio/services/implementations/CategoryServiceImpl.java:67-83 | not found when missing; refused with the usage count while a report uses it; otherwise marked DELETED |
| AuthService.FirstReusable | src/main/java/co/edu/uniquindio/services/implementations/AuthServiceImpl.java:44-46 | the first activation code that is unused and not expired |
| AuthService.FirstActivationMatch | src/main/java/co/edu/uniquindio/services/implementations/AuthServiceImpl.java:92-95 | the first unused activation code with the given text |
| AuthService.FirstResetMatch | src/main/java/co/edu/uniquindio/services/implementations/AuthServiceImpl.java:148-151 | the first unused, unexpired reset code with the given text |
| AuthService.IssueCode | src/main/java/co/edu/uniquindio/services/implementations/AuthServiceImpl.java:56-61 | a new code is unused and expires fifteen minutes after it is created |
| AuthService.MarkUsed | src/main/java/co/edu/uniquindio/services/implementations/AuthServiceImpl.java:97 | only the chosen code becomes used |
| AuthService.LoginCodes | src/main/java/co/edu/uniquindio/services/implementations/AuthServiceImpl.java:42-69 | the codes and the code sent by a login of an account that is not ACTIVE; characterised by the LoginReusesOrIssues and SecondLoginAddsNoCode rows |
| AuthService.LoginReusesOrIssues | src/main/java/co/edu/uniquindio/services/implementations/AuthServiceImpl.java:42-69 | login resends the first reusable code and keeps the list, or, if there is none, appends one new code; the code sent is reusable either way |
| AuthService.SecondLoginAddsNoCode | src/main/java/co/edu/uniquindio/services/implementations/AuthServiceImpl.java:42-69 | a second login at the same instant sends the same code and adds none |
| AuthService.ExpiredActivationCodeAccepted | src/main/java/co/edu/uniquindio/services/implementations/AuthServiceImpl.java:92-95 | activation accepts an unused code however long ago it expired |
| AuthService.ResetCodeLifetime | src/main/java/co/edu/uniquindio/services/implementations/AuthServiceImpl.java:119-124 | a fresh reset code is accepted exactly until its fifteen minutes are over |
| AuthService.ActivationCodeSingleUse | src/main/java/co/edu/uniquindio/services/implementations/AuthServiceImpl.java:92-97 | once a code is used for activation it is never accepted again |
| AuthService.ResetCodeSingleUse | src/main/java/co/edu/uniquindio/services/implementations/AuthServiceImpl.java:148-154 | once a code is used for a reset it is never accepted again, at any later instant |
| AuthService.Service.Login | src/main/java/co/edu/uniquindio/services/implementations/AuthServiceImpl.java:32-82 | unknown address, an account that is not ACTIVE (after the activation e-mail, or a mail failure if it could not be sent, the code saved either way) and a wrong password are the three refusals, in that order |
| AuthService.Service.ActivateUser | src/main/java/co/edu/uniquindio/services/implementations/AuthServiceImpl.java:85-102 | an unknown address or no matching code is a conflict; otherwise the first matching code is used and the user becomes ACTIVE |
| AuthService.Service.SendPasswordResetCode | src/main/java/co/edu/uniquindio/services/implementations/AuthServiceImpl.java:105-137 | an unknown address is refused; otherwise one fresh reset code is appended and mailed, and a mail that cannot be sent is a mail failure after the code is saved |
| AuthService.Service.ResetPassword | src/main/java/co/edu/uniquindio/services/implementations/AuthServiceImpl.java:140-162 | refused without a valid code; otherwise the first valid code is used and the password becomes the encoded new one |
| CloudinaryPublicId.IndexOfFirst | src/main/java/co/edu/uniquindio/services/implementations/CloudinaryServiceImpl.java:65 | the first occurrence at or after the start; none exactly when there is no occurrence |
| CloudinaryPublicId.DropTrailingEmpty | src/main/java/co/edu/uniquindio/services/implementations/CloudinaryServiceImpl.java:65 | split drops exactly the trailing empty pieces |
| CloudinaryPublicId.StripVersion | src/main/java/co/edu/uniquindio/services/implementations/CloudinaryServiceImpl.java:69 | removing the version prefix leaves a suffix of the path |
| CloudinaryPublicId.LastIndexOf | src/main/java/co/edu/uniquindio/services/implementations/CloudinaryServiceImpl.java:71 | the last position of the character, or -1 exactly when it does not occur |
| CloudinaryPublicId.PublicIdOfPath | src/main/java/co/edu/uniquindio/services/implementations/CloudinaryServiceImpl.java:69-71 | the path after the marker, without its version prefix, cut at the last dot; characterised by the StripVersionOnce, NoVersionKept, CutAtLastDot and NoDotNoId rows |
| CloudinaryPublicId.ExtractPublicIdFromUrl | src/main/java/co/edu/uniquindio/services/implementations/CloudinaryServiceImpl.java:63-77 | extractPublicIdFromUrl; characterised by the NoMarkerNoId, NothingAfterMarker, SecondPieceOnly, NoDotNoId and CanonicalUrl rows |
| CloudinaryPublicId.NoMarkerNoId | src/main/java/co/edu/uniquindio/services/implementations/CloudinaryServiceImpl.java:65-66 | a URL without "/upload/" has no public id |
| CloudinaryPublicId.NothingAfterMarker | src/main/java/co/edu/uniquindio/services/implementations/CloudinaryServiceImpl.java:65-66 | a URL that ends at "/upload/" has no public id |
| CloudinaryPublicId.SecondPieceOnly | src/main/java/co/edu/uniquindio/services/implementations/CloudinaryServiceImpl.java:65-67 | only the text between the first and the second "/upload/" is used |
| CloudinaryPublicId.StripVersionOnce | src/main/java/co/edu/uniquindio/services/implementations/CloudinaryServiceImpl.java:69 | a leading "v<digits>/" is removed exactly once |
| CloudinaryPublicId.NoVersionKept | src/main/java/co/edu/uniquindio/services/implementations/CloudinaryServiceImpl.java:69 | a path is kept whole exactly when it does not start with "v", one or more digits and "/" |
| CloudinaryPublicId.CutAtLastDot | src/main/java/co/edu/uniquindio/services/implementations/CloudinaryServiceImpl.java:71 | the public id is the text before the last dot |
| CloudinaryPublicId.NoDotNoId | src/main/java/co/edu/uniquindio/services/implementations/CloudinaryServiceImpl.java:71-76 | without a dot the swallowed exception yields no id |
| CloudinaryPublicId.CanonicalUrl | src/main/java/co/edu/uniquindio/services/implementations/CloudinaryServiceImpl.java:63-77 | a URL of the form base/upload/v<digits>/id.ext, with no dot in ext, yields id |

## Left out

- The distance: the haversine formula is floating point. It is the parameter `Distance`, and the model proves nothing about its value.
- Floating point: coordinates, the filter's latitude and longitude and its radius are Dafny reals. NaN, the infinities and double rounding are not modelled, so a NaN coordinate, which passes `createUser`'s check because `Math.abs(NaN) > 180` is false, and a NaN radius, which makes `distance <= radiusKm` false for every report, have no counterpart in the model.
- Time: `new Date()`, `LocalDateTime.now()` and `System.currentTimeMillis()` become a `now` parameter in milliseconds, so each operation reads the clock once. Calendar days are whole days since the epoch, without time zones.
- Randomness: the six-character UUID prefix of a new code is the `newCode` parameter.
- Passwords: BCrypt `encode` and `matches` are abstract functions.
- The database: MongoDB, the order of query results, transactions and concurrent requests are not modelled. Lists that a query returns are sets of ids.
- The geographic proximity query is the `nearby` parameter, which never holds the author because the query excludes the author's id. The loop over its result is modelled.
- The queries `findByIdUser`, `countReportsUsingCategory` and `existsByCategoriesContaining` are read by their names as queries of the stored maps, because the repository declaration is not part of this model.
- Image upload: the upload loop and `CloudinaryServiceImpl.uploadImage` are the `Images` outcome, which is no images, the uploaded URLs, or a failure.
- Sending: e-mail, WebSocket and application events are entries appended to the outbox. The text of the messages and the HTML of the e-mails are not modelled. Whether a message went out is a parameter of `RejectReportWithReason` (`emailSent`), `NotifyNearbyUsers` (`failed`), `Login` and `SendPasswordResetCode` (`delivered`). A failure of any other send, such as a WebSocket message, is not modelled: those sends always succeed.
- Not modelled: the PDF document layout, the mappers to response records, the controllers, security, JWT and validation annotations, comments, `getAllReports` and `getUser`.
- Null lists: a list that Java would leave null is modelled as empty, and an error Java would raise on null is not modelled. The request's category list is never null.
- Case folding: `equalsIgnoreCase` is modelled for ASCII letters only. Non-ASCII filter text that Java folds onto ASCII letters, such as the dotless 'ı' or the long 'ſ' (so that "pendıng" matches PENDING in Java), is not modelled.
- Arithmetic: Java `int` and `long` overflow are not modelled. The counters and instants are unbounded.
- UserService.Service.CreateUser: saves the user built as evidently intended, which is active (`UserService.NewUser`), not the inactive user the builder as written produces; the as-written behaviour and its consequence for `deactivateUser` are stated by `UserService.BuiltUserAsWritten` and `UserService.BuiltUserIsNeverDeactivated` under "## Findings".
- User fields: phone, address, city and birth date are copied through by `createUser` and are not modelled.
- Duplicate addresses: when two users who are not DELETED share an address, Spring Data raises an error for `findByEmail`. `Repository.Store.FindByEmail` picks one of them instead. The authentication methods require unique addresses.

## Findings

| source | as written | input that shows it | evidently intended | confidence | as-written member | corrected member |
|---|---|---|---|---|---|---|
| src/main/java/co/edu/uniquindio/services/implementations/UserServiceImpl.java:54-58 | `User.builder()` is used and `src/main/java/co/edu/uniquindio/model/User.java` line 45 initialises `active = true` without `@Builder.Default`, so the built user has `active == false` | any registration accepted by `createUser`; a later `deactivateUser` on that user returns at its `isActive` check, leaves the user REGISTERED and anonymises nothing | the new user is active, as the field initialiser says | not executed | `UserService.BuiltUserAsWritten`, `UserService.BuiltUserIsNeverDeactivated` | `UserService.NewUser`, `UserService.NewUserIsDeactivatedOnce` |

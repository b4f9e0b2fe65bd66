# Attendance dashboard and notification functions, modelled in Dafny

This project models the server-side logic of a face-recognition attendance
system. It has two parts.

The web dashboard (`web_dashboard/script.js`) covers:
- the attendance table's time arithmetic: how check-in and check-out
  values become dates, how a minute count is rendered as `H:MM`, what the
  "total hours" cell shows, and the newest-first ordering of rows;
- the three spreadsheet imports (employees, MasterSheet, overtime) with
  their success, error and not-found counts;
- the overtime toggle and the bulk "mark selected for overtime" batch;
- the line-manager form, which records a manager and writes a
  back-reference into each team member's MasterSheet document, and
  `deleteManager`.

The Firebase Cloud Functions (`functions/index.js`) cover:
- the notification sent to an employee when a check request is approved
  or rejected;
- the notification sent to the line manager when a request is created,
  which tries two forms of the manager id;
- the callable that stores a device token;
- the manager topic subscription.

Firestore is modelled as values: `employees` as a sequence in insertion
order, the MasterSheet and `line_managers` as maps from document id, and
`fcm_tokens` as a map plus the set of ids whose read throws. The
dashboard's handlers are methods of the class `Dashboard.Dashboard`, which
holds the three collections. Each handler's loop lives in a module-level
method and is proved equal to a specification function. The
specification functions are recursive folds in `Imports`,
`OvertimeUpdates` and `LineManagers`, and the lemmas about them state what
the source promises. Two kinds of per-row failure are inputs to the
model: a row whose store access throws (`faults`) and the random draw of
`generateRandomPIN` (`draws`).

Files:
- `wrappers.dfy`: Option and Result.
- `js_strings.dfy`: the JavaScript string operations used: truthiness,
  `trim`, `padStart`, `startsWith`, `toUpperCase`, `split`/`join`, the
  one-character `replace`, and decimal digits.
- `time_format.dfy`: `calculateTotalHours`, `convertDecimalToTime`, the
  total-hours cell and the date sort.
- `employee_ids.dfy`: the id rules (overtime import, team tokens,
  MasterSheet number), the team parse and `generateRandomPIN`.
- `store.dfy`: the documents and the batched map update.
- `imports.dfy`: the three imports as folds over rows.
- `overtime_updates.dfy`: `toggleOvertime` and `markSelectedForOvertime`.
- `line_managers.dfy`: manager creation and deletion.
- `dashboard.dfy`: the handler loops and the `Dashboard` class.
- `notifications.dfy`: the four cloud functions.

Where the code departs from what its names and comments suggest, the model follows the code:
- The MasterSheet import does not trim `EmployeeNumber` before padding it
  (web_dashboard/script.js:585). `EmployeeIds.MasterSheetNumberNotTrimmed`
  shows `" 7"` becoming `"00 7"`.
- An epoch object is converted by `new Date(seconds * 1000 + nanoseconds / 1e6)`.
  Its `seconds` branch tests truthiness, so `seconds == 0` falls through
  to `"0:00"`. A value that is neither a timestamp, an epoch object nor a
  string gives `"0:00"`, not a pass-through.
- Team tokens that do not start with `"EMP"` are padded to four digits by
  the form (web_dashboard/script.js:1063-1064). They are not assumed to be
  padded already.

## Model

| member | source | states |
|---|---|---|
| TimeFormat.Rem60 | web_dashboard/script.js:205 | the truncating `%` keeps the sign of the dividend and differs from it by a multiple of 60 |
| TimeFormat.FormatParseRoundTrip | web_dashboard/script.js:204-207 | an `H:MM` rendering of `m` minutes reads back as `m` exactly when `m >= 0`; a negative count renders as text that does not read back |
| TimeFormat.FormatShape | web_dashboard/script.js:204-214 | the `H:MM` rendering shared by both total-hours paths is, for a non-negative count, the digits of `floor(m/60)`, a colon, and the two digits of `m % 60` |
| TimeFormat.NanosToMillis | web_dashboard/script.js:185 | a nanosecond count becomes whole milliseconds rounded toward zero, as `new Date` truncates |
| TimeFormat.FormatParseNonNegative | web_dashboard/script.js:211-214 | a non-negative count renders as hours, a colon and two-digit minutes that read back as the count |
| TimeFormat.FormatParseNegative | web_dashboard/script.js:204-207 | a negative count renders with minus signs and does not read as a duration |
| TimeFormat.FormatEightThirty | web_dashboard/script.js:211-214 | 510 minutes render as "8:30" |
| TimeFormat.FormatZero | web_dashboard/script.js:211-214 | 0 minutes render as "0:00" |
| TimeFormat.FormatQuarterEarly | web_dashboard/script.js:204-207 | -15 minutes render as "-1:-15", with no clamping |
| TimeFormat.ToDate | web_dashboard/script.js:182-200 | a conversion gives no date exactly for a missing value, a non-string non-timestamp value, or an epoch object whose `seconds` is 0 |
| TimeFormat.EpochToMilliseconds | web_dashboard/script.js:185 | an epoch object in range becomes `seconds*1000 + floor(nanoseconds/10^6)` milliseconds |
| TimeFormat.RoundToMinutes | web_dashboard/script.js:203 | `Math.round` of milliseconds over 60000 lies within half a minute of the difference |
| TimeFormat.FormatDifference | web_dashboard/script.js:202-207 | the rendered difference reads back as the rounded minute count when that count is non-negative |
| TimeFormat.CalculateTotalHours | web_dashboard/script.js:179-208 | "0:00" when either argument has no usable encoding; "NaN:NaN" when either is an Invalid Date and the other has a date |
| TimeFormat.CalculateTotalHoursReadsBack | web_dashboard/script.js:202-207 | with two valid dates, the result reads back as the rounded difference in minutes when that is non-negative |
| TimeFormat.TotalHoursOfFullShift | web_dashboard/script.js:179-208 | check-in 09:00 and check-out 17:30 give "8:30" |
| TimeFormat.TotalHoursOfEarlyCheckOut | web_dashboard/script.js:179-208 | a check-out 15 minutes before the check-in gives "-1:-15" |
| TimeFormat.TotalHoursOfZeroSeconds | web_dashboard/script.js:184 | an epoch object with `seconds == 0` gives "0:00" even with non-zero nanoseconds |
| TimeFormat.TotalHoursCell | web_dashboard/script.js:154-159 | a truthy check-in and check-out use `calculateTotalHours`; otherwise a stored total is rendered and reads back when not negative; otherwise "0:00" |
| TimeFormat.LexLessAsymmetric | web_dashboard/script.js:129 | the code-unit order of date keys is asymmetric |
| TimeFormat.LexNotLessTransitive | web_dashboard/script.js:129 | "not earlier than" on date keys is transitive |
| TimeFormat.InsertByDate | web_dashboard/script.js:127-132 | inserting a row gives the rows plus that row, as a multiset |
| TimeFormat.SortByDateDesc | web_dashboard/script.js:127-132 | the sorted rows are a permutation of the input |
| TimeFormat.InsertByDateNewestFirst | web_dashboard/script.js:127-132 | inserting a dated row into newest-first dated rows keeps them newest first |
| TimeFormat.SortByDateDescNewestFirst | web_dashboard/script.js:127-132 | when every row has a date, the sort puts the newest date first |
| TimeFormat.SortKeepsDated | web_dashboard/script.js:127-132 | sorting dated rows leaves only dated rows |
| JsStrings.Trim | web_dashboard/script.js:741 | the trimmed string has no white space at either end and is no longer than the input |
| JsStrings.TrimStartSuffix | web_dashboard/script.js:741 | trimming the start removes only leading white space: the result is a suffix of the input |
| JsStrings.TrimEndPrefix | web_dashboard/script.js:741 | trimming the end removes only trailing white space: the result is a prefix of the input |
| JsStrings.TrimKeepsTrimmed | web_dashboard/script.js:741 | a string with no white space at its ends is its own trim |
| JsStrings.TrimIdempotent | web_dashboard/script.js:741 | trimming twice is trimming once |
| JsStrings.PadStart | web_dashboard/script.js:749 | `padStart` never truncates; it puts the fill before the string up to the target length |
| JsStrings.PadStartIdempotent | web_dashboard/script.js:749 | padding twice is padding once |
| JsStrings.JoinSplit | web_dashboard/script.js:1032 | joining the pieces of a split gives back the input |
| JsStrings.SplitJoin | web_dashboard/script.js:1032 | splitting comma-free pieces joined by commas gives back the pieces |
| JsStrings.ReplaceFirst | functions/index.js:45 | a one-character `replace` changes only the first occurrence |
| JsStrings.NatToString | web_dashboard/script.js:329 | the decimal rendering of a number is digits that read back as that number, with no leading zero |
| JsStrings.ParseNatLeadingZeros | web_dashboard/script.js:749 | zeros put in front of digits by `padStart` do not change the number they read as |
| JsStrings.IndexOf | functions/index.js:45 | the position of the first occurrence of a character, or the length when it does not occur |
| EmployeeIds.HasPrefixAnyCaseIsUpperStartsWith | web_dashboard/script.js:744 | the any-case "EMP" test equals `toUpperCase().startsWith('EMP')` |
| EmployeeIds.OvertimeDocIdShape | web_dashboard/script.js:741-752 | the overtime document id is "EMP" followed by at least four characters, with no white space at either end |
| EmployeeIds.OvertimeDocIdOfDigits | web_dashboard/script.js:741-752 | a bare run of digits becomes "EMP" followed by the digits padded with zeros to four characters |
| EmployeeIds.OvertimeDocIdIdempotent | web_dashboard/script.js:741-752 | normalising an id the overtime rule produced gives the same id again |
| EmployeeIds.OvertimeDocIdKeepsValue | web_dashboard/script.js:749-752 | the digits after "EMP" read as the same number as the bare cell |
| EmployeeIds.OvertimeDocIdIgnoresPrefix | web_dashboard/script.js:744-746 | a bare number, "EMP"+number and "emp"+number reach the same document |
| EmployeeIds.OvertimeDocIdOfSeven | web_dashboard/script.js:741-752 | "7" maps to "EMP0007" |
| EmployeeIds.OvertimeDocIdOfPrefixed | web_dashboard/script.js:741-752 | "EMP0007" maps to "EMP0007" |
| EmployeeIds.OvertimeDocIdOfLowerPrefixed | web_dashboard/script.js:741-752 | "emp7" maps to "EMP0007" |
| EmployeeIds.OvertimeDocIdOfPaddedSeven | web_dashboard/script.js:741 | " 7 " maps to "EMP0007" |
| EmployeeIds.OvertimeDocIdOfMissing | web_dashboard/script.js:741 | a missing cell maps to "EMP0000" |
| EmployeeIds.TeamMemberDocId | web_dashboard/script.js:1062-1065 | a token starting with case-sensitive "EMP" is kept; any other token becomes "EMP" and the token padded to four characters |
| EmployeeIds.TeamMemberDocIdOfDigits | web_dashboard/script.js:1062-1065 | a bare run of digits becomes "EMP" followed by the digits padded to four characters |
| EmployeeIds.TeamMemberDocIdIdempotent | web_dashboard/script.js:1106-1109 | applying the team rule twice is applying it once |
| EmployeeIds.TeamAndOvertimeAgreeOnDigits | web_dashboard/script.js:1062-1065 | on a bare run of digits the team rule and the overtime rule give the same id |
| EmployeeIds.TeamKeepsPrefixedToken | web_dashboard/script.js:1063 | "EMP7" stays "EMP7" under the team rule but becomes "EMP0007" under the overtime rule |
| EmployeeIds.TeamPrefixesLowerCaseToken | web_dashboard/script.js:1063-1064 | "emp7" becomes "EMPemp7" under the case-sensitive team rule |
| EmployeeIds.ParseTeamMembers | web_dashboard/script.js:1032 | every team token is non-empty, trimmed and free of commas |
| EmployeeIds.ParseTeamMembersJoin | web_dashboard/script.js:1032 | tokens written with commas between them parse back to the same tokens |
| EmployeeIds.ParseTeamMembersOfEmpty | web_dashboard/script.js:1032 | an empty input names no team member |
| EmployeeIds.ParseTeamMembersSkipsBlanks | web_dashboard/script.js:1032 | " 7 ,,EMP0012" parses to "7" and "EMP0012" |
| EmployeeIds.GenerateRandomPin | web_dashboard/script.js:328-330 | a generated PIN is four digits, not starting with 0, with a value in 1000..9999 |
| EmployeeIds.MasterSheetNumber | web_dashboard/script.js:585 | the employee number is the cell with '0's in front up to exactly `max(4, length)` characters; an absent cell gives "" |
| EmployeeIds.MasterSheetDocId | web_dashboard/script.js:603 | the MasterSheet document id is "EMP" followed by the employee number, unchanged |
| EmployeeIds.OvertimeFindsImportedNumber | web_dashboard/script.js:585-603 | a record imported from a bare-digit number is found by the overtime import under that number, with or without "EMP" |
| EmployeeIds.MasterSheetNumberNotTrimmed | web_dashboard/script.js:585 | the MasterSheet import keeps white space: " 7" becomes "00 7" |
| EmployeeIds.OvertimeNumberTrimmed | web_dashboard/script.js:741 | the overtime import trims: " 7" becomes "EMP0007" |
| Store.UpdateEach | web_dashboard/script.js:902-914 | a run of document updates never adds or removes a document |
| Store.UpdateEachPointwise | web_dashboard/script.js:902-914 | with an idempotent update, a document is updated once exactly when its id occurs among the ids |
| Imports.RowPin | web_dashboard/script.js:439 | a truthy PIN cell is kept; otherwise the PIN is four digits in 1000..9999 |
| Imports.NewEmployee | web_dashboard/script.js:438-452 | a new employee document carries the row's PIN and name, all three flags false and no line manager |
| Imports.EmployeeStepRule | web_dashboard/script.js:454-468 | a row is a success exactly when its store access does not throw and no employee has its PIN, and its document is then appended; otherwise it is an error and nothing is written |
| Imports.ImportEmployeesRun | web_dashboard/script.js:436-469 | every row counts once as a success or an error; existing employees are kept; one document is appended per success |
| Imports.ImportEmployees | web_dashboard/script.js:436-469 | the import of a whole sheet counts every row once as a success or an error, keeps the existing employees and appends one per success |
| Imports.AppendFreshKeepsUnique | web_dashboard/script.js:454-460 | adding an employee whose PIN the query did not find keeps PINs unique |
| Imports.ImportEmployeesKeepsPinsUnique | web_dashboard/script.js:436-469 | the import keeps PINs unique |
| Imports.ImportedEmployeesFromRows | web_dashboard/script.js:438-459 | every appended employee is the document built from one of the rows |
| Imports.ImportedEmployeesAreFresh | web_dashboard/script.js:438-452 | every added employee has all three flags false and no line manager, and comes from a row under that row's PIN |
| Imports.ImportEmployeesUnique | web_dashboard/script.js:436-469 | the whole import keeps PINs unique |
| Imports.ImportEmployeesSameRowTwice | web_dashboard/script.js:454-464 | the same row twice gives one success and one error, and one new employee |
| Imports.MasterRecordOf | web_dashboard/script.js:585-594 | a new MasterSheet record carries the padded number, no overtime and no line manager |
| Imports.MasterStepRule | web_dashboard/script.js:596-617 | a row is a success exactly when its store access does not throw and no document has its number, and its record is then set at "EMP" followed by the number; otherwise it is an error and the sheet is unchanged |
| Imports.ImportMasterSheetRun | web_dashboard/script.js:583-618 | every row counts once as a success or an error, and none as not-found |
| Imports.ImportMasterSheet | web_dashboard/script.js:583-618 | the import of a whole sheet counts every row once as a success or an error |
| Imports.ImportedRecordsFromRows | web_dashboard/script.js:596-609 | every document the run adds is one row's record, at "EMP" followed by that record's number |
| Imports.ImportedRecordsAreRows | web_dashboard/script.js:585-609 | every document the MasterSheet import adds is the record built from one of the rows, at its own id |
| Imports.DocIdInjective | web_dashboard/script.js:603 | different employee numbers get different document ids |
| Imports.MasterStepAdds | web_dashboard/script.js:596-613 | one row keeps the sheet keyed by number, keeps every existing document, and adds one document exactly on success |
| Imports.MasterRunAdds | web_dashboard/script.js:583-618 | the import keeps the sheet keyed by number and every existing document, and grows it by the success count |
| Imports.ImportMasterSheetAdds | web_dashboard/script.js:583-618 | the same for the whole sheet of rows |
| Imports.ImportMasterSheetSameRowTwice | web_dashboard/script.js:596-613 | the same row twice gives one success and one error, and one new document |
| Imports.Stamp | web_dashboard/script.js:767-771 | the overtime update sets `hasOvertime` and `overtime` and changes no other field |
| Imports.OvertimeStepRule | web_dashboard/script.js:761-782 | a row is an error exactly when its store access throws, a success exactly when it does not and the document exists (which is then stamped), and a not-found otherwise |
| Imports.OvertimeHits | web_dashboard/script.js:741-769 | each row's target is its normalised id and its value is `Overtime || 'Yes'` |
| Imports.ApplyOvertime | web_dashboard/script.js:738-783 | the overtime import never creates or deletes a document, and every row counts once as success, not-found or error |
| Imports.ImportOvertime | web_dashboard/script.js:738-783 | the import of a whole sheet never creates or deletes a document, and counts every row once |
| Imports.LastHit | web_dashboard/script.js:738-783 | the last row without a fault that reaches a document; when it returns `n`, no row without a fault reaches it |
| Imports.ApplyOvertimePointwise | web_dashboard/script.js:761-778 | each document ends with the stamp of the last row that reached it, or unchanged |
| Imports.ImportOvertimeIdempotent | web_dashboard/script.js:738-783 | importing the same overtime sheet again, without faults, changes nothing |
| OvertimeUpdates.Toggled | web_dashboard/script.js:871-877 | the toggle flips `hasOvertime`, sets `overtime` to "Yes" when it becomes true and "No" otherwise, and changes no other field |
| OvertimeUpdates.ToggleTwice | web_dashboard/script.js:871-877 | toggling twice restores `hasOvertime`, and restores the record exactly when its `overtime` agreed with `hasOvertime` |
| OvertimeUpdates.ToggleOvertime | web_dashboard/script.js:862-885 | the named document becomes its toggle and no other document changes; a missing document leaves the sheet as it was |
| OvertimeUpdates.MarkYesIdempotent | web_dashboard/script.js:909-913 | marking a record twice is marking it once |
| OvertimeUpdates.MarkSelected | web_dashboard/script.js:900-917 | the batch never adds documents; a missing id makes the commit fail and nothing is written |
| OvertimeUpdates.MarkSelectedPointwise | web_dashboard/script.js:902-914 | a committed batch marks exactly the selected documents with `hasOvertime` and "Yes" |
| OvertimeUpdates.MarkNothing | web_dashboard/script.js:890-893 | an empty selection changes nothing |
| LineManagers.TeamDocIds | web_dashboard/script.js:1060-1065 | one MasterSheet id per team token, by the team rule |
| LineManagers.CreateLineManager | web_dashboard/script.js:1024-1080 | nothing is written when the manager has no MasterSheet document; otherwise a `line_managers` record holding the manager's id, employee number and name, the department and the parsed team is added under the new id, the existing records stay as they were, and no MasterSheet document is created or removed |
| LineManagers.CreateLineManagerPointwise | web_dashboard/script.js:1060-1080 | after creation, exactly the team's documents carry the manager's id, name and department; others are unchanged |
| LineManagers.FirstWithPin | web_dashboard/script.js:1143-1148 | `docs[0]` of the PIN query is the first employee with that PIN, or none |
| LineManagers.ClearManagerClears | web_dashboard/script.js:1149-1152 | clearing an employee removes `lineManagerId` and `lineManagerDepartment` and changes no other field |
| LineManagers.ClearEmployeeBackRefs | web_dashboard/script.js:1141-1155 | clearing keeps every employee and every PIN in place |
| LineManagers.ClearEmployeeBackRefsPointwise | web_dashboard/script.js:1141-1155 | with unique PINs, an employee loses its line-manager fields exactly when its PIN is a team token |
| LineManagers.DeleteManager | web_dashboard/script.js:1133-1158 | the manager record is removed, the MasterSheet is untouched, and employees keep their PINs |
| LineManagers.DeleteLeavesMasterSheetBackReference | web_dashboard/script.js:1060-1080 | creating a manager and deleting it leaves the team member's MasterSheet document naming the deleted manager |
| LineManagers.DeleteManagerReversing | web_dashboard/script.js:1133-1158 | the corrected delete removes the manager, clears the employees as the source does, and keeps the MasterSheet's documents |
| LineManagers.RestoredAt | web_dashboard/script.js:1060-1080 | with the corrected delete, each MasterSheet document is as it was before creation |
| LineManagers.RestoresSheet | web_dashboard/script.js:1060-1080 | with the corrected delete, the MasterSheet is as it was before creation |
| LineManagers.CreateThenDeleteRestores | web_dashboard/script.js:1024-1158 | creating a manager and deleting it with the corrected delete restores the MasterSheet and `line_managers` |
| Dashboard.HasPin | web_dashboard/script.js:454-458 | the PIN query's loop reports a match exactly when some employee has the PIN |
| Dashboard.FindByPin | web_dashboard/script.js:1143-1148 | the query's loop finds the first employee with the PIN |
| Dashboard.RunEmployeeImport | web_dashboard/script.js:436-469 | the row loop computes exactly the employee-import fold |
| Dashboard.ApplyRecords | web_dashboard/script.js:583-618 | the row loop computes exactly the MasterSheet-import fold |
| Dashboard.RunMasterSheetImport | web_dashboard/script.js:583-618 | the MasterSheet import of the rows |
| Dashboard.ApplyHits | web_dashboard/script.js:738-783 | the row loop computes exactly the overtime-import fold |
| Dashboard.RunOvertimeImport | web_dashboard/script.js:738-783 | the overtime import of the rows |
| Dashboard.StageOvertimeBatch | web_dashboard/script.js:902-917 | the staged batch is every selected update, and the commit succeeds exactly when every id names a document |
| Dashboard.UpdateDocs | web_dashboard/script.js:1060-1080 | the member loop applies the update to each team document in turn |
| Dashboard.ClearTeam | web_dashboard/script.js:1142-1154 | the member loop computes exactly the clearing fold |
| Dashboard.Dashboard.ImportEmployees | web_dashboard/script.js:436-469 | `employees` and the counts become the employee import's; the other collections are unchanged |
| Dashboard.Dashboard.ImportMasterSheet | web_dashboard/script.js:583-618 | the MasterSheet and the counts become the MasterSheet import's; the other collections are unchanged |
| Dashboard.Dashboard.ImportOvertime | web_dashboard/script.js:738-783 | the MasterSheet and the counts become the overtime import's; the other collections are unchanged |
| Dashboard.Dashboard.ToggleOvertime | web_dashboard/script.js:862-885 | reports whether the document existed, and toggles it |
| Dashboard.Dashboard.MarkSelectedForOvertime | web_dashboard/script.js:888-920 | commits exactly when the selection is non-empty and every id exists, and then marks them all |
| Dashboard.Dashboard.CreateLineManager | web_dashboard/script.js:1024-1089 | reports whether the manager was found, and the store becomes the result of manager creation |
| Dashboard.Dashboard.DeleteManager | web_dashboard/script.js:1133-1158 | the store becomes the as-written delete's result |
| Dashboard.Dashboard.DeleteManagerReversing | web_dashboard/script.js:1133-1158 | the store becomes the corrected delete's result |
| Notifications.Fetch | functions/index.js:27 | a lookup throws for an empty id or a failing id, and finds the document otherwise when it exists |
| Notifications.UsableToken | functions/index.js:29-38 | a token is used exactly when the lookup succeeds, the document exists and its `token` is truthy |
| Notifications.RequestTypeOf | functions/index.js:22 | `requestType` defaults to "check-out" when falsy |
| Notifications.DisplayType | functions/index.js:25 | the display type is "Check-In" exactly for "check-in", and "Check-Out" otherwise |
| Notifications.ActionText | functions/index.js:45 | the body's action text is the request type with its first hyphen, if any, replaced by a space |
| Notifications.StatusNotification | functions/index.js:42-55 | only "approved" and "rejected" give a notification, titled and worded for that status |
| Notifications.CheckOutAction | functions/index.js:45 | "check-out" reads "check out" in the body |
| Notifications.CheckInAction | functions/index.js:45 | "check-in" reads "check in" in the body |
| Notifications.UntypedApprovalIsCheckOut | functions/index.js:22-46 | an approved request without a type reads "Check-Out Request Approved" and "Your request to check out has been approved." |
| Notifications.CheckInRejection | functions/index.js:22-51 | a rejected check-in reads "Check-In Request Rejected" and "Your request to check in has been rejected." |
| Notifications.DisplayTypeIsCaseSensitive | functions/index.js:25 | a request type "Check-In" is displayed as "Check-Out" |
| Notifications.OnStatusUpdate | functions/index.js:10-99 | a message is produced exactly when the status changed to approved or rejected and the employee has a usable token; it carries that token, the status and the request type |
| Notifications.StatusUpdateReadsOneToken | functions/index.js:27 | the status handler reads only the employee's token document |
| Notifications.ManagerIdCandidates | functions/index.js:116-119 | the candidates are the id and then the id without "EMP", or with "EMP" in front; the two always differ |
| Notifications.CandidatesOfBothForms | functions/index.js:116-119 | an id with and without "EMP" tries the same two documents in opposite order |
| Notifications.FirstToken | functions/index.js:171-188 | the first candidate with a usable token supplies it; none is found exactly when no candidate has one |
| Notifications.FailedLookupIsSkipped | functions/index.js:182-184 | a candidate whose lookup throws is passed over |
| Notifications.RequestMessageOf | functions/index.js:122-141 | the manager's message carries the token and is titled "New <display type> Request" |
| Notifications.OnRequestCreated | functions/index.js:105-195 | a message is produced exactly when `lineManagerId` is present and a candidate has a token; it uses the first such token |
| Notifications.FindAndSendNotification | functions/index.js:170-189 | the loop over candidates, stopping at the first usable token, produces the message with that token, or none |
| Notifications.SendNewRequestNotification | functions/index.js:105-195 | the handler computes exactly the `onCreate` result |
| Notifications.PrefixedTokenIsFound | functions/index.js:116-119 | a manager whose token sits under "EMP"+id is still reached from the bare id |
| Notifications.StoreUserFcmToken | functions/index.js:199-221 | `invalid-argument` exactly when `userId` or `token` is falsy; `internal` when the write fails; otherwise the token is what later lookups of that user find, and other users are unaffected |
| Notifications.StoredTokenReachesManager | functions/index.js:105-221 | once a manager stores a token under the id their requests name, a new request notifies them with it |
| Notifications.TopicName | functions/index.js:250 | the topic is "manager_" followed by the manager id |
| Notifications.TopicNameRoundTrip | functions/index.js:250 | the manager id is read back from the topic name |
| Notifications.SubscribeManagerToTopic | functions/index.js:224-261 | a subscription happens exactly when `managerId` is truthy and has a usable token, to that manager's topic |

## Findings

| source | as written | input that shows it | evidently intended | confidence | as-written member | corrected member |
|---|---|---|---|---|---|---|
| web_dashboard/script.js:1133-1158 | `deleteManager` looks up each team token as an employee PIN and clears those employees. It never touches the MasterSheet documents into which manager creation wrote `lineManagerId`, `lineManagerName` and `lineManagerDepartment` (1068-1076). | Create a manager with team "7" whose member document EMP0007 exists, then delete that manager: EMP0007 still names the deleted manager. | Deleting a manager also removes the back-references creation wrote, so create-then-delete restores the MasterSheet. | not executed | LineManagers.DeleteLeavesMasterSheetBackReference | LineManagers.CreateThenDeleteRestores |

`LineManagers.DeleteManagerReversing` and
`Dashboard.Dashboard.DeleteManagerReversing` are the corrected delete. The
as-written `LineManagers.DeleteManager` is kept because it is what the
dashboard does.

## Left out

- Floating point is left out:
  - `Math.round(decimalHours * 60)`: the stored total is given as a whole number of minutes;
  - the `Math.round` of a fractional millisecond difference: the differences are whole milliseconds;
  - `parseFloat` of the salary: not modelled;
  - `Math.random`: each generated PIN is given as a draw in 0..8999.
- TimeFormat.EpochToMilliseconds: the double-precision sum `seconds * 1000 + nanoseconds / 1e6` is taken as exact. Near present-day epochs a double resolves about 2^-12 ms, so a `nanoseconds` within about 122 ns of the next whole millisecond (its remainder modulo 1_000_000 about 999_878 or more, for example 5_999_900) rounds up in the source before `new Date` truncates, where the model gives one millisecond less.
- Date string parsing (`new Date(string)`) is a parameter `parseDate`. `formatTime`, `formatDate` and the locale formatting are not modelled.
- `localeCompare` is modelled as code-unit order, which agrees with it on `YYYY-MM-DD` keys.
- TimeFormat.SortByDateDescNewestFirst: proved only when every row has a date. Undated rows make the comparator inconsistent, and the engine's order is then unspecified.
- Spreadsheet reading (`FileReader`, XLSX) is left out: rows arrive as already-parsed records of optional strings.
- Non-string cell values and their `toString` are not modelled.
- The DOM, `alert`, modals, the HTML tables and the template download are not modelled. `confirm` dialogs are taken as accepted.
- Firebase authentication is left out.
- Server timestamps (`createdAt`, `lastUpdated`, `overtimeUpdatedAt`, `updatedAt`) are not stored.
- The model takes `docs[0]` of a query to be the first match in insertion order. Firestore orders query results by document id by default, and `employees` documents get random ids from `.add()` (web_dashboard/script.js:459), so the real `docs[0]` is whichever match has the smallest document id. The two differ only when two employees share a PIN: in LineManagers.FirstWithPin and in `deleteManager` (web_dashboard/script.js:1147).
- JsStrings.UpperAscii: `toUpperCase` is modelled on ASCII letters only; other characters are left unchanged. The one use, the any-case `'EMP'` test (web_dashboard/script.js:744), is unaffected, because no non-ASCII character upper-cases to E, M or P.
- In the imports and the token lookups, a store access that throws is an input (`faults`, `failing`) rather than a network event.
- LineManagers.CreateLineManager: its store accesses are assumed to succeed. In the source, a failing read of the manager's document or a failing `add` (web_dashboard/script.js:1036-1057) stops the handler before any member is updated, and a failing member update is swallowed and the loop goes on (1067-1078). The model does not capture either case.
- LineManagers.DeleteManager: its store accesses are assumed to succeed. In the source, a query or update that throws inside the member loop (web_dashboard/script.js:1142-1152) aborts the handler. The members cleared before it stay cleared, and the manager document is not deleted (1158 is not reached). The model does not capture that partial state.
- LineManagers.DeleteManagerReversing: the same assumption as DeleteManager.
- OvertimeUpdates.ToggleOvertime: the read and the update are assumed to succeed. A failure of either leaves the document unchanged in the source, and the model does not take it as an input.
- OvertimeUpdates.MarkSelected: the commit is assumed to fail only for a missing document. Any other commit failure also writes nothing in the source.
- Each handler runs alone. Interleaving of asynchronous handlers, and the check-then-insert race between concurrent imports, are not modelled.
- Imports.ImportEmployeesRun: rows are normalised into PINs, records or targets before the loop, in one pass. The source computes each row's PIN, record or target inside its loop, but these computations are pure, so the results are the same.
- Imports.ImportMasterSheetRun: the same up-front normalisation as the employee import.
- Imports.ApplyOvertime: the same up-front normalisation as the employee import.
- The android and APNs settings and the constant `click_action` of the messages are left out. `admin.messaging().send` and `subscribeToTopic` are not performed: a handler's result is the message or the subscription it would hand over. A failed send or subscription, which the source also turns into `null`, is therefore not modelled.
- Notifications.OnStatusUpdate: an absent or empty `employeeId` gives no message. In the source that case throws at `doc()`, before the promise chain, and the trigger fails with no message sent.
- Notifications.StoreUserFcmToken: `userId` and `token` are taken to be strings. A truthy non-string value is not modelled.
- The Firebase Admin initialisation and the lint configuration are left out.

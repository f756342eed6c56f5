# Team workspace: members and tasks

A Dafny model of the logic of a small React application that manages team
members and their tasks. It covers:

- the two validation schemas (member form and task form) and the looser
  schema of members served by a remote API;
- the pages that read and write the browser's local storage: add, list,
  edit and delete members; create, list, filter, edit and delete tasks;
- the task card's display rules;
- the two remote member pages, whose server replies are parameters;
- the sidebar's navigation state and the header's language rotation.

Local storage is a `Storage` object with one slot per key (`"members"`,
`"tasks"`). A slot is `Absent` (no entry, or the empty string, which every
page tests as falsy), `Malformed` (text on which `JSON.parse` throws) or
`Stored(items)`. Pages are classes whose fields are the page's state, with
`modifies` clauses on the handlers. The pure parts are functions with lemmas.

Loosely typed values (a task's `id` and `memberId`, the id of a pending
delete) are `JsValues.JsValue`. That module spells out the JavaScript
semantics the pages rely on:

- `===`, where NaN never equals anything;
- truthiness;
- `Number(...)` on strings of decimal digits;
- integer-to-string conversion, with its round trip through `Number`;
- ASCII `toLowerCase`/`toUpperCase`, `includes`, `split` and `join`.

Dates are `YYYY-MM-DD` strings, parsed to day numbers by the civil-calendar
algorithm. A `Clock` is the current instant in milliseconds plus the local
time zone's offset.

## Model

| member | source | states |
|---|---|---|
| JsValues.StrictEquals | src/pages/EditTask.tsx:62 | `===` on the loose values: equal exactly when the values are the same and not NaN |
| JsValues.Truthy | src/pages/new.tsx:356 | the falsy values are exactly `undefined`, `null`, NaN, 0 and "" |
| JsValues.ToNumber | src/pages/new.tsx:78 | `Number(v)`: a number or NaN; numbers unchanged; `undefined` and NaN give NaN |
| JsValues.ParseNumber | src/pages/tasks/EditTask.tsx:52 | `Number(s)` on text: the empty string is 0, and only a leading '-' gives a negative number |
| JsValues.IntToStringRoundTrip | src/component/TaskCard.tsx:75 | writing an integer id into a route and reading it back with `Number` gives the same id |
| JsValues.Includes | src/pages/TasksList.tsx:101-102 | `s.includes(t)` holds exactly when `t` occurs in `s` at some offset |
| JsValues.OccursAtTransitive | src/pages/TasksList.tsx:101-102 | an occurrence inside an occurrence is an occurrence |
| JsValues.SplitJoinRoundTrip | src/tp2/pages/MembersTablePage.tsx:91 | joining the pieces of `split(sep)` with `sep` gives the string back |
| Dates.LocalMidnightMs | src/validation/schemasTask.ts:16 | `new Date().setHours(0,0,0,0)` is the start of the local day that contains now |
| Dates.ParseIsoDate | src/validation/schema.ts:18-23 | a string parses exactly when it is shaped YYYY-MM-DD with a month from 1 to 12 and a day within that month |
| Dates.DateMs | src/validation/schemasTask.ts:16-17 | `new Date(s)` is midnight UTC of the parsed day, and Invalid Date exactly when the string does not parse |
| Dates.EpochIsDayZero | src/validation/schemasTask.ts:13 | day numbers count from 1970-01-01 |
| Dates.March10th2024 | src/validation/schemasTask.ts:13 | the parser gives "2024-03-10" its day number since the epoch |
| MemberSchema.MemberErrors | src/validation/schema.ts:13-25 | no issues exactly when the form is valid; each issue names a failing field; every failing field has an issue (name of at least 2 characters, email syntax, one of the five roles, a parsable join date, active or inactive) |
| MemberSchema.ValidMember | src/validation/schema.ts:13-25 | the form is accepted exactly when every field rule holds |
| MemberSchema.IsEmail | src/validation/schema.ts:16 | an accepted address contains an '@' |
| MemberSchema.IdIsOptional | src/validation/schema.ts:14 | the id plays no part in acceptance or in the issues |
| MemberSchema.BoAtXIsEmail | src/validation/schema.ts:16 | a plain address passes the email rule |
| MemberSchema.NotAnEmail | src/validation/schema.ts:16 | text without '@' fails the email rule |
| TaskSchema.FieldIssues | src/validation/schemasTask.ts:7-25 | a field raises no issue exactly when its rule holds, and every issue it raises names that field; the due date is judged by the corrected rule |
| TaskSchema.TaskErrors | src/validation/schemasTask.ts:6-26 | no issues exactly when the task is valid (title of 2 to 100 characters, optional description, a parsable date not before today's local date (the corrected rule), the enumerated status and priority, a numeric memberId of at least 1, an optional numeric id); each issue names a failing field and each failing field has one |
| TaskSchema.ValidTask | src/validation/schemasTask.ts:6-26 | a task is accepted exactly when every field rule holds |
| TaskSchema.DueDateNotPastAsWritten | src/validation/schemasTask.ts:16-18 | the rule as written: the date must parse; an earlier local day is refused and a later one accepted (offsets under a day) |
| TaskSchema.DueDateNotPast | src/validation/schemasTask.ts:16-18 | the corrected rule: the date must parse; today's local date and later days are accepted, earlier days refused |
| TaskSchema.AsWrittenIsStricter | src/validation/schemasTask.ts:16-18 | within a day of UTC, the written rule accepts only dates the corrected rule accepts; the two differ only on today's date, west of UTC |
| TaskSchema.SchemaAgreesEastOfUtc | src/validation/schemasTask.ts:6-26 | at UTC and east of it, the schema as written and the model's schema accept the same tasks |
| TaskSchema.SchemaWestOfUtc | src/validation/schemasTask.ts:6-26 | west of UTC, the schema as written accepts a subset of the model's, missing exactly the valid tasks due today |
| TaskSchema.DueDateNotPastOnInstants | src/validation/schemasTask.ts:16-18 | the corrected date rule: the due day's local start is not before today's local start |
| TaskSchema.AsWrittenRejectsTodayWestOfUtc | src/validation/schemasTask.ts:16-18 | west of UTC, the rule as written rejects today's local date, which the corrected rule accepts |
| TaskSchema.AsWrittenAgreesEastOfUtc | src/validation/schemasTask.ts:16-18 | at UTC and east of it, the written and the corrected rule agree on every string |
| TaskSchema.TodayRejectedInNewYork | src/validation/schemasTask.ts:16-18 | at 10:00 in UTC-5 the default due date, today, is rejected as written and accepted by the corrected rule |
| TaskSchema.ValidMemberIdIsFixedByNumber | src/validation/schemasTask.ts:25 | an accepted memberId is unchanged by `Number(...)` |
| RemoteMemberSchema.ParseRemoteMember | src/tp2/types/member.ts:3-13 | a member comes out exactly when the record is valid, and it agrees with the record on every schema key |
| RemoteMemberSchema.RecordRoundTrip | src/tp2/types/member.ts:3-13 | a member's own record is valid exactly when the name is non-empty and the email valid, and then parses back to the member |
| RemoteMemberSchema.NumericIdRefused | src/tp2/types/member.ts:4 | a numeric id, as in local storage, is refused |
| RemoteMemberSchema.MissingLatRefused | src/tp2/types/member.ts:11 | a record without `lat` is refused |
| RemoteMemberSchema.NameRuleWeakerThanForm | src/tp2/types/member.ts:5 | every name the member form accepts is accepted here, and a one-letter name only here |
| RemoteMemberSchema.FreeTextFields | src/tp2/types/member.ts:7-9 | role, status and join date can be any text |
| LocalStore.ReadOrEmpty | src/pages/AddMemberForm.tsx:33-35 | an absent key reads as the empty list, stored items as themselves, and malformed text fails |
| Sequences.Filter | src/pages/ListMember.tsx:63 | `filter` keeps exactly the elements that pass the test, in order |
| Sequences.FilterIdempotent | src/pages/ListMember.tsx:182 | filtering twice with one test is filtering once |
| Sequences.FilterAppend | src/pages/ListMember.tsx:183-184 | filtering distributes over concatenation |
| Sequences.MapWhere | src/pages/EditMember.tsx:78-80 | the `map` with a condition changes exactly the picked elements and keeps the length |
| Sequences.Find | src/pages/EditMember.tsx:53 | `find` gives nothing exactly when no element passes, else the first that does |
| StringOrder.SortStrings | src/pages/ListMember.tsx:177 | `sort()` gives a strictly increasing list of the same distinct values |
| StringOrder.Distinct | src/pages/ListMember.tsx:176 | `new Set(...)` keeps each value once, and exactly the values of the list; its order is not stated, because `sort()` follows and a sorted list depends only on its values |
| StringOrder.SortedIsUnique | src/pages/ListMember.tsx:175-178 | two strictly sorted lists with the same values are equal |
| AddMember.AddMemberDefaults | src/pages/AddMemberForm.tsx:21-27 | empty name and email, no role, status "active", join date today; the defaults are never accepted |
| AddMember.MaxId | src/pages/AddMemberForm.tsx:38 | `Math.max` of the ids is at least every id and is one of them |
| AddMember.NextId | src/pages/AddMemberForm.tsx:37-39 | the new id is 1 for an empty list, else the largest id plus one, above every stored id |
| AddMember.WithNewMember | src/pages/AddMemberForm.tsx:41-46 | the list grows by one; the old members keep their place; the new member has the form's fields and a fresh id |
| AddMember.AddKeepsIdsUnique | src/pages/AddMemberForm.tsx:37-46 | adding keeps the stored ids pairwise distinct |
| AddMember.SubmitAddMember | src/pages/AddMemberForm.tsx:32-47 | invalid forms are refused; otherwise the stored list, an absent one read as empty, gets the new member; malformed text writes nothing |
| MembersList.DefaultMembersUnique | src/pages/ListMember.tsx:39-46 | the six built-in members have distinct ids |
| MembersList.InitialMembers | src/pages/ListMember.tsx:50-53 | the stored list if present, the six built-in members if absent, a failure if malformed |
| MembersList.WithoutMember | src/pages/ListMember.tsx:62-64 | deleting an id removes every member with it and keeps the others in order |
| MembersList.DeleteRemovesOne | src/pages/ListMember.tsx:62-64 | with distinct ids, deleting a present id removes exactly one member, and an absent id changes nothing |
| MembersList.SetColumnFilter | src/pages/ListMember.tsx:180-196 | "all" drops the column's entry; another value leaves one entry for the column, placed last; other columns' entries stay |
| MembersList.CurrentFilter | src/pages/ListMember.tsx:198-199 | the shown filter is never empty and is "all" when the column has no entry |
| MembersList.SetThenCurrent | src/pages/ListMember.tsx:180-199 | after choosing a value the select shows it ("all" for "all" or "") |
| MembersList.SetKeepsOtherColumns | src/pages/ListMember.tsx:180-199 | choosing a role leaves the shown status filter unchanged, and the other way round |
| MembersList.SetColumnFilterIdempotent | src/pages/ListMember.tsx:180-196 | choosing the same value twice is choosing it once |
| MembersList.UniqueRoles | src/pages/ListMember.tsx:175-178 | the role options are strictly sorted and are exactly the roles that occur |
| MembersList.RoleOptionsIgnoreOrder | src/pages/ListMember.tsx:175-178 | the options depend only on which roles occur |
| MembersList.MembersListPage.DeleteMember | src/pages/ListMember.tsx:58-64 | the list loses the id and is written back whole |
| MembersList.MembersListPage.RoleFilterChange | src/pages/ListMember.tsx:180-187 | the filters become the role update of the old ones |
| MembersList.MembersListPage.StatusFilterChange | src/pages/ListMember.tsx:189-196 | the filters become the status update of the old ones |
| MembersList.OpenMembersList | src/pages/ListMember.tsx:50-60 | the page opens on the initial list, which is written back at once; malformed text opens nothing |
| MembersList.MembersListPage.Persist | src/pages/ListMember.tsx:58-60 | the whole list is written under "members", and the tasks are untouched |
| EditMember.IsValidRoleExactly | src/pages/EditMember.tsx:30-32 | `isValidRole` holds for exactly the five roles |
| EditMember.EditMemberDefaults | src/pages/EditMember.tsx:42-48 | the draft starts with role "Developer", status "active" and join date today |
| EditMember.RouteOfIdMatches | src/pages/EditMember.tsx:53 | the route of an id names exactly the members with that id |
| EditMember.NonNumericRouteMatchesNothing | src/pages/EditMember.tsx:53 | a route that is not a number names no member |
| EditMember.DraftOf | src/pages/EditMember.tsx:57-67 | the draft copies the member's fields without the id; its role is always one of the five, and is the member's own when that is one of them |
| EditMember.LoadEditMember | src/pages/EditMember.tsx:51-71 | seeds from the first stored member the route names; redirects exactly when none is named, including for an empty store; fails on malformed text |
| EditMember.Merge | src/pages/EditMember.tsx:79 | the form's fields over the member's; the member keeps its id when the form has none |
| EditMember.MergeByRoute | src/pages/EditMember.tsx:78-80 | the members the route names are merged; the others and the length are unchanged |
| EditMember.MergeKeepsIds | src/pages/EditMember.tsx:78-80 | merging keeps every id in place, so distinct ids stay distinct |
| EditMember.EditMemberPage.Load | src/pages/EditMember.tsx:51-71 | the draft is seeded by the load rule, or the page leaves for the list; a malformed entry changes nothing |
| EditMember.EditMemberPage.Submit | src/pages/EditMember.tsx:73-89 | invalid data is refused; otherwise the merged list is written back and the page leaves for the member list; malformed text writes nothing and stays; loading ends false |
| TasksList.FilteredTasks | src/pages/TasksList.tsx:100-105 | a task is shown exactly when its title or description contains the term, ignoring case, and its status passes the filter; the result is an ordered subsequence |
| TasksList.NoFilterShowsAll | src/pages/tasks/TasksList.tsx:124-129 | with no term and "all", every task is shown |
| TasksList.SearchIgnoresCase | src/pages/TasksList.tsx:101-102 | searching for a term and for its lower-case form show the same tasks |
| TasksList.LongerTermNarrows | src/pages/TasksList.tsx:101-102 | a task that matches a term matches every part of it |
| TasksList.CountByStatus | src/pages/TasksList.tsx:91-98 | `all` is the number of tasks, and each status count is the length of the tasks filtered by that status; the three add up to at most `all` |
| TasksList.CountDisjoint | src/pages/tasks/TasksList.tsx:115-122 | the status counts add up to the total when every status is one of the three |
| TasksList.CountMatchesQuickFilter | src/pages/tasks/TasksList.tsx:115-129 | each status count is the number of tasks shown by that status filter with an empty search |
| TasksList.AfterConfirm | src/pages/TasksList.tsx:82-89 | a truthy pending id removes every task with it and keeps the rest in order; null, 0 or NaN removes nothing |
| TasksList.DeletingLastTaskIsNotStored | src/pages/TasksList.tsx:67-71 | deleting the only task leaves an empty list, which is not written |
| TasksList.TasksListPage.Persist | src/pages/tasks/TasksList.tsx:84-88 | the list is written only while it is non-empty |
| TasksList.TasksListPage.Load | src/pages/tasks/TasksList.tsx:62-76 | tasks then members are loaded when stored; a malformed entry ends the load; loading ends false |
| TasksList.TasksListPage.DeleteClick | src/pages/tasks/TasksList.tsx:94-97 | the pending id is set and the dialog opens; the tasks are untouched |
| TasksList.TasksListPage.ConfirmDelete | src/pages/tasks/TasksList.tsx:99-113 | the tasks become the confirmed deletion; the pending id and the dialog are reset; a non-empty result is written |
| TasksList.TasksListPage.SetSearchTerm | src/pages/tasks/TasksList.tsx:252 | the search takes the typed text, and nothing else changes |
| TasksList.TasksListPage.SetStatusFilter | src/pages/tasks/TasksList.tsx:211-259 | the status filter takes the chosen value from the cards or the select, and nothing else changes |
| TasksList.TasksListPage.ResetFilters | src/pages/tasks/TasksList.tsx:278-281 | the search becomes "" and the filter "all", and every task is shown |
| NewTask.NewTaskDefaults | src/pages/new.tsx:45-52 | empty title and description, status "todo", priority "medium", due today, no assignee |
| NewTask.DefaultsNeedTitleAndMember | src/pages/tasks/new.tsx:16-25 | the defaults are refused for their title and their missing assignee |
| NewTask.LoadedMembers | src/pages/new.tsx:55-69 | each stored member as form data, in order and with its id; nothing for an absent or malformed entry |
| NewTask.MemberOptions | src/pages/new.tsx:355-356 | the options are exactly the members with a truthy id, in order |
| NewTask.PickedOptionIsMemberId | src/pages/new.tsx:360 | an option's value read back with `Number` is the member's id |
| NewTask.Stamped | src/pages/new.tsx:75-79 | the new task has the clock as id, the coerced assignee and the form's other fields |
| NewTask.StampKeepsMember | src/pages/tasks/new.tsx:48-52 | stamping an accepted task keeps its assignee and its validity |
| NewTask.NewTaskPage.LoadMembers | src/pages/tasks/new.tsx:28-42 | stored members become the loaded list; an absent or malformed entry keeps it |
| NewTask.NewTaskPage.Submit | src/pages/tasks/new.tsx:44-59 | invalid data is refused; otherwise the stamped task is appended to the stored tasks, an absent entry read as empty; malformed text writes nothing |
| EditTask.RouteOfIdMatches | src/pages/EditTask.tsx:62 | the route of an integer id names exactly the tasks with that id |
| EditTask.NormaliseDate | src/pages/EditTask.tsx:71 | a valid date-only string normalises to itself; anything else throws |
| EditTask.LoadEditTask | src/pages/EditTask.tsx:59-80 | an absent entry keeps the defaults; the page redirects exactly when the stored tasks hold none the route names; the first such task seeds the draft when its date is valid and fails the load otherwise; malformed text fails |
| EditTask.CardRouteLoadsTask | src/pages/EditTask.tsx:59-72 | the route of a stored integer id seeds the draft with a task that has that id, when the stored dates are valid |
| EditTask.ReplaceByRoute | src/pages/EditTask.tsx:95-97 | tasks with the route's id become the data with that id; the others and the length are unchanged |
| EditTask.ReplaceKeepsIds | src/pages/EditTask.tsx:95-97 | replacing keeps every id |
| EditTask.ReplaceIdempotent | src/pages/EditTask.tsx:95-97 | submitting the same data twice is submitting it once |
| EditTask.EditTaskPage.Load | src/pages/EditTask.tsx:48-84 | members first, then the task by the load rule; malformed members end the load; loading ends false |
| EditTask.EditTaskPage.Submit | src/pages/EditTask.tsx:89-109 | invalid data is refused; stored tasks are replaced by route and written, and the page leaves for the list; an absent or malformed entry writes nothing and stays; members and failure flag kept; loading ends false |
| EditTaskForm.SetInput | src/component/EditTaskForm.tsx:21-24 | an input change keeps the id |
| EditTaskForm.SetThenGet | src/component/EditTaskForm.tsx:21-24 | the changed field reads back as the typed text (a string even for the assignee); every other field is unchanged |
| EditTaskForm.SetTwice | src/component/EditTaskForm.tsx:21-24 | the second text typed into an input replaces the first |
| EditTaskForm.SetCommutes | src/component/EditTaskForm.tsx:21-24 | changes to two different inputs commute |
| EditTaskForm.EditTaskFormState.constructor | src/component/EditTaskForm.tsx:19 | the draft starts as the given task |
| EditTaskForm.EditTaskFormState.InputChange | src/component/EditTaskForm.tsx:21-24 | the draft takes the input's change |
| EditTaskForm.EditTaskFormState.FormSubmit | src/component/EditTaskForm.tsx:26-29 | the draft is handed on as it stands |
| EditTaskContainer.Coerce | src/pages/tasks/EditTask.tsx:50-54 | id and assignee become numbers or NaN, numbers stay as they are, and the other fields are unchanged |
| EditTaskContainer.CoerceIdempotent | src/pages/tasks/EditTask.tsx:50-54 | coercing twice is coercing once |
| EditTaskContainer.PickedMemberSurvivesCoercion | src/pages/tasks/EditTask.tsx:52 | a member picked in the select becomes that member's numeric id |
| EditTaskContainer.PlaceholderIsBelowMin | src/pages/tasks/EditTask.tsx:52-58 | the placeholder option becomes 0, which validation refuses |
| EditTaskContainer.ReplaceById | src/pages/tasks/EditTask.tsx:72 | tasks with the processed id become the processed task; the others and the length are unchanged |
| EditTaskContainer.ReplaceByIdKeepsIds | src/pages/tasks/EditTask.tsx:72 | replacing keeps every id, and replacing again changes nothing |
| EditTaskContainer.ReplaceMissingIsIdentity | src/pages/tasks/EditTask.tsx:72 | with no task of that id, the list is written back unchanged |
| EditTaskContainer.EditTaskContainerPage.Load | src/pages/tasks/EditTask.tsx:17-46 | the first task with the route's id is set, or the page redirects; members follow; a malformed entry ends the load; loading ends false |
| EditTaskContainer.EditTaskContainerPage.Submit | src/pages/tasks/EditTask.tsx:48-81 | one notification per issue of the coerced data and no write; otherwise stored tasks with its id are replaced and written, and the page leaves for the list; nothing is written without stored tasks; the loaded task, members and flags are kept |
| EditTaskContainer.EditTaskContainerPage.Render | src/pages/tasks/EditTask.tsx:82-103 | the form shows exactly when loading is over and a task was found |
| TaskCard.MemberName | src/component/TaskCard.tsx:15-18 | the name of the first member with the id, else "Unassigned" |
| TaskCard.NonNumericAssigneeIsUnassigned | src/component/TaskCard.tsx:15-18 | an assignee that is not a number shows as unassigned, unless it is `undefined` and some member lacks an id |
| TaskCard.StatusLabel | src/component/TaskCard.tsx:20-47 | "Terminé" exactly for done, "En cours" exactly for in_progress, "À faire" for anything else |
| TaskCard.IsOverdue | src/component/TaskCard.tsx:52 | overdue only when not done and the date parses, and then exactly when midnight UTC of the due day is before now |
| TaskCard.NeverOverdue | src/component/TaskCard.tsx:52 | a done task and a task with an unparsable date are never overdue |
| TaskCard.OverdueStays | src/component/TaskCard.tsx:52 | a task that is overdue stays overdue later |
| TaskCard.OverdueOnItsDay | src/component/TaskCard.tsx:52 | a task not done is overdue from midnight UTC of its own due day |
| TaskCard.BadgeText | src/component/TaskCard.tsx:123 | "En retard" when overdue, else the status label |
| TaskCard.DoneBadge | src/component/TaskCard.tsx:123 | a done task always shows "Terminé" |
| TaskCard.ActionTarget | src/component/TaskCard.tsx:74-79 | edit and delete act on the task's id, and not at all when it is `undefined` |
| TaskCard.EditLinkFindsTask | src/component/TaskCard.tsx:74-76 | the edit link of a card with an integer id loads a task with that id |
| MembersCrud.EmptyFormHasNoId | src/tp2/pages/MembersCrudSimple.tsx:5-14 | the reset form has the eight fields and no id |
| MembersCrud.ReplaceRemote | src/tp2/pages/MembersCrudSimple.tsx:47 | members with the edited id become the reply; the others and the length are unchanged |
| MembersCrud.RemoveRemote | src/tp2/pages/MembersCrudSimple.tsx:70 | deleting an id removes every member with it and keeps the others in order |
| MembersCrud.RemoveAbsentIsIdentity | src/tp2/pages/MembersCrudSimple.tsx:70 | deleting an id that no member has changes nothing |
| MembersCrud.RemoveAfterReplace | src/tp2/pages/MembersCrudSimple.tsx:47-70 | if the reply keeps the id, deleting after an edit is the same as deleting without it |
| MembersCrud.ReplaceKeepsUnique | src/tp2/pages/MembersCrudSimple.tsx:47 | if the reply keeps the id, the ids stay distinct |
| MembersCrud.MembersCrudPage.Load | src/tp2/pages/MembersCrudSimple.tsx:24-30 | the server's list replaces the members; a failed request keeps them; loading ends false |
| MembersCrud.MembersCrudPage.Change | src/tp2/pages/MembersCrudSimple.tsx:33-36 | the input's key of the form takes the typed text; nothing else changes |
| MembersCrud.MembersCrudPage.Submit | src/tp2/pages/MembersCrudSimple.tsx:38-60 | PUT for a truthy edit id, else POST; the reply replaces the edited member and ends the edit, or is appended; the form resets; a failed request changes nothing; saving ends false |
| MembersCrud.MembersCrudPage.Edit | src/tp2/pages/MembersCrudSimple.tsx:62-65 | the edit id is the member's, and the form holds all the member's fields, id included |
| MembersCrud.MembersCrudPage.Delete | src/tp2/pages/MembersCrudSimple.tsx:67-75 | nothing happens without confirmation or if the request fails; otherwise the id is removed, and deleting the edited member ends the edit and resets the form |
| MembersCrud.MembersCrudPage.Cancel | src/tp2/pages/MembersCrudSimple.tsx:167 | the edit ends and the form resets |
| MembersTable.FirstCharsOfSplit | src/tp2/pages/MembersTablePage.tsx:91 | the first characters of the space-split words are exactly the word starts |
| MembersTable.NoWordStartsIffBlank | src/tp2/pages/MembersTablePage.tsx:91 | a name has no word starts exactly when it is all spaces |
| MembersTable.Initials | src/tp2/pages/MembersTablePage.tsx:90-92 | the upper-cased word starts, or "?" when there are none or the name is missing; never empty |
| MembersTable.OneWordInitial | src/tp2/pages/MembersTablePage.tsx:90-92 | a one-word name gives its upper-cased first letter |
| MembersTable.MembersTablePage.Load | src/tp2/pages/MembersTablePage.tsx:21-27 | the server's list replaces the members; a failed request keeps them; loading ends false |
| MembersTable.MembersTablePage.Delete | src/tp2/pages/MembersTablePage.tsx:30-34 | after confirmation and a successful request, every member with the id goes; the edit state is untouched |
| MembersTable.MembersTablePage.Edit | src/tp2/pages/MembersTablePage.tsx:37-40 | the edit id is the member's and the draft holds its fields |
| MembersTable.MembersTablePage.EditSave | src/tp2/pages/MembersTablePage.tsx:43-52 | nothing without a truthy edit id; the reply replaces the edited member and clears the edit state; a failed request changes nothing |
| MembersTable.MembersTablePage.CellEdit | src/tp2/pages/MembersTablePage.tsx:227-235 | only the edited column's key changes |
| MembersTable.MembersTablePage.Cancel | src/tp2/pages/MembersTablePage.tsx:162 | the edit ends and the draft is kept |
| Sidebar.FirstSubMatch | src/component/Sidebar.tsx:129-138 | the first sub-item on the path, with its parent; nothing exactly when no sub-item has the path |
| Sidebar.InitialResolution | src/component/Sidebar.tsx:125-145 | a sub-item on the path wins and opens its parent; otherwise a main or bottom item on the path, else "dashboard", with no dropdown opened |
| Sidebar.ResolveInitialActive | src/component/Sidebar.tsx:125-145 | the loop with its early return computes the initial resolution |
| Sidebar.MembersPathSelectsViewMembers | src/component/Sidebar.tsx:129-138 | "/members" selects "view-members" and opens the members dropdown |
| Sidebar.MainAndFallback | src/component/Sidebar.tsx:141-144 | "/settings" selects the bottom item, and an unknown path selects "dashboard" |
| Sidebar.Toggled | src/component/Sidebar.tsx:147-152 | toggling flips that id's open flag, and only that one |
| Sidebar.ToggleTwice | src/component/Sidebar.tsx:147-152 | toggling twice reads as not toggling |
| Sidebar.AllClosedReadsClosed | src/component/Sidebar.tsx:159 | after collapsing, every dropdown reads as closed |
| Sidebar.ParentOfInitialSubIsHighlighted | src/component/Sidebar.tsx:281 | the parent of the sub-item selected at start is highlighted |
| Sidebar.SidebarState.constructor | src/component/Sidebar.tsx:118-145 | expanded; the resolved item is active; only the resolved parent's dropdown is open |
| Sidebar.SidebarState.ToggleDropdown | src/component/Sidebar.tsx:147-152 | the dropdowns become the toggle of the old ones |
| Sidebar.SidebarState.ToggleSidebar | src/component/Sidebar.tsx:156-161 | the collapsed flag flips; collapsing closes every dropdown; expanding keeps them |
| Sidebar.SidebarState.ItemClick | src/component/Sidebar.tsx:163-171 | an item with a path and no dropdown becomes active; a dropdown item toggles only while expanded and leaves the active item |
| Sidebar.SidebarState.SubItemClick | src/component/Sidebar.tsx:173-176 | the sub-item becomes active |
| Sidebar.SidebarState.DropdownOpen | src/component/Sidebar.tsx:179 | a dropdown is open exactly when its id is recorded as open; a missing id reads as closed |
| Sidebar.SidebarState.IsHighlighted | src/component/Sidebar.tsx:281 | an item is shown active exactly when it or one of its sub-items is the active item |
| Header.NextLanguage | src/component/Header.tsx:8-15 | fr goes to ar, ar to en, and anything else to fr |
| Header.LanguageLabel | src/component/Header.tsx:17-21 | "FR" exactly for fr, "AR" exactly for ar, "EN" otherwise |
| Header.ThreePressesReturn | src/component/Header.tsx:8-15 | three presses from fr, ar or en come back to the start |
| Header.LabelFollowsRotation | src/component/Header.tsx:8-21 | after a press the label moves along FR, AR, EN |

## Left out

- Network I/O: the HTTP calls of the remote pages are not modelled. A server reply is a parameter (`None` when the request fails), and the request sent is an out-parameter.
- The react-query cache, tanstack table row filtering and pagination, toasts, navigation and the rendering are left out. Navigation appears only as a `redirected` flag or a returned path.
- The JSON encoding itself is left out. A stored entry is its parsed list, and stored records are assumed to be well typed. Ids in the local "members" list are integers, because every writer in the model assigns an integer.
- JsValues.ParseNumber: handles only "", decimal digits and '-' followed by digits. Other forms accepted by `Number()` (spaces, decimals, exponents, hex) give NaN in the model.
- JsValues.ToLower: case mapping is ASCII only, so non-ASCII letters are not folded.
- StringOrder.SortStrings: compares characters by code point rather than by UTF-16 code unit. The two orders differ only above the Basic Multilingual Plane.
- Dates.ParseIsoDate: only date-only "YYYY-MM-DD" strings parse. Other formats that `new Date` accepts are treated as Invalid Date.
- Dates.Clock: the clock and the time-zone offset are inputs. `new Date().toISOString()` as the default date is the `isoToday` parameter.
- MemberSchema.IsEmail: a structural reading of the email pattern of the validation library. The library's own regular expression is not part of this model.
- TasksList.TasksListPage: one class serves both task list pages. src/pages/TasksList.tsx has no loading flag and no filter reset, so those members model only src/pages/tasks/TasksList.tsx.
- TasksList.TasksListPage.Load: the list loaded from storage is not written back by the persist effect, because writing it would store the same list again.
- The 800 ms load timer of src/pages/tasks/TasksList.tsx is left out. Load is the timer's callback.
- The form library's own behaviour is left out: the resolver that calls a submit handler only for valid data, and the "onChange" mode. Each Submit method therefore validates first.
- EditTaskForm.SetInput: describes only the six named inputs. Other `name` attributes do not occur.
- MembersTable.MembersTablePage.CellEdit: requires a column other than "actions", because the table renders no input in that column.
- TaskSchema.ValidTask: judges the due date by the corrected rule `TaskSchema.DueDateNotPast` (see Findings). West of UTC it accepts a task due on today's local date, which the program refuses. `TaskSchema.SchemaWestOfUtc` states that this is the only difference, and `TaskSchema.SchemaAgreesEastOfUtc` states that there is none at UTC and east of it.
- TaskSchema.FieldIssues: the due-date issue follows the corrected rule. West of UTC no "past" issue is raised for today's local date, where the program raises one.
- TaskSchema.TaskErrors: built on the corrected rule like `TaskSchema.FieldIssues`, so west of UTC it reports no issue for a task due today that the program refuses.
- NewTask.NewTaskPage.Submit: validates with the corrected due-date rule, so west of UTC it saves a task due today that the program refuses.
- EditTask.EditTaskPage.Submit: validates with the corrected due-date rule, so west of UTC it saves a task due today that the program refuses.
- EditTaskContainer.EditTaskContainerPage.Submit: validates with the corrected due-date rule, so west of UTC it saves a task due today that the program refuses.
- MemberSchema.ValidMember: string lengths count code points, where the validation library counts UTF-16 code units. A name made of one character outside the Basic Multilingual Plane (an emoji) has length 2 in the program and is accepted; the model refuses it.
- MemberSchema.MemberErrors: the name's length is counted in code points, as in `MemberSchema.ValidMember`.
- TaskSchema.TaskErrors: the title's length (2 to 100) is counted in code points, not UTF-16 code units, so titles with characters outside the Basic Multilingual Plane may be judged differently.
- RemoteMemberSchema.ParseRemoteMember: the non-empty name is counted in code points; every non-empty string is non-empty in both counts, so no input is judged differently.
- MembersTable.Initials: `n[0]` takes the first code point, where the program takes the first UTF-16 code unit (half of a surrogate pair for an emoji).
- Navigation after the add and new-task pages save is the `Saved` outcome of their submit, not a page field.
- The address and map widgets, the dashboards and the presentational forms are not part of this model.

## Findings

| source | as written | input that shows it | evidently intended | confidence | as-written member | corrected member |
|---|---|---|---|---|---|---|
| src/validation/schemasTask.ts:16-18 | the due date, parsed as midnight UTC, must not be before local midnight today | in UTC-5 at 10:00 on 2024-03-10, the due date "2024-03-10" (the form's default) is rejected as past | a due date of today's local date is accepted | not executed | TaskSchema.TodayRejectedInNewYork | TaskSchema.DueDateNotPastOnInstants |

The as-written rule is `TaskSchema.DueDateNotPastAsWritten`. The corrected
rule is `TaskSchema.DueDateNotPast`, and every page uses it through
`TaskSchema.ValidTask`. `TaskSchema.AsWrittenRejectsTodayWestOfUtc` shows
that the written rule fails for every negative offset.
`TaskSchema.AsWrittenAgreesEastOfUtc` shows that the two rules agree at UTC
and east of it.

# Taskly: a verified model of the task and account core

Taskly is a personal task manager. Its Express/TypeORM backend keeps two tables:

- `usuarios`: users with unique e-mail addresses and bcrypt-hashed passwords;
- `tarefas`: tasks, each owned by one user.

Registration inserts a user after checking that the e-mail is free. Login compares the password with the stored hash and signs a JSON Web Token. The task service creates, lists, reads, partially updates and deletes tasks, always scoped to the owner. The task controller turns each service outcome into an HTTP status code and a JSON body.

The React frontend adds:

- date formatting;
- tag inference from a task's name;
- a local name filter;
- an optimistic status toggle on the dashboard;
- the create and update forms, with their trimming and `|| undefined` conventions;
- the profile page's validation before saving, and the typed confirmation before deleting an account.

The model is split into these modules:

- `TarefaModel` and `UsuarioModel`: the two tables' rows and column limits, and the user lookups.
- `UserService`, `AuthService`, `TaskService` and `TaskController`: the backend.
  - The two tables are `seq` fields of the classes `UserService.UserService` and `TaskService.TarefaService`.
  - Their methods change those fields and keep each table's key and name invariants.
- `Dashboard`, `TaskDetailModal`, `AddTaskModal` and `Profile`: the frontend.
  - Each page's mutable state is a class.
  - Its handlers are methods.
  - The server's answer arrives as a parameter (`reply`, `created`).
- `JsText`: the JavaScript string operations they rely on (`trim`, `length` in UTF-16 code units, `toLowerCase`, `includes`, `split`, `padStart`, `Number`).
- `Seqs`: `Array.prototype.filter`.
- `TaskOrder`: `order: { dataCriacao: 'DESC' }`.
- `Crypto`: bcrypt and JWT, kept as uninterpreted functions.
- `TaskTypes`: the frontend's task type and DTOs.

Inputs the source takes from the environment become parameters:

- generated uuids (`newId`);
- the instant of a save (`now`);
- the bcrypt salt;
- the signing secret;
- the hour of the clock;
- today's date;
- the text `new Date(...).toLocale…` would print (`viaDate`).

## Model

| member | source | states |
|---|---|---|
| TarefaModel.StatusText | backend/src/models/Tarefa.ts:29-30 | a status is written as one of the only two texts the column allows |
| TarefaModel.ParseStatus | backend/src/services/TaskService.ts:37 | a text names a status exactly when it is 'pendente' or 'concluída', and the status it names is written back as that text |
| TarefaModel.StatusRoundTrip | backend/src/models/Tarefa.ts:29-30 | every status read back from its text is itself |
| TarefaModel.Flip | frontend/taskly-frontend/src/components/TaskDetailModal.tsx:142 | the toggle always picks the other status |
| UsuarioModel.FindOneByEmail | backend/src/services/AuthService.ts:10 | a user is found exactly when some row has that e-mail, and the one found is the first such row |
| UsuarioModel.FindOneById | backend/src/services/TaskService.ts:23 | a user is found exactly when some row has that id, and the one found is a row of the table with that id |
| UsuarioModel.FindByEmailUnique | backend/src/models/Usuario.ts:14-15 | under the unique constraint on `email`, the lookup returns the one row with that e-mail |
| UsuarioModel.FindByEmailAppend | backend/src/services/UserService.ts:14-15 | inserting a user with a new e-mail makes that e-mail find the new row and leaves every other e-mail's lookup unchanged |
| UsuarioModel.FindByIdAppend | backend/src/services/UserService.ts:14-15 | inserting a user never loses a user that was found by id before |
| UserService.UserService.constructor | backend/src/models/Usuario.ts:11-27 | an empty user table satisfies the key and e-mail uniqueness constraints and the column limits |
| UserService.UserService.CreateUser | backend/src/services/UserService.ts:8-16 | a taken e-mail is refused with 'E-mail já cadastrado' and the table is unchanged; a free e-mail whose row would exceed a `usuarios` column limit is refused by the database and the table is unchanged; otherwise the result is exactly the new row (new id, e-mail, name, bcrypt hash at cost factor 10, both instants `now`), appended and nothing else; e-mail and id uniqueness and the column limits are kept, and the stored hash accepts the password it was made from |
| AuthService.Authenticate | backend/src/services/AuthService.ts:9-25 | every failure carries the same message; an unknown e-mail fails; success means a row with that e-mail whose hash accepts the password, and the answer is that row without `senha` plus a token signed over its id and e-mail; under unique e-mails, login succeeds exactly when the password matches |
| AuthService.LoginAfterRegistration | backend/src/services/UserService.ts:13-15 | a user who has just registered logs in with the same e-mail and password and gets back the stored row without its hash |
| TaskOrder.InsertByCreationDesc | backend/src/services/TaskService.ts:55 | inserting one task into a newest-first list keeps it newest-first and adds exactly that task |
| TaskOrder.InsertAtFront | backend/src/services/TaskService.ts:55 | a task no older than the head may go first without breaking the order |
| TaskOrder.InsertAfterHead | backend/src/services/TaskService.ts:55 | an older task inserted after the head keeps the list ordered and adds only that task |
| TaskOrder.HeadStaysFirst | backend/src/services/TaskService.ts:55 | the head of an ordered list stays no older than anything after it once an older task is inserted behind it |
| TaskOrder.SortByCreationDesc | backend/src/services/TaskService.ts:53-56 | the listing is a permutation of the selected rows, newest creation first |
| Seqs.Filter | backend/src/services/TaskService.ts:54 | the selection holds each row as often as the table does when the row passes the condition, and never otherwise |
| Seqs.FilterConcat | frontend/taskly-frontend/src/pages/dashboard/Dashboard.tsx:258-262 | selection keeps list order: it distributes over concatenation |
| Seqs.FilterAll | frontend/taskly-frontend/src/pages/dashboard/Dashboard.tsx:78-80 | a list whose every element passes comes back unchanged |
| Seqs.FilterSame | frontend/taskly-frontend/src/pages/dashboard/Dashboard.tsx:258-262 | two conditions that agree on every element select the same elements |
| TaskService.CleanDescricao | backend/src/services/TaskService.ts:45 | a description left out, sent as `null` or blank is stored as absent; any other is stored trimmed and non-empty |
| TaskService.TrimmedNameOk | backend/src/services/TaskService.ts:29-35 | a name that passes both name checks is, once trimmed, a non-blank name within 255 UTF-16 code units |
| TaskService.IndexOwned | backend/src/services/TaskService.ts:60-62 | the position found holds a task with both the id and the owner, and no position is found only when no such task exists |
| TaskService.OwnersExistAppend | backend/src/models/Tarefa.ts:45-47 | registering users never breaks the tasks' owner foreign key |
| TaskService.UpdatedFrame | backend/src/services/TaskService.ts:75-100 | an update changes only the fields sent (a `null` counts as sent), the owner's cached name and the update instant; id, owner, creation date, category and completion date stay, and the update instant is stamped only when something changed |
| TaskService.UpdatedKeepsRules | backend/src/services/TaskService.ts:79-82 | an accepted update keeps the stored-name rule and the column limits of `tarefas` |
| TaskService.AppendKeepsTable | backend/src/models/Tarefa.ts:14-15 | appending a task with a new id and a valid name keeps the table's primary key and name rule |
| TaskService.ReplaceKeepsTable | backend/src/services/TaskService.ts:102 | saving a task under its own id with a valid name keeps the table invariant |
| TaskService.RemoveKeepsTable | backend/src/services/TaskService.ts:107 | removing a row keeps the table invariant |
| TaskService.RemoveAt | backend/src/services/TaskService.ts:107 | removal drops exactly the one row, keeps the others in order, and takes exactly one copy of that row out of the table's multiset |
| TaskService.RemoveDropsId | backend/src/services/TaskService.ts:105-108 | under the primary key, no task with the removed id is left |
| TaskService.AppendKeepsSchema | backend/src/models/Tarefa.ts:17-33 | a new task within the column limits with a registered owner keeps the schema |
| TaskService.ReplaceKeepsSchema | backend/src/models/Tarefa.ts:17-33 | replacing a task by one within the column limits with the same owner keeps the schema |
| TaskService.RemoveKeepsSchema | backend/src/models/Tarefa.ts:45-47 | removing a task keeps the column limits and the owner foreign key |
| TaskService.FoundUserFits | backend/src/models/Usuario.ts:14-21 | the user found by id keeps to the user columns' limits, so copying the user's name into a task fits `nome_usuario` |
| TaskService.CreateOutcome | backend/src/services/TaskService.ts:21-50 | the checks run in the source's order, each with its own message: owner missing, missing or blank name, name over 255 code units, a non-empty unknown status; the outcome is a task exactly when all four pass, and then it is the task built from the request: new id, the owner and the owner's name, trimmed name, cleaned description, the status sent or 'pendente', both instants `now`, with a stored name that is trimmed, non-blank and within 255 |
| TaskService.UpdateOutcome | backend/src/services/TaskService.ts:71-103 | a task the user does not own is 'Tarefa não encontrada' before any field check; a sent name (`null` included) that is blank is refused, then one over 255 code units; a sent status other than the two texts (`null` included) is refused; the outcome is a task exactly when the task is owned and the update is accepted, and then it is the owned row with the update applied, keeping its id and owner |
| TaskService.NullOnCreate | backend/src/services/TaskService.ts:29-46 | on create, a name, description or status sent as `null` has the same outcome as one left out |
| TaskService.NullOnUpdate | backend/src/services/TaskService.ts:75-94 | on update of an owned task, a `null` name is 'Nome da tarefa é obrigatório', a `null` status is refused as invalid, and a `null` description alone is accepted and clears the stored description |
| TaskService.TarefaService.constructor | backend/src/models/Tarefa.ts:12-48 | an empty task table satisfies its invariant |
| TaskService.TarefaService.GetTarefaById | backend/src/services/TaskService.ts:59-69 | a task is returned exactly when one with the id belongs to the user; another user's task is reported as 'Tarefa não encontrada' |
| TaskService.TarefaService.GetTarefasByUser | backend/src/services/TaskService.ts:52-57 | the listing holds exactly the user's tasks, each as often as stored, newest first |
| TaskService.TarefaService.GetTarefasByStatus | backend/src/services/TaskService.ts:110-115 | the listing holds exactly the user's tasks with that status, newest first |
| TaskService.TarefaService.CreateTarefa | backend/src/services/TaskService.ts:21-50 | the result is the create outcome of the request against the current users; a failure saves nothing; success appends exactly that task and nothing else; the table invariant and the schema (column limits, owner foreign key) are kept, given user rows within their column limits, which the user service keeps |
| TaskService.TarefaService.UpdateTarefa | backend/src/services/TaskService.ts:71-103 | the result is the update outcome against the table before the call; a failure saves nothing; success replaces exactly the owned row by the returned task, leaving every other row in place; the table invariant and the schema are kept |
| TaskService.TarefaService.DeleteTarefa | backend/src/services/TaskService.ts:105-108 | a task that is not owned is 'Tarefa não encontrada' and nothing changes; otherwise exactly that row is removed, after which the id no longer finds a task for that user |
| TaskController.NotFoundOr | backend/src/controllers/TaskController.ts:89 | the code is 404 exactly for the not-found message, and otherwise the given code |
| TaskController.CreateStep | backend/src/controllers/TaskController.ts:12-22 | a missing or empty name is answered 400 'Nome da tarefa é obrigatório' before the service; anything else is forwarded with a non-empty name |
| TaskController.CreateIgnoresExtraFields | backend/src/controllers/TaskController.ts:18-22 | `categoria` and `dataCumprimento` sent in the body never change what `create` does |
| TaskController.CreateForwardsFields | backend/src/controllers/TaskController.ts:18-22 | `create` hands the service exactly the name, description and status it received |
| TaskController.CreateReply | backend/src/controllers/TaskController.ts:23-26 | success is 201 with the task; every service error is 400 with its message |
| TaskController.StatusFilter | backend/src/controllers/TaskController.ts:35-39 | the list is filtered exactly when the query names one of the two statuses, and by that status |
| TaskController.ListReply | backend/src/controllers/TaskController.ts:40-43 | success is 200 with the list; an error is 500 with its message |
| TaskController.GetByIdReply | backend/src/controllers/TaskController.ts:55-60 | success is 200 with the task; every error is 404 |
| TaskController.UpdateStep | backend/src/controllers/TaskController.ts:68-79 | a missing id is 400, then a body that leaves out all of nome, descricao and status is 400 (a `null` counts as sent); the service is called exactly otherwise, with those three fields as received |
| TaskController.UpdateReply | backend/src/controllers/TaskController.ts:87-90 | success is 200 with the task; 'Tarefa não encontrada' is 404 and every other error 400, each with its message |
| TaskController.DeleteReply | backend/src/controllers/TaskController.ts:104-108 | success is 204 with no body; 'Tarefa não encontrada' is 404 and every other error 500 |
| TaskController.Create | backend/src/controllers/TaskController.ts:7-27 | a falsy name is 400 with the name message and never reaches the service; otherwise the answer is the reply to the service's create outcome; it is 201 exactly when the name is not falsy, the owner exists, the name is not blank nor over 255 code units and the status is valid; any other answer is 400 and saves nothing; a 201 appends the returned task, with the new id and the requesting owner |
| TaskController.GetAll | backend/src/controllers/TaskController.ts:29-44 | the answer is 200 with the owner's tasks, or with those of the queried status when the query names one |
| TaskController.GetById | backend/src/controllers/TaskController.ts:46-61 | a missing id is 400; otherwise 200 exactly when the user owns the task, else 404 'Tarefa não encontrada' |
| TaskController.Update | backend/src/controllers/TaskController.ts:63-92 | a rejected request is the step's answer; a forwarded one is the reply to the service's update outcome on the table before the call: 404 exactly when the task is not owned, 200 exactly when it is owned and the update accepted; the code is 200, 400 or 404; any non-200 answer saves nothing; a 200 replaces exactly the owned row by the task it carries |
| TaskController.Delete | backend/src/controllers/TaskController.ts:94-110 | a missing id is 400; otherwise 204 exactly when the user owned the task, and then exactly that row is removed with the others kept in order; else 404 with nothing removed; 500 never happens |
| JsText.Trim | backend/src/services/TaskService.ts:44 | the trimmed text is a contiguous piece of the input with only whitespace around it, and it neither starts nor ends with whitespace |
| JsText.BlankIffTrimEmpty | backend/src/services/TaskService.ts:29 | a text is blank (all whitespace) exactly when trimming leaves nothing |
| JsText.TrimIdempotent | backend/src/services/TaskService.ts:82 | trimming an already trimmed name changes nothing |
| JsText.TrimNoWhitespace | frontend/taskly-frontend/src/pages/dashboard/Dashboard.tsx:460-464 | text without whitespace is its own trim |
| JsText.Utf16Length | backend/src/services/TaskService.ts:33 | `length` counts a character outside the Basic Multilingual Plane twice, so it lies between the character count and twice it |
| JsText.Utf16LengthConcat | backend/src/services/TaskService.ts:33 | UTF-16 length adds up over concatenation |
| JsText.Utf16LengthTrim | backend/src/services/TaskService.ts:33-44 | trimming never lengthens a name, so the length check on the raw name bounds the stored name |
| JsText.ToLower | frontend/taskly-frontend/src/pages/dashboard/Dashboard.tsx:273-274 | lower-casing maps each character on its own and keeps the length |
| JsText.ToLowerIdempotent | frontend/taskly-frontend/src/pages/dashboard/Dashboard.tsx:260-261 | lower-casing twice is lower-casing once |
| JsText.ToLowerKeepsBlank | frontend/taskly-frontend/src/pages/dashboard/Dashboard.tsx:258-261 | a query is blank exactly when its lower-cased form is blank |
| JsText.Contains | frontend/taskly-frontend/src/pages/dashboard/Dashboard.tsx:273-274 | `includes` holds exactly when the text occurs at some position |
| JsText.IndexOfChar | frontend/taskly-frontend/src/pages/dashboard/Dashboard.tsx:467-468 | the index found holds the character and no earlier position does |
| JsText.Split | frontend/taskly-frontend/src/pages/dashboard/Dashboard.tsx:461 | `split` gives at least one piece, and no piece holds the separator |
| JsText.JoinSplit | frontend/taskly-frontend/src/pages/dashboard/Dashboard.tsx:461 | the pieces joined by the separator give back the original text |
| JsText.SplitFirst | frontend/taskly-frontend/src/pages/dashboard/Dashboard.tsx:468 | the first piece is the text before the first separator |
| JsText.SplitIsoDate | frontend/taskly-frontend/src/pages/dashboard/Dashboard.tsx:460-461 | an exact `YYYY-MM-DD` splits on '-' into year, month and day |
| JsText.Part | frontend/taskly-frontend/src/pages/dashboard/Dashboard.tsx:461 | destructuring past the end gives `undefined`, and within it the element |
| JsText.TemplateText | frontend/taskly-frontend/src/pages/dashboard/Dashboard.tsx:463 | a template literal prints `undefined` by name and text as itself |
| JsText.NatToDecimal | frontend/taskly-frontend/src/components/TaskDetailModal.tsx:36-38 | `String(n)` is a digit string without a leading zero, with the number of digits the magnitude calls for |
| JsText.DecimalRoundTrip | frontend/taskly-frontend/src/components/TaskDetailModal.tsx:36-38 | reading back the digits of `String(n)` gives `n` |
| JsText.PadStartZero | frontend/taskly-frontend/src/components/TaskDetailModal.tsx:37-38 | `padStart(width, '0')` leaves a long enough text alone and otherwise puts zeros in front up to the width |
| JsText.JsNumberText | frontend/taskly-frontend/src/pages/dashboard/Dashboard.tsx:463 | `String(Number(x))` is 'NaN' for `undefined`, '0' for blank text, and for a digit string of at most 15 significant digits (exact in a double) its digits without leading zeros |
| JsText.TwoDigitNumberText | frontend/taskly-frontend/src/pages/dashboard/Dashboard.tsx:463 | a two-digit field read by `Number` loses its leading zero only |
| JsText.NumberOfPaddedDecimal | frontend/taskly-frontend/src/components/TaskDetailModal.tsx:37-38 | `Number` undoes `padStart(2, '0')` on any number below 100 |
| JsText.DigitsAreTrimmed | frontend/taskly-frontend/src/pages/dashboard/Dashboard.tsx:463 | a digit string is its own trim |
| JsText.LowerChar | frontend/taskly-frontend/src/pages/dashboard/Dashboard.tsx:273-274 | ASCII capitals move down by 32, and characters outside the capital ranges stay |
| JsText.LowerCharWhitespace | frontend/taskly-frontend/src/pages/dashboard/Dashboard.tsx:258-261 | lower-casing never turns whitespace into text or text into whitespace |
| TaskTypes.OrUndefined | frontend/taskly-frontend/src/components/AddTaskModal.tsx:99-101 | `x \|\| undefined` is absent exactly for the empty string and otherwise the text itself |
| TaskTypes.TrimOrUndefined | frontend/taskly-frontend/src/components/AddTaskModal.tsx:98 | `x.trim() \|\| undefined` is absent exactly for blank text and otherwise the non-empty trimmed text |
| TaskTypes.AvailableCategories | frontend/taskly-frontend/src/pages/dashboard/Dashboard.tsx:78-80 | the category list holds exactly the summary keys that are not placeholders, and no more entries than keys |
| TaskTypes.AvailableCategoriesConcat | frontend/taskly-frontend/src/components/AddTaskModal.tsx:44-46 | the category list keeps the order of the keys |
| TaskTypes.AvailableCategoriesOfReal | frontend/taskly-frontend/src/components/TaskDetailModal.tsx:74-76 | keys that are all real categories are listed unchanged |
| TaskTypes.TodayFormatted | frontend/taskly-frontend/src/components/AddTaskModal.tsx:30-36 | for a four-digit year, today's date is an exact `YYYY-MM-DD` holding the year as written and month and day padded to two digits |
| Dashboard.FormatDate | frontend/taskly-frontend/src/pages/dashboard/Dashboard.tsx:456-484 | a missing or empty date is shown as nothing |
| Dashboard.FormatExactDate | frontend/taskly-frontend/src/pages/dashboard/Dashboard.tsx:460-464 | an exact `YYYY-MM-DD` is shown as day/month/year, with the leading zeros of day and month dropped and the year as written |
| Dashboard.ContainsCharAt | frontend/taskly-frontend/src/pages/dashboard/Dashboard.tsx:467-468 | a 'T' found by index makes `includes('T')` hold |
| Dashboard.FormatTimestamp | frontend/taskly-frontend/src/pages/dashboard/Dashboard.tsx:467-471 | a timestamp `YYYY-MM-DDT…` is shown like its date part alone |
| Dashboard.FormatTodayFormatted | frontend/taskly-frontend/src/pages/dashboard/Dashboard.tsx:460-464 | the date the modals put in a date input is shown as plain day/month/year numbers |
| Dashboard.GetTaskTag | frontend/taskly-frontend/src/pages/dashboard/Dashboard.tsx:268-276 | a non-empty category is the tag; otherwise the tag is one of the three defaults: 'Estudos' exactly for study words, 'Trabalho' exactly for work words without study words |
| Dashboard.TaskTagIgnoresCase | frontend/taskly-frontend/src/pages/dashboard/Dashboard.tsx:273-274 | the guessed tag does not depend on the case of the name |
| Dashboard.GetGreeting | frontend/taskly-frontend/src/pages/dashboard/Dashboard.tsx:121-133 | 'Bom dia' exactly from 5 to 11 h, 'Boa tarde' exactly from 12 to 17 h, 'Boa noite' exactly otherwise |
| Dashboard.FilteredTasks | frontend/taskly-frontend/src/pages/dashboard/Dashboard.tsx:258-262 | a blank query shows every task; otherwise exactly the matching tasks are shown, each as often as listed |
| Dashboard.FilteredTasksConcat | frontend/taskly-frontend/src/pages/dashboard/Dashboard.tsx:258-262 | the filter keeps list order |
| Dashboard.FilteredTasksIgnoreQueryCase | frontend/taskly-frontend/src/pages/dashboard/Dashboard.tsx:258-262 | the case of the query does not change the list |
| Dashboard.Toggled | frontend/taskly-frontend/src/pages/dashboard/Dashboard.tsx:178-183 | the optimistic copy has the new status, the first clock reading as completion instant exactly when completed, the second reading as update instant, and every other field as before |
| Dashboard.DashboardState.constructor | frontend/taskly-frontend/src/pages/dashboard/Dashboard.tsx:15-18 | the state starts with the given tasks and count |
| Dashboard.DashboardState.ToggleTaskStatus | frontend/taskly-frontend/src/pages/dashboard/Dashboard.tsx:168-191 | every task with the id gets the opposite status, the others stay, and the completed count moves by one in the matching direction; an unknown id changes nothing |
| Dashboard.ToggleBack | frontend/taskly-frontend/src/pages/dashboard/Dashboard.tsx:168-191 | toggling twice restores the status, every field but the two dates, and for a pending task the missing completion date |
| TaskDetailModal.FormatDate | frontend/taskly-frontend/src/components/TaskDetailModal.tsx:43-54 | a missing or empty date is 'Não definida'; text that begins with `YYYY-MM-DD` becomes `DD/MM/YYYY` with the digits as written |
| TaskDetailModal.FormatDateIgnoresRest | frontend/taskly-frontend/src/components/TaskDetailModal.tsx:46-50 | anything after the first ten characters of a date is ignored |
| TaskDetailModal.FormatTodayFormatted | frontend/taskly-frontend/src/components/TaskDetailModal.tsx:34-54 | today's date is shown back with the same zero-padded day, month and year |
| TaskDetailModal.SaveDto | frontend/taskly-frontend/src/components/TaskDetailModal.tsx:111-116 | the update sends the trimmed name, the cleaned description, no status, and the category and due date or `undefined` |
| TaskDetailModal.SavedNamePassesService | frontend/taskly-frontend/src/components/TaskDetailModal.tsx:102-116 | a non-blank name the panel sends passes the service's blank-name check and is not changed by the service's trim; the panel does not check the length, so the service refuses it as too long exactly when the trimmed name exceeds 255 code units, which never happens when the typed name is within 255 |
| TaskDetailModal.TaskDetailState.constructor | frontend/taskly-frontend/src/components/TaskDetailModal.tsx:18-29 | the panel starts not editing, with no error and empty edit fields |
| TaskDetailModal.TaskDetailState.HandleSave | frontend/taskly-frontend/src/components/TaskDetailModal.tsx:99-135 | no task does nothing; a blank name sets the name error and sends nothing; otherwise the DTO is sent for the task's id; success shows the refreshed task and leaves editing; failure keeps the task and shows the update error |
| TaskDetailModal.TaskDetailState.HandleToggleStatus | frontend/taskly-frontend/src/components/TaskDetailModal.tsx:137-157 | no task does nothing; otherwise the opposite status is sent for the task's id; success shows the refreshed task and failure the status error; editing and the edit fields are never touched |
| AddTaskModal.ChosenCategory | frontend/taskly-frontend/src/components/AddTaskModal.tsx:94-99 | a new category is sent trimmed, or absent when blank; otherwise the selection, or absent when empty |
| AddTaskModal.SubmitDto | frontend/taskly-frontend/src/components/AddTaskModal.tsx:96-102 | the create request has the trimmed name, the cleaned description, status 'pendente', the chosen category, and the due date or `undefined` |
| AddTaskModal.NewCategoryIsTrimmed | frontend/taskly-frontend/src/components/AddTaskModal.tsx:94 | a new category is never sent with surrounding whitespace or empty |
| AddTaskModal.AddTaskState.constructor | frontend/taskly-frontend/src/components/AddTaskModal.tsx:16-24 | the form starts cleared |
| AddTaskModal.AddTaskState.Open | frontend/taskly-frontend/src/components/AddTaskModal.tsx:55-62 | opening the modal clears every field and the error and stops creating a category |
| AddTaskModal.AddTaskState.HandleCategoryChange | frontend/taskly-frontend/src/components/AddTaskModal.tsx:117-126 | 'nova' starts a new category and clears the selection; any other value becomes the selection; the other fields stay |
| AddTaskModal.AddTaskState.SubmitDisabled | frontend/taskly-frontend/src/components/AddTaskModal.tsx:306 | submit is disabled exactly while creating a category whose name is blank |
| AddTaskModal.AddTaskState.HandleSubmit | frontend/taskly-frontend/src/components/AddTaskModal.tsx:82-115 | a blank name sets the name error and sends nothing; otherwise exactly the submit DTO is sent, and a failure sets the create error; the fields stay |
| Profile.IsValidEmailIffPattern | frontend/taskly-frontend/src/pages/profile/Profile.tsx:92-96 | the scan accepts exactly the e-mails the regular expression `^[^\s@]+@[^\s@]+\.[^\s@]+$` matches |
| Profile.ValidEmailFromMatch | frontend/taskly-frontend/src/pages/profile/Profile.tsx:92-96 | any way of matching the regular expression is accepted by the scan |
| Profile.ValidationError | frontend/taskly-frontend/src/pages/profile/Profile.tsx:81-114 | the checks run in the source's order, each with its message: blank name, blank e-mail, e-mail off the pattern, then for a new password a missing current password, fewer than 8 code units, and a confirmation that differs; the form passes exactly when none of them applies |
| Profile.UpdateData | frontend/taskly-frontend/src/pages/profile/Profile.tsx:117-135 | the name and e-mail are sent exactly when they differ from the loaded profile (always with no profile), and the password pair exactly when a new password is typed |
| Profile.SentPasswordIsChecked | frontend/taskly-frontend/src/pages/profile/Profile.tsx:99-135 | a form that passes the checks never sends a short or unconfirmed password, nor one without the current password |
| Profile.EmptyUpdateIffUnchanged | frontend/taskly-frontend/src/pages/profile/Profile.tsx:117-141 | nothing is sent exactly when the name and e-mail are the loaded ones and no new password is typed |
| Profile.MessageOr | frontend/taskly-frontend/src/pages/profile/Profile.tsx:175 | `message \|\| fallback` is the message when there is one, else the fallback |
| Profile.ProfileState.constructor | frontend/taskly-frontend/src/pages/profile/Profile.tsx:18-42 | the page starts not editing, with no messages and empty password fields |
| Profile.ProfileState.BuildUpdateData | frontend/taskly-frontend/src/pages/profile/Profile.tsx:117-135 | the object filled key by key is the update the page means to send |
| Profile.ProfileState.HandleSave | frontend/taskly-frontend/src/pages/profile/Profile.tsx:76-179 | a failed check shows its message and sends nothing, leaving the profile, editing, the success message and the password fields as they were; an empty update leaves editing without a request and changes nothing else shown; otherwise exactly the update is sent; success stores the reply, leaves editing, shows the success message and clears the passwords; failure keeps the profile, editing, the success message and the password fields and shows the server's message or the fallback; the edit fields and the delete confirmation never change |
| Profile.ProfileState.ApplyReply | frontend/taskly-frontend/src/pages/profile/Profile.tsx:144-179 | the answered update either stores the new profile, leaves editing, shows the success message and clears the passwords, or keeps the profile and the password fields and shows the error |
| Profile.ProfileState.HandleDeleteAccount | frontend/taskly-frontend/src/pages/profile/Profile.tsx:187-206 | the deletion is requested exactly after the word 'EXCLUIR' is typed; otherwise the confirmation message is shown; a failed request shows the server's message or the fallback; editing, the success message, the edit fields and the password fields are never touched |

## Left out

- Database and ORM: the two tables are sequences in insertion order. TypeORM's generated uuids and timestamps are parameters (`newId`, `now`). The database's order for tasks created at the same instant is unspecified; the listing is proved newest-first and a permutation, and puts tied rows in one fixed order.
- TaskService.UpdateTarefa: TypeORM skips properties set to `undefined` when saving, so a description cleared to `undefined` may stay in the database. The model stores the in-memory entity as assigned, `descricao` absent.
- TaskService.Updated: `@UpdateDateColumn` is modelled as stamping `now` only when some field changed. This is the modelled policy for an unchanged save; the database's own behaviour there is not modelled.
- Crypto: bcrypt and JWT are uninterpreted functions. The only property relied on is that a password matches its own hash. The random salt is a parameter, and the token's one-hour expiry and the secret's environment fallback are not modelled.
- UserController, AuthController, the routes, the authentication middleware and the AI suggestion service and endpoints are not part of this model.
- HTTP, `fetch`, `localStorage` and navigation: a server reply is a parameter of the handler that awaits it. Logout and redirects are not modelled, and neither is the profile page updating the stored user name in `localStorage` (Profile.tsx:158-166).
- Dashboard.DashboardState.ToggleTaskStatus: only the optimistic local update is modelled. The request to the server, the reload of the task list that follows it, the revert on failure and the completed count's source (the summary endpoint) are left out. The two `new Date().toISOString()` readings are two parameters, `completedAt` and `updatedAt`, which may differ; every task with the id receives the same two readings, whereas `map` reads the clock again for each such task.
- Timers and focus: the delayed clearing of the success message and the input focus effects are not modelled.
- The `isLoading` and `isDeleting` flags, and concurrency between handlers, are not modelled.
- Dates: the `new Date(...)` and `toLocaleDateString` fallbacks of both `formatDate` functions are the parameter `viaDate`, and the clock is a parameter (`hour`, `year`, `month`, `day`).
- JsText.JsNumberText: `Number` is modelled for `undefined`, blank text and plain ASCII digit strings, and its contract covers digit strings of at most 15 significant digits, which a double holds exactly. A longer digit string is printed as written, whereas JavaScript rounds it to the nearest double (`Number('9999999999999999')` prints 10000000000000000). For the ISO dates and timestamps the backend sends, `formatDate` passes `Number` only short digit strings. Other text that reaches the split, such as a date part `+1-+2-+3` before a 'T', holds signs, exponents or other characters; its `Number` is not modelled: the model prints 'NaN' for such a part, where JavaScript would read `+1` as 1.
- JsText.LowerChar: `toLowerCase` is modelled for ASCII and Latin-1 capitals only; other scripts' case mappings are left as identity.
- The frontend task service's status literal for completed tasks, as spelled in frontend/taskly-frontend/src/services/task.service.ts:52, is not part of this model; the frontend types use the status datatype.
- The `categoria` and `dataCumprimento` the frontend sends are dropped by the controller before the service. This is modelled (TaskController.CreateIgnoresExtraFields), so the backend tables never receive them.
- The dashboard's handlers that the source leaves as stubs (today, search, summary and category views, profile and delete buttons), TaskDetailModal's `handleDelete`, and the profile page's `handleEdit` and `handleCancelEdit` are not modelled. They simply copy state or call the API.
- Profile.IsValidEmailIffPattern: the regular expression is stated as a ghost predicate over positions of '@' and '.', not as a general regular-expression engine.
- JSON body values other than strings and `null` (numbers, booleans, arrays, objects) are not modelled; a request field is left out, `null`, or text.
- Column limits such as `varchar(255)` are counted in characters of the model's strings. The database's refusal of an over-long user row is modelled in `CreateUser` with the PostgreSQL message text; the task service checks its own name length before saving.

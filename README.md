# A verified model of the ule-app service core

This project models the two in-memory service modules of the ule-app
marketplace back end and proves what they promise.

- **Identity and credentials** (`app/auth/service.py`):
  - `format_russian_phone`, the normaliser that turns any spelling of a
    Russian number into the key of the user store;
  - password digests and the stubbed SMS code;
  - registration, login and password reset over `users_db`.
- **Tasks, offers, responses and notifications** (`app/tasks/service.py`):
  - customers post tasks;
  - performers keep one standing service offer and respond to tasks;
  - customers accept or reject responses;
  - every step leaves notifications behind.

## Files

| file | module | contents |
|---|---|---|
| `common.dfy` | `Common` | `Option`, `Outcome`, `Result`, and `Dict`: a map plus the insertion order of its keys, which is how a Python `dict` behaves. Also the filtering pass and the newest-first sort that the queries share. |
| `phone.dfy` | `Phone` | `FormatRussianPhone` and its properties. |
| `auth.dfy` | `Auth` | SMS code and password functions, and the `AuthService` class over the user map. |
| `tasks.dfy` | `Tasks` | Record types, the partial task update, the first offer of a phone, the invariant `Consistent`, and one lemma per kind of state change showing that the change keeps the invariant. |
| `task_service.dfy` | `TaskService` | The `TaskService` class. Its four `Dict` fields are the four module-level dictionaries. There is one method per service function. |

## How the model works

- **Fields and state.** Each mutating method has `modifies this`. Its
  postcondition gives every field's new value in terms of its old one.
- **Errors.** A `ValueError` raised by the source becomes a `Fail` or
  `Failure` result, and nothing changes on that path. The `TaskService`
  methods state this as `unchanged(this)`. `AuthService.RegisterUser` and
  `AuthService.ResetPassword` state it as `users == old(users)` and
  `clock == old(clock)`.
- **Fresh ids.** `uuid4()` becomes an id parameter. The precondition says the
  id is not in use. For tasks, the ghost set `issuedTaskIds` adds that the id
  was never issued before, as a uuid never repeats.
- **Time.** `datetime.now()` is the `clock` field of each class, which
  advances at every record created. In `TaskService`, the invariant `Valid`
  says every stored task, offer, response and notification is stamped before
  `clock`. `AuthService` has no invariant linking a user's `createdAt` to its
  `clock`.
- **Password hash and tokens.** SHA-256 and the JWT encoder are the function
  values `hash` and `sign`. The `AuthService` receives them at construction.

### Where the code differs from the design

The model follows the code in each of these cases:

- Nothing stops a performer from responding twice to the same task, or to
  their own task.
- Deleting a task leaves its responses in place.
- `update_task` checks no ownership.
- `get_task_responses` checks no owner.
- An omitted price stays `None`.
- `update_response_status` accepts any status, including `pending`. A
  `pending` status changes only the response.
- `update_task` applies every field the request sets, so a field sent as
  `null` becomes `None`. `Patch<Option<…>>` models this.
- An empty phone filter in `get_tasks` is falsy, so it filters nothing.

## Model

| member | source | states |
|---|---|---|
| `Phone.Digits` | app/auth/service.py:16 | The result holds only ASCII digits and is no longer than the input. Which digits it holds, and in what order, is stated by `Phone.DigitsOfChar`, `Phone.DigitsAppend` and `Phone.DigitsKeepsExactlyDigits`. |
| `Phone.DigitsOfChar` | app/auth/service.py:16 | A single character is kept exactly when it is a digit. |
| `Phone.DigitsAppend` | app/auth/service.py:16 | The digits of a concatenation are the digits of the first part followed by those of the second. With `Phone.DigitsOfChar`, this fixes the result on every string: each digit of the input, in order, and nothing else. |
| `Phone.DigitsKeepsExactlyDigits` | app/auth/service.py:16 | A character occurs in the result exactly when it occurs in the input and is a digit. |
| `Phone.FormatRussianPhone` | app/auth/service.py:14-29 | The result is either the input unchanged, or the display form of the last ten digits of the input (when it has at least ten). |
| `Phone.CountryCodeTail` | app/auth/service.py:19-24 | When the country-code rewrite yields 12 characters, the ten after its first two characters are the last ten digits of the input. |
| `Phone.FormatExactlyWhenFormattable` | app/auth/service.py:19-29 | The display form is returned exactly when the digits are 11 long and start with `7` or `8`, or are 12 long and start with neither. Otherwise the input comes back verbatim. |
| `Phone.DigitsOfDisplayForm` | app/auth/service.py:16-25 | The digits of a display form are `7` followed by its ten national digits. |
| `Phone.DisplayFormIsCanonical` | app/auth/service.py:25 | A display form has the shape `+7 (ddd) ddd-dd-dd`, character by character. |
| `Phone.CanonicalIsDisplayForm` | app/auth/service.py:25 | Every string of that shape is the display form of its own ten digits. |
| `Phone.CanonicalIsFixedPoint` | app/auth/service.py:14-29 | An already formatted number is returned unchanged. |
| `Phone.FormatIdempotent` | app/auth/service.py:14-29 | Formatting twice equals formatting once. |
| `Phone.TrunkAndCountryPrefixAgree` | app/auth/service.py:19-22 | Digits `8`+T and `7`+T (T ten digits long) normalise to the same display form of T. |
| `Phone.SameDigitsSameKey` | app/auth/service.py:16-29 | Two formattable inputs with the same digits normalise alike, whatever their punctuation. |
| `Auth.HashPassword` | app/auth/service.py:31-34 | The digest is the abstract `hash` applied to the password. This is a definition with no contract of its own; its round trip with `verify_password` is `Auth.VerifyPasswordSpec`. |
| `Auth.VerifyPassword` | app/auth/service.py:36-39 | A password matches a stored digest exactly when its own digest equals it. This is a definition; its properties are `Auth.VerifyPasswordSpec`. |
| `Auth.VerifySmsCode` | app/auth/service.py:45-48 | A code is accepted exactly when it is `"1111"`, whatever the phone. This is a definition; its properties are `Auth.GenerateSmsCode` and `Auth.SmsCodeAcceptedExactly`. |
| `Auth.GenerateSmsCode` | app/auth/service.py:41-43 | The code handed out for any phone verifies. |
| `Auth.SmsCodeAcceptedExactly` | app/auth/service.py:41-48 | A code is accepted for one phone exactly when it is the code generated for any phone. |
| `Auth.VerifyPasswordSpec` | app/auth/service.py:31-39 | The digest of a password verifies against it. A digest verifies only against passwords that hash to it. |
| `Auth.AuthService.constructor` | app/auth/service.py:7 | The user store starts empty. |
| `Auth.AuthService.RegisterUser` | app/auth/service.py:63-82 | If the normalised phone is already a key, fails with "already exists" and leaves the store unchanged. Otherwise adds exactly that key, with the hashed password, name, city and no avatar, and changes no other entry. Login with that password then succeeds, and only passwords with the same digest are accepted. |
| `Auth.AuthService.AuthenticateUser` | app/auth/service.py:84-111 | Succeeds exactly when the normalised phone is stored and the password verifies. An unknown phone and a wrong password both give `None`. On success the token is signed for the normalised phone, and the user info carries that phone and the stored profile. |
| `Auth.AuthService.ResetPassword` | app/auth/service.py:113-124 | For an unknown phone, fails with "not found" and changes nothing. Otherwise only that user's password changes, and login with the new password succeeds. |
| `Tasks.TaskFilter.Accepts` | app/tasks/service.py:40-45 | A task passes when it matches every filter that is given and truthy: the owner's phone (an empty phone filters nothing), the category and the status. This is a definition; `TaskService.TaskService.GetTasks` states the listing in its terms. |
| `Tasks.ApplyUpdate` | app/tasks/service.py:58-62 | Every field set in the update is overwritten, possibly with `None`. Every other field keeps its value, including id, status, owner, stamp and counter. |
| `Tasks.ApplyUpdateProperties` | app/tasks/service.py:58-62 | An empty update changes nothing. Applying the same update twice equals applying it once. |
| `Tasks.FirstOfferOf` | app/tasks/service.py:94-98 | `None` exactly when no offer has the phone. Otherwise, the offer at the first position holding that phone. |
| `Tasks.FirstOfferAt` | app/tasks/service.py:94-98 | The first match is determined by its position. |
| `Tasks.OfferAppended` | app/tasks/service.py:100-104 | When a phone has no offer, appending a new offer for it makes that offer the phone's first. No phone gains a second offer. |
| `Tasks.OfferReplaced` | app/tasks/service.py:105-108 | Overwriting the phone's first offer in place makes the new record the phone's first offer. No phone gains a second offer. |
| `Tasks.OfferKeepsPhone` | app/tasks/service.py:105-108 | Rewriting an offer without changing its phone keeps at most one offer per phone. |
| `Tasks.CountsResponsesNewTask` | app/tasks/service.py:15-34 | A task created under a never-issued id has exactly its zero responses. |
| `Tasks.CountsResponsesAdd` | app/tasks/service.py:128-131 | Storing a response and bumping its task's counter keeps every task's counter equal to the number of its responses. |
| `Tasks.CountsResponsesFrame` | app/tasks/service.py:58-62 | Changes that keep the task keys, their counters and each response's task keep every counter exact. |
| `Tasks.TaskCreated` | app/tasks/service.py:15-34 | Storing a new task under a never-issued id, stamped now with no responses, keeps the service state consistent. |
| `Tasks.TaskChanged` | app/tasks/service.py:58-62 | Rewriting a task in place, with the same id, stamp and counter, keeps the state consistent. |
| `Tasks.TaskRemoved` | app/tasks/service.py:74 | Deleting a task, while its responses stay, keeps the state consistent. |
| `Tasks.OfferCreated` | app/tasks/service.py:78-92 | Storing a new offer stamped now keeps the state consistent. |
| `Tasks.OfferChanged` | app/tasks/service.py:105-108 | Rewriting an offer in place keeps the state consistent. |
| `Tasks.ResponseRecorded` | app/tasks/service.py:128-131 | A new response plus its task's bumped counter keeps the state consistent. |
| `Tasks.ResponseChanged` | app/tasks/service.py:161 | Changing a response's status in place keeps the state consistent. |
| `Tasks.NotificationCreated` | app/tasks/service.py:181-196 | Storing a new notification stamped now keeps the state consistent. |
| `Tasks.NotificationChanged` | app/tasks/service.py:215 | Marking a notification in place keeps the state consistent. |
| `Common.Dict.Put` | app/tasks/service.py:32 | Assigning under a key stores the value. An existing key keeps its place in the order; a new key goes last. The dictionary stays well formed. |
| `Common.Dict.Remove` | app/tasks/service.py:74 | `del` removes exactly that key and leaves the order of the others. |
| `Common.PutNewValues` | app/tasks/service.py:32 | Storing under a new key appends its value to `values()`. |
| `Common.PutExistingValues` | app/tasks/service.py:106-108 | Storing under an existing key replaces its value in place in `values()`. |
| `Common.CollectValues` | app/tasks/service.py:39-47 | One pass over `values()` keeps exactly the accepted values, in dictionary order. |
| `Common.SortDesc` | app/tasks/service.py:49 | The result is a permutation of the input, ordered newest first. |
| `Common.SelectedRecords` | app/tasks/service.py:142-149 | Any reordering of the selection holds each accepted stored record exactly once. |
| `TaskService.TaskService.constructor` | app/tasks/service.py:10-13 | All four dictionaries start empty, the clock is at zero, and the set of issued task ids starts empty, so a first task can be created under any id. |
| `TaskService.TaskService.CreateTask` | app/tasks/service.py:15-34 | Adds exactly one task under the fresh id: `open`, zero responses, owned by the caller, price and photos copied as given, stamped later than every existing task. Nothing else changes. |
| `TaskService.TaskService.GetTasks` | app/tasks/service.py:36-49 | Returns each stored task that passes every given filter, exactly once, newest first. The result is a permutation of the filtered pass over `values()`. |
| `TaskService.TaskService.GetTask` | app/tasks/service.py:51-52 | `Some` exactly when the id is stored, and then the stored task. |
| `TaskService.TaskService.UpdateTask` | app/tasks/service.py:54-64 | For a missing id, fails with "not found" and changes nothing. Otherwise only that task changes, by `ApplyUpdate`, with no ownership check. |
| `TaskService.TaskService.DeleteTask` | app/tasks/service.py:66-76 | "Not found", then "not authorized" when the phone is not the owner; both change nothing. Otherwise only that task is removed, and responses and notifications stay. |
| `TaskService.TaskService.CreateServiceOffer` | app/tasks/service.py:78-92 | Adds exactly one offer under the fresh id, stamped now. Nothing else changes. |
| `TaskService.TaskService.GetServiceOffer` | app/tasks/service.py:94-98 | Returns the first offer of the phone in insertion order, or `None`. |
| `TaskService.TaskService.UpdateServiceOffer` | app/tasks/service.py:100-110 | Creates an offer when the phone has none. Otherwise overwrites categories, description and rate of the offer `get_service_offer` finds. Afterwards `get_service_offer` returns the new values, and at most one offer per phone is kept. |
| `TaskService.TaskService.CreateProjectResponse` | app/tasks/service.py:112-140 | For a missing task, fails with "not found" and changes nothing. Otherwise adds one `pending` response, bumps that task's counter by one, and adds one unread `new_response` notification for the task's owner. |
| `TaskService.TaskService.RecordResponse` | app/tasks/service.py:128-131 | Stores the response and raises its task's counter by exactly one. |
| `TaskService.TaskService.GetTaskResponses` | app/tasks/service.py:142-149 | Returns each stored response to the task exactly once, newest first, with no owner check. |
| `TaskService.TaskService.UpdateResponseStatus` | app/tasks/service.py:151-179 | "Response not found", then "not authorized" when the task is gone or the phone is not its owner; both change nothing. Otherwise sets only that response's status. `accepted` also moves the task to `in_progress` and notifies the performer. `rejected` notifies the performer. `pending` does nothing more. |
| `TaskService.TaskService.CreateNotification` | app/tasks/service.py:181-196 | Adds exactly one unread notification for the phone, with the given type, stamped now. |
| `TaskService.TaskService.GetNotifications` | app/tasks/service.py:198-205 | Returns each stored notification for the phone exactly once, newest first. |
| `TaskService.TaskService.MarkNotificationRead` | app/tasks/service.py:207-217 | "Not found", then "not authorized" for another phone; both change nothing. Otherwise only that notification's `read` flag is set. On a notification already read, nothing changes (idempotent). |

## Left out

- HTTP routing, status codes, templates, SQLite schema and scripts.
  `app/auth/api.py`, `app/tasks/api.py`, `app/web/routes.py`, `main.py`,
  `run_app.py` and the database scripts are not part of this model.
- `print` logging.
- SHA-256 and JWT encoding are the abstract functions `hash` and `sign`. The
  token's expiry time comes from the wall clock and is not modelled. A token
  is `sign` of the normalised phone.
- `uuid4()` and `datetime.now()` are replaced by fresh-id parameters and a
  counter. Two records are never stamped with the same instant.
- `sms_codes` is declared in `app/auth/service.py` but never read or written,
  so it is not modelled.
- The notification title and message text are not modelled; each
  notification keeps its recipient and type tag.
- Pydantic validation of requests and responses is left out. The listings
  below return the stored records, while the source converts each one into a
  pydantic model first, and that conversion can raise. The model therefore
  promises results, on the lines that follow, where the source raises.
- `TaskService.TaskService.GetTaskResponses`: the source builds
  `ProjectResponse(**response)` for every matching response
  (app/tasks/service.py:147). `ProjectResponse.id` is declared `int`
  (app/models.py:89), but every stored id is a uuid string, so the
  conversion raises. In the source, `get_task_responses` therefore raises
  whenever any response matches, and never returns a non-empty list. The
  model returns the matching responses.
- `TaskService.TaskService.GetNotifications`: likewise, `Notification(**notification)`
  (app/tasks/service.py:203) meets `Notification.id: int` (app/models.py:102)
  and raises whenever any notification matches. The model returns the
  matching notifications.
- `TaskService.TaskService.GetTasks`: `TaskResponse(**task)`
  (app/tasks/service.py:47) raises for a matching task whose `photos`,
  `description`, `address`, `date` or `service_category` is `None`, because
  `TaskResponse` declares them non-optional (app/models.py:54-65). The model
  reaches such tasks through `Patch<Option<…>>` in `UpdateTask`, or with
  `photos` given as `None` at creation, and still lists them.
- `TaskService.TaskService.CreateProjectResponse`: the source takes
  `task['description'][:30]` for the notification text
  (app/tasks/service.py:136). For a task whose description was updated to
  `None`, this raises a `TypeError` after the response is stored and the
  counter is bumped (:128-131), and before the notification is created. The
  source is left with that partial change. The model completes the
  operation and creates the notification.
- `TaskService.TaskService.UpdateResponseStatus`: in the same way, for
  `accepted` or `rejected` on a task whose description is `None`, building
  the text (app/tasks/service.py:168, :175) raises after the response
  status, and for `accepted` the task status (:161, :164), were set, and
  before the notification is created. The model completes the operation.
- Prices and hourly rates are `real`. No arithmetic is done on them, so float
  rounding is irrelevant.
- `Phone.Digits`: only ASCII `0`–`9` count as digits, while Python's `\D`
  also keeps other Unicode decimal digits.
- `Common.SortDesc`: stated as a permutation ordered newest first. That it is
  stable is not stated; records of one table never share a stamp in the
  model.
- Dictionary values are treated as values. The source mutates shared dicts
  (`task["responses_count"] += 1`), but no two tables share one, so the model
  writes a new record back under the same key.

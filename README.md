# QServeU mobile client: ticket allocation and status notifier

A Dafny model of the two pieces of logic behind the QServeU walk-in queue
app. The rest of the app is screens.

- **`MobileDatabase`** (`QServeU_Mobile/utils/database.py`). A student asks
  for a numbered ticket at an office, can cancel it while it is waiting, and
  is asked to rate the latest completed visit. The remote Supabase store
  becomes three in-memory tables held by the class `Database.MobileDatabase`:
  - `tickets` (the `queues` table)
  - `feedback`
  - `offices`

  Each query chain (`eq`, `in_`, `gt`, `gte`, `order`, `limit`) becomes a
  `Filter`, a `Latest` (maximal `created_at`) or a count. The clock is a
  parameter: `now`, and for the admission check `todayStart`, the first
  instant of the local day. Timestamps are integer seconds.
- **`NotificationManager`** (`QServeU_Mobile/utils/notifications.py`). At
  each poll tick it compares the student's ticket with the last status, the
  last `people_ahead` and the last note it remembers. It sends zero, one or
  two local alerts. `Notifications.Step` is the tick as a function. The class
  method `UpdateStatus` keeps the source's early returns and is proved equal
  to `Step`. A sent alert is appended to the ghost log `sent`.

Modules:
- `Basics`: `Option` and `Filter`.
- `QueueNumber`: display codes. `int()`, `str.replace(prefix, '')` and
  `f"{prefix}{n:03d}"`.
- `Queries`: rows and the read-only queries.
- `Allocation`: used numbers, cooldown numbers and the lowest-free scan, as
  functions.
- `Database`: the class, its loops and the update lemmas.
- `Notifications`: the notifier.

Behaviour of the code worth knowing (the model keeps each as written):
- **The scan can reach 1000.** When every ordinal 1..999 is used or
  cooling down, the loop exits with 1000. The code is then four digits
  (`Q1000`), and it can repeat a code that is already in use
  (`LowestFree`, `Pad3Length`).
- **Two lookback windows.** The admission check counts tickets created since
  the start of the local day. `get_student_queue` looks back 24 hours. Both
  are kept as written.
- **Cooldown is conditional.** Cooldown numbers are looked up only when some
  number is in use. So an office with no parseable active ticket hands out
  `prefix + "001"` again, even right after `001` was completed
  (`NothingUsedGivesFirst`).
- **A ticket from yesterday does not block admission.** The admission check
  counts only tickets created since the start of today
  (`database.py:126`). A student whose waiting ticket was created yesterday
  counts 0, is admitted again, and then holds two active tickets
  (`YesterdaysTicketDoesNotBlock`).
- **Repeating a snapshot is silent only after the final save.** The three
  early returns of `update_status` each save one remembered value
  (`notifications.py:36`, `46`, `55`). A snapshot that brings a new
  "Skipped" note together with a first cancelled or serving status sends
  the skip alert. Polling the same snapshot again then sends the cancel or
  "your turn" alert one tick late (`RepeatAfterSkipCanAlert`,
  `SkippedCancelledRepeatAlerts`).

The main loop polls with rows from `get_student_queue`. Those rows have no
`people_ahead` key, so the notifier reads the count as 0. Under that
condition the position alert and the "You are Next" alert can never fire
(`PollWithoutCountNeverAnnouncesPosition`).

## Model

| member | source | states |
|---|---|---|
| `QueueNumber.RemoveAll` | QServeU_Mobile/utils/database.py:190 | `str.replace(prefix, '')`: deletes every occurrence of the prefix, left to right; the result is never longer than the code; the round trip it takes part in is `QueueCodeRoundTrip` |
| `QueueNumber.ParseInt` | QServeU_Mobile/utils/database.py:190 | `int()` on a stored code: the value of a non-empty digit string, otherwise a failure that the caller skips; inverse of `Pad3` by `Pad3Parses` |
| `QueueNumber.ParseOrdinal` | QServeU_Mobile/utils/database.py:190 | `int(code.replace(prefix, ''))`; reads back the ordinal of a code with a readable prefix (`QueueCodeRoundTrip`), but not with a digit prefix (`DigitPrefixBreaksRoundTrip`) |
| `QueueNumber.Pad3` | QServeU_Mobile/utils/database.py:231 | `f"{n:03d}"`; its length and value are stated by `Pad3Length` and `Pad3Parses` |
| `QueueNumber.QueueCode` | QServeU_Mobile/utils/database.py:231 | the display code `prefix + pad3(n)`; inverted by `ParseOrdinal` (`QueueCodeRoundTrip`) |
| `QueueNumber.Pad3Parses` | QServeU_Mobile/utils/database.py:231 | `int()` of the zero-padded ordinal gives the ordinal back |
| `QueueNumber.Pad3Length` | QServeU_Mobile/utils/database.py:226-231 | ordinals up to 999 are written with exactly three digits; the overflow value 1000 with four |
| `QueueNumber.QueueCodeRoundTrip` | QServeU_Mobile/utils/database.py:187-231 | stripping a prefix that is empty or starts with a non-digit from `prefix + pad3(n)`, then parsing, yields `n` |
| `QueueNumber.DigitPrefixBreaksRoundTrip` | QServeU_Mobile/utils/database.py:190 | with prefix "1" the code "1001" reads back as 0, because `replace` deletes every occurrence of the prefix |
| `Queries.Latest` | QServeU_Mobile/utils/database.py:142-147 | `order('created_at', desc=True).limit(1)`: nothing iff there are no rows, otherwise a row no other row postdates |
| `Queries.ActiveQueueCount` | QServeU_Mobile/utils/database.py:117-131 | `get_active_queue_count`: never more than the number of rows; positive exactly as `ActiveQueueCountPositive` states |
| `Queries.ActiveQueueCountPositive` | QServeU_Mobile/utils/database.py:117-131 | the active count is positive iff the student has a waiting or serving ticket created at or after the start of today |
| `Queries.StudentQueue` | QServeU_Mobile/utils/database.py:133-156 | `get_student_queue`; characterised in full by `StudentQueueIsLatestShown` |
| `Queries.StudentQueueIsLatestShown` | QServeU_Mobile/utils/database.py:133-156 | the answer is the student's latest ticket of the last 24 hours when it is waiting, serving or cancelled; it is nothing iff there is no such ticket or the latest one is completed |
| `Queries.CompletedLatestHidesWaiting` | QServeU_Mobile/utils/database.py:149-153 | a newer completed ticket hides an older ticket that is still waiting |
| `Queries.PendingFeedback` | QServeU_Mobile/utils/database.py:285-317 | `get_pending_feedback`; characterised in full by `PendingFeedbackIsLatestUnrated` |
| `Queries.PendingFeedbackIsLatestUnrated` | QServeU_Mobile/utils/database.py:285-317 | at most one ticket: the student's latest completed one, never one with a feedback row; nothing iff there is no completed ticket or the latest is rated |
| `Queries.FeedbackClearsPending` | QServeU_Mobile/utils/database.py:269-313 | after feedback for the offered ticket is stored, no ticket is offered |
| `Allocation.PrefixOf` | QServeU_Mobile/utils/database.py:176 | `office_data.get('queue_prefix', 'Q')`: the office's prefix, "Q" when the column is absent |
| `Allocation.FindOffice` | QServeU_Mobile/utils/database.py:171-176 | finds an office row with the id, or reports that none has it ("Office not found") |
| `Allocation.Ordinals` | QServeU_Mobile/utils/database.py:187-193 | the ordinals parsed out of a list of rows; characterised by `OrdinalsMembership` and computed by the loop `CollectOrdinals` |
| `Allocation.OrdinalsMembership` | QServeU_Mobile/utils/database.py:187-193 | an ordinal is collected iff some row's code parses to it; codes that fail to parse add nothing |
| `Allocation.UsedNumbers` | QServeU_Mobile/utils/database.py:181-193 | `used_numbers`; characterised by `UsedNumbersMembership` |
| `Allocation.UsedNumbersMembership` | QServeU_Mobile/utils/database.py:181-193 | used numbers are exactly the parsed ordinals of the office's waiting and serving tickets |
| `Allocation.CooldownNumbers` | QServeU_Mobile/utils/database.py:196-223 | `cooldown_numbers`; characterised by `CooldownNumbersMembership` |
| `Allocation.CooldownNumbersMembership` | QServeU_Mobile/utils/database.py:196-223 | cooldown numbers are the parsed ordinals of the office's tickets completed or cancelled strictly after now minus 10 minutes, and are gathered only when some number is used |
| `Allocation.LowestFree` | QServeU_Mobile/utils/database.py:225-229 | result r has 1 <= r <= 1000; every ordinal below r is blocked; r <= 999 means r is free; r == 1000 iff all of 1..999 are blocked |
| `Allocation.AllocatedOrdinal` | QServeU_Mobile/utils/database.py:181-229 | the ordinal `create_queue` hands out; its guarantees are `LowestFree`, `NothingUsedGivesFirst`, `AllocatedCodeNotActive`, `AllocatedCodeNotCoolingDown` |
| `Allocation.NothingUsedGivesFirst` | QServeU_Mobile/utils/database.py:196-231 | an office with no parseable active ticket always gets ordinal 1, code `prefix + "001"` |
| `Allocation.AllocatedCodeNotActive` | QServeU_Mobile/utils/database.py:181-231 | unless the scan overflowed, the new code is not the code of any waiting or serving ticket of the office |
| `Allocation.AllocatedCodeNotCoolingDown` | QServeU_Mobile/utils/database.py:196-231 | while some number is used and the scan did not overflow, the new code is not the code of a ticket completed or cancelled in the last 10 minutes |
| `Allocation.CooldownScenario` | QServeU_Mobile/utils/database.py:181-231 | with A001 waiting and A002 completed two minutes ago, the next ticket is A003 |
| `Allocation.WaitingCount` | QServeU_Mobile/utils/database.py:236-242 | `people_ahead`: the office's waiting tickets, never more than the number of rows |
| `Database.CollectOrdinals` | QServeU_Mobile/utils/database.py:187-193 | the loop over the rows collects exactly the ordinals of the codes that parse |
| `Database.ScanLowestFree` | QServeU_Mobile/utils/database.py:226-229 | the `while` scan returns the lowest free ordinal as `LowestFree` characterises it |
| `Database.CanCancel` | QServeU_Mobile/utils/database.py:348-355 | the gate of `cancel_student_queue`: a row with this id, this student and status waiting exists; a cancelled ticket fails it (`CancelTwiceFails`) |
| `Database.CancelRows` | QServeU_Mobile/utils/database.py:357-364 | the update `.eq('id', queue_id)`: same number of rows; which rows change and how is `CancelTouchesOnlyThatRow` |
| `Database.CancelTouchesOnlyThatRow` | QServeU_Mobile/utils/database.py:357-364 | with unique ids a successful cancel rewrites exactly the found waiting row, setting its status, cancel time and note |
| `Database.CancelTwiceFails` | QServeU_Mobile/utils/database.py:348-364 | after a cancel, the same ticket can never pass the waiting-status gate again |
| `Database.AdmissionKeepsOneActivePerDay` | QServeU_Mobile/utils/database.py:165-254 | an admitted student ends with exactly one active ticket created today, and no other student's count changes |
| `Database.YesterdaysTicketDoesNotBlock` | QServeU_Mobile/utils/database.py:117-131 | a waiting ticket created before today counts 0 for admission, so after a second admission the student holds two active tickets |
| `Database.NewTicketIsShown` | QServeU_Mobile/utils/database.py:140-254 | when the student's earlier tickets are older, `get_student_queue` then returns the inserted ticket |
| `Database.MobileDatabase.CreateQueue` | QServeU_Mobile/utils/database.py:158-265 | an active ticket today: refused with "You are already in queue {num}" (num is "???" when no ticket is shown), store unchanged. Unknown office: "Office not found", store unchanged. Otherwise: one waiting row appended with the lowest free code, `people_ahead` = waiting tickets of the office before the insert, no other row changed |
| `Database.MobileDatabase.CancelStudentQueue` | QServeU_Mobile/utils/database.py:343-370 | succeeds iff the student's ticket with this id is waiting; then only that row becomes cancelled at `now` with the note "Cancelled by student"; otherwise the store is unchanged |
| `Database.MobileDatabase.SubmitFeedback` | QServeU_Mobile/utils/database.py:269-283 | appends exactly one feedback row and reports success; tickets and offices unchanged |
| `Notifications.AlertTitlesDistinct` | QServeU_Mobile/utils/notifications.py:32-72 | the five alert titles are pairwise different |
| `Notifications.Step` | QServeU_Mobile/utils/notifications.py:21-78 | `update_status` as a function; its rules are `NoSnapshotIsSilent`, `SkipRule`, `CancelRule`, `ServeRule` and `SaveRule`, and `UpdateStatus` is proved to follow it |
| `Notifications.NoSnapshotIsSilent` | QServeU_Mobile/utils/notifications.py:21-23 | no snapshot: no alert, remembered state unchanged |
| `Notifications.SkipRule` | QServeU_Mobile/utils/notifications.py:30-38 | a new note containing "Skipped" sends one alert and updates only the remembered note |
| `Notifications.CancelRule` | QServeU_Mobile/utils/notifications.py:40-48 | otherwise, a first cancelled status sends one alert whose reason is the note or "Cancelled by staff", and updates only the remembered status |
| `Notifications.ServeRule` | QServeU_Mobile/utils/notifications.py:50-57 | otherwise, a first serving status sends one alert and updates only the remembered status |
| `Notifications.SaveRule` | QServeU_Mobile/utils/notifications.py:59-78 | on the fall-through path all three remembered values take the snapshot's values. When waiting, the position alert fires iff the count changed and the last status was waiting, and "You are Next" fires iff the count is 1 and was not 1, position first. Any other status sends nothing |
| `Notifications.AtMostTwoAlerts` | QServeU_Mobile/utils/notifications.py:21-78 | no tick sends more than two alerts |
| `Notifications.RepeatIsSilent` | QServeU_Mobile/utils/notifications.py:21-78 | after a tick that reached the final save, the identical snapshot sends nothing and changes nothing |
| `Notifications.RepeatAfterSkipCanAlert` | QServeU_Mobile/utils/notifications.py:30-57 | when a new skip note comes with a first cancelled or serving status, the tick sends the skip alert and the identical next tick sends the cancel or serving alert |
| `Notifications.SkippedCancelledRepeatAlerts` | QServeU_Mobile/utils/notifications.py:30-48 | a fresh notifier polled twice with a skipped and cancelled "A001" alerts on both ticks |
| `Notifications.FirstWaitingSnapshot` | QServeU_Mobile/utils/notifications.py:5-78 | from the initial state, a first waiting snapshot never sends a position alert; it sends "You are Next" iff the count is 1 and the note carries no skip marker |
| `Notifications.PollWithoutCountNeverAnnouncesPosition` | QServeU_Mobile/utils/notifications.py:26-78 | fed only snapshots without `people_ahead`, the notifier never sends a position or "You are Next" alert |
| `Notifications.PolledTicketsNeverAnnouncePosition` | QServeU_Mobile/main.py:745-749 | a fresh notifier polled with `get_student_queue` rows never announces a position |
| `Notifications.NotificationManager.constructor` | QServeU_Mobile/utils/notifications.py:5-8 | starts with no status, count -1, empty note and no alert sent |
| `Notifications.NotificationManager.SendNotification` | QServeU_Mobile/utils/notifications.py:10-19 | appends one (title, message) alert to the log |
| `Notifications.NotificationManager.UpdateStatus` | QServeU_Mobile/utils/notifications.py:21-78 | the fields and the alert log change exactly as `Step` says, with the source's early returns |

## Left out

- The Supabase client and `__init__`'s connection handling are left out: the store is in memory. `get_offices` is left out, and so are the account functions (`hash_password`, `verify_password`, `register_student`, `login_student`, `update_student`): they are bcrypt calls and plain inserts and updates.
- `wifi_detector.py` and all screens, popups and timers in `main.py` are UI or platform I/O.
- The exception paths are left out: store errors that become `{'success': False, 'message': str(e)}`, `0` or `None`; "Database insert failed"; an exact count that comes back `None`.
- The read-then-insert race in `create_queue` is concurrency: each operation is one atomic step over one store state. With concurrent requests two students could receive the same code; the model does not show that.
- Clock reads become parameters. `create_queue` reads the clock separately for the cooldown bound and for `created_at`; the model uses one `now` for both. ISO-string comparisons become integer comparisons.
- `int()` accepts only a non-empty run of ASCII digits here. Python also accepts a sign, whitespace and underscores.
- An office row whose `queue_prefix` column is present but null is left out. In Python that makes the prefix `None`, no code parses, and the new code is `None001`. The model has only a present prefix or an absent one, which means "Q".
- Ticket statuses other than the four known ones, a snapshot with no status, and a `people_ahead` key holding null are left out.
- The `offices(name)` join and the office name are left out. So is the id of a feedback row.
- Ties in `order('created_at')` are left to the store; the model picks the row stored first. Ticket ids are assigned from a counter (`nextId`), which stands for the store's id assignment.
- `send_notification`'s call to the operating system and its swallowed exception are left out: sending is an append to the ghost log `sent`.
- `people_ahead` is returned beside the inserted row (`Created(ticket, peopleAhead)`), not as a key added to the row.
- Database.MobileDatabase.SubmitFeedback: requires a rating in 1..5. The method itself does no range check; the rating screen only submits a selected star (`QServeU_Mobile/main.py:865-867`, `898-900`).

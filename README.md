# A Dafny model of the gt-bot meetings engine

gt-bot is a Telegram bot for community meetings. A user creates a meeting with
a topic, a description, a start time, a capacity and an optional location; the
host gets a confirmed seat at once. Other users register, are confirmed while
seats remain and waitlisted after that, and may unregister. A scheduler plans
reminders three days and one day before each meeting. It also posts a digest of
upcoming meetings to an announcements channel on configured days of the month.

This project models that engine in Dafny and proves what it promises:

- **`Storage`** (`storage.dfy`): the three tables (users, meetings,
  registrations) as the fields of class `Database`. Each method is one database
  session: read, decide, write. The same decisions are written as functions on
  the table values (`RegisterStep`, `UnregisterStep`). The lemmas about those
  functions state the store's rules:
  - the capacity bound;
  - at most one confirmed row per (meeting, user);
  - sequential ids;
  - the exact replies;
  - no waitlist promotion;
  - the listings as filters sorted by start.
- **`Models`** (`models.dfy`): the records, the three registration statuses and
  the column defaults.
- **`Scheduler`** (`scheduler.dfy`): class `BotScheduler`, holding a running
  flag, a job table keyed by id and the messages sent to the channel. Replacing
  a job with the same id is a map update. The module proves:
  - which reminders are planned, and that their ids are unique;
  - that rescheduling sets the meeting's due reminders, keeps an entry left
    by an earlier plan for an offset no longer due, and touches no other job;
  - that the announcement job needs a channel;
  - what the digest text is and how many lines it has.
- **`Handlers`** (`handlers.dfy`): the pure helpers of the command handlers.
  These are the `/create_meeting` argument parser (with a round trip from a
  printed command), the free-seat count, the host line and the button
  callback parser.
- **`Keyboards`** (`keyboards.dfy`): the month picker and its callback parser,
  which round-trips. It also holds the hour picker (a loop proved to produce
  the 6..23 grid in rows of four) and the minute picker.
- **`Config`** (`config.dfy`): `announce_config`, with its time fallback and
  its day filter loop, and `load_settings`, with the environment passed in as
  a map.
- **`Utils`** (`utils.dfy`): `ensure_utc` over datetimes modelled as a
  wall-clock reading plus an optional fixed-offset zone.
- **`Strings`** (`strings.dfy`): the Python string built-ins the code uses:
  - `split`, `split(":", 1)`, `join`, `strip`, `isdigit`;
  - `str(n)`, `f"{n:02d}"`, `int(s)`.

  Each comes with the round trips the other modules need.
- **`Wrappers`** (`wrappers.dfy`): `Option` and `Result`.

Time is integer UTC seconds. The current instant (`now`) and the conversion
of an instant to local `%Y-%m-%d %H:%M` text (`when`) are parameters.

Behaviour of the code worth knowing, all of it modelled as written:

- **The host uses a seat.** The host's confirmed row counts against
  `max_participants` (bot/storage.py:63-64, 138-144). With capacity 2, one
  registrant is confirmed and the next is waitlisted. See
  `Storage.HostSeatScenario`.
- **Two live rows are possible.** The "already registered" check only looks at
  confirmed rows (bot/storage.py:131-132). So a waitlisted user who registers
  again gets a second live row for the same meeting, and `unregister` then
  fails in `scalar_one_or_none`. See `Storage.SecondLiveRowScenario`.
- **No check on capacity, and no host flag.** Nothing requires
  `max_participants >= 1`, and registrations carry no host flag.
  `Storage.CreateMeetingOccupancy` states when the capacity bound survives
  creation.
- **`list_user_meetings` ignores time and status.** It lists every meeting
  with a confirmed row of the user, canceled and past ones included
  (bot/storage.py:83-92).

## Model

| member | source | states |
|---|---|---|
| Models.ParseStatus | bot/models.py:49-53 | exactly the three status strings are statuses, and each reads back to its text |
| Models.StatusTextRoundTrip | bot/models.py:49-53 | every status survives being stored as text and read back |
| Models.NewUser | bot/models.py:16-23 | a new user carries the externally supplied id, the name and the optional username |
| Models.NewMeeting | bot/models.py:29-43 | a new meeting carries the given id, topic, description, start, capacity, location and creator, is active (no cancellation instant) and has both timestamps set to the clock |
| Models.NewRegistration | bot/models.py:56-64 | a new row links the given meeting and user with the given status, created at the clock |
| Models.DefaultStatusIsConfirmed | bot/models.py:63 | a registration made without a status is confirmed |
| Utils.EnsureUtc | bot/utils.py:9-23 | the wall clock is never changed; the result is aware; an aware input comes back unchanged; a naive one gets UTC, so its instant is its wall reading |
| Utils.EnsureUtcIdempotent | bot/utils.py:21-23 | applying `ensure_utc` twice equals applying it once |
| Utils.MakeTime | bot/config.py:62 | `time(h, m)` succeeds exactly for 0 <= h < 24 and 0 <= m < 60, and keeps both fields |
| Strings.Split | bot/handlers.py:33 | `split` yields at least one part, and no part holds the separator |
| Strings.JoinSplit | bot/handlers.py:33 | joining the parts of a split with the separator gives back the original text |
| Strings.SplitJoin | bot/scheduler.py:73 | splitting a join of separator-free parts gives back the parts |
| Strings.Strip | bot/handlers.py:33 | `strip()` is never longer than its input and leaves no whitespace at either end |
| Strings.StripCutsOnlySpace | bot/handlers.py:33 | `strip()` keeps one contiguous slice, and what it cuts on both sides is whitespace |
| Strings.StripPadded | bot/handlers.py:33 | whitespace around text that is already stripped is exactly what `strip()` removes |
| Strings.StripIdempotent | bot/handlers.py:33 | stripping twice equals stripping once |
| Strings.ParseInt | bot/handlers.py:39 | the parse succeeds exactly on an optionally signed run of digits, and a digit run is non-negative |
| Strings.PyInt | bot/handlers.py:39 | `int(s)` succeeds exactly when the stripped text is an integer literal |
| Strings.NatToString | bot/keyboards.py:122 | `str(n)` of a natural number is digits only, without leading zeros |
| Strings.IntToString | bot/keyboards.py:122 | `str(n)` is non-empty digits with at most a leading minus sign |
| Strings.IntToStringRoundTrip | bot/keyboards.py:71 | `int(str(n)) == n` for every integer |
| Strings.IntToStringInjective | bot/scheduler.py:56 | different integers print differently |
| Strings.Pad2 | bot/keyboards.py:121 | `f"{n:02d}"` pads one-digit numbers to two characters with a leading zero |
| Strings.Pad2RoundTrip | bot/keyboards.py:121 | `int(f"{n:02d}") == n` |
| Strings.SplitOnce | bot/handlers.py:242 | the two-name unpacking of `split(":", 1)` fails exactly without a colon, and otherwise cuts at the first colon |
| Strings.SplitOnceAt | bot/handlers.py:242 | text made of a colon-free head, a colon and a tail unpacks to that head and tail |
| Storage.FindMeeting | bot/storage.py:70-73 | the lookup finds a meeting exactly when one has the id, and returns a stored meeting with that id |
| Storage.FindMeetingUnique | bot/storage.py:70-73 | with unique ids, the lookup returns the meeting at that id's position |
| Storage.RowsFor | bot/storage.py:130-134 | the query returns exactly the positions of the pair's rows with a wanted status, in table order |
| Storage.Participants | bot/storage.py:172-178 | the participants are exactly the meeting's confirmed rows |
| Storage.ConfirmedCountAppend | bot/storage.py:94-103 | appending a row raises a meeting's confirmed count by one exactly when the row is a confirmed row of that meeting |
| Storage.ConfirmedCountUpdate | bot/storage.py:94-103 | overwriting one row changes the count only by what the old and new row contribute |
| Storage.ConfirmedCountAbsent | bot/storage.py:94-103 | a meeting without rows has no confirmed seat |
| Storage.OneConfirmedRowPerPair | bot/storage.py:130-134 | while each pair has at most one confirmed row, the duplicate query finds at most one row |
| Storage.RegisterOutcomes | bot/storage.py:119-150 | register, case by case (list below); refusals change nothing |
| Storage.RegisterKeepsCapacity | bot/storage.py:138-146 | if no meeting is over capacity before `register`, none is after |
| Storage.RegisterKeepsOneConfirmed | bot/storage.py:129-146 | `register` never gives a pair a second confirmed row |
| Storage.UnregisterOutcomes | bot/storage.py:152-170 | unregister, case by case (list below); it never looks at the meeting |
| Storage.UnregisterNeverPromotes | bot/storage.py:166-168 | a waitlisted row stays waitlisted unless it is the caller's own row being canceled; no confirmed count grows |
| Storage.UnregisterKeepsCapacity | bot/storage.py:168 | `unregister` preserves the capacity bound |
| Storage.UnregisterKeepsOneConfirmed | bot/storage.py:168 | `unregister` preserves "at most one confirmed row per pair" |
| Storage.CreateMeetingOccupancy | bot/storage.py:49-68 | after the host row goes in, the new meeting has exactly one confirmed seat; the capacity bound then holds iff `max_participants >= 1` |
| Storage.InsertByStart | bot/storage.py:79 | inserting keeps all elements (multiset) and keeps a sorted list sorted |
| Storage.SortByStart | bot/storage.py:79 | `ORDER BY start_at_utc ASC` yields a sorted permutation of its input |
| Storage.Upcoming | bot/storage.py:79 | exactly the non-canceled meetings starting at or after `now` pass the filter |
| Storage.UserMeetingRows | bot/storage.py:86-89 | the join yields stored meetings, each with a confirmed row of the user |
| Storage.UserMeetingRowsComplete | bot/storage.py:86-89 | every stored meeting with a confirmed row of the user is in the join |
| Storage.RegisterAdmits | bot/storage.py:138-150 | a user with no rows is appended as confirmed below capacity and as waitlisted at it, with the matching message |
| Storage.HostSeatScenario | bot/storage.py:138-168 | capacity 2 with the host seated: A is confirmed, B waitlisted; when A unregisters, A's row is canceled, B stays waitlisted and one seat is taken |
| Storage.SecondLiveRowScenario | bot/storage.py:129-168 | a waitlisted user who registers again gets a second waitlisted row, and `unregister` then raises |
| Storage.SequentialFind | bot/models.py:33 | with ids 1, 2, 3, ... the ids are unique and id k is found at position k-1 |
| Storage.RowsReferAppend | bot/storage.py:61-65 | adding a meeting together with a row for it keeps every row pointing at a meeting |
| Storage.RegisterKeepsStore | bot/storage.py:119-150 | `register` keeps row ids sequential, references valid, capacity and one confirmed row per pair |
| Storage.RegisterKeepsReferences | bot/storage.py:145-146 | the appended row gets the next id and points at an existing meeting |
| Storage.UnregisterKeepsReferences | bot/storage.py:168 | flipping a status keeps every id and meeting reference |
| Storage.DisplayName | bot/storage.py:105-111 | `name or username or None`: the name if non-empty, else a non-empty username, else nothing; never an empty string |
| Storage.Database.constructor | bot/storage.py:20-29 | a store starts empty and valid |
| Storage.Database.GetOrCreateUser | bot/storage.py:38-46 | an existing user is returned untouched (no name or username update); otherwise one is created under the given id; nothing else changes |
| Storage.Database.CreateMeeting | bot/storage.py:49-68 | the meeting gets the next id; it and a confirmed host row are appended; the meeting has one confirmed seat; invariants hold |
| Storage.Database.GetMeeting | bot/storage.py:70-73 | found iff the id is stored (canceled meetings included), and it is the meeting with that id |
| Storage.Database.ListUpcomingMeetings | bot/storage.py:75-81 | exactly the active meetings with start >= now, sorted ascending by start |
| Storage.Database.ListUserMeetings | bot/storage.py:83-92 | exactly the meetings where the user has a confirmed row (hosted, canceled and past included), sorted ascending |
| Storage.Database.CountConfirmed | bot/storage.py:94-103 | the live number of confirmed rows of the meeting |
| Storage.Database.GetUser | bot/storage.py:113-116 | the stored user, or nothing when the id is absent |
| Storage.Database.GetUserName | bot/storage.py:105-111 | nothing for an unknown user; otherwise the name, else the username; never empty |
| Storage.Database.Register | bot/storage.py:119-150 | the reply and the new table are those of `RegisterStep`; users and meetings unchanged; capacity and one-confirmed-row kept |
| Storage.Database.Unregister | bot/storage.py:152-170 | the reply and the new table are those of `UnregisterStep`; users and meetings unchanged; invariants kept |
| Storage.Database.ListMeetingParticipants | bot/storage.py:172-178 | exactly the meeting's confirmed rows, as many as `count_confirmed` counts |
| Scheduler.ReminderRunAt | bot/scheduler.py:46-49 | the run time is aware; it lies the given days before the start instant, reading a naive start as UTC |
| Scheduler.PlannedRemindersContents | bot/scheduler.py:45-58 | a job goes in for 3 and for 1 days exactly when that run time is strictly after now; each calls the reminder callback with the meeting id |
| Scheduler.ReminderJobIdsDistinct | bot/scheduler.py:56 | the two reminders of a meeting have different ids |
| Scheduler.ReminderJobIdFields | bot/scheduler.py:56 | a reminder id splits on `_` into `meeting`, the id, `reminder` and the offset |
| Scheduler.ReminderJobIdInjective | bot/scheduler.py:56 | equal reminder ids mean the same meeting and the same offset |
| Scheduler.ReminderJobIdNotAnnouncements | bot/scheduler.py:56-75 | no reminder id is `announcements_job` |
| Scheduler.RescheduleReplacesOwnReminders | bot/scheduler.py:52-58 | each due reminder of the meeting is set to the new plan's job; a reminder no longer due is neither added nor removed, so an entry from an earlier plan stays |
| Scheduler.RescheduleKeepsOtherJobs | bot/scheduler.py:52-58 | jobs under any other id are untouched |
| Scheduler.TwoDaysAheadScenario | bot/scheduler.py:45-51 | a naive start two days ahead plans only the one-day reminder |
| Scheduler.TenDaysAheadScenario | bot/scheduler.py:45-51 | a naive start ten days ahead plans both reminders |
| Scheduler.CronDayFieldRoundTrip | bot/scheduler.py:73 | the cron day field splits back on commas into the configured days, in order |
| Scheduler.LocationText | bot/scheduler.py:90 | `location or 'TBA'`: a non-empty location is shown as is, otherwise TBA |
| Scheduler.MeetingLines | bot/scheduler.py:88-90 | one line per meeting, in listing order |
| Scheduler.Shown | bot/scheduler.py:88 | `meetings[:10]`: the first min(n, 10) meetings |
| Scheduler.DigestLines | bot/scheduler.py:84-91 | a non-empty listing's digest splits into the header and one line per shown meeting: between 2 and 11 lines |
| Scheduler.DigestTextEmpty | bot/scheduler.py:84-91 | the text is "No upcoming meetings." exactly when the listing is empty |
| Scheduler.MeetingLinesOneLine | bot/scheduler.py:90 | no digest line holds a newline when its parts hold none |
| Scheduler.MeetingLineIsOneLine | bot/scheduler.py:90 | a meeting line holds no newline when its parts hold none |
| Scheduler.MeetingLineNamesMeeting | bot/scheduler.py:90 | a digest line starts with `#` and the meeting id, which reads back as that id |
| Scheduler.BotScheduler.constructor | bot/scheduler.py:26-30 | a new scheduler is stopped, with no jobs and nothing sent |
| Scheduler.BotScheduler.Start | bot/scheduler.py:32-35 | afterwards running; a running scheduler is left unchanged (idempotent) |
| Scheduler.BotScheduler.Shutdown | bot/scheduler.py:37-40 | afterwards stopped; a stopped scheduler is left unchanged; jobs stay |
| Scheduler.BotScheduler.ScheduleMeetingReminders | bot/scheduler.py:42-58 | the table becomes the old table updated with exactly the planned reminders |
| Scheduler.BotScheduler.ScheduleAnnouncements | bot/scheduler.py:66-77 | no change without a channel (None or 0); otherwise only `announcements_job` is set, with the comma-joined days |
| Scheduler.BotScheduler.RunReminderJob | bot/scheduler.py:60-64 | the placeholder callback changes nothing |
| Scheduler.BotScheduler.RunAnnouncementJob | bot/scheduler.py:79-92 | exactly one message is sent to the channel: the digest of the sorted upcoming meetings at `now` |
| Scheduler.ComposeDigest | bot/scheduler.py:84-91 | the line-building loop yields the digest text |
| Handlers.ParseNewArgs | bot/handlers.py:26-42 | `None` iff fewer than four fields or a non-integer fourth; max is that integer; location absent iff exactly four fields |
| Handlers.ParseNewArgsFieldsClean | bot/handlers.py:33-37 | every field that comes out is stripped and free of `\|` |
| Handlers.ParseNewArgsOfFields | bot/handlers.py:36-42 | topic, description and date are the first three stripped fields; location is the stripped fifth; later fields are dropped |
| Handlers.ParseNewArgsRoundTrip | bot/handlers.py:26-42 | printing clean arguments in `topic \| description \| date \| max \| location` form and parsing them gives them back |
| Handlers.SplitCommandText | bot/handlers.py:33 | the printed command splits on `\|` into its padded fields |
| Handlers.FreeSeats | bot/handlers.py:111 | `max(max - confirmed, 0)` is never negative and is either 0 or the difference |
| Handlers.FreeSeatsOfMeeting | bot/handlers.py:110-111 | under the capacity bound the shown seats are the true seats left, zero exactly when the meeting is full |
| Handlers.HostName | bot/handlers.py:109 | `get_user_name(...) or "Unknown"` |
| Handlers.HostDisplay | bot/handlers.py:270-276 | "name (@username)", "@username", the name alone, or "Unknown" for a missing host or one with neither |
| Handlers.HostDisplayAgreesWithListing | bot/handlers.py:270-276 | the details card and the listings show the same person |
| Handlers.ParseButtonData | bot/handlers.py:240-246 | `Ok` exactly when there is a colon and the text after the first one is an integer; otherwise the invalid-request reply |
| Handlers.ButtonDataRoundTrip | bot/handlers.py:120-121 | the data of a register or details button parses back to its meeting id |
| Handlers.PatternDataParses | bot/handlers.py:63-64 | all data the handler patterns admit parses, a final newline included |
| Handlers.MissingDataIsInvalid | bot/handlers.py:256-262 | absent callback data gives the invalid-request reply |
| Keyboards.MonthsLater | bot/keyboards.py:68 | `+ relativedelta(months=k)` lands on a valid month exactly k months on |
| Keyboards.MonthsLaterStep | bot/keyboards.py:67-68 | consecutive buttons show consecutive calendar months, rolling over into the next year |
| Keyboards.MonthsLaterZero | bot/keyboards.py:68 | the first button shows tomorrow's month |
| Keyboards.BuildMonthPicker | bot/keyboards.py:57-76 | three single-button rows for the three months starting at tomorrow's month |
| Keyboards.ParseMonthCallback | bot/keyboards.py:78-96 | `None` without the `month:` prefix or without exactly three fields; otherwise the two integers, or `None`; the month range is not checked |
| Keyboards.MonthCallbackRoundTrip | bot/keyboards.py:71-96 | parsing a month button's data gives back its year and month |
| Keyboards.MonthCallbackSplit | bot/keyboards.py:71 | a month callback splits into `month`, the year and the month |
| Keyboards.BuildHours | bot/keyboards.py:106-134 | the loop yields the hour grid: hours 6..23 in order, four to a row, the rest in a last row |
| Keyboards.HoursSoFarStep | bot/keyboards.py:119-128 | each turn of the loop appends the next hour and closes a row after four |
| Keyboards.HourGridOf | bot/keyboards.py:130-132 | the non-empty leftover row closes the grid |
| Keyboards.HourGridShape | bot/keyboards.py:116-134 | 18 buttons make four rows of four and one of two |
| Keyboards.HourButtonPlace | bot/keyboards.py:119-128 | every hour 6..23 is at row (h-6)/4, column (h-6)%4 |
| Keyboards.HourGridButtons | bot/keyboards.py:119-128 | every cell shows an hour within 6..23, namely 6 + 4r + j |
| Keyboards.HourGridInjective | bot/keyboards.py:122 | no hour appears twice |
| Keyboards.HourButtonLabel | bot/keyboards.py:121 | the label is `HH:00`, whose first two characters read back as the hour |
| Keyboards.BuildMinutes | bot/keyboards.py:136-162 | one row of four buttons for minutes 0, 15, 30, 45, then a row holding only the back button |
| Keyboards.MinuteCallbackRoundTrip | bot/keyboards.py:149 | a minute callback splits into `time`, the hour and the minute, which read back |
| Keyboards.MinuteCallbackSplit | bot/keyboards.py:149 | a minute callback has exactly three `:`-fields |
| Keyboards.BackButtonIsNotAnHour | bot/keyboards.py:154-157 | `hour:back` shares the hours' prefix, but no integer follows it and no hour button carries it |
| Config.DefaultSettings | bot/config.py:30-47 | a settings record with only the token set has no channel and no owner |
| Config.TimeFields | bot/config.py:60 | the first two `:`-fields, with the minute defaulting to "0" |
| Config.ParseAnnounceTime | bot/config.py:59-64 | the announcement time is always a valid time of day; a non-integer hour or minute, or one out of range, gives the fallback 10:00 |
| Config.AnnounceTimeRoundTrip | bot/config.py:59-64 | `HH:MM`, with any further `:`-fields ignored, reads back as that time |
| Config.ParseAnnounceTimeOf | bot/config.py:61-62 | two integer fields in range give that time |
| Config.AnnounceTimeHourOnly | bot/config.py:60 | an hour alone means that hour sharp |
| Config.DefaultAnnounceTimeParses | bot/config.py:59-64 | the default "10:00" reads as the fallback time 10:00 |
| Config.MonthDays | bot/config.py:66-73 | the kept days lie within 1..31, and there are no more of them than inputs |
| Config.MonthDaysCounts | bot/config.py:66-73 | each day in 1..31 is kept as often as it occurs; no other value is kept |
| Config.MonthDaysAppend | bot/config.py:66-73 | the filter splits over concatenation, so the order is kept |
| Config.MonthDaysKeepsValid | bot/config.py:66-73 | days already in range pass through unchanged |
| Config.AnnounceDaysOf | bot/config.py:65-75 | the loop yields the filtered days, or 1 and 15 when none survive; never empty, always within 1..31 |
| Config.DefaultAnnounceDaysKept | bot/config.py:74-75 | the fallback days pass the filter unchanged |
| Config.AnnounceConfigOf | bot/config.py:53-76 | the parsed time together with the filtered days (or the fallback) |
| Config.LookupEnv | bot/config.py:94 | `os.getenv(key)` is a value exactly when the variable is set |
| Config.DigitFields | bot/config.py:101 | the kept numbers are non-negative and no more than the fields |
| Config.DigitFieldsSingle | bot/config.py:101 | one field gives its number when its stripped text is all digits, and nothing otherwise |
| Config.DigitFieldsAppend | bot/config.py:101 | fields are kept or dropped each on its own, in order: the result splits over concatenation |
| Config.ParseAnnounceDays | bot/config.py:100-101 | the parsed days are non-negative |
| Config.ParseAnnounceDaysOfFields | bot/config.py:100-101 | comma-joined fields without commas parse as the kept fields themselves, so each comma-separated field is read on its own |
| Config.AnnounceDaysRoundTrip | bot/config.py:100-101 | a comma-joined list of day numbers parses back to the same list |
| Config.DefaultAnnounceDaysParse | bot/config.py:100-101 | the default "1,15" parses to days 1 and 15 |
| Config.ChannelIdFromEnv | bot/config.py:94-95 | unset or blank gives no channel; other text must be an integer, else an error |
| Config.ChannelIdRoundTrip | bot/config.py:95 | every printed integer, negative ids included, reads back as that channel |
| Config.LoadSettings | bot/config.py:79-115 | it fails exactly on a non-integer channel id (the source also raises on the `ANNOUNCE_DAYS` fields named under Left out); otherwise the token is `BOT_TOKEN` or empty, database URL, time zone and log level are the variables or their defaults, the days are `ANNOUNCE_DAYS` (default "1,15") parsed, the time is `ANNOUNCE_TIME` or its default, the channel is the parsed one, and admins and owner stay unset |
| Config.LoadSettingsEmptyEnv | bot/config.py:79-115 | an empty environment gives the default settings with an empty token |

The two long rows in full:

- `Storage.RegisterOutcomes`:
  - a missing or canceled meeting gets "Meeting not found or canceled.";
  - one confirmed row gets "You are already registered." (a waitlisted row
    does not);
  - several confirmed rows raise;
  - otherwise exactly one row is appended. It is confirmed iff the live count
    is below `max_participants`, with the matching message.
- `Storage.UnregisterOutcomes`:
  - no live row gets "You are not registered.";
  - several live rows raise;
  - otherwise only that row flips to canceled, with "You have been
    unregistered.".

## Left out

- **I/O.** Telegram I/O, meaning the `cmd_*`/`cb_*` message sending, the
  application builder and handler registration, is not modelled. Only the pure
  helpers of bot/handlers.py are.
- **Bootstrap.** main.py and bot/__init__.py are process bootstrap and an event
  loop; main.py is not part of this model.
- **Database engine.** SQLAlchemy engines, sessions, flush/refresh and SQL are
  replaced by in-memory tables. `create_all` and `session` have no
  counterpart.
- **Concurrency.** Atomicity and races between concurrent `register` calls
  cannot be stated as sequential methods; each method is one session.
- **Scheduler internals.** APScheduler's trigger firing, cron evaluation and
  `shutdown(wait=False)` semantics are not modelled. A job runs when its method
  is called, and the trigger is kept as data.
- **Time conversion and formatting.** `astimezone`, `strftime`,
  `dateutil.parser`, `zoneinfo` and `Settings.tzinfo` are foreign library
  calls. The local rendering of an instant is the parameter `when`, and the
  time zone is kept as its name.
- **Zones.** A datetime's zone is a fixed UTC offset; daylight-saving rules are
  not modelled.
- **Calendar widget.** `MeetingCalendar` is a subclass of a library widget and
  has no logic of its own.
- **Month-picker dates.** `date.today()` is an input (tomorrow's date). The day
  clamping of `relativedelta` is irrelevant because only year and month are
  shown; `datetime`'s year limit of 9999 is not modelled.
- **Wizard flow.** The handler that would dispatch the hour, minute and month
  callbacks (including `hour:back`) is not among the modelled files. Only the
  keyboards and their data are modelled.
- **`load_settings` environment.** Reading the environment (`os.getenv`,
  `load_dotenv`) and the warning log are left out; the environment is a map
  argument.
- Strings.PyInt: strips what `str.strip()` strips (every character for
  which `isspace()` holds), then reads an optional sign and ASCII digits.
  Python's `int()` skips the same non-ASCII whitespace, but among ASCII
  characters only space and `\t\n\v\f\r`: text with a leading or trailing
  U+001C to U+001F is an error for `int()` and a number for the model.
  Underscores between digits and non-ASCII Unicode digits, which `int()`
  accepts, are not modelled.
- Config.DigitFields: `isdigit()` is modelled on ASCII digits only, because
  Unicode digit classes are not modelled. A field such as "²" passes
  `isdigit()` in Python and then makes `int(x)` raise; the model drops it.
  The source also calls `int(x)` on the unstripped field, so a field padded
  with U+001C to U+001F (stripped by `strip()`, not skipped by `int()`)
  raises in the source, while the model keeps its number.
- Config.LoadSettings: in the source, `load_settings` also raises ValueError
  on such an `ANNOUNCE_DAYS` field (a superscript digit, or digits padded with
  U+001C to U+001F); the model returns `Ok` there, so its "fails exactly on a
  non-integer channel id" holds for the model, not for those inputs.
- Scheduler.BotScheduler.ScheduleAnnouncements: installs the job for any
  list of days. The source's `CronTrigger` raises ValueError on an empty day
  field or a day outside 1..31; the only caller passes `AnnounceDaysOf`'s
  result, which is never empty and lies within 1..31.
- Scheduler.BotScheduler.ScheduleMeetingReminders: takes one clock reading
  `now` for the whole call. The source reads the clock once per offset; the
  two readings differ by microseconds.
- Scheduler.BotScheduler.RunAnnouncementJob: the digest's order among
  meetings with the same start time is that of `SortByStart`. The database
  leaves ties unordered.
- Storage.Database.ListUpcomingMeetings: pins the order of meetings with equal
  start times to that of `SortByStart`, for the same reason.
- Storage.Database.ListUserMeetings: pins the order of meetings with equal
  start times to that of `SortByStart`, for the same reason.
- Handlers.ParseNewArgs: strips only the fields it uses. The source strips
  every field, but the others are discarded, so the result is the same.
- Handlers.PatternDataParses: models the handler patterns `^register:\d+$`
  and `^details:\d+$` only for ASCII digits. Python's `\d` also matches other
  Unicode digits.
- **Withdrawing reminders.** Nothing in the source removes reminders when a
  meeting is canceled, so there is nothing to model.

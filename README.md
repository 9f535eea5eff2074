# email-automation: the reply-detection controller in Dafny

The repository is one Python program that sends the same email to one recipient
at a fixed interval. Before each send it searches the sender's IMAP inbox for mail
from that recipient. It stops once a message dated after the last send turns up.
This project models the program's controller, the `EmailAutomation` class of
`email_automation.py`, in three parts:

- **Reply detection** (`ReplyDetection`). The loop of `check_for_replies` over the
  ids the search returned is the method `ScanFetched`. It is proved equal to the
  recursive function `Scan`. When no fetch raises, it is also proved equal to the
  predicate `IsReply`: an email has been sent and some message's date is strictly
  later than that send. A message without a usable date is skipped, not treated as
  a failure. A fetch that raises fails the whole check, because that call sits
  outside the inner `try`.
- **Search criteria** (`SearchCriteria`, `Calendar`). The criteria string is
  `FROM "<recipient>"`, followed by ` SINCE "<dd-Mon-YYYY>"` once an email has been
  sent. This is the SEARCH command of section 6.4.4 of RFC 3501, with its date
  written as the `date-text` of section 9 of RFC 3501. The send time is a
  `Timestamp`: whole seconds on the naive local clock, within the range of Python's
  `datetime`. Its calendar date comes from `Calendar.DateOf`. The criteria are
  proved to parse back into the recipient and that date. A message that arrived after
  the last send, on the controller's clock, is proved to pass the day-granular SINCE
  bound.
- **Controller state machine** (`Lifecycle`, `Controller`). The class
  `Controller.EmailAutomation` holds the fields `smtpServer`, `imapServer`,
  `running`, `lastEmailTime` and `scheduled`. Its methods follow the Python methods
  statement by statement. What the network, the clock and the scheduler do comes in
  as parameters: `SendAttempt`, `CheckAttempt`, `CleanupOutcome` and `Tick`. Each
  method is proved to produce the state that the matching `Lifecycle` function
  computes. The lemmas of `Lifecycle` state the rules over those functions:
  - a failure resets only the connection it concerns;
  - only a successful send moves `lastEmailTime`;
  - a job does nothing once the controller has stopped;
  - a reply stops the controller instead of a send;
  - a failed send is retried by the next job;
  - a failed initial send returns before anything is scheduled.

Where the code departs from what its own comments and names suggest, the model follows
the code:

- The `# Try to reconnect` handlers of `send_email` and `check_for_replies`
  (`email_automation.py:147-150` and `:210-213`) reset the slot to `None`, which reads as
  "every failure drops the connection". But `setup_smtp_connection` and
  `setup_imap_connection` (`:88-94`, `:104-109`) assign the slot as soon as the
  connection object exists, before STARTTLS and login. Their own `except` returns `False`
  without clearing it, so a failed login leaves a half-open session in the slot. The
  next call skips setup and uses that session. The model keeps this as
  `Connection.Open(false)` and the setup outcome `AuthFailed`. The next `send_email`
  tries `sendmail` on the unauthenticated SMTP session, and the server's answer is a
  parameter. The next `check_for_replies` fails at `select("INBOX")` (`:161`), because
  the IMAP client refuses SELECT before login. Its handler then empties the slot, so
  the check after that sets up a new connection.
- A failed initial send in `start` returns at `:259`, before the `try`/`finally` around
  the polling loop. So `stop()` and `cleanup_connections()` never run, `running` stays
  true, and nothing is scheduled (`Lifecycle.Start`,
  `Lifecycle.InitialSendFailureNeverSchedules`).
- In `cleanup_connections` (`:218-227`) the SMTP `quit` and the IMAP `logout` share one
  `try`. A failing `quit` therefore skips the logout, and both slots keep their sessions
  (`Lifecycle.Cleanup`).
- `fetch` and `message_from_bytes` (`:178-180`) sit outside the inner `try` of the scan.
  A raising fetch therefore fails the whole check, and the outer handler empties the IMAP
  slot. A message whose date or subject cannot be read is only skipped.

## Model

| member | source | states |
|---|---|---|
| `ReplyDetection.ScanFetched` | email_automation.py:173-208 | The loop over the fetched messages returns the verdict `Scan` defines. When no fetch raised, it reports a reply exactly when `IsReply` holds of the messages' dates. |
| `ReplyDetection.ScanFindsFirstReply` | email_automation.py:177-204 | The scan reports a reply iff some message qualifies (a send happened and its date is strictly later) and no fetch before it raised. |
| `ReplyDetection.ScanDecidesIsReply` | email_automation.py:177-206 | With no raising fetch, the scan never fails, and it reports a reply iff some message's date is strictly after the last send. |
| `ReplyDetection.ReplyFoundIsReply` | email_automation.py:189-204 | A reported reply implies that an email was sent and that some message is dated after it. |
| `ReplyDetection.NoReplyBeforeFirstSend` | email_automation.py:189-192 | With `last_email_time` unset, no list of messages yields a reply. |
| `ReplyDetection.SkippedMessageIsIgnored` | email_automation.py:179-186 | Dropping a message that neither raises nor qualifies leaves the verdict unchanged. This covers a failed FETCH status, a missing Date header, a failed parse and a failed subject decode. |
| `ReplyDetection.ReplyAfterLastSendScenario` | email_automation.py:189-204 | Last send at 10:00; messages at 09:00 and 11:00 of the same day: the second is a reply. |
| `ReplyDetection.NoSendNoReplyScenario` | email_automation.py:189-192 | Nothing sent yet: a message dated 11:00 is not a reply. |
| `ReplyDetection.Scan` | email_automation.py:177-206 | The scan in fetch order. A failure implies some fetch raised. A reply implies an email was sent and some message is dated after it. "No reply" implies no message is. |
| `ReplyDetection.Dates` | email_automation.py:179-197 | A message has a date for the scan iff its FETCH answered OK, it carries a usable date, and its subject decodes. That date is the message's own. |
| `SearchCriteria.Criteria` | email_automation.py:164-169 | The criteria always start with `FROM "<recipient>"`. They are exactly that long iff no email has been sent. |
| `SearchCriteria.CriteriaRoundTrip` | email_automation.py:164-169 | Parsing the criteria gives back the recipient, plus the calendar date of `last_email_time` exactly when it is set. |
| `SearchCriteria.DateText` | email_automation.py:168 | The `strftime("%d-%b-%Y")` text is 11 characters long. `DateTextRoundTrip` and `DateTextCanonical` give its meaning. |
| `SearchCriteria.DateTextRoundTrip` | email_automation.py:168 | The `dd-Mon-YYYY` text of a valid date parses back to that date. |
| `SearchCriteria.DateTextCanonical` | email_automation.py:168 | Any text that parses as a date is exactly the text written for that date, so the format is one-to-one. |
| `SearchCriteria.DecimalRoundTrip` | email_automation.py:168 | The zero-padded `%d` and `%Y` fields read back as the numbers written. |
| `SearchCriteria.ParseDecimalCanonical` | email_automation.py:168 | A digit string is the padded decimal of the number it spells. |
| `SearchCriteria.MonthNumberOfName` | email_automation.py:168 | Each `%b` month abbreviation is found again at its own month number. |
| `SearchCriteria.SinceKeepsLaterMessages` | email_automation.py:166-169 | A message that arrived after the last send, on the controller's clock, falls on or after the SINCE date. |
| `SearchCriteria.SinceAdmitsEarlierSameDayMessage` | email_automation.py:166-169 | A 09:00 message on the day of a 10:00 send passes the SINCE bound. Only the scan's strict comparison rejects it. |
| `Calendar.CivilFromDays` | email_automation.py:168 | The date of a day number is a valid calendar date in years 1 to 9999. `DaysFromCivil` maps it back to that day number. |
| `Calendar.DateOf` | email_automation.py:168 | The date of a timestamp is valid and is the date of the day that holds the timestamp. |
| `Calendar.SameDayNumberSameDate` | email_automation.py:168 | Two timestamps get the same SINCE date iff they fall on the same day. |
| `Calendar.DayNumber` | email_automation.py:168 | The day number of a timestamp is the day whose 86400 seconds contain it. |
| `Lifecycle.Send` | email_automation.py:116-151 | Only the SMTP slot and `last_email_time` change. `last_email_time` becomes the send time exactly on success. Success means a usable connection and a delivered message. A failure after a usable connection empties the slot, whether that connection was cached or freshly made. A failed setup leaves only what the setup assigned. |
| `Lifecycle.Check` | email_automation.py:153-214 | Only the IMAP slot changes. A reply is reported only after a send, on a search answered OK whose messages satisfy `IsReply`. Once the search is made on a logged-in session (cached or new), an OK answer is a reply iff the scan finds one before any fetch raises. A raising search or fetch empties the slot, and any other answer keeps the session. A failed setup leaves only what the setup assigned. A cached session whose login failed fails at `select` and is emptied. |
| `Lifecycle.CheckFindsEveryReply` | email_automation.py:164-206 | The converse: once the search is made on a logged-in session, an OK answer whose fetches all succeed and whose messages satisfy `IsReply` is reported as a reply. |
| `Lifecycle.Cleanup` | email_automation.py:216-227 | Only the two slots change. A failing `quit` changes nothing and skips the logout. Otherwise SMTP is closed, and IMAP is closed unless its logout fails. |
| `Lifecycle.Stop` | email_automation.py:277-282 | After `stop`, the controller is not running, nothing is scheduled, and `last_email_time` is kept. |
| `Lifecycle.Job` | email_automation.py:229-244 | A job does nothing when stopped. When the check reports a reply, the job is exactly `stop` on the state after the check. Otherwise it is exactly one `send_email` on that state, the controller keeps running, and only that send can change `last_email_time`. |
| `Lifecycle.RunJobs` | email_automation.py:268-271 | The polling loop runs at most one job per tick. It ends early only when the controller has stopped. |
| `Lifecycle.Start` | email_automation.py:246-275 | A failed initial send runs no job and schedules nothing. Otherwise `start` ends stopped and unscheduled, with `last_email_time` set. |
| `Lifecycle.SlotAfterSetup` | email_automation.py:85-114 | The slot stays empty only if the connection could not be made. It holds an authenticated session only if setup succeeded. |
| `Lifecycle.RunKeepsConsistent` | email_automation.py:229-282 | Every job run keeps the invariant: the job is scheduled only while running and after a send. |
| `Lifecycle.StartKeepsConsistent` | email_automation.py:246-275 | `start` keeps that invariant. |
| `Lifecycle.RunKeepsLastEmailTimeSet` | email_automation.py:141 | Once set, `last_email_time` is never cleared. |
| `Lifecycle.LastEmailTimeComesFromSends` | email_automation.py:141 | After any number of jobs, `last_email_time` is either unchanged or the send time of one of those jobs. |
| `Lifecycle.NoJobAfterStop` | email_automation.py:231-232 | A stopped controller's loop runs no job and changes nothing. |
| `Lifecycle.ReplyEndsRun` | email_automation.py:237-240 | The job that sees a reply is the last job, and nothing is sent after it. |
| `Lifecycle.FailedSendIsRetried` | email_automation.py:242-244 | A failed send leaves the controller running. The next job makes a new send attempt unless it sees a reply. |
| `Lifecycle.InitialSendFailureNeverSchedules` | email_automation.py:252-259 | A failed initial send returns with nothing scheduled, no job run, and only the send's own effect. |
| `Controller.DefaultConfig` | email_automation.py:36-47 | The configuration `load_config` writes by default is refused by `main`. |
| `Controller.EmailAutomation.constructor` | email_automation.py:24-30 | A new controller has no connections, is running, has sent nothing and has nothing scheduled. |
| `Controller.EmailAutomation.SetupSmtpConnection` | email_automation.py:85-99 | It succeeds iff the connection is made and authenticated. A made connection is kept even when STARTTLS or login fails. |
| `Controller.EmailAutomation.SetupImapConnection` | email_automation.py:101-114 | It succeeds iff the connection is made and logged in. A made connection is kept even when login fails. |
| `Controller.EmailAutomation.SendEmail` | email_automation.py:116-151 | The new fields and the result are those `Lifecycle.Send` gives. |
| `Controller.EmailAutomation.CheckForReplies` | email_automation.py:153-214 | The new fields and the result are those `Lifecycle.Check` gives for the configured recipient. |
| `Controller.EmailAutomation.CleanupConnections` | email_automation.py:216-227 | The new fields are those `Lifecycle.Cleanup` gives. |
| `Controller.EmailAutomation.Stop` | email_automation.py:277-282 | The new fields are those `Lifecycle.Stop` gives. |
| `Controller.EmailAutomation.ScheduledEmailJob` | email_automation.py:229-244 | The new fields are those `Lifecycle.Job` gives. |
| `Controller.EmailAutomation.Start` | email_automation.py:246-275 | The new fields and the number of jobs run are those `Lifecycle.Start` gives. |
| `Controller.Launch` | email_automation.py:285-297 | It starts the controller iff the username is not the placeholder. Otherwise the new controller is left in its initial state. |

## Left out

- The SMTP and IMAP sessions themselves are not modelled. That covers `smtplib`, `imaplib`, STARTTLS, login, `select`, `search` and `fetch`, as well as MIME assembly and header decoding. Their outcomes are parameters: whether setup connects and authenticates, whether `sendmail` raises, what the search answers, and what each fetch yields.
- Selecting INBOX and searching are one outcome. When `select` fails without raising, the following search raises in the wrong state, and `SearchRaised` stands for that.
- Date parsing and time zones are not modelled. A parsed `Date` header is an integer on the controller's clock, or absent. A timezone-aware date cannot be compared with the naive `datetime.now()`; the comparison raises and the source skips the message. The model counts such a message as having no usable date.
- `Timestamp` ignores daylight-saving shifts of the local clock. `datetime.now()` is a parameter, `SendAttempt.sentAt`.
- `SearchCriteria.Decimal`: years below 1000 are padded to four digits, as RFC 3501's `date-year` asks. Some C libraries print `%Y` for such years unpadded. A clock reading in years 1 to 999 cannot come from `datetime.now()` in practice.
- `Lifecycle.Check`: a cached session whose login failed is taken to be refused at `select`. A server that greets with PREAUTH would put it in the authenticated state anyway; that case is not modelled.
- `SearchCriteria.SinceKeepsLaterMessages`: takes the server's day boundaries on the controller's local clock. IMAP SINCE filters on the server's internal date, so a message can still be filed on an earlier day than its `Date` header and be excluded.
- `SearchCriteria.CriteriaRoundTrip`: holds only for addresses without a `"`. The source writes the address between quotes without escaping, so an address containing `"` produces criteria that do not name it.
- The `schedule` library, the interval `check_interval_minutes`, and the 60-second sleep are not modelled. The jobs the scheduler would run are the sequence `ticks` given to `Start`. The end of that sequence stands for the keyboard interrupt, after which `stop` runs.
- `scheduled` is a flag, not a count of registered jobs. Calling `start` a second time within one run of it would register the job twice; `main` calls it once.
- Loading and creating the configuration and template files is not modelled (`load_config`, `load_message_template`), nor is logging. The configuration is a parameter of the constructor, holding the fields the logic reads.
- The body text assembled from the template and the `Sent at:` timestamp is not modelled. It does not affect any decision.

# statuspage-bot, modelled in Dafny

statuspage-bot is a Slack bot in front of the Statuspage REST API. Users
mention the bot to list unresolved incidents, show one incident or update an
incident's status. A `declare_incident` shortcut opens a form for creating an
incident. A second, stand-alone copy of the bot (`statuspage-bot/`) only
creates incidents. Apart from the Slack and HTTP plumbing, the bot is string
and calendar logic. This project models that logic and proves what it does:

- `outcomes.dfy` (`Outcomes`) holds `Option`, and `Attempt`, which is a
  Python call that either returns a value or raises `IndexError`,
  `ValueError` or `OverflowError`.
- `text.dfy` (`Text`) holds the parts of `str` the bot relies on:
  - `str.split()` with no argument, and `sep.join(...)`;
  - `s.split(c)` used to read the bot's text back line by line;
  - clamped slicing, `str(n)`, and zero padding.
- `timestamp.dfy` (`Timestamp`) holds `convert_utc_to_gmt8`:
  - `strptime("%Y-%m-%dT%H:%M:%SZ")`, then `+ timedelta(hours=8)`, then
    `strftime("%Y-%m-%d %H:%M:%S")`;
  - the calendar is written out on integers (days per month, leap years,
    day/month/year carry);
  - an independent reference is the day number (`date.toordinal()`) and the
    second on that time line.
- `table.dfy` (`Table`) holds `create_table`. It has column widths, a
  centred header (CPython's `str.center` rule), a `-`/`+` rule and
  left-justified rows. `CreateTable` is the imperative method that appends
  one line per row, as the source does.
- `http.dfy` (`Http`) holds the request payloads, the request each operation
  sends, and `Outcome`: how an HTTP call ended (a response below status 400
  whose body decoded, an error status whose body decoded as JSON, or any
  other `RequestException`). The outcome is an input.
- `statuspage.dfy` (`Statuspage`) holds the four operations of
  `lib/statuspage.py` and the replies they build. `GetUnresolvedIncidents`
  and `GetIncident` are methods whose loops build the message line by line.
  They are proved equal to functions, and lemmas about those functions read
  the message back line by line.
- `app.dfy` (`App`) holds the main bot's mention handler: word splitting,
  the two-word command key and the dispatch table. It also holds
  `check_allowed_trigger`, and `declare_incident`, which fills the status
  drop-downs of the form in place (class `IncidentForm`).
- `bot_statuspage.dfy` and `bot_app.dfy` (`BotStatuspage`, `BotApp`) hold
  the stand-alone bot: its `create_incident` and its
  `create incident <name> <status> <body>` mention.

Handling one chat event is modelled as an `Effect` (`effects.dfy`,
`Effects`). It records the requests
sent, the messages said, and the exception the handler ended in, if any.

## Model

| member | source | states |
|---|---|---|
| Table.ColumnCount | lib/utils.py:5 | `zip(*data)` yields as many columns as the shortest row has items: no row is shorter, and some row has exactly that many |
| Table.ColumnWidth | lib/utils.py:5 | a column's width is the longest item in it, header included: every item fits, and some item has exactly that length |
| Table.Widths | lib/utils.py:5 | `col_widths` has one width per column `zip(*data)` yields, and width `j` is the longest item of column `j` |
| Table.CellsFit | lib/utils.py:5 | every item of every row fits its column's width, and each width is the length of some item in that column |
| Table.CenterLeft | lib/utils.py:7 | `str.center` adds no margin when the item fills the width, and otherwise puts half the padding on the left, rounded down or up |
| Table.Center | lib/utils.py:7 | `item.center(width)` is `max(width, len)` long, holds the item at the left margin, and is spaces on both sides of it |
| Table.LJust | lib/utils.py:12 | `item.ljust(width)` is `max(width, len)` long, starts with the item, and is spaces after it |
| Table.TableLines | lib/utils.py:6-13 | there are `len(data) + 1` lines: the header line from `data[0]`, the rule, then one line per data row in order |
| Table.CreateTable | lib/utils.py:3-16 | no rows at all raises `IndexError` (`data[0]`); otherwise the result is the table lines joined by newlines, built by appending one line per row |
| Table.JoinLength | lib/utils.py:7-12 | cells of exactly the column widths, joined by a one-character separator, make a line of `LineWidth(widths)`: 0 with no columns, else `sum(widths) + ncols - 1` |
| Table.JoinAligned | lib/utils.py:7-12 | in such a line, column `j` sits at the sum of the earlier widths plus one separator per earlier column, with the separator right after it |
| Table.HeaderLineLayout | lib/utils.py:7 | for items that fit, the header line has column `j` holding `item.center(width)` and a `|` after every column but the last |
| Table.RuleLineLayout | lib/utils.py:9 | the rule has column `j` holding `'-' * width` and a `+` after every column but the last |
| Table.RowLineLayout | lib/utils.py:12 | for items that fit, a row line has column `j` holding `item.ljust(width)` and a `|` after every column but the last |
| Table.HeaderLayout | lib/utils.py:5-8 | the table's first line is the header: each item of `data[0]` centred in its column's width, `|` between columns, `LineWidth(widths)` long (0 with no columns, else `sum(widths) + ncols - 1`) |
| Table.RuleLayout | lib/utils.py:9-10 | the second line is the rule: `'-' * width` per column joined by `+`, `LineWidth(widths)` long (0 with no columns, else `sum(widths) + ncols - 1`) |
| Table.RowLayout | lib/utils.py:11-13 | line `i + 1` is data row `i`: each item left-justified in its column, `|` between columns |
| Table.LinesEqualWidth | lib/utils.py:5-13 | every line of the table, the header and rule included, is `LineWidth(widths)` long (0 with no columns, else `sum(widths) + ncols - 1`) |
| Table.TextLines | lib/utils.py:14 | when no item holds a newline, the text splits back into exactly the `len(data) + 1` table lines |
| Timestamp.YearLength | lib/utils.py:20 | the day count of the Gregorian calendar grows by 366 over a leap year and by 365 over any other |
| Timestamp.AddOffset | lib/utils.py:20 | `+ timedelta(hours=8)` on the calendar; AddOffsetShifts and AddOffsetOverflow state its contract: eight hours later on the time line, hour `(h + 8) % 24`, the next day iff `h >= 16`, past the year 9999 only on its last eight hours |
| Timestamp.NextDayOrdinal | lib/utils.py:20 | the next calendar day (with month and year carry) is a valid date exactly one day later on the time line |
| Timestamp.AddOffsetShifts | lib/utils.py:20 | adding eight hours moves the time line by 8 × 3600 seconds, keeps minutes and seconds, sets the hour to `(h + 8) % 24`, and moves the date one day on iff `h >= 16` |
| Timestamp.AddOffsetOverflow | lib/utils.py:20 | the shifted time passes the year 9999 exactly on the last eight hours of 9999-12-31 |
| Timestamp.Format | lib/utils.py:21 | `strftime` prints 19 characters: the year, month, day, hour, minute and second zero-padded to 4, 2, 2, 2, 2 and 2 digits, with `-`, ` ` and `:` between them |
| Timestamp.FormatLayout | lib/utils.py:21 | the printed time has the `YYYY-MM-DD HH:MM:SS` layout, all digits where digits belong, and no line break |
| Timestamp.FormatRoundTrip | lib/utils.py:21 | reading the printed fields back gives exactly the date and time that was printed |
| Timestamp.ParseUtc | lib/utils.py:19 | `strptime` on the canonical `YYYY-MM-DDTHH:MM:SSZ` form; ConvertUtcToGmt8, ConvertOverflow and ConvertShifts state its contract: a string it rejects is a `ValueError`, and what it accepts is a valid date and time, which the conversion shifts by eight hours |
| Timestamp.ConvertUtcToGmt8 | lib/utils.py:18-22 | a string `strptime` rejects raises `ValueError` |
| Timestamp.ConvertLayout | lib/utils.py:18-22 | a successful conversion returns the `YYYY-MM-DD HH:MM:SS` layout on one line |
| Timestamp.ConvertOverflow | lib/utils.py:19-20 | a parsed time raises (and then `OverflowError`) iff it is in the last eight hours of 9999-12-31 |
| Timestamp.ConvertShifts | lib/statuspage.py:80-84 | what a successful conversion prints reads back as the parsed time eight hours later: same minutes and seconds, hour `(h + 8) % 24`, one calendar day later iff `h >= 16` |
| Text.Split | lib/app.py:20 | every piece `str.split()` yields is a non-empty run without whitespace |
| Text.SplitInterleave | lib/app.py:20 | `str.split()` recovers the words whatever runs of whitespace lead, separate and trail them |
| Text.SplitJoin | lib/app.py:26 | words joined by single spaces split back into the same words |
| Text.SplitOnJoin | lib/utils.py:14 | text joined by a character that no part contains splits back on it into the same parts |
| Text.Decimal | lib/statuspage.py:36 | `str(n)` is a non-empty run of digits with no leading zero that reads back as `n` |
| Text.Padded | lib/utils.py:21 | zero padding to `width` digits gives exactly `width` digits, which read back as `n` when `n < 10^width` |
| Http.CreatePayload | lib/statuspage.py:14-20 | the POST body is an object whose only key is `incident`, holding exactly `name`, `status` and `body`, in that order, with the given values |
| Http.UpdatePayload | lib/statuspage.py:64-69 | the PATCH body is an object whose only key is `incident`, holding exactly `status` and `body` with the given values |
| Http.CreateIncidentRequest | statuspage-bot/statuspage.py:12-22 | `create_incident` POSTs the create payload to the page's `/incidents` URL |
| Statuspage.UpdateIncidentRequest | lib/statuspage.py:63-71 | `update_incident` PATCHes the update payload to the incident's own URL |
| Statuspage.FailureMessage | lib/statuspage.py:26-27 | a request failure becomes `"Operation failed: "` followed by exactly the exception's text |
| Statuspage.CreateIncidentMessage | lib/statuspage.py:21-28 | a failure gives the failure message; a success gives two lines, with the response's id and name, then its status |
| Statuspage.UpdateIncidentMessage | lib/statuspage.py:70-78 | a failure gives the failure message; a success gives two lines, with the response's name, then its status |
| Statuspage.CreateReplyLines | lib/statuspage.py:25 | read line by line, a successful create reply is `Incident <id>: <name> is created. ` and then `status: <status>` |
| Statuspage.UpdateReplyLines | lib/statuspage.py:74-75 | read line by line, a successful update reply is `Incident: <name>` and then a tab and `status: <status>` |
| Statuspage.UpdatedConversions | lib/statuspage.py:39-40 | one conversion of `updated_at` per listed incident, in response order |
| Statuspage.CollectAt | lib/statuspage.py:39-40 | when the loop's conversions all return, the k-th value listed is what the k-th conversion returned |
| Statuspage.CollectRaised | lib/statuspage.py:39-40 | when the loop raises, it raises the exception of the first conversion that raises, and every earlier one returned |
| Statuspage.CollectReturns | lib/statuspage.py:39-40 | a loop in which no conversion raises returns |
| Statuspage.CollectRaisedPrefix | lib/statuspage.py:39-40 | once a conversion raises, the incidents after it change nothing |
| Statuspage.CountLineValue | lib/statuspage.py:36 | the first line is `Total unresolved incidents: ` followed by digits that read back as the number of incidents |
| Statuspage.ListingHeadText | lib/statuspage.py:36-38 | the text before the rows is the count line and a newline, plus the heading and a newline iff there are incidents |
| Statuspage.UnresolvedMessage | lib/statuspage.py:30-43 | what `get_unresolved_incidents` returns or raises given how the GET ended; UnresolvedLines, FailuresAreReported and ReplyShowsFailure state its contract: the listing read line by line, a failure reported and never raised |
| Statuspage.GetUnresolvedIncidents | lib/statuspage.py:30-43 | the method returns what the listing function specifies: the failure message for a failed GET, else the listing or the conversion's exception |
| Statuspage.ListIncidents | lib/statuspage.py:36-40 | the message built by appending the count, heading and one row per incident is the specified listing |
| Statuspage.AppendRows | lib/statuspage.py:39-40 | the loop that appends one row per incident ends with the head plus one row per incident, or with the first exception a conversion raised |
| Statuspage.ListedTimes | lib/statuspage.py:40 | each listed `updated_at` is that incident's converted timestamp, on one line |
| Statuspage.ListingText | lib/statuspage.py:36-40 | listing lines with no line break in them split back into exactly those lines |
| Statuspage.UnresolvedLines | lib/statuspage.py:36-40 | read line by line, the listing is the count line, the heading iff there are incidents, an empty line, then one row per incident in response order with its converted `updated_at`; every conversion returned |
| Statuspage.GetIncident | lib/statuspage.py:45-60 | the method returns what the detail function specifies: the failure message for a failed GET, else the detail or the first conversion's exception (`created_at` is converted before `updated_at`) |
| Statuspage.IncidentMessage | lib/statuspage.py:45-60 | what `get_incident` returns or raises given how the GET ended; IncidentLines, FailuresAreReported and ReplyShowsFailure state its contract: the detail read line by line, a failure reported and never raised |
| Statuspage.AppendComponents | lib/statuspage.py:55-57 | the loop over components appends exactly one line per component, in order |
| Statuspage.IncidentLines | lib/statuspage.py:51-57 | read line by line, the detail is name, status, converted `created_at`, converted `updated_at`, then one `component: name -> status` line per component, and none when `components` is absent |
| Statuspage.FailuresAreReported | lib/statuspage.py:12-78 | every request failure caught by the `except` branches of all four operations is returned as `"Operation failed: "` plus the exception's text and is never re-raised |
| Statuspage.ReplyShowsFailure | lib/statuspage.py:12-78 | in all four operations a returned reply starts with `"Operation failed: "` iff the request failed |
| App.CommandKey | lib/app.py:21 | the key is the second and third words joined by one space; with two words it is the second word, with fewer it is empty, and it never raises |
| App.ParseCommand | lib/app.py:23-30 | a key outside the table selects nothing; `IndexError` is raised exactly when `get incident` lacks a fourth word or `update incident` lacks a fourth or fifth |
| App.Perform | lib/app.py:29-31 | a selected command sends one request and says what the operation returned, or says nothing when it raised |
| App.HandleMention | lib/app.py:19-31 | `handle_app_mention_events`: split the text, then dispatch; MentionReplies, ShortMentionIgnored, MentionIgnoresSpacing and ReplyIsOperationResult state its contract |
| App.Dispatch | lib/app.py:21-31 | the lookup in the `commands` table and the call of the entry it selects; DispatchReplies states its contract: an unknown key does nothing; a known key raises `IndexError` before any request when an argument word is missing, and otherwise sends one request and says at most one reply |
| App.MentionReplies | lib/app.py:29-31 | a mention whose key is not in the table does nothing at all; one whose key is there but lacks an argument word raises `IndexError` and sends nothing; any other sends one request and says one reply unless the operation raised |
| App.DispatchReplies | lib/app.py:23-31 | the same, stated on the words of the mention |
| App.ReplyIsOperationResult | lib/app.py:30-31 | the reply said is exactly the string the selected operation returned |
| App.ShortMentionIgnored | lib/app.py:20-29 | a mention of fewer than three words selects no command and never raises |
| App.UpdateArguments | lib/app.py:26 | `update incident` takes the fourth word as id, the fifth as status, and the remaining words joined by single spaces as body, which is empty iff there are none |
| App.MentionIgnoresSpacing | lib/app.py:20 | how the words of a mention are spaced does not change what the handler does |
| App.GetIncidentIgnoresRest | lib/app.py:25 | `get incident` reads only the fourth word: words after it change nothing |
| App.CheckAllowedTrigger | lib/app.py:80-90 | the trigger is allowed iff the channel name starts with `incident`, the user is `U056F2PDN3G`, and the message is exactly `statuspage declare incident` |
| App.AllowedChannels | lib/app.py:80-90 | the allowed user's key message is accepted in every channel whose name extends `incident`, refused wherever the name does not start so, and no other user or message is ever accepted |
| App.WithStatusOptionsSpec | lib/app.py:44-53 | only a status drop-down changes: its options keep their prefix, then gain the 8 statuses in order with text and value equal to the status |
| App.IncidentForm.ExtendStatusOptions | lib/app.py:44-53 | the loop over the blocks updates each block in place as above and touches nothing else |
| App.DeclareIncident | lib/app.py:33-65 | `private_metadata` is set to the channel id whatever the check says; an allowed trigger gets the filled form, anyone else the not-allowed view and an untouched form |
| BotStatuspage.CreateIncidentReplies | statuspage-bot/statuspage.py:20-30 | the reply is never empty; it starts with `"Operation failed: "` iff the request failed, followed by the raw body for an error status whose body decoded as JSON (checked first) or the exception's text otherwise; a success is `Incident <name> created` with the response's name |
| BotStatuspage.CreateIncidentMessage | statuspage-bot/statuspage.py:20-30 | the reply of the stand-alone `create_incident`; CreateIncidentReplies states its contract |
| BotApp.KeyMatch | statuspage-bot/app.py:18 | for single words, `f"{a} {b}" == "create incident"` iff they are `create` and `incident` |
| BotApp.ParseMention | statuspage-bot/app.py:16-20 | the words the handler reads; MentionEffect states its contract: too few words raise `IndexError`, another key gives nothing, a matching one gives the fourth to sixth words |
| BotApp.HandleMention | statuspage-bot/app.py:14-21 | `handle_app_mention_events` of the stand-alone bot; MentionEffect and ReplyIff state its contract |
| BotApp.MentionEffect | statuspage-bot/app.py:14-21 | fewer than three words raise `IndexError`; any other second and third words do nothing; a matching mention of fewer than six words raises `IndexError`; otherwise it sends the create request for words 4 to 6 and says exactly one reply, ignoring later words |
| BotApp.ReplyIff | statuspage-bot/app.py:18-21 | a mention says a reply iff its second and third words are `create incident` and it has at least six words |

## Left out

- Slack is not modelled: `App`, `SocketModeHandler`, the `ack` callbacks,
  `say` and `client.views_open` are I/O. The model records what would be
  said or shown (`Effect`, `View`).
- HTTP is not modelled: the `requests` calls, `load_dotenv`/`os.getenv`, and
  the API key and headers. The page id is a parameter, and how each call
  ended is an input (`Outcome`).
- Reading `template/incident-form.json` and `template/not-allowed.json` is
  file I/O. The form is given already decoded, as an `IncidentForm`.
- `post_incident` (lib/app.py:67-78) is not modelled. It only reads the
  submitted form's fields and calls `create_incident`, whose payload and
  reply are modelled.
- A `KeyError` from a missing response field, or a missing `options` list
  on a drop-down, is not modelled. The response is given as typed fields.
  `components` is the one field whose absence the code handles.
- Whether `r.json()` on a body that is not JSON raises a
  `RequestException` depends on the library version. With older versions it
  raises a plain `ValueError` that escapes the `except` clauses; the model
  does not capture that, and takes every failed call as one of the two
  failure outcomes.
- BotStatuspage.CreateIncidentReplies: an error response whose body is not
  JSON never reaches the `HTTPError` branch (statuspage-bot/statuspage.py:26-27),
  because `r.json()` runs before `raise_for_status()`; it is a `Failed`
  outcome and is answered with the decoder's message, not the raw body.
- Statuspage.FailureMessage: for the same reason, in all four operations of
  lib/statuspage.py an error response with a non-JSON body is reported with
  the decoder's message rather than the `HTTPError`'s.
- `create_table`'s `str(item)` of items that are not strings is not
  modelled: the items are strings.
- Timestamp.ParseUtc, Timestamp.ConvertUtcToGmt8: only the canonical
  zero-padded 20-character form with ASCII digits and upper-case `T` and `Z`
  is accepted; the model reports every other string as `ValueError`.
  `strptime` is more lenient: it also accepts one-digit month, day and time
  fields, a space before a one-digit day, lower-case `t` and `z` (its pattern
  ignores case), and non-ASCII decimal digits, which the source converts.
- Timestamp.Format: years below 1000 are printed zero-padded to four
  digits. Platforms differ here, and such years never reach the bot.
- Statuspage.UpdatedConversions: the conversions of a listing are stated all
  at once and read in order by `Collect`. They are pure, so this is the same
  as converting inside the loop, which `AppendRows` does.

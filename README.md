# pyWhichShay core in Dafny

A model of the logic of the "name of the day" Telegram bot in `main.py`. It has four parts, and the model proves properties of each.

- **Daily selection** (`get_daily_shay`, `select_random_shay_id`, the process-wide `STATE` dict). The first `/get` of a day draws an id from `MIN(id)..MAX(id)`, leaving out the previous pick unless `MAX(id)` is 1. It looks the name up and caches it. Later requests on the same day get the cached name with the "already said" wording.
- **Name catalog** (the `shays` table, `init_db`, `load_default_names`). Rows are `(id, name)` with an AUTOINCREMENT id and a UNIQUE name. The default-names file seeds the table only when the table is empty.
- **Adding names** (`add_shay`). The text after the five-character `/add ` prefix must hold exactly two words. Each word is capitalized and the two are joined by one space. A name that is already present is reported instead of inserted.
- **Broadcast time** (`send_daily_message`). The next broadcast is at 15:30 today if now is before it, and at 15:30 tomorrow otherwise. The `/db` listing (`send_shay_list`) is modelled as well.

Files:

- `wrappers.dfy`: `Option` and `Result`.
- `text.dfy`: Python's `strip`, `split`, `capitalize`, `' '.join`, `'\n'.join` and `str(n)`. It also has `SplitLines`, the inverse of the `'\n'.join` in `send_shay_list`. The bot itself never splits on newlines; `SplitLines` is there only to state the round trip of the `/db` listing.
- `catalog.dfy`: the table. It is a `Table` class whose `rows` and `nextId` fields `Insert` and `InitDb` update in place.
- `selection.dfy`: candidate ids and the draw.
- `daily.dfy`: the `STATE` value, the `GetDaily` specification with its lemmas, and the `SelectionState` class. The class methods update the three fields in the order the source does and are proved equal to the specification.
- `adding.dfy`: the add workflow.
- `broadcast.dfy`: next-target arithmetic.
- `listing.dfy`: the `/db` reply.

Inputs that come from outside are parameters:

- The random draw is `choice: nat`. `random.choice` picks the element at index `choice % |candidates|`.
- The day is the day of the month (`datetime.now().day`), an integer.
- Time is integer seconds counted from a local midnight.
- The default-names file is `Option<seq<string>>` of its lines. `None` means the file is missing or unreadable.

Behaviour of the code that the model keeps as written:

- The cache key is only the day of the month. A request on the 5th of the next month, with no request in between, gets the cached name (`Daily.CacheHitIsIdempotent` holds for any table).
- `current_day` is set before the name lookup. If the drawn id names no row, the reply is the failure, and the previous name stays cached as the current day's (`Daily.StaleNameServed`, `Daily.StaleNameExample`). On a table built only by this program, the ids are 1..n and this cannot happen (`Daily.CompactTableNeverFails`).
- An empty cached name counts as "no name" (Python truthiness), so it is never served from the cache.
- `raw_text[5:]` cuts five characters whatever they are. `/addivan petrov` stores `Van Petrov` (`Adding.FirstCharacterAfterCommandLost`).
- If the default-names file lists a name twice, `executemany` hits the UNIQUE constraint. The transaction is rolled back, so nothing is seeded, and start-up fails (`Catalog.Table.InitDb` returns `Err`).

What `main.py` does not do, the model does not do either. The code has no five-entry history window (only the single previous pick is excluded). It has no usage counters and no normalization of case or diacritics for duplicate detection (the UNIQUE check compares the capitalized text exactly). It has no weekend skip, no midnight reset task and no export-to-file operation.

## Model

| member | source | states |
|---|---|---|
| Text.StripLeftSpec | main.py:209 | the left strip drops exactly the leading whitespace: what remains is a suffix, what was cut is all whitespace, and the result does not start with whitespace |
| Text.StripRightSpec | main.py:209 | the right strip drops exactly the trailing whitespace, symmetrically |
| Text.Strip | main.py:87 | the result of `strip()` has no whitespace at either end |
| Text.StripSpec | main.py:209 | `strip()` yields a slice of the input with no whitespace at either end, and only whitespace is cut around it |
| Text.StrippedIsFixed | main.py:209 | a string without surrounding whitespace is its own strip |
| Text.WordLength | main.py:211 | the first word of a text runs up to the first whitespace or the end |
| Text.SplitWords | main.py:211 | every item `split()` yields is non-empty and free of whitespace |
| Text.JoinSpace | main.py:216 | joining words with one space gives a text with no whitespace at either end, empty only when there are no words |
| Text.SplitLeadingWord | main.py:211 | a word followed by whitespace splits off as one item |
| Text.WordLengthOf | main.py:211 | a word followed by whitespace or nothing has its own length as first-word length |
| Text.SplitJoinSpace | main.py:216 | round trip: splitting words joined with single spaces gives back the words |
| Text.SplitSkipsLeadingSpace | main.py:209-211 | leading whitespace does not change the words |
| Text.SplitSkipsTrailingSpace | main.py:209-211 | trailing whitespace does not change the words |
| Text.WordLengthFromPrefix | main.py:211 | the first word of a text that starts with a word and a space is that word |
| Text.AllSpaceHasNoWords | main.py:211 | a blank text has no words, so `not name` and a zero word count agree |
| Text.SplitIgnoresStrip | main.py:209-211 | `name.split()` equals the split of the unstripped payload |
| Text.ToUpper | main.py:216 | upper-casing never turns a character into whitespace or whitespace into something else |
| Text.ToLower | main.py:216 | lower-casing never turns a character into whitespace or whitespace into something else |
| Text.CaseMapsIdempotent | main.py:216 | upper- and lower-casing each applied twice equal once, and upper after lower equals upper |
| Text.Lower | main.py:216 | `lower()` keeps the length and lower-cases character by character |
| Text.Capitalize | main.py:216 | `capitalize()` keeps the length, upper-cases the first character and lower-cases the rest |
| Text.CapitalizeKeepsWord | main.py:216 | a capitalized word is still a word |
| Text.CapitalizeIdempotent | main.py:216 | capitalizing twice equals capitalizing once |
| Text.DigitChar | main.py:121 | a digit value becomes a decimal digit character |
| Text.NatToString | main.py:121 | `str(n)` is a non-empty string of decimal digits with no leading zero, except for the single digit of 0 |
| Text.NatToStringRoundTrip | main.py:121 | round trip: the digits of `str(n)` read back as n |
| Text.JoinLines | main.py:121 | the first line is a prefix of the newline-joined text |
| Text.SplitLines | main.py:121 | splitting at newlines yields at least one piece and no piece holds a newline |
| Text.IndexOfNewline | main.py:121 | the first newline of a text is found, and there is none before it |
| Text.SplitJoinLines | main.py:121 | round trip: newline-joined lines without newlines split back into the same lines |
| Catalog.NameById | main.py:146-150 | the lookup by id is absent exactly when no row has the id, and otherwise gives the name of a row with that id |
| Catalog.FindByName | main.py:224 | the lookup by name is absent exactly when the name is not in the table, and otherwise gives a row holding it |
| Catalog.MinId | main.py:195 | `MIN(id)` is an id of the table and at most every id |
| Catalog.MaxId | main.py:195 | `MAX(id)` is an id of the table and at least every id |
| Catalog.IdRange | main.py:195 | the range query is NULL exactly when the table is empty |
| Catalog.CompactIdsAllNamed | main.py:67 | on a table with ids 1..n, the range is (1, n) and every id in it names its row |
| Catalog.NumberedWellFormed | main.py:67-68 | seeding distinct names gives increasing ids below the counter and unique names, and from a new table ids 1..n |
| Catalog.StrippedLines | main.py:87 | one result per line of the file, result k being line k stripped |
| Catalog.NonBlank | main.py:87 | the filter keeps only non-empty strings, each taken from its input, and is empty exactly when every input is empty |
| Catalog.NonBlankAppend | main.py:87 | the filter works line by line: filtering a concatenation concatenates the filtered parts, so the kept lines stay in file order and the first non-blank line becomes id 1 |
| Catalog.NonBlankCount | main.py:87 | the filter drops every empty string and keeps every copy of each other string, so a repeated line stays repeated |
| Catalog.NonBlankMembers | main.py:87 | a string survives the filter exactly when it is non-empty and in the input |
| Catalog.DefaultNames | main.py:83-97 | the configured default name alone when the file is missing or every line is blank; otherwise the non-blank stripped lines of the file, in file order |
| Catalog.DefaultNamesMembers | main.py:87 | when the file has a non-blank line, a name is seeded exactly when it is non-empty and some line of the file strips to it |
| Catalog.StageRows | main.py:75-76 | the insert loop yields the names numbered from the counter when they are distinct; otherwise it fails on the first name that repeats an earlier one, all names before it being distinct |
| Catalog.Table.constructor | main.py:65-71 | a new table is empty with the counter at 1 |
| Catalog.Table.Insert | main.py:220-223 | an INSERT of a present name is refused with the table unchanged; otherwise one row with the next id is appended, names stay unique and ids increasing |
| Catalog.Table.InitDb | main.py:73-77 | a table with rows is left as it is; an empty table receives the default names numbered from the counter, or nothing and an error when a name repeats |
| Selection.CandidatesFrom | main.py:196-197 | every candidate lies in the range and is allowed, and candidates are in increasing order |
| Selection.CandidatesComplete | main.py:196-197 | every allowed id of the range is a candidate, so the candidates are exactly the allowed ids |
| Selection.CandidatesEmptyIff | main.py:196-197 | no candidate exactly when the range is empty, or it is one id above 1 that was the previous pick |
| Selection.Draw | main.py:198 | `random.choice` returns one of the candidates |
| Selection.DrawAt | main.py:198 | a choice below the count draws the element at that index |
| Selection.SelectId | main.py:192-204 | the previous pick either stays or becomes the drawn id |
| Selection.SelectInRangeNoRepeat | main.py:195-199 | with a candidate, the pick is within `MIN(id)..MAX(id)`, becomes the previous pick, and differs from the old previous pick unless `MAX(id)` is 1 |
| Selection.SelectFallback | main.py:202-204 | on an empty table or with no candidate, the result is id 1 and the previous pick is kept |
| Selection.FallbackOnNonEmptyTable | main.py:196-198 | a non-empty table falls back exactly when it spans a single id above 1 that was the previous pick |
| Selection.IndexOf | main.py:198 | the index found holds the element sought |
| Selection.EveryCandidateReachable | main.py:198 | each allowed id of the range is drawn for some choice |
| Daily.GetDaily | main.py:132-162 | after any request `current_day` is today, and a failed request leaves the cached name as it was |
| Daily.AlreadySaidIffCacheHit | main.py:137-142 | the "already said" reply comes exactly when `current_day` is today and the cached name is present and non-empty |
| Daily.CacheHitIsIdempotent | main.py:135-142 | a cache hit returns the cached name with the "already said" wording and the state unchanged, for any table and choice |
| Daily.CacheMiss | main.py:144-156 | a miss sets `current_day` and `last_shay_id`, and caches the looked-up name, with the DEFAULT_NAME wording exactly when id 1 was picked; a failed lookup returns the failure and keeps the old name |
| Daily.SameDayRepeat | main.py:135-159 | after a request that returned a non-empty name, every later request that day returns it as "already said" with the state unchanged |
| Daily.StaleNameServed | main.py:144-150 | when the lookup fails, the next request that day is answered with the name cached before |
| Daily.StaleNameExample | main.py:196-204 | a table whose only row has id 2, picked the day before, falls back to the missing id 1 and serves the previous day's name |
| Daily.CompactTableNeverFails | main.py:146-150 | on a non-empty table with ids 1..n, no request gets the failure reply |
| Daily.SelectionState.constructor | main.py:55-59 | `STATE` starts with every field None |
| Daily.SelectionState.SelectRandomShayId | main.py:192-204 | the in-place selection returns the drawn id and sets `last_shay_id` as the specification does, touching no other field |
| Daily.SelectionState.GetDailyShay | main.py:132-162 | the in-place request leaves `STATE` and returns the reply as the specification does |
| Daily.SelectionState.BroadcastOnce | main.py:181-186 | a broadcast sends the reply only when the returned name is present and not empty |
| Adding.Payload | main.py:209 | the payload is everything after the first five characters, or empty for a shorter text |
| Adding.ParseName | main.py:209-216 | a message is rejected exactly when its stripped payload does not split into two words, so the emptiness test adds nothing |
| Adding.ParseNameSpec | main.py:209-216 | the message is accepted exactly when the payload has two words; the stored name is both words capitalized, joined by one space, splits back into them and has no surrounding whitespace |
| Adding.ReAddRoundTrip | main.py:209-226 | sending the stored name again with `/add ` yields the same name, so a second add reports it as existing |
| Adding.AddShay | main.py:206-229 | a rejected message or a present name leaves the table unchanged (reporting the existing row); otherwise the capitalized name is appended with the next id, and the table stays well-formed |
| Adding.TwoWordPayload | main.py:209-216 | a payload of two words and one space is accepted with both words capitalized |
| Adding.AddTwoWords | main.py:209-216 | `/add a b` stores `Capitalize(a) Capitalize(b)` |
| Adding.FirstCharacterAfterCommandLost | main.py:209 | with no space after `/add`, the first character of the name is dropped |
| Adding.CapitalizeExamples | main.py:216 | `ivan` becomes `Ivan`, `pETROV` becomes `Petrov`, `иВАН` becomes `Иван` |
| Broadcast.NextTarget | main.py:168-175 | the target is strictly after now, at most a day later, at TARGET_TIME, and no earlier TARGET_TIME instant lies after now |
| Broadcast.WaitSeconds | main.py:177 | the wait is in (0, 86400] seconds and ends at TARGET_TIME |
| Broadcast.NextTargetFromTarget | main.py:166-179 | computing again from a target gives the next day's target, exactly one day later |
| Listing.NumberedLines | main.py:121 | line i is the number from+i, a dot, a space and the i-th name |
| Listing.ListBodyLines | main.py:121 | the listing body splits into one line per name, line i being `i+1. name` with the number reading back as i+1 |
| Listing.ListBody | main.py:121 | the listing body is empty exactly when there are no names |
| Listing.ListReplyFor | main.py:115-125 | the empty-database reply is given exactly when the table has no row |

## Left out

- Telethon client, handler registration, `event.reply`, `client.send_message`, the `/help` text and markdown parse modes: these are transport I/O. `BroadcastOnce` returns what would be sent instead of sending it.
- Logging setup and log calls: side effects only.
- `.env` parsing into `CONFIG`. `DEFAULT_NAME` is a parameter of `InitDb`. `TARGET_TIME` is the constant `Broadcast.TargetTime`. `TARGET_CHAT_ID` only gates the broadcast task.
- SQLite connection handling and SQL text. The table is the in-memory `rows`/`nextId`. Only failures that follow from the data are modelled: an empty table, a missing id, and a UNIQUE violation. I/O failures of the database and the generic error replies they cause are not modelled.
- AUTOINCREMENT exhaustion at 2^63-1 and the `created_at` column: ids are unbounded integers and no operation reads the timestamp.
- Opening and decoding the default-names file: the model receives its lines.
- The `while True` loop, `asyncio.sleep`, and the 60-second retry after an error: timing only. One wake-up is `Daily.SelectionState.BroadcastOnce`, and the sleep length is `Broadcast.WaitSeconds`.
- Concurrency between handlers and the broadcast task: all operations are modelled as sequential.
- `random.choice` as a random source: the index is the `choice` argument.
- Calendar and time zones. The day of the month is given by the caller, and a day is always 86400 seconds (no DST).
- The exact Russian reply texts of `get_daily_shay` and `add_shay`: only the variants are distinguished. The `/db` listing text is modelled in full.
- Text.ToUpper: maps only ASCII a-z, U+00E0-U+00FE without U+00F7, Cyrillic U+0430-U+045F and U+0491. Python upper-cases every cased Unicode letter (for example ÿ, ß, µ, Latin Extended and Greek letters, and Cyrillic letters from U+0460 on); the model leaves those as they are.
- Text.ToLower: maps only ASCII A-Z, U+00C0-U+00DE without U+00D7, Cyrillic U+0400-U+042F and U+0490. Other capitals are left as they are, the same restriction as ToUpper.
- Text.Capitalize: Python upper-cases the first character with title case; title case and upper case agree on the letters modelled.

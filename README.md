# battlemetrics-bot status monitor, modelled in Dafny

The bot watches one BattleMetrics player and posts a Telegram message
whenever the player's status changes. This project models its core:

- **Scraping.** The player page is reduced to its `dt`/`dd` pairs. The
  scan keeps the last "Current Server" entry that names a real server and
  the last "Last Seen" text. It then renders one of "Online (…)",
  "Offline (Last seen: …)" or "Offline" in the selected language. It
  gives "Error" when the browser fails or a matched label has no `dd`.
- **Change detection.** `check_battlemetrics` compares the rendered
  string with `last_known_status` and stores it when it differs. It
  announces the change unless the previous value was one of the two
  baselines: "Unbekannt" at start-up, "Unknown" after `/setID`.
- **Commands.** `/setID`, `/run`, `/stop`, `/status` and `/lang` work on
  the ID file, the language file, the job queue and `last_known_status`.
- **Translations.** `get_language` reads the language file. `t` looks up
  the message tables with their two fallbacks (English table, key
  itself) and fills in one template field.

Modules, one per part of `bot.py`:

- `Text` (`text.dfy`): Python's `str.strip` over the `isspace`
  characters, the case-sensitive `in` substring test, and ASCII
  `str.lower`.
- `Translations` (`translations.dfy`): `MESSAGES`, `get_language`, `t`
  and `str.format` for one field.
- `Extraction` (`extraction.dfy`): the page model (`Entry`), the scan
  loop as methods `ScanEntry`/`ScanFields`/`GetStatus`, and the
  functions that specify them.
- `Jobs` (`jobs.dfy`): the job queue as a sequence of named jobs.
- `Monitor` (`monitor.dfy`): the bot's state as class `Bot`, its
  handlers as methods, and the change-detection rule `Record` with its
  lemmas.

Details of `bot.py` the model keeps:

- Label matching is a case-sensitive substring test on the stripped
  label.
- When several entries qualify, the LAST one wins. This holds for the
  server and for the last-seen text.
- A later "Last Seen" entry with an empty text overwrites an earlier
  non-empty one.
- A page without any matching label reads as "Offline", not "Error".
- Statuses are compared as rendered, language-dependent strings. So
  switching the language between two checks makes a "Seen" status look
  changed.

## Model

| member | source | states |
|---|---|---|
| Text.StripSpec | bot.py:181-192 | `strip` never lengthens its input and leaves no whitespace at either end |
| Text.StripLeftSpec | bot.py:181-192 | left strip drops exactly a leading run of whitespace and stops at the first non-space character |
| Text.StripRightSpec | bot.py:181-192 | right strip drops exactly a trailing run of whitespace and stops at the last non-space character |
| Text.StripIsSlice | bot.py:181-192 | the stripped text is a contiguous slice of the input with only whitespace around it |
| Text.StripEmptyIff | bot.py:134 | a text strips to "" exactly when every character is whitespace |
| Text.StripIdempotent | bot.py:111 | stripping twice equals stripping once |
| Text.ContainsSelf | bot.py:183 | a label equal to the searched text contains it |
| Text.ContainsNeedsFirstChar | bot.py:190 | a text lacking the needle's first character does not contain the needle |
| Text.ContainsNeedsRoom | bot.py:187 | a text shorter than the needle does not contain it |
| Text.Lower | bot.py:270 | lower-casing keeps the length and maps every character through the ASCII case map |
| Translations.GetLanguage | bot.py:107-114 | the language is always a table key; it is the stripped file content when that is a key, else "en", including for a missing file |
| Translations.GetLanguageGerman | bot.py:107-128 | German is chosen exactly when the stripped file reads "de"; otherwise every lookup equals the English lookup |
| Translations.TableIs | bot.py:125 | the table used is German for "de" and English for every other language |
| Translations.LookupUnknownLanguage | bot.py:125 | an unknown language falls back to the English table |
| Translations.LookupUnknownKey | bot.py:125 | a key missing from the tables yields the key itself |
| Translations.TablesShareKeys | bot.py:44-103 | both tables define the same keys |
| Translations.EnglishTemplates | bot.py:64-70 | the English status templates and the placeholder each holds |
| Translations.GermanTemplates | bot.py:93-99 | the German status templates and the placeholder each holds |
| Translations.FormatPlain | bot.py:126-128 | a template without any `{` or `}` is returned unchanged |
| Translations.FormatSplice | bot.py:126-127 | filling `pre{field}post` (brace-free `pre`, `post`) yields `pre + value + post` |
| Translations.FormatAtField | bot.py:126-127 | a leading placeholder is replaced by the value |
| Translations.FormatAtPlain | bot.py:126-127 | a leading non-brace character is copied unchanged |
| Extraction.Classify | bot.py:194-200 | online iff the server text is truthy; last-seen iff no server and a truthy last-seen text; otherwise offline; the chosen text is carried over |
| Extraction.RenderText | bot.py:194-200 | through the tables, the renderings are exactly "Online (s)", the language's last-seen prefix + t + ")", and "Offline" |
| Extraction.RenderInjective | bot.py:194-200 | different conclusions render to different strings in the same language, so comparing strings compares statuses |
| Extraction.RenderIsConclusive | bot.py:220-225 | a rendered status is never "Error", "Unknown" or "Unbekannt" |
| Extraction.RenderLanguage | bot.py:67-99 | English and German renderings differ exactly for last-seen statuses |
| Extraction.LastOfStep | bot.py:180-192 | one more entry overwrites the running value when the entry yields one and keeps it otherwise |
| Extraction.LastOfIsLast | bot.py:180-192 | the last yielding entry decides the running value, whatever came before |
| Extraction.LastOfNone | bot.py:174-175 | the running value stays `None` exactly when no entry yields a value |
| Extraction.LastOfFrom | bot.py:180-192 | every value the scan ends with comes from some entry |
| Extraction.LastServerIsServer | bot.py:187-188 | a server found by the scan is non-empty and never contains "Not online" |
| Extraction.CleanIff | bot.py:180-192 | the scan's running "no missing `dd` so far" check agrees with "no matched label lacks its `dd`" |
| Extraction.ServerWins | bot.py:180-195 | with no missing `dd`, the last entry naming a server gives "Online (its text)", whatever the last-seen entries say |
| Extraction.LastSeenOtherwise | bot.py:190-200 | with no server named, the last "Last Seen" entry gives the last-seen rendering of its text, or "Offline" when that text is empty |
| Extraction.OfflineOtherwise | bot.py:199-200 | with no server and no "Last Seen" entry, the result is "Offline" |
| Extraction.NoLabelsIsOffline | bot.py:178-200 | a page without either label reads "Offline", not "Error" |
| Extraction.ErrorIff | bot.py:180-204 | the result is "Error" exactly when the browser failed or a matched label has no `dd` |
| Extraction.ScanEntry | bot.py:181-192 | one loop pass: it raises exactly for a matched label without `dd`, and otherwise each running variable takes the entry's value or stays |
| Extraction.ScanFields | bot.py:174-192 | the loop raises exactly when some matched label lacks its `dd`, and otherwise ends with the last server and the last last-seen text |
| Extraction.GetStatus | bot.py:164-204 | the method returns the specified status of the page in the file's language |
| Jobs.NamedEmptyIff | bot.py:235-245 | `get_jobs_by_name` is empty exactly when no job has that name |
| Jobs.NamedHaveName | bot.py:235 | every job returned by name carries that name |
| Jobs.NamedWithoutPartition | bot.py:248-249 | the removed jobs and the kept jobs together are the old queue, as a multiset |
| Jobs.WithoutRemovesNamed | bot.py:248-249 | after removal no job of that name remains |
| Jobs.WithoutKeepsOthers | bot.py:248-249 | removal leaves the jobs of every other name as they were |
| Jobs.NamedAppend | bot.py:235-240 | looking up by name distributes over appending jobs |
| Jobs.StartAddsOne | bot.py:240 | scheduling on a queue without the monitoring job leaves exactly one such job, with interval 120 and first 1 |
| Monitor.ConfiguredIff | bot.py:214-216 | the check proceeds exactly when the ID file exists and holds a non-whitespace character |
| Monitor.LoadedIdIsStripped | bot.py:130-136 | the loaded ID is `None` exactly for a missing file and is otherwise stripped |
| Monitor.StatusChangeTextIs | bot.py:227 | the alert is the language's "Status Change / New Status:" heading followed by the new status |
| Monitor.RecordStoresConclusive | bot.py:218-231 | a check that changes `last_known_status` stores neither "Error" nor a baseline |
| Monitor.ChangesAnnouncedAfterBaseline | bot.py:223-231 | once a real status is stored, a message is sent exactly when the status changes |
| Monitor.RecordIdempotent | bot.py:223 | a second check with the same observation changes nothing and sends nothing |
| Monitor.ResetSuppressesFirstAlertOnly | bot.py:223-231 | after `/setID`, the first differing status is stored silently and the next differing one is announced |
| Monitor.ServerAPageIsOnline | bot.py:183-195 | a page whose "Current Server" is "ServerA" reads "Online (ServerA)" in every language |
| Monitor.OfflinePageIsOffline | bot.py:187-200 | a page whose server is "Not online" reads "Offline" |
| Monitor.Scenario | bot.py:211-231 | from "Unknown": online stored silently, unchanged online ignored, offline announced, failed fetch ignored |
| Monitor.ChosenLanguage | bot.py:270-271 | an accepted `/lang` argument is always a table key |
| Monitor.ChosenLanguageIsRead | bot.py:270-272 | the language `/lang` writes is the one every later lookup uses |
| Monitor.ChosenLanguageCase | bot.py:270 | `/lang` accepts "de" and "en" in any letter case |
| Monitor.ActiveDiffersFromInactive | bot.py:282 | the "active" and "inactive" texts differ in every language |
| Monitor.Bot.constructor | bot.py:40 | at start-up there are no jobs and `last_known_status` is "Unbekannt" |
| Monitor.Bot.CheckBattlemetrics | bot.py:211-232 | no ID, "Error" or an equal status leaves the state alone and sends nothing; otherwise the status is stored and an alert with the new status is sent exactly when the old value was not a baseline |
| Monitor.Bot.SetId | bot.py:258-266 | with an argument and a successful save, the ID is stored, the status is reset to "Unknown" and the confirmation names the ID; otherwise nothing changes and the reply is the error text |
| Monitor.Bot.StartMonitoring | bot.py:234-241 | an existing monitoring job leaves the queue alone; otherwise exactly one monitoring job is added; either way monitoring runs afterwards |
| Monitor.Bot.StopMonitoring | bot.py:243-250 | without a monitoring job nothing changes; otherwise every monitoring job is removed and the others are kept in order; either way none runs afterwards |
| Monitor.Bot.Status | bot.py:279-283 | the report holds the loaded ID, "active" exactly when monitoring runs, and the stored status |
| Monitor.Bot.SetLanguageCommand | bot.py:268-277 | no argument gives the usage text; an unsupported one gives the language list; otherwise the lower-cased code is stored, read back as the language, and confirmed in it |

## Left out

- The browser (Selenium, the Chromium binary, the user agent, the 7-second wait, `driver.quit`) is replaced by its result. That result is the page as a sequence of `dt`/`dd` pairs, or `None` when the driver fails.
- The Telegram API, the chat ID and the command/job registration in `__main__` are left out. Replies are return values, and the alert is returned as a `Notice`.
- The delivery outcome of the alert is an input. A failed send is only logged in the source and does not change the state.
- A failing reply (`reply_text` raising) is not modelled. In most handlers it goes to the error handler. In `set_id` the `except` of bot.py:265-266 catches a failed `id_saved` confirmation and replies `error_no_id`, after the ID was saved and the status reset; the model always confirms a successful save.
- Handlers and the job are taken to run one at a time, each to completion. The interleaving at the `await` of bot.py:227 is not modelled: a `/setID` handled while the alert is being sent sets "Unknown" (bot.py:263), and bot.py:231 then overwrites it, so the next change is announced.
- Logging, the `.env` loading and the timeout settings are left out.
- File I/O is modelled as two `Bot` fields holding the files' contents (`None` while a file is missing). Tasks sharing these files concurrently are not modelled.
- Job timing is left out. `run_repeating` is modelled as adding a job record with its interval and first delay. `schedule_removal` is modelled as immediate removal.
- Monitor.Bot.SetId: a failing save is an input `saveSucceeds`. The model assumes the file is then unchanged. A partial write, or a file truncated by `open(…, "w")`, is not modelled.
- The `welcome` and `info_text` messages and their handlers `start` and `info_command` are left out. They only reply with a fixed text. Because the model's tables lack these two keys, its `t` returns the key itself for them, where bot.py:46-57 and bot.py:75 give the message text.
- Monitor.Bot.Status: the `status_report` template is filled with three fields. The model returns those three fields as a `Report` record rather than the formatted text, because `Format` fills one field.
- Translations.Format: it models `str.format` with a single named field. It does not model `{{` and `}}` escapes, format specs, the `ValueError` for a lone `}`, or the `KeyError` for a field that was not supplied. `FormatPlain` and `FormatSplice` therefore require the literal parts to contain no brace at all. None of these arise with the bot's tables and calls.
- Text.Lower: it is ASCII-only, while Python's `str.lower` covers all of Unicode. The accept/reject decision for "de"/"en" is still the same: no non-ASCII code point lower-cases to a string containing "d", "e" or "n", so an argument with a non-ASCII character is rejected both ways.
- Text.IsSpace: it lists the code points Python's `str.isspace` accepts. Python's `str.strip()` uses the same set.

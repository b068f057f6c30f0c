# Auto-image plugin scheduler, modelled in Dafny

This project models the core of `astrbot_plugin_auto_img`. The plugin is a chat-bot
plugin that posts a random picture from an image API to a list of friends and
groups, each on its own interval, and stays quiet during a daily exclusion window.
All of the modelled logic is in `main.py`. It has three parts:

- **Exclusion window** (`is_time_between`), module `TimeWindow` in `time_window.dfy`.
  The two bounds are parsed as `strptime('%H:%M')` does. If either bound fails to
  parse, nothing is excluded. A window with start <= end covers start..end with both
  ends included. A window with start > end wraps past midnight. The lemma
  `ExclusionIsArc` proves that both cases are one arc of the 24-hour dial.
- **One delivery** (`send_img`), module `ImageDelivery` in `image_delivery.dfy`.
  This covers the request body, the early return when the API's `data` is empty,
  the size lookup, the caption text, the flat-or-forwarded payload and the
  90-second send timeout. The HTTP exchange and the host send are inputs: an
  `ApiResponse` and a `Delivery`.
- **The schedule loop** (`_auto_trigger_task` and `execute`), module `Scheduler`
  in `scheduler.dfy`. The class `AutoTrigger` owns the entry list as an array.
  - Its constructor stamps every entry with the one start instant.
  - `Tick` is one poll. Inside the exclusion window it changes nothing. Otherwise
    it runs `Execute`.
  - `Execute` walks the list in order. It attempts every entry with
    `now - last_activity > interval` (strict) and restamps an entry only when its
    send returned normally. A failed send leaves the entry as it was, and the
    pass goes on to the next entry. A due entry whose type is not in the
    `user_type` table raises `KeyError` outside the per-entry `try`. That ends
    the pass, and the poll reports it as `aborted`.
  - `Execute` is proved equal to the function `Pass`. The lemma `PassIsReference`
    proves `Pass` equal to an independent, entry-by-entry reference definition.
    The remaining scheduler lemmas follow from that.

`Text` (`text.dfy`) models `str.join` and `str()` of an integer, which the
caption uses, and `str.split`, which the lemmas use to read the caption and the
address back. It proves that splitting a joined list of separator-free parts
gives the parts back.
`Wrappers` (`wrappers.dfy`) holds `Option`.

Time is an integer count of microseconds. Time of day (`TimeOfDay`) counts from
midnight. Timestamps are integers on one clock. The due test `time_diff >
interval_sec` becomes `now - last > interval * 1_000_000`, which is exact. Every
clock reading the source takes is a parameter. `Readings` holds, for each entry,
the reading at the due check (line 86), the reading after the send (line 92), the
API answer and the send outcome. `Tick` takes the time of day for the window
test separately.

Points of the code's behaviour worth noting:
- The timer advances only when `send_img` returns normally (line 92 is inside
  the `try`). It does not advance after every attempt.
- Returning with an empty `data` counts as a normal return, so it also advances
  the timer.
- Init stamps the process-start instant, not the start of the current hour.
- An unknown type aborts the rest of the pass. It is not contained to its entry.
- The global `send_forward` setting is read but never used by the schedule.
  Each entry's own `send_forward` defaults to false.

## Model

| member | source | states |
|---|---|---|
| `TimeWindow.ParseClock` | main.py:17-21 | a bound that parses is a whole minute of the day; the string is 3 to 5 characters around a colon; anything else is the `ValueError` (None) |
| `TimeWindow.ParseFormatted` | main.py:17-18 | the zero-padded "HH:MM" spelling of every minute of the day parses back to that minute |
| `TimeWindow.ParseUnpadded` | main.py:17-18 | the unpadded spelling ("7:5") is accepted as well and denotes the same minute |
| `TimeWindow.ParsedPaddedIsCanonical` | main.py:17-18 | a five-character bound that parses is exactly the canonical padded spelling of its minute |
| `TimeWindow.MalformedNeverExcludes` | main.py:16-21 | if either bound fails to parse, the result is false whatever the time |
| `TimeWindow.SameDayWindow` | main.py:23-26 | for start <= end the time is inside iff start <= now <= end, both ends inclusive |
| `TimeWindow.MidnightWindow` | main.py:27-30 | for start > end the time is inside iff now >= start or now <= end, i.e. iff it is not strictly between end and start |
| `TimeWindow.ExclusionIsArc` | main.py:9-30 | the two-case test equals "both parse and now lies on the clockwise arc from start to end" |
| `ImageDelivery.SendImg` | main.py:100-163 | nothing is sent exactly when `data` is empty; a send carries the first candidate's URL in the configured size and its caption; an API failure raises; a found picture whose send times out raises exactly the timeout error with the address and 90 seconds, and that error arises only from a timeout |
| `ImageDelivery.SucceedsExactly` | main.py:121-163 | `send_img` returns normally iff `data` was empty, or the first candidate has the configured size and the host delivered |
| `ImageDelivery.PresentationIsCosmetic` | main.py:135-148 | flat and forwarded delivery send the same image and caption and succeed or fail together |
| `ImageDelivery.CaptionSplitsIntoLines` | main.py:142 | a caption whose fields hold no line break splits into exactly the title, author, PID and tag lines with their labels |
| `ImageDelivery.TagLineSplits` | main.py:142 | the tag line lists every tag in order with a '#' prefix: splitting it on spaces gives them back |
| `ImageDelivery.NullTagsAreEmpty` | main.py:142 | null tags and an empty tag list both give an empty tag line |
| `Scheduler.Address` | main.py:88-89 | an address exists exactly for the FRIEND and GROUP types; any other type is the `KeyError` |
| `Scheduler.AddressFields` | main.py:89 | the address is "aiocqhttp", the mapped message kind and the id, separated by colons, and the id reads back from it |
| `Scheduler.Settled` | main.py:86-95 | an entry reached by a pass differs from before at most in `last_activity`, and only if it was due, its type is known and its send returned, in which case it holds the post-send clock |
| `Scheduler.Pass` | main.py:80-97 | a pass over the first k entries leaves every later entry untouched and keeps the list length |
| `Scheduler.PassIsReference` | main.py:80-97 | the in-order pass equals the reference: entries before the first due entry of unknown type are settled, it and later ones are untouched, the log holds one attempt per due entry before it in list order, and the pass aborts iff such an entry exists |
| `Scheduler.AbortIsFinal` | main.py:88 | after the pass has raised, the remaining entries change nothing |
| `Scheduler.Stamped` | main.py:62-65 | after init every entry holds the same start instant and is otherwise unchanged |
| `Scheduler.FreshEntryDue` | main.py:62-65 | right after init an entry is due iff more than its interval has passed since the start instant |
| `Scheduler.NotDueUntouched` | main.py:86-87 | an entry with now - last_activity <= interval is not changed by the pass |
| `Scheduler.SendOutcomeDecidesStamp` | main.py:90-95 | a reached due entry gets the post-send clock if its send returned and is unchanged if it raised; the pass aborts only for a later unknown-type entry |
| `Scheduler.UnknownTypeAborts` | main.py:88 | a reached due entry of unknown type aborts the pass: it and every later entry are untouched and only earlier due entries were attempted |
| `Scheduler.OnlyStampsChange` | main.py:80-97 | a pass changes no field but `last_activity`, and a changed stamp is that entry's post-send clock |
| `Scheduler.RestampedWaitsInterval` | main.py:86-92 | an entry restamped at time T is due again only when now - T exceeds its interval |
| `Scheduler.AutoTrigger.constructor` | main.py:60-65 | the list is the configured schedule with every `last_activity` set to the start instant |
| `Scheduler.AutoTrigger.Execute` | main.py:75-97 | the array afterwards, the attempts made and the abort flag are those of `Pass` over the whole list |
| `Scheduler.AutoTrigger.Tick` | main.py:66-73 | inside the exclusion window the poll does nothing; otherwise it runs one pass and reports an unknown-type abort instead of stopping |

## Left out

- HTTP to the image API (`aiohttp` session, 120-second timeout, `raise_for_status`, JSON decoding) is not modelled. Its outcome is the `ApiResponse` input, and `Failed` stands for every way it raises, including a missing key in the body.
- The host send (`context.send_message`) and `asyncio.wait_for` are not modelled. Their outcome is the `Delivery` input.
- `MessageChain`, `Node`, `Image.fromURL` and `Plain` are foreign framework types. `Payload` records only the URL, the caption and the flat-or-forwarded choice.
- `asyncio.create_task`, the 10-second and 5-second sleeps, the endless `while True` and task cancellation in `shutdown`, `__del__` and `terminate` are runtime plumbing. The model is one poll (`Tick`); the loop repeats it.
- `datetime.now()`, float timestamps and `.time()` are not modelled. Clock readings are integer microsecond parameters, so float rounding is not modelled.
- ParseClock accepts only ASCII digits. Python's `\d` in `strptime` also accepts other Unicode decimal digits.
- `json.loads` of the schedule and the `config.get` lookups are configuration plumbing. The model starts from parsed `Entry` and `Settings` values, so the case where `exclude_time` or `interval_sec` is missing or of the wrong type (a `TypeError` rather than `ValueError`) is not modelled.
- `@register`, the `Star` base class, logging and `print` are host glue.

# DaLeDou orchestration core, modelled in Dafny

DaLeDou runs daily "missions" against the web game 大乐斗 for several QQ accounts.
Each mission is a short script. It requests a page, reads text out of it and
appends lines to a report. This project models the part of `daledou/run.py`
underneath the missions, and proves properties of that model:

- **The retrying fetch `get`.** It sends a request, repeats it while the body
  carries the busy marker `系统繁忙` (at most three requests in all), and keeps
  the last body in the global `HTML`.
- **The extraction primitives `find` and `findall`.** They apply a regular
  expression to `HTML`. `find` also writes one audit line `{QQ} | {name}：{result}`
  through `print_info`.
- **The job runners `_run_job` and `_dev_job`.** They loop over the accounts and
  the mission names, collect the report in `PUSH_CONTENT` and hand it to `push`
  (or print it, in the dev job).
- **A few calculations inside missions.** The crafting split of 神匠坊, the
  exchange split of 乐斗游记, the exchange of 万圣节, the request sequences of
  踢馆 and 镶嵌, and the knight line-up of 华山论剑's `战阵调整`.

Layout:

- `text.dfy` (module `Text`): Option, substring test, Python `range`, decimal rendering.
- `retry.dfy` (module `Retry`): the retry rule of `get`, stated on the transport's replies.
- `jobs.dfy` (module `Jobs`): the job runners as functions on a snapshot of the globals, and what they report.
- `runtime.dfy` (module `Runtime`): class `Runtime`. Its fields are run.py's module
  globals (`HTML`, `QQ`, `MISSION_NAME`, `PUSH_CONTENT`), the log, the `push` calls
  and the requests sent. Its methods are `get`, `print_info`, `find`, `findall`,
  `_init_data`, the mission loop (`RunMissions`), `_run_job` and `_dev_job`.
  `Get` is proved against `Retry.Attempts`. `InitData`, `RunMissions`, `RunJob`
  and `DevJob` are each proved equal to their function in `Jobs`. `PrintInfo`,
  `Find` and `FindAll` state their log line and their result directly.
- `missions.dfy` (module `Missions`): the mission arithmetic and request sequences.
- `formation.dfy` (module `Formation`): `战阵调整`, with its two loops over the knight-id list.

Abstractions:

- **The transport** is a function from the request number (counted over the whole
  process) to the body the server returns. `get` records every URL it requests.
- **The regex engine** (`re.search` / `re.findall` with `re.S`) is a pair of
  uninterpreted functions passed in as a `Regex` value. `findall`'s result is one
  list of groups per match.
- **A mission** is looked up by name, as `globals()[func]` does. What the model
  keeps is the entries it appends to `PUSH_CONTENT`, and whether it returned
  (with or without a value) or raised.
- **The clock** is reduced to the two readings a run uses: the start-time text and
  the whole seconds elapsed. Both are carried in the `Account` record.

Two facts about the runner that shape the model:

- No exception handling surrounds the mission calls (run.py:88-91), so any
  exception ends the whole job. Exactly the accounts before the first failing
  one have their reports pushed. PUSH_CONTENT keeps the failing account's start
  header and whatever its missions collected (`Jobs.RunJobFailureStopsJob`).
- For the "check" job, `_run_job` still iterates `init_config()` over every
  account (run.py:83), but skips the loop body for each one (run.py:84-85).
  Any cookie check therefore lives inside `init_config`, which is not part of
  this model. The modelled state is left unchanged (`Jobs.CheckJobChangesNothing`).

## Model

| member | source | states |
|---|---|---|
| Retry.Attempts | daledou/run.py:126-132 | `get` sends between 1 and 3 requests. Every body before the last one was busy. If fewer than three were sent, the last body is not busy. |
| Retry.AttemptsIsLeadingBusyCapped | daledou/run.py:126-132 | The number of requests is 1 plus the number of leading busy bodies, capped at 3. |
| Retry.AttemptsUnique | daledou/run.py:126-132 | The three facts above determine the request count uniquely. |
| Runtime.Runtime.Get | daledou/run.py:120-133 | Requests the URL `Attempts` times. Every body overwrites HTML. The last body is left in HTML and returned, even when all three were busy. |
| Runtime.Runtime.PrintInfo | daledou/run.py:136-142 | Appends exactly one log line `{QQ} \| {name}：{message}`. The name defaults to MISSION_NAME. |
| Runtime.Runtime.Find | daledou/run.py:145-154 | Returns group 1 of the first match in HTML, or None. Logs exactly one line with the result ("None" when nothing matched). Leaves HTML unchanged. The default pattern is `<br />(.*?)<`. |
| Runtime.Runtime.FindAll | daledou/run.py:157-161 | Returns every match in HTML. Writes no log line and changes nothing. |
| Runtime.Runtime.InitData | daledou/run.py:65-77 | Appends the start header `【开始时间】\n{time}` to PUSH_CONTENT and sets QQ to the account. |
| Runtime.Runtime.RunMissions | daledou/run.py:88-91 | For each name in order: sets MISSION_NAME, appends `\n【name】`, then calls the mission. A missing name or a raising mission ends the loop. Equal to `Jobs.Missions`. |
| Runtime.Runtime.RunJob | daledou/run.py:80-97 | The whole state after `_run_job` equals `Jobs.RunJob`, including the exception that escapes, if any. |
| Runtime.Runtime.DevJob | daledou/run.py:100-117 | The whole state after `_dev_job` equals `Jobs.DevJob`. What that prints, and when it raises, is stated by `Jobs.DevJobPrintsEachReport` and `Jobs.DevJobSucceedsIff`. |
| Jobs.MissionsFrame | daledou/run.py:86-91 | Running missions leaves QQ, the pushes and the prints alone. It only appends to PUSH_CONTENT, and a failing run appends at least the header. |
| Jobs.MissionsAppendBlocks | daledou/run.py:88-91 | The missions succeed exactly when every name is defined and every mission returns. Then PUSH_CONTENT gains each header and that mission's output, in list order. MISSION_NAME ends as the last name, and `result` is the last mission's value. |
| Jobs.CheckJobChangesNothing | daledou/run.py:83-85 | `_run_job("check")` changes nothing: no report line, no mission, no push. |
| Jobs.RunAccountReports | daledou/run.py:65-97 | One account succeeds exactly when its job is configured and all its missions return. Then exactly one push happens, titled `{QQ} {job}`, carrying the start header, the mission blocks and the runtime footer, and PUSH_CONTENT ends empty. On failure nothing is pushed. |
| Jobs.RunJobPushesEachReport | daledou/run.py:80-97 | If every account completes, the job pushes one report per account, in account order, and PUSH_CONTENT ends empty. |
| Jobs.RunJobSucceedsIff | daledou/run.py:80-97 | A non-check job raises nothing exactly when every account has the job and every mission returns. |
| Jobs.RunJobFailureStopsJob | daledou/run.py:83-97 | An exception escapes only from a non-check job with some account that does not complete. Then exactly the full reports of the accounts before the first such account (`FirstFailing`) are pushed, in order, after the earlier pushes. PUSH_CONTENT starts with the failing account's start header (after whatever it held before, when that account is the first). |
| Jobs.HeadersFollowMissionOrder | daledou/run.py:88-91 | Suppose no mission writes a header-shaped line. Then the mission headers in a pushed report, read back, are exactly the account's mission list for the job, in order. |
| Jobs.DevJobNeverPushes | daledou/run.py:100-117 | The dev job never calls `push`. |
| Jobs.DevJobPrintsEachReport | daledou/run.py:100-117 | Suppose every account runs a non-empty mission list to completion. Then the dev job raises nothing and pushes nothing. It prints one report per account whose last mission returned None, in account order: the start header, each mission header followed by its output, and the runtime footer (the first report also carries what PUSH_CONTENT already held). PUSH_CONTENT ends empty. |
| Jobs.DevJobSucceedsIff | daledou/run.py:100-117 | The dev job gets through all accounts exactly when every account runs every named mission to completion and `result` is bound when first read: some name was given, or there are no accounts. |
| Jobs.DevJobWithoutMissionsFails | daledou/run.py:104-114 | With an empty mission list, the first account reads `result` before anything assigned it. The run stops there, leaving its start header and footer in PUSH_CONTENT. |
| Missions.CraftSplit | daledou/run.py:2059-2070 | `ten` ten-times crafts and `one` single crafts cost at most the crystals. Fewer than 60 crystals remain after the ten-times crafts, and fewer than 6 remain at the end. |
| Missions.CraftSplitCraftsMost | daledou/run.py:2059-2070 | Ten times `ten`, plus `one`, equals crystals / 6: the split crafts as often as single crafts alone would. |
| Missions.SynthesisCount | daledou/run.py:2031-2036 | A rune with too few fragments is skipped. Otherwise `count` is the largest k with k·number ≤ possess, and any page showing `number` 0 raises ZeroDivisionError (for 5/0, the `possess < number` test is false, so the division runs). |
| Missions.TravelSplit | daledou/run.py:2558-2568 | 10·num_10 + num_1 = num, with num_1 < 10. |
| Missions.TravelSplitUnique | daledou/run.py:2558-2568 | No other pair of tens and a remainder below 10 adds up to num. |
| Missions.HallowmasAsWritten | daledou/run.py:2183-2194 | Both exchange loops run `int(a)` times: once when lanterns % 40 ≥ 20, otherwise never. |
| Missions.HallowmasAsWrittenOverspends | daledou/run.py:2183-2194 | With 20 lanterns the code asks for 60 lanterns' worth of gifts. With 80 lanterns it exchanges nothing. |
| Missions.HallowmasExchanges | daledou/run.py:2183-2194 | Gift B `b` times, then gift A. This costs at most the lanterns, leaves fewer than 40 after gift B and fewer than 20 at the end. |
| Missions.GymSequence | daledou/run.py:536-542 | 36 sub-types: five trials (2), one wheel spin (4), then thirty challenges (3). |
| Missions.LevelIdsAt | daledou/run.py:1984-1993 | Each level's range holds seven pearl ids, 4000 + level + 10·j. |
| Missions.PearlIdsByLevel | daledou/run.py:1984-1993 | `get_p` yields 21 ids. Position 7l + j holds 4001 + l + 10·j. |
| Missions.PearlIdLevelDigit | daledou/run.py:1984-1993 | The last digit of every id yielded is its pearl level, in order 1, 2, 3. |
| Formation.RemoveFirst | daledou/run.py:202 | `list.remove` raises exactly when the id is absent. Otherwise it removes the first occurrence and keeps the other ids in their order: the result is the list before that occurrence followed by the list after it. Hence the multiset drops that id once and the length drops by one. |
| Formation.AdjustFormation | daledou/run.py:180-219 | The requests `战阵调整` sends and its outcome are those of `Adjust`: no knights, a removal that raises, or an adjustment that reports whether knights ran out. |
| Formation.BenchSpent | daledou/run.py:199-207 | The first loop equals `Release`. It removes each seated knight and benches those whose durability is "0". |
| Formation.FillSlots | daledou/run.py:209-218 | The second loop pops ids from the end into the slots, in order. It reports "no knight available" exactly when there are more slots than ids. |
| Formation.ReleaseFailureStays | daledou/run.py:199-202 | Once a removal has raised, the later seats are never reached. |
| Formation.ReleaseAccounts | daledou/run.py:199-207 | After the first loop, the remaining ids plus the seated ids are the offered ids, as a multiset. Exactly the zero-durability seats are benched, in page order. Each gets a "type=0" request naming that seat's knight id and position. |
| Formation.ReleaseFailsIff | daledou/run.py:199-202 | The first loop raises exactly when the seated ids, counted with repeats, do not fit into the offered ids. |
| Formation.SeatedKnightsNotReassigned | daledou/run.py:199-218 | With distinct offered ids, no seated knight is sent out again. |
| Formation.KnightsSentOnce | daledou/run.py:209-218 | With distinct offered ids, no knight is sent into two positions. |

## Left out

- HTTP: headers, the session and response decoding. The transport is a function from request number to body.
- Runtime.Runtime.Get: the 0.2-second `time.sleep` between retries is not modelled; it is timing only.
- Wall-clock time. `time.time()` and `get_datetime_weekday()` become the start text and elapsed seconds in `Account`.
- The `schedule` triggers (`job_timing`, `job_one`, `job_two`) and `run_serve`'s argument parsing. The trigger logic lives in the `schedule` library, and argument parsing is entry-point plumbing.
- `init_config`, `push`, `remove_none_and_join` and `create_qq_log` from `daledou.utils` are not part of this model. Accounts are an input sequence, and `push` is recorded as a title plus the raw PUSH_CONTENT list it was given.
- Logger sink management (`logger.remove(trace)`). Only the line `print_info` writes is kept.
- The regex engine. `Regex.search` and `Regex.findAll` are uninterpreted, so Python's string/tuple shapes of `findall` results become lists of groups.
- Runtime.Runtime.RunJob, Runtime.Runtime.DevJob: a mission's own requests and log lines are not modelled; only what it appends to PUSH_CONTENT, and how it ends, is kept.
- Jobs.Registry: a mission is a fixed function of the `Account` record. In the model, what a mission appends and how it ends cannot depend on HTML, on the transport or on earlier missions, and a name listed twice produces the same output twice.
- The bodies of the other missions: request scripts that branch on page text. Missions that use `random`.
- Missions.CraftSplit, Missions.TravelSplit, Missions.SynthesisCount, Missions.HallowmasAsWritten: `int(x / y)` goes through a float in Python. These are modelled as exact floor division, which differs only beyond 2^53.
- Missions.CraftSplit, Missions.TravelSplit: the parse `int(find(...))` and the truthiness test around the splits are not modelled. A captured `\d+` is never empty, so every found count, 0 included, goes through the split.
- Formation.AdjustFormation: the page fetches and `findall` scans that produce its inputs are not modelled. Also left out are `print_info` and `PUSH_CONTENT.append` for "没有可用的侠士", which is reported as the `exhausted` flag instead. On the no-knights path, the `PUSH_CONTENT.append(find(r"<p>(.*?)</p>"))` of the page's message is left out as well: `NoKnights` records only that this path was taken. Each `setknight` request is kept as its three fields (knight id, position, type) in an `Order`, not as the rendered query string.

## Findings

| source | as written | input that shows it | evidently intended | confidence | as-written member | corrected member |
|---|---|---|---|---|---|---|
| daledou/run.py:2184-2194 | Both exchange loops of 万圣节 run `int(a)` times. `b = num / 40` is used only to compute `a`, never as a loop count, so gift B (40 lanterns) is asked for `int(a)` times, and `int(a)` is 0 or 1. | 20 lanterns: gift B and gift A are both requested, 60 lanterns' worth. 80 lanterns: nothing is exchanged. | Gift B `int(b)` times, then gift A `int(a)` times from the rest. | high; not executed | Missions.HallowmasAsWrittenOverspends | Missions.HallowmasExchanges |

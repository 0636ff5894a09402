# Process monitor: threat detection and history, in Dafny

This project models the `ProcessManager` of the process monitor back end. The
monitor lists the host's processes, flags every process that is not on a fixed
whitelist and whose cpu usage is strictly above a threshold (50 by default), keeps
every flagged event in an in-memory history, and writes the newest 100 events of
that history to a history file. The server uses the class defined in
`process_monitor/backend/app.py:14-82`. `process_monitor/backend/process_manager.py:7-75`
holds an identical copy, shifted by 7 lines (`check_threats` is at
`process_manager.py:38-56`, `_save_history` at `process_manager.py:19-21`, and so on).
The model covers both copies, and the table cites `app.py`.

Layout:

- `wrappers.dfy` (`Wrappers`) holds `Option`.
- `processes.dfy` (`Processes`) holds the records: `ProcessInfo` is what the OS reports for one process, `ProcessRecord` is a listing row and `Threat` is a history entry. An `Enumeration` is one pass of the OS process list, and `None` marks an entry whose read failed. It also holds `Picks`, the increasing positions of the selected entries, which both filters use to say "exactly these, in order".
- `threat_policy.dfy` (`ThreatPolicy`) holds the whitelist, the default threshold, the per-process test and the threat report of one pass.
- `process_listing.dfy` (`ProcessListing`) holds what `get_all_processes` returns.
- `history_store.dfy` (`HistoryStore`) holds the trimmed slice a save writes and what a load reads back. It also holds the file itself as a class: `stored` is `None` while the file is absent, and the ghost counter `writes` counts the saves.
- `process_manager.dfy` (`Manager`) holds the `ProcessManager` class. Its `history` field is updated in place by `CheckThreats`. `Valid()` says that the file always holds a suffix of the in-memory history, with at most 100 entries once it has been written.
- `api.dfy` (`Api`) holds the missing-pid check of `POST /api/terminate`.

Only the copy written to the file is cut to `history[-100:]` (`app.py:28`). The in-memory `history` is extended without bound (`app.py:60`), and `get_history` returns all of it (`app.py:81-82`). The model keeps this difference.

## Model

| member | source | states |
|---|---|---|
| ThreatPolicy.IsThreat | process_monitor/backend/app.py:49 | a whitelisted name is never a threat; cpu equal to or below the threshold is never a threat; any other name with cpu strictly above the threshold is one |
| ThreatPolicy.ThreatsOf | process_monitor/backend/app.py:45-57 | the report of one pass is no longer than the enumeration, and every reported threat is off the whitelist with cpu strictly above the threshold |
| ThreatPolicy.ThreatsInOrder | process_monitor/backend/app.py:46-55 | the report has one threat per selected entry, carrying that entry's pid, name, cpu and clock reading, in enumeration order |
| ThreatPolicy.ThreatsExactly | process_monitor/backend/app.py:45-57 | an entry is reported if and only if it was readable, its name is off the whitelist and its cpu is strictly above the threshold; the report lists these in enumeration order |
| ThreatPolicy.ExemptNeverReported | process_monitor/backend/app.py:16 | an entry named "System Idle Process", "System", "explorer.exe" or "svchost.exe", or with cpu equal to or below the threshold, is never reported |
| ThreatPolicy.MixedPassScenario | process_monitor/backend/app.py:45-57 | with the built-in whitelist and threshold 50, a whitelisted process at 99, an unreadable entry, a process at exactly 50 and one at 10 are skipped; only the process at 75 is reported |
| ProcessListing.Readable | process_monitor/backend/app.py:30-43 | the listing is no longer than the enumeration; when every read succeeds nothing is dropped; when every read fails it is empty |
| ProcessListing.ReadableInOrder | process_monitor/backend/app.py:31-40 | the listing has one record per readable entry, with pid, name, cpu, memory and status copied unchanged, in enumeration order |
| ProcessListing.ReadableExactly | process_monitor/backend/app.py:30-43 | an entry is listed if and only if its read succeeded; failed reads are skipped and the pass goes on |
| HistoryStore.Persisted | process_monitor/backend/app.py:26-28 | the saved slice has min(100, history length) entries and is the suffix of the history, in order |
| HistoryStore.Loaded | process_monitor/backend/app.py:20-24 | a load gives the empty history when the file is absent and the stored list otherwise |
| HistoryStore.ReloadThenPersist | process_monitor/backend/app.py:18-28 | loading after a save gives back exactly what was saved, and saving after a restart plus new events writes the same file as saving the untrimmed history plus those events |
| HistoryStore.LargeBatchFillsFile | process_monitor/backend/app.py:28 | when one batch of new events has 100 or more entries, the file holds exactly the newest 100 events of that batch |
| HistoryStore.HistoryFile.constructor | process_monitor/backend/app.py:21 | the file at start-up is either absent or holds a list, and it has not yet been written by this process |
| Manager.ProcessManager.constructor | process_monitor/backend/app.py:15-18 | a new manager has the four-name whitelist and starts with the history loaded from the file (empty when the file is absent) |
| Manager.ProcessManager.SaveHistory | process_monitor/backend/app.py:26-28 | the file is overwritten with the newest min(100, history length) entries, the in-memory history is not trimmed, and afterwards the file is a suffix of memory with at most 100 entries |
| Manager.ProcessManager.GetAllProcesses | process_monitor/backend/app.py:30-43 | the loop returns exactly the listing of the readable entries, in order |
| Manager.ProcessManager.CheckThreats | process_monitor/backend/app.py:45-63 | returns exactly the report of the pass; the new history is the old history followed by that report; with no threats the file is not written and keeps its content; with threats it is written once and holds the newest min(100, history length) entries; the file stays a suffix of memory with at most 100 entries |
| Manager.ProcessManager.GetHistory | process_monitor/backend/app.py:81-82 | returns the whole in-memory history, of which the file's content is a suffix |
| Manager.CheckThenRestart | process_monitor/backend/app.py:18-61 | after a check that flagged threats, a manager restarted on the same file starts from the newest 100 entries of the old history; after a quiet check it starts from the file as it was |
| Api.TerminateRoute | process_monitor/backend/app.py:107-114 | a body without "pid" gets success false, error "PID not provided" and status 400, and no termination is attempted; otherwise the given pid is passed to the termination call, its result is the success flag and the status is 200 |

## Left out

- The psutil calls are not modelled: process enumeration, `Process(pid).terminate()`, `cpu_percent`, `virtual_memory`, `boot_time` and `pids`. The enumeration is an input sequence in which `None` is a read that raised `NoSuchProcess` or `AccessDenied`.
- `terminate_process` (`app.py:65-71`) and `get_system_stats` (`app.py:73-79`) are only wrappers around those OS calls. The termination call is a parameter of `Api.TerminateRoute`.
- `datetime.now().strftime(...)` is not modelled. Each enumeration entry comes with a caller-supplied clock reading, used if that entry is flagged.
- JSON encoding and file I/O are not modelled: the file is the `HistoryFile` object. A corrupt file makes `json.load` raise, and the code does not handle that, so neither does the model.
- A request body that is not a JSON object is not modelled. `Api.TerminateRoute` takes the body as a map from keys to values.
- The background thread `monitor_processes` and its 5-second sleep (`app.py:88-96`) are not modelled. It only calls `check_threats` with the default threshold (`ThreatPolicy.DEFAULT_THRESHOLD`). The code has no locking, so concurrent calls share `history` without any synchronisation, and the model treats calls as sequential.
- Flask routing, CORS, static file serving and the 404 handler are not modelled. The exception is the missing-pid check.
- A cpu value of `None` (psutil's placeholder when access is denied) is not modelled. The code would raise `TypeError` at `app.py:49`, and the `except` there does not catch it. The model's cpu is always a number.
- A name of `None` is not modelled either. In the code it is never on the whitelist, so such a process is reported whenever its cpu is high. The model's names are strings.
- The front end (`process_monitor/frontend/script.js`) is user interface and is not part of this model.

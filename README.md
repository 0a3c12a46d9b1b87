# hamster-bridge, modelled in Dafny

hamster-bridge watches the Hamster time tracker and forwards changes to issue
trackers. A polling loop asks Hamster for today's facts once per interval.
Every fact whose start time lies in the last interval is reported as started,
and every fact whose end time lies in it is reported as stopped. Each report
goes to every registered listener in registration order. Before the loop runs,
every listener gets to add its options to one shared configuration, and a
setup function prompts for each option that is still missing. There are two
listeners. The Jira listener finds issue keys such as `PROJ-12` in a fact,
moves the issue to "Start Progress" when the fact starts, and logs whole
minutes of work when it stops. The Redmine listener finds issue numbers
followed by a space, and moves an issue from the default status to the
"In Work" status when the fact starts.

The project is organised by module:

- `wrappers.dfy` (`Wrappers`): `Option`.
- `search.dfy` (`Search`): the first element of a sequence with a property.
- `text.dfy` (`Text`): character classes, runs of characters, and decimal
  printing and parsing of integers (Python's `'%d'`).
- `facts.dfy` (`Facts`): the tracker's `Fact` record. Times are integer
  microseconds, the resolution of Python's `datetime`, so truncating to whole
  seconds is a real operation.
- `listeners.dfy` (`Listeners`): the configuration object, as a class over
  nested maps, and the listener base class with its `Configure`. `Reconcile`
  is the closed-form result of configuring, and `Prompted` is the ghost log of
  the keys whose setup function ran.
- `bridge.dfy` (`Bridge`): the bridge class, meaning the listener registry,
  the configuration pass and the polling loop. The loop's listener calls are
  recorded as a trace of `Event`s. Lemmas give the trace's exact shape,
  per-listener counts, and exactly-once reporting over contiguous windows.
- `jira.dfy` (`Jira`): the key scanner, the issue search, the start
  transitions and the worklog.
- `redmine.dfy` (`Redmine`): the number scanner, the issue lookup, the
  request rules, the status choice and the listener's state.

The external systems are parameters of the model:

- The clock and the tracker's answers arrive as a sequence of `Poll`s. Each
  `Poll` is one clock reading and the facts returned at that point.
- Issue lookups are oracles. In Jira, `confirms` says whether a key exists.
  In Redmine, `lookup` returns the issue, or `None`.
- The server's lists are inputs: Jira's transitions, and Redmine's
  activities and statuses.
- A listener's setup functions are the oracle `setup`, which gives the value
  entered for a key.

Behaviour of the code that the model follows as written:

- Each window is computed from the current clock reading as
  `[now - interval, now)`. It does not start where the previous window ended.
  Coverage without gaps or repeats is therefore a lemma with the hypothesis
  `Contiguous`, and `GapLosesTransition` shows what happens without it.
- The configuration is not split into a plain file and a sensitive file, and
  it is not written with restricted permissions. The `sensitive` flag of
  Jira's items is declared data only.
- The `try` around the loop in `run` covers `prepare`, the tracker query and
  every listener call, not just the sleep. An interrupt or `SystemExit` can
  therefore end a run in the middle of a fan-out. Any other exception from a
  hook ends the run uncaught. An example is the `AttributeError` that
  Redmine's `on_fact_stopped` raises at `hamster_bridge/listeners/redmine.py:301`.
  The model assumes that every hook returns and that the interrupt arrives
  during the sleep after the last supplied poll. In the source, the calls
  actually made are a prefix of `RunTrace`.

## Model

| member | source | states |
|---|---|---|
| Bridge.WindowAt | hamster_bridge/bridge.py:64-65 | the window's end is the clock truncated to a whole second (a multiple of a second, at most the clock, within one second of it), and its length is the interval |
| Bridge.InWindow | hamster_bridge/bridge.py:67-70 | (no contract) the test `last <= t < now` on a timestamp that is present; `Bridge.HamsterBridge.Iterate` proves the loop's own tests agree with it |
| Bridge.PrepareEvents | hamster_bridge/bridge.py:61-62 | one `prepare` call per listener, in registration order |
| Bridge.Broadcast | hamster_bridge/bridge.py:68-72 | a hook for a fact reaches the listeners one by one, in registration order |
| Bridge.IterationEvents | hamster_bridge/bridge.py:66-72 | every call of one iteration notifies a registered listener of a fact the tracker returned, for a hook whose timestamp is in the window |
| Bridge.RunTrace | hamster_bridge/bridge.py:60-72 | the run's calls begin with `prepare` once on each listener in registration order, and every later call notifies a registered listener |
| Bridge.HamsterBridge.constructor | hamster_bridge/bridge.py:22-24 | the registry starts empty |
| Bridge.HamsterBridge.AddListener | hamster_bridge/bridge.py:33-35 | a listener already registered (the same object) leaves the list unchanged; a new one is appended at the end; the list never holds duplicates |
| Bridge.HamsterBridge.Configure | hamster_bridge/bridge.py:41-51 | one fresh configuration (the stored one, or empty when there is no file) is handed to every listener in order; every listener keeps that same object; what is written back is every listener's reconciliation applied in order; the prompt log is each listener's prompts at its turn |
| Bridge.HamsterBridge.Notify | hamster_bridge/bridge.py:68-72 | the calls are exactly the broadcast of the hook for the fact, in listener order |
| Bridge.HamsterBridge.PrepareAll | hamster_bridge/bridge.py:61-62 | the calls are one `prepare` per listener, in registration order |
| Bridge.HamsterBridge.Iterate | hamster_bridge/bridge.py:66-72 | per fact, in the order returned: its start fan-out if its start time is in `[last, now)`, then its stop fan-out if its end time is |
| Bridge.HamsterBridge.Run | hamster_bridge/bridge.py:60-75 | the trace is every `prepare` followed by each poll's iteration, with the window computed from that poll's clock; a negative interval ends the run after the first iteration, and is reported as failed |
| Bridge.PromptLog | hamster_bridge/bridge.py:47-48 | one prompt log per listener |
| Bridge.PromptLogAt | hamster_bridge/bridge.py:47-48 | listener `i`'s entry is exactly the keys it prompts for on the configuration the listeners before it left |
| Bridge.ReconcileKeepsConfigured | hamster_bridge/bridge.py:47-48 | a listener's configuring never removes options another listener needs |
| Bridge.ReconcileAllConfigures | hamster_bridge/bridge.py:47-48 | after the pass, every registered listener finds all its declared options in its section |
| Bridge.ReconcileAllFixed | hamster_bridge/bridge.py:47-48 | a configuration that already satisfies every listener is not changed, and no listener prompts |
| Bridge.ConfigureIdempotent | hamster_bridge/bridge.py:41-51 | running the pass again on what it wrote changes nothing and prompts nobody |
| Bridge.BroadcastHas | hamster_bridge/bridge.py:68-69 | an event is in a broadcast iff it is that hook, for that fact, to a registered listener |
| Bridge.NotifiedIff | hamster_bridge/bridge.py:66-72 | an iteration notifies `l` of a start (stop) of `f` iff `l` is registered, `f` was returned, and its start (end) time is present and in `[last, now)` |
| Bridge.BroadcastCount | hamster_bridge/bridge.py:68-69 | with no duplicate registrations, each listener receives a broadcast once, and nothing else does |
| Bridge.FactEventsCount | hamster_bridge/bridge.py:67-72 | one fact causes at most one start and one stop call per registered listener, each exactly when its time is in the window |
| Bridge.IterationCount | hamster_bridge/bridge.py:66-72 | per iteration, a registered listener is notified once for each time the tracker returned the fact, if its time is in the window, and otherwise never |
| Bridge.FactEventsSound | hamster_bridge/bridge.py:67-72 | every call a fact causes is a notification of that fact, to a registered listener, for a hook whose timestamp is in the window |
| Bridge.PollEventsNotify | hamster_bridge/bridge.py:63-72 | every call the polling loop makes notifies a registered listener |
| Bridge.PollCount | hamster_bridge/bridge.py:63-72 | over a run, a registered listener is notified of a hook for a fact once per copy of the fact returned by a poll whose window holds the fact's timestamp for that hook, whatever the other polls return |
| Bridge.OccurrencesAreHits | hamster_bridge/bridge.py:63-72 | when each poll whose window holds the timestamp returns the fact once, the copies counted are the windows that hold the timestamp |
| Bridge.NoHitsAfter | hamster_bridge/bridge.py:64-67 | with contiguous windows, a time at or after the last window's end is in no window |
| Bridge.ExactlyOneWindow | hamster_bridge/bridge.py:64-67 | with contiguous windows, every time between the first window's start and the last window's end is in exactly one window |
| Bridge.ReportedOnce | hamster_bridge/bridge.py:60-72 | end to end, with contiguous windows: a start or stop inside the polled span, returned once by the poll whose window holds it, is reported to every registered listener exactly once; other polls may return the fact or not |
| Bridge.StoppedBetweenPolls | hamster_bridge/bridge.py:60-72 | with one-second windows, a fact that stops half-way through the second window, and that only the second poll returns, is reported as stopped exactly once |
| Bridge.GapLosesTransition | hamster_bridge/bridge.py:64-70 | a time that falls in no window (a gap between polls) is never reported to anyone |
| Listeners.GetOption | hamster_bridge/listeners/jira.py:81 | an option is found iff its section and key exist, and then it is the stored value |
| Listeners.Reconcile | hamster_bridge/listeners/__init__.py:10-15 | without a name or without items nothing changes; otherwise the section exists and holds every declared key, existing values are kept, new values come from the setup function, no undeclared key is added, and no other section changes or disappears |
| Listeners.MissingExactly | hamster_bridge/listeners/__init__.py:13-15 | a key is prompted for iff it is declared and missing from the section, and at most once |
| Listeners.PromptedExactly | hamster_bridge/listeners/__init__.py:10-15 | a listener prompts only when it has a name and items, and then exactly for its declared keys that its section lacks, each once |
| Listeners.MissingNone | hamster_bridge/listeners/__init__.py:14 | a section holding every declared key causes no prompt |
| Listeners.AlreadyConfigured | hamster_bridge/listeners/__init__.py:10-15 | an already-configured installation is neither prompted nor changed |
| Listeners.ReconcileIdempotent | hamster_bridge/listeners/__init__.py:8-15 | configuring a second time prompts for nothing and changes nothing |
| Listeners.ConfigParser.constructor | hamster_bridge/bridge.py:42-45 | the configuration starts as the stored sections |
| Listeners.ConfigParser.AddSection | hamster_bridge/listeners/__init__.py:11-12 | adds an empty section (the library refuses an existing one) |
| Listeners.ConfigParser.Set | hamster_bridge/listeners/__init__.py:15 | sets one option of an existing section and nothing else |
| Listeners.HamsterListener.constructor | hamster_bridge/listeners/__init__.py:5-6 | a listener carries its name and its declared items and holds no configuration yet |
| Listeners.HamsterListener.Configure | hamster_bridge/listeners/__init__.py:8-15 | stores the configuration object it is given; the configuration becomes the reconciliation of what it was; the setup functions invoked are exactly the prompt log |
| Listeners.HamsterListener.FillSection | hamster_bridge/listeners/__init__.py:13-15 | in an existing section, every declared key that is missing gets its setup value, in declaration order; existing values and other sections stay; the setup functions invoked are exactly the missing keys, each once |
| Listeners.HamsterListener.Prepare | hamster_bridge/listeners/__init__.py:17-18 | has no effect |
| Listeners.HamsterListener.OnFactStarted | hamster_bridge/listeners/__init__.py:20-21 | has no effect |
| Listeners.HamsterListener.OnFactStopped | hamster_bridge/listeners/__init__.py:23-24 | has no effect |
| Jira.ConfiguredHasOptions | hamster_bridge/listeners/jira.py:21-42 | after configuring, the four Jira options can be read |
| Jira.OnlyPasswordSensitive | hamster_bridge/listeners/jira.py:21-42 | only `password` is declared sensitive |
| Jira.MatchAt | hamster_bridge/listeners/jira.py:44 | a match at a position ends after it and inside the text |
| Jira.MatchAtSound | hamster_bridge/listeners/jira.py:44 | a match is an issue key (upper-case letter; upper-case letters or digits; dash; digits) and is not followed by a digit |
| Jira.MatchAtComplete | hamster_bridge/listeners/jira.py:44 | wherever an issue key starts, the scanner finds a match there reaching at least as far (it is greedy) |
| Jira.SpansFrom | hamster_bridge/listeners/jira.py:44 | the matches lie inside the text, in increasing order, and do not overlap |
| Jira.SpansAreMatches | hamster_bridge/listeners/jira.py:44 | every reported span is the scanner's match at its start |
| Jira.SpansLeftmost | hamster_bridge/listeners/jira.py:44 | no match starts at a position that no reported span covers |
| Jira.SpansSpec | hamster_bridge/listeners/jira.py:44 | every reported span holds an issue key not followed by a digit, and every issue key in the text overlaps a span |
| Jira.Candidates | hamster_bridge/listeners/jira.py:44 | `findall`, left to right: each candidate is the text at its span, an issue key that no further digit extends, and every issue key in the text overlaps a candidate |
| Jira.SingleKey | hamster_bridge/listeners/jira.py:44 | a text that is one issue key yields just that key |
| Search.FirstWhere | hamster_bridge/listeners/jira.py:67-76 | the result is the first candidate the tracker confirms (also the first status a Redmine filter accepts), with every earlier one rejected; `None` iff none is accepted |
| Jira.Probed | hamster_bridge/listeners/jira.py:67-76 | the lookups made stop at the first confirmed candidate |
| Jira.OnlyProbedMatter | hamster_bridge/listeners/jira.py:71-73 | the outcome depends only on the lookups actually made: no candidate after the first success is ever asked about |
| Search.FirstWhereAppend | hamster_bridge/listeners/jira.py:67-68 | the search over two lists in a row is the first list's result, and otherwise the second's |
| Jira.IssueFromFieldsIsFirst | hamster_bridge/listeners/jira.py:65-78 | the nested search (text by text, candidate by candidate) equals the first confirmed candidate over all texts in order |
| Jira.AllCandidatesAreKeys | hamster_bridge/listeners/jira.py:65-68 | every candidate of every text is an issue key |
| Jira.IssueFromFact | hamster_bridge/listeners/jira.py:60-78 | the issue is the first confirmed candidate over the activity and then the tags in order; it is an issue key, every earlier candidate was rejected, and `None` means no candidate was confirmed |
| Jira.StartCalls | hamster_bridge/listeners/jira.py:88-91 | a transition call is made iff it is for the issue and a transition with that id is named `'Start Progress'`; there are at most as many calls as transitions offered |
| Jira.OnFactStarted | hamster_bridge/listeners/jira.py:80-93 | no calls unless `auto_start` is `'y'` and an issue is found; otherwise every `'Start Progress'` transition offered, in order |
| Jira.WholeMinutes | hamster_bridge/listeners/jira.py:96 | the duration truncated toward zero to whole minutes, for positive and negative durations |
| Text.IntToString | hamster_bridge/listeners/jira.py:96 | `'%d'`: the text starts with a minus sign iff the integer is negative, then has digits without a leading zero, and it parses back to the integer |
| Jira.TimeSpent | hamster_bridge/listeners/jira.py:96 | `'%dm'`: the text ends in `m` and reads back as exactly the truncated whole minutes |
| Jira.OnFactStopped | hamster_bridge/listeners/jira.py:95-105 | a worklog is written iff an issue is found; it goes to that confirmed issue with the whole minutes and the fact's description as comment |
| Redmine.ConfiguredHasKeys | hamster_bridge/listeners/redmine.py:33-40 | after configuring, the five Redmine options are present, which is what the request, preparation and start steps require |
| Redmine.MatchAt | hamster_bridge/listeners/redmine.py:43 | a match at a position ends after it at a space inside the text, and everything from the position up to that space is a digit |
| Redmine.MatchAtComplete | hamster_bridge/listeners/redmine.py:43 | wherever digits followed by a space start, the scanner matches there with exactly that run |
| Redmine.MatchAtShift | hamster_bridge/listeners/redmine.py:43 | a match preceded by a digit is also the match one position earlier, ending at the same space |
| Redmine.MatchIsRun | hamster_bridge/listeners/redmine.py:43 | a match that does not continue an earlier match is a maximal digit run followed by a space |
| Redmine.SpansFrom | hamster_bridge/listeners/redmine.py:43 | the matches lie inside the text, in increasing order, and do not overlap |
| Redmine.SpansAreRuns | hamster_bridge/listeners/redmine.py:43 | every reported span is all digits, followed by a space, and not preceded by a digit |
| Redmine.SpansLeftmost | hamster_bridge/listeners/redmine.py:43 | no match starts at a position that no reported span (with its space) covers |
| Redmine.SpansSpec | hamster_bridge/listeners/redmine.py:43 | every reported span is a maximal non-empty digit run directly followed by a space, and every digits-then-space text overlaps a span or its space |
| Redmine.Candidates | hamster_bridge/listeners/redmine.py:43 | `findall`, left to right: each candidate is the text at its span, a maximal non-empty digit run directly followed by a space, and every digits-then-space text overlaps a candidate or its space |
| Redmine.CandidatesAreNumbers | hamster_bridge/listeners/redmine.py:43 | each reported number with its space is digits followed by a space |
| Redmine.IssueFromFact | hamster_bridge/listeners/redmine.py:185-201 | no candidates gives `None`; otherwise the result is the lookup of the first candidate, `None` included |
| Redmine.OnlyFirstLookedUp | hamster_bridge/listeners/redmine.py:195-199 | only the first candidate is looked up: the answers for the others never matter |
| Redmine.NoNumberNoIssue | hamster_bridge/listeners/redmine.py:195-201 | an activity without digits followed by a space has no issue |
| Redmine.WithTrailingSlash | hamster_bridge/listeners/redmine.py:105-107 | the base URL ends in `'/'`; it is unchanged iff it already did, and otherwise gains exactly one `'/'` |
| Redmine.TrailingSlashIdempotent | hamster_bridge/listeners/redmine.py:105-107 | adding the slash twice is adding it once |
| Redmine.VerifySsl | hamster_bridge/listeners/redmine.py:99 | verification is on iff the option's text is exactly `'y'` |
| Redmine.RequestResource | hamster_bridge/listeners/redmine.py:94-115 | the request uses the given method, the API key and a JSON content type; verification iff `verify_ssl` is `'y'`; a body iff data is given and the method is put or post, and then the data itself; URL is the slash-terminated server URL followed by the resource |
| Redmine.RecordActivities | hamster_bridge/listeners/redmine.py:256-257 | the table's ids are the old ones plus every listed activity's id |
| Redmine.RecordActivitiesValues | hamster_bridge/listeners/redmine.py:256-257 | each id maps to the name of its last listed activity; ids not listed keep their old name |
| Redmine.RedmineListener.constructor | hamster_bridge/listeners/redmine.py:55-79 | no activities, no statuses, no current issue |
| Redmine.RedmineListener.FilterIssueStatuses | hamster_bridge/listeners/redmine.py:203-235 | the default status becomes the first with a true `is_default`, the in-work status the first named 'In Bearbeitung' or 'In Work'; one that is not found keeps its previous value; nothing else changes |
| Redmine.RedmineListener.Prepare | hamster_bridge/listeners/redmine.py:237-262 | verification follows `verify_ssl`; the activities are recorded in order; then the statuses are filtered |
| Redmine.RedmineListener.OnFactStarted | hamster_bridge/listeners/redmine.py:264-286 | nothing unless `auto_start` is `'y'`; then the current issue is the one found (`None` if none); only an issue whose status equals the default status is set to the in-work status and saved; a status that is needed but missing raises |

## Left out

- Hamster's D-Bus client and `get_todays_facts` are foreign calls. The facts of each poll are inputs.
- `datetime.now` and `time.sleep` are inputs: each poll supplies its clock reading, and the sleep is not modelled except for its refusal of a negative interval.
- An interrupt, `SystemExit` or a hook's exception in the middle of an iteration is not modelled. The supplied polls are the ones completed before the interrupt, and every hook returns.
- The model's listener hooks are not dispatched. `Run` records the calls it makes as a trace.
- Reading and writing the configuration file, `os.path.expanduser` and the check that the file exists are I/O. `Configure` takes the stored sections, or `None` for no file, and returns what would be written.
- The configuration library's DEFAULT section is not modelled. Neither is its lower-casing of option names, which is the identity on the declared lower-case keys.
- A setup function failing (end of input while prompting) is not modelled.
- All calls to the Jira server, the Redmine server and `requests` are network calls. They are replaced by oracles and input lists, and the request is returned as a value rather than sent.
- Jira's `prepare` is network only, so it is not modelled. It builds the client at `hamster_bridge/listeners/jira.py:53`, outside the `try`, so a failure there propagates and ends `run`. Only the `projects()` check at lines 55-58 is caught and logged.
- Jira calls `get_from_config`, which the listener base class does not define. It is modelled as a lookup of the option in the listener's own section, with a missing option counting as "not `'y'`".
- Jira.OnFactStarted: a server error during the lookup or a transition is caught and logged. The model does not represent such errors, so it gives the calls that would be made.
- Jira.OnFactStopped: the seconds-to-minutes division happens in floating point before truncation. The model divides microseconds exactly, which differs only for durations where float rounding crosses a minute boundary.
- Redmine.RedmineListener.Prepare: a server error while listing the activities stops recording partway and is logged. The model records the whole list it is given.
- Redmine.RedmineListener.OnFactStarted: a lookup error other than "not found" propagates in the source. It is not modelled. The status update is modelled as replacing the issue's status id, and the save as appending the issue to `saved`.
- Redmine.RedmineListener.OnFactStarted: the error raised on a missing status ends the whole run in the source. The model reports it as `raised` and stops there.
- The Redmine methods `__update_issue`, `__log_work`, `__exists_issue` and `on_fact_stopped` use names the code does not define (`self.resources`, `__get_issue_id_from_fact`), so they cannot run. They are not modelled. Neither is the hours formatting `'%0.2f'`, which is floating point.
- An empty status list only produces a log message. Logging in general is not modelled.
- `hamster_bridge/__init__.py` is not modelled: argument parsing, logging setup and dynamic plugin loading. It passes arguments (`save_passwords`, a configuration path) that the bridge's methods do not accept.
- `ConfigValue`, imported by the Jira listener, is not defined by the listener base class. The base class also unpacks items as pairs. The model uses one item record with a `sensitive` flag for both listeners, and reconciliation ignores the flag.
- `setup.py` is packaging.

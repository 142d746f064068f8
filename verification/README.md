# Redis metrics exporter, qualification harness and alert sink: a verified model

Three stand-alone Python programs of the repository, modelled and proved in Dafny.

**The Redis metrics exporter** polls a Redis server over a hand-written RESP2 client and turns repeated
snapshots of the server into event counters that another thread serves to Prometheus.
`Text`, `Resp` and `Client` hold the wire: the recursive reader over a byte stream, the command printer, the
paging loop, and the class `RedisClient` that consumes its input in place. `Poll` says what one poll learns from
a connection (an `Observation`: a snapshot of the binding sets, a page of the ACL log, the usability of the
default user, the exception that ended it); it does not depend on the exporter's state. `Transcript` explains a
completed poll by the commands sent and their answers; `Truncation` and `Interruption` say what becomes of a reply,
and of a poll, when the connection gives out on the way. `AclLog` and `Bindings` are the accumulators,
`AclAccounting` what they add up to. `Registry` is the `Metrics` object and the page it renders, `Exposition` a
reader that recovers the registry from the page, `Outcomes` what the exporter says of its own polls. The class
`Exporter` does the poll step by step; `PollOnce` is proved to move the accumulators by `Advance` and to make the
counter writes `Writes`, in order, whatever the connection does. `Runs` proves what holds after any run of polls,
`Scrapes` what a scrape can see between any two counter writes of any run, `Increase` what a scraper that allows
for restarts makes of samples, `Processes` the main loop and such a scraper over many processes.

**The qualification harness** uploads a workbook, starts a job, polls it, checks its results and artifacts, and
ends with an exit code. `PollJob` is the polling loop against a declarative trace specification; `Qualify` the
evidence directory, the binding checks and the artifact loop; `Pipeline` the decision pipeline and `main`, with
the exact condition for every documented exit code; `Reports` which reports get validated; `Multipart` the upload body and its receiver.

**The alert sink** appends each delivery to a log file and cuts the file to its newest half when it has outgrown
its limit: `AlertSink`.

Code that updates things in place is modelled as classes and loops (`RedisClient`, `Metrics`, `Exporter`,
`EvidenceDir`, `Sink`, `PollJob.PollJob`, the artifact loop), each method proved against a specification function
or predicate, about which the lemmas speak. `Ordering`, `Sums` and `Json` are small foundations: Python's
`sorted`, finite sums, JSON values.

Conventions. A byte is written as the character with its code. Counters are integers (the code keeps floats with
integer values). A Python dict whose order matters is the list of its items in insertion order. Randomness, the
clock, files and the network are parameters: a connection is the bytes it will deliver and how it ends, a run of
the harness is a `World` of answers and a clock.

## Findings

Where the code does not do what its documentation says, or a natural property fails, the model follows the code
and states the exact condition.

- The ACL counters are seeded with zeros so that a restart leaves no gap (comment at
  `config/monitoring/exporters/redis_monitor_exporter.py:200-203`), but the first page returns before publishing:
  the series appear exactly from the second page on (`Scrapes.AclSeriesAppearIff`).
- The published default-user counter drops to 0 in the middle of every poll that publishes the ACL counters over
  a non-zero value, and only in those (`Scrapes.RunDipsIff`). A scraper that samples inside the dip counts the old
  value again (`Scrapes.DipOverCounts`, for any scrapes `Scrapes.SurplusOfDips`). A poll that fails behind the dip without a denial leaves the 0 standing
  (`Scrapes.DefaultAtEnd`).
- The bootstrap adopts a page of 128 entries while the server keeps 256 (`config/redis/redis.conf:11`): old
  entries stay uncounted exactly when every one that is charged later was on that page
  (`AclAccounting.OldEntriesUncountedIff`).
- The count of a new ACL entry is taken as it is; a counter goes down exactly on a new entry with a negative count
  (`AclAccounting.NeverLoweredIff`). The growth of an entry that falls and rises again is counted again
  (`AclAccounting.AclClosedForm` gives the exact surplus).
- A connection that closes cleanly within a reply is noticed only in part: of a text line one byte is enough, of a
  number one digit, of a bulk string one digit of its length (`Truncation.UnnoticedIff`, which also says when the
  value is right all the same). The poll then goes on with the shortened value (`Interruption.UnnoticedCloseLearns`);
  that it then learns something wrong needs a harmful cut of the snapshot's last reply, of the ACL LOG's, or of the
  last two of the poll (`Interruption.UnnoticedCloseHarms`, `Runs.UnnoticedCloseUpdates`).
- A clean close in front of the dry run's reply is taken for a usable default user: the poll succeeds and may count a
  rise that did not happen (`Interruption.ClosedPollAllOrNothing`, `Runs.ClosedPollUpdates`). A close elsewhere between
  replies, and a break with an exception at any byte, is all-or-nothing (`Runs.CutPollUpdatesAllOrNothing`).
- A simple string survives the reader exactly when it has no line feed and does not end in a carriage return
  (`Resp.SimpleRoundTripIff`).
- A scan whose replies do not reach cursor 0 within the pages allowed returns what it has (`Client.ScanCompleteIff`).
- The commands sent include AUTH and SELECT, which the list at
  `config/monitoring/exporters/redis_monitor_exporter.py:10-11` omits; TYPE, which it has, is never sent.
- A direct fallback is reported with exit code 9 only when its job completed without warnings; with warnings the
  exit code is 0 (`Pipeline.FallbackWithWarningsPasses`), although `scripts/e2e_qualify.py:18-19` says it is always
  reported distinctly. If the session's job carries an empty `job_id` that is not null, the fallback polls that
  one and makes no direct call (`Pipeline.EmptyIdPolledIff`, `Pipeline.DirectCallIff`).
- One artifact of both kinds meets the Markdown requirement, and if it is the only report the Markdown validator has
  no say in the exit code (`Reports.MarkdownUnvalidatedIff`).
- A 404 makes a job JOB_LOST even if it was never seen (`PollJob.NotFoundLoses`; `scripts/e2e_qualify.py:352-353` says
  after it was known), and a read timeout of a single request ends the polling as a timeout (`PollJob.TimedOutIff`).
- The branch for an unexpected state at `scripts/e2e_qualify.py:692-693` is never taken (`Pipeline.ReturnedJobsEnd`).
- The multipart body is read back as the workbook exactly when the workbook does not contain the delimiter and the
  file name, which goes into a header unescaped, holds no blank line (`Multipart.UploadRoundTripIff`).

## Model

| member | source | states |
|---|---|---|
| `Resp.ReadEncoded` | config/monitoring/exporters/redis_monitor_exporter.py:86-109 | Round trip at any nesting depth: whatever well-formed reply is sent (bulk data unrestricted) and whatever follows it, the reader yields the value and leaves exactly what follows; a reply holding errors raises the first one and leaves everything behind that line |
| `Resp.ReadEncodedAll` | config/monitoring/exporters/redis_monitor_exporter.py:104-108 | The same for the elements of an array, one after the other |
| `Resp.ErrorLineRead` | config/monitoring/exporters/redis_monitor_exporter.py:91-95 | An error line raises the authentication exception if and only if its text holds WRONGPASS, NOAUTH or NOPERM, and the plain one otherwise, with the text, and is consumed alone |
| `Resp.UnknownLineRead` | config/monitoring/exporters/redis_monitor_exporter.py:86-109 | An empty line, or one with any other first character, is an unexpected reply type |
| `Resp.BadNumberRead` | config/monitoring/exporters/redis_monitor_exporter.py:96-105 | A number or length that `int` does not read is a ValueError that quotes it |
| `Resp.NegativeBulkRead` | config/monitoring/exporters/redis_monitor_exporter.py:98-103 | A length below -1 of a bulk string: -2 takes nothing, -3 all there is less two bytes, anything less is a ValueError |
| `Resp.NegativeArrayRead` | config/monitoring/exporters/redis_monitor_exporter.py:104-108 | A negative length of an array other than -1 gives the empty list |
| `Resp.SimpleRoundTripIff` | config/monitoring/exporters/redis_monitor_exporter.py:84-90 | A simple string comes back if and only if it holds no line feed and does not end in a carriage return |
| `Resp.ReadCommand` | config/monitoring/exporters/redis_monitor_exporter.py:86-117 | `_read_reply` inverts the encoding of `command`, for any arguments |
| `Resp.CommandPrefixFree` | config/monitoring/exporters/redis_monitor_exporter.py:111-116 | The command encoding is injective and prefix-free |
| `Resp.ReplyPrefixFree` | config/monitoring/exporters/redis_monitor_exporter.py:86-109 | Equal reply streams carry equal values and split at the same place |
| `Resp.CutReply` | config/monitoring/exporters/redis_monitor_exporter.py:80-109 | When the stream breaks with an exception, a reply is read as from the whole stream or the exception is raised |
| `Resp.ShortBodyUndetected` | config/monitoring/exporters/redis_monitor_exporter.py:102-103 | When the peer just closes, a short bulk body is returned less its last two bytes, without an error |
| `Resp.ShortBodyNoticedIff` | config/monitoring/exporters/redis_monitor_exporter.py:102-103 | A bulk body that does not arrive whole raises if and only if the connection breaks rather than closes |
| `Truncation.UnnoticedIff` | config/monitoring/exporters/redis_monitor_exporter.py:80-109 | A clean close within a well-formed reply: exactly the prefixes that are read without an exception, and exactly those of them that give the value sent, at any nesting depth |
| `Truncation.LastElementDecides` | config/monitoring/exporters/redis_monitor_exporter.py:104-108 | A cut within the last element of an array is noticed, and harmful, exactly as in that element alone |
| `Truncation.LastDigitLost` | config/monitoring/exporters/redis_monitor_exporter.py:97-108 | Every ACL LOG page whose last field is a number of two digits or more has a cut that is neither noticed nor harmless |
| `Text.PyIntPrefix` | config/monitoring/exporters/redis_monitor_exporter.py:97-105 | The first digits of a printed number read as a number, the right one only if they are all |
| `Text.PyIntDecimal` | config/monitoring/exporters/redis_monitor_exporter.py:97-105 | Reading a printed number gives the number, negative ones included |
| `Text.DecimalIsBaseTen` | config/monitoring/exporters/redis_monitor_exporter.py:97-105 | What is printed is base ten: a digit below ten, and one more digit for ten times as much and that digit |
| `Text.DecimalSign` | config/monitoring/exporters/redis_monitor_exporter.py:97-105 | A negative number is printed as a minus sign and its opposite, any other without a sign |
| `Text.ParseNextDigit` | config/monitoring/exporters/redis_monitor_exporter.py:97-105 | What is read is base ten: a further digit counts once and what stands before it ten times |
| `Text.ParseUnderscore` | config/monitoring/exporters/redis_monitor_exporter.py:97-105 | An underscore between digits counts nothing |
| `Text.PyIntReads` | config/monitoring/exporters/redis_monitor_exporter.py:97-105 | `int` reads every numeral (single underscores between digits allowed) with a sign or none and blanks around it |
| `Text.PyIntOnlyReads` | config/monitoring/exporters/redis_monitor_exporter.py:97-105 | And nothing else |
| `Client.RedisClient.ReadLine` | config/monitoring/exporters/redis_monitor_exporter.py:80-84 | The stateful line reader is the line function on the unread input and consumes exactly that line |
| `Client.RedisClient.ReadReply` | config/monitoring/exporters/redis_monitor_exporter.py:86-109 | The stateful recursive reader is the reply function on the unread input, value, exception and rest |
| `Client.RedisClient.ReadItems` | config/monitoring/exporters/redis_monitor_exporter.py:104-108 | The comprehension reads its elements in order and stops at the first exception |
| `Client.RedisClient.Command` | config/monitoring/exporters/redis_monitor_exporter.py:111-117 | Sends the encoded command and nothing else, reads one reply, and adds one exchange to the conversation |
| `Client.RedisClient.ScanMatch` | config/monitoring/exporters/redis_monitor_exporter.py:119-128 | The paging loop is the scan function, state and result |
| `Client.ScanCollects` | config/monitoring/exporters/redis_monitor_exporter.py:119-128 | A scan that returns has sent a chain of SCANs, each from the cursor before, down to cursor 0 or to the last page allowed, and returns all their batches in order |
| `Client.ScanCompleteIff` | config/monitoring/exporters/redis_monitor_exporter.py:119-128 | A scan that returns is complete if and only if one of the first `pages` replies carries cursor 0; otherwise it returns what it has after all of them |
| `Client.ScanReplyParts` | config/monitoring/exporters/redis_monitor_exporter.py:125-126 | What Redis answers to a SCAN is taken apart into its cursor and its batch |
| `Client.PyStrIs` | config/monitoring/exporters/redis_monitor_exporter.py:114 | `str()` of the replies that go into commands and labels |
| `Client.CommandAligned` | config/monitoring/exporters/redis_monitor_exporter.py:86-117 | One command against any server consumes exactly its own reply; after a value the connection stands between two replies |
| `Client.SetOfMembers` | config/monitoring/exporters/redis_monitor_exporter.py:309-310 | `set(members or [])` has exactly the members answered; it raises exactly for a number other than 0 and for a list with a list in it |
| `Poll.ConversationAligned` | config/monitoring/exporters/redis_monitor_exporter.py:225-248 | In every poll against any server the n-th command gets the n-th reply, nothing is sent after a command has raised, and only reading commands are sent |
| `Poll.SnapshotHolds` | config/monitoring/exporters/redis_monitor_exporter.py:305-311 | The snapshot has exactly the keys scanned, each with exactly the elements of the answer to its last SMEMBERS (none for an empty answer) |
| `Poll.FloatOfIs` | config/monitoring/exporters/redis_monitor_exporter.py:300 | `float()` takes numbers, and texts as numbers, and raises with its own words otherwise |
| `Transcript.CompletedPoll` | config/monitoring/exporters/redis_monitor_exporter.py:268-356 | A completed poll sent exactly these commands in this order, and its snapshot, page and usability are what the answers say, the snapshot element by element |
| `Transcript.SnapshotEdges` | config/monitoring/exporters/redis_monitor_exporter.py:305-311 | The edges of a completed poll's snapshot are exactly the pairs of a key scanned and a member in the answer to the last SMEMBERS for it |
| `Transcript.ScanCommandsAre` | config/monitoring/exporters/redis_monitor_exporter.py:119-127 | The two scans, argument by argument |
| `Interruption.CutPollLearnsAllOrNothing` | config/monitoring/exporters/redis_monitor_exporter.py:225-248 | A poll whose connection breaks with an exception at any byte learns of each of the three things what the undisturbed poll learns, or nothing |
| `Interruption.PollLearns` | config/monitoring/exporters/redis_monitor_exporter.py:225-248 | Exactly what a poll learns whose replies give out behind exchange `m` with an exception: all, or all but the usability, which a RespError turns into 1, or the snapshot if it was complete |
| `Interruption.BrokenPollLearns` | config/monitoring/exporters/redis_monitor_exporter.py:225-248 | That for a break at any byte |
| `Interruption.ErrorReplyEnds` | config/monitoring/exporters/redis_monitor_exporter.py:225-248 | A poll that gets to an error reply sends nothing behind it and ends with the authentication exception if and only if the reply holds one of the three words; at the dry run it succeeds and counts as usable |
| `Interruption.ClosedPollLearns` | config/monitoring/exporters/redis_monitor_exporter.py:225-248 | That for a clean close between two replies |
| `Interruption.NoticedCloseLearns` | config/monitoring/exporters/redis_monitor_exporter.py:225-248 | That for a clean close within a reply, where the reader raises |
| `Interruption.UnnoticedCloseLearns` | config/monitoring/exporters/redis_monitor_exporter.py:80-109 | A clean close within a reply that the reader does not notice: the poll is that of a server which sent the shortened value and closed behind it |
| `Interruption.HarmlessCloseLearns` | config/monitoring/exporters/redis_monitor_exporter.py:80-109 | An unnoticed close that does no harm to its reply: exactly what a close right behind that reply does |
| `Interruption.UnnoticedCloseHarms` | config/monitoring/exporters/redis_monitor_exporter.py:225-248 | Any unnoticed close next to the undisturbed poll: a poll that needs no further reply learns the same; the snapshot is another only if the shortened reply is its last, the page only if it is the one in front of the dry run |
| `Interruption.PageCommands` | config/monitoring/exporters/redis_monitor_exporter.py:331-345 | With a page learnt the last two commands of a poll are the ACL LOG and the dry run |
| `Interruption.SnapshotCommand` | config/monitoring/exporters/redis_monitor_exporter.py:306-310 | A snapshot with any set in it ends with a SMEMBERS |
| `Interruption.ClosedPollAllOrNothing` | config/monitoring/exporters/redis_monitor_exporter.py:332-337 | On a clean close between replies snapshot and page are all-or-nothing; the usability is unknown, or the undisturbed one, or 1, this last exactly when the close falls in front of the dry run's reply |
| `Interruption.NothingLeftForDryRun` | config/monitoring/exporters/redis_monitor_exporter.py:333-337 | With nothing left to read the dry run counts as usable if and only if the connection was closed rather than broken |
| `Poll.Observe` | config/monitoring/exporters/redis_monitor_exporter.py:225-248 | What is learnt is ordered: later things only after earlier ones, and all of them exactly when there is no exception |
| `Exporter.Exporter.constructor` | config/monitoring/exporters/redis_monitor_exporter.py:191-222 | Starts from the initial accumulators: eleven zero counters, nothing adopted |
| `Exporter.Exporter.PollOnce` | config/monitoring/exporters/redis_monitor_exporter.py:225-248 | Whatever the connection does, the accumulators move by what the poll learnt and the counter writes are made in the order specified |
| `Exporter.Exporter.Session` | config/monitoring/exporters/redis_monitor_exporter.py:228-229 | The session holds the conversation of the specification and leaves its effect up to the exception |
| `Exporter.Exporter.Conclude` | config/monitoring/exporters/redis_monitor_exporter.py:230-242 | Success and the two handlers: what each counts, and the detector fed with the text of the exception |
| `Exporter.Exporter.CollectBindings` | config/monitoring/exporters/redis_monitor_exporter.py:305-324 | The binding part updates state and counter after the complete snapshot or not at all |
| `Exporter.Exporter.CollectAclLog` | config/monitoring/exporters/redis_monitor_exporter.py:344-394 | The ACL part: adopts the first page silently, counts and publishes a later one, changes nothing on an exception |
| `Exporter.Exporter.ProbeDefaultUser` | config/monitoring/exporters/redis_monitor_exporter.py:332-342 | The dry run: any RespError means usable (an error reply, a reply of unknown type, a closed connection), another exception ends the poll before anything changes |
| `Exporter.Exporter.NoteProtectedModeNoPass` | config/monitoring/exporters/redis_monitor_exporter.py:250-266 | The second detector counts a rise exactly on the protected-mode denial |
| `Exporter.ProtectedNoPassIff` | config/monitoring/exporters/redis_monitor_exporter.py:259 | A text is that denial if and only if it holds both wordings |
| `Exporter.Exporter.CountEntry` | config/monitoring/exporters/redis_monitor_exporter.py:363-391 | One entry in place: the map gets the new count, exactly the counters of its class get the growth |
| `Exporter.Exporter.PublishAclCounters` | config/monitoring/exporters/redis_monitor_exporter.py:392-394 | The publishing loop writes every counter once, in the order of the dict |
| `Exporter.ReadEntries` | config/monitoring/exporters/redis_monitor_exporter.py:345-356 | The parsing loop is the page function, exceptions included |
| `AclLog.ParseListed` | config/monitoring/exporters/redis_monitor_exporter.py:345-356 | The page a server lists is parsed back entry by entry, in order, none left out |
| `AclLog.PageParsed` | config/monitoring/exporters/redis_monitor_exporter.py:345-356 | The whole reply: the entries listed in order, none for an empty answer, a TypeError for a number |
| `AclLog.IntFieldIs` | config/monitoring/exporters/redis_monitor_exporter.py:352-353 | A number is taken as it is, a text as `int` reads it, nothing else; a missing field has its default |
| `AclLog.UnreadableSkipped` | config/monitoring/exporters/redis_monitor_exporter.py:351-355 | An entry whose id or count cannot be read is left out, and the rest is read on |
| `AclLog.LowerIs` | config/monitoring/exporters/redis_monitor_exporter.py:373 | Lower-casing changes the capital letters, each to its own small one, and nothing else |
| `AclLog.Classify` | config/monitoring/exporters/redis_monitor_exporter.py:372-391 | Every entry is charged to one of the seven counters of the partition; reason `auth` to the authentication failures, and the emergency user also to its own |
| `AclLog.ClassifiedAsDenialIff` | config/monitoring/exporters/redis_monitor_exporter.py:372-391 | By the fields alone: an entry is charged to a role and `destructive` if and only if its reason is not `auth`, its user has that role, and its object up to the first bar is, but for case, a listed command; to `other` if and only if it is not |
| `AclLog.NamedRoles` | config/monitoring/exporters/redis_monitor_exporter.py:46-50 | A named role is the user name without its prefix; all other users share role `other` |
| `AclLog.SubcommandAndCaseIgnored` | config/monitoring/exporters/redis_monitor_exporter.py:373-386 | The class depends on the command before the first `|`, whatever its case, on user and on reason, and on nothing else |
| `AclLog.SameCounterIff` | config/monitoring/exporters/redis_monitor_exporter.py:386-388 | Two denials share a counter if and only if role and category agree |
| `AclLog.ChargeGet` | config/monitoring/exporters/redis_monitor_exporter.py:377-391 | A charge moves exactly the counters its class hits, by the growth |
| `AclLog.SeededKeysDistinct` | config/monitoring/exporters/redis_monitor_exporter.py:204-213 | The seeded keys are eleven different ones: nine of the partition and two more |
| `AclAccounting.CountedExactly` | config/monitoring/exporters/redis_monitor_exporter.py:363-391 | From any state: a counter has grown by the sum, over the ids charged to it, of last minus first count plus what the count lost on the way, though ids leave the page and return |
| `AclAccounting.PagesFlatten` | config/monitoring/exporters/redis_monitor_exporter.py:357-391 | After the first page the division of the observations into pages does not matter |
| `AclAccounting.AclClosedForm` | config/monitoring/exporters/redis_monitor_exporter.py:357-391 | Closed form of every counter after any pages (entries of one id being of one class); it is the plain net growth if and only if no id charged to it was ever seen to fall |
| `AclAccounting.CountersByField` | config/monitoring/exporters/redis_monitor_exporter.py:344-391 | Every counter by the fields of the entries: role and category hold the growth of exactly the denials of such commands to such users, authentication failures that of reason `auth`, emergency use that of the emergency user |
| `AclAccounting.NetGrowth` | config/monitoring/exporters/redis_monitor_exporter.py:357-391 | With counts that never fall, a counter is the sum of last observed minus bootstrap counts |
| `AclAccounting.LastSeenIsLast` | config/monitoring/exporters/redis_monitor_exporter.py:364-365 | The last observed count is the count of the last entry with that id |
| `AclAccounting.OldEntriesUncountedIff` | config/monitoring/metric-contract.md:38-39 | Entries from before the start stay uncounted if and only if the bootstrap page listed every one of them that is charged later; otherwise the surplus is their old counts |
| `AclAccounting.ScheduleIndependent` | config/monitoring/exporters/redis_monitor_exporter.py:357-391 | Same bootstrap counts and same last counts give the same counters, however the observations were spread, ordered or repeated |
| `AclAccounting.AclPartition` | config/monitoring/exporters/redis_monitor_exporter.py:204-213 | In every reachable state the nine partition counters add up to the total growth, emergency use is the growth naming `rtrv-emergency`, and the keys are the eleven seeded ones |
| `AclAccounting.EmergencyOverlay` | config/monitoring/exporters/redis_monitor_exporter.py:381-391 | Emergency use is at most authentication failures plus the denials of role `other` |
| `AclAccounting.NeverLoweredIff` | config/monitoring/exporters/redis_monitor_exporter.py:364-371 | An entry lowers no counter if and only if it is known or its count is not negative |
| `AclAccounting.CountersOnlyGrow` | config/monitoring/exporters/redis_monitor_exporter.py:363-391 | A page whose new entries have counts of at least 0 lowers no counter |
| `Bindings.CountAdditions` | config/monitoring/exporters/redis_monitor_exporter.py:311-319 | The new-set and known-set branches together compute the size of one set difference of (key, member) pairs |
| `Bindings.ChurnIsEdgeCreation` | config/monitoring/exporters/redis_monitor_exporter.py:305-324 | After any snapshots churn is the number of pairs created, and pairs now = pairs first + churn - pairs removed |
| `Bindings.CountsRisingEdges` | config/monitoring/exporters/redis_monitor_exporter.py:338-340 | The counter is the number of 0-to-1 transitions, and rises minus falls is the current level |
| `Runs.ExactlyOnce` | config/monitoring/exporters/redis_monitor_exporter.py:225-248 | Over any mix of failed and completed polls each accumulator equals a run made only of the polls that reached it |
| `Runs.CutPollUpdatesAllOrNothing` | config/monitoring/exporters/redis_monitor_exporter.py:225-248 | A poll cut off at any byte by an exception leaves each accumulator as before or as after the undisturbed poll |
| `Runs.ClosedPollUpdates` | config/monitoring/exporters/redis_monitor_exporter.py:305-394 | A poll cut off by a clean close between replies: ACL and bindings all-or-nothing; the default-user accumulator too, unless the close falls in front of the dry run's reply; a rise that did not happen is counted exactly there, from level 0 on a user not found usable |
| `Runs.UnnoticedCloseUpdates` | config/monitoring/exporters/redis_monitor_exporter.py:305-394 | A clean close within a reply that goes unnoticed leaves an accumulator neither as before nor as after only at the last reply of the snapshot, at the ACL LOG, or for the default user at the last two replies of the poll |
| `Runs.RunCounts` | config/monitoring/exporters/redis_monitor_exporter.py:305-342 | After any run: churn is edge creation, and the default-user counter is the number of rises in the merged sequence of dry runs and denials |
| `Runs.RunClosedForm` | config/monitoring/exporters/redis_monitor_exporter.py:344-391 | The closed form of every ACL counter after any run of polls |
| `Runs.RunCountersByField` | config/monitoring/exporters/redis_monitor_exporter.py:344-391 | That after any run with a page |
| `Runs.RunPartition` | config/monitoring/exporters/redis_monitor_exporter.py:344-391 | After any run that took a page: partition, emergency growth and key set, and emergency use covered by its source counters when new entries have counts of at least 0 |
| `Runs.OtherFailuresIgnored` | config/monitoring/exporters/redis_monitor_exporter.py:250-266 | A failure leaves the default-user accumulator alone if and only if it is no protected-mode denial or the level was 1 already |
| `Outcomes.PollEnded` | config/monitoring/exporters/redis_monitor_exporter.py:230-242 | A poll leaves `up` 1 and a new time of success exactly when nothing was raised, else `up` 0 and one more authentication failure or one more scrape error, by the exception |
| `Outcomes.UpIff` | config/monitoring/exporters/redis_monitor_exporter.py:230-242 | In every reachable state `up` is 1 if and only if the last poll succeeded |
| `Outcomes.FailuresCounted` | config/monitoring/exporters/redis_monitor_exporter.py:230-242 | In every reachable state the two failure counters are the numbers of polls that ended so |
| `Outcomes.ErrorReplyCounted` | config/monitoring/exporters/redis_monitor_exporter.py:91-95 | From the bytes to the counter: a poll that ends at an error reply counts an authentication failure if and only if the reply holds one of the three words, otherwise a scrape error, and `up` is 0 |
| `Registry.Metrics.Set` | config/monitoring/exporters/redis_monitor_exporter.py:141-142 | Stores under the sorted labels; one value for each series |
| `Registry.Metrics.SetCounter` | config/monitoring/exporters/redis_monitor_exporter.py:144-145 | One write to the log, and the counters are what the log says |
| `Registry.Metrics.Render` | config/monitoring/exporters/redis_monitor_exporter.py:147-174 | The page is the lines of the current contents, each with its line end |
| `Registry.LabelOrderIrrelevant` | config/monitoring/exporters/redis_monitor_exporter.py:141-145 | The series does not depend on the order of the keyword labels |
| `Registry.PageCanonical` | config/monitoring/exporters/redis_monitor_exporter.py:147-174 | The page depends on the contents of the registry only, not on the order of insertion |
| `Exposition.LinesReadBack` | config/monitoring/exporters/redis_monitor_exporter.py:168-175 | A reader gets name, labels, value and kind back from a line |
| `Exposition.OwnLines` | config/monitoring/exporters/redis_monitor_exporter.py:149-167 | The first twelve lines are description, type and value of the four exporter series, with the values of the registry |
| `Exposition.OwnNames` | config/monitoring/exporters/redis_monitor_exporter.py:149-167 | The prefix of the four names |
| `Exposition.PageReads` | config/monitoring/exporters/redis_monitor_exporter.py:147-176 | Behind them the page has exactly one line for every stored counter and gauge, from which it is read back with its value, and no other |
| `Exposition.PageDetermines` | config/monitoring/exporters/redis_monitor_exporter.py:147-176 | Equal pages come from equal contents, the four exporter values included: the converse of `PageCanonical` |
| `Outcomes.ReachablePageReads` | config/monitoring/exporters/redis_monitor_exporter.py:147-176 | That in every reachable state, for gauges with plain labels |
| `Registry.BlockListsEachOnce` | config/monitoring/exporters/redis_monitor_exporter.py:168-173 | A block is strictly ascending and holds every stored series with its value at one place, and nothing else |
| `Ordering.SortCanonical` | config/monitoring/exporters/redis_monitor_exporter.py:168-173 | Sorting forgets the order its input came in |
| `Ordering.StringLessIff` | config/monitoring/exporters/redis_monitor_exporter.py:168-175 | Texts compare by the first character in which they differ, a beginning being the smaller |
| `Registry.OrderIs` | config/monitoring/exporters/redis_monitor_exporter.py:168-175 | Series compare by name, then label by label |
| `Scrapes.SeenIsLastWrite` | config/monitoring/exporters/redis_monitor_exporter.py:144-174 | A scrape sees the last value written for a series |
| `Scrapes.ScrapesMonotone` | config/monitoring/exporters/redis_monitor_exporter.py:141-174 | For any two scrapes between any two writes of any run: no counter series but the default-user one goes down or disappears, provided new ACL entries have counts of at least 0 |
| `Scrapes.FailureCountersMonotone` | config/monitoring/exporters/redis_monitor_exporter.py:233-241 | The failure counters of the exporter itself never go down |
| `Scrapes.CounterIsNoGauge` | config/monitoring/exporters/redis_monitor_exporter.py:268-342 | In every reachable state no series is both a counter and a gauge, those read off INFO included |
| `Scrapes.PageListsEachOnce` | config/monitoring/exporters/redis_monitor_exporter.py:168-173 | In every reachable state the two blocks of the page together hold every stored series with its value at exactly one place, and nothing else |
| `Scrapes.DefaultCorrectAtEnd` | config/monitoring/exporters/redis_monitor_exporter.py:332-342 | After a poll that learnt about the default user the series shows the accumulated number of rises |
| `Scrapes.DefaultAtEnd` | config/monitoring/exporters/redis_monitor_exporter.py:332-394 | What the series shows after any other poll: 0 if the ACL counters were published, its old value if not |
| `Scrapes.PublicationZeroes` | config/monitoring/exporters/redis_monitor_exporter.py:393-394 | Publishing the ACL counters puts the default-user series to 0 |
| `Scrapes.RunDipsIff` | config/monitoring/exporters/redis_monitor_exporter.py:393-394 | In any reachable state a poll shows a dip if and only if it publishes the ACL counters over a value above 0 |
| `Scrapes.DefaultBounded` | config/monitoring/exporters/redis_monitor_exporter.py:332-342 | In every run the published default-user value lies between 0 and the number of rises |
| `Scrapes.DipOverCounts` | config/monitoring/metric-contract.md:38-40 | A scraper with a sample inside the dip counts the value before the dip once more than it happened |
| `Scrapes.DropsToZero` | config/monitoring/exporters/redis_monitor_exporter.py:332-394 | Of two scrapes of any run the later one shows the default-user series at 0 or not below the earlier one |
| `Scrapes.SurplusOfDips` | config/monitoring/metric-contract.md:38-40 | Over any scrapes of one process a scraper counts on the default-user series the growth between its first and last sample, plus the value in front of every dip it sampled, where it found 0 |
| `Scrapes.AclSeriesAppearIff` | config/monitoring/exporters/redis_monitor_exporter.py:200-213 | The seeded ACL series are on the page if and only if at least two pages of the log have been taken |
| `Scrapes.ScrapedExactly` | config/monitoring/metric-contract.md:38-40 | On every other series a scraper of one process counts exactly the growth between its first and last sample, mid-poll samples included |
| `Increase.Accounted` | config/monitoring/metric-contract.md:38-40 | Over any scrapes and restarts: what happened is what the scraper counted, plus what it missed, plus what is pending |
| `Increase.NeverOverCounts` | config/monitoring/metric-contract.md:38-40 | A scraper never counts more than happened, and counts all but the pending growth if and only if every restart is visible and nothing grew unseen |
| `Increase.NothingMissedIff` | config/monitoring/metric-contract.md:38-40 | Nothing is missed on exactly those schedules |
| `Processes.Serve` | config/monitoring/exporters/redis_monitor_exporter.py:432-434 | The main loop: a process that polls has the state and the history of writes of the run of its polls |
| `Processes.RestartsAccounted` | config/monitoring/metric-contract.md:38-40 | Exact accounting over the processes: counted, unseen at the ends and hidden at the starts add up to what the processes counted |
| `Processes.RestartsNeverOverCount` | config/monitoring/metric-contract.md:38-40 | Over any number of processes and any scrapes of each, mid-poll ones included, on every series but the default-user one: a scraper never counts more than the processes counted, and all of it if and only if every process was scraped at its end and its start shows |
| `PollJob.PollJob` | scripts/e2e_qualify.py:346-400 | The loop meets the trace specification, makes at most ceil(timeout / interval) requests, and never sleeps after a decisive answer |
| `PollJob.PollSpecUnique` | scripts/e2e_qualify.py:361-400 | The specification (first decisive answer, or the first clock reading past the deadline) fixes result and number of requests |
| `PollJob.WindowIff` | scripts/e2e_qualify.py:379-397 | The length of the maximal run of errors reaches the limit if and only if a window of that many adjacent errors ends here |
| `PollJob.TimeForRequests` | scripts/e2e_qualify.py:357-361 | With a monotone clock and real sleeps a request in time is one of the first ceil(timeout / interval) |
| `PollJob.MaxRequestsIs` | scripts/e2e_qualify.py:357-361 | That number of requests is the smallest whose sleeps cover the timeout, 0 for a timeout that is not positive |
| `PollJob.LostKeepsFields` | scripts/e2e_qualify.py:375-397 | JOB_LOST keeps every other field of the last job seen |
| `PollJob.NotFoundLoses` | scripts/e2e_qualify.py:371-378 | A 404 loses the job seen or not; the record holds nothing but its two own fields if and only if no job was seen, or none with another field |
| `PollJob.NeverSeenIff` | scripts/e2e_qualify.py:359-366 | No job is known before a request if and only if no answer so far was a job |
| `PollJob.TimedOutIff` | scripts/e2e_qualify.py:361-400 | Polling times out if and only if no answer was decisive in time, or the decisive one is a read timeout |
| `PollJob.TerminalStatesIff` | scripts/e2e_qualify.py:91-97 | A job in some textual state ends the polling if and only if that is COMPLETED, COMPLETED_WITH_WARNINGS, FAILED, CANCELLED or EXPIRED |
| `PollJob.TerminalJobReturned` | scripts/e2e_qualify.py:363-368 | A job answered in such a state to a request that is made is the last, and what polling returns |
| `PollJob.ErrorsLose` | scripts/e2e_qualify.py:379-397 | Enough adjacent errors lose the job; the record names it and the last error |
| `Qualify.EvidenceDir.Write` | scripts/e2e_qualify.py:200-206 | A second write of a file is refused and nothing written ever changes |
| `Qualify.ValidateArgs` | scripts/e2e_qualify.py:822-839 | No error if and only if the options fit the mode |
| `Qualify.VerifyBindings` | scripts/e2e_qualify.py:497-521 | Returns exactly the problems there are, binding by binding and in order; none if and only if every binding holds; an exception exactly on results of the wrong shape |
| `Qualify.ObjectFieldIs` | scripts/e2e_qualify.py:510 | `x.get(key) or {}`: missing or null gives an empty object, an object itself, and anything true is an exception |
| `Qualify.ResultItemsAre` | scripts/e2e_qualify.py:516 | The results are the objects of the list, in order |
| `Qualify.BranchesAre` | scripts/e2e_qualify.py:727-732 | A workbook by its type or its ending, otherwise Markdown by either |
| `Qualify.ExitCodeIs` | scripts/e2e_qualify.py:21-31 | The documented table of exit codes |
| `Qualify.CheckArtifacts` | scripts/e2e_qualify.py:720-732 | The artifact loop goes through if and only if at most one artifact takes each branch, and returns the problems of the last of each kind |
| `Qualify.LastIsAll` | scripts/e2e_qualify.py:720-735 | With at most one report of a kind, no last problems means that every report of the kind is clean |
| `Pipeline.EvaluateAcceptance` | scripts/e2e_qualify.py:536-580 | Passed if and only if all criteria hold and there are no problems of any kind, the minimum read as the length of a non-empty list |
| `Pipeline.PresentIff` | scripts/e2e_qualify.py:555-557 | A kind of report is present if and only if an artifact last of its name is of it, the workbook by its type alone |
| `Pipeline.InvariantIff` | scripts/e2e_qualify.py:571-574 | The invariant holds if and only if the reconciliation is an object whose field is True itself |
| `Pipeline.AgentJobIdIs` | scripts/e2e_qualify.py:646-650 | The agent's job id is that of the session's job, if the agent called the tool and there is one |
| `Pipeline.Upload` | scripts/e2e_qualify.py:598-626 | Goes on if and only if prompt, workbook and attachment id are there; a missing workbook ends in 6, the rest in 8 |
| `Pipeline.Trigger` | scripts/e2e_qualify.py:628-672 | The job polled, and whether by fallback, is what the decision function says |
| `Pipeline.DirectCallIff` | scripts/e2e_qualify.py:629-669 | The direct call decides the run if and only if the mode is direct, or an allowed fallback has no job id at all |
| `Pipeline.EmptyIdPolledIff` | scripts/e2e_qualify.py:649-661 | A job id that is empty is polled if and only if an allowed fallback got it, empty but not null, from the agent |
| `Pipeline.Poll` | scripts/e2e_qualify.py:674-693 | Goes on exactly with the completed job that the polling specification determines; every other end has its code |
| `Pipeline.ReturnedJobsEnd` | scripts/e2e_qualify.py:682-693 | Every job that polling returns is either completed or in one of the four lost states: the branch for an unexpected state is never taken |
| `Pipeline.FetchResults` | scripts/e2e_qualify.py:695-710 | Goes on if and only if the results are there and their bindings hold; otherwise the code of what is wrong |
| `Pipeline.FetchArtifacts` | scripts/e2e_qualify.py:712-741 | Goes on if and only if there are artifacts, at most one of each kind, all clean; otherwise 5 or 8 |
| `Pipeline.Judge` | scripts/e2e_qualify.py:743-763 | The last phase never goes on and ends in 0, 1, 8 or 9, each under its exact condition |
| `Pipeline.RunQualification` | scripts/e2e_qualify.py:587-763 | The run exits with the code its declarative specification gives; evidence already written is kept, every piece of evidence holds what it records (prompt, workbook, answers, reports, the job polled), the recorded verdict is whether the code is 0 or 9, and with these codes the evidence is complete |
| `Pipeline.RunMain` | scripts/e2e_qualify.py:842-868 | The process exits with the one code the specification allows, an evidence directory that cannot be made and bad arguments included; with 0 if and only if every fact along the pipeline holds, with 9 if and only if they do for a fallback without warnings |
| `Pipeline.OneExitCode` | scripts/e2e_qualify.py:21-31 | Everything read determines the exit code |
| `Pipeline.PassIff` | scripts/e2e_qualify.py:21-31 | Codes 0 and 9: if and only if all facts established along the pipeline hold of the job polled, and the fallback rule |
| `Pipeline.LostIff` | scripts/e2e_qualify.py:674-701 | Code 3 if and only if polling ended with a lost, failed, cancelled or expired job, or with a completed one whose results are gone (409, 410) |
| `Pipeline.TimeoutIff` | scripts/e2e_qualify.py:674-679 | Code 4 if and only if polling the triggered job times out, that is without a decisive answer in time or by the read timeout of one request |
| `Pipeline.ConfigurationIff` | scripts/e2e_qualify.py:606-672 | Code 6 if and only if the options do not fit the mode or the workbook is missing; code 2 if and only if strict chat found no job of the agent |
| `Pipeline.FaultIff` | scripts/e2e_qualify.py:695-755 | For a completed job: 7 if and only if its bindings do not hold, 5 if and only if they do and the artifacts are missing or not clean, 1 if and only if all that holds and the criteria are not met |
| `Pipeline.CertifiedJobUnique` | scripts/e2e_qualify.py:346-400 | Only the job that polling returned can be the certified one |
| `Pipeline.ExitZeroCertifies` | scripts/e2e_qualify.py:704-763 | With the default criteria exit code 0 means: job completed, bindings hold, exactly one artifact took the XLSX branch and is clean, whatever took the Markdown branch is clean, `results` is a list that is not empty, `source_reconciliation.invariant_ok` is True |
| `Pipeline.PassHasEnough` | scripts/e2e_qualify.py:547-553 | For any criteria, a run that passes has a list of at least the minimum of results |
| `Pipeline.TooFewResultsIff` | scripts/e2e_qualify.py:547-553 | When all else holds, the run exits with 1 if and only if the list is shorter than the minimum |
| `Pipeline.FallbackWithWarningsPasses` | scripts/e2e_qualify.py:757-763 | A certified fallback exits 0 if and only if its job completed with warnings, and is reported as a fallback if and only if without |
| `Reports.MarkdownUnvalidatedIff` | scripts/e2e_qualify.py:555-563 | A run that passes with the default criteria passes whatever the Markdown validator says if and only if one artifact of both kinds is the only report, which is exactly when nothing took the Markdown branch |
| `Reports.NoneTookMarkdownIff` | scripts/e2e_qualify.py:722-732 | Both kinds present and at most one artifact in each branch: none took the Markdown branch if and only if one serves as both |
| `Reports.DoubleReportSuffices` | scripts/e2e_qualify.py:722-763 | Any passing run goes on passing with all artifacts replaced by one of both kinds with a clean workbook, whatever the Markdown validator says |
| `Reports.UnvalidatedRunExists` | scripts/e2e_qualify.py:722-763 | For every artifact of both kinds with a clean workbook there is a run that exits 0 on it, whatever the Markdown validator says |
| `Multipart.FirstDelimiterIff` | scripts/e2e_qualify.py:249-257 | The first delimiter behind the headers ends the workbook if and only if the workbook does not contain it |
| `Multipart.BodyIs` | scripts/e2e_qualify.py:249-257 | The body in full: one part named `file`, the workbook, the closing delimiter |
| `Multipart.UploadRoundTripIff` | scripts/e2e_qualify.py:249-257 | For a boundary that is not in the file name: a receiver of the whole body gets exactly the workbook if and only if the workbook does not contain the delimiter, nor the file name a blank line |
| `Multipart.PlainNameRoundTripIff` | scripts/e2e_qualify.py:249-257 | For any boundary and a file name without a blank line: if and only if the workbook does not contain the delimiter |
| `Multipart.BlankNameRoundTripIff` | scripts/e2e_qualify.py:249-257 | For any boundary and a file name with one: if and only if the workbook is what stands between that and the first delimiter |
| `Multipart.ContentUnique` | scripts/e2e_qualify.py:249-257 | The receiver finds at most one content |
| `Multipart.HeadersEndIff` | scripts/e2e_qualify.py:252-254 | The first blank line of the body ends the part headers if and only if the file name holds none |
| `AlertSink.Sink.Record` | config/monitoring/exporters/alert_sink.py:32-57 | The counter is the number of alerts ever delivered, the file is what the deliveries make of it, the summary is that of the latest |
| `AlertSink.Sink.ReadTail` | config/monitoring/exporters/alert_sink.py:47-49 | The negative seek keeps the newest ceil(limit / 2) bytes |
| `AlertSink.SummaryIs` | config/monitoring/exporters/alert_sink.py:34-38 | The summary is name and status, each `unknown` if missing |
| `AlertSink.KeptIs` | config/monitoring/exporters/alert_sink.py:47-49 | What is kept is half the limit, rounded up |
| `AlertSink.BoundedSuffixLog` | config/monitoring/exporters/alert_sink.py:42-55 | The log is always a suffix of everything delivered, ends with the whole latest line, has at least min(history, ceil(limit / 2)) bytes and at most the limit plus the latest line |

## Left out

- Exporter.Exporter.RunProbes: only the names of the gauges are stated (enough for `Scrapes.CounterIsNoGauge`), not their values; the same holds for the other gauges, and what INFO is parsed into is left open.
- Exporter.Exporter.PollOnce: the texts of built-in exceptions are approximate (a TypeError is just that word), since only the protected-mode wording is ever looked for in them.
- Processes.Serve: polls are a sequence, whatever the time between them.
- Registry.Metrics.Render: a scrape is one step between two writes; the lock, and a dict changing size under the scraper's iteration, are not modelled. Floats above 2^53 or printed with an exponent are not either.
- Text.PyIntOnlyReads: Unicode digits and blanks, and the limit on the length of integer texts, are not modelled.
- Resp.ReadEncoded: decoding UTF-8 with replacement is not modelled; text is bytes on both sides.
- Poll.Observe: `float()` of a text that is no integer, `str()` of a list beyond its bracket, and lower-casing beyond ASCII are not modelled; a failing send is a connection whose reading breaks.
- PollJob.PollJob: the bound and the termination assume a monotone clock and sleeps of at least the interval, which is above 0; the exception of a read timeout is one kind of answer.
- Pipeline.RunQualification: the validators are functions that return problems and never raise; criteria are of the right types; a workbook that exists can be read; JSON numbers are integers and are never equal to booleans.
- Pipeline.Trigger: which of the session's jobs is chosen, and the shape of the chat reply, are inputs.
- Qualify.EvidenceDir.Write: I/O errors and file modes are not modelled, nor is the run manifest, which is written after the exit code is fixed.
- Multipart.UploadRoundTripIff: takes the boundary not to occur in the file name, as it is drawn at random afterwards, and neither it nor the MIME type to hold a quote or a line end, as those made here do not; `Multipart.PlainNameRoundTripIff` and `Multipart.BlankNameRoundTripIff` do without that.
- AlertSink.BoundedSuffixLog: deliveries one after the other and no I/O errors; two at once may interleave, since the file is handled outside the lock.
- Pipeline.RunMain: what the option parser itself rejects or answers (a missing workbook option, the version) ends the process before the part modelled, with the parser's own exit code 2 or 0.
- Sockets, HTTP servers, option parsing and logging: they would add only easy members.
- `scripts/spec037_acceptance_harness.py`, `scripts/e2e_archive_acceptance.py`, `config/monitoring/exporters/pg_monitor_collector.sh` and the Compose, Prometheus, Alertmanager and ACL files: linear scripts or configuration for external engines.

# EVE corporation member monitor — reconciliation model

This project models the core of a small service that watches the member list of
an EVE Online corporation. On every timer tick, `checkMembers` does the following:

1. It fetches the roster from the roster API.
2. It reads the last saved roster from `data/members.json`.
3. It works out who joined and who left, matching members by `character_id`.
4. It posts one Discord webhook message per change: joins first, then departures.
5. It rewrites the snapshot file only when something changed.

The model has these modules:

- `Roster` (`roster.dfy`) holds the diff, written as functions. `NameMap` is the id-to-name
  `Map` the source builds. `Unmatched` is the `filter` against it. `ComputeDiff` gives the
  `joined`/`left` pair. The lemmas say what the diff is: an order-preserving,
  duplicate-keeping subsequence selected by id only.
- `Notify` (`notify.dfy`) holds the message texts and the delivery switch. The switch
  posts only when the webhook URL is set, non-empty and not the placeholder
  `your_webhook_url_here`. `Notifications` gives the calls made by one notify loop.
- `Reconcile` (`reconcile.dfy`) states one whole cycle as a function, `Cycle`. Its inputs
  are the API response, the state of the snapshot file and the webhook URL. It returns
  whether the snapshot was read, the notices in sending order, and the snapshot action
  (`Keep` or `Write(roster)`). Three small functions give the source's result encodings:
  - `FetchMembers`: `null` on failure, `[]` for a reply without `characters`, otherwise the list.
  - `LoadPrevious`: `null` when the file is absent, `[]` when it is unreadable.
  - `Persist`: what the file holds after `saveMembers`. A write that fails when opening the file
    leaves it untouched. A write that fails after `writeFileSync` has emptied it leaves a file
    the next read cannot parse.
- `Service` (`service.dfy`) holds the class `Monitor`. It keeps the snapshot file
  and a record of the webhook calls, snapshot reads and saves it makes. The roster
  fetch is not recorded: its result is the `response` argument of `CheckMembers`.
  Its `CheckMembers` method runs the two notify loops and the conditional save. It is
  proved to have exactly the effect that `Cycle` describes.
- `Scenarios` (`scenarios.dfy`) holds the four cycles that `tests/verify.js` drives,
  stated as facts about `Cycle`.

The model's inputs stand in for the outside world:

- The HTTP request becomes a `Response` value: `Unreachable`, or a body whose `characters`
  is a list or is absent. A falsy `data` and a `characters` that is `null`, `0`, `""` or `false`
  count as absent.
- The snapshot file becomes a `Store` value: `Missing`, `Unreadable`, or `Saved(roster)`.
- How a file write ends is a `WriteResult`: `Written`, `NotOpened` or `Truncated`.
- `DISCORD_WEBHOOK_URL` is an optional string fixed when the `Monitor` is built.

Member ids are integers and names are strings.

A reply without `characters` is not treated as a failure: `fetchMembers` returns `[]`
(src/index.js:33-36). With a saved non-empty snapshot, every stored member is then reported
as departed and `[]` is saved. `MalformedReplyIsEmptyRoster` and `MalformedReplyReportsAllLeft`
state this.

## Model

| member | source | states |
|---|---|---|
| `Reconcile.FetchMembers` | src/index.js:25-40 | `null` exactly when the request threw; a reply carrying a `characters` list gives that list itself; a reply whose `data` or `characters` is missing or falsy gives `[]` |
| `Reconcile.LoadPrevious` | src/index.js:43-54 | `null` exactly when the file is missing; a saved roster reads back as exactly that roster; an unreadable file gives `[]` |
| `Reconcile.Persist` | src/index.js:56-62 | with nothing to write, or a write that never opened the file, the file is unchanged; a completed write reads back as exactly the roster written; a write interrupted after the open reads back as `[]` |
| `Roster.NameMap` | src/index.js:102-103 | the lookup map has exactly the roster's ids as keys |
| `Roster.NameMapLastWins` | src/index.js:102-103 | when ids repeat, the name of the last member with that id is the one stored |
| `Roster.Unmatched` | src/index.js:105-106 | the filter keeps a member iff its id is not a key of the lookup, and never grows the list |
| `Roster.UnmatchedAppend` | src/index.js:105-106 | filtering distributes over concatenation, so the input order is kept |
| `Roster.UnmatchedCount` | src/index.js:105-106 | each surviving member occurs exactly as often as in the input (duplicates kept) |
| `Roster.UnmatchedKeysOnly` | src/index.js:105-106 | only the lookup's keys matter; the names stored under them never do |
| `Roster.UnmatchedNothing` | src/index.js:105-106 | filtering against an empty lookup keeps the whole roster |
| `Roster.UnmatchedIsSubsequence` | src/index.js:105-106 | the filter result is the subsequence of the input at the increasing positions it keeps |
| `Roster.ComputeDiff` | src/index.js:101-106 | `joined` holds exactly the current members whose id is not a previous id; `left` holds exactly the previous members whose id is not a current id |
| `Roster.JoinedIsSubsequence` | src/index.js:105 | `joined` is the current roster restricted to the positions whose id is not a previous id, in order, with duplicates |
| `Roster.LeftIsSubsequence` | src/index.js:106 | `left` is the previous roster restricted to the positions whose id is not a current id, in order, with duplicates |
| `Roster.DiffEmptyIff` | src/index.js:102-106 | both lists are empty iff the two rosters have the same id set |
| `Roster.DiffIgnoresNames` | src/index.js:102-106 | previous rosters with equal id sets give the same `joined` list and the same changed/unchanged verdict |
| `Roster.DiffAgainstEmpty` | src/index.js:105-106 | against an empty previous roster, everyone joined and nobody left |
| `Roster.DiffFromEmpty` | src/index.js:105-106 | an empty current roster means everyone previous left and nobody joined |
| `Roster.DiffWithSelf` | src/index.js:102-106 | a roster compared with itself yields no change |
| `Notify.Message` | src/index.js:111-118 | the message opens with `**` and ends with the joined or departed tail |
| `Notify.NoticeFor` | src/index.js:64-69 | one call carries the given text and is posted iff `DeliveryEnabled`: the URL is set, non-empty and not `your_webhook_url_here` |
| `Notify.MessageMentions` | src/index.js:111 | the message names the member right after the opening `**` |
| `Notify.MessageInjective` | src/index.js:111-118 | the message text determines both the member name and whether they joined or left |
| `Notify.Notifications` | src/index.js:110-119 | one notice per member, in order, each carrying that member's message, posted iff delivery is enabled (`src/index.js:66-69`) |
| `Reconcile.Cycle` | src/index.js:83-127 | a failed fetch reads nothing, sends nothing and keeps the snapshot; otherwise the snapshot is read; the first run saves the fetched roster verbatim and sends nothing; only the fetched roster is ever written |
| `Reconcile.CycleAnnounces` | src/index.js:108-120 | one notice per joined or departed member: first the joined messages in `joined` order, then the left messages in `left` order |
| `Reconcile.CycleWritesIffChanged` | src/index.js:122-126 | with a snapshot present, the fetched roster is written and notices are sent iff the id sets differ; otherwise nothing is written |
| `Reconcile.CorruptSnapshotAllJoined` | src/index.js:50-53 | an unreadable snapshot counts as empty: every fetched member gets a joined notice, and the roster is written unless it is empty |
| `Reconcile.MalformedReplyIsEmptyRoster` | src/index.js:33-36 | a reply without `characters` behaves exactly like an empty roster |
| `Reconcile.MalformedReplyReportsAllLeft` | src/index.js:33-36 | with a saved snapshot, such a reply reports every stored member as departed, and saves `[]` when the stored roster was non-empty |
| `Reconcile.SecondCycleQuiet` | src/index.js:93-126 | after a cycle whose write succeeded, a second cycle on the same reply sends nothing and writes nothing |
| `Reconcile.FailedSaveRepeats` | src/index.js:56-62 | a write that never opened the file leaves the stale snapshot, so the next cycle on the same reply gives the same outcome again |
| `Reconcile.TruncatedSaveAllJoined` | src/index.js:56-62 | a write that failed after emptying the file makes the next cycle on the same reply announce every fetched member as joined, as the unreadable-file `[]` of src/index.js:50-53 does |
| `Reconcile.DeliveryModeIrrelevant` | src/index.js:64-69 | the webhook setting changes neither the snapshot read, the snapshot action, nor the messages |
| `Reconcile.DryRunOnlyLogs` | src/index.js:66-69 | with the URL unset, empty or the placeholder, every notice is only logged |
| `Service.Monitor.LoadPreviousMembers` | src/index.js:43-54 | returns `null` exactly when the file is missing, `[]` when it is unreadable, and the saved roster otherwise; counts one read |
| `Service.Monitor.SaveMembers` | src/index.js:56-62 | the snapshot becomes what `Persist` gives for the write's result; the attempt is recorded either way |
| `Service.Monitor.SendDiscordWebhook` | src/index.js:64-81 | appends one notice with the given text, posted iff delivery is enabled |
| `Service.Monitor.Announce` | src/index.js:110-112 | appends exactly `Notifications(change, ms)` to the outbox, one call per member in order |
| `Service.Monitor.CheckMembers` | src/index.js:83-127 | appends `Cycle`'s notices, reads the snapshot iff the fetch succeeded, saves iff `Cycle` writes, and leaves the file as `Persist` gives |
| `Scenarios.FirstRunScenario` | tests/verify.js:25-47 | with no snapshot, Alice and Bob are saved and nothing is sent |
| `Scenarios.NoChangeScenario` | tests/verify.js:49-80 | the same roster again sends nothing and writes nothing |
| `Scenarios.JoinScenario` | tests/verify.js:83-106 | adding Charlie posts exactly "**Charlie** has joined the corporation." and saves all three |
| `Scenarios.LeaveScenario` | tests/verify.js:108-131 | dropping Bob posts exactly "**Bob** has left the corporation." and saves Alice and Charlie |

## Left out

- HTTP through axios, including the `User-Agent` header and the URL template (src/index.js:25-31, 71-76). These are network I/O. The `Response` value replaces them.
- A `characters` field that is truthy but not an array (src/index.js:33-34). The model assumes the payload is a list of member records.
- Delivery failures in `sendDiscordWebhook` (src/index.js:78-80). The source catches and logs them, so they change nothing else. A notice records only whether the message was posted or only logged.
- File I/O and JSON: `ensureDataDir`, `existsSync`, `readFileSync`, `writeFileSync`, `JSON.parse` and `JSON.stringify` (src/index.js:11-15, 43-62). The `Store` value and the `WriteResult` replace them. A file holding `null` parses to `null` and takes the first-run branch (src/index.js:95), so it behaves as `Missing`. A file that parses to any other non-array value makes `.map` throw at src/index.js:103; the model does not cover that case.
- `getConfig`, dotenv and `process.env`, and `parseInt` of the interval (src/index.js:1, 17-23). This is ambient configuration. The webhook URL becomes a constructor argument, and the corp id only selects the request.
- The `setInterval` loop and overlapping asynchronous cycles (src/index.js:129-142). This is timer and concurrency plumbing. The model describes one cycle at a time, plus pairs of cycles in `SecondCycleQuiet` and `FailedSaveRepeats`.
- `console.log` and `console.error` output, except the dry-run log that replaces a webhook post. That case appears as a `Logged` notice.
- Non-integer `character_id` values and JavaScript `Map` key equality (SameValueZero). Ids are modelled as integers.

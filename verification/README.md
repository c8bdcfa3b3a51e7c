# World Cup score relay — a Dafny model of its change detection and notification pass

The relay polls a World Cup schedule feed and keeps an in-memory snapshot of each
match's state. When a match's state changes, it posts a template card to a chat
webhook. This project models one pass of that pipeline (`main.go`) as pure functions:

- **Gating.** `checkIsTime` lets a pass run while the snapshot is still nil. After that,
  a pass runs only when the Kitchen-layout time of day is on the fixed `timeMap` allow-list.
- **Fetching.** `grabFifa` turns a transport failure or an undecodable body into an
  aborted pass. A non-zero `error_code` is meant to abort the pass too, but as written
  `grabFifa` then dereferences the reply's result object; when that is null the pass
  panics (see "## Findings"). The model keeps both versions: `RefreshDataAsWritten`
  over the fetch as written, `RefreshData` over the corrected one.
- **Snapshot store.** The store is `Uninitialized` (the nil map) or `Ready(entries)`.
  The key is the match's `team_id`. The value is `match_status-host_team_score-guest_team_score`.
- **Detector.** `diffLocal` seeds the store from the whole feed on the first pass and
  reports nothing. On later passes it walks the date groups in order and skips matches
  whose kickoff is more than a second away. It records a match when its key is missing
  or its stored value differs, then overwrites the entry.
- **Formatter.** `makePush` builds one card per change: title, score line, three
  fixed rows, the kickoff row, a caution row from two hours after kickoff on, and the
  elapsed-time row last.

"Now" is an input: `Clock.Reading` holds Unix seconds, the Kitchen-layout string and
the card's timestamp string. Kickoffs are parsed Unix seconds (`ProtoFifa.Kickoff`).
An unparseable `date_time` becomes Go's zero time, −62135596800, so such a match is
always due. Whole seconds lose nothing here. A kickoff parsed from
`"2006-01-02 15:04:05"` is a whole second, so "now is before kickoff − 1 s" on
nanoseconds has the same answer as on seconds rounded down. The same holds for the
two-hour threshold.

Modules: `Wrappers` (Option), `Text` (splitting at a separator), `ProtoFifa` (feed
records), `ProtoWecom` (card records), `Clock`, `Snapshot` (store, key, value,
seeding), `Detector` (`diffLocal`), `Formatter` (`makePush`, `notifyWeCom`) and
`Pipeline` (`timeMap`, `checkIsTime`, `grabFifa`, `refreshData`).

Two behaviours of `main.go` worth noting:
- The caution row appears once *at least* 120 minutes have passed since kickoff
  (`>= 2*60`, main.go:276).
- `httpGetJson` never reads the HTTP status of the feed GET (main.go:340). Only a
  transport error or a body that does not decode fails the fetch.

## Model

| member | source | states |
|---|---|---|
| Snapshot.SeedList | main.go:317-326 | the seeding loop leaves the store with exactly the keys it had plus the keys of every match it visited |
| Snapshot.SeedListLastWins | main.go:317-326 | after seeding, a key holds the composite value of the last match in visiting order that carries it |
| Snapshot.SeedingStoresFeed | main.go:310-330 | the first pass stores exactly the feed's keys, whatever the kickoffs, with the last match's value per key; with unique keys, every match's own value |
| Snapshot.CompositeValue | main.go:298-308 | matches agreeing on status and both scores have equal values; conversely, if the status holds no '-' and the host score is the placeholder "-" or a non-empty text without '-', equal values mean equal status and scores |
| Snapshot.CompositeValueCanCollide | main.go:302-308 | for every match whose status is x + "-" + y, the match with status x and host score y + "-" + its host score has the same key and value but a different status; likewise, for every host score x + "-" + y, the match with status status + "-" + x and host score y collides with it; so such a change is not seen |
| Detector.DiffList | main.go:179-196 | a later pass's inner loop adds exactly the keys of due matches to the store; its changes are a subsequence of the list, all due |
| Detector.DiffGroupsIsFlat | main.go:179-180 | the nested loops over date groups and their lists equal one walk over the flattened feed, groups first, then list order |
| Detector.DiffLocal | main.go:171-203 | the store is initialized after any pass; needPush holds iff the store was initialized before the call and at least one change was recorded |
| Detector.DiffListFrame | main.go:187-194 | a key no due match carries keeps its entry through the pass |
| Detector.DiffListLastDueWins | main.go:187-194 | after the pass, a key holds the value of the last due match carrying it |
| Detector.ChangedAgainst | main.go:186-194 | reference change list: a match is in it iff it is in the list, due, and missing from the original store or different there |
| Detector.DiffListRecordsChanged | main.go:186-194 | with unique keys, the recorded changes equal the reference change list against the store as it was before the pass, in order |
| Detector.SettledIsFixpoint | main.go:187-194 | a pass over matches whose values the store already holds records nothing and leaves the store unchanged |
| Detector.DiffListSettles | main.go:187-194 | with unique keys, after a pass every due match's value is in the store |
| Detector.FirstPassSeeds | main.go:171-176 | on an uninitialized store: no changes, needPush false, store initialized (even for an empty feed) with every match's key, each holding its last match's value |
| Detector.LaterPassStore | main.go:178-196 | a later pass removes no key, adds the due matches' keys, leaves untouched keys' values, and writes each due key's last value |
| Detector.LaterPassSkipsFuture | main.go:182-185 | on a later pass a match whose kickoff is more than a second ahead is not reported; its key's entry is unchanged unless a due match shares the key |
| Detector.LaterPassChanges | main.go:179-196 | changes keep feed order and are all due; with unique keys, a match is recorded iff it is due and its key is absent or holds a different value |
| Detector.RepassIsQuiet | main.go:186-194 | after any pass, a second pass at the same instant over a feed differing only in names, logos or descriptions reports nothing and changes no entry |
| Detector.Idempotent | main.go:171-203 | repeating diffLocal on the same feed at the same instant records no change, asks for no push and leaves the store unchanged |
| Formatter.SinceKickoff | main.go:274-275 | the duration from kickoff to the reading lies in the int64 nanosecond range of Go's Duration: it is the exact difference in nanoseconds whenever that fits, is never negative after kickoff and always negative before it, as `time.Time.Sub` saturates it |
| Formatter.MakePush | main.go:219-288 | the card's title is prefix + host + "vs" + guest, its description "【type name】" + type description + group + "组", the score line host score + " : " + guest score, the status line "【" + match description + "】"; rows are 3 fixed, kickoff, optional caution, elapsed last; the elapsed row carries the time since kickoff saturated to the Duration range; caution present iff that duration is at least two hours, and then it is the fifth row with its fixed warning text |
| Formatter.StaleIffTwoHoursElapsed | main.go:274-276 | the caution decision on the saturated duration is exactly "at least 7200 s since kickoff"; an unparseable kickoff saturates the duration and always draws the caution row |
| Formatter.NotifyWeCom | main.go:205-217 | one card per change, in change order, each built from that change |
| Formatter.CautionThreshold | main.go:274-281 | a card at exactly 120 minutes after kickoff has the caution row; at 119 minutes, or one second short of 120, it has none |
| Formatter.CautionPersists | main.go:274-281 | once a match's card carries the caution row, every card for it at a later reading does too |
| Formatter.ScoreTitleIdentifiesScores | main.go:265 | if the host score has no space, the score line determines both scores: different score pairs never give the same line |
| Pipeline.Scan | main.go:96-101 | the allow-list search hits iff the current time string is in the list |
| Pipeline.CheckIsTime | main.go:89-106 | a pass is due iff the store is uninitialized or the Kitchen-layout time is in the allow-list |
| Pipeline.GrabFifaAsWritten | main.go:145-168 | as written: any decoded reply without a result object panics, even with a non-zero error_code; only code 0 with a result yields the feed |
| Pipeline.UpstreamErrorWithoutResult | main.go:161-165 | a due pass on a reply with a non-zero error_code and no result crashes as written but fails with the upstream error once corrected; the store is untouched either way |
| Pipeline.GrabFifa | main.go:145-168 | corrected: transport and decode failures and a non-zero error_code become errors carrying their message; the feed is returned iff code 0 with a result |
| Pipeline.GrabFifaFixesOnlyThatCase | main.go:161-167 | the corrected fetch differs from the written one exactly on replies with a non-zero code and no result |
| Pipeline.PassWith | main.go:108-142 | the control flow of refreshData given what the fetch produced: a pass not due does nothing; without a fetched feed the store is untouched; the pass fails iff it is due and the fetch returned an error, and crashes iff it is due and the fetch panicked; an initialized store stays initialized |
| Pipeline.RefreshData | main.go:108-142 | over the corrected fetch: a pass not due does nothing; the store is touched only after a successful fetch; a pass fails iff it is due and the fetch fails; an initialized store is never reset |
| Pipeline.RefreshDataAsWritten | main.go:108-142 | over the fetch as written: a pass not due does nothing; the store is touched only after a successful fetch; a due pass crashes iff the reply has no result object, whatever its error_code |
| Pipeline.RefreshDataFixesOnlyThatCase | main.go:161-167 | the pass as written and the corrected pass differ exactly on due passes whose reply has a non-zero error_code and no result object |
| Pipeline.FetchErrorAborts | main.go:117-124 | over the corrected fetch: a due pass whose fetch fails or whose feed reports an error ends with that error before detection, store untouched |
| Pipeline.FirstFetchSeedsQuietly | main.go:126-134 | the first successful pass seeds the store from the whole feed and posts nothing |
| Pipeline.LaterPassPushes | main.go:126-139 | a due later pass posts cards iff detection recorded changes: one card per change, in feed order |
| Pipeline.DailyCallsWithinAllowance | main.go:30-67 | once the store is initialized, readings that never repeat a Kitchen-layout time admit at most 36 due passes (`CheckIsTime`); with the one start-up pass, fewer than the 50 free calls a day |
| Pipeline.UninitializedPollsEveryTick | main.go:89-93 | while the store is uninitialized every reading is due, so a failing start-up fetch is retried on every tick |
| Pipeline.ReadyPassesAreHits | main.go:95-105 | over an initialized store, the due readings are exactly those whose Kitchen-layout time is on the allow-list |

## Left out

- HTTP plumbing is not modelled: `httpGetJson`, `httpPostJson`, the TLS and transport settings, and POST failures (these are logged and swallowed, so the outcome is just the list of cards to post). A fetch is an input, `Pipeline.Download`.
- JSON decoding and encoding are not modelled: `json.Unmarshal`, `json.Marshal` and the error payload built by `getErrStr`. The decoded reply is an input, and `Pipeline.Message` gives only the error's text.
- Scheduling is not modelled: the `time.Tick` loop, `select {}` in `main`, and `GoWithRecovery`/`Stack` in util.go. A pass that panics ends as `Crashed`; what the process does next (exit at start-up, or stop the loop) is not modelled.
- The wall clock and time parsing are not modelled: `time.Now`, `time.ParseInLocation` in local time, and Kitchen formatting are inputs. `diffLocal` and `makePush` read `time.Now()` again for every match and every card; the model uses one reading per pass.
- Float formatting is not modelled: the elapsed-time row's value `%.1f分钟` is kept as the saturated duration in nanoseconds it renders (`ProtoWecom.ElapsedMinutes`). "Now" is whole seconds, so that duration drops the sub-second part of the reading, which the one-decimal minute rendering hardly ever shows.
- Logging is not modelled: all `log.Printf` and `fmt.Print` calls.
- The commented-out sample reply at main.go:152 is test data, not logic.
- A null date group or match entry in the decoded reply would panic on dereference; the model's feed has none.
- The date-group metadata and the reply's `ext` object are dropped: no logic reads them, so a group is just its list of matches.
- `diffLocal` also returns an error, but it is always nil, so the model has no error result there.
- Pipeline.RefreshData: modelled over the corrected fetch `GrabFifa`; the pass as written is `Pipeline.RefreshDataAsWritten`, which panics on a reply with a non-zero error_code and no result object.
- Pipeline.FetchErrorAborts: states the corrected pass; as written, the non-zero error_code case with no result object ends `Crashed` rather than `Failed` (store untouched either way), see `Pipeline.UpstreamErrorWithoutResult`.
- Pipeline.DailyCallsWithinAllowance: bounds only the passes over an initialized store and assumes each Kitchen-layout time is read at most once a day; while the store is uninitialized every tick is due (`Pipeline.UninitializedPollsEveryTick`), so a start-up fetch that keeps failing calls the feed every minute, and a pass that outlasts the 60-second tick can make two readings share a minute.
- `GrabFifa` adds only the missing early return. A reply with error_code 0 and no result still panics (`Crashed`), as `grabFifa` does.
- Detector.LaterPassChanges: the exact change list is stated only for a feed with unique keys, the feed's own promise. With repeated keys the general statement is order, dueness and the store facts of Detector.LaterPassStore.
- Detector.Idempotent: assumes unique keys in the feed. With two due matches of one key and different values, a second pass does report a change.
- Detector.RepassIsQuiet: assumes unique keys, as for Detector.Idempotent.

## Findings

| source | as written | input that shows it | evidently intended | confidence | as-written member | corrected member |
|---|---|---|---|---|---|---|
| main.go:161-165 | a non-zero `error_code` sets `err`, but `fifa.Result.Data` is read anyway | a reply `{"error_code": 10001, "reason": "…", "result": null}` makes `fifa.Result` nil, so the pass panics instead of posting the error: at start-up the process dies, and in the ticker loop the panic is reported once by the recovery wrapper and polling then stops for good | return as soon as `error_code` is non-zero, so the error goes to the error webhook | high; not executed | Pipeline.RefreshDataAsWritten | Pipeline.RefreshData |

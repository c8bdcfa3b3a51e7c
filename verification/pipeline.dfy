/** One pipeline pass: time gating, fetch, detection and the cards to post. */
module Pipeline {
  import opened Wrappers
  import opened ProtoFifa
  import opened ProtoWecom
  import opened Clock
  import opened Snapshot
  import opened Detector
  import opened Formatter

  /** The wall-clock instants (Kitchen layout) at which an initialized store is
      refreshed: quarter hours from 11:00PM to 7:45AM. */
  const TimeMap: seq<string> := [
    "11:00PM", "11:15PM", "11:30PM", "11:45PM",
    "12:00AM", "12:15AM", "12:30AM", "12:45AM",
    "1:00AM", "1:15AM", "1:30AM", "1:45AM",
    "2:00AM", "2:15AM", "2:30AM", "2:45AM",
    "3:00AM", "3:15AM", "3:30AM", "3:45AM",
    "4:00AM", "4:15AM", "4:30AM", "4:45AM",
    "5:00AM", "5:15AM", "5:30AM", "5:45AM",
    "6:00AM", "6:15AM", "6:30AM", "6:45AM",
    "7:00AM", "7:15AM", "7:30AM", "7:45AM"
  ]

  /** The free data source allows fewer than this many calls a day. */
  const DailyCallAllowance: int := 50

  /** The linear search over the allow-list. */
  function Scan(times: seq<string>, now: string): (hit: bool)
    ensures hit <==> now in times
  {
    if times == [] then false
    else if times[0] == now then true
    else Scan(times[1..], now)
  }

  /** A pass is due while the store is uninitialized, and otherwise exactly when the
      current Kitchen-layout time is on the allow-list. */
  function CheckIsTime(store: Store, clock: Reading): (due: bool)
    ensures due <==> store.Uninitialized? || clock.kitchen in TimeMap
  {
    if NeedInit(store) then true else Scan(TimeMap, clock.kitchen)
  }

  /** Why a pass was aborted. */
  datatype PassError =
    | TransportError(message: string)   // the GET itself failed
    | DecodeError(message: string)      // the body is not the expected JSON
    | UpstreamError(reason: string)     // the feed reports a non-zero error_code

  /** The error text reported to the error webhook. */
  function Message(e: PassError): string {
    match e
    case TransportError(msg) => msg
    case DecodeError(msg) => msg
    case UpstreamError(reason) => "获取 fifa 数据失败,errCode 不为0, reason:" + reason
  }

  /** What the GET of the feed endpoint produced. The HTTP status is not looked at:
      any body that was read goes to the decoder. */
  datatype Download =
    | NetworkFailure(message: string)
    | Undecodable(message: string)
    | Decoded(reply: Reply)

  /** The outcome of fetching the feed. Panicked is a nil dereference of the reply's
      missing result object. */
  datatype Grab = Grabbed(feed: Feed) | GrabFailed(error: PassError) | Panicked

  /** grabFifa as written: a non-zero error_code records the error but the result
      object is dereferenced anyway. */
  function GrabFifaAsWritten(d: Download): (g: Grab)
    ensures g.Grabbed? <==> d.Decoded? && d.reply.errorCode == 0 && d.reply.result.Some?
    ensures g.Panicked? <==> d.Decoded? && d.reply.result.None?
  {
    match d
    case NetworkFailure(msg) => GrabFailed(TransportError(msg))
    case Undecodable(msg) => GrabFailed(DecodeError(msg))
    case Decoded(reply) =>
      if reply.result.None? then Panicked
      else if reply.errorCode != 0 then GrabFailed(UpstreamError(reply.reason))
      else Grabbed(reply.result.value)
  }

  /** Fetching with the early return the error path evidently intends: a non-zero
      error_code is reported before the result object is touched. */
  function GrabFifa(d: Download): (g: Grab)
    ensures d.NetworkFailure? ==> g == GrabFailed(TransportError(d.message))
    ensures d.Undecodable? ==> g == GrabFailed(DecodeError(d.message))
    ensures d.Decoded? && d.reply.errorCode != 0 ==> g == GrabFailed(UpstreamError(d.reply.reason))
    ensures g.Grabbed? <==> d.Decoded? && d.reply.errorCode == 0 && d.reply.result.Some?
    ensures g.Grabbed? ==> g.feed == d.reply.result.value
  {
    match d
    case NetworkFailure(msg) => GrabFailed(TransportError(msg))
    case Undecodable(msg) => GrabFailed(DecodeError(msg))
    case Decoded(reply) =>
      if reply.errorCode != 0 then GrabFailed(UpstreamError(reply.reason))
      else if reply.result.None? then Panicked
      else Grabbed(reply.result.value)
  }


  /** The two fetches differ only on replies that carry an error code and no result. */
  lemma GrabFifaFixesOnlyThatCase(d: Download)
    ensures GrabFifaAsWritten(d) != GrabFifa(d) <==> d.Decoded? && d.reply.errorCode != 0 && d.reply.result.None?
  {
  }

  /** How a pass ended. */
  datatype Outcome =
    | NotTime                        // gated off: nothing fetched
    | Failed(error: PassError)       // aborted; the error goes to the error webhook
    | Crashed                        // a panic escaped the pass
    | NothingToPush                  // detection ran and asked for no push
    | Pushed(pushes: seq<WeComPush>) // these cards were posted, in order

  datatype Pass = Pass(store: Store, outcome: Outcome)

  /** A pass given what its fetch produced: gate on the clock, then detect against the
      store and post one card per change. Delivery failures are swallowed, so the
      cards are the outcome. */
  function PassWith(store: Store, grab: Grab, clock: Reading): (p: Pass)
    ensures !CheckIsTime(store, clock) ==> p == Pass(store, NotTime)
    ensures !grab.Grabbed? ==> p.store == store
    ensures p.outcome.Failed? <==> CheckIsTime(store, clock) && grab.GrabFailed?
    ensures p.outcome.Crashed? <==> CheckIsTime(store, clock) && grab.Panicked?
    ensures store.Ready? ==> p.store.Ready?
  {
    if !CheckIsTime(store, clock) then Pass(store, NotTime)
    else
      match grab
      case GrabFailed(e) => Pass(store, Failed(e))
      case Panicked => Pass(store, Crashed)
      case Grabbed(feed) =>
        var d := DiffLocal(feed, clock.unix, store);
        if !d.needPush then Pass(d.store, NothingToPush)
        else Pass(d.store, Pushed(NotifyWeCom(d.changes, clock)))
  }

  /** refreshData over the corrected fetch: a pass not due does nothing, the store is
      touched only after a successful fetch, a due pass fails exactly when the fetch
      fails, and an initialized store is never reset. */
  function RefreshData(store: Store, download: Download, clock: Reading): (p: Pass)
    ensures !CheckIsTime(store, clock) ==> p == Pass(store, NotTime)
    ensures !GrabFifa(download).Grabbed? ==> p.store == store
    ensures p.outcome.Failed? <==> CheckIsTime(store, clock) && GrabFifa(download).GrabFailed?
    ensures store.Ready? ==> p.store.Ready?
  {
    PassWith(store, GrabFifa(download), clock)
  }

  /** refreshData over grabFifa as written: the same pass, except that a due pass on a
      reply without a result object panics, whatever its error_code. */
  function RefreshDataAsWritten(store: Store, download: Download, clock: Reading): (p: Pass)
    ensures !CheckIsTime(store, clock) ==> p == Pass(store, NotTime)
    ensures !GrabFifaAsWritten(download).Grabbed? ==> p.store == store
    ensures p.outcome.Crashed? <==> CheckIsTime(store, clock) && download.Decoded? && download.reply.result.None?
  {
    PassWith(store, GrabFifaAsWritten(download), clock)
  }

  /** A due pass on a reply that reports an error without a result object panics as
      written, so the error is never sent to the error webhook by the pass itself; with
      the early return the pass fails with that error. The store is untouched either way. */
  lemma UpstreamErrorWithoutResult(store: Store, clock: Reading, reason: string, code: int)
    requires code != 0 && CheckIsTime(store, clock)
    ensures var d := Decoded(Reply(reason, None, code));
            && GrabFifaAsWritten(d) == Panicked
            && RefreshDataAsWritten(store, d, clock) == Pass(store, Crashed)
            && GrabFifa(d) == GrabFailed(UpstreamError(reason))
            && RefreshData(store, d, clock) == Pass(store, Failed(UpstreamError(reason)))
  {
  }

  /** The two passes differ only on due passes whose reply carries an error code and no
      result. */
  lemma RefreshDataFixesOnlyThatCase(store: Store, download: Download, clock: Reading)
    ensures RefreshDataAsWritten(store, download, clock) != RefreshData(store, download, clock)
            <==> CheckIsTime(store, clock) && download.Decoded? && download.reply.errorCode != 0
                 && download.reply.result.None?
  {
    GrabFifaFixesOnlyThatCase(download);
  }

  /** With the corrected fetch, a fetch failure or a feed-reported error aborts a due
      pass with that error and leaves the store as it was. */
  lemma FetchErrorAborts(store: Store, download: Download, clock: Reading)
    requires CheckIsTime(store, clock)
    requires download.NetworkFailure? || download.Undecodable? || (download.Decoded? && download.reply.errorCode != 0)
    ensures var p := RefreshData(store, download, clock);
            && p.store == store
            && p.outcome == Failed(GrabFifa(download).error)
            && (download.Decoded? ==> Message(p.outcome.error) == "获取 fifa 数据失败,errCode 不为0, reason:" + download.reply.reason)
  {
  }

  /** The first successful fetch seeds the store from the whole feed and posts nothing. */
  lemma FirstFetchSeedsQuietly(download: Download, clock: Reading)
    requires GrabFifa(download).Grabbed?
    ensures RefreshData(Uninitialized, download, clock)
            == Pass(Ready(InitLocalData(download.reply.result.value)), NothingToPush)
  {
  }

  /** A later pass posts cards exactly when its detection records a change, one card per
      change in feed order, each built at the pass's reading. */
  lemma LaterPassPushes(entries: Entries, download: Download, clock: Reading)
    requires clock.kitchen in TimeMap && GrabFifa(download).Grabbed?
    ensures var feed := download.reply.result.value;
            var d := DiffLocal(feed, clock.unix, Ready(entries));
            var p := RefreshData(Ready(entries), download, clock);
            && p.store == d.store
            && (p.outcome.Pushed? <==> d.changes != [])
            && (p.outcome.Pushed? ==>
                  && |p.outcome.pushes| == |d.changes|
                  && forall i | 0 <= i < |d.changes| :: p.outcome.pushes[i] == MakePush(d.changes[i], clock))
  {
  }

  /** The number of readings at which a pass over the given store is due. */
  function DuePasses(store: Store, readings: seq<Reading>): nat {
    if readings == [] then 0
    else (if CheckIsTime(store, readings[0]) then 1 else 0) + DuePasses(store, readings[1..])
  }

  /** The number of readings whose time-of-day is in the given set. */
  function Hits(readings: seq<Reading>, allowed: set<string>): nat {
    if readings == [] then 0
    else (if readings[0].kitchen in allowed then 1 else 0) + Hits(readings[1..], allowed)
  }

  /** No two readings show the same Kitchen-layout time. */
  ghost predicate DistinctTimes(readings: seq<Reading>) {
    forall i, j | 0 <= i < j < |readings| :: readings[i].kitchen != readings[j].kitchen
  }

  /** While the store is uninitialized every reading is due, so a start-up fetch that
      keeps failing calls the feed on every tick. */
  lemma {:induction false} UninitializedPollsEveryTick(readings: seq<Reading>)
    ensures DuePasses(Uninitialized, readings) == |readings|
  {
    if readings != [] {
      UninitializedPollsEveryTick(readings[1..]);
    }
  }

  /** Over an initialized store a reading is due exactly when its time is on the allow-list. */
  lemma {:induction false} ReadyPassesAreHits(entries: Entries, readings: seq<Reading>)
    ensures DuePasses(Ready(entries), readings) == Hits(readings, set t | t in TimeMap)
  {
    if readings != [] {
      ReadyPassesAreHits(entries, readings[1..]);
    }
  }

  /** Readings that never repeat a time hit a set no more often than its size. */
  lemma {:induction false} HitsBounded(readings: seq<Reading>, allowed: set<string>)
    requires DistinctTimes(readings)
    ensures Hits(readings, allowed) <= |allowed|
  {
    if readings != [] {
      var t := readings[0].kitchen;
      var rest := readings[1..];
      assert DistinctTimes(rest) by {
        forall i, j | 0 <= i < j < |rest|
          ensures rest[i].kitchen != rest[j].kitchen
        {
          assert rest[i] == readings[i + 1] && rest[j] == readings[j + 1];
        }
      }
      assert forall i | 0 <= i < |rest| :: rest[i].kitchen != t by {
        forall i | 0 <= i < |rest|
          ensures rest[i].kitchen != t
        {
          assert rest[i] == readings[i + 1];
        }
      }
      HitsIgnoresAbsent(rest, allowed, t);
      HitsBounded(rest, allowed - {t});
      if t in allowed {
        assert |allowed - {t}| == |allowed| - 1;
      }
    }
  }

  /** Dropping a time the readings never show does not change the count. */
  lemma {:induction false} HitsIgnoresAbsent(readings: seq<Reading>, allowed: set<string>, t: string)
    requires forall i | 0 <= i < |readings| :: readings[i].kitchen != t
    ensures Hits(readings, allowed - {t}) == Hits(readings, allowed)
  {
    if readings != [] {
      HitsIgnoresAbsent(readings[1..], allowed, t);
    }
  }

  /** A set drawn from a list has no more elements than the list. */
  lemma {:induction false} ElementsBounded(s: seq<string>)
    ensures |set x | x in s| <= |s|
  {
    if s != [] {
      ElementsBounded(s[1..]);
      assert (set x | x in s) == {s[0]} + (set x | x in s[1..]);
    }
  }

  /** Once the store is initialized, readings that show each Kitchen-layout time at most
      once (one day of minute ticks) admit at most |TimeMap| passes; with the one
      start-up pass that seeded the store, the feed is called fewer times than the
      daily allowance. */
  lemma DailyCallsWithinAllowance(entries: Entries, readings: seq<Reading>)
    requires DistinctTimes(readings)
    ensures DuePasses(Ready(entries), readings) <= |TimeMap|
    ensures 1 + DuePasses(Ready(entries), readings) < DailyCallAllowance
  {
    ReadyPassesAreHits(entries, readings);
    HitsBounded(readings, set t | t in TimeMap);
    ElementsBounded(TimeMap);
  }
}

/** The change detector: one pass of the feed against the snapshot store. */
module Detector {
  import opened ProtoFifa
  import opened Snapshot

  /** A match is evaluated once "now" is no longer before one second ahead of its kickoff. */
  predicate Due(m: Match, now: int) {
    !(now < m.kickoff.Seconds() - 1)
  }

  /** The store has no entry for the match, or holds a different composite value. */
  predicate Differs(entries: Entries, m: Match) {
    Key(m) !in entries || entries[Key(m)] != Value(m)
  }

  /** xs is obtained from ys by deleting elements: its elements appear in ys in the same order. */
  ghost predicate IsSubsequence<T>(xs: seq<T>, ys: seq<T>)
    decreases |ys|
  {
    || xs == []
    || (&& ys != []
        && (|| (xs[0] == ys[0] && IsSubsequence(xs[1..], ys[1..]))
            || IsSubsequence(xs, ys[1..])))
  }

  /** The keys of the matches of a list that are due. */
  function DueKeys(ms: seq<Match>, now: int): (ks: set<string>)
    ensures forall j | 0 <= j < |ms| && Due(ms[j], now) :: Key(ms[j]) in ks
    ensures forall k | k in ks :: exists j | 0 <= j < |ms| :: Due(ms[j], now) && Key(ms[j]) == k
  {
    if ms == [] then {}
    else (if Due(ms[0], now) then {Key(ms[0])} else {}) + DueKeys(ms[1..], now)
  }

  /** The store and the recorded changes, part-way through a pass. */
  datatype Walk = Walk(entries: Entries, changes: seq<Match>)

  /** The inner loop of a later pass: skip matches not yet due; record and overwrite
      those whose composite value differs from the store. */
  function DiffList(ms: seq<Match>, now: int, entries: Entries): (w: Walk)
    ensures w.entries.Keys == entries.Keys + DueKeys(ms, now)
    ensures IsSubsequence(w.changes, ms)
    ensures forall c | c in w.changes :: Due(c, now)
  {
    if ms == [] then Walk(entries, [])
    else
      var m := ms[0];
      if !Due(m, now) then DiffList(ms[1..], now, entries)
      else if Differs(entries, m) then
        var rest := DiffList(ms[1..], now, entries[Key(m) := Value(m)]);
        Walk(rest.entries, [m] + rest.changes)
      else DiffList(ms[1..], now, entries)
  }

  /** The outer loop of a later pass, over the date groups. */
  function DiffGroups(feed: Feed, now: int, entries: Entries): Walk {
    if feed == [] then Walk(entries, [])
    else
      var first := DiffList(feed[0], now, entries);
      var rest := DiffGroups(feed[1..], now, first.entries);
      Walk(rest.entries, first.changes + rest.changes)
  }

  /** The result of diffLocal: the store after the pass, the changed matches in feed
      order, and whether they are to be pushed. */
  datatype Diff = Diff(store: Store, changes: seq<Match>, needPush: bool)

  /** One detection pass. An uninitialized store is seeded from the whole feed and
      nothing is reported; otherwise the due matches are compared with the store. */
  function DiffLocal(feed: Feed, now: int, store: Store): (d: Diff)
    ensures d.store.Ready?
    ensures d.needPush <==> store.Ready? && d.changes != []
  {
    if NeedInit(store) then Diff(Ready(InitLocalData(feed)), [], false)
    else
      var w := DiffGroups(feed, now, store.entries);
      Diff(Ready(w.entries), w.changes, !NeedInit(store) && |w.changes| > 0)
  }

  // ---------------------------------------------------------------------------
  // The nested loops and the flat walk agree

  lemma {:induction false} DiffListAppend(a: seq<Match>, b: seq<Match>, now: int, entries: Entries)
    ensures var wa := DiffList(a, now, entries);
            var wb := DiffList(b, now, wa.entries);
            DiffList(a + b, now, entries) == Walk(wb.entries, wa.changes + wb.changes)
  {
    if a == [] {
      assert a + b == b;
    } else {
      var m := a[0];
      assert (a + b)[1..] == a[1..] + b;
      var next := if Due(m, now) && Differs(entries, m) then entries[Key(m) := Value(m)] else entries;
      DiffListAppend(a[1..], b, now, next);
      var wa := DiffList(a[1..], now, next);
      var wb := DiffList(b, now, wa.entries);
      if Due(m, now) && Differs(entries, m) {
        assert [m] + (wa.changes + wb.changes) == ([m] + wa.changes) + wb.changes;
      }
    }
  }

  /** The nested loops over date groups visit the matches in flattened feed order. */
  lemma {:induction false} DiffGroupsIsFlat(feed: Feed, now: int, entries: Entries)
    ensures DiffGroups(feed, now, entries) == DiffList(Flatten(feed), now, entries)
  {
    if feed != [] {
      var first := DiffList(feed[0], now, entries);
      DiffGroupsIsFlat(feed[1..], now, first.entries);
      DiffListAppend(feed[0], Flatten(feed[1..]), now, entries);
    }
  }

  // ---------------------------------------------------------------------------
  // What a pass does to the store

  /** A key that no due match carries keeps its entry. */
  lemma {:induction false} DiffListFrame(ms: seq<Match>, now: int, entries: Entries, k: string)
    requires k !in DueKeys(ms, now)
    ensures k in entries ==> DiffList(ms, now, entries).entries[k] == entries[k]
  {
    if ms != [] {
      var m := ms[0];
      assert DueKeys(ms[1..], now) <= DueKeys(ms, now);
      var next := if Due(m, now) && Differs(entries, m) then entries[Key(m) := Value(m)] else entries;
      DiffListFrame(ms[1..], now, next, k);
    }
  }

  /** ms[i] is the last due match of the list with its key. */
  ghost predicate LastDueWithKey(ms: seq<Match>, now: int, i: int) {
    && 0 <= i < |ms|
    && Due(ms[i], now)
    && forall j | i < j < |ms| && Due(ms[j], now) :: Key(ms[j]) != Key(ms[i])
  }

  /** After a pass, a key holds the value of the last due match carrying it. */
  lemma {:induction false} DiffListLastDueWins(ms: seq<Match>, now: int, entries: Entries, i: int)
    requires LastDueWithKey(ms, now, i)
    ensures DiffList(ms, now, entries).entries[Key(ms[i])] == Value(ms[i])
  {
    var m := ms[0];
    var next := if Due(m, now) && Differs(entries, m) then entries[Key(m) := Value(m)] else entries;
    if i == 0 {
      assert forall j | 0 <= j < |ms[1..]| && Due(ms[1..][j], now) :: Key(ms[1..][j]) != Key(m) by {
        forall j | 0 <= j < |ms[1..]| && Due(ms[1..][j], now)
          ensures Key(ms[1..][j]) != Key(m)
        {
          assert ms[1..][j] == ms[j + 1];
        }
      }
      DiffListFrame(ms[1..], now, next, Key(m));
    } else {
      assert LastDueWithKey(ms[1..], now, i - 1) by {
        forall j | i - 1 < j < |ms[1..]| && Due(ms[1..][j], now)
          ensures Key(ms[1..][j]) != Key(ms[1..][i - 1])
        {
          assert ms[1..][j] == ms[j + 1];
        }
      }
      DiffListLastDueWins(ms[1..], now, next, i - 1);
    }
  }

  // ---------------------------------------------------------------------------
  // Which matches a pass records

  /** Reference definition of the change list: the due matches whose composite value
      differs from the store as it stood before the pass, in list order. */
  function ChangedAgainst(ms: seq<Match>, now: int, entries: Entries): (cs: seq<Match>)
    ensures forall m :: m in cs <==> m in ms && Due(m, now) && Differs(entries, m)
  {
    if ms == [] then []
    else
      (if Due(ms[0], now) && Differs(entries, ms[0]) then [ms[0]] else [])
      + ChangedAgainst(ms[1..], now, entries)
  }

  /** An entry written for one key does not affect how matches with other keys compare. */
  lemma {:induction false} ChangedIgnoresOtherKey(ms: seq<Match>, now: int, entries: Entries, k: string, v: string)
    requires forall m | m in ms :: Key(m) != k
    ensures ChangedAgainst(ms, now, entries[k := v]) == ChangedAgainst(ms, now, entries)
  {
    if ms != [] {
      assert ms[0] in ms;
      ChangedIgnoresOtherKey(ms[1..], now, entries, k, v);
    }
  }

  /** With unique keys the pass records exactly the due matches whose value differs from
      the store as it stood before the pass, in feed order. */
  lemma {:induction false} DiffListRecordsChanged(ms: seq<Match>, now: int, entries: Entries)
    requires UniqueKeys(ms)
    ensures DiffList(ms, now, entries).changes == ChangedAgainst(ms, now, entries)
  {
    if ms != [] {
      var m := ms[0];
      assert UniqueKeys(ms[1..]) by {
        forall i, j | 0 <= i < j < |ms[1..]|
          ensures Key(ms[1..][i]) != Key(ms[1..][j])
        {
          assert ms[1..][i] == ms[i + 1] && ms[1..][j] == ms[j + 1];
        }
      }
      if Due(m, now) && Differs(entries, m) {
        assert forall x | x in ms[1..] :: Key(x) != Key(m) by {
          forall x | x in ms[1..]
            ensures Key(x) != Key(m)
          {
            var j :| 0 <= j < |ms[1..]| && ms[1..][j] == x;
            assert ms[j + 1] == x;
          }
        }
        DiffListRecordsChanged(ms[1..], now, entries[Key(m) := Value(m)]);
        ChangedIgnoresOtherKey(ms[1..], now, entries, Key(m), Value(m));
      } else {
        DiffListRecordsChanged(ms[1..], now, entries);
      }
    }
  }

  // ---------------------------------------------------------------------------
  // A settled store is a fixed point

  /** Every due match's composite value is already in the store. */
  ghost predicate Settled(ms: seq<Match>, now: int, entries: Entries) {
    forall m | m in ms && Due(m, now) :: Key(m) in entries && entries[Key(m)] == Value(m)
  }

  /** A pass over a list the store already reflects records nothing and writes nothing. */
  lemma {:induction false} SettledIsFixpoint(ms: seq<Match>, now: int, entries: Entries)
    requires Settled(ms, now, entries)
    ensures DiffList(ms, now, entries) == Walk(entries, [])
  {
    if ms != [] {
      assert ms[0] in ms;
      assert Settled(ms[1..], now, entries) by {
        forall m | m in ms[1..] && Due(m, now)
          ensures Key(m) in entries && entries[Key(m)] == Value(m)
        {
          assert m in ms;
        }
      }
      SettledIsFixpoint(ms[1..], now, entries);
    }
  }

  /** With unique keys a pass leaves the store reflecting every due match. */
  lemma DiffListSettles(ms: seq<Match>, now: int, entries: Entries)
    requires UniqueKeys(ms)
    ensures Settled(ms, now, DiffList(ms, now, entries).entries)
  {
    var after := DiffList(ms, now, entries).entries;
    forall m | m in ms && Due(m, now)
      ensures Key(m) in after && after[Key(m)] == Value(m)
    {
      var i :| 0 <= i < |ms| && ms[i] == m;
      assert LastDueWithKey(ms, now, i);
      DiffListLastDueWins(ms, now, entries, i);
    }
  }

  // ---------------------------------------------------------------------------
  // diffLocal as a whole

  /** The first pass reports nothing and does not ask for a push, yet leaves the store
      initialized (even for an empty feed) holding exactly the feed's keys, every match
      included whatever its kickoff; each key holds the value of its last match. */
  lemma FirstPassSeeds(feed: Feed, now: int)
    ensures var d := DiffLocal(feed, now, Uninitialized);
            var ms := Flatten(feed);
            && d.changes == []
            && !d.needPush
            && d.store.Ready?
            && d.store.entries.Keys == KeysOf(ms)
            && (forall i | LastWithKey(ms, i) :: d.store.entries[Key(ms[i])] == Value(ms[i]))
            && (UniqueKeys(ms) ==> forall m | m in ms :: d.store.entries[Key(m)] == Value(m))
  {
    SeedingStoresFeed(feed);
  }

  /** A later pass keeps every key (none is removed), adds the keys of due matches,
      leaves the entry of every key no due match carries, and leaves each key touched
      holding the value of the last due match with that key. */
  lemma LaterPassStore(feed: Feed, now: int, entries: Entries)
    ensures var after := DiffLocal(feed, now, Ready(entries)).store.entries;
            var ms := Flatten(feed);
            && after.Keys == entries.Keys + DueKeys(ms, now)
            && (forall k | k in entries && k !in DueKeys(ms, now) :: after[k] == entries[k])
            && (forall i | LastDueWithKey(ms, now, i) :: after[Key(ms[i])] == Value(ms[i]))
  {
    var ms := Flatten(feed);
    DiffGroupsIsFlat(feed, now, entries);
    forall k | k in entries && k !in DueKeys(ms, now)
      ensures DiffList(ms, now, entries).entries[k] == entries[k]
    {
      DiffListFrame(ms, now, entries, k);
    }
    forall i | LastDueWithKey(ms, now, i)
      ensures DiffList(ms, now, entries).entries[Key(ms[i])] == Value(ms[i])
    {
      DiffListLastDueWins(ms, now, entries, i);
    }
  }

  /** On a later pass a match whose kickoff is still ahead is not reported, and unless a
      due match shares its key, its entry (or absence of one) stays as it was. */
  lemma LaterPassSkipsFuture(feed: Feed, now: int, entries: Entries, m: Match)
    requires m in Flatten(feed) && !Due(m, now)
    ensures var d := DiffLocal(feed, now, Ready(entries));
            && m !in d.changes
            && (Key(m) !in DueKeys(Flatten(feed), now) ==>
                  && (Key(m) in d.store.entries <==> Key(m) in entries)
                  && (Key(m) in entries ==> d.store.entries[Key(m)] == entries[Key(m)]))
  {
    LaterPassStore(feed, now, entries);
    LaterPassChanges(feed, now, entries);
  }

  /** A later pass records its changes in feed order (date groups first, then list
      order), all of them due; with unique keys it records exactly the due matches that
      are missing from the store or hold a different composite value. */
  lemma LaterPassChanges(feed: Feed, now: int, entries: Entries)
    ensures var d := DiffLocal(feed, now, Ready(entries));
            var ms := Flatten(feed);
            && IsSubsequence(d.changes, ms)
            && (forall c | c in d.changes :: Due(c, now))
            && (UniqueKeys(ms) ==> d.changes == ChangedAgainst(ms, now, entries))
            && (UniqueKeys(ms) ==> forall m :: m in d.changes <==> m in ms && Due(m, now) && Differs(entries, m))
  {
    var ms := Flatten(feed);
    DiffGroupsIsFlat(feed, now, entries);
    if UniqueKeys(ms) {
      DiffListRecordsChanged(ms, now, entries);
    }
  }

  /** Two feeds that agree match for match on key, kickoff, status and both scores
      (names, logos and descriptions may differ). */
  ghost predicate SameObservables(feed: Feed, feed2: Feed) {
    var ms, ms2 := Flatten(feed), Flatten(feed2);
    && |ms| == |ms2|
    && forall i | 0 <= i < |ms| ::
         && Key(ms2[i]) == Key(ms[i])
         && ms2[i].kickoff == ms[i].kickoff
         && SameComposite(ms2[i], ms[i])
  }

  /** After any pass over a feed with unique keys, a second pass at the same instant over
      a feed that differs only in names, logos or descriptions reports nothing, asks for
      no push and leaves the store unchanged. */
  lemma {:induction false} RepassIsQuiet(feed: Feed, feed2: Feed, now: int, store: Store)
    requires UniqueKeys(Flatten(feed))
    requires SameObservables(feed, feed2)
    ensures var d := DiffLocal(feed, now, store);
            var d2 := DiffLocal(feed2, now, d.store);
            d2.changes == [] && !d2.needPush && d2.store == d.store
  {
    var ms, ms2 := Flatten(feed), Flatten(feed2);
    var d := DiffLocal(feed, now, store);
    var after := d.store.entries;
    assert Settled(ms, now, after) by {
      if store.Uninitialized? {
        SeedingStoresFeed(feed);
      } else {
        DiffGroupsIsFlat(feed, now, store.entries);
        DiffListSettles(ms, now, store.entries);
      }
    }
    assert Settled(ms2, now, after) by {
      forall m2 | m2 in ms2 && Due(m2, now)
        ensures Key(m2) in after && after[Key(m2)] == Value(m2)
      {
        var i :| 0 <= i < |ms2| && ms2[i] == m2;
        assert ms[i] in ms;
        CompositeValue(ms2[i], ms[i]);
      }
    }
    SettledIsFixpoint(ms2, now, after);
    DiffGroupsIsFlat(feed2, now, after);
  }

  /** Running the detector twice on the same feed at the same instant: the second run
      reports nothing and leaves the store as the first left it. */
  lemma Idempotent(feed: Feed, now: int, store: Store)
    requires UniqueKeys(Flatten(feed))
    ensures var d := DiffLocal(feed, now, store);
            var d2 := DiffLocal(feed, now, d.store);
            d2.changes == [] && !d2.needPush && d2.store == d.store
  {
    RepassIsQuiet(feed, feed, now, store);
  }
}

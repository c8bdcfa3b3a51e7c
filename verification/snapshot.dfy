/** The snapshot store: the last composite value seen per match, and its one-shot seeding. */
module Snapshot {
  import opened ProtoFifa
  import opened Text

  /** Snapshot entries: match key to composite value. */
  type Entries = map<string, string>

  /** The process-wide store. Uninitialized stands for the nil map before the first pass. */
  datatype Store = Uninitialized | Ready(entries: Entries)

  /** True while the store has never been seeded. */
  predicate NeedInit(store: Store) {
    store.Uninitialized?
  }

  /** A match's identity in the store. */
  function Key(m: Match): string {
    m.teamId
  }

  const Separator: char := '-'

  /** The composite value compared between passes: status, host score and guest
      score joined with the separator. */
  function Value(m: Match): string {
    m.matchStatus + [Separator] + m.hostTeamScore + [Separator] + m.guestTeamScore
  }

  /** The keys of a list of matches. */
  function KeysOf(ms: seq<Match>): (ks: set<string>)
    ensures forall j | 0 <= j < |ms| :: Key(ms[j]) in ks
    ensures forall k | k in ks :: exists j | 0 <= j < |ms| :: Key(ms[j]) == k
  {
    if ms == [] then {} else {Key(ms[0])} + KeysOf(ms[1..])
  }

  /** No two matches of the list share a key (the feed's own promise). */
  ghost predicate UniqueKeys(ms: seq<Match>) {
    forall i, j | 0 <= i < j < |ms| :: Key(ms[i]) != Key(ms[j])
  }

  /** ms[i] is the last match of the list with its key. */
  ghost predicate LastWithKey(ms: seq<Match>, i: int) {
    && 0 <= i < |ms|
    && forall j | i < j < |ms| :: Key(ms[j]) != Key(ms[i])
  }

  /** The inner loop of the seeding pass: write every match's value under its key. */
  function SeedList(ms: seq<Match>, acc: Entries): (r: Entries)
    ensures r.Keys == acc.Keys + KeysOf(ms)
  {
    if ms == [] then acc
    else SeedList(ms[1..], acc[Key(ms[0]) := Value(ms[0])])
  }

  /** The outer loop of the seeding pass, over the date groups. */
  function SeedGroups(feed: Feed, acc: Entries): Entries {
    if feed == [] then acc
    else SeedGroups(feed[1..], SeedList(feed[0], acc))
  }

  /** The entries of the first pass: a fresh map seeded with every match of the feed,
      whatever its kickoff. */
  function InitLocalData(feed: Feed): Entries {
    if |feed| == 0 then map[] else SeedGroups(feed, map[])
  }

  /** Seeding a concatenation is seeding the parts in turn. */
  lemma {:induction false} SeedListAppend(a: seq<Match>, b: seq<Match>, acc: Entries)
    ensures SeedList(a + b, acc) == SeedList(b, SeedList(a, acc))
  {
    if a == [] {
      assert a + b == b;
    } else {
      assert (a + b)[1..] == a[1..] + b;
      SeedListAppend(a[1..], b, acc[Key(a[0]) := Value(a[0])]);
    }
  }

  /** The nested seeding loops visit the matches in flattened feed order. */
  lemma {:induction false} SeedGroupsIsFlat(feed: Feed, acc: Entries)
    ensures SeedGroups(feed, acc) == SeedList(Flatten(feed), acc)
  {
    if feed != [] {
      SeedGroupsIsFlat(feed[1..], SeedList(feed[0], acc));
      SeedListAppend(feed[0], Flatten(feed[1..]), acc);
    }
  }

  /** Seeding leaves alone every key no match of the list carries. */
  lemma {:induction false} SeedListFrame(ms: seq<Match>, acc: Entries, k: string)
    requires k !in KeysOf(ms)
    ensures k in acc ==> SeedList(ms, acc)[k] == acc[k]
  {
    if ms != [] {
      assert Key(ms[0]) != k;
      assert KeysOf(ms[1..]) <= KeysOf(ms);
      SeedListFrame(ms[1..], acc[Key(ms[0]) := Value(ms[0])], k);
    }
  }

  /** After seeding, a key holds the value of the last match carrying it. */
  lemma {:induction false} SeedListLastWins(ms: seq<Match>, acc: Entries, i: int)
    requires LastWithKey(ms, i)
    ensures SeedList(ms, acc)[Key(ms[i])] == Value(ms[i])
  {
    var next := acc[Key(ms[0]) := Value(ms[0])];
    if i == 0 {
      assert forall j | 0 <= j < |ms[1..]| :: Key(ms[1..][j]) != Key(ms[0]) by {
        forall j | 0 <= j < |ms[1..]|
          ensures Key(ms[1..][j]) != Key(ms[0])
        {
          assert ms[1..][j] == ms[j + 1];
        }
      }
      SeedListFrame(ms[1..], next, Key(ms[0]));
    } else {
      assert LastWithKey(ms[1..], i - 1) by {
        forall j | i - 1 < j < |ms[1..]|
          ensures Key(ms[1..][j]) != Key(ms[1..][i - 1])
        {
          assert ms[1..][j] == ms[j + 1];
        }
      }
      SeedListLastWins(ms[1..], next, i - 1);
    }
  }

  /** The first pass stores exactly the keys of the feed; each key holds the value of
      the last match with that key in feed order, so with unique keys every match's
      own value. */
  lemma SeedingStoresFeed(feed: Feed)
    ensures InitLocalData(feed).Keys == KeysOf(Flatten(feed))
    ensures forall i | LastWithKey(Flatten(feed), i) ::
      InitLocalData(feed)[Key(Flatten(feed)[i])] == Value(Flatten(feed)[i])
    ensures UniqueKeys(Flatten(feed)) ==>
      forall m | m in Flatten(feed) :: InitLocalData(feed)[Key(m)] == Value(m)
  {
    var ms := Flatten(feed);
    SeedGroupsIsFlat(feed, map[]);
    forall i | LastWithKey(ms, i)
      ensures InitLocalData(feed)[Key(ms[i])] == Value(ms[i])
    {
      SeedListLastWins(ms, map[], i);
    }
    if UniqueKeys(ms) {
      forall m | m in ms
        ensures InitLocalData(feed)[Key(m)] == Value(m)
      {
        var i :| 0 <= i < |ms| && ms[i] == m;
        assert LastWithKey(ms, i);
      }
    }
  }

  /** The two matches agree on status, host score and guest score. */
  predicate SameComposite(a: Match, b: Match) {
    a.matchStatus == b.matchStatus && a.hostTeamScore == b.hostTeamScore && a.guestTeamScore == b.guestTeamScore
  }

  /** A score as the feed writes it: the placeholder "-" for an unset score, or a
      non-empty text without the separator. */
  predicate ScoreText(score: string) {
    score == [Separator] || (score != [] && Avoids(score, Separator))
  }

  /** The status holds no separator and the host score is score text; the guest score
      may be anything. */
  predicate SeparatorFree(m: Match) {
    Avoids(m.matchStatus, Separator) && ScoreText(m.hostTeamScore)
  }

  /** Splitting "host-guest" back into its parts when the host score is score text. */
  lemma SplitScores(h1: string, g1: string, h2: string, g2: string)
    requires ScoreText(h1) && ScoreText(h2)
    requires h1 + [Separator] + g1 == h2 + [Separator] + g2
    ensures h1 == h2 && g1 == g2
  {
    var s := h1 + [Separator] + g1;
    assert h1[0] == s[0] == h2[0];
    assert h1[0] in h1 && h2[0] in h2;
    if h1 == [Separator] {
      assert h2 == [Separator];
      assert g1 == s[2..] == g2;
    } else {
      SplitAtFirst(Separator, h1, g1, h2, g2);
    }
  }

  /** Two matches that share the key, status and both scores are the same to the store,
      whatever their names, logos or descriptions; conversely, as long as the status and
      the status avoids the separator and the host score is "-" or a non-empty text
      without it, equal composite values mean equal status and scores. */
  lemma CompositeValue(a: Match, b: Match)
    ensures SameComposite(a, b) ==> Value(a) == Value(b)
    ensures SeparatorFree(a) && SeparatorFree(b) && Value(a) == Value(b) ==> SameComposite(a, b)
  {
    if SeparatorFree(a) && SeparatorFree(b) && Value(a) == Value(b) {
      var ra := a.hostTeamScore + [Separator] + a.guestTeamScore;
      var rb := b.hostTeamScore + [Separator] + b.guestTeamScore;
      assert Value(a) == a.matchStatus + [Separator] + ra;
      assert Value(b) == b.matchStatus + [Separator] + rb;
      SplitAtFirst(Separator, a.matchStatus, ra, b.matchStatus, rb);
      SplitScores(a.hostTeamScore, a.guestTeamScore, b.hostTeamScore, b.guestTeamScore);
    }
  }

  /** A separator inside the status or the host score makes the composite value
      ambiguous: moving the text after that separator across the next one gives a
      different status for the same key and the same value, so the store sees no change. */
  lemma CompositeValueCanCollide(a: Match, x: string, y: string)
    ensures a.matchStatus == x + [Separator] + y ==>
              var b := a.(matchStatus := x, hostTeamScore := y + [Separator] + a.hostTeamScore);
              Key(b) == Key(a) && Value(b) == Value(a) && b.matchStatus != a.matchStatus
    ensures a.hostTeamScore == x + [Separator] + y ==>
              var b := a.(matchStatus := a.matchStatus + [Separator] + x, hostTeamScore := y);
              Key(b) == Key(a) && Value(b) == Value(a) && b.matchStatus != a.matchStatus
  {
    var s := [Separator];
    if a.matchStatus == x + s + y {
      assert Value(a) == x + s + (y + s + a.hostTeamScore) + s + a.guestTeamScore;
    }
    if a.hostTeamScore == x + s + y {
      assert Value(a) == (a.matchStatus + s + x) + s + y + s + a.guestTeamScore;
    }
  }
}

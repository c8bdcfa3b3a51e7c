/** The notification formatter: one template card per changed match. */
module Formatter {
  import opened ProtoFifa
  import opened ProtoWecom
  import opened Clock
  import opened Text

  /** Two hours: from this much time after kickoff on, the card flags its data as
      possibly stale. */
  const CautionSeconds: int := 2 * 60 * 60

  const RefreshKey: string := "温馨提示"
  const AccuracyKey: string := "特别提示"
  const NowKey: string := "当前时间"
  const KickoffKey: string := "开场时间"
  const CautionKey: string := "【备注】"
  const ElapsedKey: string := "距离开场已经"

  const CautionText: string := "距离时间过长，需核实准确性"

  const TitlePrefix: string := "【赛况更新】"
  const AppId: string := "wxc3435ec8eb22c84f"

  /** Seconds from the match's kickoff to the reading (negative before kickoff). */
  function ElapsedSeconds(m: Match, clock: Reading): int {
    clock.unix - m.kickoff.Seconds()
  }

  /** The range of Go's Duration, an int64 count of nanoseconds. */
  const MaxDuration: int := 0x7fff_ffff_ffff_ffff
  const MinDuration: int := -0x8000_0000_0000_0000

  const NanosPerSecond: int := 1_000_000_000

  /** The duration from kickoff to the reading as time.Time.Sub returns it: the exact
      difference, saturated at the ends of the Duration range. */
  function SinceKickoff(m: Match, clock: Reading): (d: int)
    ensures MinDuration <= d <= MaxDuration
    ensures MinDuration <= ElapsedSeconds(m, clock) * NanosPerSecond <= MaxDuration ==>
              d == ElapsedSeconds(m, clock) * NanosPerSecond
    ensures d >= 0 <==> ElapsedSeconds(m, clock) >= 0
  {
    var exact := ElapsedSeconds(m, clock) * NanosPerSecond;
    if exact > MaxDuration then MaxDuration
    else if exact < MinDuration then MinDuration
    else exact
  }

  /** At least two hours have elapsed since kickoff, judged on the saturated duration. */
  predicate Stale(m: Match, clock: Reading) {
    SinceKickoff(m, clock) >= CautionSeconds * NanosPerSecond
  }

  /** Saturation never changes the caution decision: it is exactly "two hours or more
      since kickoff", even for a kickoff at the zero time or centuries away. */
  lemma StaleIffTwoHoursElapsed(m: Match, clock: Reading)
    ensures Stale(m, clock) <==> ElapsedSeconds(m, clock) >= CautionSeconds
    ensures m.kickoff.Unparsed? && clock.unix >= 0 ==> SinceKickoff(m, clock) == MaxDuration && Stale(m, clock)
  {
    var e := ElapsedSeconds(m, clock);
    if e >= CautionSeconds {
      assert e * NanosPerSecond >= CautionSeconds * NanosPerSecond;
    } else {
      assert e * NanosPerSecond <= (CautionSeconds - 1) * NanosPerSecond;
    }
    if m.kickoff.Unparsed? && clock.unix >= 0 {
      assert e >= 62135596800;
      assert e * NanosPerSecond >= 62135596800 * NanosPerSecond;
    }
  }

  /** The three rows every card opens with: refresh cadence, accuracy caveat, current time. */
  function NoticeRows(clock: Reading): seq<Row> {
    [ Row(RefreshKey, Text("赛况每15分钟刷新")),
      Row(AccuracyKey, Text("免费数据源不保证实时")),
      Row(NowKey, Text(clock.stamp)) ]
  }

  /** The card's information rows carry the caution row. */
  predicate HasCaution(rows: seq<Row>) {
    exists i | 0 <= i < |rows| :: rows[i].keyname == CautionKey
  }

  /** The card for one changed match, as seen at the given reading. */
  function MakePush(m: Match, clock: Reading): (p: WeComPush)
    ensures p.msgtype == "template_card" && p.templateCard.cardType == "text_notice"
    ensures p.templateCard.mainTitle.title == TitlePrefix + m.hostTeamName + "vs" + m.guestTeamName
    ensures p.templateCard.mainTitle.desc == "【" + m.matchTypeName + "】" + m.matchTypeDes + m.groupName + "组"
    ensures p.templateCard.emphasisContent.title == m.hostTeamScore + " : " + m.guestTeamScore
    ensures p.templateCard.emphasisContent.desc == "【" + m.matchDes + "】"
    ensures p.templateCard.source.iconUrl == m.hostTeamLogoUrl
    ensures var rows := p.templateCard.horizontalContentList;
            && |rows| == (if Stale(m, clock) then 6 else 5)
            && rows[..3] == NoticeRows(clock)
            && rows[3] == Row(KickoffKey, Text(m.dateTime))
            && rows[|rows| - 1] == Row(ElapsedKey, ElapsedMinutes(SinceKickoff(m, clock)))
            && (HasCaution(rows) <==> Stale(m, clock))
            && (Stale(m, clock) ==> rows[4] == Row(CautionKey, Text(CautionText)))
  {
    var kickoffRow := Row(KickoffKey, Text(m.dateTime));
    var cautionRows := if Stale(m, clock) then [Row(CautionKey, Text(CautionText))] else [];
    var elapsedRow := Row(ElapsedKey, ElapsedMinutes(SinceKickoff(m, clock)));
    var rows := NoticeRows(clock) + [kickoffRow] + cautionRows + [elapsedRow];
    assert Stale(m, clock) ==> rows[4].keyname == CautionKey;
    WeComPush(
      "template_card",
      TemplateCard(
        "text_notice",
        Source(m.hostTeamLogoUrl, "世界杯赛况", 0),
        MainTitle(TitlePrefix + m.hostTeamName + "vs" + m.guestTeamName,
                  "【" + m.matchTypeName + "】" + m.matchTypeDes + m.groupName + "组"),
        EmphasisContent(m.hostTeamScore + " : " + m.guestTeamScore, "【" + m.matchDes + "】"),
        "\U{1F44F} 预祝和你想得一样!",
        rows,
        CardAction(2, "", AppId)))
  }

  /** The cards posted for the changes of one pass: one per change, in change order. */
  function NotifyWeCom(changes: seq<Match>, clock: Reading): (pushes: seq<WeComPush>)
    ensures |pushes| == |changes|
    ensures forall i | 0 <= i < |changes| :: pushes[i] == MakePush(changes[i], clock)
  {
    if changes == [] then [] else [MakePush(changes[0], clock)] + NotifyWeCom(changes[1..], clock)
  }

  /** The caution row appears at two hours after kickoff and not a second earlier
      (one minute earlier, 119 minutes, has none). */
  lemma CautionThreshold(m: Match, clock: Reading)
    ensures ElapsedSeconds(m, clock) == 120 * 60 ==> HasCaution(MakePush(m, clock).templateCard.horizontalContentList)
    ensures ElapsedSeconds(m, clock) == 120 * 60 - 1 ==> !HasCaution(MakePush(m, clock).templateCard.horizontalContentList)
    ensures ElapsedSeconds(m, clock) == 119 * 60 ==> !HasCaution(MakePush(m, clock).templateCard.horizontalContentList)
  {
    StaleIffTwoHoursElapsed(m, clock);
  }

  /** Once a match's card carries the caution row, every later card for it does too. */
  lemma CautionPersists(m: Match, c1: Reading, c2: Reading)
    requires c1.unix <= c2.unix
    requires HasCaution(MakePush(m, c1).templateCard.horizontalContentList)
    ensures HasCaution(MakePush(m, c2).templateCard.horizontalContentList)
  {
    StaleIffTwoHoursElapsed(m, c1);
    StaleIffTwoHoursElapsed(m, c2);
  }

  /** The score pair can be read back from the card's emphasis title as long as the host
      score holds no space: different score pairs give different titles. */
  lemma ScoreTitleIdentifiesScores(m1: Match, m2: Match, c1: Reading, c2: Reading)
    requires Avoids(m1.hostTeamScore, ' ') && Avoids(m2.hostTeamScore, ' ')
    requires MakePush(m1, c1).templateCard.emphasisContent.title == MakePush(m2, c2).templateCard.emphasisContent.title
    ensures m1.hostTeamScore == m2.hostTeamScore && m1.guestTeamScore == m2.guestTeamScore
  {
    var t1 := MakePush(m1, c1).templateCard.emphasisContent.title;
    assert t1 == m1.hostTeamScore + [' '] + (": " + m1.guestTeamScore);
    assert t1 == m2.hostTeamScore + [' '] + (": " + m2.guestTeamScore);
    SplitAtFirst(' ', m1.hostTeamScore, ": " + m1.guestTeamScore, m2.hostTeamScore, ": " + m2.guestTeamScore);
    assert m1.guestTeamScore == (": " + m1.guestTeamScore)[2..];
    assert m2.guestTeamScore == (": " + m2.guestTeamScore)[2..];
  }
}

/** The schedule feed of the data source, as the decoder leaves it. */
module ProtoFifa {
  import opened Wrappers

  /** Unix seconds of Go's zero time (0001-01-01 00:00:00 UTC), the instant an
      unparseable date_time text turns into. */
  const ZeroTime: int := -62135596800

  /** The kickoff instant obtained by parsing a match's date_time text in local time. */
  datatype Kickoff = At(seconds: int) | Unparsed {

    /** Unix seconds of the kickoff; a parse failure yields the zero time. */
    function Seconds(): int {
      match this
      case At(s) => s
      case Unparsed => ZeroTime
    }
  }

  /** One fixture of the schedule list. Scores and status are the feed's own strings;
      kickoff is date_time already parsed. */
  datatype Match = Match(
    teamId: string,
    date: string,
    dateTime: string,
    kickoff: Kickoff,
    hostTeamId: string,
    guestTeamId: string,
    hostTeamName: string,
    guestTeamName: string,
    hostTeamScore: string,
    guestTeamScore: string,
    matchStatus: string,
    matchDes: string,
    matchType: string,
    matchTypeName: string,
    matchTypeDes: string,
    groupName: string,
    hostTeamLogoUrl: string,
    guestTeamLogoUrl: string)

  /** The schedule list of one date. */
  type Group = seq<Match>

  /** The date groups of one fetch, in feed order. */
  type Feed = seq<Group>

  /** The decoded reply; result is None when the reply carries no result object. */
  datatype Reply = Reply(reason: string, result: Option<Feed>, errorCode: int)

  /** The matches of a feed in the order the nested loops visit them: date groups
      first, then each group's list. */
  function Flatten(feed: Feed): (ms: seq<Match>)
    ensures forall g, i | 0 <= g < |feed| && 0 <= i < |feed[g]| :: feed[g][i] in ms
  {
    if feed == [] then [] else feed[0] + Flatten(feed[1..])
  }
}

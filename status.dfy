/**
  `updateBotStatus`: fetch the total, and if there is one and the chat client
  reports itself ready, publish exactly one presence carrying the formatted total.
*/
module Status {
  import opened Wrappers
  import Tvs
  import NumberFormat

  /** The activity kinds of the chat platform. */
  datatype ActivityType = Playing | Streaming | Listening | Watching | Custom | Competing

  /** The presence statuses of the chat platform. */
  datatype PresenceStatus = Online | Idle | DoNotDisturb | Invisible

  datatype Activity = Activity(name: string, kind: ActivityType)

  /** The argument of `setPresence`. */
  datatype Presence = Presence(activities: seq<Activity>, status: PresenceStatus)

  /** The fixed start of the published activity name. */
  const NamePrefix: string := "RedStone TVS: "

  /**
    The chat client, cut down to what the bot uses: whether the session is
    ready, and the log of every presence set on it, oldest first.
  */
  class Client {
    var ready: bool
    var presences: seq<Presence>

    constructor (ready: bool)
      ensures this.ready == ready && presences == []
    {
      this.ready := ready;
      presences := [];
    }

    /** `client.isReady()`: reports the session's ready flag. */
    predicate IsReady(): (r: bool)
      reads this
      ensures r <==> ready
    {
      ready
    }

    /** `client.user.setPresence(p)`: records one update. */
    method SetPresence(p: Presence)
      modifies this`presences
      ensures presences == old(presences) + [p]
    {
      presences := presences + [p];
    }
  }

  /** The presence the bot publishes for a formatted total. */
  function StatusPresence(formatted: string): (p: Presence)
    ensures |p.activities| == 1 && p.activities[0].kind == Watching && p.status == Online
    ensures |p.activities[0].name| == |NamePrefix| + |formatted|
    ensures p.activities[0].name[..|NamePrefix|] == NamePrefix
    ensures p.activities[0].name[|NamePrefix|..] == formatted
  {
    Presence([Activity(NamePrefix + formatted, Watching)], Online)
  }

  /**
    One run of `updateBotStatus`. `response` is what the request returned
    (`None` when it threw); `fixed2` and `grouped2` render digits. No presence
    is set when the fetch fails or the client is not ready; otherwise exactly
    one, carrying the formatted total of the response.
  */
  method UpdateBotStatus(client: Client, response: Option<Tvs.ProtocolData>,
                         fixed2: real -> string, grouped2: real -> string)
    modifies client`presences
    ensures response.None? ==> client.presences == old(client.presences)
    ensures !client.ready ==> client.presences == old(client.presences)
    ensures response.Some? && client.ready ==>
      var total := Tvs.Sum(response.value.currentChainTvls.GetOr([]));
      client.presences == old(client.presences)
        + [StatusPresence(NumberFormat.FormatNumber(total, fixed2, grouped2))]
  {
    var tvs := Tvs.FetchTvs(response);
    if tvs.None? {
      return;
    }
    var formatted := NumberFormat.FormatNumber(tvs.value, fixed2, grouped2);
    if client.IsReady() {
      client.SetPresence(StatusPresence(formatted));
    }
  }
}

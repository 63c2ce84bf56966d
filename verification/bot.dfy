/**
 The four handlers as one transition function over the ledger. Each event is
 processed alone; platform calls become effect values in the outcome.
 */
module Bot {
  import opened Wrappers
  import opened Decimal
  import opened DeepLink
  import opened Ledger

  /** The referral count whose reaching triggers the reward announcement. */
  const RewardThreshold: nat := 30

  /**
   The group chat the start handler announces rewards in. The file binds it
   as the text "-1001250582965"; the platform takes a chat id as text or
   number alike, so the model uses the number.
   */
  const GroupChatId: int := -1001250582965

  /**
   What the platform delivers. For get-link, `linkId` is the freshly generated
   token and `platformLinkCreated` whether `create_chat_invite_link` succeeded;
   for joins, `addedBy` is the message's `from_user`, if any.
   */
  datatype Event =
    | StartCommand(sender: int, args: seq<string>)
    | GetLinkCommand(sender: int, botName: string, linkId: string, platformLinkCreated: bool)
    | StatsCommand
    | MembersJoined(chat: int, botId: int, addedBy: Option<int>, members: seq<int>)

  datatype ReplyKind =
    | Greeting             // /start without arguments
    | Welcome              // /start with an argument, whatever became of it
    | LinkIssued(url: string)
    | LinkFailed
    | NobodyYet            // /stats with no positive count
    | Standings(rows: map<string, nat>)

  datatype Effect =
    | Reply(kind: ReplyKind)
    | Congratulate(chat: int, inviter: int)
    | RewardPhoto(chat: int, inviter: int)   // the reward image, sent for `inviter`'s reward

  datatype Outcome = Outcome(ledger: Ledger, effects: seq<Effect>)

  /**
   `AsWritten` is the file as it stands: the module-level constants
   `PHOTO_PATH` and `GROUP_CHAT_ID` are assigned below the call to `main()`,
   which does not return while the bot polls, so every handler that reads them
   raises NameError; and the deep link lacks the slash after the host.
   `Intended` is the evidently intended behaviour.
   */
  datatype Variant = AsWritten | Intended

  /** Number of `Congratulate` effects for `inviter`. */
  function Announcements(effects: seq<Effect>, inviter: int): nat
  {
    if |effects| == 0 then 0
    else
      (if effects[0].Congratulate? && effects[0].inviter == inviter then 1 else 0)
      + Announcements(effects[1..], inviter)
  }

  /** Number of reward photos sent for `inviter`. */
  function Photos(effects: seq<Effect>, inviter: int): nat
  {
    if |effects| == 0 then 0
    else
      (if effects[0].RewardPhoto? && effects[0].inviter == inviter then 1 else 0)
      + Photos(effects[1..], inviter)
  }

  /** Number of joined members that are not the bot. */
  function HumanCount(members: seq<int>, botId: int): nat
  {
    if |members| == 0 then 0
    else (if members[0] == botId then 0 else 1) + HumanCount(members[1..], botId)
  }

  /** Reward effects of the start handler on reaching the threshold. */
  function GroupReward(v: Variant, inviter: int): seq<Effect>
  {
    match v
    // GROUP_CHAT_ID is unbound: NameError before anything is sent, caught by the handler.
    case AsWritten => []
    case Intended => [Congratulate(GroupChatId, inviter), RewardPhoto(GroupChatId, inviter)]
  }

  /** Reward effects of the join handler on reaching the threshold, in the joining chat. */
  function ChatReward(v: Variant, chat: int, inviter: int): seq<Effect>
  {
    match v
    // The message goes out; PHOTO_PATH is unbound, so the photo does not.
    case AsWritten => [Congratulate(chat, inviter)]
    case Intended => [Congratulate(chat, inviter), RewardPhoto(chat, inviter)]
  }

  /**
   `/start`. Without arguments, a greeting and nothing else. With arguments, a
   welcome always closes the outcome; before it, a first argument naming an
   inviter other than the sender credits that inviter's row.
   */
  function HandleStart(v: Variant, l: Ledger, sender: int, args: seq<string>): (r: Outcome)
    ensures r.ledger.inviteLinks == l.inviteLinks
    ensures |r.effects| > 0 && r.effects[|r.effects| - 1] == Reply(if |args| == 0 then Greeting else Welcome)
    ensures |args| == 0 || ParseInviter(args[0]).None? || ParseInviter(args[0]) == Some(sender) ==>
      r == Outcome(l, [Reply(if |args| == 0 then Greeting else Welcome)])
    ensures |args| > 0 && ParseInviter(args[0]).Some? && ParseInviter(args[0]).value != sender ==>
      var key := IntToString(ParseInviter(args[0]).value);
      r.ledger.referrals == l.referrals[key := Count(l, key) + 1]
  {
    if |args| == 0 then Outcome(l, [Reply(Greeting)])
    else
      match ParseInviter(args[0])
      case None => Outcome(l, [Reply(Welcome)])
      case Some(inviter) =>
        if inviter == sender then Outcome(l, [Reply(Welcome)])
        else
          var c := Credit(l, IntToString(inviter));
          var reward := if c.count == RewardThreshold then GroupReward(v, inviter) else [];
          Outcome(c.ledger, reward + [Reply(Welcome)])
  }

  /**
   `/getlink`. The link row is written first, so it is written even when the
   platform then fails to create its invite link; the reply says which.
   */
  function HandleGetLink(v: Variant, l: Ledger, sender: int, botName: string, linkId: string, created: bool): (r: Outcome)
    ensures r.ledger == RecordLink(l, IntToString(sender), linkId)
    ensures created ==> r.effects == [Reply(LinkIssued(
      if v == Intended then DeepLinkUrl(botName, sender) else DeepLinkUrlAsWritten(botName, sender)))]
    ensures !created ==> r.effects == [Reply(LinkFailed)]
  {
    var recorded := RecordLink(l, IntToString(sender), linkId);
    if !created then Outcome(recorded, [Reply(LinkFailed)])
    else
      var url := match v
        case AsWritten => DeepLinkUrlAsWritten(botName, sender)
        case Intended => DeepLinkUrl(botName, sender);
      Outcome(recorded, [Reply(LinkIssued(url))])
  }

  /**
   `/stats`. The ledger is only read. With no positive count the reply is
   "nobody yet"; otherwise the standings are every positive row.
   */
  function HandleStats(v: Variant, l: Ledger): (r: Outcome)
    ensures r.ledger == l
    ensures (forall u :: Count(l, u) == 0) ==> r.effects == [Reply(NobodyYet)]
    ensures v == Intended && (exists u :: Count(l, u) > 0) ==> r.effects == [Reply(Standings(StatsRows(l)))]
  {
    var rows := StatsRows(l);
    if rows == map[] then Outcome(l, [Reply(NobodyYet)])
    else
      match v
      // The display-name lookup reads GROUP_CHAT_ID: NameError, not caught by the handler.
      case AsWritten => Outcome(l, [])
      case Intended => Outcome(l, [Reply(Standings(rows))])
  }

  /** One newly joined member: unless it is the bot, credit the user who added it. */
  function AdmitMember(v: Variant, l: Ledger, chat: int, botId: int, addedBy: Option<int>, member: int): Outcome
  {
    if member == botId || addedBy.None? then Outcome(l, [])
    else
      var c := Credit(l, IntToString(addedBy.value));
      Outcome(c.ledger, if c.count == RewardThreshold then ChatReward(v, chat, addedBy.value) else [])
  }

  /**
   The join handler's loop over the new members, in order. The adder's row
   grows by one per member that is not the bot; nothing else changes.
   */
  function HandleMembers(v: Variant, l: Ledger, chat: int, botId: int, addedBy: Option<int>, members: seq<int>): (r: Outcome)
    ensures r.ledger.inviteLinks == l.inviteLinks
    ensures addedBy.None? ==> r == Outcome(l, [])
    ensures addedBy.Some? ==>
      var key := IntToString(addedBy.value);
      && Count(r.ledger, key) == Count(l, key) + HumanCount(members, botId)
      && r.ledger.referrals - {key} == l.referrals - {key}
    decreases |members|
  {
    if |members| == 0 then Outcome(l, [])
    else
      var first := AdmitMember(v, l, chat, botId, addedBy, members[0]);
      var rest := HandleMembers(v, first.ledger, chat, botId, addedBy, members[1..]);
      Outcome(rest.ledger, first.effects + rest.effects)
  }

  function Handle(v: Variant, l: Ledger, e: Event): Outcome
  {
    match e
    case StartCommand(sender, args) => HandleStart(v, l, sender, args)
    case GetLinkCommand(sender, botName, linkId, created) => HandleGetLink(v, l, sender, botName, linkId, created)
    case StatsCommand => HandleStats(v, l)
    case MembersJoined(chat, botId, addedBy, members) => HandleMembers(v, l, chat, botId, addedBy, members)
  }

  /** One event, handled as intended. */
  function Step(l: Ledger, e: Event): Outcome
  {
    Handle(Intended, l, e)
  }

  /** One event, handled as the file stands. */
  function StepAsWritten(l: Ledger, e: Event): Outcome
  {
    Handle(AsWritten, l, e)
  }

  /** A sequence of events, one at a time, collecting the effects in order. */
  function Run(v: Variant, l: Ledger, events: seq<Event>): Outcome
    decreases |events|
  {
    if |events| == 0 then Outcome(l, [])
    else
      var first := Handle(v, l, events[0]);
      var rest := Run(v, first.ledger, events[1..]);
      Outcome(rest.ledger, first.effects + rest.effects)
  }

}

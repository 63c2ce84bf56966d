/**
 The handlers as the file stands against the handlers as intended.

 1. `PHOTO_PATH` and `GROUP_CHAT_ID` are assigned after the call to `main()`,
    which polls until the bot stops, so no handler ever sees them bound. As
    written, the start handler never announces a reward, the join handler
    never sends the reward photo, and `/stats` never answers once any count is
    positive. Only effects differ: the tables evolve identically.
 2. The deep link is built as `https://t.me` followed directly by the bot's
    name, so its host is not `t.me`.
 */
module Findings {
  import opened Wrappers
  import opened Decimal
  import opened Text
  import opened DeepLink
  import opened Ledger
  import opened Bot
  import opened Properties

  ghost predicate SendsPhoto(effects: seq<Effect>)
  {
    exists k :: 0 <= k < |effects| && effects[k].RewardPhoto?
  }

  /** As written, a start only ever produces its reply: no announcement, no photo. */
  lemma AsWrittenStartOnlyReplies(l: Ledger, sender: int, args: seq<string>)
    ensures StepAsWritten(l, StartCommand(sender, args)).effects ==
      [Reply(if |args| == 0 then Greeting else Welcome)]
  {
  }

  /** As written, the 30th credit through a start is silent, where the intended handler rewards. */
  lemma AsWrittenThirtiethStartIsSilent(l: Ledger, a: int, b: int)
    requires a != b
    requires Count(l, IntToString(a)) == RewardThreshold - 1
    ensures StepAsWritten(l, StartCommand(b, [StartParam(a)])).effects == [Reply(Welcome)]
    ensures Count(StepAsWritten(l, StartCommand(b, [StartParam(a)])).ledger, IntToString(a)) == RewardThreshold
    ensures Step(l, StartCommand(b, [StartParam(a)])).effects != [Reply(Welcome)]
  {
    ParseStartParam(a);
    ThirtiethStartRewards(l, a, b);
  }

  /** As written, the join handler never sends the reward photo. */
  lemma {:induction false} AsWrittenJoinSendsNoPhoto(l: Ledger, chat: int, botId: int, addedBy: Option<int>, members: seq<int>)
    ensures !SendsPhoto(HandleMembers(AsWritten, l, chat, botId, addedBy, members).effects)
    decreases |members|
  {
    if |members| > 0 {
      var first := AdmitMember(AsWritten, l, chat, botId, addedBy, members[0]);
      var rest := HandleMembers(AsWritten, first.ledger, chat, botId, addedBy, members[1..]);
      AsWrittenJoinSendsNoPhoto(first.ledger, chat, botId, addedBy, members[1..]);
      assert !SendsPhoto(first.effects) by {
        if members[0] != botId && addedBy.Some? {
          var c := Credit(l, IntToString(addedBy.value));
          assert first.effects == if c.count == RewardThreshold then [Congratulate(chat, addedBy.value)] else [];
        }
      }
    }
  }

  /** As written, `/stats` sends nothing once some count is positive. */
  lemma AsWrittenStatsSilent(l: Ledger, u: string)
    requires Count(l, u) > 0
    ensures StepAsWritten(l, StatsCommand).effects == []
    ensures Step(l, StatsCommand).effects == [Reply(Standings(StatsRows(l)))]
  {
    assert u in StatsRows(l);
  }

  lemma {:induction false} MembersLedgerIndependentOfVariant(l: Ledger, chat: int, botId: int, addedBy: Option<int>, members: seq<int>)
    ensures HandleMembers(AsWritten, l, chat, botId, addedBy, members).ledger ==
      HandleMembers(Intended, l, chat, botId, addedBy, members).ledger
    decreases |members|
  {
    if |members| > 0 {
      var first := AdmitMember(Intended, l, chat, botId, addedBy, members[0]);
      assert AdmitMember(AsWritten, l, chat, botId, addedBy, members[0]).ledger == first.ledger;
      MembersLedgerIndependentOfVariant(first.ledger, chat, botId, addedBy, members[1..]);
    }
  }

  /** The unbound constants cost only effects: both variants write the same tables. */
  lemma AsWrittenSameLedger(l: Ledger, e: Event)
    ensures StepAsWritten(l, e).ledger == Step(l, e).ledger
  {
    if e.MembersJoined? {
      MembersLedgerIndependentOfVariant(l, e.chat, e.botId, e.addedBy, e.members);
    }
  }

  /** As written, the link for any bot name not starting with '/' is not under `https://t.me/`. */
  lemma AsWrittenLinkLacksSlash(botName: string, user: int)
    requires |botName| > 0 && botName[0] != '/'
    ensures !StartsWith(DeepLinkUrlAsWritten(botName, user), LinkHost)
  {
    var url := DeepLinkUrlAsWritten(botName, user);
    assert url[|LinkHost| - 1] == botName[0];
  }

  lemma ThreeParts(a: string, b: string, c: string)
    ensures StartsWith(a + b + c, a)
    ensures (a + b + c)[|a|..|a| + |b|] == b
    ensures (a + b + c)[|a| + |b|..] == c
  {
    assert (a + b + c)[..|a|] == a;
  }

  /**
   As intended, the link is under `https://t.me/`, names the bot, and carries
   a start parameter that the start handler reads back as the requester.
   */
  lemma IntendedLinkNamesRequester(botName: string, user: int)
    ensures var url := DeepLinkUrl(botName, user);
      && StartsWith(url, LinkHost)
      && url[|LinkHost|..|LinkHost| + |botName|] == botName
      && url[|LinkHost| + |botName|..] == "?start=" + StartParam(user)
      && ParseInviter(StartParam(user)) == Some(user)
  {
    ThreeParts(LinkHost, botName, "?start=" + StartParam(user));
    ParseStartParam(user);
  }

}

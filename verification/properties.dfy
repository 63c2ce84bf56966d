/**
 Properties of the handlers over single events and over runs of events:
 exactly-once reward announcement, monotone counts, the stats view of a
 reachable ledger, and the link-then-start round trip.
 */
module Properties {
  import opened Wrappers
  import opened Decimal
  import opened DeepLink
  import opened Ledger
  import opened Bot
  import opened Text

  /** Whether a count moved from below the threshold to at or above it. */
  function Crossed(before: nat, after: nat): nat
  {
    if before < RewardThreshold <= after then 1 else 0
  }

  lemma {:induction false} AnnouncementsAppend(a: seq<Effect>, b: seq<Effect>, i: int)
    ensures Announcements(a + b, i) == Announcements(a, i) + Announcements(b, i)
    decreases |a|
  {
    if |a| == 0 {
      assert a + b == b;
    } else {
      assert (a + b)[0] == a[0];
      assert (a + b)[1..] == a[1..] + b;
      AnnouncementsAppend(a[1..], b, i);
    }
  }

  lemma {:induction false} PhotosAppend(a: seq<Effect>, b: seq<Effect>, i: int)
    ensures Photos(a + b, i) == Photos(a, i) + Photos(b, i)
    decreases |a|
  {
    if |a| == 0 {
      assert a + b == b;
    } else {
      assert (a + b)[0] == a[0];
      assert (a + b)[1..] == a[1..] + b;
      PhotosAppend(a[1..], b, i);
    }
  }

  /**
   The reward effects congratulate exactly their own inviter, once; as
   intended they also send that inviter's photo once, as written none.
   */
  lemma RewardAnnouncesItsInviter(v: Variant, chat: int, j: int, i: int)
    ensures Announcements(ChatReward(v, chat, j), i) == (if j == i then 1 else 0)
    ensures Photos(ChatReward(v, chat, j), i) == (if j == i && v == Intended then 1 else 0)
    ensures Announcements(GroupReward(Intended, j), i) == (if j == i then 1 else 0)
    ensures Photos(GroupReward(Intended, j), i) == (if j == i then 1 else 0)
  {
    var c, p := Congratulate(chat, j), RewardPhoto(chat, j);
    SingletonCounts(c, i);
    SingletonCounts(p, i);
    assert [c, p] == [c] + [p];
    AnnouncementsAppend([c], [p], i);
    PhotosAppend([c], [p], i);
    var gc, gp := Congratulate(GroupChatId, j), RewardPhoto(GroupChatId, j);
    SingletonCounts(gc, i);
    SingletonCounts(gp, i);
    assert [gc, gp] == [gc] + [gp];
    AnnouncementsAppend([gc], [gp], i);
    PhotosAppend([gc], [gp], i);
  }

  lemma SingletonCounts(e: Effect, i: int)
    ensures Announcements([e], i) == if e.Congratulate? && e.inviter == i then 1 else 0
    ensures Photos([e], i) == if e.RewardPhoto? && e.inviter == i then 1 else 0
  {
    assert [e][1..] == [];
  }

  /** A credit to a different user leaves `user`'s count as it was. */
  lemma CreditOtherUser(l: Ledger, j: int, i: int)
    requires j != i
    ensures Count(Credit(l, IntToString(j)).ledger, IntToString(i)) == Count(l, IntToString(i))
  {
    if IntToString(j) == IntToString(i) {
      IntToStringInjective(j, i);
    }
  }

  /**
   One admitted member congratulates `i` exactly when `i`'s count crosses the
   threshold, and as intended sends `i`'s photo exactly then too.
   */
  lemma AdmitMemberAnnounces(v: Variant, l: Ledger, chat: int, botId: int, addedBy: Option<int>, m: int, i: int)
    ensures var o := AdmitMember(v, l, chat, botId, addedBy, m);
      && CountsGrow(l, o.ledger)
      && Announcements(o.effects, i) == Crossed(Count(l, IntToString(i)), Count(o.ledger, IntToString(i)))
      && Photos(o.effects, i) == if v == Intended then Crossed(Count(l, IntToString(i)), Count(o.ledger, IntToString(i))) else 0
  {
    var o := AdmitMember(v, l, chat, botId, addedBy, m);
    if m != botId && addedBy.Some? {
      var j := addedBy.value;
      RewardAnnouncesItsInviter(v, chat, j, i);
      if j != i {
        CreditOtherUser(l, j, i);
      }
    }
  }

  /**
   The join handler congratulates `i` exactly when `i`'s count crosses the
   threshold, and as intended sends `i`'s photo exactly then too.
   */
  lemma {:induction false} MembersAnnounce(v: Variant, l: Ledger, chat: int, botId: int, addedBy: Option<int>, members: seq<int>, i: int)
    ensures var o := HandleMembers(v, l, chat, botId, addedBy, members);
      && CountsGrow(l, o.ledger)
      && Announcements(o.effects, i) == Crossed(Count(l, IntToString(i)), Count(o.ledger, IntToString(i)))
      && Photos(o.effects, i) == if v == Intended then Crossed(Count(l, IntToString(i)), Count(o.ledger, IntToString(i))) else 0
    decreases |members|
  {
    if |members| > 0 {
      var first := AdmitMember(v, l, chat, botId, addedBy, members[0]);
      var rest := HandleMembers(v, first.ledger, chat, botId, addedBy, members[1..]);
      AdmitMemberAnnounces(v, l, chat, botId, addedBy, members[0], i);
      MembersAnnounce(v, first.ledger, chat, botId, addedBy, members[1..], i);
      AnnouncementsAppend(first.effects, rest.effects, i);
      PhotosAppend(first.effects, rest.effects, i);
    }
  }

  /**
   The start handler, as intended, congratulates `i` and sends `i`'s photo
   exactly when `i`'s count crosses the threshold.
   */
  lemma StartAnnounces(l: Ledger, sender: int, args: seq<string>, i: int)
    ensures var o := HandleStart(Intended, l, sender, args);
      && CountsGrow(l, o.ledger)
      && Announcements(o.effects, i) == Crossed(Count(l, IntToString(i)), Count(o.ledger, IntToString(i)))
      && Photos(o.effects, i) == Crossed(Count(l, IntToString(i)), Count(o.ledger, IntToString(i)))
  {
    var o := HandleStart(Intended, l, sender, args);
    assert Announcements([Reply(Welcome)], i) == 0 by { assert [Reply(Welcome)][1..] == []; }
    assert Announcements([Reply(Greeting)], i) == 0 by { assert [Reply(Greeting)][1..] == []; }
    if |args| > 0 && ParseInviter(args[0]).Some? && ParseInviter(args[0]).value != sender {
      var j := ParseInviter(args[0]).value;
      var c := Credit(l, IntToString(j));
      var reward := if c.count == RewardThreshold then GroupReward(Intended, j) else [];
      assert o.effects == reward + [Reply(Welcome)];
      AnnouncementsAppend(reward, [Reply(Welcome)], i);
      PhotosAppend(reward, [Reply(Welcome)], i);
      RewardAnnouncesItsInviter(Intended, GroupChatId, j, i);
      if j != i {
        CreditOtherUser(l, j, i);
      }
    }
  }

  /**
   Any single event, handled as intended, congratulates `i` and sends `i`'s
   photo exactly when `i`'s count crosses the threshold.
   */
  lemma StepAnnouncesOnCrossing(l: Ledger, e: Event, i: int)
    ensures var o := Step(l, e);
      && CountsGrow(l, o.ledger)
      && Announcements(o.effects, i) == Crossed(Count(l, IntToString(i)), Count(o.ledger, IntToString(i)))
      && Photos(o.effects, i) == Crossed(Count(l, IntToString(i)), Count(o.ledger, IntToString(i)))
  {
    match e
    case StartCommand(sender, args) => StartAnnounces(l, sender, args, i);
    case GetLinkCommand(sender, botName, linkId, created) =>
      var o := Step(l, e);
      assert o.effects[1..] == [];
    case StatsCommand =>
      var o := Step(l, e);
      assert o.effects[1..] == [];
    case MembersJoined(chat, botId, addedBy, members) =>
      MembersAnnounce(Intended, l, chat, botId, addedBy, members, i);
  }

  /**
   Over any run of events, each user is rewarded (congratulation and photo)
   at most once: exactly once when the run takes the user's count from below
   the threshold to at or above it, and never otherwise. Counts never fall.
   */
  lemma {:induction false} RunAnnouncesOnce(l: Ledger, events: seq<Event>, i: int)
    ensures var o := Run(Intended, l, events);
      && CountsGrow(l, o.ledger)
      && Announcements(o.effects, i) == Crossed(Count(l, IntToString(i)), Count(o.ledger, IntToString(i)))
      && Photos(o.effects, i) == Crossed(Count(l, IntToString(i)), Count(o.ledger, IntToString(i)))
      && Announcements(o.effects, i) <= 1
    decreases |events|
  {
    if |events| > 0 {
      var first := Handle(Intended, l, events[0]);
      var rest := Run(Intended, first.ledger, events[1..]);
      StepAnnouncesOnCrossing(l, events[0], i);
      RunAnnouncesOnce(first.ledger, events[1..], i);
      AnnouncementsAppend(first.effects, rest.effects, i);
      PhotosAppend(first.effects, rest.effects, i);
    }
  }

  /** Every handler, in either variant, keeps every stored count positive. */
  lemma HandleKeepsRowsPositive(v: Variant, l: Ledger, e: Event)
    requires RowsPositive(l)
    ensures RowsPositive(Handle(v, l, e).ledger)
  {
    match e
    case StartCommand(sender, args) =>
      if |args| > 0 && ParseInviter(args[0]).Some? {
        CreditKeepsRowsPositive(l, IntToString(ParseInviter(args[0]).value));
      }
    case GetLinkCommand(_, _, _, _) =>
    case StatsCommand =>
    case MembersJoined(chat, botId, addedBy, members) =>
      MembersKeepRowsPositive(v, l, chat, botId, addedBy, members);
  }

  lemma {:induction false} MembersKeepRowsPositive(v: Variant, l: Ledger, chat: int, botId: int, addedBy: Option<int>, members: seq<int>)
    requires RowsPositive(l)
    ensures RowsPositive(HandleMembers(v, l, chat, botId, addedBy, members).ledger)
    decreases |members|
  {
    if |members| > 0 {
      var first := AdmitMember(v, l, chat, botId, addedBy, members[0]);
      if members[0] != botId && addedBy.Some? {
        CreditKeepsRowsPositive(l, IntToString(addedBy.value));
      }
      MembersKeepRowsPositive(v, first.ledger, chat, botId, addedBy, members[1..]);
    }
  }

  /**
   Starting from empty tables, every referral row ever stored is positive, so
   `/stats` answers "nobody yet" exactly when the referral table is empty and
   otherwise lists the whole table.
   */
  lemma {:induction false} RunFromEmptyStatsListEveryRow(events: seq<Event>)
    ensures var l := Run(Intended, Empty, events).ledger;
      && RowsPositive(l)
      && (l.referrals == map[] ==> Step(l, StatsCommand).effects == [Reply(NobodyYet)])
      && (l.referrals != map[] ==> Step(l, StatsCommand).effects == [Reply(Standings(l.referrals))])
  {
    RunKeepsRowsPositive(Intended, Empty, events);
    var l := Run(Intended, Empty, events).ledger;
    StatsShowEveryRow(l);
    if l.referrals != map[] {
      var u :| u in l.referrals;
      assert Count(l, u) > 0;
    }
  }

  lemma {:induction false} RunKeepsRowsPositive(v: Variant, l: Ledger, events: seq<Event>)
    requires RowsPositive(l)
    ensures RowsPositive(Run(v, l, events).ledger)
    decreases |events|
  {
    if |events| > 0 {
      HandleKeepsRowsPositive(v, l, events[0]);
      RunKeepsRowsPositive(v, Handle(v, l, events[0]).ledger, events[1..]);
    }
  }

  /** `n` deep-link starts naming `inviter`, one per sender. */
  function StartsNaming(inviter: int, senders: seq<int>): (events: seq<Event>)
    ensures |events| == |senders|
  {
    if |senders| == 0 then []
    else [StartCommand(senders[0], [StartParam(inviter)])] + StartsNaming(inviter, senders[1..])
  }

  /**
   Starts through an inviter's link by `n` senders other than the inviter
   raise the inviter's count by exactly `n` and touch no other row.
   */
  lemma {:induction false} RepeatedStartsCount(l: Ledger, inviter: int, senders: seq<int>)
    requires forall k :: 0 <= k < |senders| ==> senders[k] != inviter
    ensures var o := Run(Intended, l, StartsNaming(inviter, senders));
      && Count(o.ledger, IntToString(inviter)) == Count(l, IntToString(inviter)) + |senders|
      && o.ledger.referrals - {IntToString(inviter)} == l.referrals - {IntToString(inviter)}
      && o.ledger.inviteLinks == l.inviteLinks
    decreases |senders|
  {
    if |senders| > 0 {
      var events := StartsNaming(inviter, senders);
      ParseStartParam(inviter);
      var key := IntToString(inviter);
      assert events[0] == StartCommand(senders[0], [StartParam(inviter)]);
      var first := HandleStart(Intended, l, senders[0], [StartParam(inviter)]);
      assert first.ledger.referrals == l.referrals[key := Count(l, key) + 1];
      assert first.ledger.inviteLinks == l.inviteLinks;
      assert Handle(Intended, l, events[0]) == first;
      assert events[1..] == StartsNaming(inviter, senders[1..]);
      RepeatedStartsCount(first.ledger, inviter, senders[1..]);
      var o := Run(Intended, first.ledger, events[1..]);
      assert Run(Intended, l, events).ledger == o.ledger;
    }
  }

  /**
   A link issued to `a`, followed by a start with its parameter by a different
   user `b`, raises `a`'s count by one; the link row for `a` holds the link id.
   */
  lemma LinkThenStartCreditsIssuer(l: Ledger, a: int, b: int, botName: string, linkId: string)
    requires a != b
    ensures var issued := Step(l, GetLinkCommand(a, botName, linkId, true));
      var started := Step(issued.ledger, StartCommand(b, [StartParam(a)]));
      && issued.effects == [Reply(LinkIssued(DeepLinkUrl(botName, a)))]
      && started.ledger.inviteLinks[IntToString(a)] == linkId
      && Count(started.ledger, IntToString(a)) == Count(l, IntToString(a)) + 1
  {
    ParseStartParam(a);
  }

  /** The 30th credit through a start announces the inviter and sends the photo to the group. */
  lemma ThirtiethStartRewards(l: Ledger, a: int, b: int)
    requires a != b
    requires Count(l, IntToString(a)) == RewardThreshold - 1
    ensures Step(l, StartCommand(b, [StartParam(a)])).effects ==
      [Congratulate(GroupChatId, a), RewardPhoto(GroupChatId, a), Reply(Welcome)]
  {
    ParseStartParam(a);
  }

  /**
   As intended, the join that brings the adder's count from 29 to 30 sends the
   congratulation and then the photo to the joining chat.
   */
  lemma ThirtiethJoinRewards(l: Ledger, chat: int, botId: int, a: int, m: int)
    requires m != botId
    requires Count(l, IntToString(a)) == RewardThreshold - 1
    ensures HandleMembers(Intended, l, chat, botId, Some(a), [m]).effects ==
      [Congratulate(chat, a), RewardPhoto(chat, a)]
  {
    var first := AdmitMember(Intended, l, chat, botId, Some(a), m);
    assert [m][1..] == [];
    assert first.effects == [Congratulate(chat, a), RewardPhoto(chat, a)];
  }

  /**
   A start whose parameter's inviter field is an integer literal other than
   the sender credits the literal's canonical text: `+` and leading zeros
   dropped, so "inviter_007" and "inviter_+7" both credit "7".
   */
  lemma StartCreditsCanonicalKey(l: Ledger, sender: int, param: string)
    requires StartsWith(param, InviterPrefix) && IsIntLiteral(InviterField(param))
    requires ParseInt(InviterField(param)).value != sender
    ensures var key := CanonicalLiteral(InviterField(param));
      Step(l, StartCommand(sender, [param])).ledger.referrals == l.referrals[key := Count(l, key) + 1]
  {
    ParseThenPrintIsCanonical(InviterField(param));
  }

  /** A zero-padded parameter credits the canonical key: "inviter_007" credits "7". */
  lemma PaddedInviterCreditsCanonicalKey()
    ensures Step(Empty, StartCommand(1, ["inviter_007"])).ledger.referrals == map["7" := 1]
  {
    var param := "inviter_007";
    assert param[..|InviterPrefix|] == InviterPrefix;
    assert param[|InviterPrefix|..] == "007";
    SplitWithoutSeparator("007", '_');
    FirstFieldIsTakeUntil("007", '_');
    assert "007" == "0" + "07" && "07" == "0" + "7";
    ZeroPaddedLiteral("07");
    ZeroPaddedLiteral("7");
    assert DigitsValue("7") == 7;
    assert ParseInviter(param) == Some(7);
    assert NatToString(7) == "7";
  }

}

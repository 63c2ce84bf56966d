/**
 The bot's two tables. `referrals` maps a user id (as text) to a referral
 count; `invite_links` maps a user id (as text) to the last link id issued to
 that user. Both start empty; rows are never deleted.
 */
module Ledger {
  import opened Wrappers

  datatype Ledger = Ledger(referrals: map<string, nat>, inviteLinks: map<string, string>)

  const Empty: Ledger := Ledger(map[], map[])

  /** A user's referral count; a missing row counts as 0. */
  function Count(l: Ledger, user: string): nat
  {
    if user in l.referrals then l.referrals[user] else 0
  }

  /** Insert a zero row for `user` unless the user already has a row. */
  function InsertOrIgnoreZero(table: map<string, nat>, user: string): map<string, nat>
  {
    if user in table then table else table[user := 0]
  }

  /** Add one to the count of every row keyed by `user` (there is at most one). */
  function AddOneWhere(table: map<string, nat>, user: string): map<string, nat>
  {
    map u | u in table :: if u == user then table[u] + 1 else table[u]
  }

  /** Read back `user`'s count, if the user has a row. */
  function SelectCount(table: map<string, nat>, user: string): Option<nat>
  {
    if user in table then Some(table[user]) else None
  }

  datatype Credited = Credited(ledger: Ledger, count: nat)

  /**
   One credit to `user`: make sure a row exists, add one to it, read it back.
   The returned count is one more than before and is what is now stored; no
   other referral row and no invite link changes.
   */
  function Credit(l: Ledger, user: string): (r: Credited)
    ensures r.count == Count(l, user) + 1
    ensures Count(r.ledger, user) == r.count
    ensures r.ledger.referrals == l.referrals[user := r.count]
    ensures r.ledger.inviteLinks == l.inviteLinks
  {
    var inserted := InsertOrIgnoreZero(l.referrals, user);
    var updated := AddOneWhere(inserted, user);
    assert updated == l.referrals[user := Count(l, user) + 1];
    Credited(l.(referrals := updated), SelectCount(updated, user).value)
  }

  /**
   Insert `user`'s link row, replacing any earlier one:
   afterwards `user` maps to `linkId`, every other link row is as before, and
   the referral table is untouched.
   */
  function RecordLink(l: Ledger, user: string, linkId: string): (r: Ledger)
    ensures r.inviteLinks.Keys == l.inviteLinks.Keys + {user}
    ensures r.inviteLinks[user] == linkId
    ensures forall u :: u in l.inviteLinks && u != user ==> r.inviteLinks[u] == l.inviteLinks[u]
    ensures r.referrals == l.referrals
  {
    l.(inviteLinks := l.inviteLinks[user := linkId])
  }

  /**
   The stats query over the referral table:
   exactly the users with a positive count, each with its stored count.
   */
  function StatsRows(l: Ledger): (rows: map<string, nat>)
    ensures forall u :: u in rows <==> Count(l, u) > 0
    ensures forall u :: u in rows ==> rows[u] == Count(l, u)
  {
    map u | u in l.referrals && l.referrals[u] > 0 :: l.referrals[u]
  }

  /** Every stored row holds a positive count: true of any ledger the bot builds from empty. */
  ghost predicate RowsPositive(l: Ledger)
  {
    forall u :: u in l.referrals ==> l.referrals[u] > 0
  }

  /** No count goes down from `before` to `after`. */
  ghost predicate CountsGrow(before: Ledger, after: Ledger)
  {
    forall u :: Count(before, u) <= Count(after, u)
  }

  /** Issuing twice to one user leaves one row, holding the second link id. */
  lemma {:induction false} RecordLinkOverwrites(l: Ledger, user: string, first: string, second: string)
    ensures RecordLink(RecordLink(l, user, first), user, second) == RecordLink(l, user, second)
  {
    var a := RecordLink(RecordLink(l, user, first), user, second);
    var b := RecordLink(l, user, second);
    assert a.inviteLinks == b.inviteLinks;
  }

  /** When every row is positive, the stats query returns the whole referral table. */
  lemma StatsShowEveryRow(l: Ledger)
    requires RowsPositive(l)
    ensures StatsRows(l) == l.referrals
  {
  }

  /** A credit keeps every row positive and lets no count fall. */
  lemma CreditKeepsRowsPositive(l: Ledger, user: string)
    requires RowsPositive(l)
    ensures RowsPositive(Credit(l, user).ledger)
    ensures CountsGrow(l, Credit(l, user).ledger)
  {
  }

}

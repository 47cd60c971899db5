/**
 * How `create_queue` chooses the ordinal of a new ticket: the ordinals of
 * the office's waiting/serving tickets are "used", those of its tickets
 * completed or cancelled within the last ten minutes are "cooling down"
 * (looked up only when something is used), and the lowest ordinal from 1
 * upward that is in neither set is taken; when all of 1..999 are blocked
 * the scan ends at 1000.
 */
module Allocation {
  import opened Basics
  import opened QueueNumber
  import opened Queries

  /** Seconds a completed or cancelled ticket's number stays withheld. */
  const CooldownSeconds: int := 10 * 60

  /** The prefix of an office's display codes; an office without one uses "Q". */
  function PrefixOf(office: Office): string {
    office.queuePrefix.GetOr("Q")
  }

  /** The first office row with this id, as `.eq('id', office_id)` then `data[0]`. */
  function FindOffice(offices: seq<Office>, officeId: Id): (r: Option<Office>)
    ensures r.Some? ==> r.value in offices && r.value.id == officeId
    ensures r.None? ==> forall o :: o in offices ==> o.id != officeId
  {
    if offices == [] then None
    else if offices[0].id == officeId then Some(offices[0])
    else FindOffice(offices[1..], officeId)
  }

  /** The ordinals that parse out of the rows' display codes; codes that do not parse add nothing. */
  function Ordinals(rows: seq<Ticket>, prefix: string): set<nat> {
    if rows == [] then {}
    else
      Ordinals(rows[..|rows| - 1], prefix)
      + match ParseOrdinal(rows[|rows| - 1].number, prefix)
        case Some(k) => {k}
        case None => {}
  }

  lemma {:induction false} OrdinalsMembership(rows: seq<Ticket>, prefix: string, k: nat)
    ensures k in Ordinals(rows, prefix) <==> exists t :: t in rows && ParseOrdinal(t.number, prefix) == Some(k)
    decreases |rows|
  {
    if rows != [] {
      var init := rows[..|rows| - 1];
      OrdinalsMembership(init, prefix, k);
      assert rows == init + [rows[|rows| - 1]];
      if exists t :: t in rows && ParseOrdinal(t.number, prefix) == Some(k) {
        var t :| t in rows && ParseOrdinal(t.number, prefix) == Some(k);
        if t != rows[|rows| - 1] {
          assert t in init;
        }
      }
    }
  }

  /** The office's waiting and serving tickets (query A of `create_queue`). */
  function ActiveRows(tickets: seq<Ticket>, officeId: Id): seq<Ticket> {
    Filter(tickets, (t: Ticket) => t.officeId == officeId && IsActive(t.status))
  }

  lemma ActiveRowsMembership(tickets: seq<Ticket>, officeId: Id)
    ensures forall t :: t in ActiveRows(tickets, officeId) <==>
      t in tickets && t.officeId == officeId && IsActive(t.status)
  {
    FilterMembershipAll(tickets, (t: Ticket) => t.officeId == officeId && IsActive(t.status));
  }

  /** The office's tickets completed strictly after `now` minus ten minutes. */
  function RecentlyCompleted(tickets: seq<Ticket>, officeId: Id, now: int): seq<Ticket> {
    Filter(tickets, (t: Ticket) =>
      t.officeId == officeId && t.status == Completed
      && t.completedAt.Some? && t.completedAt.value > now - CooldownSeconds)
  }

  /** The office's tickets cancelled strictly after `now` minus ten minutes. */
  function RecentlyCancelled(tickets: seq<Ticket>, officeId: Id, now: int): seq<Ticket> {
    Filter(tickets, (t: Ticket) =>
      t.officeId == officeId && t.status == Cancelled
      && t.cancelledAt.Some? && t.cancelledAt.value > now - CooldownSeconds)
  }

  lemma CooldownRowsMembership(tickets: seq<Ticket>, officeId: Id, now: int)
    ensures forall t :: t in RecentlyCompleted(tickets, officeId, now) + RecentlyCancelled(tickets, officeId, now) <==>
      t in tickets && InCooldown(t, officeId, now)
  {
    FilterMembershipAll(tickets, (t: Ticket) =>
      t.officeId == officeId && t.status == Completed
      && t.completedAt.Some? && t.completedAt.value > now - CooldownSeconds);
    FilterMembershipAll(tickets, (t: Ticket) =>
      t.officeId == officeId && t.status == Cancelled
      && t.cancelledAt.Some? && t.cancelledAt.value > now - CooldownSeconds);
  }

  /** A ticket whose number cools down: just completed or just cancelled at this office. */
  predicate InCooldown(t: Ticket, officeId: Id, now: int) {
    && t.officeId == officeId
    && ((t.status == Completed && t.completedAt.Some? && t.completedAt.value > now - CooldownSeconds)
        || (t.status == Cancelled && t.cancelledAt.Some? && t.cancelledAt.value > now - CooldownSeconds))
  }

  function UsedNumbers(tickets: seq<Ticket>, officeId: Id, prefix: string): set<nat> {
    Ordinals(ActiveRows(tickets, officeId), prefix)
  }

  /** Gathered only when some number is used, exactly as `create_queue` does. */
  function CooldownNumbers(tickets: seq<Ticket>, officeId: Id, prefix: string, now: int): set<nat> {
    if UsedNumbers(tickets, officeId, prefix) == {} then {}
    else Ordinals(RecentlyCompleted(tickets, officeId, now) + RecentlyCancelled(tickets, officeId, now), prefix)
  }

  lemma UsedNumbersMembership(tickets: seq<Ticket>, officeId: Id, prefix: string, k: nat)
    ensures k in UsedNumbers(tickets, officeId, prefix) <==>
      exists t :: t in tickets && t.officeId == officeId && IsActive(t.status) && ParseOrdinal(t.number, prefix) == Some(k)
  {
    OrdinalsMembership(ActiveRows(tickets, officeId), prefix, k);
    ActiveRowsMembership(tickets, officeId);
  }

  lemma CooldownNumbersMembership(tickets: seq<Ticket>, officeId: Id, prefix: string, now: int, k: nat)
    ensures k in CooldownNumbers(tickets, officeId, prefix, now) <==>
      && UsedNumbers(tickets, officeId, prefix) != {}
      && exists t :: t in tickets && InCooldown(t, officeId, now) && ParseOrdinal(t.number, prefix) == Some(k)
  {
    var rows := RecentlyCompleted(tickets, officeId, now) + RecentlyCancelled(tickets, officeId, now);
    OrdinalsMembership(rows, prefix, k);
    CooldownRowsMembership(tickets, officeId, now);
  }

  /**
   * The scan `next_num := 1; while blocked: next_num += 1, stopping past 999`
   * from ordinal `k` on.
   */
  function LowestFreeFrom(k: nat, used: set<nat>, cooldown: set<nat>): (r: nat)
    requires 1 <= k <= 999
    ensures k <= r <= 1000
    ensures forall j :: k <= j < r ==> j in used || j in cooldown
    ensures r <= 999 ==> r !in used && r !in cooldown
    decreases 1000 - k
  {
    if k !in used && k !in cooldown then k
    else if k + 1 > 999 then k + 1
    else LowestFreeFrom(k + 1, used, cooldown)
  }

  /**
   * The chosen ordinal: the lowest in 1..999 that is neither used nor
   * cooling down, or 1000 when all of 1..999 are blocked.
   */
  function LowestFree(used: set<nat>, cooldown: set<nat>): (r: nat)
    ensures 1 <= r <= 1000
    ensures forall j :: 1 <= j < r ==> j in used || j in cooldown
    ensures r <= 999 ==> r !in used && r !in cooldown
    ensures r == 1000 <==> forall j :: 1 <= j <= 999 ==> j in used || j in cooldown
  {
    LowestFreeFrom(1, used, cooldown)
  }

  /** The ordinal `create_queue` allocates at this office. */
  function AllocatedOrdinal(tickets: seq<Ticket>, officeId: Id, prefix: string, now: int): nat {
    LowestFree(UsedNumbers(tickets, officeId, prefix), CooldownNumbers(tickets, officeId, prefix, now))
  }

  /** An office with no parseable waiting or serving ticket always hands out `prefix + "001"`. */
  lemma NothingUsedGivesFirst(tickets: seq<Ticket>, officeId: Id, prefix: string, now: int)
    requires forall t :: t in tickets && t.officeId == officeId && IsActive(t.status) ==>
      ParseOrdinal(t.number, prefix).None?
    ensures AllocatedOrdinal(tickets, officeId, prefix, now) == 1
    ensures QueueCode(prefix, AllocatedOrdinal(tickets, officeId, prefix, now)) == prefix + "001"
  {
    var used := UsedNumbers(tickets, officeId, prefix);
    if used != {} {
      var k :| k in used;
      UsedNumbersMembership(tickets, officeId, prefix, k);
      assert false;
    }
    assert Decimal(1) == "1";
    assert Zeros(2) == "00" by {
      assert Zeros(1) == [] + ['0'];
    }
  }

  /**
   * The allocated code is not the code of any waiting or serving ticket of
   * the office, unless the scan overflowed to 1000.
   */
  lemma AllocatedCodeNotActive(tickets: seq<Ticket>, officeId: Id, prefix: string, now: int, t: Ticket)
    requires ReadablePrefix(prefix)
    requires AllocatedOrdinal(tickets, officeId, prefix, now) <= 999
    requires t in tickets && t.officeId == officeId && IsActive(t.status)
    ensures t.number != QueueCode(prefix, AllocatedOrdinal(tickets, officeId, prefix, now))
  {
    var r := AllocatedOrdinal(tickets, officeId, prefix, now);
    if t.number == QueueCode(prefix, r) {
      QueueCodeRoundTrip(prefix, r);
      UsedNumbersMembership(tickets, officeId, prefix, r);
      assert false;
    }
  }

  /**
   * While some number is in use, the allocated code is not the code of a
   * ticket completed or cancelled at the office in the last ten minutes,
   * unless the scan overflowed to 1000.
   */
  lemma AllocatedCodeNotCoolingDown(tickets: seq<Ticket>, officeId: Id, prefix: string, now: int, t: Ticket)
    requires ReadablePrefix(prefix)
    requires UsedNumbers(tickets, officeId, prefix) != {}
    requires AllocatedOrdinal(tickets, officeId, prefix, now) <= 999
    requires t in tickets && InCooldown(t, officeId, now)
    ensures t.number != QueueCode(prefix, AllocatedOrdinal(tickets, officeId, prefix, now))
  {
    var r := AllocatedOrdinal(tickets, officeId, prefix, now);
    if t.number == QueueCode(prefix, r) {
      QueueCodeRoundTrip(prefix, r);
      CooldownNumbersMembership(tickets, officeId, prefix, now, r);
      assert false;
    }
  }

  /** The office's waiting tickets: the `people_ahead` count of a new ticket. */
  function WaitingCount(tickets: seq<Ticket>, officeId: Id): (r: nat)
    ensures r <= |tickets|
  {
    |Filter(tickets, (t: Ticket) => t.officeId == officeId && t.status == Waiting)|
  }

  lemma PadOneDigit(n: nat)
    requires 1 <= n <= 9
    ensures Pad3(n) == ['0', '0', DigitChar(n)]
  {
    assert Zeros(2) == "00" by {
      assert Zeros(1) == [] + ['0'];
    }
  }

  lemma ScenarioRows(a001: Ticket, a002: Ticket, now: int)
    requires a001.officeId == a002.officeId
    requires a001.status == Waiting
    requires a002.status == Completed && a002.completedAt == Some(now - 120)
    ensures ActiveRows([a001, a002], a001.officeId) == [a001]
    ensures RecentlyCompleted([a001, a002], a001.officeId, now) + RecentlyCancelled([a001, a002], a001.officeId, now) == [a002]
  {
    var tickets, office := [a001, a002], a001.officeId;
    assert tickets[..1] == [a001] && [a001][..0] == [] && tickets[1] == a002;
    assert ActiveRows([a001], office) == [a001];
    assert ActiveRows(tickets, office) == ActiveRows([a001], office);
    assert RecentlyCompleted([a001], office, now) == [];
    assert RecentlyCompleted(tickets, office, now) == RecentlyCompleted([a001], office, now) + [a002];
    assert RecentlyCancelled([a001], office, now) == [];
    assert RecentlyCancelled(tickets, office, now) == RecentlyCancelled([a001], office, now);
  }

  lemma SingleOrdinal(t: Ticket, prefix: string, n: nat)
    requires ReadablePrefix(prefix) && t.number == QueueCode(prefix, n)
    ensures Ordinals([t], prefix) == {n}
  {
    QueueCodeRoundTrip(prefix, n);
    assert [t][..0] == [];
  }

  /**
   * At office "A", with A001 waiting and A002 completed two minutes ago, the
   * next ticket is A003: the cooldown withholds 2 although nobody holds it.
   */
  lemma CooldownScenario(a001: Ticket, a002: Ticket, now: int)
    requires a001.officeId == a002.officeId
    requires a001.number == "A001" && a001.status == Waiting
    requires a002.number == "A002" && a002.status == Completed && a002.completedAt == Some(now - 120)
    ensures AllocatedOrdinal([a001, a002], a001.officeId, "A", now) == 3
    ensures QueueCode("A", AllocatedOrdinal([a001, a002], a001.officeId, "A", now)) == "A003"
  {
    var tickets, office := [a001, a002], a001.officeId;
    PadOneDigit(1);
    PadOneDigit(2);
    PadOneDigit(3);
    ScenarioRows(a001, a002, now);
    SingleOrdinal(a001, "A", 1);
    SingleOrdinal(a002, "A", 2);
    assert UsedNumbers(tickets, office, "A") == {1};
    assert CooldownNumbers(tickets, office, "A", now) == {2};
    assert LowestFreeFrom(1, {1}, {2}) == 3 by {
      assert LowestFreeFrom(3, {1}, {2}) == 3;
      assert LowestFreeFrom(2, {1}, {2}) == 3;
    }
  }
}

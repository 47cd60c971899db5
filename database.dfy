/**
 * `MobileDatabase`: the ticket operations of the mobile client over an
 * in-memory copy of the remote store. Each operation runs as one atomic step
 * on the store; the clock is passed in as `now` (and, for the admission
 * check, `todayStart`, the first instant of the local day).
 */
module Database {
  import opened Basics
  import opened QueueNumber
  import opened Queries
  import opened Allocation

  datatype CreateResult =
    | Created(ticket: Ticket, peopleAhead: nat)
    | Rejected(message: string)

  /** The `{'success': ..., 'message': ...}` answer of the other operations. */
  datatype Reply = Reply(success: bool, message: string)

  const CancelNote: string := "Cancelled by student"

  /** The `for q in rows: try: used.add(int(...)) except: continue` loop. */
  method CollectOrdinals(rows: seq<Ticket>, prefix: string) returns (nums: set<nat>)
    ensures nums == Ordinals(rows, prefix)
  {
    nums := {};
    var i := 0;
    while i < |rows|
      invariant 0 <= i <= |rows|
      invariant nums == Ordinals(rows[..i], prefix)
    {
      assert rows[..i + 1][..i] == rows[..i];
      var parsed := ParseOrdinal(rows[i].number, prefix);
      if parsed.Some? {
        nums := nums + {parsed.value};
      }
      i := i + 1;
    }
    assert rows[..|rows|] == rows;
  }

  /** The `while (next_num in used) or (next_num in cooldown)` scan for the lowest free ordinal. */
  method ScanLowestFree(used: set<nat>, cooldown: set<nat>) returns (next: nat)
    ensures next == LowestFree(used, cooldown)
  {
    next := 1;
    while next in used || next in cooldown
      invariant 1 <= next <= 999
      invariant LowestFreeFrom(next, used, cooldown) == LowestFree(used, cooldown)
      decreases 1000 - next
    {
      next := next + 1;
      if next > 999 {
        break;
      }
    }
  }

  /** No two rows share an id. */
  ghost predicate UniqueIds(tickets: seq<Ticket>) {
    forall i, j :: 0 <= i < j < |tickets| ==> tickets[i].id != tickets[j].id
  }

  /** The row as `cancel_student_queue` rewrites it. */
  function CancelRow(t: Ticket, now: int): Ticket {
    t.(status := Cancelled, cancelledAt := Some(now), notes := Some(CancelNote))
  }

  /** `update(...).eq('id', queue_id)`: every row with this id is rewritten, the others are kept. */
  function CancelRows(tickets: seq<Ticket>, queueId: Id, now: int): (r: seq<Ticket>)
    ensures |r| == |tickets|
  {
    seq(|tickets|, i requires 0 <= i < |tickets| =>
      if tickets[i].id == queueId then CancelRow(tickets[i], now) else tickets[i])
  }

  /** The ownership-and-status query that gates `cancel_student_queue`. */
  predicate CanCancel(tickets: seq<Ticket>, queueId: Id, studentId: Id) {
    exists t :: t in tickets && t.id == queueId && t.studentId == studentId && t.status == Waiting
  }

  /**
   * With unique ids a successful cancel changes exactly one row, the waiting
   * ticket that was found, and only its status, cancel time and notes.
   */
  lemma CancelTouchesOnlyThatRow(tickets: seq<Ticket>, queueId: Id, studentId: Id, now: int)
    requires UniqueIds(tickets)
    requires CanCancel(tickets, queueId, studentId)
    ensures exists i :: (0 <= i < |tickets|
      && tickets[i].id == queueId && tickets[i].studentId == studentId && tickets[i].status == Waiting
      && CancelRows(tickets, queueId, now) == tickets[i := CancelRow(tickets[i], now)])
  {
    var t :| t in tickets && t.id == queueId && t.studentId == studentId && t.status == Waiting;
    var i :| 0 <= i < |tickets| && tickets[i] == t;
    var r := CancelRows(tickets, queueId, now);
    forall j | 0 <= j < |tickets|
      ensures r[j] == tickets[i := CancelRow(tickets[i], now)][j]
    {
      if j != i {
        assert tickets[j].id != queueId by {
          if j < i { assert tickets[j].id != tickets[i].id; }
          else { assert tickets[i].id != tickets[j].id; }
        }
      }
    }
  }

  /** A cancelled ticket can never be cancelled again. */
  lemma CancelTwiceFails(tickets: seq<Ticket>, queueId: Id, studentId: Id, now: int)
    ensures !CanCancel(CancelRows(tickets, queueId, now), queueId, studentId)
  {
    var r := CancelRows(tickets, queueId, now);
    forall t | t in r
      ensures !(t.id == queueId && t.status == Waiting)
    {
      var i :| 0 <= i < |r| && r[i] == t;
    }
  }

  /**
   * The admission check keeps a student to one active ticket per day: a
   * student admitted with no active ticket created since `todayStart` has
   * exactly one afterwards, and nobody else's count moves.
   */
  lemma AdmissionKeepsOneActivePerDay(tickets: seq<Ticket>, t: Ticket, other: Id, todayStart: int)
    requires ActiveQueueCount(tickets, t.studentId, todayStart) == 0
    requires t.status == Waiting && t.createdAt >= todayStart
    ensures ActiveQueueCount(tickets + [t], t.studentId, todayStart) == 1
    ensures other != t.studentId ==>
      ActiveQueueCount(tickets + [t], other, todayStart) == ActiveQueueCount(tickets, other, todayStart)
  {
    FilterAppend(tickets, [t], (u: Ticket) => u.studentId == t.studentId && u.createdAt >= todayStart && IsActive(u.status));
    FilterAppend(tickets, [t], (u: Ticket) => u.studentId == other && u.createdAt >= todayStart && IsActive(u.status));
    assert [t][..0] == [];
  }

  /**
   * The admission check counts only tickets created since `todayStart`: a
   * student whose waiting ticket was created before today counts 0, so
   * `create_queue` admits them again and they end with two active tickets.
   */
  lemma YesterdaysTicketDoesNotBlock(y: Ticket, t: Ticket, todayStart: int)
    requires y.studentId == t.studentId
    requires y.status == Waiting && y.createdAt < todayStart
    requires t.status == Waiting && t.createdAt >= todayStart
    ensures ActiveQueueCount([y], y.studentId, todayStart) == 0
    ensures |Filter([y, t], (u: Ticket) => u.studentId == y.studentId && IsActive(u.status))| == 2
  {
    assert [y][..0] == [] && [y, t][..1] == [y];
  }

  /**
   * The ticket just inserted is what `get_student_queue` shows next, provided
   * the student's earlier tickets were all created before it.
   */
  lemma NewTicketIsShown(tickets: seq<Ticket>, t: Ticket, now: int)
    requires t.status == Waiting && t.createdAt == now
    requires forall u :: u in tickets && u.studentId == t.studentId ==> u.createdAt < now
    ensures StudentQueue(tickets + [t], t.studentId, now) == Some(t)
  {
    RecentTicketsMembership(tickets + [t], t.studentId, now);
    assert t in tickets + [t];
  }

  lemma InsertKeepsIds(tickets: seq<Ticket>, row: Ticket, nextId: Id)
    requires UniqueIds(tickets) && forall i :: 0 <= i < |tickets| ==> tickets[i].id < nextId
    requires row.id == nextId
    ensures UniqueIds(tickets + [row]) && forall i :: 0 <= i < |tickets + [row]| ==> (tickets + [row])[i].id < nextId + 1
  {
  }

  class MobileDatabase {
    /** The `queues` table. */
    var tickets: seq<Ticket>
    /** The `feedback` table. */
    var feedback: seq<Feedback>
    /** The `offices` table. */
    var offices: seq<Office>
    /** The id the store gives the next inserted ticket. */
    var nextId: Id

    ghost predicate Valid()
      reads this
    {
      && UniqueIds(tickets)
      && forall i :: 0 <= i < |tickets| ==> tickets[i].id < nextId
    }

    /** A client over a store whose rows are already there. */
    constructor (tickets: seq<Ticket>, feedback: seq<Feedback>, offices: seq<Office>, nextId: Id)
      requires UniqueIds(tickets)
      requires forall i :: 0 <= i < |tickets| ==> tickets[i].id < nextId
      ensures Valid()
      ensures this.tickets == tickets && this.feedback == feedback
      ensures this.offices == offices && this.nextId == nextId
    {
      this.tickets := tickets;
      this.feedback := feedback;
      this.offices := offices;
      this.nextId := nextId;
    }

    /**
     * `create_queue`: refuse a student who already holds an active ticket
     * created today, refuse an unknown office, otherwise insert a waiting
     * ticket with the lowest free number and report how many were waiting.
     */
    method CreateQueue(studentId: Id, officeId: Id, purpose: string, now: int, todayStart: int)
      returns (r: CreateResult)
      requires Valid()
      modifies this
      ensures Valid()
      ensures feedback == old(feedback) && offices == old(offices)
      ensures ActiveQueueCount(old(tickets), studentId, todayStart) > 0 ==>
        && r == Rejected("You are already in queue " +
             match StudentQueue(old(tickets), studentId, now)
             case Some(active) => active.number
             case None => "???")
        && tickets == old(tickets) && nextId == old(nextId)
      ensures ActiveQueueCount(old(tickets), studentId, todayStart) == 0 && FindOffice(offices, officeId).None? ==>
        && r == Rejected("Office not found")
        && tickets == old(tickets) && nextId == old(nextId)
      ensures ActiveQueueCount(old(tickets), studentId, todayStart) == 0 && FindOffice(offices, officeId).Some? ==>
        var prefix := PrefixOf(FindOffice(offices, officeId).value);
        && r.Created?
        && r.ticket == Ticket(old(nextId), studentId, officeId,
             QueueCode(prefix, AllocatedOrdinal(old(tickets), officeId, prefix, now)),
             purpose, Waiting, now, None, None, None)
        && r.peopleAhead == WaitingCount(old(tickets), officeId)
        && tickets == old(tickets) + [r.ticket]
        && nextId == old(nextId) + 1
    {
      if ActiveQueueCount(tickets, studentId, todayStart) > 0 {
        var active := StudentQueue(tickets, studentId, now);
        var num := if active.Some? then active.value.number else "???";
        return Rejected("You are already in queue " + num);
      }

      var office := FindOffice(offices, officeId);
      if office.None? {
        return Rejected("Office not found");
      }
      var prefix := PrefixOf(office.value);

      var used := CollectOrdinals(ActiveRows(tickets, officeId), prefix);
      var cooldown: set<nat> := {};
      if |used| > 0 {
        cooldown := CollectOrdinals(
          RecentlyCompleted(tickets, officeId, now) + RecentlyCancelled(tickets, officeId, now), prefix);
      }
      var nextNum := ScanLowestFree(used, cooldown);
      var queueNumber := QueueCode(prefix, nextNum);

      var peopleAhead := WaitingCount(tickets, officeId);
      var row := Ticket(nextId, studentId, officeId, queueNumber, purpose, Waiting, now, None, None, None);
      assert used == UsedNumbers(tickets, officeId, prefix);
      assert cooldown == CooldownNumbers(tickets, officeId, prefix, now);
      assert nextNum == AllocatedOrdinal(tickets, officeId, prefix, now);
      InsertKeepsIds(tickets, row, nextId);
      tickets := tickets + [row];
      nextId := nextId + 1;
      r := Created(row, peopleAhead);
    }

    /**
     * `cancel_student_queue`: only the student's own waiting ticket can be
     * cancelled; it becomes cancelled at `now` with the student's note.
     */
    method CancelStudentQueue(queueId: Id, studentId: Id, now: int) returns (reply: Reply)
      requires Valid()
      modifies this
      ensures Valid()
      ensures reply.success == CanCancel(old(tickets), queueId, studentId)
      ensures reply.message ==
        if reply.success then "Queue cancelled successfully"
        else "Queue cannot be cancelled (might be serving already)"
      ensures tickets == if reply.success then CancelRows(old(tickets), queueId, now) else old(tickets)
      ensures feedback == old(feedback) && offices == old(offices) && nextId == old(nextId)
    {
      if !CanCancel(tickets, queueId, studentId) {
        return Reply(false, "Queue cannot be cancelled (might be serving already)");
      }
      tickets := CancelRows(tickets, queueId, now);
      reply := Reply(true, "Queue cancelled successfully");
    }

    /** `submit_feedback`: store one feedback row; the rating is checked by the caller. */
    method SubmitFeedback(officeId: Id, studentId: Id, queueId: Id, rating: int, comment: string)
      returns (reply: Reply)
      requires Valid()
      requires 1 <= rating <= 5
      modifies this
      ensures Valid()
      ensures reply == Reply(true, "Feedback submitted")
      ensures feedback == old(feedback) + [Feedback(officeId, studentId, queueId, rating, comment)]
      ensures tickets == old(tickets) && offices == old(offices) && nextId == old(nextId)
    {
      feedback := feedback + [Feedback(officeId, studentId, queueId, rating, comment)];
      reply := Reply(true, "Feedback submitted");
    }
  }
}

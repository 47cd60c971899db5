/**
 * The rows of the remote store (tickets, i.e. the `queues` table, feedback
 * and offices) and the read-only queries the mobile client runs on them:
 * each `eq`/`in_`/`gte` chain is a `Filter`, each
 * `order('created_at', desc=True).limit(1)` is `Latest`, and each count is
 * the length of a filter's answer. Timestamps are integers (seconds).
 */
module Queries {
  import opened Basics

  type Id = nat

  /** Seconds in the trailing lookback window of `get_student_queue`. */
  const LookbackSeconds: int := 24 * 60 * 60

  datatype Status = Waiting | Serving | Completed | Cancelled

  datatype Ticket = Ticket(
    id: Id,
    studentId: Id,
    officeId: Id,
    number: string,
    purpose: string,
    status: Status,
    createdAt: int,
    completedAt: Option<int>,
    cancelledAt: Option<int>,
    notes: Option<string>)

  datatype Feedback = Feedback(officeId: Id, studentId: Id, queueId: Id, rating: int, comment: string)

  datatype Office = Office(id: Id, queuePrefix: Option<string>)

  predicate IsActive(s: Status) { s == Waiting || s == Serving }

  /** The statuses `get_student_queue` shows to the student. */
  predicate IsShown(s: Status) { s == Waiting || s == Serving || s == Cancelled }

  /**
   * The row with the largest `created_at`; on a tie, the one stored first
   * (the store leaves the order of ties unspecified).
   */
  function Latest(rows: seq<Ticket>): (r: Option<Ticket>)
    ensures r.None? <==> rows == []
    ensures r.Some? ==> r.value in rows && forall t :: t in rows ==> t.createdAt <= r.value.createdAt
  {
    if rows == [] then None
    else match Latest(rows[1..])
      case None => Some(rows[0])
      case Some(u) => if u.createdAt > rows[0].createdAt then Some(u) else Some(rows[0])
  }

  // ---------------------------------------------------------------- admission

  /** The student's waiting or serving tickets created at or after `todayStart`. */
  function ActiveToday(tickets: seq<Ticket>, studentId: Id, todayStart: int): seq<Ticket> {
    Filter(tickets, (t: Ticket) => t.studentId == studentId && t.createdAt >= todayStart && IsActive(t.status))
  }

  lemma ActiveTodayMembership(tickets: seq<Ticket>, studentId: Id, todayStart: int)
    ensures forall t :: t in ActiveToday(tickets, studentId, todayStart) <==>
      t in tickets && t.studentId == studentId && t.createdAt >= todayStart && IsActive(t.status)
  {
    FilterMembershipAll(tickets, (t: Ticket) => t.studentId == studentId && t.createdAt >= todayStart && IsActive(t.status));
  }

  /** `get_active_queue_count`: how many of the student's tickets created today are waiting or serving. */
  function ActiveQueueCount(tickets: seq<Ticket>, studentId: Id, todayStart: int): (r: nat)
    ensures r <= |tickets|
  {
    |ActiveToday(tickets, studentId, todayStart)|
  }

  lemma ActiveQueueCountPositive(tickets: seq<Ticket>, studentId: Id, todayStart: int)
    ensures ActiveQueueCount(tickets, studentId, todayStart) > 0 <==>
      exists t :: t in tickets && t.studentId == studentId && t.createdAt >= todayStart && IsActive(t.status)
  {
    var rows := ActiveToday(tickets, studentId, todayStart);
    ActiveTodayMembership(tickets, studentId, todayStart);
    if |rows| > 0 {
      assert rows[0] in rows;
    }
  }

  // ---------------------------------------------------------- current ticket

  /** The student's tickets created within the trailing 24 hours. */
  function RecentTickets(tickets: seq<Ticket>, studentId: Id, now: int): seq<Ticket> {
    Filter(tickets, (t: Ticket) => t.studentId == studentId && t.createdAt >= now - LookbackSeconds)
  }

  lemma RecentTicketsMembership(tickets: seq<Ticket>, studentId: Id, now: int)
    ensures forall t :: t in RecentTickets(tickets, studentId, now) <==>
      t in tickets && t.studentId == studentId && t.createdAt >= now - LookbackSeconds
  {
    FilterMembershipAll(tickets, (t: Ticket) => t.studentId == studentId && t.createdAt >= now - LookbackSeconds);
  }

  /** `get_student_queue`: the latest recent ticket, provided it is waiting, serving or cancelled. */
  function StudentQueue(tickets: seq<Ticket>, studentId: Id, now: int): Option<Ticket> {
    match Latest(RecentTickets(tickets, studentId, now))
    case None => None
    case Some(t) => if IsShown(t.status) then Some(t) else None
  }

  /**
   * What `get_student_queue` answers: a shown ticket of this student from the
   * last 24 hours that no other such ticket postdates, or nothing when there
   * is no recent ticket or the latest one is completed.
   */
  lemma StudentQueueIsLatestShown(tickets: seq<Ticket>, studentId: Id, now: int)
    ensures var r := StudentQueue(tickets, studentId, now);
      && (r.Some? ==>
            && r.value in tickets
            && r.value.studentId == studentId
            && r.value.createdAt >= now - LookbackSeconds
            && IsShown(r.value.status)
            && forall t :: t in tickets && t.studentId == studentId && t.createdAt >= now - LookbackSeconds ==>
                 t.createdAt <= r.value.createdAt)
      && (r.None? <==>
            RecentTickets(tickets, studentId, now) == []
            || Latest(RecentTickets(tickets, studentId, now)).value.status == Completed)
  {
    RecentTicketsMembership(tickets, studentId, now);
  }

  /**
   * A completed latest ticket hides every older one: the student sees no
   * ticket even though an earlier one from the same window is still waiting.
   */
  lemma CompletedLatestHidesWaiting(older: Ticket, newer: Ticket, now: int)
    requires older.studentId == newer.studentId
    requires now - LookbackSeconds <= older.createdAt < newer.createdAt
    requires older.status == Waiting && newer.status == Completed
    ensures StudentQueue([older, newer], older.studentId, now) == None
  {
    var rows := RecentTickets([older, newer], older.studentId, now);
    RecentTicketsMembership([older, newer], older.studentId, now);
    assert older in rows && newer in rows;
    assert Latest(rows).value.createdAt >= newer.createdAt;
  }

  // --------------------------------------------------------- pending feedback

  predicate HasFeedback(feedback: seq<Feedback>, queueId: Id) {
    exists f :: f in feedback && f.queueId == queueId
  }

  /** The student's completed tickets, whenever they were created. */
  function CompletedTickets(tickets: seq<Ticket>, studentId: Id): seq<Ticket> {
    Filter(tickets, (t: Ticket) => t.studentId == studentId && t.status == Completed)
  }

  lemma CompletedTicketsMembership(tickets: seq<Ticket>, studentId: Id)
    ensures forall t :: t in CompletedTickets(tickets, studentId) <==>
      t in tickets && t.studentId == studentId && t.status == Completed
  {
    FilterMembershipAll(tickets, (t: Ticket) => t.studentId == studentId && t.status == Completed);
  }

  /** `get_pending_feedback`: the latest completed ticket, unless some feedback row already refers to it. */
  function PendingFeedback(tickets: seq<Ticket>, feedback: seq<Feedback>, studentId: Id): Option<Ticket> {
    match Latest(CompletedTickets(tickets, studentId))
    case None => None
    case Some(t) => if HasFeedback(feedback, t.id) then None else Some(t)
  }

  /**
   * The rating prompt: at most one ticket, the student's most recent
   * completed one, and never a ticket that already has feedback.
   */
  lemma PendingFeedbackIsLatestUnrated(tickets: seq<Ticket>, feedback: seq<Feedback>, studentId: Id)
    ensures var r := PendingFeedback(tickets, feedback, studentId);
      && (r.Some? ==>
            && r.value in tickets
            && r.value.studentId == studentId
            && r.value.status == Completed
            && !HasFeedback(feedback, r.value.id)
            && forall t :: t in tickets && t.studentId == studentId && t.status == Completed ==>
                 t.createdAt <= r.value.createdAt)
      && (r.None? <==>
            CompletedTickets(tickets, studentId) == []
            || HasFeedback(feedback, Latest(CompletedTickets(tickets, studentId)).value.id))
  {
    CompletedTicketsMembership(tickets, studentId);
  }

  /** Once feedback for the offered ticket is stored, no prompt is offered until another ticket completes. */
  lemma FeedbackClearsPending(tickets: seq<Ticket>, feedback: seq<Feedback>, studentId: Id, f: Feedback)
    requires PendingFeedback(tickets, feedback, studentId).Some?
    requires f.queueId == PendingFeedback(tickets, feedback, studentId).value.id
    ensures PendingFeedback(tickets, feedback + [f], studentId) == None
  {
    assert f in feedback + [f];
  }
}

/**
 * `NotificationManager`: turns the ticket snapshot seen at each poll tick
 * into local alerts, remembering only the last status, the last
 * `people_ahead` and the last note. Delivering an alert to the operating
 * system is an append to a ghost log of (title, message) pairs.
 */
module Notifications {
  import opened Basics
  import opened QueueNumber
  import opened Queries

  /**
   * One polled ticket as the notifier reads it. `peopleAhead` is `None` when
   * the row has no `people_ahead` key (it then counts as 0) and `notes` is
   * `None` when the note is missing or null (it then counts as "").
   */
  datatype Snapshot = Snapshot(status: Status, peopleAhead: Option<int>, queueNumber: string, notes: Option<string>)

  datatype Alert = Alert(title: string, message: string)

  /** What the notifier remembers between ticks. */
  datatype NotifierState = NotifierState(lastStatus: Option<Status>, lastPeopleAhead: int, lastNote: string)

  /** The effect of one tick: the remembered state afterwards and the alerts sent, in order. */
  datatype Tick = Tick(next: NotifierState, alerts: seq<Alert>)

  const Initial: NotifierState := NotifierState(None, -1, "")

  const SkipMarker: string := "Skipped"

  function PeopleAheadOf(q: Snapshot): int { q.peopleAhead.GetOr(0) }

  function NoteOf(q: Snapshot): string { q.notes.GetOr("") }

  /** Python's `sub in s` on strings. */
  predicate Contains(s: string, sub: string)
    decreases |s|
  {
    if |sub| > |s| then false
    else s[..|sub|] == sub || (s != [] && Contains(s[1..], sub))
  }

  /** The decimal spelling of an int, as an f-string writes it. */
  function IntToString(n: int): string {
    if n < 0 then "-" + Decimal(-n) else Decimal(n)
  }

  const SkippedTitle: string := "\U{26A0}\U{FE0F} You were Skipped"
  const CancelledTitle: string := "\U{274C} Queue Cancelled"
  const ServingTitle: string := "\U{1F50A} IT'S YOUR TURN!"
  const PositionTitle: string := "QServeU Status"
  const NextTitle: string := "\U{26A0}\U{FE0F} You are Next!"

  /** The five alert titles are pairwise different, so an alert's title tells which rule sent it. */
  lemma AlertTitlesDistinct()
    ensures SkippedTitle != CancelledTitle && SkippedTitle != ServingTitle
    ensures SkippedTitle != PositionTitle && SkippedTitle != NextTitle
    ensures CancelledTitle != ServingTitle && CancelledTitle != PositionTitle && CancelledTitle != NextTitle
    ensures ServingTitle != PositionTitle && ServingTitle != NextTitle
    ensures PositionTitle != NextTitle
  {
    assert SkippedTitle[0] == NextTitle[0] == '\U{26A0}';
    assert CancelledTitle[0] == '\U{274C}' && ServingTitle[0] == '\U{1F50A}' && PositionTitle[0] == 'Q';
    assert SkippedTitle[7] == 'w' && NextTitle[7] == 'a';
  }

  function SkippedAlert(queueNumber: string): Alert {
    Alert(SkippedTitle,
          "Queue " + queueNumber + ": You were not around, so you were moved to the back.")
  }

  /** The cancellation reason is the note, or "Cancelled by staff" when there is none. */
  function CancelledAlert(queueNumber: string, note: string): Alert {
    Alert(CancelledTitle,
          "Queue " + queueNumber + " was cancelled. Reason: " + (if note != "" then note else "Cancelled by staff"))
  }

  function ServingAlert(queueNumber: string): Alert {
    Alert(ServingTitle,
          "Queue " + queueNumber + " - Please proceed to the counter immediately!")
  }

  function PositionAlert(queueNumber: string, peopleAhead: int): Alert {
    Alert(PositionTitle,
          "Queue: " + queueNumber + " | " + IntToString(peopleAhead) + " people ahead of you.")
  }

  const NextAlert: Alert := Alert(NextTitle, "Get ready! There is only 1 person ahead of you.")

  /** The first three rules of `update_status`, which answer with one alert and stop. */
  predicate SkipFires(s: NotifierState, q: Snapshot) {
    Contains(NoteOf(q), SkipMarker) && s.lastNote != NoteOf(q)
  }

  predicate CancelFires(s: NotifierState, q: Snapshot) {
    q.status == Cancelled && s.lastStatus != Some(Cancelled)
  }

  predicate ServeFires(s: NotifierState, q: Snapshot) {
    q.status == Serving && s.lastStatus != Some(Serving)
  }

  /** The tick runs to the final save: no early-return rule matched. */
  predicate ReachesSave(s: NotifierState, q: Snapshot) {
    !SkipFires(s, q) && !CancelFires(s, q) && !ServeFires(s, q)
  }

  predicate PositionFires(s: NotifierState, q: Snapshot) {
    q.status == Waiting && PeopleAheadOf(q) != s.lastPeopleAhead && s.lastStatus == Some(Waiting)
  }

  predicate NextFires(s: NotifierState, q: Snapshot) {
    q.status == Waiting && PeopleAheadOf(q) == 1 && s.lastPeopleAhead != 1
  }

  /** `update_status` as a function of the remembered state and the snapshot (`None`: no ticket). */
  function Step(s: NotifierState, snap: Option<Snapshot>): Tick {
    match snap
    case None => Tick(s, [])
    case Some(q) =>
      if SkipFires(s, q) then Tick(s.(lastNote := NoteOf(q)), [SkippedAlert(q.queueNumber)])
      else if CancelFires(s, q) then Tick(s.(lastStatus := Some(Cancelled)), [CancelledAlert(q.queueNumber, NoteOf(q))])
      else if ServeFires(s, q) then Tick(s.(lastStatus := Some(Serving)), [ServingAlert(q.queueNumber)])
      else
        Tick(NotifierState(Some(q.status), PeopleAheadOf(q), NoteOf(q)),
             (if PositionFires(s, q) then [PositionAlert(q.queueNumber, PeopleAheadOf(q))] else [])
             + (if NextFires(s, q) then [NextAlert] else []))
  }

  /** No snapshot: nothing is sent and nothing is remembered. */
  lemma NoSnapshotIsSilent(s: NotifierState)
    ensures Step(s, None) == Tick(s, [])
  {
  }

  /** A new "Skipped" note sends one alert and updates only the remembered note. */
  lemma SkipRule(s: NotifierState, q: Snapshot)
    requires Contains(NoteOf(q), SkipMarker) && s.lastNote != NoteOf(q)
    ensures Step(s, Some(q)).alerts == [SkippedAlert(q.queueNumber)]
    ensures Step(s, Some(q)).next == NotifierState(s.lastStatus, s.lastPeopleAhead, NoteOf(q))
  {
  }

  /**
   * Otherwise a first sight of cancellation sends one alert whose reason is
   * the note or "Cancelled by staff", and updates only the remembered status.
   */
  lemma CancelRule(s: NotifierState, q: Snapshot)
    requires !SkipFires(s, q)
    requires q.status == Cancelled && s.lastStatus != Some(Cancelled)
    ensures Step(s, Some(q)).alerts == [CancelledAlert(q.queueNumber, NoteOf(q))]
    ensures NoteOf(q) == "" ==>
      Step(s, Some(q)).alerts[0].message == "Queue " + q.queueNumber + " was cancelled. Reason: Cancelled by staff"
    ensures Step(s, Some(q)).next == NotifierState(Some(Cancelled), s.lastPeopleAhead, s.lastNote)
  {
  }

  /** Otherwise a first sight of serving sends one alert and updates only the remembered status. */
  lemma ServeRule(s: NotifierState, q: Snapshot)
    requires !SkipFires(s, q)
    requires q.status == Serving && s.lastStatus != Some(Serving)
    ensures Step(s, Some(q)).alerts == [ServingAlert(q.queueNumber)]
    ensures Step(s, Some(q)).next == NotifierState(Some(Serving), s.lastPeopleAhead, s.lastNote)
  {
  }

  /**
   * While waiting, the position alert and the "You are Next" alert fire
   * independently, position first; any other status that reaches the save
   * sends nothing. Either way all three remembered values are replaced.
   */
  lemma SaveRule(s: NotifierState, q: Snapshot)
    requires ReachesSave(s, q)
    ensures Step(s, Some(q)).next == NotifierState(Some(q.status), PeopleAheadOf(q), NoteOf(q))
    ensures q.status != Waiting ==> Step(s, Some(q)).alerts == []
    ensures q.status == Waiting ==>
      var alerts := Step(s, Some(q)).alerts;
      && (PositionAlert(q.queueNumber, PeopleAheadOf(q)) in alerts <==>
            PeopleAheadOf(q) != s.lastPeopleAhead && s.lastStatus == Some(Waiting))
      && (NextAlert in alerts <==> PeopleAheadOf(q) == 1 && s.lastPeopleAhead != 1)
      && |alerts| <= 2
      && (|alerts| == 2 ==> alerts[0] == PositionAlert(q.queueNumber, PeopleAheadOf(q)) && alerts[1] == NextAlert)
  {
    AlertTitlesDistinct();
  }

  /** No tick sends more than two alerts. */
  lemma AtMostTwoAlerts(s: NotifierState, snap: Option<Snapshot>)
    ensures |Step(s, snap).alerts| <= 2
  {
  }

  /** Idempotence: after a tick that reached the save, the same snapshot again sends nothing and changes nothing. */
  lemma RepeatIsSilent(s: NotifierState, q: Snapshot)
    requires ReachesSave(s, q)
    ensures Step(Step(s, Some(q)).next, Some(q)) == Tick(Step(s, Some(q)).next, [])
  {
  }

  /**
   * Idempotence does not extend to the early returns, which save only one
   * remembered value. When a new skip note arrives together with a first
   * cancelled or serving status, the skip alert goes out on this tick and the
   * repeat of the very same snapshot sends the cancel or serving alert.
   */
  lemma RepeatAfterSkipCanAlert(s: NotifierState, q: Snapshot)
    requires SkipFires(s, q) && (CancelFires(s, q) || ServeFires(s, q))
    ensures Step(s, Some(q)).alerts == [SkippedAlert(q.queueNumber)]
    ensures Step(Step(s, Some(q)).next, Some(q)).alerts ==
      if q.status == Cancelled then [CancelledAlert(q.queueNumber, NoteOf(q))] else [ServingAlert(q.queueNumber)]
  {
  }

  /** From a fresh notifier, a skipped-and-cancelled ticket polled twice alerts on both ticks. */
  lemma SkippedCancelledRepeatAlerts()
    ensures var q := Snapshot(Cancelled, None, "A001", Some(SkipMarker));
      && Step(Initial, Some(q)).alerts == [SkippedAlert("A001")]
      && Step(Step(Initial, Some(q)).next, Some(q)).alerts == [CancelledAlert("A001", SkipMarker)]
  {
    var q := Snapshot(Cancelled, None, "A001", Some(SkipMarker));
    assert Contains(NoteOf(q), SkipMarker) by {
      assert NoteOf(q)[..|SkipMarker|] == SkipMarker;
    }
    RepeatAfterSkipCanAlert(Initial, q);
  }

  /**
   * From the initial state the first waiting snapshot never sends a position
   * alert; it sends "You are Next" exactly when one person is ahead and the
   * note does not carry the skip marker.
   */
  lemma FirstWaitingSnapshot(q: Snapshot)
    requires q.status == Waiting
    ensures forall n :: PositionAlert(q.queueNumber, n) !in Step(Initial, Some(q)).alerts
    ensures NextAlert in Step(Initial, Some(q)).alerts <==>
      PeopleAheadOf(q) == 1 && !Contains(NoteOf(q), SkipMarker)
  {
    AlertTitlesDistinct();
  }

  /** The notifier fed a sequence of poll ticks, one after another. */
  function Run(s: NotifierState, snaps: seq<Option<Snapshot>>): Tick
    decreases |snaps|
  {
    if snaps == [] then Tick(s, [])
    else
      var first := Step(s, snaps[0]);
      var rest := Run(first.next, snaps[1..]);
      Tick(rest.next, first.alerts + rest.alerts)
  }

  /** The snapshot of a ticket row as `get_student_queue` returns it: the row has no `people_ahead`. */
  function SnapshotOf(t: Ticket): Snapshot {
    Snapshot(t.status, None, t.number, t.notes)
  }

  /** Snapshots without `people_ahead`, as the poll loop passes them on. */
  predicate WithoutPeopleAhead(snaps: seq<Option<Snapshot>>) {
    forall i :: 0 <= i < |snaps| && snaps[i].Some? ==> snaps[i].value.peopleAhead.None?
  }

  /** The remembered state a run of such snapshots keeps: a count never seen, or 0 once waiting was seen. */
  predicate CountNeverSeen(s: NotifierState) {
    (s.lastPeopleAhead == -1 || s.lastPeopleAhead == 0)
    && (s.lastStatus == Some(Waiting) ==> s.lastPeopleAhead == 0)
  }

  predicate IsPositionOrNext(a: Alert) {
    a.title == PositionTitle || a == NextAlert
  }

  /**
   * Fed only rows without `people_ahead` (which reads as 0), the notifier
   * never sends a position alert or a "You are Next" alert.
   */
  lemma {:induction false} PollWithoutCountNeverAnnouncesPosition(s: NotifierState, snaps: seq<Option<Snapshot>>)
    requires CountNeverSeen(s)
    requires WithoutPeopleAhead(snaps)
    ensures CountNeverSeen(Run(s, snaps).next)
    ensures forall a :: a in Run(s, snaps).alerts ==> !IsPositionOrNext(a)
    decreases |snaps|
  {
    if snaps != [] {
      var first := Step(s, snaps[0]);
      assert forall a :: a in first.alerts ==> !IsPositionOrNext(a) by {
        AlertTitlesDistinct();
      }
      assert WithoutPeopleAhead(snaps[1..]) by {
        forall i | 0 <= i < |snaps[1..]| && snaps[1..][i].Some?
          ensures snaps[1..][i].value.peopleAhead.None?
        {
          assert snaps[1..][i] == snaps[i + 1];
        }
      }
      PollWithoutCountNeverAnnouncesPosition(first.next, snaps[1..]);
    }
  }

  /** Ticks driven by `get_student_queue` rows from a fresh notifier never announce a position. */
  lemma PolledTicketsNeverAnnouncePosition(rows: seq<Option<Ticket>>)
    ensures forall a :: (a in Run(Initial, seq(|rows|, i requires 0 <= i < |rows| =>
      match rows[i] case Some(t) => Some(SnapshotOf(t)) case None => None)).alerts) ==> !IsPositionOrNext(a)
  {
    var snaps := seq(|rows|, i requires 0 <= i < |rows| =>
      match rows[i] case Some(t) => Some(SnapshotOf(t)) case None => None);
    PollWithoutCountNeverAnnouncesPosition(Initial, snaps);
  }

  class NotificationManager {
    var lastPeopleAhead: int
    var lastStatus: Option<Status>
    var lastNote: string
    /** Every alert handed to the operating system, oldest first. */
    ghost var sent: seq<Alert>

    function State(): NotifierState
      reads this
    {
      NotifierState(lastStatus, lastPeopleAhead, lastNote)
    }

    constructor ()
      ensures State() == Initial && sent == []
    {
      lastPeopleAhead := -1;
      lastStatus := None;
      lastNote := "";
      sent := [];
    }

    /** `send_notification`: hand one alert to the operating system. */
    method SendNotification(title: string, message: string)
      modifies this`sent
      ensures sent == old(sent) + [Alert(title, message)]
    {
      sent := sent + [Alert(title, message)];
    }

    /** `update_status`: one poll tick. */
    method UpdateStatus(snap: Option<Snapshot>)
      modifies this
      ensures State() == Step(old(State()), snap).next
      ensures sent == old(sent) + Step(old(State()), snap).alerts
    {
      if snap.None? {
        return;
      }
      var q := snap.value;
      var currentStatus := q.status;
      var peopleAhead := PeopleAheadOf(q);
      var queueNumber := q.queueNumber;
      var currentNote := NoteOf(q);

      if Contains(currentNote, SkipMarker) && lastNote != currentNote {
        var alert := SkippedAlert(queueNumber);
        SendNotification(alert.title, alert.message);
        lastNote := currentNote;
        return;
      }

      if currentStatus == Cancelled && lastStatus != Some(Cancelled) {
        var alert := CancelledAlert(queueNumber, currentNote);
        SendNotification(alert.title, alert.message);
        lastStatus := Some(currentStatus);
        return;
      }

      if currentStatus == Serving && lastStatus != Some(Serving) {
        var alert := ServingAlert(queueNumber);
        SendNotification(alert.title, alert.message);
        lastStatus := Some(currentStatus);
        return;
      }

      if currentStatus == Waiting {
        if peopleAhead != lastPeopleAhead && lastStatus == Some(Waiting) {
          var alert := PositionAlert(queueNumber, peopleAhead);
          SendNotification(alert.title, alert.message);
        }
        if peopleAhead == 1 && lastPeopleAhead != 1 {
          SendNotification(NextAlert.title, NextAlert.message);
        }
      }

      lastStatus := Some(currentStatus);
      lastPeopleAhead := peopleAhead;
      lastNote := currentNote;
    }
  }
}

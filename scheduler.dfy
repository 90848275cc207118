/**
 * The job table of the bot's scheduler (bot/scheduler.py): reminder jobs
 * keyed by meeting, one announcement job, start/shutdown, and the digest
 * the announcement job posts. The scheduler library itself is a table of
 * jobs keyed by id; `add_job(..., replace_existing=True)` is a map update.
 * Firing jobs at their trigger times is not modelled: a job is run by
 * calling the method that stands for its callback.
 */
module Scheduler {
  import opened Wrappers
  import opened Strings
  import opened Utils
  import opened Models
  import opened Storage

  /** When a job fires: once at a datetime, or on days of the month at a time. */
  datatype Trigger =
    | DateTrigger(runDate: DateTime)
    | CronTrigger(day: string, hour: int, minute: int)

  /** Which bound method a job calls. */
  datatype JobFunc = ReminderCallback | AnnouncementCallback

  datatype Job = Job(func: JobFunc, trigger: Trigger, args: seq<int>)

  // ---------------------------------------------------------------- reminders

  /** Reminders go out this many days before the start, in this order. */
  const ReminderOffsets: seq<int> := [3, 1]

  const AnnouncementsJobId: string := "announcements_job"

  /** `f"meeting_{meeting.id}_reminder_{days_before}"`. */
  function ReminderJobId(meetingId: int, daysBefore: int): string {
    "meeting_" + IntToString(meetingId) + "_reminder_" + IntToString(daysBefore)
  }

  /** The run time: the start minus the offset, naive results read as UTC. */
  function ReminderRunAt(startAt: DateTime, daysBefore: int): (r: DateTime)
    ensures IsAware(r)
    ensures !IsAware(startAt) ==> Instant(r) == startAt.wall - daysBefore * SecondsPerDay
    ensures IsAware(startAt) ==> Instant(r) == Instant(startAt) - daysBefore * SecondsPerDay
  {
    EnsureUtc(MinusDays(startAt, daysBefore))
  }

  /** A reminder is scheduled only when its run time is still in the future. */
  predicate ReminderDue(startAt: DateTime, daysBefore: int, now: int) {
    Instant(ReminderRunAt(startAt, daysBefore)) > now
  }

  function ReminderJob(meetingId: int, startAt: DateTime, daysBefore: int): Job {
    Job(ReminderCallback, DateTrigger(ReminderRunAt(startAt, daysBefore)), [meetingId])
  }

  /** The jobs the loop over `offsets` adds, in loop order. */
  function PlannedFor(meetingId: int, startAt: DateTime, now: int, offsets: seq<int>): map<string, Job> {
    if |offsets| == 0 then map[]
    else
      var d := offsets[|offsets| - 1];
      var earlier := PlannedFor(meetingId, startAt, now, offsets[..|offsets| - 1]);
      if ReminderDue(startAt, d, now) then earlier[ReminderJobId(meetingId, d) := ReminderJob(meetingId, startAt, d)]
      else earlier
  }

  /** What `schedule_meeting_reminders` adds to the job table. */
  function PlannedReminders(meetingId: int, startAt: DateTime, now: int): map<string, Job> {
    PlannedFor(meetingId, startAt, now, ReminderOffsets)
  }

  /**
   * Exactly the reminders still due are planned, under their ids, each a
   * one-shot job calling the reminder callback with the meeting id.
   */
  lemma PlannedRemindersContents(meetingId: int, startAt: DateTime, now: int)
    ensures var p := PlannedReminders(meetingId, startAt, now);
            && (forall k :: k in p <==>
                  || (k == ReminderJobId(meetingId, 3) && ReminderDue(startAt, 3, now))
                  || (k == ReminderJobId(meetingId, 1) && ReminderDue(startAt, 1, now)))
            && (forall d :: d in ReminderOffsets && ReminderDue(startAt, d, now) ==>
                  p[ReminderJobId(meetingId, d)] == ReminderJob(meetingId, startAt, d))
  {
    var id3, id1 := ReminderJobId(meetingId, 3), ReminderJobId(meetingId, 1);
    assert ReminderOffsets[..1] == [3];
    assert [3][..0] == [];
    assert PlannedFor(meetingId, startAt, now, []) == map[];
    var p0 := PlannedFor(meetingId, startAt, now, [3]);
    assert p0 == if ReminderDue(startAt, 3, now) then map[id3 := ReminderJob(meetingId, startAt, 3)] else map[];
    var p := PlannedReminders(meetingId, startAt, now);
    assert p == if ReminderDue(startAt, 1, now) then p0[id1 := ReminderJob(meetingId, startAt, 1)] else p0;
    ReminderJobIdsDistinct(meetingId);
  }

  lemma ReminderJobIdsDistinct(meetingId: int)
    ensures ReminderJobId(meetingId, 3) != ReminderJobId(meetingId, 1)
  {
    if ReminderJobId(meetingId, 3) == ReminderJobId(meetingId, 1) {
      ReminderJobIdInjective(meetingId, 3, meetingId, 1);
    }
  }

  /** A reminder id reads back as its four `_`-separated fields. */
  lemma ReminderJobIdFields(meetingId: int, daysBefore: int)
    ensures Split(ReminderJobId(meetingId, daysBefore), '_')
            == ["meeting", IntToString(meetingId), "reminder", IntToString(daysBefore)]
  {
    var a, b := IntToString(meetingId), IntToString(daysBefore);
    var parts := ["meeting", a, "reminder", b];
    IntToStringAvoids(meetingId, '_');
    IntToStringAvoids(daysBefore, '_');
    assert parts[1..] == [a, "reminder", b];
    assert parts[1..][1..] == ["reminder", b];
    assert parts[1..][1..][1..] == [b];
    assert Join([b], "_") == b;
    assert Join(["reminder", b], "_") == "reminder" + "_" + b;
    assert Join([a, "reminder", b], "_") == a + "_" + ("reminder" + "_" + b);
    assert Join(parts, "_") == "meeting" + "_" + (a + "_" + ("reminder" + "_" + b));
    assert "meeting_" + a + "_reminder_" + b == "meeting" + "_" + (a + "_" + ("reminder" + "_" + b));
    SplitJoin(parts, '_');
  }

  /** Two reminder jobs share an id only when they are the same reminder of the same meeting. */
  lemma ReminderJobIdInjective(a: int, d: int, b: int, e: int)
    requires ReminderJobId(a, d) == ReminderJobId(b, e)
    ensures a == b && d == e
  {
    ReminderJobIdFields(a, d);
    ReminderJobIdFields(b, e);
    IntToStringInjective(a, b);
    IntToStringInjective(d, e);
  }

  /** No reminder can replace the announcement job. */
  lemma ReminderJobIdNotAnnouncements(meetingId: int, daysBefore: int)
    ensures ReminderJobId(meetingId, daysBefore) != AnnouncementsJobId
  {
    assert ReminderJobId(meetingId, daysBefore)[0] == 'm';
  }

  /**
   * Re-planning a meeting sets each of its due reminders to the new plan's job;
   * a reminder for an offset that is no longer due is neither added nor removed,
   * so an entry left by an earlier plan stays as it was.
   */
  lemma RescheduleReplacesOwnReminders(jobs: map<string, Job>, meetingId: int, startAt: DateTime, now: int, d: int)
    requires d in ReminderOffsets
    ensures var after, id := jobs + PlannedReminders(meetingId, startAt, now), ReminderJobId(meetingId, d);
            && (ReminderDue(startAt, d, now) ==> id in after && after[id] == ReminderJob(meetingId, startAt, d))
            && (!ReminderDue(startAt, d, now) ==> (id in after <==> id in jobs))
            && (!ReminderDue(startAt, d, now) && id in jobs ==> after[id] == jobs[id])
  {
    PlannedRemindersContents(meetingId, startAt, now);
    ReminderJobIdsDistinct(meetingId);
  }

  /** Scheduling a meeting's reminders touches no job of another meeting and not the announcements. */
  lemma RescheduleKeepsOtherJobs(jobs: map<string, Job>, meetingId: int, startAt: DateTime, now: int, k: string)
    requires k in jobs
    requires k != ReminderJobId(meetingId, 3) && k != ReminderJobId(meetingId, 1)
    ensures k in jobs + PlannedReminders(meetingId, startAt, now)
    ensures (jobs + PlannedReminders(meetingId, startAt, now))[k] == jobs[k]
  {
    PlannedRemindersContents(meetingId, startAt, now);
  }

  /** A naive start two days ahead: only the one-day reminder is planned. */
  lemma TwoDaysAheadScenario(meetingId: int, now: int)
    ensures PlannedReminders(meetingId, DateTime(now + 2 * SecondsPerDay, None), now).Keys
            == {ReminderJobId(meetingId, 1)}
  {
    PlannedRemindersContents(meetingId, DateTime(now + 2 * SecondsPerDay, None), now);
  }

  /** A naive start ten days ahead: both reminders are planned. */
  lemma TenDaysAheadScenario(meetingId: int, now: int)
    ensures PlannedReminders(meetingId, DateTime(now + 10 * SecondsPerDay, None), now).Keys
            == {ReminderJobId(meetingId, 3), ReminderJobId(meetingId, 1)}
  {
    PlannedRemindersContents(meetingId, DateTime(now + 10 * SecondsPerDay, None), now);
  }

  // ------------------------------------------------------------ announcements

  /** `",".join(str(d) for d in days)`, the cron `day` field. */
  function CronDayField(days: seq<int>): string {
    Join(IntStrings(days), ",")
  }

  /** The cron `day` field reads back, field by field, as the configured days. */
  lemma CronDayFieldRoundTrip(days: seq<int>)
    requires |days| >= 1
    ensures |Split(CronDayField(days), ',')| == |days|
    ensures forall i :: 0 <= i < |days| ==> PyInt(Split(CronDayField(days), ',')[i]) == Some(days[i])
  {
    var parts := IntStrings(days);
    forall i | 0 <= i < |parts| ensures ',' !in parts[i] {
      IntToStringAvoids(days[i], ',');
    }
    SplitJoin(parts, ',');
    forall i | 0 <= i < |days| ensures PyInt(parts[i]) == Some(days[i]) {
      IntToStringRoundTrip(days[i]);
    }
  }

  function AnnouncementJob(days: seq<int>, t: TimeOfDay, channelId: int): Job {
    Job(AnnouncementCallback, CronTrigger(CronDayField(days), t.hour, t.minute), [channelId])
  }

  // ------------------------------------------------------------------ digest

  const NoUpcomingText: string := "No upcoming meetings."
  const DigestHeader: string := "Upcoming meetings:"
  const DigestLimit: nat := 10

  /** `m.location or 'TBA'`: an absent or empty location shows as TBA. */
  function LocationText(location: Option<string>): (r: string)
    ensures r != ""
    ensures location.Some? && location.value != "" ==> r == location.value
    ensures location.None? || location.value == "" ==> r == "TBA"
  {
    if location.Some? && location.value != "" then location.value else "TBA"
  }

  /**
   * One digest line. `when` renders the UTC instant in the bot's time zone
   * as `%Y-%m-%d %H:%M`; that conversion is a parameter of the model.
   */
  function MeetingLine(m: Meeting, when: int -> string): string {
    "#" + IntToString(m.id) + " " + m.topic + " — " + when(m.startAtUtc) + " @ " + LocationText(m.location)
  }

  /** The lines of the shown meetings, in listing order. */
  function MeetingLines(ms: seq<Meeting>, when: int -> string): (r: seq<string>)
    ensures |r| == |ms|
    ensures forall i :: 0 <= i < |ms| ==> r[i] == MeetingLine(ms[i], when)
  {
    if |ms| == 0 then [] else MeetingLines(ms[..|ms| - 1], when) + [MeetingLine(ms[|ms| - 1], when)]
  }

  /** At most the first ten meetings of the listing are shown. */
  function Shown(ms: seq<Meeting>): (r: seq<Meeting>)
    ensures |r| == if |ms| < DigestLimit then |ms| else DigestLimit
    ensures r == ms[..|r|]
  {
    if |ms| < DigestLimit then ms else ms[..DigestLimit]
  }

  /** The digest text for a listing. */
  function DigestText(ms: seq<Meeting>, when: int -> string): string {
    if |ms| == 0 then NoUpcomingText
    else Join([DigestHeader] + MeetingLines(Shown(ms), when), "\n")
  }

  /** No newline in the text a line is made of. */
  predicate OneLine(m: Meeting, when: int -> string) {
    '\n' !in m.topic && '\n' !in when(m.startAtUtc) && (m.location.Some? ==> '\n' !in m.location.value)
  }

  /**
   * The digest of a non-empty listing splits back into the header and one
   * line per shown meeting, so it has between two and eleven lines.
   */
  lemma DigestLines(ms: seq<Meeting>, when: int -> string)
    requires |ms| > 0
    requires forall i :: 0 <= i < |ms| ==> OneLine(ms[i], when)
    ensures var lines := Split(DigestText(ms, when), '\n');
            && lines == [DigestHeader] + MeetingLines(Shown(ms), when)
            && 1 < |lines| <= 1 + DigestLimit
  {
    var shown := Shown(ms);
    assert forall i :: 0 <= i < |shown| ==> OneLine(shown[i], when) by {
      forall i | 0 <= i < |shown| ensures OneLine(shown[i], when) {
        assert shown[i] == ms[i];
      }
    }
    MeetingLinesOneLine(shown, when);
    SplitJoinCons(DigestHeader, MeetingLines(shown, when), '\n');
  }

  lemma MeetingLinesOneLine(ms: seq<Meeting>, when: int -> string)
    requires forall i :: 0 <= i < |ms| ==> OneLine(ms[i], when)
    ensures forall i :: 0 <= i < |ms| ==> '\n' !in MeetingLines(ms, when)[i]
  {
    forall i | 0 <= i < |ms|
      ensures '\n' !in MeetingLines(ms, when)[i]
    {
      MeetingLineIsOneLine(ms[i], when);
    }
  }

  lemma MeetingLineIsOneLine(m: Meeting, when: int -> string)
    requires OneLine(m, when)
    ensures '\n' !in MeetingLine(m, when)
  {
    IntToStringAvoids(m.id, '\n');
  }

  /** A digest line starts with `#` and the meeting id, up to the first space. */
  lemma MeetingLineNamesMeeting(m: Meeting, when: int -> string)
    ensures var cut := SplitOnce(MeetingLine(m, when), ' ');
            && cut.Some? && cut.value.0 == "#" + IntToString(m.id)
            && PyInt(cut.value.0[1..]) == Some(m.id)
  {
    var head := "#" + IntToString(m.id);
    var rest := m.topic + " — " + when(m.startAtUtc) + " @ " + LocationText(m.location);
    IntToStringAvoids(m.id, ' ');
    assert MeetingLine(m, when) == head + [' '] + rest;
    SplitOnceAt(head, ' ', rest);
    assert head[1..] == IntToString(m.id);
    IntToStringRoundTrip(m.id);
  }

  // ---------------------------------------------------------------- the class

  /**
   * `BotScheduler`: whether the scheduler runs, its job table, and the
   * messages the announcement job has handed to the channel sender, in order.
   */
  class BotScheduler {
    const db: Database
    var running: bool
    var jobs: map<string, Job>
    var sent: seq<(int, string)>

    constructor (db: Database)
      ensures this.db == db && !running && jobs == map[] && sent == []
    {
      this.db := db;
      running := false;
      jobs := map[];
      sent := [];
    }

    /** `start`: a running scheduler is left alone. */
    method Start()
      modifies this
      ensures running
      ensures old(running) ==> unchanged(this)
      ensures jobs == old(jobs) && sent == old(sent)
    {
      if !running {
        running := true;
      }
    }

    /** `shutdown`: a stopped scheduler is left alone; jobs stay in the table. */
    method Shutdown()
      modifies this
      ensures !running
      ensures !old(running) ==> unchanged(this)
      ensures jobs == old(jobs) && sent == old(sent)
    {
      if running {
        running := false;
      }
    }

    /**
     * `schedule_meeting_reminders`: for 3 then 1 days before the start, add
     * or replace the reminder job when its run time is after `now`.
     */
    method ScheduleMeetingReminders(meetingId: int, startAt: DateTime, now: int)
      modifies this
      ensures jobs == old(jobs) + PlannedReminders(meetingId, startAt, now)
      ensures running == old(running) && sent == old(sent)
    {
      var i := 0;
      while i < |ReminderOffsets|
        invariant 0 <= i <= |ReminderOffsets|
        invariant jobs == old(jobs) + PlannedFor(meetingId, startAt, now, ReminderOffsets[..i])
        invariant running == old(running) && sent == old(sent)
      {
        var daysBefore := ReminderOffsets[i];
        var runAt := EnsureUtc(MinusDays(startAt, daysBefore));
        assert ReminderOffsets[..i + 1][..i] == ReminderOffsets[..i];
        if Instant(runAt) > now {
          jobs := jobs[ReminderJobId(meetingId, daysBefore) := Job(ReminderCallback, DateTrigger(runAt), [meetingId])];
        }
        i := i + 1;
      }
      assert ReminderOffsets[..i] == ReminderOffsets;
    }

    /**
     * `schedule_announcements`: without a channel (absent or 0) nothing is
     * scheduled; otherwise the one announcement job is added or replaced.
     */
    method ScheduleAnnouncements(days: seq<int>, t: TimeOfDay, channelId: Option<int>)
      modifies this
      ensures channelId.None? || channelId.value == 0 ==> jobs == old(jobs)
      ensures channelId.Some? && channelId.value != 0 ==>
                jobs == old(jobs)[AnnouncementsJobId := AnnouncementJob(days, t, channelId.value)]
      ensures running == old(running) && sent == old(sent)
    {
      if channelId.None? || channelId.value == 0 {
        return;
      }
      jobs := jobs[AnnouncementsJobId := Job(AnnouncementCallback,
                                             CronTrigger(CronDayField(days), t.hour, t.minute),
                                             [channelId.value])];
    }

    /** `_reminder_job`: the callback is a placeholder that does nothing. */
    method RunReminderJob(meetingId: int)
      ensures unchanged(this)
    {
    }

    /**
     * `_announcement_job`: list the upcoming meetings at `now` and hand the
     * digest to the channel sender.
     */
    method RunAnnouncementJob(channelId: int, now: int, when: int -> string)
      modifies this
      ensures sent == old(sent) + [(channelId, DigestText(SortByStart(Upcoming(db.meetings, now)), when))]
      ensures running == old(running) && jobs == old(jobs)
    {
      var meetings := db.ListUpcomingMeetings(now);
      var text := ComposeDigest(meetings, when);
      sent := sent + [(channelId, text)];
    }
  }

  /** The loop of `_announcement_job` that builds the digest lines. */
  method ComposeDigest(ms: seq<Meeting>, when: int -> string) returns (text: string)
    ensures text == DigestText(ms, when)
  {
    if |ms| == 0 {
      return NoUpcomingText;
    }
    var lines := [DigestHeader];
    var shown := Shown(ms);
    var i := 0;
    while i < |shown|
      invariant 0 <= i <= |shown|
      invariant lines == [DigestHeader] + MeetingLines(shown[..i], when)
    {
      assert shown[..i + 1][..i] == shown[..i];
      lines := lines + [MeetingLine(shown[i], when)];
      i := i + 1;
    }
    assert shown[..i] == shown;
    text := Join(lines, "\n");
  }

  /** Only an empty listing yields the no-meetings text. */
  lemma DigestTextEmpty(ms: seq<Meeting>, when: int -> string)
    ensures |ms| == 0 <==> DigestText(ms, when) == NoUpcomingText
  {
    if |ms| > 0 {
      DigestHeaderFirst([DigestHeader] + MeetingLines(Shown(ms), when));
    }
  }

  /** A joined text whose first part is the header is not the empty-listing text. */
  lemma DigestHeaderFirst(lines: seq<string>)
    requires |lines| > 1 && lines[0] == DigestHeader
    ensures Join(lines, "\n") != NoUpcomingText
  {
    assert Join(lines, "\n")[0] == 'U';
  }
}

/**
 * The registration store (bot/storage.py). The three tables are held in
 * memory by class `Database`; each of its methods is one session: read,
 * decide, write. The tables as values, and what each session does to them,
 * are the functions of this module, and the lemmas below state the rules
 * the store keeps.
 */
module Storage {
  import opened Wrappers
  import opened Models

  /** A `(success, message)` pair, or the error `scalar_one_or_none` raises on several rows. */
  datatype Reply = Reply(ok: bool, message: string) | MultipleResultsFound

  const NotFoundMessage: string := "Meeting not found or canceled."
  const AlreadyRegisteredMessage: string := "You are already registered."
  const RegisteredMessage: string := "Registered successfully."
  const WaitlistedMessage: string := "Meeting is full. You are added to the waitlist."
  const UnregisteredMessage: string := "You have been unregistered."
  const NotRegisteredMessage: string := "You are not registered."

  /** What one session leaves behind: its reply and the registrations table. */
  datatype Step = Step(reply: Reply, rows: seq<Registration>)

  // ------------------------------------------------------------- table reads

  /** Some meeting of the table has this id. */
  predicate HasMeeting(ms: seq<Meeting>, id: int) {
    exists i :: 0 <= i < |ms| && ms[i].id == id
  }

  /** `session.get(Meeting, id)`. */
  function FindMeeting(ms: seq<Meeting>, id: int): (r: Option<Meeting>)
    ensures r.Some? <==> HasMeeting(ms, id)
    ensures r.Some? ==> r.value.id == id && r.value in ms
  {
    if |ms| == 0 then None
    else if ms[0].id == id then Some(ms[0])
    else FindMeeting(ms[1..], id)
  }

  predicate UniqueIds(ms: seq<Meeting>) {
    forall i, j :: 0 <= i < j < |ms| ==> ms[i].id != ms[j].id
  }

  lemma FindMeetingUnique(ms: seq<Meeting>, i: nat)
    requires UniqueIds(ms) && i < |ms|
    ensures FindMeeting(ms, ms[i].id) == Some(ms[i])
  {
    var r := FindMeeting(ms, ms[i].id);
    var j :| 0 <= j < |ms| && ms[j] == r.value;
    assert ms[j].id == ms[i].id;
  }

  predicate Matches(r: Registration, meetingId: int, userId: int, wanted: set<RegistrationStatus>) {
    r.meetingId == meetingId && r.userId == userId && r.status in wanted
  }

  /**
   * Positions, in table order, of the rows of one (meeting, user) pair whose
   * status is in `wanted`: what `select(Registration).where(...)` returns.
   */
  function RowsFor(rows: seq<Registration>, meetingId: int, userId: int, wanted: set<RegistrationStatus>): (r: seq<nat>)
    ensures forall k :: 0 <= k < |r| ==> r[k] < |rows| && Matches(rows[r[k]], meetingId, userId, wanted)
    ensures forall i :: 0 <= i < |rows| && Matches(rows[i], meetingId, userId, wanted) ==> i in r
    ensures forall k, l :: 0 <= k < l < |r| ==> r[k] < r[l]
  {
    if |rows| == 0 then []
    else
      var init := RowsFor(rows[..|rows| - 1], meetingId, userId, wanted);
      if Matches(rows[|rows| - 1], meetingId, userId, wanted) then init + [|rows| - 1] else init
  }

  /** `list_meeting_participants`: the meeting's confirmed rows, in table order. */
  function Participants(rows: seq<Registration>, meetingId: int): (ps: seq<Registration>)
    ensures |ps| <= |rows|
    ensures forall p :: p in ps <==> p in rows && p.meetingId == meetingId && p.status == Confirmed
  {
    if |rows| == 0 then []
    else
      var last := rows[|rows| - 1];
      var init := Participants(rows[..|rows| - 1], meetingId);
      assert forall p :: p in rows <==> p in rows[..|rows| - 1] || p == last by {
        assert rows == rows[..|rows| - 1] + [last];
      }
      if last.meetingId == meetingId && last.status == Confirmed then init + [last] else init
  }

  /** `count_confirmed`: the live occupancy of a meeting, never a cached counter. */
  function ConfirmedCount(rows: seq<Registration>, meetingId: int): nat {
    |Participants(rows, meetingId)|
  }

  // ------------------------------------------------------------- invariants

  /** No meeting has more confirmed rows than `max_participants`. */
  predicate WithinCapacity(ms: seq<Meeting>, rows: seq<Registration>) {
    forall i :: 0 <= i < |ms| ==> ConfirmedCount(rows, ms[i].id) <= ms[i].maxParticipants
  }

  /** No (meeting, user) pair has two confirmed rows. */
  predicate AtMostOneConfirmed(rows: seq<Registration>) {
    forall i, j :: 0 <= i < j < |rows| && rows[i].status == Confirmed && rows[j].status == Confirmed
      ==> rows[i].meetingId != rows[j].meetingId || rows[i].userId != rows[j].userId
  }

  /** Every registration points at an existing meeting. */
  predicate RowsReferToMeetings(ms: seq<Meeting>, rows: seq<Registration>) {
    forall i :: 0 <= i < |rows| ==> HasMeeting(ms, rows[i].meetingId)
  }

  // ------------------------------------------------------------- sessions

  /** `create_meeting`: the host's row, inserted with the meeting. */
  function HostRow(rows: seq<Registration>, meetingId: int, hostId: int, now: int): Registration {
    NewRegistration(|rows| + 1, meetingId, hostId, now, Confirmed)
  }

  /** `register`: the reply and the table after one call. */
  function RegisterStep(ms: seq<Meeting>, rows: seq<Registration>, meetingId: int, userId: int, now: int): Step {
    var found := FindMeeting(ms, meetingId);
    if found.None? || !found.value.IsActive() then Step(Reply(false, NotFoundMessage), rows)
    else
      var existing := RowsFor(rows, meetingId, userId, {Confirmed});
      if |existing| > 1 then Step(MultipleResultsFound, rows)
      else if |existing| == 1 then Step(Reply(false, AlreadyRegisteredMessage), rows)
      else
        var status := if ConfirmedCount(rows, meetingId) < found.value.maxParticipants then Confirmed else Waitlisted;
        Step(Reply(true, if status == Waitlisted then WaitlistedMessage else RegisteredMessage),
             rows + [NewRegistration(|rows| + 1, meetingId, userId, now, status)])
  }

  /** `unregister`: the reply and the table after one call. */
  function UnregisterStep(rows: seq<Registration>, meetingId: int, userId: int): Step {
    var live := RowsFor(rows, meetingId, userId, {Confirmed, Waitlisted});
    if |live| == 0 then Step(Reply(false, NotRegisteredMessage), rows)
    else if |live| > 1 then Step(MultipleResultsFound, rows)
    else Step(Reply(true, UnregisteredMessage), rows[live[0] := rows[live[0]].(status := Canceled)])
  }

  // ------------------------------------------------------------- listings

  predicate SortedByStart(ms: seq<Meeting>) {
    forall i, j :: 0 <= i < j < |ms| ==> ms[i].startAtUtc <= ms[j].startAtUtc
  }

  function InsertByStart(m: Meeting, s: seq<Meeting>): (r: seq<Meeting>)
    ensures multiset(r) == multiset(s) + multiset{m}
    ensures SortedByStart(s) ==> SortedByStart(r)
  {
    if |s| == 0 || m.startAtUtc <= s[0].startAtUtc then [m] + s
    else
      var tail := InsertByStart(m, s[1..]);
      assert s == [s[0]] + s[1..];
      InsertedAfterHead(m, s, tail);
      [s[0]] + tail
  }

  lemma InsertedAfterHead(m: Meeting, s: seq<Meeting>, tail: seq<Meeting>)
    requires |s| > 0 && s[0].startAtUtc < m.startAtUtc
    requires multiset(tail) == multiset(s[1..]) + multiset{m}
    requires SortedByStart(s) ==> SortedByStart(tail)
    ensures SortedByStart(s) ==> SortedByStart([s[0]] + tail)
  {
    if SortedByStart(s) {
      forall x | x in tail ensures s[0].startAtUtc <= x.startAtUtc {
        assert x in multiset(tail);
        if x != m {
          assert x in multiset(s[1..]);
          var k :| 0 <= k < |s[1..]| && s[1..][k] == x;
          assert s[k + 1] == x;
        }
      }
      var r := [s[0]] + tail;
      forall i, j | 0 <= i < j < |r| ensures r[i].startAtUtc <= r[j].startAtUtc {
        if i == 0 {
          assert r[j] == tail[j - 1];
          assert tail[j - 1] in tail;
        } else {
          assert r[i] == tail[i - 1] && r[j] == tail[j - 1];
        }
      }
    }
  }

  /** `ORDER BY start_at_utc ASC`: sorted, and a permutation of its input. */
  function SortByStart(ms: seq<Meeting>): (r: seq<Meeting>)
    ensures SortedByStart(r)
    ensures multiset(r) == multiset(ms)
  {
    if |ms| == 0 then []
    else
      assert ms == [ms[0]] + ms[1..];
      InsertByStart(ms[0], SortByStart(ms[1..]))
  }

  /** The `WHERE canceled_at IS NULL AND start_at_utc >= now` filter, in table order. */
  function Upcoming(ms: seq<Meeting>, now: int): (r: seq<Meeting>)
    ensures forall m :: m in r <==> m in ms && m.IsActive() && m.startAtUtc >= now
  {
    if |ms| == 0 then []
    else
      assert forall m :: m in ms <==> m == ms[0] || m in ms[1..] by {
        assert ms == [ms[0]] + ms[1..];
      }
      var rest := Upcoming(ms[1..], now);
      if ms[0].IsActive() && ms[0].startAtUtc >= now then [ms[0]] + rest else rest
  }

  /** The user holds a confirmed row for the meeting. */
  predicate UserConfirmedFor(rows: seq<Registration>, userId: int, meetingId: int) {
    exists k :: 0 <= k < |rows| && rows[k].userId == userId && rows[k].status == Confirmed && rows[k].meetingId == meetingId
  }

  /** The join of `list_user_meetings`: one meeting per confirmed row of the user, in table order. */
  function UserMeetingRows(ms: seq<Meeting>, rows: seq<Registration>, userId: int): (r: seq<Meeting>)
    ensures forall m :: m in r ==> m in ms
    ensures forall m :: m in r ==> UserConfirmedFor(rows, userId, m.id)
  {
    if |rows| == 0 then []
    else
      var rest := UserMeetingRows(ms, rows[1..], userId);
      var row := rows[0];
      assert forall m :: m in rest ==> UserConfirmedFor(rows, userId, m.id) by {
        forall m | m in rest
          ensures UserConfirmedFor(rows, userId, m.id)
        {
          var k :| 0 <= k < |rows[1..]| && rows[1..][k].userId == userId
                   && rows[1..][k].status == Confirmed && rows[1..][k].meetingId == m.id;
          assert rows[k + 1] == rows[1..][k];
        }
      }
      var found := FindMeeting(ms, row.meetingId);
      if row.userId == userId && row.status == Confirmed && found.Some? then [found.value] + rest else rest
  }

  // ------------------------------------------------------------- lemmas

  /** 1 when the row is a confirmed row of the meeting, else 0. */
  function Hit(r: Registration, meetingId: int): nat {
    if r.meetingId == meetingId && r.status == Confirmed then 1 else 0
  }

  lemma ConfirmedCountAppend(rows: seq<Registration>, r: Registration, meetingId: int)
    ensures ConfirmedCount(rows + [r], meetingId) == ConfirmedCount(rows, meetingId) + Hit(r, meetingId)
  {
    assert (rows + [r])[..|rows|] == rows;
  }

  lemma {:induction false} ConfirmedCountUpdate(rows: seq<Registration>, k: nat, v: Registration, meetingId: int)
    requires k < |rows|
    ensures ConfirmedCount(rows[k := v], meetingId) + Hit(rows[k], meetingId)
            == ConfirmedCount(rows, meetingId) + Hit(v, meetingId)
  {
    var n := |rows| - 1;
    var upd := rows[k := v];
    assert rows == rows[..n] + [rows[n]];
    if k == n {
      assert upd == rows[..n] + [v];
      ConfirmedCountAppend(rows[..n], v, meetingId);
      ConfirmedCountAppend(rows[..n], rows[n], meetingId);
    } else {
      assert upd == rows[..n][k := v] + [rows[n]];
      ConfirmedCountUpdate(rows[..n], k, v, meetingId);
      ConfirmedCountAppend(rows[..n][k := v], rows[n], meetingId);
      ConfirmedCountAppend(rows[..n], rows[n], meetingId);
    }
  }

  lemma {:induction false} ConfirmedCountAbsent(rows: seq<Registration>, meetingId: int)
    requires forall i :: 0 <= i < |rows| ==> rows[i].meetingId != meetingId
    ensures ConfirmedCount(rows, meetingId) == 0
  {
    if |rows| > 0 {
      ConfirmedCountAbsent(rows[..|rows| - 1], meetingId);
    }
  }

  /** Under the invariant, the "already registered" query finds at most one row. */
  lemma OneConfirmedRowPerPair(rows: seq<Registration>, meetingId: int, userId: int)
    requires AtMostOneConfirmed(rows)
    ensures |RowsFor(rows, meetingId, userId, {Confirmed})| <= 1
  {
    FirstTwoRowsFor(rows, meetingId, userId, {Confirmed});
  }

  lemma FirstTwoRowsFor(rows: seq<Registration>, meetingId: int, userId: int, wanted: set<RegistrationStatus>)
    ensures var r := RowsFor(rows, meetingId, userId, wanted);
            |r| > 1 ==> r[0] < r[1] < |rows| && Matches(rows[r[0]], meetingId, userId, wanted)
                        && Matches(rows[r[1]], meetingId, userId, wanted)
  {
  }

  /** A pair with exactly one matching row has exactly that position. */
  lemma {:induction false} OneRowFor(rows: seq<Registration>, meetingId: int, userId: int,
                                     wanted: set<RegistrationStatus>, k: nat)
    requires k < |rows| && Matches(rows[k], meetingId, userId, wanted)
    requires forall i :: 0 <= i < |rows| && i != k ==> !Matches(rows[i], meetingId, userId, wanted)
    ensures RowsFor(rows, meetingId, userId, wanted) == [k]
  {
    var n := |rows| - 1;
    if k == n {
      NoRowsFor(rows[..n], meetingId, userId, wanted);
    } else {
      OneRowFor(rows[..n], meetingId, userId, wanted, k);
    }
  }

  /** A pair without a matching row has no positions. */
  lemma NoRowsFor(rows: seq<Registration>, meetingId: int, userId: int, wanted: set<RegistrationStatus>)
    requires forall i :: 0 <= i < |rows| ==> !Matches(rows[i], meetingId, userId, wanted)
    ensures RowsFor(rows, meetingId, userId, wanted) == []
  {
  }

  /**
   * `register`, case by case: a missing or canceled meeting is refused; a
   * confirmed row of the user is refused (a waitlisted one is not); otherwise
   * exactly one row is appended, confirmed iff the live count is below
   * `max_participants`, with the matching message. Refusals change nothing.
   */
  lemma RegisterOutcomes(ms: seq<Meeting>, rows: seq<Registration>, meetingId: int, userId: int, now: int)
    ensures var st := RegisterStep(ms, rows, meetingId, userId, now);
            var found := FindMeeting(ms, meetingId);
            var active := found.Some? && found.value.IsActive();
            var confirmed := RowsFor(rows, meetingId, userId, {Confirmed});
            && (st.reply == Reply(false, NotFoundMessage) <==> !active)
            && (st.reply == Reply(false, AlreadyRegisteredMessage) <==> active && |confirmed| == 1)
            && (st.reply == MultipleResultsFound <==> active && |confirmed| > 1)
            && (st.reply.Reply? && st.reply.ok <==> active && confirmed == [])
            && (!(st.reply.Reply? && st.reply.ok) ==> st.rows == rows)
            && (st.reply.Reply? && st.reply.ok ==>
                  var full := ConfirmedCount(rows, meetingId) >= found.value.maxParticipants;
                  && st.rows == rows + [NewRegistration(|rows| + 1, meetingId, userId, now,
                                                         if full then Waitlisted else Confirmed)]
                  && st.reply.message == (if full then WaitlistedMessage else RegisteredMessage))
  {
  }

  /** `register` never pushes a meeting past `max_participants`. */
  lemma RegisterKeepsCapacity(ms: seq<Meeting>, rows: seq<Registration>, meetingId: int, userId: int, now: int)
    requires UniqueIds(ms) && WithinCapacity(ms, rows)
    ensures WithinCapacity(ms, RegisterStep(ms, rows, meetingId, userId, now).rows)
  {
    var st := RegisterStep(ms, rows, meetingId, userId, now);
    if st.rows != rows {
      var r := st.rows[|rows|];
      assert st.rows == rows + [r];
      forall i | 0 <= i < |ms| ensures ConfirmedCount(st.rows, ms[i].id) <= ms[i].maxParticipants {
        ConfirmedCountAppend(rows, r, ms[i].id);
        if ms[i].id == meetingId {
          FindMeetingUnique(ms, i);
        }
      }
    }
  }

  /** `register` never gives a pair a second confirmed row. */
  lemma RegisterKeepsOneConfirmed(ms: seq<Meeting>, rows: seq<Registration>, meetingId: int, userId: int, now: int)
    requires AtMostOneConfirmed(rows)
    ensures AtMostOneConfirmed(RegisterStep(ms, rows, meetingId, userId, now).rows)
  {
    var st := RegisterStep(ms, rows, meetingId, userId, now);
    if st.rows != rows {
      var r := st.rows[|rows|];
      assert st.rows == rows + [r];
      assert RowsFor(rows, meetingId, userId, {Confirmed}) == [];
      forall i, j | 0 <= i < j < |st.rows| && st.rows[i].status == Confirmed && st.rows[j].status == Confirmed
        ensures st.rows[i].meetingId != st.rows[j].meetingId || st.rows[i].userId != st.rows[j].userId
      {
        if j < |rows| {
          assert st.rows[i] == rows[i] && st.rows[j] == rows[j];
        } else {
          assert st.rows[i] == rows[i] && st.rows[j] == r;
        }
      }
    }
  }

  /**
   * `unregister`, case by case: no live row gives "not registered"; exactly
   * one flips to canceled and nothing else changes; several raise. It does
   * not look at the meeting at all.
   */
  lemma UnregisterOutcomes(rows: seq<Registration>, meetingId: int, userId: int)
    ensures var st := UnregisterStep(rows, meetingId, userId);
            var live := RowsFor(rows, meetingId, userId, {Confirmed, Waitlisted});
            && |st.rows| == |rows|
            && (st.reply == Reply(false, NotRegisteredMessage) <==> live == [])
            && (st.reply == MultipleResultsFound <==> |live| > 1)
            && (st.reply == Reply(true, UnregisteredMessage) <==> |live| == 1)
            && (|live| != 1 ==> st.rows == rows)
            && (|live| == 1 ==>
                  && IsLive(rows[live[0]].status)
                  && rows[live[0]].meetingId == meetingId && rows[live[0]].userId == userId
                  && st.rows[live[0]] == rows[live[0]].(status := Canceled)
                  && forall i :: 0 <= i < |rows| && i != live[0] ==> st.rows[i] == rows[i])
  {
  }

  /** No row becomes confirmed through `unregister`: the waitlist is never promoted. */
  lemma UnregisterNeverPromotes(rows: seq<Registration>, meetingId: int, userId: int)
    ensures var st := UnregisterStep(rows, meetingId, userId);
            forall i :: 0 <= i < |rows| && rows[i].status == Waitlisted ==>
              st.rows[i].status == Waitlisted || (st.rows[i].status == Canceled && rows[i].userId == userId)
    ensures forall m :: ConfirmedCount(UnregisterStep(rows, meetingId, userId).rows, m) <= ConfirmedCount(rows, m)
  {
    var st := UnregisterStep(rows, meetingId, userId);
    var live := RowsFor(rows, meetingId, userId, {Confirmed, Waitlisted});
    if |live| == 1 {
      var k := live[0];
      forall m ensures ConfirmedCount(st.rows, m) <= ConfirmedCount(rows, m) {
        ConfirmedCountUpdate(rows, k, rows[k].(status := Canceled), m);
      }
    }
  }

  lemma UnregisterKeepsCapacity(ms: seq<Meeting>, rows: seq<Registration>, meetingId: int, userId: int)
    requires WithinCapacity(ms, rows)
    ensures WithinCapacity(ms, UnregisterStep(rows, meetingId, userId).rows)
  {
    UnregisterNeverPromotes(rows, meetingId, userId);
  }

  lemma UnregisterKeepsOneConfirmed(rows: seq<Registration>, meetingId: int, userId: int)
    requires AtMostOneConfirmed(rows)
    ensures AtMostOneConfirmed(UnregisterStep(rows, meetingId, userId).rows)
  {
    var st := UnregisterStep(rows, meetingId, userId);
    forall i, j | 0 <= i < j < |st.rows| && st.rows[i].status == Confirmed && st.rows[j].status == Confirmed
      ensures st.rows[i].meetingId != st.rows[j].meetingId || st.rows[i].userId != st.rows[j].userId
    {
      assert st.rows[i].status == Confirmed ==> st.rows[i] == rows[i];
      assert st.rows[j].status == Confirmed ==> st.rows[j] == rows[j];
    }
  }

  /**
   * `create_meeting`: the host's row gives the new meeting exactly one
   * confirmed seat, ignoring capacity, so the capacity rule still holds
   * afterwards exactly when `max_participants >= 1`.
   */
  lemma CreateMeetingOccupancy(ms: seq<Meeting>, rows: seq<Registration>, m: Meeting, hostId: int, now: int)
    requires RowsReferToMeetings(ms, rows)
    requires forall i :: 0 <= i < |ms| ==> ms[i].id != m.id
    ensures ConfirmedCount(rows + [HostRow(rows, m.id, hostId, now)], m.id) == 1
    ensures WithinCapacity(ms, rows) ==>
              (WithinCapacity(ms + [m], rows + [HostRow(rows, m.id, hostId, now)]) <==> m.maxParticipants >= 1)
  {
    var h := HostRow(rows, m.id, hostId, now);
    forall i | 0 <= i < |rows| ensures rows[i].meetingId != m.id {
      assert HasMeeting(ms, rows[i].meetingId);
    }
    ConfirmedCountAbsent(rows, m.id);
    ConfirmedCountAppend(rows, h, m.id);
    if WithinCapacity(ms, rows) {
      var ms' := ms + [m];
      forall i | 0 <= i < |ms| ensures ConfirmedCount(rows + [h], ms'[i].id) <= ms'[i].maxParticipants {
        ConfirmedCountAppend(rows, h, ms[i].id);
        assert ms'[i] == ms[i];
      }
      assert ms'[|ms|] == m;
    }
  }

  /** The rows of `list_user_meetings` cover every confirmed row of the user. */
  lemma {:induction false} UserMeetingRowsComplete(ms: seq<Meeting>, rows: seq<Registration>, userId: int, m: Meeting)
    requires UniqueIds(ms) && m in ms
    requires UserConfirmedFor(rows, userId, m.id)
    ensures m in UserMeetingRows(ms, rows, userId)
  {
    var i :| 0 <= i < |ms| && ms[i] == m;
    FindMeetingUnique(ms, i);
    if !(rows[0].userId == userId && rows[0].status == Confirmed && rows[0].meetingId == m.id) {
      var k :| 0 <= k < |rows| && rows[k].userId == userId
               && rows[k].status == Confirmed && rows[k].meetingId == m.id;
      assert rows[1..][k - 1] == rows[k];
      UserMeetingRowsComplete(ms, rows[1..], userId, m);
    }
  }

  // ------------------------------------------------------------- scenarios

  /** One admitted `register` call on a table whose occupancy is known. */
  lemma RegisterAdmits(ms: seq<Meeting>, rows: seq<Registration>, m: Meeting, userId: int, now: int, count: nat)
    requires FindMeeting(ms, m.id) == Some(m) && m.IsActive()
    requires forall i :: 0 <= i < |rows| ==> rows[i].userId != userId
    requires ConfirmedCount(rows, m.id) == count
    ensures var status := if count < m.maxParticipants then Confirmed else Waitlisted;
            RegisterStep(ms, rows, m.id, userId, now)
            == Step(Reply(true, if status == Waitlisted then WaitlistedMessage else RegisteredMessage),
                    rows + [NewRegistration(|rows| + 1, m.id, userId, now, status)])
  {
    NoRowsFor(rows, m.id, userId, {Confirmed});
  }

  /** The table after the host's row and then rows for `a` and `b`, in that order. */
  function Table0(host: int, t: int): seq<Registration> {
    [HostRow([], 1, host, t)]
  }

  function Table1(host: int, a: int, sa: RegistrationStatus, t: int): seq<Registration> {
    Table0(host, t) + [NewRegistration(2, 1, a, t, sa)]
  }

  function Table2(host: int, a: int, sa: RegistrationStatus, b: int, sb: RegistrationStatus, t: int): seq<Registration> {
    Table1(host, a, sa, t) + [NewRegistration(3, 1, b, t, sb)]
  }

  /**
   * With `max_participants == 2` the host holds one seat: A is confirmed, B
   * is waitlisted; when A leaves, A's row is canceled, B stays waitlisted and
   * one seat is taken.
   */
  lemma HostSeatScenario(m: Meeting, host: int, a: int, b: int, t: int)
    requires m.id == 1 && m.maxParticipants == 2 && m.IsActive()
    requires host != a && host != b && a != b
    ensures RegisterStep([m], Table0(host, t), 1, a, t)
            == Step(Reply(true, RegisteredMessage), Table1(host, a, Confirmed, t))
    ensures RegisterStep([m], Table1(host, a, Confirmed, t), 1, b, t)
            == Step(Reply(true, WaitlistedMessage), Table2(host, a, Confirmed, b, Waitlisted, t))
    ensures var s3 := UnregisterStep(Table2(host, a, Confirmed, b, Waitlisted, t), 1, a);
            && s3 == Step(Reply(true, UnregisteredMessage), Table2(host, a, Canceled, b, Waitlisted, t))
            && ConfirmedCount(s3.rows, 1) == 1
  {
    HostSeatFirst(m, host, a, t);
    HostSeatSecond(m, host, a, b, t);
    HostSeatLeave(host, a, b, t);
  }

  lemma HostSeatFirst(m: Meeting, host: int, a: int, t: int)
    requires m.id == 1 && m.maxParticipants == 2 && m.IsActive() && host != a
    ensures RegisterStep([m], Table0(host, t), 1, a, t)
            == Step(Reply(true, RegisteredMessage), Table1(host, a, Confirmed, t))
  {
    var h := HostRow([], 1, host, t);
    assert FindMeeting([m], 1) == Some(m);
    assert ConfirmedCount([h], 1) == 1 by {
      ConfirmedCountAppend([], h, 1);
      assert [] + [h] == [h];
    }
    RegisterAdmits([m], [h], m, a, t, 1);
  }

  lemma HostSeatSecond(m: Meeting, host: int, a: int, b: int, t: int)
    requires m.id == 1 && m.maxParticipants == 2 && m.IsActive() && host != b && a != b
    ensures RegisterStep([m], Table1(host, a, Confirmed, t), 1, b, t)
            == Step(Reply(true, WaitlistedMessage), Table2(host, a, Confirmed, b, Waitlisted, t))
  {
    var h, ra := HostRow([], 1, host, t), NewRegistration(2, 1, a, t, Confirmed);
    var r1 := Table1(host, a, Confirmed, t);
    assert r1 == [h] + [ra];
    assert FindMeeting([m], 1) == Some(m);
    assert ConfirmedCount(r1, 1) == 2 by {
      ConfirmedCountAppend([], h, 1);
      assert [] + [h] == [h];
      ConfirmedCountAppend([h], ra, 1);
    }
    RegisterAdmits([m], r1, m, b, t, 2);
  }

  lemma HostSeatLeave(host: int, a: int, b: int, t: int)
    requires host != a && a != b
    ensures var s3 := UnregisterStep(Table2(host, a, Confirmed, b, Waitlisted, t), 1, a);
            && s3 == Step(Reply(true, UnregisteredMessage), Table2(host, a, Canceled, b, Waitlisted, t))
            && ConfirmedCount(s3.rows, 1) == 1
  {
    var r2 := Table2(host, a, Confirmed, b, Waitlisted, t);
    var ra' := r2[1].(status := Canceled);
    assert Table2(host, a, Canceled, b, Waitlisted, t) == r2[1 := ra'];
    assert UnregisterStep(r2, 1, a) == Step(Reply(true, UnregisteredMessage), r2[1 := ra']) by {
      OneRowFor(r2, 1, a, {Confirmed, Waitlisted}, 1);
    }
    TableCount(host, a, Canceled, b, Waitlisted, t);
  }

  /** Only the host's row of these tables counts as long as `a` and `b` are not confirmed. */
  lemma TableCount(host: int, a: int, sa: RegistrationStatus, b: int, sb: RegistrationStatus, t: int)
    requires sa != Confirmed && sb != Confirmed
    ensures ConfirmedCount(Table2(host, a, sa, b, sb, t), 1) == 1
  {
    var h := HostRow([], 1, host, t);
    ConfirmedCountAppend([], h, 1);
    assert [] + [h] == Table0(host, t);
    ConfirmedCountAppend(Table0(host, t), NewRegistration(2, 1, a, t, sa), 1);
    ConfirmedCountAppend(Table1(host, a, sa, t), NewRegistration(3, 1, b, t, sb), 1);
  }

  /**
   * The duplicate check only looks at confirmed rows: a waitlisted user who
   * registers again gets a second live row, and `unregister` then raises.
   */
  lemma SecondLiveRowScenario(m: Meeting, host: int, u: int, t: int)
    requires m.id == 1 && m.maxParticipants == 1 && m.IsActive() && host != u
    ensures RegisterStep([m], Table0(host, t), 1, u, t)
            == Step(Reply(true, WaitlistedMessage), Table1(host, u, Waitlisted, t))
    ensures RegisterStep([m], Table1(host, u, Waitlisted, t), 1, u, t)
            == Step(Reply(true, WaitlistedMessage), Table2(host, u, Waitlisted, u, Waitlisted, t))
    ensures RowsFor(Table2(host, u, Waitlisted, u, Waitlisted, t), 1, u, {Confirmed, Waitlisted}) == [1, 2]
    ensures UnregisterStep(Table2(host, u, Waitlisted, u, Waitlisted, t), 1, u).reply == MultipleResultsFound
  {
    SecondLiveRowFirst(m, host, u, t);
    SecondLiveRowAgain(m, host, u, t);
    SecondLiveRowRows(host, u, t);
  }

  lemma SecondLiveRowFirst(m: Meeting, host: int, u: int, t: int)
    requires m.id == 1 && m.maxParticipants == 1 && m.IsActive() && host != u
    ensures RegisterStep([m], Table0(host, t), 1, u, t)
            == Step(Reply(true, WaitlistedMessage), Table1(host, u, Waitlisted, t))
  {
    var h := HostRow([], 1, host, t);
    assert FindMeeting([m], 1) == Some(m);
    assert ConfirmedCount([h], 1) == 1 by {
      ConfirmedCountAppend([], h, 1);
      assert [] + [h] == [h];
    }
    RegisterAdmits([m], [h], m, u, t, 1);
  }

  lemma SecondLiveRowAgain(m: Meeting, host: int, u: int, t: int)
    requires m.id == 1 && m.maxParticipants == 1 && m.IsActive() && host != u
    ensures RegisterStep([m], Table1(host, u, Waitlisted, t), 1, u, t)
            == Step(Reply(true, WaitlistedMessage), Table2(host, u, Waitlisted, u, Waitlisted, t))
  {
    var h, w1 := HostRow([], 1, host, t), NewRegistration(2, 1, u, t, Waitlisted);
    var r1 := Table1(host, u, Waitlisted, t);
    assert r1 == [h] + [w1];
    assert FindMeeting([m], 1) == Some(m);
    assert RowsFor(r1, 1, u, {Confirmed}) == [] by {
      NoRowsFor(r1, 1, u, {Confirmed});
    }
    assert ConfirmedCount(r1, 1) == 1 by {
      ConfirmedCountAppend([], h, 1);
      assert [] + [h] == [h];
      ConfirmedCountAppend([h], w1, 1);
    }
  }

  lemma SecondLiveRowRows(host: int, u: int, t: int)
    requires host != u
    ensures RowsFor(Table2(host, u, Waitlisted, u, Waitlisted, t), 1, u, {Confirmed, Waitlisted}) == [1, 2]
    ensures UnregisterStep(Table2(host, u, Waitlisted, u, Waitlisted, t), 1, u).reply == MultipleResultsFound
  {
    var h, w1, w2 := HostRow([], 1, host, t), NewRegistration(2, 1, u, t, Waitlisted),
                     NewRegistration(3, 1, u, t, Waitlisted);
    var r2 := Table2(host, u, Waitlisted, u, Waitlisted, t);
    assert r2 == [h, w1, w2];
    assert RowsFor(r2, 1, u, {Confirmed, Waitlisted}) == [1, 2] by {
      assert r2[..2] == [h, w1];
      OneRowFor([h, w1], 1, u, {Confirmed, Waitlisted}, 1);
    }
  }

  // ------------------------------------------------------------- the store

  /** The store hands out identifiers 1, 2, 3, ... in insertion order and never deletes. */
  predicate SequentialIds(ms: seq<Meeting>) {
    forall i :: 0 <= i < |ms| ==> ms[i].id == i + 1
  }

  lemma SequentialFind(ms: seq<Meeting>, id: int)
    requires SequentialIds(ms)
    ensures UniqueIds(ms)
    ensures FindMeeting(ms, id) == if 1 <= id <= |ms| then Some(ms[id - 1]) else None
  {
    if 1 <= id <= |ms| {
      FindMeetingUnique(ms, id - 1);
    }
  }

  predicate SequentialRowIds(rows: seq<Registration>) {
    forall i :: 0 <= i < |rows| ==> rows[i].id == i + 1
  }

  lemma RowsReferAppend(ms: seq<Meeting>, rows: seq<Registration>, m: Meeting, r: Registration)
    requires RowsReferToMeetings(ms, rows)
    requires r.meetingId == m.id
    ensures RowsReferToMeetings(ms + [m], rows + [r])
  {
    var ms', rows' := ms + [m], rows + [r];
    forall i | 0 <= i < |rows'| ensures HasMeeting(ms', rows'[i].meetingId) {
      if i < |rows| {
        assert rows'[i] == rows[i] && HasMeeting(ms, rows[i].meetingId);
        var j :| 0 <= j < |ms| && ms[j].id == rows[i].meetingId;
        assert ms'[j] == ms[j];
      } else {
        assert ms'[|ms|] == m && rows'[i] == r;
      }
    }
  }

  /** Everything `register` keeps, in one place. */
  lemma RegisterKeepsStore(ms: seq<Meeting>, rows: seq<Registration>, meetingId: int, userId: int, now: int)
    requires RowsReferToMeetings(ms, rows) && SequentialRowIds(rows) && UniqueIds(ms)
    ensures var after := RegisterStep(ms, rows, meetingId, userId, now).rows;
            && RowsReferToMeetings(ms, after) && SequentialRowIds(after)
            && (WithinCapacity(ms, rows) ==> WithinCapacity(ms, after))
            && (AtMostOneConfirmed(rows) ==> AtMostOneConfirmed(after))
  {
    RegisterKeepsReferences(ms, rows, meetingId, userId, now);
    if WithinCapacity(ms, rows) {
      RegisterKeepsCapacity(ms, rows, meetingId, userId, now);
    }
    if AtMostOneConfirmed(rows) {
      RegisterKeepsOneConfirmed(ms, rows, meetingId, userId, now);
    }
  }

  /** After `register`, row ids stay sequential and every row still points at a meeting. */
  lemma RegisterKeepsReferences(ms: seq<Meeting>, rows: seq<Registration>, meetingId: int, userId: int, now: int)
    requires RowsReferToMeetings(ms, rows) && SequentialRowIds(rows)
    ensures RowsReferToMeetings(ms, RegisterStep(ms, rows, meetingId, userId, now).rows)
    ensures SequentialRowIds(RegisterStep(ms, rows, meetingId, userId, now).rows)
  {
    var st := RegisterStep(ms, rows, meetingId, userId, now);
    if st.rows != rows {
      var r := st.rows[|rows|];
      assert st.rows == rows + [r];
      forall i | 0 <= i < |st.rows| ensures HasMeeting(ms, st.rows[i].meetingId) {
        if i < |rows| {
          assert st.rows[i] == rows[i];
        }
      }
    }
  }

  /** After `unregister`, ids and meeting references are those of before. */
  lemma UnregisterKeepsReferences(ms: seq<Meeting>, rows: seq<Registration>, meetingId: int, userId: int)
    requires RowsReferToMeetings(ms, rows) && SequentialRowIds(rows)
    ensures RowsReferToMeetings(ms, UnregisterStep(rows, meetingId, userId).rows)
    ensures SequentialRowIds(UnregisterStep(rows, meetingId, userId).rows)
  {
    var st := UnregisterStep(rows, meetingId, userId);
    assert forall i :: 0 <= i < |rows| ==> st.rows[i].meetingId == rows[i].meetingId && st.rows[i].id == rows[i].id;
  }

  /** What `get_user_name` returns for a stored user: the name, else the username, else nothing. */
  function DisplayName(u: User): (r: Option<string>)
    ensures r.Some? ==> r.value != ""
    ensures u.name != "" ==> r == Some(u.name)
    ensures u.name == "" ==> (r.Some? <==> u.username.Some? && u.username.value != "")
    ensures u.name == "" && r.Some? ==> r == u.username
  {
    if u.name != "" then Some(u.name)
    else if u.username.Some? && u.username.value != "" then u.username
    else None
  }

  /**
   * The three tables. Every method is one session against them; the
   * engine, the connection pool and the transactions are not modelled.
   */
  class Database {
    var users: map<int, User>
    var meetings: seq<Meeting>
    var registrations: seq<Registration>

    /** Keys are ids, ids are sequential, and rows point at meetings. */
    ghost predicate Valid()
      reads this
    {
      && (forall k :: k in users ==> users[k].id == k)
      && SequentialIds(meetings)
      && SequentialRowIds(registrations)
      && RowsReferToMeetings(meetings, registrations)
    }

    /** A store with all three tables created and empty. */
    constructor ()
      ensures Valid()
      ensures users == map[] && meetings == [] && registrations == []
    {
      users := map[];
      meetings := [];
      registrations := [];
    }

    /** `get_or_create_user`: an existing row is returned untouched, name and username included. */
    method GetOrCreateUser(userId: int, name: string, username: Option<string>, now: int) returns (u: User)
      requires Valid()
      modifies this
      ensures Valid()
      ensures meetings == old(meetings) && registrations == old(registrations)
      ensures userId in old(users) ==> u == old(users)[userId] && users == old(users)
      ensures userId !in old(users) ==> u == NewUser(userId, name, username, now) && users == old(users)[userId := u]
      ensures u.id == userId && userId in users && users[userId] == u
    {
      if userId in users {
        u := users[userId];
      } else {
        u := NewUser(userId, name, username, now);
        users := users[userId := u];
      }
    }

    /**
     * `create_meeting`: the meeting gets the next id and its host a
     * confirmed row in the same commit, whatever `max_participants` says.
     */
    method CreateMeeting(hostId: int, topic: string, description: string, startAtUtc: int,
                         maxParticipants: int, location: Option<string>, now: int) returns (m: Meeting)
      requires Valid()
      modifies this
      ensures Valid()
      ensures m == NewMeeting(|old(meetings)| + 1, topic, description, startAtUtc, maxParticipants, location, hostId, now)
      ensures forall i :: 0 <= i < |old(meetings)| ==> old(meetings)[i].id != m.id
      ensures users == old(users) && meetings == old(meetings) + [m]
      ensures registrations == old(registrations) + [HostRow(old(registrations), m.id, hostId, now)]
      ensures ConfirmedCount(registrations, m.id) == 1
      ensures WithinCapacity(old(meetings), old(registrations)) ==>
                (WithinCapacity(meetings, registrations) <==> maxParticipants >= 1)
      ensures AtMostOneConfirmed(old(registrations)) ==> AtMostOneConfirmed(registrations)
    {
      m := NewMeeting(|meetings| + 1, topic, description, startAtUtc, maxParticipants, location, hostId, now);
      var reg := HostRow(registrations, m.id, hostId, now);
      CreateMeetingOccupancy(meetings, registrations, m, hostId, now);
      ghost var rows := registrations;
      RowsReferAppend(meetings, registrations, m, reg);
      meetings := meetings + [m];
      registrations := registrations + [reg];
      if AtMostOneConfirmed(rows) {
        forall i, j | 0 <= i < j < |registrations| && registrations[i].status == Confirmed && registrations[j].status == Confirmed
          ensures registrations[i].meetingId != registrations[j].meetingId || registrations[i].userId != registrations[j].userId
        {
          assert registrations[i] == rows[i];
          if j == |rows| {
            var k :| 0 <= k < |meetings| - 1 && meetings[k].id == rows[i].meetingId;
          } else {
            assert registrations[j] == rows[j];
          }
        }
      }
    }

    /** `get_meeting`: canceled meetings are returned too. */
    method GetMeeting(meetingId: int) returns (r: Option<Meeting>)
      requires Valid()
      ensures r.Some? <==> exists i :: 0 <= i < |meetings| && meetings[i].id == meetingId
      ensures r.Some? <==> 1 <= meetingId <= |meetings|
      ensures r.Some? ==> r.value == meetings[meetingId - 1] && r.value.id == meetingId
    {
      SequentialFind(meetings, meetingId);
      r := FindMeeting(meetings, meetingId);
    }

    /** `list_upcoming_meetings`: the active meetings starting at or after `now`, earliest first. */
    method ListUpcomingMeetings(now: int) returns (r: seq<Meeting>)
      ensures SortedByStart(r)
      ensures multiset(r) == multiset(Upcoming(meetings, now))
      ensures forall m :: m in r <==> m in meetings && m.IsActive() && m.startAtUtc >= now
      ensures r == SortByStart(Upcoming(meetings, now))
    {
      var matching := Upcoming(meetings, now);
      r := SortByStart(matching);
      forall m ensures m in r <==> m in matching {
        assert m in r <==> m in multiset(r);
        assert m in matching <==> m in multiset(matching);
      }
    }

    /** `list_user_meetings`: one meeting per confirmed row of the user, hosted ones included, earliest first. */
    method ListUserMeetings(userId: int) returns (r: seq<Meeting>)
      requires Valid()
      ensures SortedByStart(r)
      ensures multiset(r) == multiset(UserMeetingRows(meetings, registrations, userId))
      ensures forall m :: m in r <==> m in meetings && UserConfirmedFor(registrations, userId, m.id)
      ensures r == SortByStart(UserMeetingRows(meetings, registrations, userId))
    {
      var joined := UserMeetingRows(meetings, registrations, userId);
      r := SortByStart(joined);
      SequentialFind(meetings, 0);
      forall m ensures m in r <==> m in joined {
        assert m in r <==> m in multiset(r);
        assert m in joined <==> m in multiset(joined);
      }
      forall m | m in meetings && UserConfirmedFor(registrations, userId, m.id)
        ensures m in joined
      {
        UserMeetingRowsComplete(meetings, registrations, userId, m);
      }
    }

    /** `count_confirmed`: how many confirmed rows the meeting has right now. */
    method CountConfirmed(meetingId: int) returns (n: nat)
      ensures n == |Participants(registrations, meetingId)|
      ensures n <= |registrations|
      ensures n == 0 <== forall i :: 0 <= i < |registrations| ==> registrations[i].meetingId != meetingId
    {
      n := ConfirmedCount(registrations, meetingId);
      if forall i :: 0 <= i < |registrations| ==> registrations[i].meetingId != meetingId {
        ConfirmedCountAbsent(registrations, meetingId);
      }
    }

    /** `get_user`. */
    method GetUser(userId: int) returns (r: Option<User>)
      ensures r.Some? <==> userId in users
      ensures r.Some? ==> r.value == users[userId]
    {
      if userId in users {
        r := Some(users[userId]);
      } else {
        r := None;
      }
    }

    /** `get_user_name`: full name preferred, username as fallback, never an empty string. */
    method GetUserName(userId: int) returns (r: Option<string>)
      requires Valid()
      ensures r.Some? ==> userId in users && r.value != ""
      ensures userId in users ==> r == DisplayName(users[userId])
      ensures userId !in users ==> r.None?
    {
      if userId !in users {
        return None;
      }
      var u := users[userId];
      r := DisplayName(u);
    }

    /** `register` as one session; see `RegisterOutcomes` for its cases. */
    method Register(meetingId: int, userId: int, now: int) returns (reply: Reply)
      requires Valid()
      modifies this
      ensures Valid()
      ensures Step(reply, registrations) == RegisterStep(meetings, old(registrations), meetingId, userId, now)
      ensures users == old(users) && meetings == old(meetings)
      ensures WithinCapacity(meetings, old(registrations)) ==> WithinCapacity(meetings, registrations)
      ensures AtMostOneConfirmed(old(registrations)) ==> AtMostOneConfirmed(registrations)
    {
      ghost var rows := registrations;
      var m := FindMeeting(meetings, meetingId);
      if m.None? || !m.value.IsActive() {
        reply := Reply(false, NotFoundMessage);
      } else {
        var existing := RowsFor(registrations, meetingId, userId, {Confirmed});
        if |existing| > 1 {
          reply := MultipleResultsFound;
        } else if |existing| == 1 {
          reply := Reply(false, AlreadyRegisteredMessage);
        } else {
          var count := ConfirmedCount(registrations, meetingId);
          var status := if count < m.value.maxParticipants then Confirmed else Waitlisted;
          registrations := registrations + [NewRegistration(|registrations| + 1, meetingId, userId, now, status)];
          reply := Reply(true, if status == Waitlisted then WaitlistedMessage else RegisteredMessage);
        }
      }
      RegisterKeepsStore(meetings, rows, meetingId, userId, now);
    }

    /** `unregister` as one session; see `UnregisterOutcomes` for its cases. */
    method Unregister(meetingId: int, userId: int) returns (reply: Reply)
      requires Valid()
      modifies this
      ensures Valid()
      ensures Step(reply, registrations) == UnregisterStep(old(registrations), meetingId, userId)
      ensures users == old(users) && meetings == old(meetings)
      ensures WithinCapacity(meetings, old(registrations)) ==> WithinCapacity(meetings, registrations)
      ensures AtMostOneConfirmed(old(registrations)) ==> AtMostOneConfirmed(registrations)
    {
      ghost var rows := registrations;
      if WithinCapacity(meetings, rows) {
        UnregisterKeepsCapacity(meetings, rows, meetingId, userId);
      }
      if AtMostOneConfirmed(rows) {
        UnregisterKeepsOneConfirmed(rows, meetingId, userId);
      }
      var live := RowsFor(registrations, meetingId, userId, {Confirmed, Waitlisted});
      if |live| == 0 {
        return Reply(false, NotRegisteredMessage);
      }
      if |live| > 1 {
        return MultipleResultsFound;
      }
      UnregisterKeepsReferences(meetings, rows, meetingId, userId);
      var k := live[0];
      registrations := registrations[k := registrations[k].(status := Canceled)];
      reply := Reply(true, UnregisteredMessage);
    }

    /** `list_meeting_participants`: the confirmed rows of the meeting, in table order. */
    method ListMeetingParticipants(meetingId: int) returns (ps: seq<Registration>)
      ensures forall p :: p in ps <==> p in registrations && p.meetingId == meetingId && p.status == Confirmed
      ensures |ps| == ConfirmedCount(registrations, meetingId)
    {
      ps := Participants(registrations, meetingId);
    }
  }
}

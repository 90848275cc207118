/**
 * The three persisted records (bot/models.py). Instants are UTC seconds;
 * `created_at`/`updated_at` take the clock reading passed in by the caller.
 */
module Models {
  import opened Wrappers

  /** A registration is in exactly one of three states. */
  datatype RegistrationStatus = Confirmed | Waitlisted | Canceled

  /** The text stored in the `status` column. */
  function StatusText(s: RegistrationStatus): string {
    match s
    case Confirmed => "confirmed"
    case Waitlisted => "waitlisted"
    case Canceled => "canceled"
  }

  /** Reads a `status` column back; only the three constants are statuses. */
  function ParseStatus(t: string): (r: Option<RegistrationStatus>)
    ensures r.Some? <==> t == "confirmed" || t == "waitlisted" || t == "canceled"
    ensures r.Some? ==> StatusText(r.value) == t
  {
    if t == "confirmed" then Some(Confirmed)
    else if t == "waitlisted" then Some(Waitlisted)
    else if t == "canceled" then Some(Canceled)
    else None
  }

  lemma StatusTextRoundTrip(s: RegistrationStatus)
    ensures ParseStatus(StatusText(s)) == Some(s)
  {
  }

  /** Confirmed and waitlisted rows are live; canceled ones are not. */
  predicate IsLive(s: RegistrationStatus) {
    s == Confirmed || s == Waitlisted
  }

  /** A platform user; the id comes from the messaging platform, `username` may be absent. */
  datatype User = User(id: int, name: string, username: Option<string>, createdAt: int)

  /** A meeting; `id` is assigned by the store, `location` may be absent. */
  datatype Meeting = Meeting(
    id: int,
    topic: string,
    description: string,
    startAtUtc: int,
    maxParticipants: int,
    location: Option<string>,
    createdBy: int,
    createdAt: int,
    updatedAt: int,
    canceledAt: Option<int>)
  {
    /** A meeting is active exactly when it has no cancellation instant. */
    predicate IsActive() {
      canceledAt.None?
    }
  }

  /** A row linking a user to a meeting; `id` is assigned by the store. */
  datatype Registration = Registration(id: int, meetingId: int, userId: int, status: RegistrationStatus, createdAt: int)

  /** `User(id=..., name=..., username=...)` with `created_at` defaulted to the clock. */
  function NewUser(id: int, name: string, username: Option<string>, now: int): (u: User)
    ensures u.id == id && u.name == name && u.username == username
    ensures u.createdAt == now
  {
    User(id, name, username, now)
  }

  /** `Meeting(...)` as first inserted: both timestamps are the clock, not canceled. */
  function NewMeeting(id: int, topic: string, description: string, startAtUtc: int, maxParticipants: int,
                      location: Option<string>, createdBy: int, now: int): (m: Meeting)
    ensures m.id == id && m.IsActive() && m.createdAt == now && m.updatedAt == now
    ensures m.topic == topic && m.description == description && m.startAtUtc == startAtUtc
    ensures m.maxParticipants == maxParticipants && m.location == location && m.createdBy == createdBy
  {
    Meeting(id, topic, description, startAtUtc, maxParticipants, location, createdBy, now, now, None)
  }

  /** `Registration(...)`; the status defaults to confirmed when none is given. */
  function NewRegistration(id: int, meetingId: int, userId: int, now: int,
                           status: RegistrationStatus := Confirmed): (r: Registration)
    ensures r.id == id && r.meetingId == meetingId && r.userId == userId && r.status == status
    ensures r.createdAt == now
  {
    Registration(id, meetingId, userId, status, now)
  }

  lemma DefaultStatusIsConfirmed(id: int, meetingId: int, userId: int, now: int)
    ensures NewRegistration(id, meetingId, userId, now).status == Confirmed
  {
  }
}

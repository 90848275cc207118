/**
 * The pure helpers behind the command and button handlers (bot/handlers.py):
 * the `/create_meeting` argument parser, the free-seat count, the host line
 * of the details card and the parsing of the meeting buttons' callback data.
 */
module Handlers {
  import opened Wrappers
  import opened Strings
  import opened Models
  import opened Storage

  // ----------------------------------------------------- /create_meeting args

  /** What `_parse_new_args` returns on success. */
  datatype NewMeetingArgs = NewMeetingArgs(
    topic: string,
    description: string,
    dtStr: string,
    maxParticipants: int,
    location: Option<string>)

  /** Neither `|` inside nor whitespace at either end. */
  predicate CleanField(s: string) {
    '|' !in s && Stripped(s)
  }

  /** No whitespace at either end. */
  predicate Stripped(s: string) {
    s == [] || (!IsSpace(s[0]) && !IsSpace(s[|s| - 1]))
  }

  lemma StripAvoids(s: string, c: char)
    requires c !in s
    ensures c !in Strip(s)
  {
    StripCutsOnlySpace(s);
  }

  /**
   * `_parse_new_args`: at least four `|`-fields, each stripped; the fourth
   * must be an integer; a fifth, if present, is the location; the rest are
   * dropped. `None` for too few fields or a non-integer maximum. Only the
   * fields that are used are stripped here, since the others are discarded.
   */
  function ParseNewArgs(arg: string): (r: Option<NewMeetingArgs>)
    ensures r.Some? <==> |Split(arg, '|')| >= 4 && PyInt(Split(arg, '|')[3]).Some?
    ensures r.Some? ==> r.value.maxParticipants == PyInt(Split(arg, '|')[3]).value
    ensures r.Some? ==> (r.value.location.None? <==> |Split(arg, '|')| == 4)
  {
    var parts := Split(arg, '|');
    if |parts| < 4 then None
    else
      StripIdempotent(parts[3]);
      var maxP := PyInt(Strip(parts[3]));
      if maxP.None? then None
      else
        var location := if |parts| > 4 then Some(Strip(parts[4])) else None;
        Some(NewMeetingArgs(Strip(parts[0]), Strip(parts[1]), Strip(parts[2]), maxP.value, location))
  }

  /** Every text field that comes out is stripped and free of `|`. */
  lemma ParseNewArgsFieldsClean(arg: string)
    requires ParseNewArgs(arg).Some?
    ensures var a := ParseNewArgs(arg).value;
            && CleanField(a.topic) && CleanField(a.description) && CleanField(a.dtStr)
            && (a.location.Some? ==> CleanField(a.location.value))
  {
    var raw := Split(arg, '|');
    var a := ParseNewArgs(arg).value;
    assert a.topic == Strip(raw[0]) && a.description == Strip(raw[1]) && a.dtStr == Strip(raw[2]);
    assert a.location.Some? ==> |raw| > 4 && a.location.value == Strip(raw[4]);
    StripField(raw[0]);
    StripField(raw[1]);
    StripField(raw[2]);
    if |raw| > 4 {
      StripField(raw[4]);
    }
  }

  /** A stripped field of `s.split("|")` is clean. */
  lemma StripField(s: string)
    requires '|' !in s
    ensures CleanField(Strip(s))
  {
    StripAvoids(s, '|');
  }

  /** Whitespace only. */
  const Blank: string := " "

  lemma BlankIsSpace()
    ensures AllSpace(Blank) && AllSpace([])
  {
  }

  /**
   * The `|`-fields of the command text for `a` in the documented
   * `topic | description | date | max | location` layout: each field with
   * one blank on each side that has a neighbour.
   */
  function PaddedFields(a: NewMeetingArgs): (p: seq<string>)
    ensures |p| == if a.location.Some? then 5 else 4
  {
    var n := IntToString(a.maxParticipants);
    [a.topic + Blank, Blank + a.description + Blank, Blank + a.dtStr + Blank]
    + (if a.location.Some? then [Blank + n + Blank, Blank + a.location.value] else [Blank + n])
  }

  /** The command text: the padded fields joined by `|`. */
  function CommandText(a: NewMeetingArgs): string {
    Join(PaddedFields(a), "|")
  }

  /** Fields free of `|` stay free of it once padded. */
  lemma PaddedFieldsAvoidBar(a: NewMeetingArgs)
    requires '|' !in a.topic && '|' !in a.description && '|' !in a.dtStr
    requires a.location.Some? ==> '|' !in a.location.value
    ensures forall i :: 0 <= i < |PaddedFields(a)| ==> '|' !in PaddedFields(a)[i]
  {
    IntToStringAvoids(a.maxParticipants, '|');
  }

  lemma SplitCommandText(a: NewMeetingArgs)
    requires '|' !in a.topic && '|' !in a.description && '|' !in a.dtStr
    requires a.location.Some? ==> '|' !in a.location.value
    ensures Split(CommandText(a), '|') == PaddedFields(a)
  {
    PaddedFieldsAvoidBar(a);
    SplitJoin(PaddedFields(a), '|');
  }

  /** Blanks on either side of a clean field are all that `strip()` removes. */
  lemma StripFramed(x: string)
    requires Stripped(x)
    ensures Strip(Blank + x + Blank) == x
  {
    BlankIsSpace();
    StripPadded(Blank, x, Blank);
  }

  lemma StripFramedLeft(x: string)
    requires Stripped(x)
    ensures Strip(Blank + x) == x
  {
    BlankIsSpace();
    StripPadded(Blank, x, []);
    assert Blank + x == Blank + x + [];
  }

  lemma StripFramedRight(x: string)
    requires Stripped(x)
    ensures Strip(x + Blank) == x
  {
    BlankIsSpace();
    StripPadded([], x, Blank);
    assert x + Blank == [] + x + Blank;
  }

  lemma ParseNewArgsRoundTrip(a: NewMeetingArgs)
    requires CleanField(a.topic) && CleanField(a.description) && CleanField(a.dtStr)
    requires a.location.Some? ==> CleanField(a.location.value)
    ensures ParseNewArgs(CommandText(a)) == Some(a)
  {
    var text := CommandText(a);
    var p := Split(text, '|');
    assert p == PaddedFields(a) by {
      SplitCommandText(a);
    }
    var loc: Option<string> := if |p| > 4 then Some(Strip(p[4])) else None;
    assert Strip(p[0]) == a.topic && Strip(p[1]) == a.description && Strip(p[2]) == a.dtStr
           && PyInt(Strip(p[3])) == Some(a.maxParticipants) && loc == a.location by {
      StripPaddedFields(a);
    }
    ParseNewArgsOfFields(text, a.maxParticipants);
  }

  /** Each padded field strips back to the field it pads. */
  lemma StripPaddedFields(a: NewMeetingArgs)
    requires Stripped(a.topic) && Stripped(a.description) && Stripped(a.dtStr)
    requires a.location.Some? ==> Stripped(a.location.value)
    ensures var p := PaddedFields(a);
            && Strip(p[0]) == a.topic && Strip(p[1]) == a.description && Strip(p[2]) == a.dtStr
            && PyInt(Strip(p[3])) == Some(a.maxParticipants)
            && (a.location.Some? <==> |p| > 4)
            && (a.location.Some? ==> Strip(p[4]) == a.location.value)
  {
    StripPaddedHead(a);
    StripPaddedRest(a);
  }

  lemma StripPaddedHead(a: NewMeetingArgs)
    requires Stripped(a.topic) && Stripped(a.description) && Stripped(a.dtStr)
    ensures var p := PaddedFields(a);
            Strip(p[0]) == a.topic && Strip(p[1]) == a.description && Strip(p[2]) == a.dtStr
  {
    var p := PaddedFields(a);
    assert p[0] == a.topic + Blank && p[1] == Blank + a.description + Blank && p[2] == Blank + a.dtStr + Blank;
    StripFramedRight(a.topic);
    StripFramed(a.description);
    StripFramed(a.dtStr);
  }

  lemma StripPaddedRest(a: NewMeetingArgs)
    requires a.location.Some? ==> Stripped(a.location.value)
    ensures var p := PaddedFields(a);
            && PyInt(Strip(p[3])) == Some(a.maxParticipants)
            && (a.location.Some? <==> |p| > 4)
            && (a.location.Some? ==> Strip(p[4]) == a.location.value)
  {
    var n := IntToString(a.maxParticipants);
    var p := PaddedFields(a);
    assert Stripped(n) by {
      NotSpace(n[0]);
      NotSpace(n[|n| - 1]);
    }
    IntToStringRoundTrip(a.maxParticipants);
    if a.location.Some? {
      assert p[3] == Blank + n + Blank && p[4] == Blank + a.location.value;
      StripFramed(n);
      StripFramedLeft(a.location.value);
    } else {
      assert p[3] == Blank + n;
      StripFramedLeft(n);
    }
  }

  /** The successful case of `ParseNewArgs`, field by field. */
  lemma ParseNewArgsOfFields(arg: string, maxP: int)
    requires |Split(arg, '|')| >= 4 && PyInt(Strip(Split(arg, '|')[3])) == Some(maxP)
    ensures var p := Split(arg, '|');
            ParseNewArgs(arg) == Some(NewMeetingArgs(Strip(p[0]), Strip(p[1]), Strip(p[2]), maxP,
                                                     if |p| > 4 then Some(Strip(p[4])) else None))
  {
  }

  // ------------------------------------------------------------ free seats

  /** `max(max_participants - confirmed, 0)`. */
  function FreeSeats(maxParticipants: int, confirmed: int): (r: int)
    ensures r >= 0 && r >= maxParticipants - confirmed
    ensures r == 0 || r == maxParticipants - confirmed
  {
    if maxParticipants - confirmed > 0 then maxParticipants - confirmed else 0
  }

  /**
   * In a store that keeps its capacity, the count shown is exactly the seats
   * left, and it is zero exactly when a new registration would be waitlisted.
   */
  lemma FreeSeatsOfMeeting(ms: seq<Meeting>, rows: seq<Registration>, m: Meeting)
    requires m in ms && WithinCapacity(ms, rows)
    ensures FreeSeats(m.maxParticipants, ConfirmedCount(rows, m.id))
            == m.maxParticipants - ConfirmedCount(rows, m.id)
    ensures FreeSeats(m.maxParticipants, ConfirmedCount(rows, m.id)) == 0
            <==> ConfirmedCount(rows, m.id) >= m.maxParticipants
  {
  }

  // ------------------------------------------------------------ host line

  predicate HasUsername(u: User) {
    u.username.Some? && u.username.value != ""
  }

  /** `get_user_name(...) or "Unknown"`, the host line of the listings. */
  function HostName(name: Option<string>): (r: string)
    ensures name.Some? && name.value != "" ==> r == name.value
    ensures name.None? ==> r == "Unknown"
  {
    if name.Some? && name.value != "" then name.value else "Unknown"
  }

  /**
   * The host line of the details card: `name (@username)`, `@username`, the
   * name alone, or `Unknown` for a missing host or one with neither.
   */
  function HostDisplay(host: Option<User>): (r: string)
    ensures r != ""
    ensures host.None? ==> r == "Unknown"
    ensures host.Some? && HasUsername(host.value) && host.value.name != "" ==>
              r == host.value.name + " (@" + host.value.username.value + ")"
    ensures host.Some? && HasUsername(host.value) && host.value.name == "" ==>
              r == "@" + host.value.username.value
    ensures host.Some? && !HasUsername(host.value) ==>
              r == (if host.value.name != "" then host.value.name else "Unknown")
  {
    match host
    case None => "Unknown"
    case Some(u) =>
      var display := if u.name != "" then u.name
                     else if u.username.Some? && u.username.value != "" then u.username.value
                     else "Unknown";
      if HasUsername(u) then
        if u.name != "" then u.name + " (@" + u.username.value + ")" else "@" + u.username.value
      else display
  }

  /**
   * The details card and the listings name the same person: without a
   * username both show the display name (or `Unknown`); with one, the card
   * adds the handle to the name, or shows the handle with `@`.
   */
  lemma HostDisplayAgreesWithListing(u: User)
    ensures !HasUsername(u) ==> HostDisplay(Some(u)) == HostName(DisplayName(u))
    ensures HasUsername(u) && u.name != "" ==>
              HostDisplay(Some(u))[..|u.name|] == DisplayName(u).value
    ensures HasUsername(u) && u.name == "" ==>
              HostDisplay(Some(u)) == "@" + DisplayName(u).value
  {
    if HasUsername(u) && u.name != "" {
      assert HostDisplay(Some(u)) == u.name + (" (@" + u.username.value + ")");
    }
  }

  // ------------------------------------------------------------ button data

  /** The two meeting buttons of the listings. */
  datatype ButtonKind = RegisterButton | DetailsButton

  function ButtonPrefix(kind: ButtonKind): string {
    match kind
    case RegisterButton => "register"
    case DetailsButton => "details"
  }

  /** The reply for callback data that does not carry a meeting id. */
  function InvalidRequest(kind: ButtonKind): string {
    match kind
    case RegisterButton => "Invalid registration request."
    case DetailsButton => "Invalid details request."
  }

  /** `f"register:{m.id}"` / `f"details:{m.id}"`. */
  function ButtonData(kind: ButtonKind, meetingId: int): string {
    ButtonPrefix(kind) + ":" + IntToString(meetingId)
  }

  /**
   * `data = cq.data or ""`, then `_, id_str = data.split(":", 1)` and
   * `int(id_str)`: an error without a colon or with a non-integer tail.
   * The text before the first colon is not looked at.
   */
  function ParseButtonData(data: Option<string>, kind: ButtonKind): (r: Result<int, string>)
    ensures var d := if data.Some? then data.value else "";
            r.Ok? <==> ':' in d && PyInt(SplitOnce(d, ':').value.1).Some?
    ensures r.Err? ==> r.error == InvalidRequest(kind)
    ensures var d := if data.Some? then data.value else "";
            r.Ok? ==> ':' in d && PyInt(SplitOnce(d, ':').value.1) == Some(r.value)
  {
    var d := if data.Some? then data.value else "";
    match SplitOnce(d, ':')
    case None => Err(InvalidRequest(kind))
    case Some((_, idText)) =>
      match PyInt(idText)
      case None => Err(InvalidRequest(kind))
      case Some(id) => Ok(id)
  }

  /** Button data round-trips to the meeting it was made for. */
  lemma ButtonDataRoundTrip(kind: ButtonKind, meetingId: int)
    ensures ParseButtonData(Some(ButtonData(kind, meetingId)), kind) == Ok(meetingId)
  {
    var prefix := ButtonPrefix(kind);
    assert ButtonData(kind, meetingId) == prefix + [':'] + IntToString(meetingId);
    ButtonPrefixHasNoColon(kind);
    SplitOnceAt(prefix, ':', IntToString(meetingId));
    IntToStringRoundTrip(meetingId);
  }

  /**
   * The handlers are only called for data matching `^register:\d+$` or
   * `^details:\d+$` (where `$` also matches before a final newline); all such
   * data parses, so the error reply is unreachable through the buttons.
   */
  lemma ButtonPrefixHasNoColon(kind: ButtonKind)
    ensures ':' !in ButtonPrefix(kind)
  {
    match kind
    case RegisterButton => assert ButtonPrefix(kind) == "register";
    case DetailsButton => assert ButtonPrefix(kind) == "details";
  }

  lemma PatternDataParses(kind: ButtonKind, digits: string, nl: string)
    requires IsDigits(digits) && (nl == "" || nl == "\n")
    ensures ParseButtonData(Some(ButtonPrefix(kind) + ":" + digits + nl), kind) == Ok(DigitsValue(digits))
  {
    var prefix := ButtonPrefix(kind);
    var data := prefix + ":" + digits + nl;
    assert SplitOnce(data, ':') == Some((prefix, digits + nl)) by {
      assert data == prefix + [':'] + (digits + nl);
      ButtonPrefixHasNoColon(kind);
      SplitOnceAt(prefix, ':', digits + nl);
    }
    DigitsBeforeNewline(digits, nl);
  }

  /** `int()` ignores the newline that `$` lets through. */
  lemma DigitsBeforeNewline(digits: string, nl: string)
    requires IsDigits(digits) && (nl == "" || nl == "\n")
    ensures PyInt(digits + nl) == Some(DigitsValue(digits))
  {
    assert Strip(digits + nl) == digits by {
      assert AllSpace(nl) && AllSpace([]);
      assert !IsSpace(digits[0]) && !IsSpace(digits[|digits| - 1]);
      StripPadded([], digits, nl);
      assert digits + nl == [] + digits + nl;
    }
  }

  /** A missing callback payload reads as `""`, which has no colon. */
  lemma MissingDataIsInvalid(kind: ButtonKind)
    ensures ParseButtonData(None, kind) == Err(InvalidRequest(kind))
  {
  }
}

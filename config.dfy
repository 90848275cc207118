/**
 * Configuration (bot/config.py): the settings record with its defaults,
 * `announce_config` (announcement time and days, each with a fallback) and
 * `load_settings`, with the process environment passed in as a map.
 */
module Config {
  import opened Wrappers
  import opened Strings
  import opened Utils

  const DefaultDatabaseUrl: string := "sqlite+aiosqlite:///./gtbot.db"
  const DefaultTimeZone: string := "Europe/Berlin"
  const DefaultAnnounceDays: seq<int> := [1, 15]
  const DefaultAnnounceTime: string := "10:00"
  const DefaultLogLevel: string := "INFO"
  const DefaultTimeOfDay: TimeOfDay := TimeOfDay(10, 0)

  /** The `Settings` model; the time zone is kept as its name. */
  datatype Settings = Settings(
    telegramBotToken: string,
    databaseUrl: string,
    tz: string,
    announcementsChannelId: Option<int>,
    adminUserIds: seq<int>,
    botOwnerId: Option<int>,
    announceDays: seq<int>,
    announceTime: string,
    logLevel: string)

  /** `Settings(telegram_bot_token=token)`: every other field at its default. */
  function DefaultSettings(token: string): (s: Settings)
    ensures s.telegramBotToken == token && s.announcementsChannelId.None? && s.botOwnerId.None?
  {
    Settings(token, DefaultDatabaseUrl, DefaultTimeZone, None, [], None,
             DefaultAnnounceDays, DefaultAnnounceTime, DefaultLogLevel)
  }

  /** The `AnnounceConfig` model: days of the month and a local time of day. */
  datatype AnnounceConfig = AnnounceConfig(days: seq<int>, timeOfDay: TimeOfDay)

  predicate ValidTime(t: TimeOfDay) {
    0 <= t.hour < 24 && 0 <= t.minute < 60
  }

  // ------------------------------------------------------------- the time

  /** `(announce_time.split(":") + ["0"])[:2]`: a missing minute field reads as `"0"`. */
  function TimeFields(s: string): (r: (string, string))
    ensures r.0 == Split(s, ':')[0]
    ensures r.1 == (if |Split(s, ':')| >= 2 then Split(s, ':')[1] else "0")
  {
    var fields := Split(s, ':') + ["0"];
    (fields[0], fields[1])
  }

  /**
   * `time(int(hh), int(mm))`, or 10:00 when either number does not parse or
   * is out of range.
   */
  function ParseAnnounceTime(s: string): (t: TimeOfDay)
    ensures ValidTime(t)
    ensures var f := TimeFields(s);
            (PyInt(f.0).None? || PyInt(f.1).None? || MakeTime(PyInt(f.0).value, PyInt(f.1).value).None?)
            ==> t == DefaultTimeOfDay
  {
    var (hh, mm) := TimeFields(s);
    var h := PyInt(hh);
    var m := PyInt(mm);
    if h.Some? && m.Some? then
      match MakeTime(h.value, m.value)
      case Some(t) => t
      case None => DefaultTimeOfDay
    else DefaultTimeOfDay
  }

  lemma Pad2Avoids(n: int, c: char)
    requires n >= 0 && !IsDigit(c)
    ensures c !in Pad2(n)
  {
  }

  /**
   * `HH:MM`, optionally followed by more `:`-fields, reads back as that time;
   * whatever follows the minutes is ignored.
   */
  lemma AnnounceTimeRoundTrip(t: TimeOfDay, rest: string)
    requires ValidTime(t)
    requires rest == [] || rest[0] == ':'
    ensures ParseAnnounceTime(Pad2(t.hour) + ":" + Pad2(t.minute) + rest) == t
  {
    var hh, mm := Pad2(t.hour), Pad2(t.minute);
    assert TimeFields(hh + ":" + mm + rest) == (hh, mm) by {
      Pad2Avoids(t.hour, ':');
      Pad2Avoids(t.minute, ':');
      TimeFieldsOf(hh, mm, rest);
    }
    assert PyInt(hh) == Some(t.hour) by {
      Pad2RoundTrip(t.hour);
    }
    assert PyInt(mm) == Some(t.minute) by {
      Pad2RoundTrip(t.minute);
    }
    ParseAnnounceTimeOf(hh + ":" + mm + rest, hh, mm, t);
  }

  /** Text cut into `hh`, `mm` and a tail that is empty or starts a further field. */
  lemma TimeFieldsOf(hh: string, mm: string, rest: string)
    requires ':' !in hh && ':' !in mm
    requires rest == [] || rest[0] == ':'
    ensures TimeFields(hh + ":" + mm + rest) == (hh, mm)
  {
    var s := hh + ":" + mm + rest;
    assert Split(s, ':')[..2] == [hh, mm] by {
      assert s == hh + [':'] + (mm + rest);
      SplitCons(hh, ':', mm + rest);
      if rest == [] {
        assert mm + rest == mm;
        SplitWithoutSeparator(mm, ':');
      } else {
        assert mm + rest == mm + [':'] + rest[1..];
        SplitCons(mm, ':', rest[1..]);
      }
    }
  }

  /** The successful case of `ParseAnnounceTime`. */
  lemma ParseAnnounceTimeOf(s: string, hh: string, mm: string, t: TimeOfDay)
    requires ValidTime(t) && TimeFields(s) == (hh, mm)
    requires PyInt(hh) == Some(t.hour) && PyInt(mm) == Some(t.minute)
    ensures ParseAnnounceTime(s) == t
  {
    assert MakeTime(t.hour, t.minute) == Some(t);
  }

  /** An hour alone means that hour sharp. */
  lemma AnnounceTimeHourOnly(hour: int)
    requires 0 <= hour < 24
    ensures ParseAnnounceTime(Pad2(hour)) == TimeOfDay(hour, 0)
  {
    assert TimeFields(Pad2(hour)) == (Pad2(hour), "0") by {
      Pad2Avoids(hour, ':');
      SplitWithoutSeparator(Pad2(hour), ':');
    }
    Pad2RoundTrip(hour);
    ZeroParses();
  }

  lemma ZeroParses()
    ensures PyInt("0") == Some(0)
  {
    StripUnchanged("0");
    assert DigitsValue("0") == 0 by {
      assert "0"[..0] == [];
    }
  }

  /** The two defaults agree: `"10:00"` reads as `time(10, 0)`. */
  lemma DefaultAnnounceTimeParses()
    ensures ParseAnnounceTime(DefaultAnnounceTime) == DefaultTimeOfDay
  {
    assert Pad2(10) == "10" by {
      assert NatToString(10) == NatToString(1) + [DigitChar(0)];
    }
    assert Pad2(0) == "00";
    assert DefaultAnnounceTime == Pad2(10) + ":" + Pad2(0) + [];
    AnnounceTimeRoundTrip(DefaultTimeOfDay, []);
  }

  // ------------------------------------------------------------- the days

  predicate IsMonthDay(d: int) {
    1 <= d <= 31
  }

  /** The days of `xs` that lie in 1..31, in their order, duplicates kept. */
  function MonthDays(xs: seq<int>): (r: seq<int>)
    ensures |r| <= |xs|
    ensures forall i :: 0 <= i < |r| ==> IsMonthDay(r[i])
  {
    if |xs| == 0 then []
    else if IsMonthDay(xs[|xs| - 1]) then MonthDays(xs[..|xs| - 1]) + [xs[|xs| - 1]]
    else MonthDays(xs[..|xs| - 1])
  }

  /** Each day in range is kept as often as it occurs; nothing else is kept. */
  lemma {:induction false} MonthDaysCounts(xs: seq<int>, d: int)
    ensures multiset(MonthDays(xs))[d] == if IsMonthDay(d) then multiset(xs)[d] else 0
  {
    if |xs| > 0 {
      var init, last := xs[..|xs| - 1], xs[|xs| - 1];
      assert xs == init + [last];
      MonthDaysCounts(init, d);
    }
  }

  /** Filtering splits over concatenation, so the order of the days is kept. */
  lemma {:induction false} MonthDaysAppend(xs: seq<int>, ys: seq<int>)
    ensures MonthDays(xs + ys) == MonthDays(xs) + MonthDays(ys)
  {
    if |ys| == 0 {
      assert xs + ys == xs;
    } else {
      var init, last := ys[..|ys| - 1], ys[|ys| - 1];
      assert (xs + ys)[..|xs + ys| - 1] == xs + init;
      assert (xs + ys)[|xs + ys| - 1] == last;
      MonthDaysAppend(xs, init);
    }
  }

  /** Days already in range pass through untouched. */
  lemma {:induction false} MonthDaysKeepsValid(xs: seq<int>)
    requires forall i :: 0 <= i < |xs| ==> IsMonthDay(xs[i])
    ensures MonthDays(xs) == xs
  {
    if |xs| > 0 {
      MonthDaysKeepsValid(xs[..|xs| - 1]);
      assert xs[..|xs| - 1] + [xs[|xs| - 1]] == xs;
    }
  }

  lemma MonthDaysStep(xs: seq<int>, i: int)
    requires 0 <= i < |xs|
    ensures MonthDays(xs[..i + 1]) == MonthDays(xs[..i]) + if IsMonthDay(xs[i]) then [xs[i]] else []
  {
    assert xs[..i + 1][..i] == xs[..i];
  }

  /** The day loop of `announce_config`: the days in 1..31, in order, or 1 and 15 when none is. */
  method AnnounceDaysOf(xs: seq<int>) returns (days: seq<int>)
    ensures days == if MonthDays(xs) == [] then DefaultAnnounceDays else MonthDays(xs)
    ensures |days| > 0 && forall i :: 0 <= i < |days| ==> IsMonthDay(days[i])
  {
    days := [];
    var i := 0;
    while i < |xs|
      invariant 0 <= i <= |xs|
      invariant days == MonthDays(xs[..i])
    {
      var d := xs[i];
      MonthDaysStep(xs, i);
      if 1 <= d <= 31 {
        days := days + [d];
      }
      i := i + 1;
    }
    assert xs[..i] == xs;
    if days == [] {
      days := DefaultAnnounceDays;
    }
  }

  /** `announce_config`: the parsed time, and the days of `AnnounceDaysOf`. */
  method AnnounceConfigOf(s: Settings) returns (c: AnnounceConfig)
    ensures c.timeOfDay == ParseAnnounceTime(s.announceTime) && ValidTime(c.timeOfDay)
    ensures c.days == if MonthDays(s.announceDays) == [] then DefaultAnnounceDays else MonthDays(s.announceDays)
    ensures |c.days| > 0 && forall i :: 0 <= i < |c.days| ==> IsMonthDay(c.days[i])
  {
    var t := ParseAnnounceTime(s.announceTime);
    var days := AnnounceDaysOf(s.announceDays);
    c := AnnounceConfig(days, t);
  }

  // ------------------------------------------------------- the environment

  /** `os.getenv(key, default)`. */
  function GetEnv(env: map<string, string>, key: string, default: string): string {
    if key in env then env[key] else default
  }

  /** `os.getenv(key)`: `None` when the variable is unset. */
  function LookupEnv(env: map<string, string>, key: string): (r: Option<string>)
    ensures r.Some? <==> key in env
    ensures r.Some? ==> r.value == env[key]
  {
    if key in env then Some(env[key]) else None
  }

  /** The fields of `ANNOUNCE_DAYS` whose stripped text is all digits, as numbers. */
  function DigitFields(parts: seq<string>): (r: seq<int>)
    ensures |r| <= |parts|
    ensures forall i :: 0 <= i < |r| ==> r[i] >= 0
  {
    if |parts| == 0 then []
    else
      var rest := DigitFields(parts[1..]);
      var p := Strip(parts[0]);
      if IsDigits(p) then [DigitsValue(p) as int] + rest else rest
  }

  /** `[int(x) for x in value.split(",") if x.strip().isdigit()]`. */
  function ParseAnnounceDays(value: string): (r: seq<int>)
    ensures forall i :: 0 <= i < |r| ==> r[i] >= 0
  {
    DigitFields(Split(value, ','))
  }

  /** One field contributes its number when its stripped text is all digits, and nothing otherwise. */
  lemma DigitFieldsSingle(p: string)
    ensures DigitFields([p]) == if IsDigits(Strip(p)) then [DigitsValue(Strip(p)) as int] else []
  {
    assert [p][1..] == [];
  }

  /** Fields are read independently: the result for a concatenation is the concatenation of the results. */
  lemma {:induction false} DigitFieldsAppend(xs: seq<string>, ys: seq<string>)
    ensures DigitFields(xs + ys) == DigitFields(xs) + DigitFields(ys)
  {
    if |xs| == 0 {
      assert xs + ys == ys;
    } else {
      assert (xs + ys)[0] == xs[0];
      assert (xs + ys)[1..] == xs[1..] + ys;
      DigitFieldsAppend(xs[1..], ys);
    }
  }

  /**
   * The days of comma-joined fields are the days of the fields themselves:
   * each field between commas is kept or dropped on its own.
   */
  lemma ParseAnnounceDaysOfFields(parts: seq<string>)
    requires |parts| >= 1
    requires forall i :: 0 <= i < |parts| ==> ',' !in parts[i]
    ensures ParseAnnounceDays(Join(parts, ",")) == DigitFields(parts)
  {
    SplitJoin(parts, ',');
  }

  /** Fields that are the decimal numerals of some numbers read back as those numbers. */
  lemma {:induction false} DigitFieldsOfNumerals(fields: seq<string>, days: seq<int>)
    requires |fields| == |days|
    requires forall i :: 0 <= i < |days| ==> days[i] >= 0 && fields[i] == NatToString(days[i])
    ensures DigitFields(fields) == days
  {
    if |days| > 0 {
      DigitFieldsOfNumerals(fields[1..], days[1..]);
      var n: nat := days[0];
      assert Strip(fields[0]) == fields[0] by {
        StripNumeral(fields[0]);
      }
      DigitsValueOfNatToString(n);
      HeadTail(days);
    }
  }

  lemma DigitFieldsOfIntStrings(days: seq<int>)
    requires forall i :: 0 <= i < |days| ==> days[i] >= 0
    ensures DigitFields(IntStrings(days)) == days
  {
    DigitFieldsOfNumerals(IntStrings(days), days);
  }

  /**
   * A comma-separated list of day numbers, as the cron day field writes it,
   * reads back as the same days.
   */
  lemma AnnounceDaysRoundTrip(days: seq<int>)
    requires forall i :: 0 <= i < |days| ==> days[i] >= 0
    ensures ParseAnnounceDays(Join(IntStrings(days), ",")) == days
  {
    var parts := IntStrings(days);
    if |days| == 0 {
      assert Join(parts, ",") == "";
      assert Split("", ',') == [""];
      assert !IsDigits(Strip(""));
    } else {
      forall i | 0 <= i < |parts|
        ensures ',' !in parts[i]
      {
        IntToStringAvoids(days[i], ',');
      }
      SplitJoin(parts, ',');
      DigitFieldsOfIntStrings(days);
    }
  }

  /** `ANNOUNCE_DAYS` unset means days 1 and 15, as in the settings defaults. */
  lemma DefaultAnnounceDaysParse()
    ensures ParseAnnounceDays("1,15") == DefaultAnnounceDays
  {
    assert IntToString(15) == "15" by {
      assert NatToString(15) == NatToString(1) + [DigitChar(5)];
    }
    assert IntStrings([1, 15]) == ["1", "15"] by {
      assert IntStrings([1, 15])[0] == "1";
    }
    assert Join(["1", "15"], ",") == "1,15" by {
      assert ["1", "15"][1..] == ["15"];
    }
    AnnounceDaysRoundTrip([1, 15]);
  }

  /**
   * `int(channel_id) if channel_id and channel_id.strip() else None`:
   * unset or blank means no channel; any other text must be an integer,
   * otherwise `load_settings` fails.
   */
  function ChannelIdFromEnv(value: Option<string>): (r: Result<Option<int>, string>)
    ensures r == Ok(None) <==> value.None? || Strip(value.value) == ""
    ensures r.Err? <==> value.Some? && Strip(value.value) != "" && PyInt(value.value).None?
    ensures r.Ok? && r.value.Some? ==> PyInt(value.value) == Some(r.value.value)
  {
    if value.None? || value.value == "" || Strip(value.value) == "" then Ok(None)
    else
      match PyInt(value.value)
      case None => Err("invalid literal for int() with base 10")
      case Some(n) => Ok(Some(n))
  }

  /** Every integer, negative channel ids included, survives the round trip. */
  lemma ChannelIdRoundTrip(n: int)
    ensures ChannelIdFromEnv(Some(IntToString(n))) == Ok(Some(n))
  {
    IntToStringRoundTrip(n);
    StripNumeral(IntToString(n));
  }

  /**
   * `load_settings`: each variable or its default; an unset or empty
   * `BOT_TOKEN` becomes `""`; fails only on a channel id that is not an integer.
   */
  function LoadSettings(env: map<string, string>): (r: Result<Settings, string>)
    ensures r.Err? <==> ChannelIdFromEnv(LookupEnv(env, "ANNOUNCEMENTS_CHANNEL_ID")).Err?
    ensures r.Ok? ==> r.value.adminUserIds == [] && r.value.botOwnerId.None?
    ensures r.Ok? ==> r.value.announcementsChannelId == ChannelIdFromEnv(LookupEnv(env, "ANNOUNCEMENTS_CHANNEL_ID")).value
    ensures r.Ok? ==> r.value.telegramBotToken == (if "BOT_TOKEN" in env then env["BOT_TOKEN"] else "")
    ensures r.Ok? ==> && r.value.databaseUrl == GetEnv(env, "DATABASE_URL", DefaultDatabaseUrl)
                      && r.value.tz == GetEnv(env, "TIMEZONE", DefaultTimeZone)
                      && r.value.logLevel == GetEnv(env, "LOG_LEVEL", DefaultLogLevel)
    ensures r.Ok? ==> r.value.announceDays == ParseAnnounceDays(GetEnv(env, "ANNOUNCE_DAYS", "1,15"))
    ensures r.Ok? ==> r.value.announceTime == GetEnv(env, "ANNOUNCE_TIME", DefaultAnnounceTime)
  {
    var token := if "BOT_TOKEN" in env && env["BOT_TOKEN"] != "" then env["BOT_TOKEN"] else "";
    var dbUrl := GetEnv(env, "DATABASE_URL", DefaultDatabaseUrl);
    var tzName := GetEnv(env, "TIMEZONE", DefaultTimeZone);
    var channel := ChannelIdFromEnv(LookupEnv(env, "ANNOUNCEMENTS_CHANNEL_ID"));
    var days := ParseAnnounceDays(GetEnv(env, "ANNOUNCE_DAYS", "1,15"));
    var time := GetEnv(env, "ANNOUNCE_TIME", DefaultAnnounceTime);
    var logLevel := GetEnv(env, "LOG_LEVEL", DefaultLogLevel);
    match channel
    case Err(e) => Err(e)
    case Ok(channelId) =>
      Ok(Settings(token, dbUrl, tzName, channelId, [], None, days, time, logLevel))
  }

  /** With nothing set, `load_settings` yields the model's own defaults. */
  lemma LoadSettingsEmptyEnv()
    ensures LoadSettings(map[]) == Ok(DefaultSettings(""))
  {
    DefaultAnnounceDaysParse();
  }

  /** The default days 1 and 15 pass the day filter of `announce_config` as they are. */
  lemma DefaultAnnounceDaysKept()
    ensures MonthDays(DefaultAnnounceDays) == DefaultAnnounceDays
  {
    MonthDaysKeepsValid(DefaultAnnounceDays);
  }
}

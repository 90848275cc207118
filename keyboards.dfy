/**
 * The inline keyboards of the meeting wizard (bot/keyboards.py): the
 * three-month picker and its callback parser, and the hour and minute
 * pickers. A button is its label and its callback data; a keyboard is a
 * sequence of rows.
 */
module Keyboards {
  import opened Wrappers
  import opened Strings

  datatype Button = Button(text: string, callbackData: string)

  type Keyboard = seq<seq<Button>>

  const RussianMonths: seq<string> := [
    "Январь", "Февраль", "Март", "Апрель", "Май", "Июнь",
    "Июль", "Август", "Сентябрь", "Октябрь", "Ноябрь", "Декабрь"
  ]

  const HourStart: int := 6
  const HourEnd: int := 23
  const HoursPerRow: nat := 4
  const MinuteOptions: seq<int> := [0, 15, 30, 45]

  // ------------------------------------------------------------ month picker

  /** A calendar date; `month` is 1..12 as in `datetime.date`. */
  datatype Date = Date(year: int, month: int, day: int)

  predicate ValidMonth(month: int) { 1 <= month <= 12 }

  /**
   * The year and month of `d + relativedelta(months=k)`: months roll over
   * into years; the day of the month plays no part in either.
   */
  function MonthsLater(year: int, month: int, k: nat): (r: (int, int))
    requires ValidMonth(month)
    ensures ValidMonth(r.1)
    ensures r.0 * 12 + r.1 == year * 12 + month + k
  {
    var total := year * 12 + (month - 1) + k;
    (total / 12, total % 12 + 1)
  }

  /** The calendar month after (year, month). */
  function NextMonth(year: int, month: int): (int, int)
    requires ValidMonth(month)
  {
    if month == 12 then (year + 1, 1) else (year, month + 1)
  }

  /** The `k+1`-th button month is the calendar month after the `k`-th. */
  lemma MonthsLaterStep(year: int, month: int, k: nat)
    requires ValidMonth(month)
    ensures var p := MonthsLater(year, month, k);
            MonthsLater(year, month, k + 1) == NextMonth(p.0, p.1)
  {
  }

  lemma MonthsLaterZero(year: int, month: int)
    requires ValidMonth(month)
    ensures MonthsLater(year, month, 0) == (year, month)
  {
  }

  /** `month:{year}:{month}`. */
  function MonthCallback(year: int, month: int): string {
    "month:" + IntToString(year) + ":" + IntToString(month)
  }

  /** `f"{month_name} {year}"` with `callback_data=f"month:{year}:{month}"`. */
  function MonthButton(year: int, month: int): Button
    requires ValidMonth(month)
  {
    Button(RussianMonths[month - 1] + " " + IntToString(year), MonthCallback(year, month))
  }

  /** `MonthPickerKeyboard.build`, with tomorrow's date passed in. */
  method BuildMonthPicker(tomorrow: Date) returns (kb: Keyboard)
    requires ValidMonth(tomorrow.month)
    ensures |kb| == 3
    ensures forall i :: 0 <= i < 3 ==>
              var p := MonthsLater(tomorrow.year, tomorrow.month, i);
              kb[i] == [MonthButton(p.0, p.1)]
  {
    kb := [];
    var i := 0;
    while i < 3
      invariant 0 <= i <= 3 && |kb| == i
      invariant forall j :: 0 <= j < i ==>
                  var p := MonthsLater(tomorrow.year, tomorrow.month, j);
                  kb[j] == [MonthButton(p.0, p.1)]
    {
      var p := MonthsLater(tomorrow.year, tomorrow.month, i);
      var caption := RussianMonths[p.1 - 1] + " " + IntToString(p.0);
      kb := kb + [[Button(caption, MonthCallback(p.0, p.1))]];
      i := i + 1;
    }
  }

  predicate StartsWith(s: string, prefix: string) {
    |prefix| <= |s| && s[..|prefix|] == prefix
  }

  /**
   * `MonthPickerKeyboard.parse_callback`: the `month:` prefix, exactly three
   * `:`-fields, and two integers; the month range is not checked.
   */
  function ParseMonthCallback(data: string): (r: Option<(int, int)>)
    ensures !StartsWith(data, "month:") ==> r.None?
    ensures |Split(data, ':')| != 3 ==> r.None?
    ensures r.Some? <==> StartsWith(data, "month:") && |Split(data, ':')| == 3
                         && PyInt(Split(data, ':')[1]).Some? && PyInt(Split(data, ':')[2]).Some?
    ensures r.Some? ==> r.value == (PyInt(Split(data, ':')[1]).value, PyInt(Split(data, ':')[2]).value)
  {
    if !StartsWith(data, "month:") then None
    else
      var parts := Split(data, ':');
      if |parts| != 3 then None
      else
        var y := PyInt(parts[1]);
        var m := PyInt(parts[2]);
        if y.None? || m.None? then None else Some((y.value, m.value))
  }

  /** Three `:`-separated fields, none holding `:`. */
  lemma SplitThree(a: string, b: string, c: string, sep: char)
    requires sep !in a && sep !in b && sep !in c
    ensures Split(a + [sep] + b + [sep] + c, sep) == [a, b, c]
  {
    var t := b + [sep] + c;
    assert Split(t, sep) == [b, c] by {
      SplitCons(b, sep, c);
      SplitWithoutSeparator(c, sep);
    }
    assert a + [sep] + b + [sep] + c == a + [sep] + t;
    SplitCons(a, sep, t);
  }

  /** The data a month button carries parses back to its year and month. */
  lemma MonthCallbackRoundTrip(year: int, month: int)
    ensures ParseMonthCallback(MonthCallback(year, month)) == Some((year, month))
  {
    var data := MonthCallback(year, month);
    assert StartsWith(data, "month:") by {
      assert data[..6] == "month:";
    }
    assert Split(data, ':') == ["month", IntToString(year), IntToString(month)] by {
      MonthCallbackSplit(year, month);
    }
    assert PyInt(IntToString(year)) == Some(year) by {
      IntToStringRoundTrip(year);
    }
    assert PyInt(IntToString(month)) == Some(month) by {
      IntToStringRoundTrip(month);
    }
    ParseMonthCallbackOf(data, "month", IntToString(year), IntToString(month), year, month);
  }

  lemma ParseMonthCallbackOf(data: string, head: string, y: string, m: string, year: int, month: int)
    requires StartsWith(data, "month:") && Split(data, ':') == [head, y, m]
    requires PyInt(y) == Some(year) && PyInt(m) == Some(month)
    ensures ParseMonthCallback(data) == Some((year, month))
  {
  }

  lemma MonthCallbackSplit(year: int, month: int)
    ensures Split(MonthCallback(year, month), ':') == ["month", IntToString(year), IntToString(month)]
  {
    var y, m := IntToString(year), IntToString(month);
    assert ':' !in y by { IntToStringAvoids(year, ':'); }
    assert ':' !in m by { IntToStringAvoids(month, ':'); }
    assert MonthCallback(year, month) == "month" + [':'] + y + [':'] + m;
    SplitThree("month", y, m, ':');
  }

  // ----------------------------------------------------------- hour picker

  /** `f"{hour:02d}:00"` with `callback_data=f"hour:{hour}"`. */
  function HourButton(hour: int): Button {
    Button(Pad2(hour) + ":00", "hour:" + IntToString(hour))
  }

  /** `n` buttons for consecutive hours from `first` on. */
  function HourRun(first: int, n: nat): (row: seq<Button>)
    ensures |row| == n
  {
    seq(n, j requires 0 <= j < n => HourButton(first + j))
  }

  /** The first `k` rows of the grid, each four hours long. */
  function HourRows(k: nat): (kb: Keyboard)
    ensures |kb| == k
  {
    seq(k, r requires 0 <= r < k => HourRun(HourStart + HoursPerRow * r, HoursPerRow))
  }

  const HourCount: nat := HourEnd - HourStart + 1

  /**
   * The grid the hour picker shows: every full row of four, then a shorter
   * row with what is left over, if anything is.
   */
  function HourGrid(): Keyboard {
    var full, rest := HourCount / HoursPerRow, HourCount % HoursPerRow;
    HourRows(full) + if rest == 0 then [] else [HourRun(HourStart + HoursPerRow * full, rest)]
  }

  lemma HourRunAppend(first: int, n: nat)
    ensures HourRun(first, n) + [HourButton(first + n)] == HourRun(first, n + 1)
  {
  }

  lemma HourRowsAppend(k: nat)
    ensures HourRows(k) + [HourRun(HourStart + HoursPerRow * k, HoursPerRow)] == HourRows(k + 1)
  {
  }

  /**
   * While `build_hours` runs: the full rows so far and the row being filled
   * hold the hours before `hour`, in order.
   */
  predicate HoursSoFar(kb: Keyboard, row: seq<Button>, hour: int) {
    && hour - HourStart == HoursPerRow * |kb| + |row| && |row| < HoursPerRow
    && kb == HourRows(|kb|)
    && row == HourRun(HourStart + HoursPerRow * |kb|, |row|)
  }

  /** One turn of the loop: append the hour, and close the row once it has four. */
  lemma HoursSoFarStep(kb: Keyboard, row: seq<Button>, hour: int)
    requires HoursSoFar(kb, row, hour)
    ensures var row' := row + [HourButton(hour)];
            if |row'| == HoursPerRow then HoursSoFar(kb + [row'], [], hour + 1)
            else HoursSoFar(kb, row', hour + 1)
  {
    HourRunAppend(HourStart + HoursPerRow * |kb|, |row|);
    if |row| + 1 == HoursPerRow {
      HourRowsAppend(|kb|);
    }
  }

  /**
   * `TimePickerKeyboard.build_hours`: hours 6..23 in order, four to a row,
   * the two left over in a last row.
   */
  method BuildHours() returns (kb: Keyboard)
    ensures kb == HourGrid()
  {
    kb := [];
    var row: seq<Button> := [];
    var hour := HourStart;
    while hour <= HourEnd
      invariant HourStart <= hour <= HourEnd + 1
      invariant HoursSoFar(kb, row, hour)
    {
      var button := HourButton(hour);
      HoursSoFarStep(kb, row, hour);
      row := row + [button];
      if |row| == HoursPerRow {
        kb := kb + [row];
        row := [];
      }
      hour := hour + 1;
    }
    HourGridOf(kb, row);
    if row != [] {
      kb := kb + [row];
    }
  }

  /** Four full rows and the two hours left over make up the grid. */
  lemma HourGridOf(kb: Keyboard, row: seq<Button>)
    requires HoursSoFar(kb, row, HourEnd + 1)
    ensures row != [] && kb + [row] == HourGrid()
  {
  }

  /** The grid has four full rows and a last row of two. */
  lemma HourGridShape()
    ensures |HourGrid()| == 5
    ensures forall r :: 0 <= r < 4 ==> |HourGrid()[r]| == HoursPerRow
    ensures |HourGrid()[4]| == 2
  {
  }

  /** Every hour 6..23 has its button, at row `(h-6)/4`, column `(h-6)%4`. */
  lemma HourButtonPlace(hour: int)
    requires HourStart <= hour <= HourEnd
    ensures var kb, r, j := HourGrid(), (hour - HourStart) / 4, (hour - HourStart) % 4;
            r < |kb| && j < |kb[r]| && kb[r][j] == HourButton(hour)
  {
    var kb, r, j := HourGrid(), (hour - HourStart) / 4, (hour - HourStart) % 4;
    if r < 4 {
      assert kb[r] == HourRows(4)[r];
    } else {
      assert kb[r] == HourRun(HourStart + 16, 2);
    }
  }

  /** Conversely, the button at row `r`, column `j` shows hour `6 + 4r + j`, within 6..23. */
  lemma HourGridButtons(r: int, j: int)
    requires 0 <= r < |HourGrid()| && 0 <= j < |HourGrid()[r]|
    ensures HourGrid()[r][j] == HourButton(HourStart + 4 * r + j)
    ensures HourStart <= HourStart + 4 * r + j <= HourEnd
  {
    var kb := HourGrid();
    if r < 4 {
      assert kb[r] == HourRows(4)[r];
    } else {
      assert kb[r] == HourRun(HourStart + 16, 2);
    }
  }

  /** Two positions of the grid never show the same hour. */
  lemma HourGridInjective(r1: int, j1: int, r2: int, j2: int)
    requires 0 <= j1 < HoursPerRow && 0 <= j2 < HoursPerRow
    requires HourButton(HourStart + 4 * r1 + j1) == HourButton(HourStart + 4 * r2 + j2)
    ensures r1 == r2 && j1 == j2
  {
    var h1, h2 := HourStart + 4 * r1 + j1, HourStart + 4 * r2 + j2;
    assert "hour:" + IntToString(h1) == "hour:" + IntToString(h2);
    assert IntToString(h1) == ("hour:" + IntToString(h1))[5..];
    assert IntToString(h2) == ("hour:" + IntToString(h2))[5..];
    IntToStringInjective(h1, h2);
  }

  /** The label of an hour button reads back as its hour. */
  lemma HourButtonLabel(hour: int)
    requires 0 <= hour < 24
    ensures |HourButton(hour).text| == 5
    ensures HourButton(hour).text[2..] == ":00"
    ensures PyInt(HourButton(hour).text[..2]) == Some(hour)
  {
    var p := Pad2(hour);
    assert |p| == 2 by {
      if hour >= 10 {
        assert p == NatToString(hour) && hour / 10 < 10;
        assert NatToString(hour) == NatToString(hour / 10) + [DigitChar(hour % 10)];
      }
    }
    assert HourButton(hour).text[..2] == p;
    Pad2RoundTrip(hour);
  }

  // --------------------------------------------------------- minute picker

  const BackButton: Button := Button("⬅️ Назад к выбору часа", "hour:back")

  /** `f"{hour:02d}:{minute:02d}"` with `callback_data=f"time:{hour}:{minute}"`. */
  function MinuteButton(hour: int, minute: int): Button {
    Button(Pad2(hour) + ":" + Pad2(minute), MinuteCallback(hour, minute))
  }

  /** `time:{hour}:{minute}`. */
  function MinuteCallback(hour: int, minute: int): string {
    "time:" + IntToString(hour) + ":" + IntToString(minute)
  }

  /** `TimePickerKeyboard.build_minutes`: the four quarter hours, then the way back. */
  function BuildMinutes(hour: int): (kb: Keyboard)
    ensures |kb| == 2 && |kb[0]| == |MinuteOptions| && kb[1] == [BackButton]
    ensures forall j :: 0 <= j < |MinuteOptions| ==> kb[0][j] == MinuteButton(hour, MinuteOptions[j])
  {
    [seq(|MinuteOptions|, j requires 0 <= j < |MinuteOptions| => MinuteButton(hour, MinuteOptions[j])), [BackButton]]
  }

  /** The callback of a minute button carries the hour and the minute back. */
  lemma MinuteCallbackRoundTrip(hour: int, minute: int)
    ensures var parts := Split(MinuteCallback(hour, minute), ':');
            && parts == ["time", IntToString(hour), IntToString(minute)]
            && PyInt(parts[1]) == Some(hour) && PyInt(parts[2]) == Some(minute)
  {
    MinuteCallbackSplit(hour, minute);
    assert PyInt(IntToString(hour)) == Some(hour) by {
      IntToStringRoundTrip(hour);
    }
    assert PyInt(IntToString(minute)) == Some(minute) by {
      IntToStringRoundTrip(minute);
    }
  }

  lemma MinuteCallbackSplit(hour: int, minute: int)
    ensures Split(MinuteCallback(hour, minute), ':') == ["time", IntToString(hour), IntToString(minute)]
  {
    var h, m := IntToString(hour), IntToString(minute);
    assert ':' !in h by { IntToStringAvoids(hour, ':'); }
    assert ':' !in m by { IntToStringAvoids(minute, ':'); }
    assert MinuteCallback(hour, minute) == "time" + [':'] + h + [':'] + m;
    SplitThree("time", h, m, ':');
  }

  /**
   * The back button shares the `hour:` prefix of the hour buttons, but what
   * follows is no integer, and no hour button carries the same data.
   */
  lemma BackButtonIsNotAnHour()
    ensures StartsWith(BackButton.callbackData, "hour:")
    ensures PyInt(BackButton.callbackData[5..]).None?
    ensures forall h :: HourButton(h).callbackData != BackButton.callbackData
  {
    assert BackButton.callbackData[..5] == "hour:";
    assert BackButton.callbackData[5..] == "back";
    assert PyInt("back").None? by {
      NotANumber("back");
    }
    forall h
      ensures HourButton(h).callbackData != BackButton.callbackData
    {
      var d := HourButton(h).callbackData;
      assert d[5] == IntToString(h)[0];
      assert BackButton.callbackData[5] == 'b';
    }
  }

  /** Text with no sign or digit in front and no blanks around it is no integer. */
  lemma NotANumber(w: string)
    requires |w| > 0 && !IsSpace(w[0]) && !IsSpace(w[|w| - 1])
    requires !IsDigit(w[0]) && w[0] != '+' && w[0] != '-'
    ensures PyInt(w).None?
  {
    StripUnchanged(w);
  }
}

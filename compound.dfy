/**
  * The compound trigger: roll the log when the date changes or when the size trigger says so.
  *
  * The last-seen date lives in ONE process-wide cell (`LOG_DATE`), not in each trigger; here it
  * is one `DateCell` object that every `CompoundTrigger` refers to. The clock is not modelled:
  * `new` and `Trigger` receive today's date. The size trigger's decision (or the error of its file
  * length query) is not modelled either: `Trigger` receives it.
  */
module CompoundTrigger {
  import opened Wrappers
  import LogTime

  newtype U64 = x: int | 0 <= x < 0x1_0000_0000_0000_0000

  /** An error surfaced by the size trigger, such as a failed file length query. */
  datatype IoError = IoError(message: string)

  type TriggerResult = Result<bool, IoError>

  /** The embedded size trigger, of which only its byte limit is modelled. */
  datatype SizeTrigger = SizeTrigger(limit: U64)

  /** A `%Y%m%d` stamp as the cell stores it. */
  predicate IsStamp(s: string) { |s| == 8 && LogTime.AllDigits(s) }

  // ---------------------------------------------------------------------------
  // The decision on values
  // ---------------------------------------------------------------------------

  /** What one `trigger` call does: the cell's new contents, the value returned, and whether the
      size trigger was asked. */
  datatype Decision = Decision(logDate: Option<string>, result: TriggerResult, sizeConsulted: bool)

  /** One `trigger` call, given the cell's contents, today's stamp and the size trigger's answer. */
  function Decide(logDate: Option<string>, today: string, size: TriggerResult): Decision
  {
    match logDate
    case Some(last) =>
      if last != today then Decision(Some(today), Ok(true), false)
      else Decision(logDate, size, true)
    case None => Decision(logDate, size, true)
  }

  /** The cell only ever receives `Some`: once a date is stored, no call clears it. */
  lemma DecideNeverClears(logDate: Option<string>, today: string, size: TriggerResult)
    ensures logDate.Some? ==> Decide(logDate, today, size).logDate.Some?
    ensures Decide(logDate, today, size).logDate in {logDate, Some(today)}
  {
  }

  /** After a date-caused roll, a second call on the same day does not roll for the date again:
      it returns the size trigger's answer and leaves the cell alone. */
  lemma DateRollHappensOnce(last: string, today: string, first: TriggerResult, second: TriggerResult)
    requires last != today
    ensures Decide(Some(last), today, first) == Decision(Some(today), Ok(true), false)
    ensures Decide(Decide(Some(last), today, first).logDate, today, second) == Decision(Some(today), second, true)
  {
  }

  /** One call of a series: the day it is made and the size trigger's answer on it. */
  datatype Call = Call(today: LogTime.Date, size: TriggerResult)

  /** The cell after a series of calls and the value of each call, in order. */
  datatype Trace = Trace(logDate: Option<string>, results: seq<TriggerResult>)

  /** A series of `trigger` calls made one after another against the shared cell. */
  function Run(logDate: Option<string>, calls: seq<Call>): (t: Trace)
    ensures |t.results| == |calls|
    decreases |calls|
  {
    if calls == [] then Trace(logDate, [])
    else
      var d := Decide(logDate, LogTime.StandardDate(calls[0].today), calls[0].size);
      var rest := Run(d.logDate, calls[1..]);
      Trace(rest.logDate, [d.result] + rest.results)
  }

  function SizeAnswers(calls: seq<Call>): (s: seq<TriggerResult>)
    ensures |s| == |calls| && forall i :: 0 <= i < |calls| ==> s[i] == calls[i].size
  {
    seq(|calls|, i requires 0 <= i < |calls| => calls[i].size)
  }

  /** While the cell is empty (no trigger was built with `date == true`), a series of calls returns
      exactly the size trigger's answers and the cell stays empty. */
  lemma {:induction false} RunWithEmptyCell(calls: seq<Call>)
    ensures Run(None, calls) == Trace(None, SizeAnswers(calls))
    decreases |calls|
  {
    if calls != [] {
      RunWithEmptyCell(calls[1..]);
      assert SizeAnswers(calls) == [calls[0].size] + SizeAnswers(calls[1..]);
    }
  }

  /** Once the cell holds a date, no series of calls empties it again. */
  lemma {:induction false} RunNeverClears(last: string, calls: seq<Call>)
    ensures Run(Some(last), calls).logDate.Some?
    decreases |calls|
  {
    if calls != [] {
      var d := Decide(Some(last), LogTime.StandardDate(calls[0].today), calls[0].size);
      RunNeverClears(d.logDate.value, calls[1..]);
    }
  }

  /** The day before call `i`: the previous call's day, or the day the cell was set. */
  function DayBefore(start: LogTime.Date, calls: seq<Call>, i: nat): LogTime.Date
    requires i < |calls|
  {
    if i == 0 then start else calls[i - 1].today
  }

  function LastDay(start: LogTime.Date, calls: seq<Call>): LogTime.Date
  {
    if calls == [] then start else calls[|calls| - 1].today
  }

  /** The answer call `i` gives once the cell holds a date: `Ok(true)` when its day differs from
      the day before, the size trigger's answer otherwise. */
  function ExpectedResult(start: LogTime.Date, calls: seq<Call>, i: nat): TriggerResult
    requires i < |calls|
  {
    if calls[i].today != DayBefore(start, calls, i) then Ok(true) else calls[i].size
  }

  /** One call when the cell holds the stamp of day `last`: the cell moves to today's stamp in
      either case, and the call rolls exactly when the two days differ. */
  lemma DecideOnDays(last: LogTime.Date, today: LogTime.Date, size: TriggerResult)
    ensures Decide(Some(LogTime.StandardDate(last)), LogTime.StandardDate(today), size) ==
            Decision(Some(LogTime.StandardDate(today)), if today != last then Ok(true) else size, today == last)
  {
    LogTime.StandardDateInjective(last, today);
  }

  /** Once the cell holds the stamp of `start`, every call rolls for the date exactly when the day
      changed since the previous call, falls through to the size trigger otherwise, and the cell
      ends up holding the stamp of the last call's day. */
  lemma {:induction false} RunTracksDate(start: LogTime.Date, calls: seq<Call>)
    ensures Run(Some(LogTime.StandardDate(start)), calls).logDate == Some(LogTime.StandardDate(LastDay(start, calls)))
    ensures forall i :: 0 <= i < |calls| ==>
              Run(Some(LogTime.StandardDate(start)), calls).results[i] == ExpectedResult(start, calls, i)
    decreases |calls|
  {
    if calls != [] {
      var c, rest := calls[0], calls[1..];
      DecideOnDays(start, c.today, c.size);
      RunTracksDate(c.today, rest);
      var t := Run(Some(LogTime.StandardDate(start)), calls);
      var tr := Run(Some(LogTime.StandardDate(c.today)), rest);
      assert t == Trace(tr.logDate, [ExpectedResult(start, calls, 0)] + tr.results);
      assert LastDay(c.today, rest) == LastDay(start, calls);
      forall i | 0 < i < |calls|
        ensures t.results[i] == ExpectedResult(start, calls, i)
      {
        assert t.results[i] == tr.results[i - 1];
        assert DayBefore(c.today, rest, i - 1) == DayBefore(start, calls, i);
      }
    }
  }

  // ---------------------------------------------------------------------------
  // The shared cell and the trigger objects
  // ---------------------------------------------------------------------------

  /** The process-wide `LOG_DATE` cell, initially empty. */
  class DateCell {
    var logDate: Option<string>

    /** The cell holds nothing or an 8-digit `%Y%m%d` stamp. The constructors establish it and
        every `Trigger` call keeps it; it is an invariant of the cell, not a premise of any result. */
    ghost predicate Valid()
      reads this
    {
      logDate.Some? ==> IsStamp(logDate.value)
    }

    constructor ()
      ensures logDate == None && Valid()
    {
      logDate := None;
    }
  }

  class CompoundTrigger {
    const sizeTrigger: SizeTrigger
    /** The shared cell. Every trigger of the process must be given the same one. */
    const cell: DateCell

    /** `CompoundTrigger::new(limit, date)` on day `now`: with `date` it stores today's stamp in
        the shared cell; without it the cell keeps whatever it held. */
    constructor (limit: U64, date: bool, cell: DateCell, now: LogTime.Date)
      requires cell.Valid()
      modifies cell
      ensures this.cell == cell && sizeTrigger == SizeTrigger(limit)
      ensures cell.logDate == if date then Some(LogTime.StandardDate(now)) else old(cell.logDate)
      ensures cell.Valid()
    {
      sizeTrigger := SizeTrigger(limit);
      this.cell := cell;
      new;
      if date {
        cell.logDate := Some(LogTime.StandardDate(now));
      }
    }

    /** `trigger` on day `today`, where `size` is what the size trigger answers for the file.
        `sizeConsulted` records whether the answer was asked for. */
    method Trigger(today: LogTime.Date, size: TriggerResult) returns (r: TriggerResult, ghost sizeConsulted: bool)
      requires cell.Valid()
      modifies cell
      ensures cell.Valid()
      ensures Decision(cell.logDate, r, sizeConsulted) == Decide(old(cell.logDate), LogTime.StandardDate(today), size)
      ensures old(cell.logDate).None? ==> cell.logDate == None && r == size && sizeConsulted
      ensures old(cell.logDate).Some? && old(cell.logDate).value != LogTime.StandardDate(today) ==>
                cell.logDate == Some(LogTime.StandardDate(today)) && r == Ok(true) && !sizeConsulted
      ensures old(cell.logDate) == Some(LogTime.StandardDate(today)) ==>
                cell.logDate == old(cell.logDate) && r == size && sizeConsulted
    {
      if cell.logDate.Some? {
        var newNow := LogTime.StandardDate(today);
        if cell.logDate.value != newNow {
          cell.logDate := Some(newNow);
          r := Ok(true);
          sizeConsulted := false;
          return;
        }
      }
      r := size;
      sizeConsulted := true;
    }
  }

  /** Because the cell is shared, a date roll seen through one trigger moves the date for every
      other trigger: the next call through `b` on the same day falls through to its size trigger. */
  method SharedDateRoll(a: CompoundTrigger, b: CompoundTrigger, today: LogTime.Date,
                        sizeA: TriggerResult, sizeB: TriggerResult)
    returns (ra: TriggerResult, rb: TriggerResult)
    requires a.cell == b.cell && a.cell.Valid()
    requires a.cell.logDate.Some? && a.cell.logDate.value != LogTime.StandardDate(today)
    modifies a.cell
    ensures ra == Ok(true) && rb == sizeB
    ensures a.cell.logDate == b.cell.logDate == Some(LogTime.StandardDate(today))
  {
    ghost var consulted;
    ra, consulted := a.Trigger(today, sizeA);
    rb, consulted := b.Trigger(today, sizeB);
  }

  /** `new(limit, true)` on day A: a call on day A answers what the size trigger answers, the first
      call on another day B rolls whatever the size, and the next call on day B falls through to
      the size trigger again. */
  method NewDayScenario(limit: U64, dayA: LogTime.Date, dayB: LogTime.Date,
                        sizeA: TriggerResult, sizeB: TriggerResult)
    returns (onA: TriggerResult, firstOnB: TriggerResult, secondOnB: TriggerResult)
    requires dayA != dayB
    ensures onA == sizeA && firstOnB == Ok(true) && secondOnB == sizeB
  {
    var cell := new DateCell();
    var t := new CompoundTrigger(limit, true, cell, dayA);
    LogTime.StandardDateInjective(dayA, dayB);
    ghost var consulted;
    onA, consulted := t.Trigger(dayA, sizeA);
    firstOnB, consulted := t.Trigger(dayB, sizeB);
    secondOnB, consulted := t.Trigger(dayB, sizeB);
  }

  /** The `date` flag only decides whether `new` writes the shared cell: a trigger built with
      `date == false` after one built with `date == true` still rolls on a new day. */
  method DisabledTriggerSeesSharedDate(limit1: U64, limit2: U64, dayA: LogTime.Date, dayB: LogTime.Date,
                                       size: TriggerResult)
    returns (r: TriggerResult)
    requires dayA != dayB
    ensures r == Ok(true)
  {
    var cell := new DateCell();
    var enabled := new CompoundTrigger(limit1, true, cell, dayA);
    var disabled := new CompoundTrigger(limit2, false, cell, dayA);
    LogTime.StandardDateInjective(dayA, dayB);
    ghost var consulted;
    r, consulted := disabled.Trigger(dayB, size);
  }

  // ---------------------------------------------------------------------------
  // Reading the `date` setting
  // ---------------------------------------------------------------------------

  /** The shape of the configured `date` value handed to the visitor. Owned and borrowed strings
      are one `StrValue`; a single character is its own kind. */
  datatype ConfigValue = BoolValue(b: bool) | StrValue(s: string) | CharValue(c: char) | OtherValue

  datatype ConfigError = InvalidType

  /** `visit_bool`: a boolean is taken as it is. */
  function VisitBool(v: bool): (r: Result<bool, ConfigError>)
    ensures r.Ok? && r.value == v
  {
    Ok(v)
  }

  /** `visit_str`: never fails; only the exact text "true" means true. */
  function VisitStr(v: string): (r: Result<bool, ConfigError>)
    ensures r.Ok? && (r.value <==> v == "true")
  {
    if v == "true" then Ok(true) else Ok(false)
  }

  /** `deserialize_date`: serde's default `visit_char` hands the character on to `visit_str` as a
      one-character string, so a character reads as false; any other kind of value is refused as
      an invalid type. */
  function DeserializeDate(value: ConfigValue): (r: Result<bool, ConfigError>)
    ensures value.BoolValue? ==> r == Ok(value.b)
    ensures value.StrValue? ==> r == Ok(value.s == "true")
    ensures value.CharValue? ==> r == Ok(false)
    ensures value.OtherValue? ==> r == Err(InvalidType)
  {
    match value
    case BoolValue(b) => VisitBool(b)
    case StrValue(s) => VisitStr(s)
    case CharValue(c) => VisitStr([c])
    case OtherValue => Err(InvalidType)
  }

  /** Rust's own spelling of a boolean reads back as that boolean; other spellings are false. */
  lemma DateSettingSpellings(b: bool)
    ensures DeserializeDate(StrValue(if b then "true" else "false")) == Ok(b)
    ensures DeserializeDate(StrValue("True")) == Ok(false)
    ensures DeserializeDate(StrValue("yes")) == Ok(false)
    ensures DeserializeDate(StrValue("")) == Ok(false)
  {
  }
}

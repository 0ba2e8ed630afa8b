# Compound roll trigger and log-file name templates (log4rs fork)

This project models two small parts of a log4rs fork and proves properties of both.

- **The compound trigger** decides whether the active log file must roll. Each call to `trigger`
  first compares today's `%Y%m%d` stamp with the stamp stored in one process-wide cell
  (`LOG_DATE`). When the cell holds a stamp and today differs, it stores today's stamp and rolls
  without consulting the size trigger. Otherwise it returns whatever the embedded size trigger
  answers. `new(limit, date)` writes today's stamp into the cell only when `date` is true.
  The `date` setting is read by a small visitor: a boolean passes through, and a string means
  true only when it is exactly `"true"`.
- **The `LogTime` helpers** cover two operations. `standard_date` prints a date as `%Y%m%d`.
  `expand_time_var` expands a file-name template with four successive all-occurrence literal
  substitutions: `{d}` by `%Y%m%d`, then `{y}` by `%Y`, then `{m}` by `%m`, then `{D}` by `%d`.

Files:

- `wrappers.dfy` (module `Wrappers`): `Option` and `Result`.
- `log_time.dfy` (module `LogTime`): dates, zero-padded fields, `ReplaceAll` and `ExpandTimeVar`.
  All of it is pure functions and lemmas.
- `compound.dfy` (module `CompoundTrigger`) holds two kinds of code:
  - Two classes. `DateCell` is the shared `LOG_DATE` cell. `CompoundTrigger` holds its size
    trigger and a reference to the one shared cell. Its constructor and `Trigger` modify that cell.
  - Pure functions. `Decide` is one call on values, `Run` is a series of calls, and
    `DeserializeDate` reads the `date` setting.

The clock is a parameter. `new` and `Trigger` receive today's `LogTime.Date`, and
`ExpandTimeVar` receives the date to expand with. The size trigger is not modelled:
`Trigger` receives its answer (`Ok(bool)` or the error of the file length query). A ghost
out-parameter `sizeConsulted` records whether the call used that answer.

The last-seen date lives in one `static mut` shared by all triggers. So a trigger built with
`date == false` still rolls on a new day if any trigger in the process was built with
`date == true` (`DisabledTriggerSeesSharedDate`). `RunWithEmptyCell` gives the size-only
behaviour, which holds while the cell is empty.

## Model

| member | source | states |
|---|---|---|
| `LogTime.Padded` | src/tool/log_time.rs:14 | a zero-padded numeric field has exactly `width` characters, all decimal digits |
| `LogTime.ValueOfPadded` | src/tool/log_time.rs:14 | reading a zero-padded field back as a decimal number gives the number printed, for every `n < 10^width` |
| `LogTime.PaddedOfValue` | src/tool/log_time.rs:14 | every digit string is the padded form of its own value, so padding is one-to-one on `[0, 10^width)` |
| `LogTime.FormatYear` | src/tool/log_time.rs:31 | `%Y` is four digits whose decimal value is the year |
| `LogTime.FormatMonth` | src/tool/log_time.rs:35 | `%m` is two digits whose value is the month (zero-padded) |
| `LogTime.FormatDay` | src/tool/log_time.rs:39 | `%d` is two digits whose value is the day (zero-padded) |
| `LogTime.StandardDate` | src/tool/log_time.rs:13-15 | `standard_date` is 8 digits: characters 0-3 read as the year, 4-5 as the month, 6-7 as the day |
| `LogTime.StandardDateInjective` | src/tool/log_time.rs:13-15 | two dates print the same stamp if and only if they are equal, so comparing stamps compares dates |
| `LogTime.StandardDateExample` | src/tool/log_time.rs:18 | 2023-03-06 prints as `20230306` |
| `LogTime.ReplaceAll` | src/tool/log_time.rs:26-39 | `Regex::replace_all` for one literal three-character pattern: a leftmost, non-overlapping scan. `ReplaceAllWithoutToken`, `ReplaceAllRemovesToken`, `ContainsSurvives` and `OnePass` fix what it does to every text |
| `LogTime.ReplaceAllWithoutToken` | src/tool/log_time.rs:26-27 | a text without the token is returned unchanged by a replace-all |
| `LogTime.ReplaceAllRemovesToken` | src/tool/log_time.rs:26-39 | replacing a digit-free token by a non-empty digit string leaves no occurrence of the token anywhere: every occurrence is replaced, not just the first |
| `LogTime.ContainsSurvives` | src/tool/log_time.rs:30-39 | such a substitution never creates a new occurrence of any digit-free text (a later pass does not bring back an earlier token) |
| `LogTime.ExpandTimeVar` | src/tool/log_time.rs:22-42 | `expand_time_var`: four passes for `{d}`, `{y}`, `{m}` and `{D}` on one date. `ExpandOneVar` and `ExpandUnchangedIff` together fix the result for every template |
| `LogTime.ExpandLeavesNoTimeVar` | src/tool/log_time.rs:22-42 | after `expand_time_var` no `{d}`, `{y}`, `{m}` or `{D}` remains, for every template and date |
| `LogTime.ExpandUnchangedIff` | src/tool/log_time.rs:22-42 | a template comes back unchanged if and only if it contains none of the four time variables |
| `LogTime.ExpandIdempotent` | src/tool/log_time.rs:22-42 | expanding the result again on the same date changes nothing |
| `LogTime.OnePass` | src/tool/log_time.rs:26-39 | one replace-all pass for a time variable over `a + m + b`, where `m` is a time variable or a run of digits, is the pass over `a`, then `m` replaced if it is the token, then the pass over `b`: no occurrence straddles `m` |
| `LogTime.ExpandSplits` | src/tool/log_time.rs:22-42 | the expansion of `a + rest`, where `rest` starts with `{` or a digit, is the expansion of `a` followed by that of `rest`: no time variable straddles the boundary, in any of the four passes |
| `LogTime.ExpandOneVar` | src/tool/log_time.rs:18-42 | in any template, one time variable becomes its own field (`{d}` the 8-digit stamp, `{y}` the year, `{m}` the month, `{D}` the day) and the texts before and after it expand on their own |
| `LogTime.ExpandYearMonthDay` | src/tool/log_time.rs:71-76 | in any template `a{y}b{m}c{D}e`, the three variables become YYYY, MM and DD in place and `a`, `b`, `c`, `e` expand on their own |
| `LogTime.DateVarIsYearMonthDay` | src/tool/log_time.rs:25-39 | in any context, `{d}` expands to the same text as `{y}{m}{D}` |
| `LogTime.ExpandTestTemplates` | src/tool/log_time.rs:59-76 | the module's test expectations hold on every date: `mylog{d}.log`, `mylog{y}.log`, `mylog{m}.log`, `mylog{D}.log`, `mylog{y}-{m}-{D}.log` |
| `CompoundTrigger.Decide` | src/append/rolling_file/policy/compound/trigger/compound.rs:94-105 | one `trigger` call on values: the cell's new contents, the value returned and whether the size trigger was asked. `Trigger`'s ensures are tied to it, and `DecideNeverClears`, `DateRollHappensOnce` and `DecideOnDays` are proved over it |
| `CompoundTrigger.DecideNeverClears` | src/append/rolling_file/policy/compound/trigger/compound.rs:96-101 | one call leaves the cell as it was or writes `Some(today)`, so a stored date is never cleared |
| `CompoundTrigger.DateRollHappensOnce` | src/append/rolling_file/policy/compound/trigger/compound.rs:96-104 | after a date-caused roll, a second call with the same today returns the size answer and leaves the cell alone |
| `CompoundTrigger.DecideOnDays` | src/append/rolling_file/policy/compound/trigger/compound.rs:96-104 | with the cell holding the stamp of day `last`: the cell then holds today's stamp, the call rolls exactly when the days differ, and otherwise it returns the size answer |
| `CompoundTrigger.Run` | src/append/rolling_file/policy/compound/trigger/compound.rs:94-105 | a series of `trigger` calls against the one shared cell: one result per call, in order. `RunWithEmptyCell`, `RunNeverClears` and `RunTracksDate` fix its contents for every series |
| `CompoundTrigger.RunWithEmptyCell` | src/append/rolling_file/policy/compound/trigger/compound.rs:96-104 | with an empty cell, any series of calls returns exactly the size trigger's answers and the cell stays empty |
| `CompoundTrigger.RunNeverClears` | src/append/rolling_file/policy/compound/trigger/compound.rs:96-101 | once the cell holds a date, no series of calls empties it |
| `CompoundTrigger.RunTracksDate` | src/append/rolling_file/policy/compound/trigger/compound.rs:96-104 | for any series of calls from a stored date: call `i` returns `Ok(true)` exactly when its day differs from the previous call's day (or from the stored day), and otherwise the size answer; the cell ends with the last day's stamp |
| `CompoundTrigger.DateCell.constructor` | src/append/rolling_file/policy/compound/trigger/compound.rs:77 | the shared cell starts empty |
| `CompoundTrigger.CompoundTrigger.constructor` | src/append/rolling_file/policy/compound/trigger/compound.rs:81-90 | `new(limit, true)` stores today's stamp in the shared cell; `new(limit, false)` leaves the cell exactly as it was (it does not reset it); the size trigger gets `limit` |
| `CompoundTrigger.CompoundTrigger.Trigger` | src/append/rolling_file/policy/compound/trigger/compound.rs:94-105 | with an empty cell: the size answer (or its error), cell unchanged. With a different stored date: `Ok(true)`, cell set to today, size not consulted. With today's stamp stored: cell unchanged, size answer. `DateCell.Valid()` (the cell holds an 8-digit stamp or nothing) is established by the constructors and kept by every call; no other contract depends on it |
| `CompoundTrigger.SharedDateRoll` | src/append/rolling_file/policy/compound/trigger/compound.rs:77-100 | a date roll through one trigger updates the date seen by another trigger on the same cell, which then falls through to its size answer |
| `CompoundTrigger.NewDayScenario` | src/append/rolling_file/policy/compound/trigger/compound.rs:81-105 | built with `date` on day A: a call on day A gives the size answer, the first call on day B gives `Ok(true)` whatever the size, and the next call on day B gives the size answer |
| `CompoundTrigger.DisabledTriggerSeesSharedDate` | src/append/rolling_file/policy/compound/trigger/compound.rs:77-104 | a trigger built with `date == false` after one built with `date == true` still returns `Ok(true)` on a new day, because the cell is shared |
| `CompoundTrigger.VisitBool` | src/append/rolling_file/policy/compound/trigger/compound.rs:48-52 | a boolean is accepted as it is |
| `CompoundTrigger.VisitStr` | src/append/rolling_file/policy/compound/trigger/compound.rs:54-61 | a string never fails and means true if and only if it is exactly `"true"` |
| `CompoundTrigger.DeserializeDate` | src/append/rolling_file/policy/compound/trigger/compound.rs:35-65 | booleans pass through; strings are true iff equal to `"true"`; a single character goes through `visit_str` and reads as false; any other kind of value is an invalid-type error |
| `CompoundTrigger.DateSettingSpellings` | src/append/rolling_file/policy/compound/trigger/compound.rs:54-61 | `"true"`/`"false"` read back as the boolean they spell; `"True"`, `"yes"` and `""` read as false |

## Left out

- The clock (`chrono::Local::now()`) and time zones: "today" is a parameter of `new`, `Trigger` and `ExpandTimeVar`.
- Years outside 0..=9999: chrono prints them with a sign, and `LogTime.Year` excludes them. Day numbers are only bounded by 1..=31 and are not checked against the month. Formatting does not depend on that check.
- The `regex` crate: each pattern is one fixed three-character literal, so `replace_all` is modelled as a leftmost, non-overlapping literal scan (`ReplaceAll`).
- `SizeTrigger` internals, `deserialize_limit` and the `LogFile` length query: the size module is not part of this model. `Trigger` takes the size trigger's answer or error as an input and never compares sizes itself.
- CompoundTrigger.CompoundTrigger.Trigger: the size answer is an input even on calls that do not use it. That the size trigger is not consulted appears only as the ghost flag `sizeConsulted`, not as an absence of I/O.
- The `Trigger` trait and `Box<dyn Trigger>` dispatch. `CompoundTrigger` is modelled as a concrete class.
- The configuration machinery: `CompoundTriggerConfig`, `deny_unknown_fields`, handling of a missing `date` field, `CompoundTriggerDeserializer` and `Visitor::expecting`.
- CompoundTrigger.DeserializeDate: serde's `Visitor` defaults are not part of this model; they are stated from serde 1.x's trait. A character is forwarded to `visit_str`, and owned and borrowed strings are one `StrValue`. Every other value kind (numbers, unit, options, sequences, maps, bytes) is one `OtherValue`, which gets the invalid-type error of the default visitor methods. The error's message is not modelled.
- CompoundTrigger.CompoundTrigger.constructor: that every trigger refers to the one process-wide cell is not enforced. The constructor takes a `DateCell`, and passing the same cell to every trigger is the caller's obligation; `static mut LOG_DATE` gives no other choice.
- Data races on the unsynchronised `static mut`: the model is single-threaded. Each `Trigger` call is one atomic read-compare-write of the shared cell.

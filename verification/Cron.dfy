/** desktop/components/schedule-builder.tsx: a printer and a best-effort parser for a subset of the
    five-field crontab format. Parsing gives None where the source gives null or NaN. */
module Cron {
  import opened Text

  datatype Frequency = Hourly | Daily | Weekly | Monthly

  datatype Config = Config(frequency: Frequency, minuteOfHour: int, hour: int, minute: int,
                           daysOfWeek: seq<int>, dayOfMonth: int)

  const WEEKDAYS: seq<int> := [1, 2, 3, 4, 5]

  // ---------------------------------------------------------------- built-ins of the language

  /** How far s reaches before the first character that stops it. */
  function Until(s: string, stop: char -> bool): (n: nat)
    ensures n <= |s| && (n < |s| ==> stop(s[n]))
    ensures forall k :: 0 <= k < n ==> !stop(s[k])
  {
    if s == "" || stop(s[0]) then 0 else 1 + Until(s[1..], stop)
  }

  /** `split` at one character. */
  function Split(s: string, at: char -> bool): (r: seq<string>)
    ensures r != []
    decreases |s|
  {
    var n := Until(s, at);
    if n == |s| then [s] else [s[..n]] + Split(s[n + 1..], at)
  }

  /** `split(/\s+/)`. */
  function Fields(s: string): (r: seq<string>)
    ensures r != []
    decreases |s|
  {
    var n := Until(s, IsSpace);
    if n == |s| then [s] else [s[..n]] + Fields(TrimStart(s[n + 1..]))
  }

  predicate IsComma(c: char) { c == ',' }
  predicate IsDash(c: char) { c == '-' }

  function DigitValue(c: char): nat {
    if IsDigit(c) then c as int - '0' as int
    else if 'a' <= c <= 'z' then 10 + c as int - 'a' as int
    else if 'A' <= c <= 'Z' then 10 + c as int - 'A' as int
    else 99
  }

  predicate EndsDecimal(c: char) { DigitValue(c) >= 10 }
  predicate EndsHex(c: char) { DigitValue(c) >= 16 }

  function Value(s: string, radix: nat): nat {
    if s == "" then 0 else Value(s[..|s| - 1], radix) * radix + DigitValue(s[|s| - 1])
  }

  function LeadingNumber(s: string, stop: char -> bool, radix: nat): Option<int> {
    var n := Until(s, stop);
    if n == 0 then None else Some(Value(s[..n], radix))
  }

  function Negated(v: Option<int>): Option<int> { if v.Some? then Some(-v.value) else None }

  function ParseUnsigned(s: string): Option<int> {
    if |s| >= 2 && s[0] == '0' && (s[1] == 'x' || s[1] == 'X') then LeadingNumber(s[2..], EndsHex, 16)
    else LeadingNumber(s, EndsDecimal, 10)
  }

  /** `parseInt` without a radix. */
  function ParseInt(s: string): Option<int> {
    var t := TrimStart(s);
    if t != "" && t[0] == '-' then Negated(ParseUnsigned(t[1..]))
    else if t != "" && t[0] == '+' then ParseUnsigned(t[1..])
    else ParseUnsigned(t)
  }

  /** `parseInt(s) || d`: zero counts as missing. */
  function IntOr(s: string, d: int): int {
    var v := ParseInt(s);
    if v.Some? && v.value != 0 then v.value else d
  }

  /** The order of `sort()` without a comparator: by the printed form. */
  predicate PrintedBefore(a: string, b: string) {
    a == "" || (b != "" && (a[0] < b[0] || (a[0] == b[0] && PrintedBefore(a[1..], b[1..]))))
  }

  function Insert(d: int, s: seq<int>): seq<int> {
    if s == [] || PrintedBefore(PrintInt(d), PrintInt(s[0])) then [d] + s else [s[0]] + Insert(d, s[1..])
  }

  function SortDays(s: seq<int>): seq<int> { if s == [] then [] else Insert(s[0], SortDays(s[1..])) }

  function Join(days: seq<int>): string {
    if days == [] then "" else if |days| == 1 then PrintInt(days[0]) else PrintInt(days[0]) + "," + Join(days[1..])
  }

  // ---------------------------------------------------------------- parsing

  function Range(start: int, end: int): seq<int>
    decreases end - start
  {
    if start > end then [] else [start] + Range(start + 1, end)
  }

  /** The numbers among the parts. */
  function Numbers(parts: seq<string>): seq<int> {
    if parts == [] then []
    else
      var v := ParseInt(parts[0]);
      (if v.Some? then [v.value] else []) + Numbers(parts[1..])
  }

  /** `a-b`: of the pieces around dashes, the first two count. */
  function RangeOf(field: string): seq<int> {
    var ends := Split(field, IsDash);
    if |ends| < 2 then []
    else
      var start, end := ParseInt(ends[0]), ParseInt(ends[1]);
      if start.Some? && end.Some? then Range(start.value, end.value) else []
  }

  /** The weekday field as `parseCronToConfig` reads it: one range, or a list. */
  function DaysOf(field: string): seq<int> {
    if '-' in field then RangeOf(field) else Numbers(Split(field, IsComma))
  }

  function DaysOfPart(part: string): seq<int> { if '-' in part then RangeOf(part) else Numbers([part]) }

  function DaysOfParts(parts: seq<string>): seq<int> {
    if parts == [] then [] else DaysOfPart(parts[0]) + DaysOfParts(parts[1..])
  }

  /** The weekday field as `parseDayOfWeek` reads it: a list of days and ranges. */
  function ParseDayOfWeek(field: string): seq<int> {
    if field == "*" then [0, 1, 2, 3, 4, 5, 6] else DaysOfParts(Split(field, IsComma))
  }

  function ParseCron(cron: string): Option<Config> {
    var parts := Fields(Trim(cron));
    if |parts| != 5 then None else ParseFields(parts[0], parts[1], parts[2], parts[3], parts[4])
  }

  function ParseFields(minute: string, hour: string, dayOfMonth: string, month: string, dayOfWeek: string): Option<Config> {
    if StartsWith(minute, "*/") && hour == "*" && dayOfMonth == "*" && month == "*" && dayOfWeek == "*" then None
    else if hour == "*" && dayOfMonth == "*" && month == "*" && dayOfWeek == "*" then
      Some(Config(Hourly, IntOr(minute, 0), 9, 0, WEEKDAYS, 1))
    else
      var h, m := IntOr(hour, 9), IntOr(minute, 0);
      if dayOfMonth == "*" && month == "*" && dayOfWeek != "*" && DaysOf(dayOfWeek) != [] then
        Some(Config(Weekly, 0, h, m, DaysOf(dayOfWeek), 1))
      else if dayOfMonth != "*" && month == "*" && dayOfWeek == "*" then
        Some(Config(Monthly, 0, h, m, WEEKDAYS, IntOr(dayOfMonth, 1)))
      else if dayOfMonth == "*" && month == "*" && dayOfWeek == "*" then
        Some(Config(Daily, 0, h, m, WEEKDAYS, 1))
      else None
  }

  // ---------------------------------------------------------------- printing

  function DaysField(days: seq<int>): string { if days == [] then "1" else Join(SortDays(days)) }

  function BuildCron(c: Config): string {
    match c.frequency
    case Hourly => PrintInt(c.minuteOfHour) + " * * * *"
    case Daily => PrintInt(c.minute) + " " + PrintInt(c.hour) + " * * *"
    case Weekly => PrintInt(c.minute) + " " + PrintInt(c.hour) + " * * " + DaysField(c.daysOfWeek)
    case Monthly => PrintInt(c.minute) + " " + PrintInt(c.hour) + " " + PrintInt(c.dayOfMonth) + " * *"
  }

  // ---------------------------------------------------------------- the code

  method ExpandRange(field: string) returns (days: seq<int>)
    ensures days == RangeOf(field)
  {
    days := [];
    var ends := Split(field, IsDash);
    if |ends| >= 2 {
      var start, end := ParseInt(ends[0]), ParseInt(ends[1]);
      if start.Some? && end.Some? {
        var d := start.value;
        while d <= end.value
          invariant days + Range(d, end.value) == Range(start.value, end.value)
        {
          assert days + Range(d, end.value) == (days + [d]) + Range(d + 1, end.value);
          days := days + [d];
          d := d + 1;
        }
        assert days + [] == days;
      }
    }
  }

  method ParseDayOfWeekField(field: string) returns (days: seq<int>)
    ensures days == ParseDayOfWeek(field)
  {
    if field == "*" { return [0, 1, 2, 3, 4, 5, 6]; }
    days := [];
    var parts := Split(field, IsComma);
    assert parts[0..] == parts;
    for i := 0 to |parts|
      invariant days + DaysOfParts(parts[i..]) == DaysOfParts(parts)
    {
      PartByPart(days, parts, i);
      if '-' in parts[i] {
        var range := ExpandRange(parts[i]);
        days := days + range;
      } else {
        OneNumber(parts[i]);
        var d := ParseInt(parts[i]);
        if d.Some? {
          days := days + [d.value];
        } else {
          assert days + [] == days;
        }
      }
    }
    assert days + [] == days;
  }

  lemma PartByPart(days: seq<int>, parts: seq<string>, i: nat)
    requires i < |parts|
    ensures days + DaysOfParts(parts[i..]) == (days + DaysOfPart(parts[i])) + DaysOfParts(parts[i + 1..])
  {
    assert parts[i..][1..] == parts[i + 1..];
  }

  lemma OneNumber(part: string)
    ensures Numbers([part]) == if ParseInt(part).Some? then [ParseInt(part).value] else []
  {
    assert [part][1..] == [];
    assert Numbers([part][1..]) == [];
  }

  method ParseCronToConfig(cron: string) returns (config: Option<Config>)
    ensures config == ParseCron(cron)
  {
    var parts := Fields(Trim(cron));
    if |parts| != 5 { return None; }
    var minute, hour, dayOfMonth, month, dayOfWeek := parts[0], parts[1], parts[2], parts[3], parts[4];
    if StartsWith(minute, "*/") && hour == "*" && dayOfMonth == "*" && month == "*" && dayOfWeek == "*" {
      return None;
    }
    if hour == "*" && dayOfMonth == "*" && month == "*" && dayOfWeek == "*" {
      return Some(Config(Hourly, IntOr(minute, 0), 9, 0, WEEKDAYS, 1));
    }
    if dayOfMonth == "*" && month == "*" && dayOfWeek != "*" {
      var days: seq<int>;
      if '-' in dayOfWeek {
        days := ExpandRange(dayOfWeek);
      } else {
        days := Numbers(Split(dayOfWeek, IsComma));
      }
      if |days| > 0 {
        return Some(Config(Weekly, 0, IntOr(hour, 9), IntOr(minute, 0), days, 1));
      }
    }
    if dayOfMonth != "*" && month == "*" && dayOfWeek == "*" {
      return Some(Config(Monthly, 0, IntOr(hour, 9), IntOr(minute, 0), WEEKDAYS, IntOr(dayOfMonth, 1)));
    }
    if dayOfMonth == "*" && month == "*" && dayOfWeek == "*" {
      return Some(Config(Daily, 0, IntOr(hour, 9), IntOr(minute, 0), WEEKDAYS, 1));
    }
    return None;
  }

  /** The configuration object; building a weekly expression sorts its list of days. */
  class ScheduleConfig {
    var config: Config

    constructor (config: Config)
      ensures this.config == config
    {
      this.config := config;
    }

    method BuildCronFromConfig() returns (cron: string)
      modifies this
      ensures cron == BuildCron(old(config))
      ensures config == old(config).(daysOfWeek := if old(config).frequency.Weekly? then SortDays(old(config).daysOfWeek)
                                                   else old(config).daysOfWeek)
    {
      match config.frequency
      case Hourly =>
        cron := PrintInt(config.minuteOfHour) + " * * * *";
      case Daily =>
        cron := PrintInt(config.minute) + " " + PrintInt(config.hour) + " * * *";
      case Weekly =>
        var days := "1";
        if |config.daysOfWeek| > 0 {
          config := config.(daysOfWeek := SortDays(config.daysOfWeek));
          days := Join(config.daysOfWeek);
        }
        cron := PrintInt(config.minute) + " " + PrintInt(config.hour) + " * * " + days;
      case Monthly =>
        cron := PrintInt(config.minute) + " " + PrintInt(config.hour) + " " + PrintInt(config.dayOfMonth) + " * *";
    }
  }
}

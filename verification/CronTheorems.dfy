/** Round trips of the cron printer and parser of Cron. */
module CronTheorems {
  import opened Text
  import opened Cron

  // ---------------------------------------------------------------- numbers

  lemma UntilIs(s: string, stop: char -> bool, n: nat)
    requires n <= |s| && (n < |s| ==> stop(s[n])) && forall k :: 0 <= k < n ==> !stop(s[k])
    ensures Until(s, stop) == n
  {
    var u := Until(s, stop);
    assert !(u < n) && !(n < u);
  }

  lemma {:induction false} ValueOfPrint(n: nat)
    ensures Value(PrintNat(n), 10) == n
  {
    var s := PrintNat(n);
    if n < 10 {
      assert s[..|s| - 1] == "";
    } else {
      ValueOfPrint(n / 10);
      assert s[..|s| - 1] == PrintNat(n / 10);
    }
  }

  /** Reading stops at a comma. */
  lemma ParsePrintNat(n: nat, rest: string)
    requires rest == "" || rest[0] == ','
    ensures ParseUnsigned(PrintNat(n) + rest) == ParseInt(PrintNat(n) + rest) == Some(n)
  {
    var p := PrintNat(n);
    var s := p + rest;
    forall k | 0 <= k < |p| ensures IsDigit(s[k]) { assert s[k] == p[k] && p[k] in p; }
    UntilIs(s, EndsDecimal, |p|);
    assert s[..|p|] == p;
    ValueOfPrint(n);
    assert IsDigit(s[0]) && TrimStart(s) == s;
  }

  /** `parseInt` reads back what a template literal prints. */
  lemma ParsePrint(n: int)
    ensures ParseInt(PrintInt(n)) == Some(n)
  {
    var s := PrintInt(n);
    var digits := PrintNat(if n < 0 then -n else n);
    ParsePrintNat(if n < 0 then -n else n, "");
    assert digits + "" == digits;
    if n < 0 {
      assert s[1..] == digits;
      assert TrimStart(s) == s;
    }
  }

  /** Where a printed number ends. */
  predicate StopsAt(n: nat, rest: string) {
    rest == "" || (DigitValue(rest[0]) >= 10 && !(n == 0 && (rest[0] == 'x' || rest[0] == 'X')))
  }

  lemma DigitsThenRest(n: nat, rest: string)
    requires StopsAt(n, rest)
    ensures ParseUnsigned(PrintNat(n) + rest) == Some(n)
    ensures IsDigit((PrintNat(n) + rest)[0])
  {
    var p := PrintNat(n);
    var s := p + rest;
    forall k | 0 <= k < |p| ensures IsDigit(s[k]) { assert s[k] == p[k] && p[k] in p; }
    UntilIs(s, EndsDecimal, |p|);
    assert s[..|p|] == p;
    ValueOfPrint(n);
    NoHexPrefix(n, rest);
  }

  /** `parseInt` reads a printed number up to what is no digit any more, also after a sign. */
  lemma NumberThenRest(n: nat, rest: string)
    requires StopsAt(n, rest)
    ensures ParseInt(PrintNat(n) + rest) == ParseInt("+" + (PrintNat(n) + rest)) == Some(n)
    ensures ParseInt("-" + (PrintNat(n) + rest)) == Some(0 - n)
  {
    DigitsThenRest(n, rest);
    Signed(PrintNat(n) + rest);
  }

  lemma Signed(s: string)
    requires s != "" && IsDigit(s[0])
    ensures ParseInt(s) == ParseInt("+" + s) == ParseUnsigned(s) && ParseInt("-" + s) == Negated(ParseUnsigned(s))
  {
    assert TrimStart(s) == s;
    assert ("+" + s)[1..] == s && ("-" + s)[1..] == s;
    assert TrimStart("+" + s) == "+" + s && TrimStart("-" + s) == "-" + s;
  }

  lemma NoHexPrefix(n: nat, rest: string)
    requires rest != "" ==> !(n == 0 && (rest[0] == 'x' || rest[0] == 'X'))
    ensures var s := PrintNat(n) + rest; !(|s| >= 2 && s[0] == '0' && (s[1] == 'x' || s[1] == 'X'))
  {
    var p := PrintNat(n);
    if |p| >= 2 {
      assert p[1] in p;
    } else {
      assert n < 10;
    }
  }

  /** A prefix `0x` makes it hexadecimal. */
  lemma HexIsRead(s: string, h: string, rest: string)
    requires |s| >= 2 && s[0] == '0' && (s[1] == 'x' || s[1] == 'X') && s[2..] == h + rest
    requires h != "" && forall k :: 0 <= k < |h| ==> DigitValue(h[k]) < 16
    requires rest != "" ==> DigitValue(rest[0]) >= 16
    ensures ParseInt(s) == Some(Value(h, 16))
  {
    HexDigits(h, rest);
    Signed(s);
  }

  /** Hexadecimal digits count from ten on, in either case. */
  lemma HexDigitValues(c: char)
    requires 'a' <= c <= 'f' || 'A' <= c <= 'F'
    ensures DigitValue(c) == if c == 'a' || c == 'A' then 10 else if c == 'b' || c == 'B' then 11
                             else if c == 'c' || c == 'C' then 12 else if c == 'd' || c == 'D' then 13
                             else if c == 'e' || c == 'E' then 14 else 15
  {
  }

  lemma HexDigits(h: string, rest: string)
    requires h != "" && forall k :: 0 <= k < |h| ==> DigitValue(h[k]) < 16
    requires rest != "" ==> DigitValue(rest[0]) >= 16
    ensures LeadingNumber(h + rest, EndsHex, 16) == Some(Value(h, 16))
  {
    UntilIs(h + rest, EndsHex, |h|);
    assert (h + rest)[..|h|] == h;
  }

  /** White space before it does not count, and other text is no number. */
  lemma {:induction false} LeadingSpaces(spaces: string, s: string)
    requires forall k :: 0 <= k < |spaces| ==> IsSpace(spaces[k])
    ensures ParseInt(spaces + s) == ParseInt(s)
  {
    if spaces == "" {
      assert spaces + s == s;
    } else {
      LeadingSpaces(spaces[1..], s);
      assert (spaces + s)[1..] == spaces[1..] + s;
      assert TrimStart(spaces + s) == TrimStart(spaces[1..] + s);
    }
  }

  lemma NoNumber(s: string)
    requires s == "" || (!IsSpace(s[0]) && s[0] != '-' && s[0] != '+' && DigitValue(s[0]) >= 10)
    ensures ParseInt(s).None?
  {
    if s != "" { UntilIs(s, EndsDecimal, 0); }
  }

  /** The wildcard stands for all seven days. */
  lemma WildcardDays()
    ensures ParseDayOfWeek("*") == [0, 1, 2, 3, 4, 5, 6]
  {
  }

  lemma IntOrPrint(n: int, d: int)
    ensures IntOr(PrintInt(n), d) == if n == 0 then d else n
  {
    ParsePrint(n);
  }

  // ---------------------------------------------------------------- fields

  predicate Word(s: string) { s != "" && forall k :: 0 <= k < |s| ==> !IsSpace(s[k]) }

  lemma PrintIsWord(n: int)
    ensures Word(PrintInt(n)) && PrintInt(n) != "*" && !StartsWith(PrintInt(n), "*/")
  {
    var s := PrintInt(n);
    forall k | 0 <= k < |s| ensures s[k] == '-' || IsDigit(s[k]) {
      if n < 0 && k > 0 { assert s[k] in PrintNat(-n); } else { assert s[k] in s; }
    }
    assert s[0] != '*';
    assert "*/"[0] == '*';
  }

  /** Not empty, and no white space at either end. */
  predicate Solid(s: string) { s != "" && !IsSpace(s[0]) && !IsSpace(s[|s| - 1]) }

  lemma WordIsOneField(a: string)
    requires Word(a)
    ensures Solid(a) && Fields(a) == [a]
  {
    UntilIs(a, IsSpace, |a|);
  }

  lemma WordThenFields(a: string, rest: string)
    requires Word(a) && Solid(rest)
    ensures Solid(a + " " + rest) && Fields(a + " " + rest) == [a] + Fields(rest)
  {
    var s := a + " " + rest;
    UntilIs(s, IsSpace, |a|);
    assert s[..|a|] == a && s[|a| + 1..] == rest;
    assert TrimStart(rest) == rest;
    assert s[0] == a[0] && s[|s| - 1] == rest[|rest| - 1];
  }

  function Five(a: string, b: string, c: string, d: string, e: string): string {
    a + " " + (b + " " + (c + " " + (d + " " + e)))
  }

  lemma FieldsOfThree(c: string, d: string, e: string)
    requires Word(c) && Word(d) && Word(e)
    ensures var s := c + " " + (d + " " + e); Solid(s) && Fields(s) == [c, d, e]
  {
    WordIsOneField(e);
    WordThenFields(d, e);
    WordThenFields(c, d + " " + e);
    Prepend(c, d, [e]);
  }

  lemma FieldsOfFive(a: string, b: string, c: string, d: string, e: string)
    requires Word(a) && Word(b) && Word(c) && Word(d) && Word(e)
    ensures Fields(Trim(Five(a, b, c, d, e))) == [a, b, c, d, e]
  {
    FieldsOfThree(c, d, e);
    FiveFromThree(a, b, c + " " + (d + " " + e), [c, d, e]);
  }

  lemma FiveFromThree(a: string, b: string, three: string, fields: seq<string>)
    requires Word(a) && Word(b) && Solid(three) && Fields(three) == fields
    ensures Fields(Trim(a + " " + (b + " " + three))) == [a, b] + fields
  {
    WordThenFields(b, three);
    WordThenFields(a, b + " " + three);
    SolidIsTrimmed(a + " " + (b + " " + three));
    Prepend(a, b, fields);
  }

  lemma Prepend(a: string, b: string, rest: seq<string>)
    ensures [a] + ([b] + rest) == [a, b] + rest
  {
  }

  lemma SolidIsTrimmed(s: string)
    requires Solid(s)
    ensures Trim(s) == s
  {
  }

  /** The five fields of a built expression. */
  lemma BuildIsFive(c: Config)
    ensures var m, h := PrintInt(c.minute), PrintInt(c.hour);
            BuildCron(c) == match c.frequency
                            case Hourly => Five(PrintInt(c.minuteOfHour), "*", "*", "*", "*")
                            case Daily => Five(m, h, "*", "*", "*")
                            case Weekly => Five(m, h, "*", "*", DaysField(c.daysOfWeek))
                            case Monthly => Five(m, h, PrintInt(c.dayOfMonth), "*", "*")
  {
    match c.frequency
    case Hourly => HourlyFive(PrintInt(c.minuteOfHour));
    case Daily => DailyFive(PrintInt(c.minute), PrintInt(c.hour));
    case Weekly => WeeklyFive(PrintInt(c.minute), PrintInt(c.hour), DaysField(c.daysOfWeek));
    case Monthly => MonthlyFive(PrintInt(c.minute), PrintInt(c.hour), PrintInt(c.dayOfMonth));
  }

  lemma HourlyFive(m: string)
    ensures m + " * * * *" == Five(m, "*", "*", "*", "*")
  {
  }

  lemma DailyFive(m: string, h: string)
    ensures m + " " + h + " * * *" == Five(m, h, "*", "*", "*")
  {
  }

  lemma WeeklyFive(m: string, h: string, d: string)
    ensures m + " " + h + " * * " + d == Five(m, h, "*", "*", d)
  {
  }

  lemma MonthlyFive(m: string, h: string, d: string)
    ensures m + " " + h + " " + d + " * *" == Five(m, h, d, "*", "*")
  {
  }

  // ---------------------------------------------------------------- lists of days

  predicate NonNegative(days: seq<int>) { forall k :: 0 <= k < |days| ==> days[k] >= 0 }

  /** Digits and commas only. */
  predicate IsList(s: string) { forall k :: 0 <= k < |s| ==> IsDigit(s[k]) || s[k] == ',' }

  lemma {:induction false} JoinIsList(days: seq<int>)
    requires NonNegative(days)
    ensures IsList(Join(days)) && '-' !in Join(days)
    ensures days != [] ==> Join(days) != ""
    decreases |days|
  {
    if days != [] {
      var s := PrintNat(days[0]);
      forall k | 0 <= k < |s| ensures IsDigit(s[k]) { assert s[k] in s; }
      JoinIsList(days[1..]);
    }
  }

  /** Splitting a printed list at commas and reading the parts gives the list. */
  lemma {:induction false} NumbersOfJoin(days: seq<int>)
    requires days != [] && NonNegative(days)
    ensures Numbers(Split(Join(days), IsComma)) == days
    decreases |days|
  {
    var s := PrintNat(days[0]);
    forall k | 0 <= k < |s| ensures !IsComma(s[k]) { assert s[k] in s; }
    ParsePrint(days[0]);
    if |days| == 1 {
      UntilIs(s, IsComma, |s|);
      OneNumber(s);
    } else {
      var text := Join(days);
      UntilIs(text, IsComma, |s|);
      assert text[..|s|] == s && text[|s| + 1..] == Join(days[1..]);
      NumbersOfJoin(days[1..]);
      NumbersStep(s, Split(Join(days[1..]), IsComma));
    }
  }

  lemma NumbersStep(part: string, rest: seq<string>)
    requires ParseInt(part).Some?
    ensures Numbers([part] + rest) == [ParseInt(part).value] + Numbers(rest)
  {
    assert ([part] + rest)[1..] == rest;
  }

  lemma {:induction false} PlainParts(parts: seq<string>)
    requires forall k :: 0 <= k < |parts| ==> '-' !in parts[k]
    ensures DaysOfParts(parts) == Numbers(parts)
    decreases |parts|
  {
    if parts != [] {
      OneNumber(parts[0]);
      PlainParts(parts[1..]);
    }
  }

  /** The parts of a split consist of characters of the whole that do not split. */
  lemma {:induction false} PartsOf(s: string, at: char -> bool)
    ensures forall p <- Split(s, at) :: forall c <- p :: c in s && !at(c)
    decreases |s|
  {
    var n := Until(s, at);
    if n < |s| { PartsOf(s[n + 1..], at); }
  }

  /** A range or a list, but not a mixture, denotes the same days to both readers. */
  lemma ReadersAgree(field: string)
    requires field != "*" && !('-' in field && ',' in field)
    ensures DaysOf(field) == ParseDayOfWeek(field)
  {
    if '-' in field {
      UntilIs(field, IsComma, |field|);
      assert Split(field, IsComma) == [field];
      assert [field][1..] == [];
      assert DaysOfParts([field]) == DaysOfPart(field) + [];
    } else {
      PartsOf(field, IsComma);
      forall k | 0 <= k < |Split(field, IsComma)| ensures '-' !in Split(field, IsComma)[k] {
        assert Split(field, IsComma)[k] in Split(field, IsComma);
      }
      PlainParts(Split(field, IsComma));
    }
  }

  // ---------------------------------------------------------------- sorting

  lemma {:induction false} InsertKeeps(d: int, s: seq<int>)
    ensures multiset(Insert(d, s)) == multiset(s) + multiset{d}
    decreases |s|
  {
    if s != [] {
      assert s == [s[0]] + s[1..];
      InsertKeeps(d, s[1..]);
    }
  }

  /** Sorting the days loses and invents none. */
  lemma {:induction false} SortKeeps(s: seq<int>)
    ensures multiset(SortDays(s)) == multiset(s)
    decreases |s|
  {
    if s != [] {
      assert s == [s[0]] + s[1..];
      SortKeeps(s[1..]);
      InsertKeeps(s[0], SortDays(s[1..]));
    }
  }

  lemma SameMembers(s: seq<int>, d: int)
    ensures d in SortDays(s) <==> d in s
  {
    SortKeeps(s);
    assert d in SortDays(s) <==> d in multiset(SortDays(s));
  }

  predicate Ascending(s: seq<int>) { forall i, j :: 0 <= i < j < |s| ==> s[i] <= s[j] }

  predicate OneDigit(s: seq<int>) { forall k :: 0 <= k < |s| ==> 0 <= s[k] < 10 }

  lemma DigitsCompare(a: int, b: int)
    requires 0 <= a < 10 && 0 <= b < 10
    ensures PrintedBefore(PrintInt(a), PrintInt(b)) <==> a <= b
  {
    assert PrintInt(a) == [DigitChar(a)] && PrintInt(b) == [DigitChar(b)];
    assert PrintedBefore(PrintInt(a)[1..], PrintInt(b)[1..]);
  }

  lemma {:induction false} InsertAscends(d: int, s: seq<int>)
    requires 0 <= d < 10 && OneDigit(s) && Ascending(s)
    ensures Ascending(Insert(d, s)) && OneDigit(Insert(d, s))
    decreases |s|
  {
    if s != [] {
      DigitsCompare(d, s[0]);
      if d > s[0] {
        InsertAscends(d, s[1..]);
        InsertAbove(d, s[1..], s[0]);
      }
    }
  }

  lemma {:induction false} InsertAbove(d: int, s: seq<int>, low: int)
    requires low <= d && forall k :: 0 <= k < |s| ==> low <= s[k]
    ensures forall k :: 0 <= k < |Insert(d, s)| ==> low <= Insert(d, s)[k]
    decreases |s|
  {
    if s != [] { InsertAbove(d, s[1..], low); }
  }

  /** The textual order of `sort()` is the numeric one for weekdays. */
  lemma {:induction false} WeekdaysSortNumerically(s: seq<int>)
    requires OneDigit(s)
    ensures Ascending(SortDays(s)) && OneDigit(SortDays(s)) && multiset(SortDays(s)) == multiset(s)
    decreases |s|
  {
    SortKeeps(s);
    if s != [] {
      WeekdaysSortNumerically(s[1..]);
      InsertAscends(s[0], SortDays(s[1..]));
    }
  }

  /** Negative numbers print with a dash, which sorts before every digit. */
  lemma {:induction false} NegativesComeFirst(s: seq<int>)
    requires !NonNegative(s)
    ensures SortDays(s) != [] && SortDays(s)[0] < 0
    decreases |s|
  {
    PrintStart(s[0]);
    var t := SortDays(s[1..]);
    if t != [] { PrintStart(t[0]); }
    if !NonNegative(s[1..]) {
      NegativesComeFirst(s[1..]);
    } else {
      assert s[0] < 0 by { assert forall k :: 0 < k < |s| ==> s[k] == s[1..][k - 1]; }
      if t != [] {
        SameMembers(s[1..], t[0]);
        assert t[0] >= 0;
      }
    }
  }

  lemma PrintStart(n: int)
    ensures PrintInt(n) != "" && (if n < 0 then PrintInt(n)[0] == '-' else IsDigit(PrintInt(n)[0]))
  {
    if n >= 0 { assert PrintInt(n)[0] in PrintNat(n); }
  }

  // ---------------------------------------------------------------- round trip of configurations

  /** What one frequency uses of a configuration, read back unchanged, the weekdays sorted. */
  predicate SameSchedule(c: Config, d: Config) {
    && d.frequency == c.frequency
    && match c.frequency
       case Hourly => d.minuteOfHour == c.minuteOfHour
       case Daily => d.hour == c.hour && d.minute == c.minute
       case Weekly => d.hour == c.hour && d.minute == c.minute && d.daysOfWeek == SortDays(c.daysOfWeek)
       case Monthly => d.hour == c.hour && d.minute == c.minute && d.dayOfMonth == c.dayOfMonth
  }

  /** The configurations that survive: hour 0, day 0 and negative or missing weekdays do not. */
  predicate Survives(c: Config) {
    match c.frequency
    case Hourly => true
    case Daily => c.hour != 0
    case Weekly => c.hour != 0 && c.daysOfWeek != [] && NonNegative(c.daysOfWeek)
    case Monthly => c.hour != 0 && c.dayOfMonth != 0
  }

  lemma SortedStaysNonNegative(days: seq<int>)
    requires days != [] && NonNegative(days)
    ensures SortDays(days) != [] && NonNegative(SortDays(days))
  {
    var sorted := SortDays(days);
    forall k | 0 <= k < |sorted| ensures sorted[k] >= 0 { SameMembers(days, sorted[k]); }
    SameMembers(days, days[0]);
  }

  /** Both readers of the weekday field read a printed list alike. */
  lemma JoinParses(days: seq<int>)
    requires days != [] && NonNegative(days)
    ensures var f := Join(days); Word(f) && f != "*" && DaysOf(f) == ParseDayOfWeek(f) == days
  {
    var f := Join(days);
    JoinIsList(days);
    JoinIsWord(days);
    NumbersOfJoin(days);
    assert f[0] != '*';
    ReadersAgree(f);
  }

  lemma DaysFieldParses(days: seq<int>)
    requires days != [] && NonNegative(days)
    ensures var f := DaysField(days); Word(f) && f != "*" && DaysOf(f) == ParseDayOfWeek(f) == SortDays(days) != []
  {
    SortedStaysNonNegative(days);
    JoinParses(SortDays(days));
  }

  lemma NegativeDaysDoNotParse(days: seq<int>)
    requires !NonNegative(days)
    ensures var f := DaysField(days); f != "*" && DaysOf(f) == []
  {
    NegativesComeFirst(days);
    var f := DaysField(days);
    PrintStart(SortDays(days)[0]);
    assert f[0] == '-' && f[0] in f;
    UntilIs(f, IsDash, 0);
    assert Split(f, IsDash)[0] == "";
    assert ParseInt("") == None;
  }

  /** What building and parsing makes of every configuration whose weekdays can be printed as a list. */
  function ReadBack(c: Config): Config {
    var h := if c.hour == 0 then 9 else c.hour;
    match c.frequency
    case Hourly => Config(Hourly, c.minuteOfHour, 9, 0, WEEKDAYS, 1)
    case Daily => Config(Daily, 0, h, c.minute, WEEKDAYS, 1)
    case Weekly => Config(Weekly, 0, h, c.minute, if c.daysOfWeek == [] then [1] else SortDays(c.daysOfWeek), 1)
    case Monthly => Config(Monthly, 0, h, c.minute, WEEKDAYS, if c.dayOfMonth == 0 then 1 else c.dayOfMonth)
  }

  lemma ParsesBackTo(c: Config)
    requires c.frequency.Weekly? ==> NonNegative(c.daysOfWeek)
    ensures ParseCron(BuildCron(c)) == Some(ReadBack(c))
  {
    BuildIsFive(c);
    match c.frequency
    case Hourly =>
      PrintIsWord(c.minuteOfHour);
      IntOrPrint(c.minuteOfHour, 0);
      FieldsOfFive(PrintInt(c.minuteOfHour), "*", "*", "*", "*");
    case Daily =>
      TimeParses(c, "*", "*");
    case Weekly =>
      if c.daysOfWeek == [] {
        EmptyDays();
        DaysFieldParses([1]);
      } else {
        DaysFieldParses(c.daysOfWeek);
      }
      TimeParses(c, "*", DaysField(c.daysOfWeek));
    case Monthly =>
      PrintIsWord(c.dayOfMonth);
      IntOrPrint(c.dayOfMonth, 1);
      TimeParses(c, PrintInt(c.dayOfMonth), "*");
  }

  /** The two time fields of an expression that is not hourly. */
  lemma TimeParses(c: Config, dayOfMonth: string, dayOfWeek: string)
    requires Word(dayOfMonth) && Word(dayOfWeek)
    ensures var m, h := PrintInt(c.minute), PrintInt(c.hour);
            ParseCron(Five(m, h, dayOfMonth, "*", dayOfWeek)) == ParseFields(m, h, dayOfMonth, "*", dayOfWeek)
            && IntOr(m, 0) == c.minute && IntOr(h, 9) == (if c.hour == 0 then 9 else c.hour) && h != "*"
            && WeekdayField(Five(m, h, dayOfMonth, "*", dayOfWeek)) == dayOfWeek
  {
    PrintIsWord(c.minute);
    PrintIsWord(c.hour);
    IntOrPrint(c.minute, 0);
    IntOrPrint(c.hour, 9);
    FieldsOfFive(PrintInt(c.minute), PrintInt(c.hour), dayOfMonth, "*", dayOfWeek);
  }

  function WeekdayField(cron: string): string {
    var parts := Fields(Trim(cron));
    if |parts| == 5 then parts[4] else ""
  }

  lemma EmptyDays()
    ensures DaysField([]) == DaysField([1]) && SortDays([1]) == [1]
  {
    assert SortDays([1]) == Insert(1, SortDays([1][1..]));
  }

  lemma NegativeWeekIsLost(c: Config)
    requires c.frequency.Weekly? && !NonNegative(c.daysOfWeek)
    ensures ParseCron(BuildCron(c)) == None
  {
    BuildIsFive(c);
    NegativeDaysDoNotParse(c.daysOfWeek);
    NegativesComeFirst(c.daysOfWeek);
    JoinIsWord(SortDays(c.daysOfWeek));
    TimeParses(c, "*", DaysField(c.daysOfWeek));
  }

  lemma {:induction false} JoinIsWord(days: seq<int>)
    requires days != []
    ensures Word(Join(days))
    decreases |days|
  {
    PrintIsWord(days[0]);
    if |days| > 1 { JoinIsWord(days[1..]); }
  }

  /** Building a configuration and parsing the result gives the same schedule exactly when the
      configuration survives. */
  lemma RoundTripExactlyWhen(c: Config)
    ensures var p := ParseCron(BuildCron(c));
            (p.Some? && SameSchedule(c, p.value)) <==> Survives(c)
  {
    if c.frequency.Weekly? && !NonNegative(c.daysOfWeek) {
      NegativeWeekIsLost(c);
    } else {
      ParsesBackTo(c);
    }
  }

  // ---------------------------------------------------------------- round trip of expressions

  lemma {:induction false} RangeIsAbove(start: int, end: int)
    requires start >= 0
    ensures NonNegative(Range(start, end))
    decreases end - start
  {
    if start <= end { RangeIsAbove(start + 1, end); }
  }

  lemma NoDashNoNegative(s: string)
    requires '-' !in s
    ensures ParseInt(s).Some? ==> ParseInt(s).value >= 0
  {
    TrimIsSuffix(s);
    var t := TrimStart(s);
    assert t != "" ==> t[0] in t;
  }

  lemma {:induction false} TrimIsSuffix(s: string)
    ensures forall c <- TrimStart(s) :: c in s
    decreases |s|
  {
    if s != "" && IsSpace(s[0]) { TrimIsSuffix(s[1..]); }
  }

  lemma {:induction false} NumbersOfPlain(parts: seq<string>)
    requires forall k :: 0 <= k < |parts| ==> '-' !in parts[k]
    ensures NonNegative(Numbers(parts))
    decreases |parts|
  {
    if parts != [] {
      NoDashNoNegative(parts[0]);
      NumbersOfPlain(parts[1..]);
    }
  }

  /** No weekday field yields a negative number: dashes separate, they are never signs. */
  lemma DaysAreNonNegative(field: string)
    ensures NonNegative(DaysOf(field))
  {
    if '-' in field {
      var ends := Split(field, IsDash);
      PartsOf(field, IsDash);
      if |ends| >= 2 {
        assert ends[0] in ends && '-' !in ends[0];
        NoDashNoNegative(ends[0]);
        var start, end := ParseInt(ends[0]), ParseInt(ends[1]);
        if start.Some? && end.Some? { RangeIsAbove(start.value, end.value); }
      }
    } else {
      PartsOf(field, IsComma);
      forall k | 0 <= k < |Split(field, IsComma)| ensures '-' !in Split(field, IsComma)[k] {
        assert Split(field, IsComma)[k] in Split(field, IsComma);
      }
      NumbersOfPlain(Split(field, IsComma));
    }
  }

  lemma WeekdaysSorted()
    ensures SortDays(WEEKDAYS) == WEEKDAYS
  {
    assert PrintInt(1) == "1" && PrintInt(2) == "2" && PrintInt(3) == "3" && PrintInt(4) == "4" && PrintInt(5) == "5";
    assert SortDays([5]) == [5] by { assert [5][1..] == []; }
    assert SortDays([4, 5]) == [4, 5] by { assert [4, 5][1..] == [5]; }
    assert SortDays([3, 4, 5]) == [3, 4, 5] by { assert [3, 4, 5][1..] == [4, 5]; }
    assert SortDays([2, 3, 4, 5]) == [2, 3, 4, 5] by { assert [2, 3, 4, 5][1..] == [3, 4, 5]; }
    assert [1, 2, 3, 4, 5][1..] == [2, 3, 4, 5];
  }

  /** Whatever text parses: building the parsed configuration and parsing again gives it back, the
      weekdays sorted. */
  lemma ParsedConfigIsStable(cron: string)
    requires ParseCron(cron).Some?
    ensures var c := ParseCron(cron).value;
            ParseCron(BuildCron(c)) == Some(c.(daysOfWeek := SortDays(c.daysOfWeek)))
  {
    var c := ParseCron(cron).value;
    var parts := Fields(Trim(cron));
    DaysAreNonNegative(parts[4]);
    ParsesBackTo(c);
    ParsedIsReadBack(parts[0], parts[1], parts[2], parts[3], parts[4]);
  }

  /** A parsed configuration has no field that reading back would change, but for the order of days. */
  lemma ParsedIsReadBack(minute: string, hour: string, dayOfMonth: string, month: string, dayOfWeek: string)
    requires ParseFields(minute, hour, dayOfMonth, month, dayOfWeek).Some?
    ensures var c := ParseFields(minute, hour, dayOfMonth, month, dayOfWeek).value;
            ReadBack(c) == c.(daysOfWeek := SortDays(c.daysOfWeek))
  {
    WeekdaysSorted();
  }

  /** Rebuilding a weekly expression replaces the weekday field by the sorted list of the days the
      parser saw; for a field that is not a mixture these are the days it denotes. */
  lemma RebuiltFieldKeepsDays(cron: string)
    requires ParseCron(cron).Some? && ParseCron(cron).value.frequency.Weekly?
    ensures var rebuilt := WeekdayField(BuildCron(ParseCron(cron).value));
            var field := WeekdayField(cron);
            && ParseDayOfWeek(rebuilt) == SortDays(DaysOf(field))
            && (!('-' in field && ',' in field) ==> forall d :: d in ParseDayOfWeek(rebuilt) <==> d in ParseDayOfWeek(field))
  {
    var c := ParseCron(cron).value;
    var field := WeekdayField(cron);
    DaysAreNonNegative(field);
    WeeklyDays(cron);
    DaysFieldParses(c.daysOfWeek);
    BuildIsFive(c);
    TimeParses(c, "*", DaysField(c.daysOfWeek));
    forall d ensures d in SortDays(DaysOf(field)) <==> d in DaysOf(field) { SameMembers(DaysOf(field), d); }
    if !('-' in field && ',' in field) { ReadersAgree(field); }
  }

  lemma WeeklyDays(cron: string)
    requires ParseCron(cron).Some? && ParseCron(cron).value.frequency.Weekly?
    ensures ParseCron(cron).value.daysOfWeek == DaysOf(WeekdayField(cron)) != [] && WeekdayField(cron) != "*"
  {
  }

  // ---------------------------------------------------------------- which expressions are read

  predicate Any(field: string) { field == "*" }

  /** `parseInt` of the field, unless that gives no number or zero. */
  function NumberOr(field: string, default: int): int {
    match ParseInt(field)
    case Some(n) => if n == 0 then default else n
    case None => default
  }

  /** The five fields say one of the four schedules the builder knows. */
  predicate Readable(minute: string, hour: string, dayOfMonth: string, month: string, dayOfWeek: string) {
    && Any(month) && (Any(dayOfMonth) || Any(dayOfWeek))
    && (!Any(dayOfWeek) ==> DaysOf(dayOfWeek) != [])
    && !(Any(hour) && Any(dayOfMonth) && Any(dayOfWeek) && |minute| >= 2 && minute[0] == '*' && minute[1] == '/')
  }

  function Reading(minute: string, hour: string, dayOfMonth: string, dayOfWeek: string): Config {
    var h, m := NumberOr(hour, 9), NumberOr(minute, 0);
    if !Any(dayOfWeek) then Config(Weekly, 0, h, m, DaysOf(dayOfWeek), 1)
    else if !Any(dayOfMonth) then Config(Monthly, 0, h, m, [1, 2, 3, 4, 5], NumberOr(dayOfMonth, 1))
    else if !Any(hour) then Config(Daily, 0, h, m, [1, 2, 3, 4, 5], 1)
    else Config(Hourly, m, 9, 0, [1, 2, 3, 4, 5], 1)
  }

  /** Exactly the readable five-field expressions parse, and to what. A month, both kinds of day, an empty
      weekday field and steps of minutes are refused. */
  lemma ParsesExactlyWhen(minute: string, hour: string, dayOfMonth: string, month: string, dayOfWeek: string)
    requires Word(minute) && Word(hour) && Word(dayOfMonth) && Word(month) && Word(dayOfWeek)
    ensures ParseCron(Five(minute, hour, dayOfMonth, month, dayOfWeek))
         == if !Readable(minute, hour, dayOfMonth, month, dayOfWeek) then None
            else Some(Reading(minute, hour, dayOfMonth, dayOfWeek))
  {
    FieldsOfFive(minute, hour, dayOfMonth, month, dayOfWeek);
    FieldsRead(minute, hour, dayOfMonth, month, dayOfWeek);
  }

  lemma FieldsRead(minute: string, hour: string, dayOfMonth: string, month: string, dayOfWeek: string)
    ensures ParseFields(minute, hour, dayOfMonth, month, dayOfWeek)
         == if !Readable(minute, hour, dayOfMonth, month, dayOfWeek) then None
            else Some(Reading(minute, hour, dayOfMonth, dayOfWeek))
  {
    StepPrefix(minute);
    NumberIs(minute, 0);
    NumberIs(hour, 9);
    NumberIs(dayOfMonth, 1);
  }

  lemma NumberIs(field: string, default: int)
    ensures NumberOr(field, default) == IntOr(field, default)
  {
  }

  /** Any other number of fields is refused. */
  lemma FiveFieldsOnly(cron: string)
    requires |Fields(Trim(cron))| != 5
    ensures ParseCron(cron).None?
  {
  }

  lemma StepPrefix(s: string)
    ensures StartsWith(s, "*/") <==> |s| >= 2 && s[0] == '*' && s[1] == '/'
  {
    if |s| >= 2 && s[0] == '*' && s[1] == '/' { assert s[..2] == "*/"; }
    if StartsWith(s, "*/") { assert s[0] == "*/"[0] && s[1] == "*/"[1]; }
  }

  // ---------------------------------------------------------------- where the code falls short

  /** Every schedule at hour 0 that is not hourly reads back as one at hour 9. */
  lemma MidnightReadsAsNine(c: Config)
    requires !c.frequency.Hourly? && c.hour == 0
    requires c.frequency.Weekly? ==> c.daysOfWeek != [] && NonNegative(c.daysOfWeek)
    ensures ParseCron(BuildCron(c)).Some? && ParseCron(BuildCron(c)).value.hour == 9
    ensures c.dayOfMonth != 0 ==> SameSchedule(c.(hour := 9), ParseCron(BuildCron(c)).value)
  {
    ParsesBackTo(c);
  }

  lemma {:induction false} RangeMembers(start: int, end: int, d: int)
    ensures d in Range(start, end) <==> start <= d <= end
    decreases end - start
  {
    if start <= end { RangeMembers(start + 1, end, d); }
  }

  predicate AllDigits(s: string) { forall k :: 0 <= k < |s| ==> IsDigit(s[k]) }

  lemma PrintsDigits(n: nat)
    ensures AllDigits(PrintNat(n))
  {
    var s := PrintNat(n);
    forall k | 0 <= k < |s| ensures IsDigit(s[k]) { assert s[k] in s; }
  }

  lemma SplitAt(x: string, mark: string, y: string, at: char -> bool)
    requires |mark| == 1 && at(mark[0])
    requires forall k :: 0 <= k < |x| ==> !at(x[k])
    requires forall k :: 0 <= k < |y| ==> !at(y[k])
    ensures Split(x + mark + y, at) == [x, y]
  {
    var s := x + mark + y;
    UntilIs(s, at, |x|);
    assert s[..|x|] == x && s[|x| + 1..] == y;
    UntilIs(y, at, |y|);
  }
}

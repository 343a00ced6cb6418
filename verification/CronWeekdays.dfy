/** Weekday fields that mix days and ranges: what each of the two readers of Cron makes of them. */
module CronWeekdays {
  import opened Text
  import opened Cron
  import opened CronTheorems

  // ---------------------------------------------------------------- fields

  /** One part of a field: a day, or a range of days. */
  datatype Item = Day(d: nat) | Span(a: nat, b: nat) {
    function Printed(): string {
      match this
      case Day(d) => PrintNat(d)
      case Span(a, b) => PrintNat(a) + "-" + PrintNat(b)
    }

    function Days(): seq<int> {
      match this
      case Day(d) => [d]
      case Span(a, b) => Range(a, b)
    }

    predicate Holds(x: int) {
      match this
      case Day(d) => x == d
      case Span(a, b) => a <= x <= b
    }
  }

  function Field(items: seq<Item>): string
    requires items != []
  {
    if |items| == 1 then items[0].Printed() else items[0].Printed() + "," + Field(items[1..])
  }

  function Denoted(items: seq<Item>): seq<int> {
    if items == [] then [] else items[0].Days() + Denoted(items[1..])
  }

  predicate HasSpan(items: seq<Item>) { exists it <- items :: it.Span? }

  /** The first number of the field. */
  function FirstNumber(items: seq<Item>): nat
    requires items != []
  {
    if items[0].Day? then items[0].d else items[0].a
  }

  /** The end of its first range. */
  function FirstEnd(items: seq<Item>): nat
    requires HasSpan(items)
  {
    if items[0].Span? then items[0].b else FirstEnd(items[1..])
  }

  /** Some part holds the day. */
  predicate Held(items: seq<Item>, x: int) { items != [] && (items[0].Holds(x) || Held(items[1..], x)) }

  lemma {:induction false} DenotedHolds(items: seq<Item>, x: int)
    ensures x in Denoted(items) <==> Held(items, x)
  {
    if items != [] {
      DenotedHolds(items[1..], x);
      if items[0].Span? { RangeMembers(items[0].a, items[0].b, x); }
    }
  }

  // ---------------------------------------------------------------- the reader of parts

  function PartsOf(items: seq<Item>): seq<string> {
    if items == [] then [] else [items[0].Printed()] + PartsOf(items[1..])
  }

  lemma PrintedHasNoComma(it: Item)
    ensures it.Printed() != "" && IsDigit(it.Printed()[0])
    ensures forall k :: 0 <= k < |it.Printed()| ==> !IsComma(it.Printed()[k])
    ensures '-' in it.Printed() <==> it.Span?
  {
    match it
    case Day(d) => PrintsDigits(d);
    case Span(a, b) =>
      PrintsDigits(a);
      PrintsDigits(b);
      assert it.Printed()[|PrintNat(a)|] == '-';
  }

  lemma {:induction false} FieldSplits(items: seq<Item>)
    requires items != []
    ensures Split(Field(items), IsComma) == PartsOf(items)
  {
    var s := items[0].Printed();
    PrintedHasNoComma(items[0]);
    if |items| == 1 {
      UntilIs(s, IsComma, |s|);
      assert PartsOf(items[1..]) == [];
    } else {
      var text := Field(items);
      UntilIs(text, IsComma, |s|);
      assert text[..|s|] == s && text[|s| + 1..] == Field(items[1..]);
      FieldSplits(items[1..]);
    }
  }

  lemma PartReads(it: Item)
    ensures DaysOfPart(it.Printed()) == it.Days()
  {
    PrintedHasNoComma(it);
    match it
    case Day(d) =>
      ParsePrint(d);
      OneNumber(PrintNat(d));
    case Span(a, b) =>
      PrintsDigits(a);
      PrintsDigits(b);
      SplitAt(PrintNat(a), "-", PrintNat(b), IsDash);
      ParsePrint(a);
      ParsePrint(b);
  }

  lemma {:induction false} PartsRead(items: seq<Item>)
    ensures DaysOfParts(PartsOf(items)) == Denoted(items)
  {
    if items != [] {
      PartReads(items[0]);
      PartsRead(items[1..]);
      assert PartsOf(items)[1..] == PartsOf(items[1..]);
    }
  }

  // ---------------------------------------------------------------- the reader of one range

  /** What precedes and what follows the first dash. */
  function Before(items: seq<Item>): string
    requires HasSpan(items)
  {
    if items[0].Span? then PrintNat(items[0].a) else PrintNat(items[0].d) + "," + Before(items[1..])
  }

  function After(items: seq<Item>): string
    requires HasSpan(items)
  {
    if items[0].Day? then After(items[1..])
    else if |items| == 1 then PrintNat(items[0].b)
    else PrintNat(items[0].b) + "," + Field(items[1..])
  }

  lemma {:induction false} FieldAtDash(items: seq<Item>)
    requires HasSpan(items)
    ensures Field(items) == Before(items) + "-" + After(items)
    ensures '-' !in Before(items)
  {
    if items[0].Span? {
      PrintsDigits(items[0].a);
      if |items| > 1 { Regroup(PrintNat(items[0].a) + "-", PrintNat(items[0].b), Field(items[1..])); }
    } else {
      FieldAtDash(items[1..]);
      PrintsDigits(items[0].d);
      Regroup(PrintNat(items[0].d), Before(items[1..]), "-" + After(items[1..]));
      assert Before(items[1..]) + "-" + After(items[1..]) == Before(items[1..]) + ("-" + After(items[1..]));
    }
  }

  lemma Regroup(x: string, y: string, z: string)
    ensures x + y + "," + z == x + (y + "," + z)
    ensures x + "," + (y + z) == (x + "," + y) + z
  {
  }

  /** A number, alone or followed by a comma. */
  predicate LeadsWith(s: string, n: nat) {
    var p := PrintNat(n);
    |p| <= |s| && s[..|p|] == p && (|s| == |p| || s[|p|] == ',')
  }

  lemma LeadsReads(s: string, n: nat)
    requires LeadsWith(s, n)
    ensures ParseInt(s) == Some(n)
  {
    var p := PrintNat(n);
    ParsePrintNat(n, s[|p|..]);
    assert s == p + s[|p|..];
  }

  lemma BeforeLeads(items: seq<Item>)
    requires HasSpan(items)
    ensures LeadsWith(Before(items), FirstNumber(items))
  {
  }

  lemma {:induction false} AfterLeads(items: seq<Item>)
    requires HasSpan(items)
    ensures LeadsWith(After(items), FirstEnd(items))
  {
    if items[0].Day? { AfterLeads(items[1..]); }
  }

  /** Cutting at the next dash leaves the number at the front. */
  lemma FirstPieceLeads(s: string, n: nat)
    requires LeadsWith(s, n)
    ensures LeadsWith(Split(s, IsDash)[0], n)
  {
    var p, u := PrintNat(n), Until(s, IsDash);
    PrintsDigits(n);
    forall k | 0 <= k < |p| ensures !IsDash(s[k]) { assert s[k] == s[..|p|][k] && IsDigit(p[k]); }
    assert u >= |p|;
    assert s[..u][..|p|] == p;
  }

  lemma RangeReads(items: seq<Item>)
    requires HasSpan(items)
    ensures '-' in Field(items) && RangeOf(Field(items)) == Range(FirstNumber(items), FirstEnd(items))
  {
    var pre, post, text := Before(items), After(items), Field(items);
    FieldAtDash(items);
    assert text[|pre|] == '-';
    UntilIs(text, IsDash, |pre|);
    assert text[..|pre|] == pre && text[|pre| + 1..] == post;
    BeforeLeads(items);
    LeadsReads(pre, FirstNumber(items));
    AfterLeads(items);
    FirstPieceLeads(post, FirstEnd(items));
    LeadsReads(Split(post, IsDash)[0], FirstEnd(items));
  }

  lemma {:induction false} DaysAloneHaveNoDash(items: seq<Item>)
    requires items != [] && !HasSpan(items)
    ensures '-' !in Field(items)
  {
    PrintedHasNoComma(items[0]);
    assert items[0] in items;
    if |items| > 1 {
      assert forall it <- items[1..] :: it in items;
      DaysAloneHaveNoDash(items[1..]);
    }
  }

  // ---------------------------------------------------------------- both readers

  /** For every field: `parseDayOfWeek` reads each part, `parseCronToConfig` reads every field with a dash
      as the one range from its first number to the end of its first range. */
  lemma ReadersRead(items: seq<Item>)
    requires items != []
    ensures ParseDayOfWeek(Field(items)) == Denoted(items)
    ensures DaysOf(Field(items)) == if HasSpan(items) then Range(FirstNumber(items), FirstEnd(items)) else Denoted(items)
  {
    PrintedHasNoComma(items[0]);
    assert Field(items)[0] == items[0].Printed()[0];
    FieldSplits(items);
    PartsRead(items);
    if HasSpan(items) {
      RangeReads(items);
    } else {
      DaysAloneHaveNoDash(items);
      DaysAreNumbers(items);
    }
  }

  lemma {:induction false} DaysAreNumbers(items: seq<Item>)
    requires !HasSpan(items)
    ensures Numbers(PartsOf(items)) == Denoted(items)
  {
    if items != [] {
      assert items[0] in items && forall it <- items[1..] :: it in items;
      ParsePrint(items[0].d);
      DaysAreNumbers(items[1..]);
      assert PartsOf(items)[1..] == PartsOf(items[1..]);
    }
  }

  ghost predicate ReadAlike(items: seq<Item>)
    requires items != []
  {
    forall x :: x in DaysOf(Field(items)) <==> x in ParseDayOfWeek(Field(items))
  }

  /** No part reaches out of the stretch from the first number to the end of the first range, and the
      parts leave no gap in it. */
  ghost predicate FillsStretch(items: seq<Item>)
    requires HasSpan(items)
  {
    && (forall x | Held(items, x) :: FirstNumber(items) <= x <= FirstEnd(items))
    && (forall x | FirstNumber(items) <= x <= FirstEnd(items) :: Held(items, x))
  }

  /** The exact condition for fields with a range; fields of days alone are always read alike. */
  lemma ReadersAgreeExactlyWhen(items: seq<Item>)
    requires items != []
    ensures ReadAlike(items) <==> !HasSpan(items) || FillsStretch(items)
  {
    ReadersRead(items);
    if HasSpan(items) {
      ReadAsHeld(items);
      ReadAsStretch(items);
    }
  }

  lemma ReadAsHeld(items: seq<Item>)
    requires items != []
    ensures forall x :: x in ParseDayOfWeek(Field(items)) <==> Held(items, x)
  {
    ReadersRead(items);
    forall x ensures x in Denoted(items) <==> Held(items, x) { DenotedHolds(items, x); }
  }

  lemma ReadAsStretch(items: seq<Item>)
    requires HasSpan(items)
    ensures forall x :: x in DaysOf(Field(items)) <==> FirstNumber(items) <= x <= FirstEnd(items)
  {
    ReadersRead(items);
    Stretch(DaysOf(Field(items)), FirstNumber(items), FirstEnd(items));
  }

  lemma Stretch(days: seq<int>, a: int, b: int)
    requires days == Range(a, b)
    ensures forall x :: x in days <==> a <= x <= b
  {
    forall x ensures x in days <==> a <= x <= b { RangeMembers(a, b, x); }
  }

  lemma OfTwo(it: Item, more: Item, x: int)
    ensures Held([it, more], x) <==> it.Holds(x) || more.Holds(x)
  {
    assert [it, more][1..] == [more] && [more][1..] == [];
    assert !Held([], x);
    assert Held([more], x) <==> more.Holds(x);
  }

  /** A range, then a day: the day is lost exactly when it lies outside the range. */
  lemma RangeThenDayAgrees(a: nat, b: nat, d: nat)
    ensures ReadAlike([Span(a, b), Day(d)]) <==> a <= d <= b
  {
    var items := [Span(a, b), Day(d)];
    assert items[0] in items && items[0].Span?;
    ReadersAgreeExactlyWhen(items);
    forall x ensures Held(items, x) <==> a <= x <= b || x == d { OfTwo(items[0], items[1], x); }
    assert Held(items, d);
  }

  /** A day, then a range: the days between them are invented, or days are lost, unless the range starts
      at the day or right after it. Before an empty range the day must be its end. */
  lemma DayThenRangeAgrees(d: nat, a: nat, b: nat)
    ensures ReadAlike([Day(d), Span(a, b)]) <==> if a <= b then d == a || d + 1 == a else d == b
  {
    var items := [Day(d), Span(a, b)];
    assert items[1] in items && items[1].Span? && items[1..] == [Span(a, b)];
    ReadersAgreeExactlyWhen(items);
    forall x ensures Held(items, x) <==> a <= x <= b || x == d { OfTwo(items[0], items[1], x); }
    assert Held(items, d) && (a <= b ==> Held(items, a));
    assert FirstNumber(items) == d && FirstEnd(items) == b;
    assert d + 1 < a ==> !Held(items, d + 1);
  }
}

/** Small string helpers shared by the message filter, the reducer and the cron builder. */
module Text {

  datatype Option<+T> = None | Some(value: T)

  predicate StartsWith(s: string, p: string) { p <= s }

  predicate EndsWith(s: string, p: string) {
    |p| <= |s| && s[|s| - |p|..] == p
  }

  predicate Contains(s: string, p: string) {
    StartsWith(s, p) || (s != "" && Contains(s[1..], p))
  }

  /** White space as the `\s` class and `trim` of ECMAScript see it. */
  predicate IsSpace(c: char) {
    || 9 as char <= c <= 13 as char
    || c in {' ', 0xA0 as char, 0x1680 as char, 0x2028 as char, 0x2029 as char,
             0x202F as char, 0x205F as char, 0x3000 as char, 0xFEFF as char}
    || 0x2000 as char <= c <= 0x200A as char
  }

  function TrimStart(s: string): (r: string)
    ensures |r| <= |s|
  {
    if s != "" && IsSpace(s[0]) then TrimStart(s[1..]) else s
  }

  function TrimEnd(s: string): string {
    if s != "" && IsSpace(s[|s| - 1]) then TrimEnd(s[..|s| - 1]) else s
  }

  function Trim(s: string): string { TrimEnd(TrimStart(s)) }

  function RemoveSpaces(s: string): string {
    if s == "" then ""
    else (if IsSpace(s[0]) then "" else [s[0]]) + RemoveSpaces(s[1..])
  }

  /** ASCII lower-casing. */
  function ToLower(s: string): string {
    seq(|s|, i requires 0 <= i < |s| =>
      if 'A' <= s[i] <= 'Z' then (s[i] as int + 32) as char else s[i])
  }

  predicate IsDigit(c: char) { '0' <= c <= '9' }

  function DigitChar(d: nat): (c: char)
    requires d < 10
    ensures IsDigit(c) && c as int == '0' as int + d
  {
    ('0' as int + d) as char
  }

  /** Decimal rendering of a natural number, as template literals print it. */
  function PrintNat(n: nat): (s: string)
    ensures s != "" && forall c <- s :: IsDigit(c)
  {
    if n < 10 then [DigitChar(n)] else PrintNat(n / 10) + [DigitChar(n % 10)]
  }

  function PrintInt(n: int): string {
    if n < 0 then "-" + PrintNat(-n) else PrintNat(n)
  }

  // ---------------------------------------------------------------- printed numbers

  lemma PrintStarts(n: int)
    ensures PrintInt(n) != "" && (PrintInt(n)[0] == '-' || IsDigit(PrintInt(n)[0]))
  {
    if n >= 0 { assert PrintNat(n)[0] in PrintNat(n); }
  }

  function Read(s: string): nat {
    if s == "" then 0 else 10 * Read(s[..|s| - 1]) + (if IsDigit(s[|s| - 1]) then s[|s| - 1] as int - '0' as int else 0)
  }

  lemma {:induction false} ReadsBack(n: nat)
    ensures Read(PrintNat(n)) == n
  {
    var s := PrintNat(n);
    if n < 10 {
      assert s[..|s| - 1] == "";
    } else {
      ReadsBack(n / 10);
      assert s[..|s| - 1] == PrintNat(n / 10);
    }
  }

  lemma PrintsApart(m: int, n: int)
    requires m != n
    ensures PrintInt(m) != PrintInt(n)
  {
    ReadsBack(if m < 0 then -m else m);
    ReadsBack(if n < 0 then -n else n);
    if m < 0 { assert PrintInt(m)[1..] == PrintNat(-m); } else { PrintStarts(m); assert PrintNat(m)[0] in PrintNat(m); }
    if n < 0 { assert PrintInt(n)[1..] == PrintNat(-n); } else { PrintStarts(n); assert PrintNat(n)[0] in PrintNat(n); }
  }
}

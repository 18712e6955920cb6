/**
 * DateUtils.format (src/core/dateUtils.ts:4-23) on a day number and a time of
 * day. The template's first run of y's becomes the tail of the year's digits.
 * Then each key of the table o, in the order M, d, h, m, s, q, W, replaces its
 * first match in what the template has become: a run of one letter takes the
 * plain number, a longer run the last two characters of "00" + the number.
 * The key W has no +, so it matches a single W, and reads a weekday name.
 * The RegExp.$1 mechanism is replaced by the match it names: the leftmost
 * run of the key's letter, which is also the first occurrence of that run.
 */
module DateFormat {
  import opened Calendar
  import opened DateUtils

  /** getHours, getMinutes and getSeconds of a Date. The layout's own dates are at midnight. */
  datatype TimeOfDay = TimeOfDay(hours: int, minutes: int, seconds: int)

  const Midnight: TimeOfDay := TimeOfDay(0, 0, 0)

  /** The default template of format. */
  const DefaultTemplate: string := "yyyy-MM-dd"

  // ----- numbers as text

  function Digit(n: int): char
    requires 0 <= n < 10
  {
    ('0' as int + n) as char
  }

  predicate IsDigits(s: string)
  {
    forall i :: 0 <= i < |s| ==> '0' <= s[i] <= '9'
  }

  /** The decimal numeral of a whole number, without leading zeros. */
  function NatString(n: nat): (s: string)
    ensures |s| >= 1 && IsDigits(s)
  {
    if n < 10 then [Digit(n)] else NatString(n / 10) + [Digit(n % 10)]
  }

  /** '' + n for a whole number n. */
  function IntString(n: int): string
  {
    if n < 0 then "-" + NatString(-n) else NatString(n)
  }

  /** The value of a decimal numeral: the partner of NatString. */
  function DigitsValue(s: string): nat
    requires IsDigits(s)
  {
    if |s| == 0 then 0 else 10 * DigitsValue(s[..|s| - 1]) + (s[|s| - 1] as int - '0' as int)
  }

  predicate IsNumeral(s: string)
  {
    IsDigits(s) || (|s| > 0 && s[0] == '-' && IsDigits(s[1..]))
  }

  /** The value of a numeral with an optional minus sign: the partner of IntString. */
  function IntValue(s: string): int
    requires IsNumeral(s)
  {
    if |s| > 0 && s[0] == '-' then -(DigitsValue(s[1..]) as int) else DigitsValue(s)
  }

  /** String.prototype.substr(start) without a length: a negative start counts back from the end. */
  function Substr(s: string, start: int): (r: string)
    ensures |r| <= |s| && r == s[|s| - |r|..]
    ensures 0 <= start <= |s| ==> |r| == |s| - start
  {
    if start < 0 then (if |s| + start < 0 then s else s[|s| + start..])
    else if start > |s| then []
    else s[start..]
  }

  /** ('00' + v).substr(('' + v).length). */
  function Padded(v: string): (r: string)
    ensures |r| == 2
  {
    Substr("00" + v, |v|)
  }

  // ----- the keys of the template

  datatype Token = YearToken | MonthToken | DateToken | HourToken | MinuteToken | SecondToken | QuarterToken | WeekdayToken

  function Letter(k: Token): char
  {
    match k
    case YearToken => 'y'
    case MonthToken => 'M'
    case DateToken => 'd'
    case HourToken => 'h'
    case MinuteToken => 'm'
    case SecondToken => 's'
    case QuarterToken => 'q'
    case WeekdayToken => 'W'
  }

  /** The keys of o in insertion order, the order for..in visits them. */
  const Keys: seq<Token> := [MonthToken, DateToken, HourToken, MinuteToken, SecondToken, QuarterToken, WeekdayToken]

  /** The names of the days of the week, indexed by getDay (0 is Sunday). */
  const WeekdayNames: string := "日一二三四五六"

  /** The number o holds under a numeric key. */
  function KeyValue(k: Token, d: int, t: TimeOfDay): int
    requires k != YearToken && k != WeekdayToken
  {
    match k
    case MonthToken => MonthIndex(d) + 1
    case DateToken => DayOfMonth(d)
    case HourToken => t.hours
    case MinuteToken => t.minutes
    case SecondToken => t.seconds
    case QuarterToken => (MonthIndex(d) + 3) / 3
  }

  /** How many copies of c open s. */
  function RunLength(s: string, c: char): (n: nat)
    ensures n <= |s|
  {
    if |s| > 0 && s[0] == c then 1 + RunLength(s[1..], c) else 0
  }

  /** The run is all copies of c and cannot be extended. */
  lemma {:induction false} RunLengthMaximal(s: string, c: char)
    ensures forall i :: 0 <= i < RunLength(s, c) ==> s[i] == c
    ensures RunLength(s, c) < |s| ==> s[RunLength(s, c)] != c
  {
    if |s| > 0 && s[0] == c {
      RunLengthMaximal(s[1..], c);
      assert forall i :: 1 <= i < |s| ==> s[i] == s[1..][i - 1];
    }
  }

  /** The length of the key's match at the start of s: the whole run for a key with +, one letter for W. */
  function MatchLength(k: Token, s: string): (n: nat)
    ensures |s| > 0 ==> n <= |s|
  {
    if k == WeekdayToken then 1 else RunLength(s, Letter(k))
  }

  /** What a match of n letters of key k becomes. */
  function Rendered(k: Token, n: nat, d: int, t: TimeOfDay): string
  {
    match k
    case YearToken => Substr(IntString(FullYear(d)), 4 - n)
    case WeekdayToken => [WeekdayNames[Weekday(d)]]
    case _ => var v := IntString(KeyValue(k, d, t)); if n == 1 then v else Padded(v)
  }

  /** format.replace(RegExp.$1, ...): the first match of the key in s is replaced; without one s is unchanged. */
  function ReplaceFirst(s: string, k: Token, d: int, t: TimeOfDay): string
  {
    if |s| == 0 then s
    else if s[0] == Letter(k) then
      var n := MatchLength(k, s);
      Rendered(k, n, d, t) + s[n..]
    else [s[0]] + ReplaceFirst(s[1..], k, d, t)
  }

  /** Each key of keys replaced in turn. */
  function ReplaceKeys(s: string, keys: seq<Token>, d: int, t: TimeOfDay): string
    decreases |keys|
  {
    if keys == [] then s else ReplaceKeys(ReplaceFirst(s, keys[0], d, t), keys[1..], d, t)
  }

  /** What format(date, template) returns: the year first, then the keys of o. */
  function Formatted(d: int, t: TimeOfDay, template: string): string
  {
    ReplaceKeys(ReplaceFirst(template, YearToken, d, t), Keys, d, t)
  }

  /** DateUtils.format: the template is reassigned once for the year and once per key of o that matches. */
  method Format(d: int, t: TimeOfDay, template: string) returns (r: string)
    ensures r == Formatted(d, t, template)
  {
    r := template;
    if Letter(YearToken) in r {
      r := ReplaceFirst(r, YearToken, d, t);
    } else {
      ReplaceFirstAbsent(r, YearToken, d, t);
    }
    for i := 0 to |Keys|
      invariant ReplaceKeys(r, Keys[i..], d, t) == Formatted(d, t, template)
    {
      assert Keys[i..][1..] == Keys[i + 1..];
      if Letter(Keys[i]) in r {
        r := ReplaceFirst(r, Keys[i], d, t);
      } else {
        ReplaceFirstAbsent(r, Keys[i], d, t);
      }
    }
  }

  // ----- replacing

  /** A template without the key's letter is left as it is. */
  lemma {:induction false} ReplaceFirstAbsent(s: string, k: Token, d: int, t: TimeOfDay)
    requires Letter(k) !in s
    ensures ReplaceFirst(s, k, d, t) == s
  {
    if |s| > 0 {
      assert forall i :: 0 <= i < |s[1..]| ==> s[1..][i] == s[i + 1];
      ReplaceFirstAbsent(s[1..], k, d, t);
    }
  }

  /**
   * The replacement with what is written left abstract: the first match of c in s
   * (a whole run when whole holds, one letter otherwise) becomes w of its length.
   */
  function ReplaceRun(s: string, c: char, whole: bool, w: nat -> string): string
  {
    if |s| == 0 then s
    else if s[0] == c then
      var n := if whole then RunLength(s, c) else 1;
      w(n) + s[n..]
    else [s[0]] + ReplaceRun(s[1..], c, whole, w)
  }

  /** What a match of n letters of key k becomes, as a function of n. */
  function Writer(k: Token, d: int, t: TimeOfDay): nat -> string
  {
    (n: nat) => Rendered(k, n, d, t)
  }

  /** ReplaceFirst is ReplaceRun with the key's letter, its kind of match and its writer. */
  lemma {:induction false} ReplaceFirstIsRun(s: string, k: Token, d: int, t: TimeOfDay)
    ensures ReplaceFirst(s, k, d, t) == ReplaceRun(s, Letter(k), k != WeekdayToken, Writer(k, d, t))
  {
    if |s| > 0 && s[0] != Letter(k) {
      ReplaceFirstIsRun(s[1..], k, d, t);
    }
  }

  /** The first match lies after a prefix without the letter. */
  lemma {:induction false} RunSkip(a: string, b: string, c: char, whole: bool, w: nat -> string)
    requires c !in a
    ensures ReplaceRun(a + b, c, whole, w) == a + ReplaceRun(b, c, whole, w)
  {
    ConsShapes(a, b, c);
    if |a| > 0 {
      RunSkip(a[1..], b, c, whole, w);
    }
  }

  /** How a + b looks from its first character, when c is not in a. */
  lemma ConsShapes(a: string, b: string, c: char)
    requires c !in a
    ensures |a| == 0 ==> a + b == b
    ensures |a| > 0 ==> (a + b)[0] == a[0] && a[0] != c && (a + b)[1..] == a[1..] + b && c !in a[1..]
  {
    if |a| > 0 {
      assert a[0] in a;
      assert forall i :: 0 <= i < |a[1..]| ==> a[1..][i] == a[i + 1];
    }
  }

  /** The first match lies after a prefix without the key's letter. */
  lemma ReplaceFirstSkip(a: string, b: string, k: Token, d: int, t: TimeOfDay)
    requires Letter(k) !in a
    ensures ReplaceFirst(a + b, k, d, t) == a + ReplaceFirst(b, k, d, t)
  {
    ReplaceFirstIsRun(a + b, k, d, t);
    ReplaceFirstIsRun(b, k, d, t);
    RunSkip(a, b, Letter(k), k != WeekdayToken, Writer(k, d, t));
  }

  /** The first match of the key opens b, after a prefix without its letter. */
  lemma ReplaceAfter(a: string, b: string, k: Token, d: int, t: TimeOfDay)
    requires Letter(k) !in a && |b| > 0 && b[0] == Letter(k)
    ensures ReplaceFirst(a + b, k, d, t) == a + Rendered(k, MatchLength(k, b), d, t) + b[MatchLength(k, b)..]
  {
    ReplaceFirstSkip(a, b, k, d, t);
  }

  /** One more key of the list. */
  lemma ReplaceKeysStep(s: string, i: nat, d: int, t: TimeOfDay)
    requires i < |Keys|
    ensures ReplaceKeys(s, Keys[i..], d, t) == ReplaceKeys(ReplaceFirst(s, Keys[i], d, t), Keys[i + 1..], d, t)
  {
    assert Keys[i..][0] == Keys[i] && Keys[i..][1..] == Keys[i + 1..];
  }

  predicate IsKeyLetter(c: char)
  {
    c == 'y' || c == 'M' || c == 'd' || c == 'h' || c == 'm' || c == 's' || c == 'q' || c == 'W'
  }

  /** Text holding no letter of any key. */
  predicate Inert(s: string)
  {
    forall i :: 0 <= i < |s| ==> !IsKeyLetter(s[i])
  }

  lemma InertAbsent(s: string, k: Token)
    requires Inert(s)
    ensures Letter(k) !in s
  {
    assert IsKeyLetter(Letter(k));
  }

  /** Keys whose letters the text does not hold leave it as it is. */
  lemma {:induction false} ReplaceKeysInert(s: string, keys: seq<Token>, d: int, t: TimeOfDay)
    requires Inert(s)
    ensures ReplaceKeys(s, keys, d, t) == s
    decreases |keys|
  {
    if keys != [] {
      InertAbsent(s, keys[0]);
      ReplaceFirstAbsent(s, keys[0], d, t);
      ReplaceKeysInert(s, keys[1..], d, t);
    }
  }

  /** Digits and minus signs only. */
  predicate IsSignedDigits(s: string)
  {
    forall i :: 0 <= i < |s| ==> s[i] == '-' || '0' <= s[i] <= '9'
  }

  lemma IntStringNumeral(n: int)
    ensures IsNumeral(IntString(n)) && IsSignedDigits(IntString(n)) && Inert(IntString(n))
  {
    if n < 0 {
      assert IntString(n)[1..] == NatString(-n);
    }
  }

  /** A template without any key letter comes back unchanged. */
  lemma FormatInert(d: int, t: TimeOfDay, template: string)
    requires Inert(template)
    ensures Formatted(d, t, template) == template
  {
    InertAbsent(template, YearToken);
    ReplaceFirstAbsent(template, YearToken, d, t);
    ReplaceKeysInert(template, Keys, d, t);
  }

  // ----- numerals

  /** DigitsValue reads back what NatString writes. */
  lemma {:induction false} NatStringRoundTrip(n: nat)
    ensures DigitsValue(NatString(n)) == n
  {
    var s := NatString(n);
    if n >= 10 {
      assert s[..|s| - 1] == NatString(n / 10);
      NatStringRoundTrip(n / 10);
    }
  }

  /** IntValue reads back what IntString writes. */
  lemma IntStringRoundTrip(n: int)
    ensures IsNumeral(IntString(n)) && IntValue(IntString(n)) == n
  {
    IntStringNumeral(n);
    var s := IntString(n);
    if n < 0 {
      assert s[0] == '-' && s[1..] == NatString(-n);
      NatStringRoundTrip(-n);
    } else {
      assert s[0] != '-';
      NatStringRoundTrip(n);
    }
  }

  /** Distinct numbers have distinct numerals. */
  lemma IntStringInjective(a: int, b: int)
    ensures IntString(a) == IntString(b) <==> a == b
  {
    IntStringRoundTrip(a);
    IntStringRoundTrip(b);
  }

  /** A year from 1000 to 9999 has four digits. */
  lemma FourDigits(n: int)
    requires 1000 <= n <= 9999
    ensures IntString(n) == NatString(n) && |IntString(n)| == 4
  {
    var n1, n2, n3 := n / 10, n / 10 / 10, n / 10 / 10 / 10;
    assert 100 <= n1 <= 999 && 10 <= n2 <= 99 && 1 <= n3 <= 9;
    assert |NatString(n3)| == 1;
    assert |NatString(n2)| == 2;
    assert |NatString(n1)| == 3;
  }

  /** A number below 10 is written with one digit, without padding. */
  lemma OneDigit(n: int)
    requires 0 <= n < 10
    ensures IntString(n) == [Digit(n)]
  {
  }

  /** A two-letter key writes a number from 0 to 99 as exactly two digits whose value is the number. */
  lemma PaddedTwoDigits(v: int)
    requires 0 <= v < 100
    ensures Padded(IntString(v)) == [Digit(v / 10), Digit(v % 10)]
    ensures IsDigits(Padded(IntString(v))) && DigitsValue(Padded(IntString(v))) == v
  {
    var p := Padded(IntString(v));
    if v < 10 {
      assert IntString(v) == [Digit(v)];
      assert "00" + IntString(v) == ['0', '0', Digit(v)];
      assert p == ['0', Digit(v)];
    } else {
      assert NatString(v / 10) == [Digit(v / 10)];
      assert IntString(v) == [Digit(v / 10), Digit(v % 10)];
      assert ("00" + IntString(v))[2..] == IntString(v);
    }
    assert p[..1] == [Digit(v / 10)];
    assert p[..1][..0] == [];
    assert DigitsValue(p[..1]) == v / 10;
  }

  // ----- what format returns

  /** What a year run of up to four letters or a numeric key writes holds no key letter, so later keys never match inside it. */
  lemma RenderedInert(k: Token, n: nat, d: int, t: TimeOfDay)
    requires k != WeekdayToken
    ensures Inert(Rendered(k, n, d, t))
  {
    if k == YearToken {
      var s := IntString(FullYear(d));
      IntStringNumeral(FullYear(d));
      SuffixInert(s, |s| - |Substr(s, 4 - n)|);
    } else {
      NumeralsInert(KeyValue(k, d, t));
    }
  }

  /** The plain and the padded numeral of a number hold no key letter. */
  lemma NumeralsInert(v: int)
    ensures Inert(IntString(v)) && Inert(Padded(IntString(v)))
  {
    var s := IntString(v);
    IntStringNumeral(v);
    ConcatInert("00", s);
    SuffixInert("00" + s, |"00" + s| - |Padded(s)|);
  }

  lemma SuffixInert(s: string, j: nat)
    requires Inert(s) && j <= |s|
    ensures Inert(s[j..])
  {
    assert forall i :: 0 <= i < |s| - j ==> s[j..][i] == s[j + i];
  }

  lemma ConcatInert(a: string, b: string)
    requires Inert(a) && Inert(b)
    ensures Inert(a + b)
  {
    assert forall i :: |a| <= i < |a + b| ==> (a + b)[i] == b[i - |a|];
  }

  /** The key at position i of the list meets its first match at the start of b. */
  lemma ReplaceKeyAt(a: string, b: string, i: nat, d: int, t: TimeOfDay)
    requires i < |Keys| && Inert(a) && |b| > 0 && b[0] == Letter(Keys[i])
    ensures ReplaceKeys(a + b, Keys[i..], d, t)
      == ReplaceKeys(a + Rendered(Keys[i], MatchLength(Keys[i], b), d, t) + b[MatchLength(Keys[i], b)..], Keys[i + 1..], d, t)
  {
    InertAbsent(a, Keys[i]);
    ReplaceAfter(a, b, Keys[i], d, t);
    ReplaceKeysStep(a + b, i, d, t);
  }

  /** The key at position i of the list does not occur in s. */
  lemma ReplaceKeyAbsent(s: string, i: nat, d: int, t: TimeOfDay)
    requires i < |Keys| && Letter(Keys[i]) !in s
    ensures ReplaceKeys(s, Keys[i..], d, t) == ReplaceKeys(s, Keys[i + 1..], d, t)
  {
    ReplaceFirstAbsent(s, Keys[i], d, t);
    ReplaceKeysStep(s, i, d, t);
  }

  /** A run of n copies of c, ended by the end of the text or another character, has length n. */
  lemma {:induction false} RunOfCopies(n: nat, c: char, rest: string)
    requires |rest| == 0 || rest[0] != c
    ensures RunLength(seq(n, _ => c) + rest, c) == n
  {
    if n > 0 {
      var s := seq(n, _ => c) + rest;
      assert s[1..] == seq(n - 1, _ => c) + rest;
      RunOfCopies(n - 1, c, rest);
    } else {
      assert seq(n, _ => c) + rest == rest;
    }
  }

  /** The year run of a template that opens with yyyy. */
  lemma YearOpens(d: int, t: TimeOfDay, rest: string)
    requires |rest| > 0 && rest[0] != 'y'
    ensures Formatted(d, t, "yyyy" + rest) == ReplaceKeys(IntString(FullYear(d)) + rest, Keys, d, t)
  {
    var template := "yyyy" + rest;
    assert "yyyy" == seq(4, _ => 'y');
    RunOfCopies(4, 'y', rest);
    ReplaceAfter([], template, YearToken, d, t);
    assert [] + template == template;
    assert template[4..] == rest;
  }

  /** A numeric key matched by more than one letter writes its number padded to two places. */
  lemma RenderedPadded(k: Token, n: nat, d: int, t: TimeOfDay)
    requires k != YearToken && k != WeekdayToken && n != 1
    ensures Rendered(k, n, d, t) == Padded(IntString(KeyValue(k, d, t)))
  {
  }

  /** A two-letter key at position i, between an inert head and a tail; v is what it writes. */
  lemma TwoLetterKey(head: string, tail: string, i: nat, v: string, d: int, t: TimeOfDay)
    requires 0 <= i < 5 && Inert(head) && (|tail| == 0 || tail[0] != Letter(Keys[i]))
    requires v == Padded(IntString(KeyValue(Keys[i], d, t)))
    ensures ReplaceKeys(head + [Letter(Keys[i]), Letter(Keys[i])] + tail, Keys[i..], d, t)
      == ReplaceKeys(head + v + tail, Keys[i + 1..], d, t)
  {
    var k := Keys[i];
    TwoCopies(head, Letter(k), tail);
    RunOfCopies(2, Letter(k), tail);
    RenderedPadded(k, 2, d, t);
    ReplaceKeyAt(head, [Letter(k), Letter(k)] + tail, i, d, t);
  }

  /** How a run of two copies of c regroups between head and tail. */
  lemma TwoCopies(head: string, c: char, tail: string)
    ensures [c, c] == seq(2, _ => c)
    ensures head + [c, c] + tail == head + ([c, c] + tail)
    ensures ([c, c] + tail)[2..] == tail && ([c, c] + tail)[0] == c
  {
  }

  /** How yyyy-MM-dd regroups around each key once the year is written. */
  lemma DefaultShapes(y: string, m: string, day: string)
    ensures DefaultTemplate == "yyyy" + "-MM-dd"
    ensures y + "-MM-dd" == (y + "-") + ['M', 'M'] + "-dd"
    ensures (y + "-") + m + "-dd" == (y + "-" + m + "-") + ['d', 'd'] + []
    ensures (y + "-" + m + "-") + day + [] == y + "-" + m + "-" + day
  {
  }

  /** The steps of yyyy-MM-dd after the year, on the texts the keys write. */
  lemma DefaultAfterYear(y: string, m: string, day: string, d: int, t: TimeOfDay)
    requires Inert(y) && Inert(m) && Inert(day)
    requires m == Padded(IntString(MonthIndex(d) + 1)) && day == Padded(IntString(DayOfMonth(d)))
    ensures ReplaceKeys(y + "-MM-dd", Keys, d, t) == y + "-" + m + "-" + day
  {
    DefaultShapes(y, m, day);
    TwoLetterKey(y + "-", "-dd", 0, m, d, t);
    TwoLetterKey(y + "-" + m + "-", [], 1, day, d, t);
    ReplaceKeysInert(y + "-" + m + "-" + day, Keys[2..], d, t);
  }

  /** The default template yyyy-MM-dd: the whole year, then month and day of the month zero-padded to two digits. */
  lemma FormatDefault(d: int, t: TimeOfDay)
    ensures Formatted(d, t, DefaultTemplate)
      == IntString(FullYear(d)) + "-" + Padded(IntString(MonthIndex(d) + 1)) + "-" + Padded(IntString(DayOfMonth(d)))
  {
    var y, m, day := IntString(FullYear(d)), Padded(IntString(MonthIndex(d) + 1)), Padded(IntString(DayOfMonth(d)));
    NumeralsInert(FullYear(d));
    NumeralsInert(MonthIndex(d) + 1);
    NumeralsInert(DayOfMonth(d));
    DefaultShapes(y, m, day);
    YearOpens(d, t, "-MM-dd");
    DefaultAfterYear(y, m, day, d, t);
  }

  /** Where the three numbers sit in year-month-day text. */
  lemma DashedParts(y: string, m: string, day: string)
    requires |y| == 4 && |m| == 2 && |day| == 2
    ensures var r := y + "-" + m + "-" + day;
      |r| == 10 && r[4] == '-' && r[7] == '-' && r[..4] == y && r[5..7] == m && r[8..] == day
  {
  }

  /** For a four-digit year, yyyy-MM-dd is ten characters whose three numbers read back as the year, month and day. */
  lemma FormatDefaultReadsBack(d: int, t: TimeOfDay)
    requires 1000 <= FullYear(d) <= 9999
    ensures var r := Formatted(d, t, DefaultTemplate);
      && |r| == 10 && r[4] == '-' && r[7] == '-'
      && IsDigits(r[..4]) && DigitsValue(r[..4]) == FullYear(d)
      && IsDigits(r[5..7]) && DigitsValue(r[5..7]) == MonthIndex(d) + 1
      && IsDigits(r[8..]) && DigitsValue(r[8..]) == DayOfMonth(d)
  {
    FormatDefault(d, t);
    FourDigits(FullYear(d));
    NatStringRoundTrip(FullYear(d));
    CivilParts(d);
    PaddedTwoDigits(MonthIndex(d) + 1);
    PaddedTwoDigits(DayOfMonth(d));
    DashedParts(IntString(FullYear(d)), Padded(IntString(MonthIndex(d) + 1)), Padded(IntString(DayOfMonth(d))));
  }

  /** The letters of the keys are distinct. */
  lemma LettersDistinct(i: nat, j: nat)
    requires i < |Keys| && j < |Keys| && i != j
    ensures Letter(Keys[i]) != Letter(Keys[j])
  {
  }

  /** The keys before position j of the list, none of which occurs in s, leave s alone. */
  lemma {:induction false} KeysAbsentBefore(s: string, j: nat, d: int, t: TimeOfDay)
    requires j <= |Keys|
    requires forall i :: 0 <= i < j ==> Letter(Keys[i]) !in s
    ensures ReplaceKeys(s, Keys, d, t) == ReplaceKeys(s, Keys[j..], d, t)
  {
    if j > 0 {
      KeysAbsentBefore(s, j - 1, d, t);
      ReplaceKeyAbsent(s, j - 1, d, t);
    }
  }

  /** A template of one letter of a numeric key writes the plain number. */
  lemma OneLetterKey(i: nat, d: int, t: TimeOfDay)
    requires i < 6
    ensures Formatted(d, t, [Letter(Keys[i])]) == IntString(KeyValue(Keys[i], d, t))
  {
    var s := [Letter(Keys[i])];
    ReplaceFirstAbsent(s, YearToken, d, t);
    forall j | 0 <= j < i
      ensures Letter(Keys[j]) !in s
    {
      LettersDistinct(i, j);
    }
    KeysAbsentBefore(s, i, d, t);
    ReplaceKeyAt([], s, i, d, t);
    assert [] + s == s;
    var v := IntString(KeyValue(Keys[i], d, t));
    assert [] + v + s[1..] == v;
    RenderedInert(Keys[i], 1, d, t);
    ReplaceKeysInert(v, Keys[i + 1..], d, t);
  }

  /** A one-letter key is not padded: format(d, 'M') and format(d, 'd') are the plain numbers. */
  lemma FormatOneLetter(d: int, t: TimeOfDay)
    ensures Formatted(d, t, "M") == IntString(MonthIndex(d) + 1)
    ensures Formatted(d, t, "d") == IntString(DayOfMonth(d))
    ensures DayOfMonth(d) < 10 ==> |Formatted(d, t, "d")| == 1
  {
    OneLetterKey(0, d, t);
    OneLetterKey(1, d, t);
    assert [Letter(Keys[0])] == "M" && [Letter(Keys[1])] == "d";
    if DayOfMonth(d) < 10 {
      CivilParts(d);
      OneDigit(DayOfMonth(d));
    }
  }

  /** format(d, 'W') is the name of d's day of the week, indexed by getDay. */
  lemma FormatWeekday(d: int, t: TimeOfDay)
    ensures Formatted(d, t, "W") == [WeekdayNames[Weekday(d)]]
    ensures IsoWeekday(d) == 4 ==> Formatted(d, t, "W") == "四"
    ensures IsoWeekday(d) == 7 ==> Formatted(d, t, "W") == "日"
  {
    WeekdayLetter(d, t);
    assert IsoWeekday(d) == 4 ==> Weekday(d) == 4;
    assert IsoWeekday(d) == 7 ==> Weekday(d) == 0;
  }

  lemma WeekdayLetter(d: int, t: TimeOfDay)
    ensures Formatted(d, t, "W") == [WeekdayNames[Weekday(d)]]
  {
    var s := "W";
    ReplaceFirstAbsent(s, YearToken, d, t);
    KeysAbsentBefore(s, 6, d, t);
    ReplaceKeyAt([], s, 6, d, t);
    assert [] + s == s;
    assert Keys[7..] == [];
    var w := [WeekdayNames[Weekday(d)]];
    assert [] + w + s[1..] == w;
  }

  /** How hh:mm:ss regroups around each key. */
  lemma TimeShapes(h: string, m: string, s: string)
    ensures 'y' !in "hh:mm:ss" && 'M' !in "hh:mm:ss" && 'd' !in "hh:mm:ss"
    ensures "hh:mm:ss" == [] + ['h', 'h'] + ":mm:ss"
    ensures [] + h + ":mm:ss" == (h + ":") + ['m', 'm'] + ":ss"
    ensures (h + ":") + m + ":ss" == (h + ":" + m + ":") + ['s', 's'] + []
    ensures (h + ":" + m + ":") + s + [] == h + ":" + m + ":" + s
  {
  }

  /** The steps of hh:mm:ss, on the texts the keys write. */
  lemma TimeSteps(h: string, m: string, s: string, d: int, t: TimeOfDay)
    requires Inert(h) && Inert(m) && Inert(s)
    requires h == Padded(IntString(t.hours)) && m == Padded(IntString(t.minutes)) && s == Padded(IntString(t.seconds))
    ensures ReplaceKeys("hh:mm:ss", Keys[2..], d, t) == h + ":" + m + ":" + s
  {
    HoursStep(h, d, t);
    MinutesStep(h, m, d, t);
    SecondsStep(h, m, s, d, t);
  }

  /** hh is replaced by the hours text. */
  lemma HoursStep(h: string, d: int, t: TimeOfDay)
    requires h == Padded(IntString(t.hours))
    ensures ReplaceKeys("hh:mm:ss", Keys[2..], d, t) == ReplaceKeys((h + ":") + ['m', 'm'] + ":ss", Keys[3..], d, t)
  {
    TimeShapes(h, [], []);
    TwoLetterKey([], ":mm:ss", 2, h, d, t);
  }

  /** mm is replaced by the minutes text. */
  lemma MinutesStep(h: string, m: string, d: int, t: TimeOfDay)
    requires Inert(h) && m == Padded(IntString(t.minutes))
    ensures ReplaceKeys((h + ":") + ['m', 'm'] + ":ss", Keys[3..], d, t) == ReplaceKeys((h + ":" + m + ":") + ['s', 's'] + [], Keys[4..], d, t)
  {
    TimeShapes(h, m, []);
    assert Inert(":");
    ConcatInert(h, ":");
    TwoLetterKey(h + ":", ":ss", 3, m, d, t);
  }

  /** ss is replaced by the seconds text, and no later key occurs. */
  lemma SecondsStep(h: string, m: string, s: string, d: int, t: TimeOfDay)
    requires Inert(h) && Inert(m) && Inert(s) && s == Padded(IntString(t.seconds))
    ensures ReplaceKeys((h + ":" + m + ":") + ['s', 's'] + [], Keys[4..], d, t) == h + ":" + m + ":" + s
  {
    TimeShapes(h, m, s);
    assert Inert(":");
    ConcatInert(h, ":");
    ConcatInert(h + ":", m);
    ConcatInert(h + ":" + m, ":");
    ConcatInert(h + ":" + m + ":", s);
    TwoLetterKey(h + ":" + m + ":", [], 4, s, d, t);
    ReplaceKeysInert(h + ":" + m + ":" + s, Keys[5..], d, t);
  }

  /** Neither the year nor the first two keys occur in hh:mm:ss. */
  lemma TimeBeforeHours(d: int, t: TimeOfDay)
    ensures Formatted(d, t, "hh:mm:ss") == ReplaceKeys("hh:mm:ss", Keys[2..], d, t)
  {
    var s0 := "hh:mm:ss";
    TimeShapes([], [], []);
    ReplaceFirstAbsent(s0, YearToken, d, t);
    ReplaceKeyAbsent(s0, 0, d, t);
    ReplaceKeyAbsent(s0, 1, d, t);
  }

  /** hh:mm:ss writes hours, minutes and seconds each through the two-letter rule. */
  lemma FormatTimeParts(d: int, t: TimeOfDay)
    ensures Formatted(d, t, "hh:mm:ss") == Padded(IntString(t.hours)) + ":" + Padded(IntString(t.minutes)) + ":" + Padded(IntString(t.seconds))
  {
    TimeBeforeHours(d, t);
    NumeralsInert(t.hours);
    NumeralsInert(t.minutes);
    NumeralsInert(t.seconds);
    TimeSteps(Padded(IntString(t.hours)), Padded(IntString(t.minutes)), Padded(IntString(t.seconds)), d, t);
  }

  /** Three two-digit parts joined by colons. */
  lemma ColonParts(h: string, m: string, s: string)
    requires |h| == 2 && |m| == 2 && |s| == 2
    ensures h + ":" + m + ":" + s == [h[0], h[1], ':', m[0], m[1], ':', s[0], s[1]]
  {
  }

  /** hh:mm:ss writes each part of a valid time of day as two digits. */
  lemma FormatTime(d: int, t: TimeOfDay)
    requires 0 <= t.hours < 24 && 0 <= t.minutes < 60 && 0 <= t.seconds < 60
    ensures Formatted(d, t, "hh:mm:ss")
      == [Digit(t.hours / 10), Digit(t.hours % 10), ':', Digit(t.minutes / 10), Digit(t.minutes % 10), ':', Digit(t.seconds / 10), Digit(t.seconds % 10)]
  {
    FormatTimeParts(d, t);
    PaddedTwoDigits(t.hours);
    PaddedTwoDigits(t.minutes);
    PaddedTwoDigits(t.seconds);
    ColonParts(Padded(IntString(t.hours)), Padded(IntString(t.minutes)), Padded(IntString(t.seconds)));
  }

  /** yyyy writes the whole numeral of the year. */
  lemma FormatFullYear(d: int, t: TimeOfDay)
    ensures Formatted(d, t, "yyyy") == IntString(FullYear(d))
  {
    var y := IntString(FullYear(d));
    assert "yyyy" == seq(4, _ => 'y') + [];
    RunOfCopies(4, 'y', []);
    ReplaceAfter([], "yyyy", YearToken, d, t);
    assert [] + "yyyy" == "yyyy";
    assert [] + y + "yyyy"[4..] == y;
    RenderedInert(YearToken, 4, d, t);
    ReplaceKeysInert(y, Keys, d, t);
  }

  /** The y run takes the year's numeral from position 4 - |run|: yy gives the last two digits of a four-digit year. */
  lemma FormatShortYear(d: int, t: TimeOfDay)
    requires 1000 <= FullYear(d) <= 9999
    ensures Formatted(d, t, "yy") == IntString(FullYear(d))[2..]
  {
    var y := IntString(FullYear(d));
    FourDigits(FullYear(d));
    assert "yy" == seq(2, _ => 'y') + [];
    RunOfCopies(2, 'y', []);
    ReplaceAfter([], "yy", YearToken, d, t);
    assert [] + "yy" == "yy";
    assert [] + y[2..] + "yy"[2..] == y[2..];
    RenderedInert(YearToken, 2, d, t);
    ReplaceKeysInert(y[2..], Keys, d, t);
  }

  /** How yyyy年MM月 regroups around the month once the year is written. */
  lemma MonthLabelShapes(y: string, m: string)
    ensures "yyyy年MM月" == "yyyy" + "年MM月"
    ensures y + "年MM月" == (y + "年") + ['M', 'M'] + "月"
    ensures (y + "年") + m + "月" == y + "年" + m + "月"
  {
  }

  /** The steps of yyyy年MM月 after the year, on the texts the keys write. */
  lemma MonthLabelAfterYear(y: string, m: string, d: int, t: TimeOfDay)
    requires Inert(y) && Inert(m) && m == Padded(IntString(MonthIndex(d) + 1))
    ensures ReplaceKeys(y + "年MM月", Keys, d, t) == y + "年" + m + "月"
  {
    MonthLabelShapes(y, m);
    TwoLetterKey(y + "年", "月", 0, m, d, t);
    ReplaceKeysInert(y + "年" + m + "月", Keys[1..], d, t);
  }

  /** The header's upper label in the Day and Week views, yyyy年MM月. */
  lemma FormatMonthLabel(d: int, t: TimeOfDay)
    ensures Formatted(d, t, "yyyy年MM月") == IntString(FullYear(d)) + "年" + Padded(IntString(MonthIndex(d) + 1)) + "月"
  {
    var y, m := IntString(FullYear(d)), Padded(IntString(MonthIndex(d) + 1));
    NumeralsInert(FullYear(d));
    NumeralsInert(MonthIndex(d) + 1);
    MonthLabelShapes(y, m);
    YearOpens(d, t, "年MM月");
    MonthLabelAfterYear(y, m, d, t);
  }

  /** Two texts split at a marker that neither head holds split the same way. */
  lemma SplitAtMarker(a1: string, b1: string, a2: string, b2: string, c: char)
    requires c !in a1 && c !in a2
    requires a1 + [c] + b1 == a2 + [c] + b2
    ensures a1 == a2 && b1 == b2
  {
    var s := a1 + [c] + b1;
    assert forall i :: 0 <= i < |a1| ==> s[i] == a1[i];
    assert forall i :: 0 <= i < |a2| ==> s[i] == a2[i];
    assert s[|a1|] == c && s[|a2|] == c;
    assert |a1| == |a2|;
    assert a1 == s[..|a1|] && a2 == s[..|a2|];
    assert b1 == s[|a1| + 1..] && b2 == s[|a2| + 1..];
  }

  lemma LabelRegroup(y: string, m: string)
    ensures y + "年" + m + "月" == y + ['年'] + (m + "月")
  {
  }

  /** Month labels with equal text have equal year numerals and equal month digits. */
  lemma LabelParts(ya: string, ma: string, yb: string, mb: string)
    requires IsSignedDigits(ya) && IsSignedDigits(yb) && |ma| == 2 && |mb| == 2
    requires ya + "年" + ma + "月" == yb + "年" + mb + "月"
    ensures ya == yb && ma == mb
  {
    assert forall i :: 0 <= i < |ya| ==> ya[i] != '年';
    assert forall i :: 0 <= i < |yb| ==> yb[i] != '年';
    LabelRegroup(ya, ma);
    LabelRegroup(yb, mb);
    SplitAtMarker(ya, ma + "月", yb, mb + "月", '年');
    assert ma == (ma + "月")[..2] && mb == (mb + "月")[..2];
  }

  /** Equal month labels come from equal years and equal months. */
  lemma SameLabelSameMonth(y1: int, m1: int, y2: int, m2: int)
    requires 1 <= m1 <= 12 && 1 <= m2 <= 12
    requires IntString(y1) + "年" + Padded(IntString(m1)) + "月" == IntString(y2) + "年" + Padded(IntString(m2)) + "月"
    ensures y1 == y2 && m1 == m2
  {
    IntStringNumeral(y1);
    IntStringNumeral(y2);
    LabelParts(IntString(y1), Padded(IntString(m1)), IntString(y2), Padded(IntString(m2)));
    IntStringInjective(y1, y2);
    PaddedTwoDigits(m1);
    PaddedTwoDigits(m2);
  }

  /**
   * Two dates get the same yyyy年MM月 label exactly when they fall in the same
   * month, which is why the header keeps the month number as the label.
   */
  lemma MonthLabelsDistinguishMonths(a: int, b: int, t: TimeOfDay)
    ensures Formatted(a, t, "yyyy年MM月") == Formatted(b, t, "yyyy年MM月") <==> MonthNumber(a) == MonthNumber(b)
  {
    FormatMonthLabel(a, t);
    FormatMonthLabel(b, t);
    LabelTextIffMonth(a, b);
  }

  /** The label text of two dates, written out, agrees exactly when their months do. */
  lemma LabelTextIffMonth(a: int, b: int)
    ensures IntString(FullYear(a)) + "年" + Padded(IntString(MonthIndex(a) + 1)) + "月"
         == IntString(FullYear(b)) + "年" + Padded(IntString(MonthIndex(b) + 1)) + "月"
        <==> MonthNumber(a) == MonthNumber(b)
  {
    CivilParts(a);
    CivilParts(b);
    if IntString(FullYear(a)) + "年" + Padded(IntString(MonthIndex(a) + 1)) + "月"
       == IntString(FullYear(b)) + "年" + Padded(IntString(MonthIndex(b) + 1)) + "月" {
      SameLabelSameMonth(FullYear(a), MonthIndex(a) + 1, FullYear(b), MonthIndex(b) + 1);
    }
  }
}

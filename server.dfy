/**
 * The display-formatting helpers of the journal server: the ordinal suffix
 * of a day, the English month name, the normalised time text, the display
 * date of an entry and its random pastel colour.
 *
 * Inputs that JavaScript takes from the clock, the locale data or
 * `Math.random()` are parameters here: the day of the month, the 0-based
 * month and the full year of the creation instant, the en-US locale time
 * text, and the two random draws already scaled and floored to integers.
 */
module Server {
  import opened Wrappers
  import opened Decimal
  import opened Css

  // ---------------------------------------------------------------------
  // Ordinal suffix of a day
  // ---------------------------------------------------------------------

  /** JavaScript's `a % 10`: truncating division, so the remainder has the sign of `a`. */
  function JsRem10(a: int): (r: int)
    ensures -10 < r < 10
    ensures a >= 0 ==> r >= 0
    ensures a <= 0 ==> r <= 0
    ensures (a - r) % 10 == 0
  {
    if a >= 0 then a % 10 else -((-a) % 10)
  }

  /**
   * `getOrdinalSuffix`: 11, 12 and 13 take "th"; otherwise the last decimal
   * digit of a positive day picks "st", "nd" or "rd", and everything else,
   * including every negative number (whose JavaScript remainder is not
   * positive), takes "th".
   */
  function OrdinalSuffix(day: int): (r: string)
    ensures r == "st" <==> day > 0 && day % 10 == 1 && day != 11
    ensures r == "nd" <==> day > 0 && day % 10 == 2 && day != 12
    ensures r == "rd" <==> day > 0 && day % 10 == 3 && day != 13
    ensures r == "th" <==> !(day > 0 && 1 <= day % 10 <= 3) || 11 <= day <= 13
    ensures |r| == 2 && 'a' <= r[0] <= 'z'
  {
    if 11 <= day <= 13 then
      "th"
    else
      match JsRem10(day)
      case 1 => "st"
      case 2 => "nd"
      case 3 => "rd"
      case _ => "th"
  }

  /** The suffixes of the days of a calendar month, as English writes them. */
  lemma CalendarDaySuffixes(day: int)
    requires 1 <= day <= 31
    ensures day in {1, 21, 31} ==> OrdinalSuffix(day) == "st"
    ensures day in {2, 22} ==> OrdinalSuffix(day) == "nd"
    ensures day in {3, 23} ==> OrdinalSuffix(day) == "rd"
    ensures day !in {1, 2, 3, 21, 22, 23, 31} ==> OrdinalSuffix(day) == "th"
  {
  }

  // ---------------------------------------------------------------------
  // Month names
  // ---------------------------------------------------------------------

  const MonthNames: seq<string> := [
    "January", "February", "March", "April", "May", "June",
    "July", "August", "September", "October", "November", "December"
  ]

  predicate IsUpperAscii(c: char) {
    'A' <= c <= 'Z'
  }

  /** The first position of `x` in `xs`. */
  function IndexOf(xs: seq<string>, x: string): (r: Option<nat>)
    ensures r.Some? ==> r.value < |xs| && xs[r.value] == x
    ensures r.Some? ==> forall j :: 0 <= j < r.value ==> xs[j] != x
    ensures r.None? <==> x !in xs
  {
    if xs == [] then None
    else if xs[0] == x then Some(0)
    else
      match IndexOf(xs[1..], x)
      case None => None
      case Some(k) => Some(k + 1)
  }

  /** The month number of an English month name: the reader of `MonthName`. */
  function MonthIndex(name: string): Option<nat> {
    IndexOf(MonthNames, name)
  }

  lemma MonthNamesDistinct(i: int, j: int)
    requires 0 <= i < 12 && 0 <= j < 12 && i != j
    ensures MonthNames[i] != MonthNames[j]
  {
  }

  lemma MonthNameShape(month: int)
    requires 0 <= month < 12
    ensures |MonthNames[month]| >= 3 && IsUpperAscii(MonthNames[month][0])
    ensures ' ' !in MonthNames[month]
  {
  }

  lemma MonthIndexOfName(month: int)
    requires 0 <= month < 12
    ensures MonthIndex(MonthNames[month]) == Some(month)
  {
    var r := MonthIndex(MonthNames[month]);
    assert r.Some?;
    if r.value != month {
      MonthNamesDistinct(r.value, month);
    }
  }

  /**
   * `getMonthName`: the English name of the 0-based month, January first.
   * Each name is one capitalised word, and no two months share a name.
   */
  function MonthName(month: int): (r: string)
    requires 0 <= month < 12
    ensures |r| >= 3 && IsUpperAscii(r[0]) && ' ' !in r
    ensures MonthIndex(r) == Some(month)
  {
    MonthNameShape(month);
    MonthIndexOfName(month);
    MonthNames[month]
  }

  // ---------------------------------------------------------------------
  // Time text normalisation: `.replace(/\s/g, "").toLowerCase()`
  // ---------------------------------------------------------------------

  /**
   * The characters JavaScript's `\s` matches: the ECMAScript WhiteSpace and
   * LineTerminator code points, among them U+202F, which current locale
   * data puts between the minutes and "AM"/"PM".
   */
  predicate IsJsWhitespace(c: char) {
    var u := c as int;
    u == 0x09 || u == 0x0A || u == 0x0B || u == 0x0C || u == 0x0D || u == 0x20
    || u == 0xA0 || u == 0x1680 || (0x2000 <= u <= 0x200A) || u == 0x2028
    || u == 0x2029 || u == 0x202F || u == 0x205F || u == 0x3000 || u == 0xFEFF
  }

  predicate NoWhitespace(s: string) {
    forall i :: 0 <= i < |s| ==> !IsJsWhitespace(s[i])
  }

  predicate NoUpperAscii(s: string) {
    forall i :: 0 <= i < |s| ==> !IsUpperAscii(s[i])
  }

  /** `.replace(/\s/g, "")`: every whitespace character removed, the rest kept in order. */
  function StripWhitespace(s: string): (r: string)
    ensures NoWhitespace(r)
    ensures forall c :: c in r <==> c in s && !IsJsWhitespace(c)
    ensures |r| <= |s|
    ensures NoWhitespace(s) ==> r == s
  {
    if s == [] then []
    else if IsJsWhitespace(s[0]) then StripWhitespace(s[1..])
    else [s[0]] + StripWhitespace(s[1..])
  }

  lemma {:induction false} StripWhitespaceAppend(a: string, b: string)
    ensures StripWhitespace(a + b) == StripWhitespace(a) + StripWhitespace(b)
    decreases |a|
  {
    if a != [] {
      assert (a + b)[1..] == a[1..] + b;
      StripWhitespaceAppend(a[1..], b);
    } else {
      assert a + b == b;
    }
  }

  /** `toLowerCase` on one character, for the letters A to Z. */
  function LowerAscii(c: char): (r: char)
    ensures !IsUpperAscii(r)
    ensures IsUpperAscii(c) ==> r as int == c as int + 32
    ensures !IsUpperAscii(c) ==> r == c
    ensures IsJsWhitespace(r) <==> IsJsWhitespace(c)
  {
    if IsUpperAscii(c) then (c as int + 32) as char else c
  }

  /** `.toLowerCase()`: every letter A to Z replaced by its lower-case letter. */
  function LowerAsciiString(s: string): (r: string)
    ensures |r| == |s|
    ensures forall i :: 0 <= i < |s| ==> r[i] == LowerAscii(s[i])
    ensures NoUpperAscii(r)
    ensures NoUpperAscii(s) ==> r == s
  {
    seq(|s|, i requires 0 <= i < |s| => LowerAscii(s[i]))
  }

  /** The normalisation `formatTime` and `formatDate` apply to the locale time text. */
  function NormalizeTime(text: string): (r: string)
    ensures NoWhitespace(r) && NoUpperAscii(r)
    ensures |r| <= |text|
  {
    LowerAsciiString(StripWhitespace(text))
  }

  lemma NormalizeTimeIdempotent(text: string)
    ensures NormalizeTime(NormalizeTime(text)) == NormalizeTime(text)
  {
  }

  lemma LowerAsciiStringAppend(a: string, b: string)
    ensures LowerAsciiString(a + b) == LowerAsciiString(a) + LowerAsciiString(b)
  {
    var l, la, lb := LowerAsciiString(a + b), LowerAsciiString(a), LowerAsciiString(b);
    assert forall i :: 0 <= i < |l| ==> l[i] == (la + lb)[i] by {
      forall i | 0 <= i < |l| ensures l[i] == (la + lb)[i] {
        if i < |a| { assert (a + b)[i] == a[i]; } else { assert (a + b)[i] == b[i - |a|]; }
      }
    }
  }

  /** Stripping and lower-casing can be done in either order. */
  lemma {:induction false} StripLowerCommute(s: string)
    ensures LowerAsciiString(StripWhitespace(s)) == StripWhitespace(LowerAsciiString(s))
    decreases |s|
  {
    if s != [] {
      var h, t := s[0], s[1..];
      assert s == [h] + t;
      LowerAsciiStringAppend([h], t);
      var l := LowerAsciiString(s);
      assert LowerAsciiString([h]) == [LowerAscii(h)];
      assert l == [LowerAscii(h)] + LowerAsciiString(t);
      assert l[0] == LowerAscii(h) && l[1..] == LowerAsciiString(t);
      StripLowerCommute(t);
      if !IsJsWhitespace(h) {
        LowerAsciiStringAppend([h], StripWhitespace(t));
      }
    }
  }

  /** The normalisation works character by character, so it distributes over concatenation. */
  lemma NormalizeTimeAppend(a: string, b: string)
    ensures NormalizeTime(a + b) == NormalizeTime(a) + NormalizeTime(b)
  {
    StripWhitespaceAppend(a, b);
    LowerAsciiStringAppend(StripWhitespace(a), StripWhitespace(b));
  }

  /** `formatTime`: the en-US locale time text, normalised. */
  function FormatTime(localeTime: string): (r: string)
    ensures NoWhitespace(r) && NoUpperAscii(r)
    ensures r == NormalizeTime(localeTime)
  {
    NormalizeTime(localeTime)
  }

  // ---------------------------------------------------------------------
  // Display date
  // ---------------------------------------------------------------------

  lemma DropAppend<T>(a: seq<T>, b: seq<T>)
    ensures (a + b)[|a|..] == b
  {
  }

  lemma AppendAssociates<T>(a: seq<T>, b: seq<T>, c: seq<T>, d: seq<T>, e: seq<T>, f: seq<T>, g: seq<T>)
    ensures a + b + c + d + e + f + g == a + (b + (c + (d + (e + (f + g)))))
  {
  }

  // ---------------------------------------------------------------------
  // ---------------------------------------------------------------------

  /**
   * `formatDate`: "{day}{suffix} {Month} {year}, {time}". `day` and `month`
   * are what `getDate` (1 to 31) and `getMonth` (0 to 11) return.
   */
  function FormatDate(day: int, month: int, year: int, localeTime: string): (r: string)
    requires 1 <= day <= 31 && 0 <= month < 12
    ensures NatToString(day) <= r
    ensures |r| >= |NatToString(day)| + 2 + |FormatTime(localeTime)|
    ensures r[|r| - |FormatTime(localeTime)| - 2..] == ", " + FormatTime(localeTime)
  {
    var dayWithSuffix := NatToString(day) + OrdinalSuffix(day);
    var timeWithoutSpace := NormalizeTime(localeTime);
    var head := dayWithSuffix + " " + MonthName(month) + " " + IntToString(year);
    DropAppend(head, ", " + timeWithoutSpace);
    AppendAssociates(NatToString(day), OrdinalSuffix(day), " ", MonthName(month), " ",
      IntToString(year), ", " + timeWithoutSpace);
    head + (", " + timeWithoutSpace)
  }

  datatype DateParts = DateParts(day: int, month: nat, year: int, time: string)

  /** Splits at the first space. */
  function SplitAtSpace(s: string): (r: Option<(string, string)>)
    ensures r.Some? ==> s == r.value.0 + (" " + r.value.1) && ' ' !in r.value.0
    ensures r.None? <==> ' ' !in s
  {
    if s == [] then None
    else if s[0] == ' ' then Some(([], s[1..]))
    else
      match SplitAtSpace(s[1..])
      case None => None
      case Some(p) => Some(([s[0]] + p.0, p.1))
  }

  lemma {:induction false} SplitAtSpaceOf(a: string, b: string)
    requires ' ' !in a
    ensures SplitAtSpace(a + (" " + b)) == Some((a, b))
    decreases |a|
  {
    if a != [] {
      assert (a + (" " + b))[1..] == a[1..] + (" " + b);
      SplitAtSpaceOf(a[1..], b);
      assert [a[0]] + a[1..] == a;
    } else {
      assert a + (" " + b) == " " + b;
    }
  }

  /** Reads a display date back into its day, month, year and time text. */
  function ParseDate(s: string): (r: Option<DateParts>)
    ensures r.Some? ==> r.value.day >= 0 && r.value.month < 12
    ensures r.Some? ==>
              s == NatToString(r.value.day) + (OrdinalSuffix(r.value.day) + (" " + (MonthNames[r.value.month]
                     + (" " + (IntToString(r.value.year) + (", " + r.value.time))))))
  {
    var d :- ReadNat(s);
    var s1 :- DropPrefix(OrdinalSuffix(d.value), d.rest);
    var s2 :- DropPrefix(" ", s1);
    var ms :- SplitAtSpace(s2);
    var m :- MonthIndex(ms.0);
    var y :- ReadInt(ms.1);
    var t :- DropPrefix(", ", y.rest);
    assert MonthNames[m] == ms.0;
    Some(DateParts(d.value, m, y.value, t))
  }

  /** The display date determines the day, the month, the year and the normalised time. */
  lemma {:induction false} FormatDateRoundTrip(day: int, month: int, year: int, localeTime: string)
    requires 1 <= day <= 31 && 0 <= month < 12
    ensures ParseDate(FormatDate(day, month, year, localeTime))
      == Some(DateParts(day, month, year, FormatTime(localeTime)))
  {
    var suffix, name := OrdinalSuffix(day), MonthName(month);
    var t := NormalizeTime(localeTime);
    var tail4 := ", " + t;
    var tail3 := IntToString(year) + tail4;
    var tail2 := name + (" " + tail3);
    var tail1 := " " + tail2;
    AppendAssociates(NatToString(day), suffix, " ", name, " ", IntToString(year), tail4);
    ReadNatOfNatToString(day, suffix + tail1);
    DropPrefixOf(suffix, tail1);
    DropPrefixOf(" ", tail2);
    SplitAtSpaceOf(name, tail3);
    ReadIntOfIntToString(year, tail4);
    DropPrefixOf(", ", t);
  }

  lemma FormatDateInjective(d1: int, m1: int, y1: int, t1: string, d2: int, m2: int, y2: int, t2: string)
    requires 1 <= d1 <= 31 && 0 <= m1 < 12 && 1 <= d2 <= 31 && 0 <= m2 < 12
    ensures FormatDate(d1, m1, y1, t1) == FormatDate(d2, m2, y2, t2)
      ==> d1 == d2 && m1 == m2 && y1 == y2 && FormatTime(t1) == FormatTime(t2)
  {
    FormatDateRoundTrip(d1, m1, y1, t1);
    FormatDateRoundTrip(d2, m2, y2, t2);
  }

  /** The time `formatTime` stores is the tail of the date `formatDate` stores for the same text. */
  lemma FormatTimeEndsFormatDate(day: int, month: int, year: int, localeTime: string)
    requires 1 <= day <= 31 && 0 <= month < 12
    ensures exists head :: FormatDate(day, month, year, localeTime) == head + (", " + FormatTime(localeTime))
  {
    var r := FormatDate(day, month, year, localeTime);
    var tail := ", " + FormatTime(localeTime);
    var head := r[..|r| - |tail|];
    assert r == head + r[|r| - |tail|..];
  }

  // ---------------------------------------------------------------------
  // Pastel colour
  // ---------------------------------------------------------------------

  /** A pastel colour: `hsl(H, 50%, L%)` with 0 <= H < 360 and 80 <= L < 90. */
  predicate IsPastel(s: string) {
    match ParseHsl(s)
    case None => false
    case Some(c) => c.hue < 360 && c.saturation == 50 && 80 <= c.lightness < 90
  }

  /**
   * `generateRandomPastelColor`, given its two draws: `hueDraw` is
   * floor(random * 360) and `lightDraw` is floor(random * 10).
   */
  function PastelColor(hueDraw: int, lightDraw: int): (r: string)
    requires 0 <= hueDraw < 360 && 0 <= lightDraw < 10
    ensures ParseHsl(r) == Some(Hsl(hueDraw, 50, 80 + lightDraw))
    ensures IsPastel(r)
  {
    var hue := hueDraw;
    var lightness := 80 + lightDraw;
    var r := "hsl(" + (NatToString(hue) + (", 50%, " + (NatToString(lightness) + "%)")));
    assert NatToString(50) == "50";
    assert r == HslText(Hsl(hue, 50, lightness));
    ParseHslText(Hsl(hue, 50, lightness));
    r
  }

  /** Every pastel colour string is produced by some pair of draws. */
  lemma PastelColorOnto(s: string)
    requires IsPastel(s)
    ensures exists h, k :: 0 <= h < 360 && 0 <= k < 10 && PastelColor(h, k) == s
  {
    var c := ParseHsl(s).value;
    var h, k := c.hue, c.lightness - 80;
    assert PastelColor(h, k) == HslText(c);
  }
}

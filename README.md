# Journal server display helpers, in Dafny

The journal server stamps every new diary entry with three display strings:
a pastel colour, a display date and a display time. This project models the
helpers in `server.js` that build those strings, as pure Dafny functions,
and proves what each output looks like.

- `Server.OrdinalSuffix` is `getOrdinalSuffix`. `Server.JsRem10` is JavaScript's truncating `day % 10`.
- `Server.MonthName` is `getMonthName`. `Server.MonthIndex` is its reader.
- `Server.NormalizeTime` is the `.replace(/\s/g, "").toLowerCase()` step.
  `formatTime` and `formatDate` both apply it, each to its own en-US locale text:
  `formatTime` to the result of `toLocaleTimeString` (server.js:131) and
  `formatDate` to the result of `toLocaleString` with `hour12: true` (server.js:144).
  The model takes the two texts as separate inputs.
  It is built from `Server.StripWhitespace` and `Server.LowerAsciiString`.
- `Server.FormatTime` and `Server.FormatDate` are `formatTime` and `formatDate`.
- `Server.PastelColor` is `generateRandomPastelColor`.
- `Decimal` holds the decimal text that a template literal gives a whole number (`${n}`)
  of magnitude below 10^21.
  It also holds a reader for that text.
- `Css` holds the integer `hsl(H, S%, L%)` notation of CSS Color Module Level 3,
  section 4.2.4, and its reader.

Inputs that JavaScript takes from the clock, the time zone, the locale data
or `Math.random()` are parameters:

- the day of the month (what `getDate` returns, 1 to 31);
- the 0-based month (what `getMonth` returns, 0 to 11);
- the full year;
- the two locale time texts, one for `formatTime` and one for `formatDate`;
- the two random draws, already floored to integers: `hueDraw` in [0, 360) and `lightDraw` in [0, 10).
  The lightness is 80 + `lightDraw`.

The code asks the locale for a two-digit hour ("02:15 PM", normalised to
"02:15pm"); the model takes the locale text as given.

Each formatter has a reader beside it. The round-trip lemmas show that
nothing is lost in the output:

- `Server.ParseDate` reads back a display date.
- `Css.ParseHsl` reads back a colour.
- `Decimal.ReadNat` and `Decimal.ReadInt` read back numbers.

## Model

| member | source | states |
|---|---|---|
| `Server.JsRem10` | server.js:175 | The remainder lies strictly between -10 and 10 and has the sign of the dividend. The dividend minus the remainder is a multiple of 10. This is JavaScript's truncating `%`. |
| `Server.OrdinalSuffix` | server.js:171-185 | "st" exactly when the day is positive, ends in 1 and is not 11. "nd" and "rd" work the same way for 2/12 and 3/13. "th" in every other case, including 11 to 13 and every negative number. The result is always two lower-case letters. |
| `Server.CalendarDaySuffixes` | server.js:171-185 | For days 1 to 31: 1, 21 and 31 take "st"; 2 and 22 take "nd"; 3 and 23 take "rd"; every other day takes "th". |
| `Server.MonthNamesDistinct` | server.js:154-167 | No two entries of the month table are equal. |
| `Server.MonthNameShape` | server.js:154-167 | Every month name has at least three letters, starts with a capital and contains no space. |
| `Server.MonthIndexOfName` | server.js:153-168 | Looking up the name at index m in the table gives back m. |
| `Server.MonthName` | server.js:153-169 | For 0 <= m < 12 the result is one capitalised word with no space. Reading it back with `MonthIndex` gives m, so the names are in calendar order, January first, and all distinct. |
| `Server.StripWhitespace` | server.js:135 | The result has no JavaScript `\s` character. A character occurs in it exactly when it occurs in the input and is not whitespace. The result is never longer than the input. Text without whitespace is unchanged. |
| `Server.StripWhitespaceAppend` | server.js:135 | Stripping a concatenation gives the concatenation of the stripped parts. With the contract above, this pins down removal in order. |
| `Server.LowerAsciiString` | server.js:135 | Same length as the input. Each character is lower-cased on its own. The result has no capital A-Z. Text without capitals is unchanged. |
| `Server.LowerAsciiStringAppend` | server.js:135 | Lower-casing a concatenation gives the concatenation of the lower-cased parts. |
| `Server.NormalizeTime` | server.js:135 | The normalised time has no whitespace and no capital letter, and is never longer than the locale text. |
| `Server.NormalizeTimeIdempotent` | server.js:149 | Normalising twice is the same as normalising once. |
| `Server.StripLowerCommute` | server.js:135 | Stripping then lower-casing equals lower-casing then stripping. |
| `Server.NormalizeTimeAppend` | server.js:135 | The normalisation distributes over concatenation. |
| `Server.FormatTime` | server.js:129-136 | The stored time has no whitespace and no capital letter. It is exactly the normalisation that `formatDate` applies to its time part. |
| `Server.FormatDate` | server.js:138-151 | The display date starts with the decimal day. It ends with ", " followed by the normalised time. |
| `Server.ParseDate` | server.js:143-150 | Whatever the reader accepts is a day of at least 0 and a month below 12. The text is exactly the day's digits, its ordinal suffix, " ", the month's table name, " ", the year's text, ", " and the time. |
| `Server.FormatDateRoundTrip` | server.js:138-151 | Reading a display date back gives the day, the month, the year and the `formatTime` text of the same locale time. The reader checks that the suffix after the day is that day's ordinal suffix. |
| `Server.FormatDateInjective` | server.js:140-150 | Two equal display dates have the same day, month and year, and the same normalised time. |
| `Server.FormatTimeEndsFormatDate` | server.js:129-150 | When both are given the same locale time text, the stored `entryDate` ends with ", " followed by the stored `entryTime`. |
| `Server.PastelColor` | server.js:123-127 | Reading the colour back gives hue = the hue draw, saturation 50 and lightness 80 + the lightness draw. So the colour is pastel: hue in [0, 360), saturation 50, lightness in [80, 90). |
| `Server.PastelColorOnto` | server.js:123-127 | Every string of the pastel form `hsl(H, 50%, L%)`, with 0 <= H < 360 and 80 <= L < 90, comes from some pair of draws. |
| `Css.ParseHsl` | server.js:126 | Whatever the reader accepts is exactly the text `HslText` writes for the colour it returns. |
| `Css.ParseHslText` | server.js:126 | Reading the text of any integer `hsl()` colour gives that colour back. |
| `Decimal.NatToString` | server.js:126 | The decimal text of a natural number is a non-empty run of digits with no leading zero. It is one digit long exactly when the number is below 10. |
| `Decimal.NatToStringRoundTrip` | server.js:143 | The value of the decimal text of n is n. |
| `Decimal.DigitsRoundTrip` | server.js:143 | Every canonical run of digits is the decimal text of its value. |
| `Decimal.IntToString` | server.js:150 | The text of a year starts with "-" exactly when the year is negative. It never reads "-0". The digits are canonical. |
| `Decimal.ReadNat` | server.js:143 | Whatever the reader accepts is a decimal text followed by a rest that does not start with a digit. |
| `Decimal.ReadNatOfNatToString` | server.js:143 | Reading the decimal text of n, followed by a non-digit, gives n and that rest. |
| `Decimal.ReadIntOfIntToString` | server.js:150 | The same holds for a signed year. |

## Left out

- The five HTTP handlers (server.js:31-116) are thin wrappers over Mongoose storage calls, whose behaviour lives in a library that is not part of this model.
- The Mongoose schema and index declaration (server.js:18-29) are library configuration, not logic.
- Process bootstrap is I/O: middleware, the database connection, `app.listen` (server.js:10-16, 118-121) and the "Alive" listener (server.js:7).
- `new Date`, `getDate`, `getMonth`, `getFullYear`, `toLocaleTimeString` and `toLocaleString` depend on the clock, the time zone and ICU locale data. Their results are parameters.
- `Math.random()` and the floating-point `Math.floor(r * 360)` and `Math.floor(r * 10)` are left out. Their integer outcomes are parameters bounded as the floor of a draw in [0, 1) bounds them.
- `console.error` and `console.log` are side effects with nothing to state.
- Server.LowerAsciiString: lower-cases only A to Z. JavaScript's `toLowerCase` also maps non-ASCII capitals, but the en-US time text contains only digits, ':', "AM"/"PM" and spaces. Unicode case tables are not part of this model.
- Server.MonthName: requires 0 <= month < 12. JavaScript yields `undefined` for other indices, and `formatDate` would then print "undefined". `getMonth` gives an index outside that range only for an invalid `Date` (NaN), which is not modelled.
- Server.FormatDate: requires 1 <= day <= 31, the range `getDate` returns for a valid `Date`. The NaN fields of an invalid `Date` are not modelled.
- Server.FormatTimeEndsFormatDate: assumes `toLocaleTimeString` (server.js:131) and `toLocaleString` with `hour12: true` (server.js:144) return the same text. That depends on the ICU locale data, and the code does not guarantee it. When the texts differ, the model promises nothing about how `entryDate` relates to `entryTime`.
- Decimal.NatToString / Decimal.IntToString: write plain digits for every integer. JavaScript writes exponent form for a magnitude of 10^21 or more (`${1e21}` is "1e+21"), and Numbers above 2^53 are not exact. The core never reaches that range: days are at most 31, hues below 360, lightness below 90, and `getFullYear` lies within ±275760.

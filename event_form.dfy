/** The event form: its client-side validation, the two string builders it
    uses for dates (`formatDateTimeForInput` and the manual fallback inside
    `formatToISOString`), the submit dispatch and the error shown. */
module EventForm {
  import opened Common

  // ---------------------------------------------------------------------
  // String.prototype.trim
  // ---------------------------------------------------------------------

  /** Drops leading whitespace. */
  function TrimStart(s: string): (r: string)
    ensures |r| <= |s| && r == s[|s| - |r|..]
    ensures forall i :: 0 <= i < |s| - |r| ==> IsJsWhitespace(s[i])
    ensures r != "" ==> !IsJsWhitespace(r[0])
  {
    if s != "" && IsJsWhitespace(s[0]) then TrimStart(s[1..]) else s
  }

  /** Drops trailing whitespace. */
  function TrimEnd(s: string): (r: string)
    ensures |r| <= |s| && r == s[..|r|]
    ensures forall i :: |r| <= i < |s| ==> IsJsWhitespace(s[i])
    ensures r != "" ==> !IsJsWhitespace(r[|r| - 1])
  {
    if s != "" && IsJsWhitespace(s[|s| - 1]) then TrimEnd(s[..|s| - 1]) else s
  }

  predicate AllWhitespace(s: string)
  {
    forall i :: 0 <= i < |s| ==> IsJsWhitespace(s[i])
  }

  /** `r` sits at `k` in `s` with only whitespace before and after it. */
  predicate WhitespaceAround(s: string, k: int, r: string)
  {
    0 <= k <= |s| - |r| && r == s[k..k + |r|] && AllWhitespace(s[..k]) && AllWhitespace(s[k + |r|..])
  }

  /** Dropping a whitespace front and then a whitespace back leaves a
      slice of `s` with only whitespace around it. */
  lemma TrimSlice(s: string, t: string, r: string)
    requires |t| <= |s| && t == s[|s| - |t|..]
    requires forall i :: 0 <= i < |s| - |t| ==> IsJsWhitespace(s[i])
    requires |r| <= |t| && r == t[..|r|]
    requires forall i :: |r| <= i < |t| ==> IsJsWhitespace(t[i])
    ensures WhitespaceAround(s, |s| - |t|, r)
  {
    var k := |s| - |t|;
    assert AllWhitespace(s[..k]) by {
      forall i | 0 <= i < k
        ensures IsJsWhitespace(s[..k][i])
      {
        assert s[..k][i] == s[i];
      }
    }
    assert r == s[k..k + |r|] by {
      assert s[k..][..|r|] == s[k..k + |r|];
    }
    var after := s[k + |r|..];
    assert AllWhitespace(after) by {
      forall i | 0 <= i < |after|
        ensures IsJsWhitespace(after[i])
      {
        assert after[i] == t[|r| + i];
      }
    }
  }

  /** `s.trim()`. */
  function Trim(s: string): (r: string)
    ensures exists k :: WhitespaceAround(s, k, r)
    ensures r != "" ==> !IsJsWhitespace(r[0]) && !IsJsWhitespace(r[|r| - 1])
  {
    var t := TrimStart(s);
    TrimSlice(s, t, TrimEnd(t));
    assert TrimEnd(t) != "" ==> TrimEnd(t)[0] == t[0];
    TrimEnd(t)
  }

  /** `!s.trim()` holds exactly when every character of `s` is whitespace. */
  lemma TrimEmptyIffAllWhitespace(s: string)
    ensures Trim(s) == "" <==> forall i :: 0 <= i < |s| ==> IsJsWhitespace(s[i])
  {
    var t := TrimStart(s);
    assert Trim(s) == "" <==> t == "" by {
      if t != "" {
        assert !IsJsWhitespace(t[0]);
      }
    }
    assert t == "" <==> forall i :: 0 <= i < |s| ==> IsJsWhitespace(s[i]) by {
      if t != "" {
        assert t[0] == s[|s| - |t|];
      }
    }
  }

  // ---------------------------------------------------------------------
  // Validation (validateForm)
  // ---------------------------------------------------------------------

  /** "A title is required." */
  const TitleRequired: string := "タイトルは必須です"
  /** "A start time is required." */
  const StartRequired: string := "開始時間は必須です"
  /** "An end time is required." */
  const EndRequired: string := "終了時間は必須です"
  /** "The end time must be after the start time." */
  const RangeError: string := "終了時間は開始時間より後である必要があります"

  /** The message of the first failing check, or None when every check
      passes: an all-whitespace title, then an empty start, then an empty
      end, then `new Date(start) >= new Date(end)`. */
  function ValidationError(title: string, startTime: string, endTime: string,
                           parse: string -> JsDate): (err: Option<string>)
    ensures err.Some? ==> err.value in {TitleRequired, StartRequired, EndRequired, RangeError}
    ensures err == Some(TitleRequired) <==> forall i :: 0 <= i < |title| ==> IsJsWhitespace(title[i])
    ensures err == Some(StartRequired) <==>
              (exists i :: 0 <= i < |title| && !IsJsWhitespace(title[i])) && startTime == ""
    ensures err == Some(EndRequired) <==>
              (exists i :: 0 <= i < |title| && !IsJsWhitespace(title[i])) && startTime != "" && endTime == ""
    ensures err == Some(RangeError) <==>
              (exists i :: 0 <= i < |title| && !IsJsWhitespace(title[i])) && startTime != "" && endTime != "" &&
              DateAtLeast(parse(startTime), parse(endTime))
  {
    TrimEmptyIffAllWhitespace(title);
    if Trim(title) == "" then Some(TitleRequired)
    else if startTime == "" then Some(StartRequired)
    else if endTime == "" then Some(EndRequired)
    else if DateAtLeast(parse(startTime), parse(endTime)) then Some(RangeError)
    else None
  }

  /** Validation passes exactly when the title has a non-whitespace
      character, both times are non-empty and it is not the case that both
      parse with the start at or after the end. */
  lemma ValidationPassesIff(title: string, startTime: string, endTime: string, parse: string -> JsDate)
    ensures ValidationError(title, startTime, endTime, parse).None? <==>
            (exists i :: 0 <= i < |title| && !IsJsWhitespace(title[i])) &&
            startTime != "" && endTime != "" &&
            !(parse(startTime).ValidDate? && parse(endTime).ValidDate? &&
              parse(startTime).ms >= parse(endTime).ms)
  {
    TrimEmptyIffAllWhitespace(title);
  }

  /** Equal, parsable start and end strings are rejected with the range message. */
  lemma EqualTimesRejected(title: string, time: string, parse: string -> JsDate)
    requires exists i :: 0 <= i < |title| && !IsJsWhitespace(title[i])
    requires time != "" && parse(time).ValidDate?
    ensures ValidationError(title, time, time, parse) == Some(RangeError)
  {
    TrimEmptyIffAllWhitespace(title);
  }

  /** When either time does not parse the comparison is false, so the form
      passes and rejection is left to the server. */
  lemma UnparsableTimePasses(title: string, startTime: string, endTime: string, parse: string -> JsDate)
    requires exists i :: 0 <= i < |title| && !IsJsWhitespace(title[i])
    requires startTime != "" && endTime != ""
    requires parse(startTime).InvalidDate? || parse(endTime).InvalidDate?
    ensures ValidationError(title, startTime, endTime, parse) == None
  {
    TrimEmptyIffAllWhitespace(title);
  }

  // ---------------------------------------------------------------------
  // Decimal numerals and padStart(2, '0')
  // ---------------------------------------------------------------------

  predicate IsDigit(c: char)
  {
    '0' <= c <= '9'
  }

  predicate AllDigits(s: string)
  {
    forall i :: 0 <= i < |s| ==> IsDigit(s[i])
  }

  function DigitChar(d: nat): (c: char)
    requires d < 10
    ensures IsDigit(c) && c as int - '0' as int == d
  {
    ('0' as int + d) as char
  }

  /** The number a string of decimal digits denotes. */
  function DecimalValue(s: string): nat
    requires AllDigits(s)
  {
    if s == [] then 0 else DecimalValue(s[..|s| - 1]) * 10 + (s[|s| - 1] as int - '0' as int)
  }

  /** `String(n)` for a non-negative integer: shortest decimal numeral. */
  function NatToDecimal(n: nat): (r: string)
    ensures |r| >= 1 && AllDigits(r)
    ensures n < 10 <==> |r| == 1
    ensures n < 100 ==> |r| <= 2
    ensures r[0] == '0' ==> n == 0
    decreases n
  {
    if n < 10 then [DigitChar(n)] else NatToDecimal(n / 10) + [DigitChar(n % 10)]
  }

  /** Reading the numeral back gives the number. */
  lemma {:induction false} NatToDecimalValue(n: nat)
    ensures DecimalValue(NatToDecimal(n)) == n
    decreases n
  {
    var r := NatToDecimal(n);
    if n >= 10 {
      NatToDecimalValue(n / 10);
      assert r[..|r| - 1] == NatToDecimal(n / 10);
    }
  }

  /** `String(i)` for any integer. */
  function IntToDecimal(i: int): (r: string)
    ensures i >= 0 ==> |r| >= 1 && AllDigits(r)
    ensures i < 0 ==> |r| >= 2 && r[0] == '-' && AllDigits(r[1..])
    ensures i >= 0 && r[0] == '0' ==> i == 0
    ensures i < 0 ==> r[1] != '0'
  {
    if i < 0 then "-" + NatToDecimal(-i) else NatToDecimal(i)
  }

  /** Reads an optionally signed decimal numeral. */
  function ParseInteger(s: string): Option<int>
  {
    if |s| >= 2 && s[0] == '-' && AllDigits(s[1..]) then Some(0 - DecimalValue(s[1..]))
    else if |s| >= 1 && AllDigits(s) then Some(DecimalValue(s))
    else None
  }

  lemma IntToDecimalRoundTrip(i: int)
    ensures ParseInteger(IntToDecimal(i)) == Some(i)
  {
    if i < 0 {
      var digits := NatToDecimal(-i);
      NatToDecimalValue(-i);
      var s := "-" + digits;
      assert IntToDecimal(i) == s;
      assert s[1..] == digits;
      assert |s| >= 2 && s[0] == '-' && AllDigits(s[1..]);
      assert ParseInteger(s) == Some(0 - DecimalValue(digits));
    } else {
      var digits := NatToDecimal(i);
      NatToDecimalValue(i);
      assert IntToDecimal(i) == digits;
      assert digits[0] != '-';
      assert ParseInteger(digits) == Some(DecimalValue(digits));
    }
  }

  /** `s.padStart(2, '0')`. */
  function Pad2(s: string): (r: string)
    ensures |r| == if |s| >= 2 then |s| else 2
    ensures r[|r| - |s|..] == s
    ensures forall i :: 0 <= i < |r| - |s| ==> r[i] == '0'
  {
    if |s| >= 2 then s else if |s| == 1 then "0" + s else "00"
  }

  /** A number below 100, written with `String` and padded to two places,
      is its two decimal digits. */
  lemma TwoDigits(v: nat)
    requires v < 100
    ensures Pad2(NatToDecimal(v)) == [DigitChar(v / 10), DigitChar(v % 10)]
  {
    if v >= 10 {
      assert NatToDecimal(v / 10) == [DigitChar(v / 10)];
    }
  }

  /** The number a two-digit field denotes. */
  function TwoDigitValue(s: string): nat
    requires |s| == 2 && AllDigits(s)
  {
    (s[0] as int - '0' as int) * 10 + (s[1] as int - '0' as int)
  }

  lemma TwoDigitsValue(v: nat)
    requires v < 100
    ensures AllDigits(Pad2(NatToDecimal(v))) && TwoDigitValue(Pad2(NatToDecimal(v))) == v
  {
    TwoDigits(v);
    var x := [DigitChar(v / 10), DigitChar(v % 10)];
    assert AllDigits(x);
    assert TwoDigitValue(x) == v;
  }

  // ---------------------------------------------------------------------
  // formatDateTimeForInput
  // ---------------------------------------------------------------------

  /** A date's local calendar fields as its getters return them; `month`
      is `getMonth()`, counted from 0. */
  datatype CalendarFields = CalendarFields(year: int, month: int, day: int, hours: int, minutes: int)

  predicate WellFormedFields(f: CalendarFields)
  {
    0 <= f.month <= 11 && 1 <= f.day <= 31 && 0 <= f.hours <= 23 && 0 <= f.minutes <= 59
  }

  /** `formatDateTimeForInput`: `year-MM-DDThh:mm`, the month being
      `getMonth() + 1`; only the year is left unpadded. */
  function FormatDateTimeForInput(f: CalendarFields): (r: string)
    requires WellFormedFields(f)
    ensures |r| == |IntToDecimal(f.year)| + 12
    ensures r[..|IntToDecimal(f.year)|] == IntToDecimal(f.year)
  {
    var mo, d, h, mi := Pad2(NatToDecimal(f.month + 1)), Pad2(NatToDecimal(f.day)),
                        Pad2(NatToDecimal(f.hours)), Pad2(NatToDecimal(f.minutes));
    assert |mo| == 2 && |d| == 2 && |h| == 2 && |mi| == 2;
    IntToDecimal(f.year) + ("-" + mo + "-" + d + "T" + h + ":" + mi)
  }

  /** Reads a `year-MM-DDThh:mm` string back into calendar fields: the
      independent definition `FormatDateTimeForInput` is checked against. */
  function ParseDateTimeInput(s: string): Option<CalendarFields>
  {
    if |s| < 12 then None else ReadInputTail(ParseInteger(s[..|s| - 12]), s[|s| - 12..])
  }

  /** Reads `-MM-DDThh:mm` after a year that has already been read. */
  function ReadInputTail(year: Option<int>, t: string): Option<CalendarFields>
    requires |t| == 12
  {
    var mo, d, h, mi := t[1..3], t[4..6], t[7..9], t[10..12];
    if year.Some? && t[0] == '-' && t[3] == '-' && t[6] == 'T' && t[9] == ':' &&
       AllDigits(mo) && AllDigits(d) && AllDigits(h) && AllDigits(mi)
    then
      var f := CalendarFields(year.value, TwoDigitValue(mo) - 1, TwoDigitValue(d), TwoDigitValue(h), TwoDigitValue(mi));
      if WellFormedFields(f) then Some(f) else None
    else None
  }

  /** The twelve characters after the year read back as the four fields. */
  lemma ReadInputTailPieces(year: int, mo: string, d: string, h: string, mi: string)
    requires |mo| == 2 && |d| == 2 && |h| == 2 && |mi| == 2
    requires AllDigits(mo) && AllDigits(d) && AllDigits(h) && AllDigits(mi)
    requires WellFormedFields(CalendarFields(year, TwoDigitValue(mo) - 1, TwoDigitValue(d), TwoDigitValue(h), TwoDigitValue(mi)))
    ensures |"-" + mo + "-" + d + "T" + h + ":" + mi| == 12
    ensures ReadInputTail(Some(year), "-" + mo + "-" + d + "T" + h + ":" + mi) ==
            Some(CalendarFields(year, TwoDigitValue(mo) - 1, TwoDigitValue(d), TwoDigitValue(h), TwoDigitValue(mi)))
  {
    var t := "-" + mo + "-" + d + "T" + h + ":" + mi;
    assert t[1..3] == mo && t[4..6] == d && t[7..9] == h && t[10..12] == mi;
  }

  lemma SplitYear(y: string, t: string)
    requires |t| == 12
    ensures ParseDateTimeInput(y + t) == ReadInputTail(ParseInteger(y), t)
  {
    var s := y + t;
    assert s[..|s| - 12] == y && s[|s| - 12..] == t;
  }

  /** The input string names exactly the fields it was built from. */
  lemma FormatDateTimeForInputRoundTrip(f: CalendarFields)
    requires WellFormedFields(f)
    ensures ParseDateTimeInput(FormatDateTimeForInput(f)) == Some(f)
  {
    var mo, d, h, mi := Pad2(NatToDecimal(f.month + 1)), Pad2(NatToDecimal(f.day)),
                        Pad2(NatToDecimal(f.hours)), Pad2(NatToDecimal(f.minutes));
    TwoDigitsValue(f.month + 1);
    TwoDigitsValue(f.day);
    TwoDigitsValue(f.hours);
    TwoDigitsValue(f.minutes);
    IntToDecimalRoundTrip(f.year);
    ReadInputTailPieces(f.year, mo, d, h, mi);
    SplitYear(IntToDecimal(f.year), "-" + mo + "-" + d + "T" + h + ":" + mi);
  }

  // ---------------------------------------------------------------------
  // formatToISOString and its manual fallback
  // ---------------------------------------------------------------------

  /** A character the fallback splits on: `/`, `:` or whitespace (`[\/\s:]`). */
  predicate IsSeparator(c: char)
  {
    c == '/' || c == ':' || IsJsWhitespace(c)
  }

  predicate NoSeparator(s: string)
  {
    forall i :: 0 <= i < |s| ==> !IsSeparator(s[i])
  }

  /** `s.split(/[\/\s:]/)`: adjacent separators give empty parts, and the
      empty string gives one empty part. */
  function Split(s: string): (parts: seq<string>)
    ensures |parts| >= 1
    ensures forall k :: 0 <= k < |parts| ==> NoSeparator(parts[k])
    decreases |s|
  {
    if s == [] then [""]
    else
      var rest := Split(s[1..]);
      if IsSeparator(s[0]) then [""] + rest
      else [[s[0]] + rest[0]] + rest[1..]
  }

  /** The separators of `s`, in order. */
  function Separators(s: string): seq<char>
  {
    if s == [] then []
    else if IsSeparator(s[0]) then [s[0]] + Separators(s[1..])
    else Separators(s[1..])
  }

  /** Puts the parts back together with the given separators between them. */
  function Interleave(parts: seq<string>, seps: seq<char>): string
    requires |parts| == |seps| + 1
  {
    if seps == [] then parts[0]
    else parts[0] + [seps[0]] + Interleave(parts[1..], seps[1..])
  }

  /** Splitting loses only the separators: one more part than separators,
      and interleaving them again gives the input back. */
  lemma {:induction false} SplitRejoins(s: string)
    ensures |Split(s)| == |Separators(s)| + 1
    ensures Interleave(Split(s), Separators(s)) == s
  {
    if s != [] {
      SplitRejoins(s[1..]);
      var rest := Split(s[1..]);
      var seps := Separators(s[1..]);
      if !IsSeparator(s[0]) {
        var parts := Split(s);
        if seps == [] {
          assert parts == [[s[0]] + rest[0]];
        } else {
          assert parts[1..] == rest[1..];
          assert Interleave(rest, seps) == rest[0] + [seps[0]] + Interleave(rest[1..], seps[1..]);
        }
      }
    }
  }

  lemma {:induction false} SplitWithoutSeparator(a: string)
    requires NoSeparator(a)
    ensures Split(a) == [a]
  {
    if a != [] {
      SplitWithoutSeparator(a[1..]);
      assert [a[0]] + a[1..] == a;
    }
  }

  /** A separator-free prefix followed by a separator is the first part. */
  lemma {:induction false} SplitAfterPart(a: string, c: char, b: string)
    requires NoSeparator(a) && IsSeparator(c)
    ensures Split(a + [c] + b) == [a] + Split(b)
  {
    var s := a + [c] + b;
    if a == [] {
      assert s[1..] == b;
    } else {
      SplitAfterPart(a[1..], c, b);
      assert s[1..] == a[1..] + [c] + b;
      assert [a[0]] + a[1..] == a;
    }
  }

  /** The fallback: with at least five parts it builds
      `Y-MM-DDThh:mm:00.000Z` from the first five, otherwise it returns the
      input unchanged. */
  function Fallback(s: string): (r: string)
    ensures |Split(s)| >= 5 ==> |r| >= 20 && r[|r| - 8..] == ":00.000Z"
  {
    var parts := Split(s);
    if |parts| >= 5 then
      parts[0] + "-" + Pad2(parts[1]) + "-" + Pad2(parts[2]) + "T" + Pad2(parts[3]) + ":" + Pad2(parts[4]) + ":00.000Z"
    else s
  }

  /** With fewer than four separators there are fewer than five parts, and
      the input comes back unchanged. */
  lemma FallbackKeepsShortInput(s: string)
    requires |Separators(s)| < 4
    ensures Fallback(s) == s
  {
    SplitRejoins(s);
  }

  /** `Y/M/D h:m` (any four separators) becomes `Y-MM-DDThh:mm:00.000Z`. */
  lemma FallbackRewritesDateTime(y: string, mo: string, d: string, h: string, mi: string,
                                 c1: char, c2: char, c3: char, c4: char)
    requires NoSeparator(y) && NoSeparator(mo) && NoSeparator(d) && NoSeparator(h) && NoSeparator(mi)
    requires IsSeparator(c1) && IsSeparator(c2) && IsSeparator(c3) && IsSeparator(c4)
    ensures Fallback(y + [c1] + (mo + [c2] + (d + [c3] + (h + [c4] + mi)))) ==
            y + "-" + Pad2(mo) + "-" + Pad2(d) + "T" + Pad2(h) + ":" + Pad2(mi) + ":00.000Z"
  {
    var tail3 := h + [c4] + mi;
    var tail2 := d + [c3] + tail3;
    var tail1 := mo + [c2] + tail2;
    SplitWithoutSeparator(mi);
    SplitAfterPart(h, c4, mi);
    SplitAfterPart(d, c3, tail3);
    SplitAfterPart(mo, c2, tail2);
    SplitAfterPart(y, c1, tail1);
    assert Split(y + [c1] + tail1) == [y, mo, d, h, mi];
  }

  /** With a fifth separator and anything after it, the parts past the
      fifth are dropped: only the first five reach the rewritten string. */
  lemma FallbackIgnoresExtraParts(y: string, mo: string, d: string, h: string, mi: string, rest: string,
                                  c1: char, c2: char, c3: char, c4: char, c5: char)
    requires NoSeparator(y) && NoSeparator(mo) && NoSeparator(d) && NoSeparator(h) && NoSeparator(mi)
    requires IsSeparator(c1) && IsSeparator(c2) && IsSeparator(c3) && IsSeparator(c4) && IsSeparator(c5)
    ensures Fallback(y + [c1] + (mo + [c2] + (d + [c3] + (h + [c4] + (mi + [c5] + rest))))) ==
            y + "-" + Pad2(mo) + "-" + Pad2(d) + "T" + Pad2(h) + ":" + Pad2(mi) + ":00.000Z"
  {
    var tail4 := mi + [c5] + rest;
    var tail3 := h + [c4] + tail4;
    var tail2 := d + [c3] + tail3;
    var tail1 := mo + [c2] + tail2;
    SplitAfterPart(mi, c5, rest);
    SplitAfterPart(h, c4, tail4);
    SplitAfterPart(d, c3, tail3);
    SplitAfterPart(mo, c2, tail2);
    SplitAfterPart(y, c1, tail1);
    var parts := Split(y + [c1] + tail1);
    assert parts == [y, mo, d, h, mi] + Split(rest);
    assert parts[0] == y && parts[1] == mo && parts[2] == d && parts[3] == h && parts[4] == mi;
  }

  lemma ExampleInput()
    ensures "2025" + ['/'] + ("03" + ['/'] + ("21" + [' '] + ("13" + [':'] + "32"))) == "2025/03/21 13:32"
    ensures NoSeparator("2025") && NoSeparator("03") && NoSeparator("21") && NoSeparator("13") && NoSeparator("32")
  {
  }

  lemma ExampleOutput()
    ensures "2025" + "-" + Pad2("03") + "-" + Pad2("21") + "T" + Pad2("13") + ":" + Pad2("32") + ":00.000Z" ==
            "2025-03-21T13:32:00.000Z"
  {
    assert Pad2("03") == "03" && Pad2("21") == "21" && Pad2("13") == "13" && Pad2("32") == "32";
  }

  /** The example the source gives for its fallback. */
  lemma FallbackExample()
    ensures Fallback("2025/03/21 13:32") == "2025-03-21T13:32:00.000Z"
  {
    ExampleInput();
    ExampleOutput();
    FallbackRewritesDateTime("2025", "03", "21", "13", "32", '/', '/', ' ', ':');
  }

  /** `formatToISOString`: a string `new Date` accepts is serialised with
      `toISOString`; any other goes through the fallback. */
  function FormatToIsoString(s: string, parse: string -> JsDate, toIso: Instant -> string): (r: string)
    ensures parse(s).ValidDate? ==> r == toIso(parse(s).ms)
    ensures parse(s).InvalidDate? ==> r == Fallback(s)
    ensures parse(s).InvalidDate? && |Separators(s)| < 4 ==> r == s
  {
    if parse(s).ValidDate? then toIso(parse(s).ms)
    else
      if |Separators(s)| < 4 then FallbackKeepsShortInput(s); Fallback(s) else Fallback(s)
  }

  /** A date and time that `new Date` rejects, written with any four
      separators, is submitted as `Y-MM-DDThh:mm:00.000Z`. */
  lemma FormatToIsoStringRewritesDateTime(y: string, mo: string, d: string, h: string, mi: string,
                                          c1: char, c2: char, c3: char, c4: char,
                                          parse: string -> JsDate, toIso: Instant -> string)
    requires NoSeparator(y) && NoSeparator(mo) && NoSeparator(d) && NoSeparator(h) && NoSeparator(mi)
    requires IsSeparator(c1) && IsSeparator(c2) && IsSeparator(c3) && IsSeparator(c4)
    requires parse(y + [c1] + (mo + [c2] + (d + [c3] + (h + [c4] + mi)))).InvalidDate?
    ensures FormatToIsoString(y + [c1] + (mo + [c2] + (d + [c3] + (h + [c4] + mi))), parse, toIso) ==
            y + "-" + Pad2(mo) + "-" + Pad2(d) + "T" + Pad2(h) + ":" + Pad2(mi) + ":00.000Z"
  {
    FallbackRewritesDateTime(y, mo, d, h, mi, c1, c2, c3, c4);
  }

  // ---------------------------------------------------------------------
  // The form component
  // ---------------------------------------------------------------------

  /** The `initialData` prop. */
  datatype InitialData = InitialData(id: Option<string>, title: string, description: string,
                                     startTime: string, endTime: string)

  /** The body sent to the events API. */
  datatype EventData = EventData(title: string, description: string, startTime: string, endTime: string)

  /** What a submit asks the events hook to do. */
  datatype Request = NoRequest | CreateRequest(data: EventData) | UpdateRequest(id: string, data: EventData)

  class Form {
    const initialData: Option<InitialData>
    const isEditing: bool
    var title: string
    var description: string
    var startTime: string
    var endTime: string
    var localError: Option<string>

    constructor(initialData: Option<InitialData>, isEditing: bool)
      ensures this.initialData == initialData && this.isEditing == isEditing
      ensures initialData.Some? ==> title == initialData.value.title && description == initialData.value.description &&
                                    startTime == initialData.value.startTime && endTime == initialData.value.endTime
      ensures initialData.None? ==> title == "" && description == "" && startTime == "" && endTime == ""
      ensures localError == None
    {
      this.initialData := initialData;
      this.isEditing := isEditing;
      title := if initialData.Some? then initialData.value.title else "";
      description := if initialData.Some? then initialData.value.description else "";
      startTime := if initialData.Some? then initialData.value.startTime else "";
      endTime := if initialData.Some? then initialData.value.endTime else "";
      localError := None;
    }

    /** The mount effect: without initial data, the start is now and the end
        an hour later, both in input format. */
    method ApplyDefaultTimes(now: CalendarFields, oneHourLater: CalendarFields)
      requires WellFormedFields(now) && WellFormedFields(oneHourLater)
      modifies this`startTime, this`endTime
      ensures initialData.None? ==> startTime == FormatDateTimeForInput(now) &&
                                    endTime == FormatDateTimeForInput(oneHourLater)
      ensures initialData.Some? ==> startTime == old(startTime) && endTime == old(endTime)
    {
      if initialData.None? {
        var start := FormatDateTimeForInput(now);
        var end := FormatDateTimeForInput(oneHourLater);
        startTime, endTime := start, end;
      }
    }

    /** `validateForm`: clears the error, then stops at the first failing
        check with its message. */
    method Validate(parse: string -> JsDate) returns (ok: bool)
      modifies this`localError
      ensures localError == ValidationError(title, startTime, endTime, parse)
      ensures ok <==> localError.None?
    {
      localError := None;
      TrimEmptyIffAllWhitespace(title);
      if Trim(title) == "" {
        localError := Some(TitleRequired);
        return false;
      }
      if startTime == "" {
        localError := Some(StartRequired);
        return false;
      }
      if endTime == "" {
        localError := Some(EndRequired);
        return false;
      }
      if DateAtLeast(parse(startTime), parse(endTime)) {
        localError := Some(RangeError);
        return false;
      }
      return true;
    }

    /** `isEditing && initialData?.id`: an empty id is falsy. */
    function EditsExisting(): (b: bool)
      reads this
      ensures b ==> isEditing && initialData.Some? && initialData.value.id.Some?
      ensures initialData.Some? && initialData.value.id == Some("") ==> !b
    {
      isEditing && initialData.Some? && initialData.value.id.Some? && initialData.value.id.value != ""
    }

    /** `handleSubmit`: nothing is requested when validation fails; an
        update when editing an event with an id; a create otherwise. */
    method HandleSubmit(parse: string -> JsDate, toIso: Instant -> string) returns (request: Request)
      modifies this`localError
      ensures localError == ValidationError(title, startTime, endTime, parse)
      ensures localError.Some? <==> request == NoRequest
      ensures request.UpdateRequest? <==> localError.None? && EditsExisting()
      ensures request.UpdateRequest? ==> request.id == initialData.value.id.value
      ensures request != NoRequest ==>
                request.data == EventData(title, description, FormatToIsoString(startTime, parse, toIso),
                                          FormatToIsoString(endTime, parse, toIso))
    {
      var ok := Validate(parse);
      if !ok {
        return NoRequest;
      }
      var data := EventData(title, description, FormatToIsoString(startTime, parse, toIso),
                            FormatToIsoString(endTime, parse, toIso));
      if EditsExisting() {
        request := UpdateRequest(initialData.value.id.value, data);
      } else {
        request := CreateRequest(data);
      }
    }

    /** `errorMessage`: the local error when it is set, otherwise the API
        error when that is a non-empty string. */
    function ErrorMessage(apiError: Option<string>): (m: Option<string>)
      reads this
      ensures localError.Some? && localError.value != "" ==> m == localError
      ensures (localError.None? || localError.value == "") ==>
                m == (if apiError.Some? && apiError.value != "" then apiError else None)
    {
      if localError.Some? && localError.value != "" then localError
      else if apiError.Some? && apiError.value != "" then apiError
      else None
    }
  }

  /** Every message validation can set is non-empty, so after a failed
      validation the form shows the local error and never the API error. */
  lemma LocalErrorWins(title: string, startTime: string, endTime: string, parse: string -> JsDate)
    ensures var err := ValidationError(title, startTime, endTime, parse);
            err.Some? ==> err.value != ""
  {
  }
}

/** Text helpers of utils.cpp (`split`, `get_date_time`) and the library routines the
    configuration parsers rely on: Arduino's `String::trim`, `std::stoi` and
    `std::to_string`. */
module Strings {
  import opened Types

  // ---------------------------------------------------------------------------
  // Searching, as std::string::find and std::string::find_first_not_of
  // (None plays the part of std::string::npos)
  // ---------------------------------------------------------------------------

  /** First position at or after `from` holding `d`. */
  function Find(s: string, d: char, from: nat): (r: Option<nat>)
    ensures r.Some? ==> from <= r.value < |s| && s[r.value] == d
    ensures r.Some? ==> forall k :: from <= k < r.value ==> s[k] != d
    ensures r.None? ==> forall k :: from <= k < |s| ==> s[k] != d
    decreases |s| - from
  {
    if from >= |s| then None
    else if s[from] == d then Some(from)
    else Find(s, d, from + 1)
  }

  /** First position at or after `from` not holding `d`. */
  function FindFirstNotOf(s: string, d: char, from: nat): (r: Option<nat>)
    ensures r.Some? ==> from <= r.value < |s| && s[r.value] != d
    ensures r.Some? ==> forall k :: from <= k < r.value ==> s[k] == d
    ensures r.None? ==> forall k :: from <= k < |s| ==> s[k] == d
    decreases |s| - from
  {
    if from >= |s| then None
    else if s[from] != d then Some(from)
    else FindFirstNotOf(s, d, from + 1)
  }

  // ---------------------------------------------------------------------------
  // split: the reference definition and the loop of utils.cpp
  // ---------------------------------------------------------------------------

  /** Length of the delimiter-free prefix of `s`. */
  function RunLength(s: string, d: char): (n: nat)
    ensures n <= |s|
    ensures forall k :: 0 <= k < n ==> s[k] != d
    ensures n < |s| ==> s[n] == d
  {
    if s == [] || s[0] == d then 0 else 1 + RunLength(s[1..], d)
  }

  /** The maximal delimiter-free runs of `s`, left to right. Every token is non-empty
      and free of the delimiter. */
  function Tokens(s: string, d: char): (ts: seq<string>)
    ensures forall i :: 0 <= i < |ts| ==> |ts[i]| > 0 && d !in ts[i]
    decreases |s|
  {
    if s == [] then []
    else if s[0] == d then Tokens(s[1..], d)
    else
      var n := RunLength(s, d);
      [s[..n]] + Tokens(s[n..], d)
  }

  /** `split(s, delim)`: repeatedly skip delimiters, then take the run up to the next
      delimiter (or the end of the string). */
  method Split(s: string, delim: char) returns (result: seq<string>)
    ensures result == Tokens(s, delim)
  {
    result := [];
    var end: nat := 0;
    var start := FindFirstNotOf(s, delim, end);
    SkipDelimiters(s, delim, end, start);
    while start.Some?
      invariant end <= |s|
      invariant start == FindFirstNotOf(s, delim, end)
      invariant result + Tokens(s[end..], delim) == Tokens(s, delim)
      decreases |s| - end
    {
      var st := start.value;
      var found := Find(s, delim, st);
      // when no delimiter follows, `end` becomes npos; the next search from npos
      // finds nothing, exactly as from |s|
      var e := if found.Some? then found.value else |s|;
      SplitStep(s, delim, end, st, e, result);
      result := result + [s[st..e]];
      end := e;
      start := FindFirstNotOf(s, delim, end);
    }
    SkipDelimiters(s, delim, end, start);
  }

  /** One round of split's loop: the run found after the skipped delimiters is the
      next token. */
  lemma SplitStep(s: string, d: char, end: nat, st: nat, e: nat, done: seq<string>)
    requires end <= |s| && FindFirstNotOf(s, d, end) == Some(st)
    requires e == if Find(s, d, st).Some? then Find(s, d, st).value else |s|
    requires done + Tokens(s[end..], d) == Tokens(s, d)
    ensures end <= st < e <= |s|
    ensures done + [s[st..e]] + Tokens(s[e..], d) == Tokens(s, d)
  {
    SkipDelimiters(s, d, end, Some(st));
    TakeRun(s, d, st, e);
    assert done + [s[st..e]] + Tokens(s[e..], d) == done + ([s[st..e]] + Tokens(s[e..], d));
  }

  /** Leading delimiters contribute nothing to the tokens. */
  lemma {:induction false} SkipDelimiters(s: string, d: char, from: nat, next: Option<nat>)
    requires from <= |s| && next == FindFirstNotOf(s, d, from)
    ensures next.Some? ==> Tokens(s[from..], d) == Tokens(s[next.value..], d)
    ensures next.None? ==> Tokens(s[from..], d) == []
    decreases |s| - from
  {
    if from < |s| && s[from] == d {
      assert s[from..][1..] == s[from + 1..];
      SkipDelimiters(s, d, from + 1, next);
    }
  }

  /** A run starting at a non-delimiter is the next token. */
  lemma TakeRun(s: string, d: char, st: nat, e: nat)
    requires st < e <= |s| && s[st] != d
    requires forall k :: st <= k < e ==> s[k] != d
    requires e < |s| ==> s[e] == d
    ensures Tokens(s[st..], d) == [s[st..e]] + Tokens(s[e..], d)
  {
    var t := s[st..];
    assert forall k :: 0 <= k < e - st ==> t[k] == s[st + k] != d;
    assert e - st < |t| ==> t[e - st] == s[e] == d;
    var n := RunLength(t, d);
    assert n == e - st;
    assert t[..n] == s[st..e];
    assert t[n..] == s[e..];
  }

  /** Concatenation of a sequence of strings. */
  function Concat(ts: seq<string>): string
  {
    if ts == [] then [] else ts[0] + Concat(ts[1..])
  }

  /** `s` with every occurrence of `d` deleted. */
  function Without(s: string, d: char): string
  {
    if s == [] then [] else (if s[0] == d then [] else [s[0]]) + Without(s[1..], d)
  }

  lemma {:induction false} WithoutAppend(a: string, b: string, d: char)
    ensures Without(a + b, d) == Without(a, d) + Without(b, d)
  {
    if a != [] {
      assert (a + b)[1..] == a[1..] + b;
      WithoutAppend(a[1..], b, d);
    } else {
      assert a + b == b;
    }
  }

  lemma {:induction false} WithoutFree(a: string, d: char)
    requires d !in a
    ensures Without(a, d) == a
  {
    if a != [] {
      WithoutFree(a[1..], d);
      assert a == [a[0]] + a[1..];
    }
  }

  /** Nothing but delimiters is lost: gluing the tokens back together gives the input
      with its delimiters deleted. */
  lemma {:induction false} TokensCoverInput(s: string, d: char)
    ensures Concat(Tokens(s, d)) == Without(s, d)
    decreases |s|
  {
    if s == [] {
    } else if s[0] == d {
      TokensCoverInput(s[1..], d);
    } else {
      var n := RunLength(s, d);
      TokensCoverInput(s[n..], d);
      assert s == s[..n] + s[n..];
      WithoutAppend(s[..n], s[n..], d);
      WithoutFree(s[..n], d);
      var ts := Tokens(s, d);
      assert ts[0] == s[..n] && ts[1..] == Tokens(s[n..], d);
    }
  }

  /** An empty string, or one made only of delimiters, splits into nothing. */
  lemma {:induction false} OnlyDelimitersSplitToNothing(s: string, d: char)
    requires forall k :: 0 <= k < |s| ==> s[k] == d
    ensures Tokens(s, d) == []
    decreases |s|
  {
    if s != [] {
      OnlyDelimitersSplitToNothing(s[1..], d);
    }
  }

  /** A non-empty string without delimiters is a single token. */
  lemma SingleToken(a: string, d: char)
    requires |a| > 0 && d !in a
    ensures Tokens(a, d) == [a]
  {
    assert forall k :: 0 <= k < |a| ==> a[k] in a;
    var n := RunLength(a, d);
    assert n == |a|;
    assert a[..n] == a;
    assert a[n..] == [];
  }

  /** A token followed by a delimiter comes off first. */
  lemma TokenThenDelimiter(a: string, d: char, rest: string)
    requires |a| > 0 && d !in a
    ensures Tokens(a + [d] + rest, d) == [a] + Tokens(rest, d)
  {
    var s := a + [d] + rest;
    assert forall k :: 0 <= k < |a| ==> s[k] == a[k] && a[k] in a;
    assert s[|a|] == d;
    var n := RunLength(s, d);
    assert n == |a|;
    assert s[..n] == a;
    assert s[n..] == [d] + rest;
    assert ([d] + rest)[1..] == rest;
  }

  /** Inverse of Tokens: join non-empty fields with the delimiter. */
  function Join(ts: seq<string>, d: char): (s: string)
  {
    if |ts| == 0 then []
    else if |ts| == 1 then ts[0]
    else ts[0] + [d] + Join(ts[1..], d)
  }

  /** Splitting undoes joining whenever every field is non-empty and delimiter-free. */
  lemma {:induction false} SplitJoin(ts: seq<string>, d: char)
    requires forall i :: 0 <= i < |ts| ==> |ts[i]| > 0 && d !in ts[i]
    ensures Tokens(Join(ts, d), d) == ts
  {
    if |ts| == 1 {
      SingleToken(ts[0], d);
    } else if |ts| > 1 {
      SplitJoin(ts[1..], d);
      TokenThenDelimiter(ts[0], d, Join(ts[1..], d));
    }
  }

  // ---------------------------------------------------------------------------
  // Arduino String::trim: strip isspace() characters at both ends
  // ---------------------------------------------------------------------------

  predicate IsSpace(c: char)
  {
    // ' ', or one of '\t', '\n', '\v', '\f', '\r' (codes 9 to 13)
    c == ' ' || '\t' <= c <= '\r'
  }

  predicate AllSpace(t: string)
  {
    forall k :: 0 <= k < |t| ==> IsSpace(t[k])
  }

  /** First position at or after `i` that is not white space (|s| if none). */
  function SkipSpaces(s: string, i: nat): (n: nat)
    requires i <= |s|
    ensures i <= n <= |s| && (forall k :: i <= k < n ==> IsSpace(s[k]))
    ensures n < |s| ==> !IsSpace(s[n])
    decreases |s| - i
  {
    if i < |s| && IsSpace(s[i]) then SkipSpaces(s, i + 1) else i
  }

  /** Moving the end `j` back over white space, but not past `i`. */
  function BackSpaces(s: string, i: nat, j: nat): (n: nat)
    requires i <= j <= |s|
    ensures i <= n <= j && (forall k :: n <= k < j ==> IsSpace(s[k]))
    ensures n > i ==> !IsSpace(s[n - 1])
  {
    if j > i && IsSpace(s[j - 1]) then BackSpaces(s, i, j - 1) else j
  }

  /** Arduino's String::trim: the begin index moves forward over white space, then the
      end index moves back over white space, and what lies between is kept. */
  function Trim(s: string): (r: string)
    ensures |r| <= |s|
    ensures r == [] || (!IsSpace(r[0]) && !IsSpace(r[|r| - 1]))
  {
    var i := SkipSpaces(s, 0);
    s[i..BackSpaces(s, i, |s|)]
  }

  /** Trimming keeps a slice of `s` and removes only white space around it; with the
      ends of the result not white space, this pins the result down. */
  lemma TrimIsSlice(s: string)
    ensures exists i, j ::
      && 0 <= i <= j <= |s| && Trim(s) == s[i..j]
      && AllSpace(s[..i]) && AllSpace(s[j..])
  {
    var i := SkipSpaces(s, 0);
    var j := BackSpaces(s, i, |s|);
    assert AllSpace(s[..i]) by {
      var u := s[..i];
      forall k | 0 <= k < |u| ensures IsSpace(u[k]) {
        assert u[k] == s[k];
      }
    }
    assert AllSpace(s[j..]) by {
      var u := s[j..];
      forall k | 0 <= k < |u| ensures IsSpace(u[k]) {
        assert u[k] == s[j + k];
      }
    }
  }

  /** Trimming leaves a string alone when neither end is white space. */
  lemma TrimKeeps(s: string)
    requires s == [] || (!IsSpace(s[0]) && !IsSpace(s[|s| - 1]))
    ensures Trim(s) == s
  {
    assert s[0..|s|] == s;
  }

  // ---------------------------------------------------------------------------
  // Decimal numbers: std::to_string and std::stoi
  // ---------------------------------------------------------------------------

  predicate IsDigit(c: char)
  {
    '0' <= c <= '9'
  }

  predicate AllDigits(s: string)
  {
    forall k :: 0 <= k < |s| ==> IsDigit(s[k])
  }

  function DigitChar(n: nat): (c: char)
    requires n < 10
    ensures IsDigit(c)
  {
    ['0', '1', '2', '3', '4', '5', '6', '7', '8', '9'][n]
  }

  function DigitValue(c: char): (n: nat)
    requires IsDigit(c)
    ensures n < 10 && DigitChar(n) == c
  {
    if c == '0' then 0 else if c == '1' then 1 else if c == '2' then 2
    else if c == '3' then 3 else if c == '4' then 4 else if c == '5' then 5
    else if c == '6' then 6 else if c == '7' then 7 else if c == '8' then 8 else 9
  }

  /** `std::to_string` of a non-negative number: its decimal digits, no leading zero. */
  function NatToString(n: nat): (s: string)
    ensures |s| > 0 && forall k :: 0 <= k < |s| ==> IsDigit(s[k])
    ensures |s| > 1 ==> s[0] != '0'
  {
    if n < 10 then [DigitChar(n)] else NatToString(n / 10) + [DigitChar(n % 10)]
  }

  /** `std::to_string` of an int. */
  function IntToString(i: int): (s: string)
    ensures |s| > 0 && IsDigit(s[|s| - 1])
  {
    if i < 0 then "-" + NatToString(-i) else NatToString(i)
  }

  /** Value of a string of decimal digits. */
  function ParseDecimal(s: string): nat
    requires forall k :: 0 <= k < |s| ==> IsDigit(s[k])
  {
    if s == [] then 0 else 10 * ParseDecimal(s[..|s| - 1]) + DigitValue(s[|s| - 1])
  }

  lemma {:induction false} ParseNatToString(n: nat)
    ensures ParseDecimal(NatToString(n)) == n
  {
    if n >= 10 {
      ParseNatToString(n / 10);
      var s := NatToString(n);
      assert s[..|s| - 1] == NatToString(n / 10);
    }
  }

  /** Distinct numbers have distinct decimal forms (so "0", "1", ... are distinct keys). */
  lemma NatToStringInjective(a: nat, b: nat)
    requires NatToString(a) == NatToString(b)
    ensures a == b
  {
    ParseNatToString(a);
    ParseNatToString(b);
  }

  /** Length of the longest all-digit prefix. */
  function DigitPrefix(s: string): (n: nat)
    ensures n <= |s| && forall k :: 0 <= k < n ==> IsDigit(s[k])
    ensures n < |s| ==> !IsDigit(s[n])
  {
    if s != [] && IsDigit(s[0]) then 1 + DigitPrefix(s[1..]) else 0
  }

  /** Optional sign, then the longest run of digits (at least one). */
  function ReadSigned(t: string): (r: Option<int>)
  {
    var negative := t != [] && t[0] == '-';
    var u := if t != [] && (t[0] == '-' || t[0] == '+') then t[1..] else t;
    var n := DigitPrefix(u);
    if n == 0 then None
    else
      var mag: int := ParseDecimal(u[..n]);
      Some(if negative then 0 - mag else mag)
  }

  /** `std::stoi(s)`: skip leading white space, read an optional sign and the longest
      run of digits, ignore the rest. None stands for the exceptions: no digits
      (invalid_argument) or a value outside a 32-bit int (out_of_range). */
  function Stoi(s: string): (r: Option<int>)
    ensures r.Some? ==> Int32Min <= r.value <= Int32Max
  {
    if s != [] && IsSpace(s[0]) then Stoi(s[1..])
    else
      var v := ReadSigned(s);
      if v.Some? && Int32Min <= v.value <= Int32Max then v else None
  }

  /** `std::stoi` reads back what `std::to_string` wrote, for every 32-bit int. */
  lemma StoiIntToString(i: int)
    requires Int32Min <= i <= Int32Max
    ensures Stoi(IntToString(i)) == Some(i)
  {
    var s := IntToString(i);
    assert !IsSpace(s[0]);
    ReadSignedIntToString(i);
  }

  lemma ReadSignedIntToString(i: int)
    ensures ReadSigned(IntToString(i)) == Some(i)
  {
    if i < 0 {
      ReadSignedNegative(i);
    } else {
      ReadSignedNatural(i);
    }
  }

  lemma ReadSignedNegative(i: int)
    requires i < 0
    ensures ReadSigned(IntToString(i)) == Some(i)
  {
    NegativeForm(i);
    ReadNegative(IntToString(i));
  }

  /** A negative number is written as a minus sign followed by the digits of its
      magnitude. */
  lemma NegativeForm(i: int)
    requires i < 0
    ensures var t := IntToString(i);
      |t| > 1 && t[0] == '-' && AllDigits(t[1..]) && ParseDecimal(t[1..]) == -i
  {
    ParseNatToString(-i);
    DropSign(NatToString(-i));
  }

  lemma DropSign(digits: string)
    ensures ("-" + digits)[0] == '-' && ("-" + digits)[1..] == digits
  {
  }

  lemma ReadSignedNatural(i: nat)
    ensures ReadSigned(IntToString(i)) == Some(i)
  {
    ParseNatToString(i);
    ReadUnsigned(NatToString(i));
  }

  /** A run of digits reads as its value. */
  lemma ReadUnsigned(digits: string)
    requires digits != [] && forall k :: 0 <= k < |digits| ==> IsDigit(digits[k])
    ensures ReadSigned(digits) == Some(ParseDecimal(digits))
  {
    AllDigitsPrefix(digits);
    assert digits[..|digits|] == digits;
  }

  /** A minus sign, then only digits, reads as the negated value of the digits. */
  lemma ReadNegative(t: string)
    requires |t| > 1 && t[0] == '-' && AllDigits(t[1..])
    ensures ReadSigned(t) == Some(0 - ParseDecimal(t[1..]))
  {
    var u := t[1..];
    AllDigitsPrefix(u);
    assert u[..|u|] == u;
  }

  lemma AllDigitsPrefix(u: string)
    requires forall k :: 0 <= k < |u| ==> IsDigit(u[k])
    ensures DigitPrefix(u) == |u|
  {
  }

  // ---------------------------------------------------------------------------
  // printf "%0Nd" and get_date_time
  // ---------------------------------------------------------------------------

  function Zeros(k: nat): (z: string)
    ensures |z| == k && forall i :: 0 <= i < k ==> z[i] == '0'
  {
    if k == 0 then [] else Zeros(k - 1) + ['0']
  }

  /** "%0<width>d" of a non-negative number: left-padded with zeros to `width`. */
  function ZeroPad(n: nat, width: nat): (s: string)
  {
    var digits := NatToString(n);
    (if |digits| < width then Zeros(width - |digits|) else []) + digits
  }

  lemma {:induction false} ParseLeadingZeros(z: string, s: string)
    requires forall i :: 0 <= i < |z| ==> z[i] == '0'
    requires forall k :: 0 <= k < |s| ==> IsDigit(s[k])
    ensures forall k :: 0 <= k < |z + s| ==> IsDigit((z + s)[k])
    ensures ParseDecimal(z + s) == ParseDecimal(s)
    decreases |z| + |s|
  {
    if s != [] {
      ParseLeadingZeros(z, s[..|s| - 1]);
      assert (z + s)[..|z + s| - 1] == z + s[..|s| - 1];
    } else if z != [] {
      ParseLeadingZeros(z[..|z| - 1], []);
      assert z + s == z;
      assert (z + s)[..|z + s| - 1] == z[..|z| - 1] + [];
    }
  }

  /** A padded field is exactly `width` wide when the number fits, and reads back as
      the number it shows. */
  lemma PadWidthAndValue(n: nat, width: nat)
    ensures |ZeroPad(n, width)| == if |NatToString(n)| < width then width else |NatToString(n)|
    ensures forall k :: 0 <= k < |ZeroPad(n, width)| ==> IsDigit(ZeroPad(n, width)[k])
    ensures ParseDecimal(ZeroPad(n, width)) == n
  {
    var digits := NatToString(n);
    var z := if |digits| < width then Zeros(width - |digits|) else [];
    ParseLeadingZeros(z, digits);
    ParseNatToString(n);
  }

  /** Numbers below 10^k take at most k digits. */
  lemma {:induction false} DigitsBound(n: nat, k: nat)
    requires k > 0
    requires n < Pow10(k)
    ensures |NatToString(n)| <= k
  {
    if n >= 10 {
      assert k > 1;
      DigitsBound(n / 10, k - 1);
    }
  }

  function Pow10(k: nat): (p: nat)
    ensures p >= 1
  {
    if k == 0 then 1 else 10 * Pow10(k - 1)
  }

  /** "a:b:c" with two-character b and c. */
  function Colons(a: string, b: string, c: string): string
  {
    a + ":" + b + ":" + c
  }

  lemma ColonsLayout(a: string, b: string, c: string)
    requires |b| == 2 && |c| == 2
    ensures var s := Colons(a, b, c);
      |s| == |a| + 6 && s[..|a|] == a && s[|a|] == ':' && s[|a| + 1..|a| + 3] == b
      && s[|a| + 3] == ':' && s[|a| + 4..] == c
  {
  }

  /** `get_date_time`: "%04d:%02d:%02d" of the RTC date, " - ", then "%02d:%02d:%02d"
      of the RTC time. */
  function DateTime(year: nat, month: nat, day: nat, hour: nat, minute: nat, second: nat): string
  {
    Colons(ZeroPad(year, 4), ZeroPad(month, 2), ZeroPad(day, 2)) + " - "
    + Colons(ZeroPad(hour, 2), ZeroPad(minute, 2), ZeroPad(second, 2))
  }

  /** A field that fits its width is exactly that wide and reads back as its value. */
  lemma PadFits(n: nat, width: nat)
    requires width > 0 && n < Pow10(width)
    ensures |ZeroPad(n, width)| == width
    ensures forall k :: 0 <= k < width ==> IsDigit(ZeroPad(n, width)[k])
    ensures ParseDecimal(ZeroPad(n, width)) == n
  {
    DigitsBound(n, width);
    PadWidthAndValue(n, width);
  }

  /** Layout of date + " - " + time for a 10-character date and an 8-character time. */
  lemma JoinedLayout(date: string, time: string)
    requires |date| == 10 && |time| == 8
    ensures var s := date + " - " + time;
      |s| == 21 && s[..10] == date && s[10..13] == " - " && s[13..] == time
  {
  }

  /** `s` is a run of decimal digits that reads as `n`. */
  predicate Shows(s: string, n: nat)
  {
    (forall k :: 0 <= k < |s| ==> IsDigit(s[k])) && ParseDecimal(s) == n
  }

  /** For field values that fit their widths the date-time line has the fixed layout
      YYYY:MM:DD - HH:MM:SS, and each field reads back as the value it shows. */
  lemma DateTimeLayout(year: nat, month: nat, day: nat, hour: nat, minute: nat, second: nat)
    requires year < 10000 && month < 100 && day < 100
    requires hour < 100 && minute < 100 && second < 100
    ensures var s := DateTime(year, month, day, hour, minute, second);
      && |s| == 21
      && s[4] == ':' && s[7] == ':' && s[10..13] == " - " && s[15] == ':' && s[18] == ':'
      && Shows(s[0..4], year) && Shows(s[5..7], month) && Shows(s[8..10], day)
      && Shows(s[13..15], hour) && Shows(s[16..18], minute) && Shows(s[19..21], second)
  {
    var date := DateLayout(year, month, day);
    var time := TimeLayout(hour, minute, second);
    JoinedLayout(date, time);
    var s := date + " - " + time;
    assert s[0..4] == date[..4] && s[5..7] == date[5..7] && s[8..10] == date[8..];
    assert s[13..15] == time[..2] && s[16..18] == time[3..5] && s[19..21] == time[6..];
    assert s[4] == date[4] && s[7] == date[7] && s[15] == time[2] && s[18] == time[5];
  }

  lemma DateLayout(year: nat, month: nat, day: nat) returns (date: string)
    requires year < 10000 && month < 100 && day < 100
    ensures date == Colons(ZeroPad(year, 4), ZeroPad(month, 2), ZeroPad(day, 2))
    ensures |date| == 10 && date[4] == ':' && date[7] == ':'
    ensures Shows(date[..4], year) && Shows(date[5..7], month) && Shows(date[8..], day)
  {
    assert Pow10(2) == 100 && Pow10(4) == 10000;
    PadFits(year, 4);
    PadFits(month, 2);
    PadFits(day, 2);
    date := Colons(ZeroPad(year, 4), ZeroPad(month, 2), ZeroPad(day, 2));
    ColonsLayout(ZeroPad(year, 4), ZeroPad(month, 2), ZeroPad(day, 2));
  }

  lemma TimeLayout(hour: nat, minute: nat, second: nat) returns (time: string)
    requires hour < 100 && minute < 100 && second < 100
    ensures time == Colons(ZeroPad(hour, 2), ZeroPad(minute, 2), ZeroPad(second, 2))
    ensures |time| == 8 && time[2] == ':' && time[5] == ':'
    ensures Shows(time[..2], hour) && Shows(time[3..5], minute) && Shows(time[6..], second)
  {
    assert Pow10(2) == 100;
    PadFits(hour, 2);
    PadFits(minute, 2);
    PadFits(second, 2);
    time := Colons(ZeroPad(hour, 2), ZeroPad(minute, 2), ZeroPad(second, 2));
    ColonsLayout(ZeroPad(hour, 2), ZeroPad(minute, 2), ZeroPad(second, 2));
  }
}

/** The parts of JavaScript's built-in string and number behaviour index.js
    relies on: `String.prototype.split` with a one-character separator,
    `parseInt` without a radix argument, and the zero padding that the
    `dateformat` library applies to day, month and year. Characters are
    compared by code point; whitespace is the ASCII part of JavaScript's
    whitespace class. */
module JsBuiltins {
  import opened Wrappers

  /** Space, tab, line feed, vertical tab, form feed and carriage return. */
  predicate IsAsciiSpace(c: char)
  {
    c == ' ' || '\t' <= c <= '\r'
  }

  // ---------------------------------------------------------------------------
  // split / join
  // ---------------------------------------------------------------------------

  /** `s.split(sep)`: the pieces between separators, including empty pieces
      before, between and after separators; never an empty list. */
  function Split(s: string, sep: char): (fields: seq<string>)
    ensures |fields| >= 1
    ensures forall i :: 0 <= i < |fields| ==> sep !in fields[i]
    decreases |s|
  {
    if |s| == 0 then [""]
    else
      var rest := Split(s[1..], sep);
      if s[0] == sep then [""] + rest
      else [[s[0]] + rest[0]] + rest[1..]
  }

  /** `fields.join(sep)`. */
  function Join(fields: seq<string>, sep: char): string
    requires |fields| >= 1
  {
    if |fields| == 1 then fields[0] else fields[0] + [sep] + Join(fields[1..], sep)
  }

  /** Joining the pieces of a split restores the string. */
  lemma {:induction false} SplitThenJoin(s: string, sep: char)
    ensures Join(Split(s, sep), sep) == s
    decreases |s|
  {
    if |s| > 0 {
      SplitThenJoin(s[1..], sep);
      var rest := Split(s[1..], sep);
      if s[0] == sep {
        assert ([""] + rest)[1..] == rest;
      } else {
        var fields := [[s[0]] + rest[0]] + rest[1..];
        assert fields[1..] == rest[1..];
        assert s == [s[0]] + s[1..];
      }
    }
  }

  /** A leading character that is not the separator joins the first field. */
  lemma SplitCons(c: char, u: string, sep: char)
    requires c != sep
    ensures Split([c] + u, sep) == [[c] + Split(u, sep)[0]] + Split(u, sep)[1..]
  {
    assert ([c] + u)[1..] == u;
  }

  /** A separator-free prefix extends the first field of what follows. */
  lemma {:induction false} SplitPrefix(a: string, t: string, sep: char)
    requires sep !in a
    ensures Split(a + t, sep) == [a + Split(t, sep)[0]] + Split(t, sep)[1..]
    decreases |a|
  {
    var fields := Split(t, sep);
    if |a| > 0 {
      SplitPrefix(a[1..], t, sep);
      assert a + t == [a[0]] + (a[1..] + t);
      SplitCons(a[0], a[1..] + t, sep);
      assert [a[0]] + (a[1..] + fields[0]) == a + fields[0];
    } else {
      assert a + t == t;
      assert a + fields[0] == fields[0];
      assert fields == [fields[0]] + fields[1..];
    }
  }

  /** Splitting a join of separator-free pieces gives the pieces back. */
  lemma {:induction false} JoinThenSplit(fields: seq<string>, sep: char)
    requires |fields| >= 1
    requires forall i :: 0 <= i < |fields| ==> sep !in fields[i]
    ensures Split(Join(fields, sep), sep) == fields
    decreases |fields|
  {
    if |fields| == 1 {
      SplitPrefix(fields[0], "", sep);
      assert Split("", sep) == [""];
      assert fields[0] + "" == fields[0];
    } else {
      var rest := fields[1..];
      JoinThenSplit(rest, sep);
      var t := [sep] + Join(rest, sep);
      SplitPrefix(fields[0], t, sep);
      assert t[1..] == Join(rest, sep);
      assert Split(t, sep) == [""] + Split(Join(rest, sep), sep);
      assert fields[0] + "" == fields[0];
      assert fields[0] + t == Join(fields, sep);
      assert fields == [fields[0]] + rest;
    }
  }

  // ---------------------------------------------------------------------------
  // parseInt
  // ---------------------------------------------------------------------------

  /** Leading whitespace removed, as `parseInt` does before reading a sign. */
  function TrimStart(s: string): (t: string)
    ensures |t| <= |s| && t == s[|s| - |t|..]
    ensures |t| > 0 ==> !IsAsciiSpace(t[0])
    decreases |s|
  {
    if |s| > 0 && IsAsciiSpace(s[0]) then TrimStart(s[1..]) else s
  }

  /** Value of `c` as a base-36 digit; 36 for a character that is no digit. */
  function DigitOf(c: char): nat
  {
    if '0' <= c <= '9' then c as int - '0' as int
    else if 'a' <= c <= 'z' then c as int - 'a' as int + 10
    else if 'A' <= c <= 'Z' then c as int - 'A' as int + 10
    else 36
  }

  predicate IsDigit(c: char, radix: nat)
  {
    DigitOf(c) < radix
  }

  /** The longest prefix of `s` made of digits of the given radix. */
  function DigitPrefix(s: string, radix: nat): (ds: string)
    ensures |ds| <= |s| && ds == s[..|ds|]
    ensures forall i :: 0 <= i < |ds| ==> IsDigit(ds[i], radix)
    ensures |ds| < |s| ==> !IsDigit(s[|ds|], radix)
    decreases |s|
  {
    if |s| > 0 && IsDigit(s[0], radix) then [s[0]] + DigitPrefix(s[1..], radix) else []
  }

  /** Positional value of a digit string, most significant digit first. */
  function DigitsValue(ds: string, radix: nat): nat
    decreases |ds|
  {
    if |ds| == 0 then 0
    else DigitsValue(ds[..|ds| - 1], radix) * radix + DigitOf(ds[|ds| - 1])
  }

  /** `parseInt(s)` without a radix: skip leading whitespace, read an optional
      sign, switch to base 16 after a `0x` or `0X` prefix, then read the
      longest run of digits. No digit at all gives `NaN`, modelled as None. */
  function ParseInt(s: string): (r: Option<int>)
    ensures |TrimStart(s)| == 0 ==> r.None?
    ensures (|TrimStart(s)| > 0 && !IsDigit(TrimStart(s)[0], 10) &&
             TrimStart(s)[0] != '-' && TrimStart(s)[0] != '+') ==> r.None?
    ensures |TrimStart(s)| > 0 && '1' <= TrimStart(s)[0] <= '9' ==> r.Some? && r.value >= 0
    ensures r.Some? && r.value < 0 ==> TrimStart(s)[0] == '-'
  {
    var t := TrimStart(s);
    var negative := |t| > 0 && t[0] == '-';
    var u := if |t| > 0 && (t[0] == '-' || t[0] == '+') then t[1..] else t;
    var hex := |u| >= 2 && u[0] == '0' && (u[1] == 'x' || u[1] == 'X');
    var radix := if hex then 16 else 10;
    var ds := DigitPrefix(if hex then u[2..] else u, radix);
    var magnitude: int := DigitsValue(ds, radix);
    if |ds| == 0 then None else Some(if negative then -magnitude else magnitude)
  }

  // ---------------------------------------------------------------------------
  // Decimal formatting
  // ---------------------------------------------------------------------------

  function DigitChar(d: nat): char
    requires d < 10
  {
    ('0' as int + d) as char
  }

  /** `String(n)` for a non-negative integer. */
  function DecimalString(n: nat): (s: string)
    ensures |s| >= 1
    ensures forall i :: 0 <= i < |s| ==> '0' <= s[i] <= '9'
  {
    if n < 10 then [DigitChar(n)] else DecimalString(n / 10) + [DigitChar(n % 10)]
  }

  function Zeros(count: nat): (s: string)
    ensures |s| == count
    ensures forall i :: 0 <= i < count ==> s[i] == '0'
  {
    if count == 0 then "" else "0" + Zeros(count - 1)
  }

  /** The decimal form of `n`, padded on the left with zeros to at least
      `width` characters. */
  function ZeroPad(n: nat, width: nat): (s: string)
    ensures |s| >= 1 && |s| >= width
    ensures forall i :: 0 <= i < |s| ==> '0' <= s[i] <= '9'
  {
    var digits := DecimalString(n);
    Zeros(if |digits| < width then width - |digits| else 0) + digits
  }

  lemma {:induction false} DigitsValueOfZeros(z: string, radix: nat)
    requires forall i :: 0 <= i < |z| ==> z[i] == '0'
    ensures DigitsValue(z, radix) == 0
    decreases |z|
  {
    if |z| > 0 {
      DigitsValueOfZeros(z[..|z| - 1], radix);
    }
  }

  /** Leading zeros do not change a digit string's value. */
  lemma {:induction false} DigitsValueLeadingZeros(z: string, ds: string, radix: nat)
    requires forall i :: 0 <= i < |z| ==> z[i] == '0'
    ensures DigitsValue(z + ds, radix) == DigitsValue(ds, radix)
    decreases |ds|
  {
    if |ds| == 0 {
      assert z + ds == z;
      DigitsValueOfZeros(z, radix);
    } else {
      DigitsValueLeadingZeros(z, ds[..|ds| - 1], radix);
      assert (z + ds)[..|z + ds| - 1] == z + ds[..|ds| - 1];
    }
  }

  lemma {:induction false} DigitsValueOfDecimal(n: nat)
    ensures DigitsValue(DecimalString(n), 10) == n
  {
    if n >= 10 {
      DigitsValueOfDecimal(n / 10);
      var s := DecimalString(n);
      assert s[..|s| - 1] == DecimalString(n / 10);
    }
  }

  lemma {:induction false} DigitPrefixOfDigits(s: string)
    requires forall i :: 0 <= i < |s| ==> '0' <= s[i] <= '9'
    ensures DigitPrefix(s, 10) == s
    decreases |s|
  {
    if |s| > 0 {
      DigitPrefixOfDigits(s[1..]);
      assert s == [s[0]] + s[1..];
    }
  }

  /** A string that starts with neither whitespace, a sign nor a hex prefix
      is read as decimal digits from its first character. */
  lemma ParseIntPlain(s: string)
    requires |s| >= 1 && !IsAsciiSpace(s[0]) && s[0] != '-' && s[0] != '+'
    requires !(|s| >= 2 && s[0] == '0' && (s[1] == 'x' || s[1] == 'X'))
    ensures ParseInt(s) == if |DigitPrefix(s, 10)| == 0 then None else Some(DigitsValue(DigitPrefix(s, 10), 10))
  {
    assert TrimStart(s) == s;
  }

  /** `parseInt` of a non-empty string of decimal digits is its value. */
  lemma ParseIntOfDecimalDigits(s: string)
    requires |s| >= 1
    requires forall i :: 0 <= i < |s| ==> '0' <= s[i] <= '9'
    ensures ParseInt(s) == Some(DigitsValue(s, 10))
  {
    assert '0' <= s[0] <= '9';
    if |s| >= 2 {
      assert '0' <= s[1] <= '9';
    }
    ParseIntPlain(s);
    DigitPrefixOfDigits(s);
  }

  /** `parseInt` reads back a zero-padded decimal number. */
  lemma ParseIntZeroPad(n: nat, width: nat)
    ensures ParseInt(ZeroPad(n, width)) == Some(n)
  {
    var digits := DecimalString(n);
    var z := Zeros(if |digits| < width then width - |digits| else 0);
    ParseIntOfDecimalDigits(ZeroPad(n, width));
    DigitsValueLeadingZeros(z, digits, 10);
    DigitsValueOfDecimal(n);
  }
}

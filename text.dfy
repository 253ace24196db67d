/**
 * The pieces of Rust's standard library that the line server's command
 * handling relies on, restricted to ASCII:
 *  - `str::to_uppercase` (ASCII letters only),
 *  - `str::starts_with` and `str::split(' ')`,
 *  - `Display` for unsigned integers (decimal formatting),
 *  - `str::parse::<u16>` with its three error kinds.
 */
module Text {
  import opened Wrappers

  /** Rust's `u16`. */
  newtype u16 = x: int | 0 <= x < 0x1_0000

  /** One more than the largest `u16`. */
  const U16_RANGE: nat := 0x1_0000

  // ---------------------------------------------------------------------
  // Upper-casing
  // ---------------------------------------------------------------------

  predicate IsLower(c: char) { 'a' <= c <= 'z' }

  /** No ASCII lower-case letter occurs in `s`. */
  predicate NoLower(s: string) { forall i :: 0 <= i < |s| ==> !IsLower(s[i]) }

  function UpperChar(c: char): char
  {
    if IsLower(c) then (c as int - 32) as char else c
  }

  /**
   * Two characters are the same letter up to case: equal, or one is a
   * lower-case ASCII letter and the other its capital (32 code points lower).
   */
  predicate SameLetter(x: char, y: char)
  {
    || x == y
    || (IsLower(x) && y as int == x as int - 32)
    || (IsLower(y) && x as int == y as int - 32)
  }

  /** Two strings that differ at most in the case of their ASCII letters. */
  predicate SameUpToCase(a: string, b: string)
  {
    |a| == |b| && forall i :: 0 <= i < |a| ==> SameLetter(a[i], b[i])
  }

  /** `to_uppercase` over ASCII: every letter a-z becomes A-Z, everything else stays. */
  function Upper(s: string): (r: string)
    ensures |r| == |s|
    ensures NoLower(r)
    ensures SameUpToCase(s, r)
  {
    seq(|s|, i requires 0 <= i < |s| => UpperChar(s[i]))
  }

  /** Upper-casing leaves a string with no lower-case letter as it is, so it is idempotent. */
  lemma UpperFixesUpper(s: string)
    requires NoLower(s)
    ensures Upper(s) == s
  {
  }

  lemma UpperIdempotent(s: string)
    ensures Upper(Upper(s)) == Upper(s)
  {
    UpperFixesUpper(Upper(s));
  }

  /** Upper-casing works character by character, so it distributes over concatenation. */
  lemma UpperConcat(a: string, b: string)
    ensures Upper(a + b) == Upper(a) + Upper(b)
  {
  }

  /**
   * Upper-casing identifies exactly the strings that are equal up to case;
   * with `Upper`'s own contract (no lower-case letter is left), `Upper(s)` is
   * the one string without lower-case letters that is `s` up to case.
   */
  lemma UpperSameUpToCase(a: string, b: string)
    ensures Upper(a) == Upper(b) <==> SameUpToCase(a, b)
  {
    if Upper(a) == Upper(b) {
      forall i | 0 <= i < |a| ensures SameLetter(a[i], b[i]) {
        assert Upper(a)[i] == Upper(b)[i];
      }
    }
    if SameUpToCase(a, b) {
      forall i | 0 <= i < |a| ensures Upper(a)[i] == Upper(b)[i] {
        assert SameLetter(a[i], b[i]);
      }
    }
  }

  // ---------------------------------------------------------------------
  // Prefixes and splitting
  // ---------------------------------------------------------------------

  predicate StartsWith(s: string, prefix: string)
  {
    |prefix| <= |s| && s[..|prefix|] == prefix
  }

  /**
   * `s.split(sep)`: the maximal pieces between occurrences of `sep`, in order.
   * There is always at least one piece; `"".split(' ')` yields `[""]`.
   */
  function Split(s: string, sep: char): (pieces: seq<string>)
    ensures |pieces| >= 1
    decreases |s|
  {
    if s == [] then [""]
    else
      var rest := Split(s[1..], sep);
      if s[0] == sep then [""] + rest
      else [[s[0]] + rest[0]] + rest[1..]
  }

  /** No piece contains the separator. */
  lemma {:induction false} SplitPieces(s: string, sep: char)
    ensures forall i :: 0 <= i < |Split(s, sep)| ==> sep !in Split(s, sep)[i]
    decreases |s|
  {
    if s != [] {
      SplitPieces(s[1..], sep);
    }
  }

  /** A string without the separator is a single piece. */
  lemma {:induction false} SplitWithoutSeparator(s: string, sep: char)
    requires sep !in s
    ensures Split(s, sep) == [s]
    decreases |s|
  {
    if s != [] {
      SplitWithoutSeparator(s[1..], sep);
      assert [s[0]] + s[1..] == s;
    }
  }

  /** Gluing pieces back together with `sep` between them: the inverse of `Split`. */
  function Join(pieces: seq<string>, sep: char): string
    requires |pieces| >= 1
    decreases |pieces|
  {
    if |pieces| == 1 then pieces[0] else pieces[0] + [sep] + Join(pieces[1..], sep)
  }

  /** Splitting loses nothing: joining the pieces with the separator gives the string back. */
  lemma {:induction false} JoinSplit(s: string, sep: char)
    ensures Join(Split(s, sep), sep) == s
    decreases |s|
  {
    if s != [] {
      var rest := Split(s[1..], sep);
      JoinSplit(s[1..], sep);
      if s[0] == sep {
        assert Split(s, sep) == [""] + rest;
        assert Join([""] + rest, sep) == [sep] + Join(rest, sep);
      } else {
        var pieces := [[s[0]] + rest[0]] + rest[1..];
        assert Split(s, sep) == pieces;
        if |rest| == 1 {
          assert Join(pieces, sep) == [s[0]] + rest[0];
        } else {
          assert pieces[1..] == rest[1..];
          assert Join(rest, sep) == rest[0] + [sep] + Join(rest[1..], sep);
        }
      }
    }
  }

  /** The first piece ends at the first separator; the remaining pieces split what follows it. */
  lemma {:induction false} SplitAtSeparator(a: string, b: string, sep: char)
    requires sep !in a
    ensures Split(a + [sep] + b, sep) == [a] + Split(b, sep)
    decreases |a|
  {
    if a == [] {
      assert a + [sep] + b == [sep] + b;
      assert ([sep] + b)[1..] == b;
    } else {
      SplitAtSeparator(a[1..], b, sep);
      assert (a + [sep] + b)[1..] == a[1..] + [sep] + b;
      assert [a[0]] + a[1..] == a;
    }
  }

  // ---------------------------------------------------------------------
  // Decimal digits
  // ---------------------------------------------------------------------

  predicate IsDigit(c: char) { '0' <= c <= '9' }

  predicate AllDigits(s: string) { forall i :: 0 <= i < |s| ==> IsDigit(s[i]) }

  function DigitValue(c: char): (d: nat)
    requires IsDigit(c)
    ensures d < 10
  {
    c as int - '0' as int
  }

  function DigitChar(d: nat): (c: char)
    requires d < 10
    ensures IsDigit(c) && DigitValue(c) == d
  {
    ('0' as int + d) as char
  }

  /** The value of the digits `ds` read left to right, starting from `acc` (Horner's rule). */
  function Horner(acc: nat, ds: string): nat
    requires AllDigits(ds)
    decreases |ds|
  {
    if ds == [] then acc else Horner(10 * acc + DigitValue(ds[0]), ds[1..])
  }

  /** Reading more digits never makes the value smaller. */
  lemma {:induction false} HornerAtLeast(acc: nat, ds: string)
    requires AllDigits(ds)
    ensures Horner(acc, ds) >= acc
    decreases |ds|
  {
    if ds != [] {
      HornerAtLeast(10 * acc + DigitValue(ds[0]), ds[1..]);
    }
  }

  /** Appending a digit multiplies the value by ten and adds the digit. */
  lemma {:induction false} HornerSnoc(acc: nat, ds: string, c: char)
    requires AllDigits(ds) && IsDigit(c)
    ensures Horner(acc, ds + [c]) == 10 * Horner(acc, ds) + DigitValue(c)
    decreases |ds|
  {
    if ds == [] {
      assert ([c])[1..] == [];
    } else {
      assert (ds + [c])[1..] == ds[1..] + [c];
      HornerSnoc(10 * acc + DigitValue(ds[0]), ds[1..], c);
    }
  }

  /** The decimal text of `n` as Rust's `Display` writes it: no sign, no leading zeros. */
  function Decimal(n: nat): (s: string)
    ensures |s| >= 1 && AllDigits(s)
    ensures s[0] == '0' ==> n == 0 && s == "0"
  {
    if n < 10 then [DigitChar(n)] else Decimal(n / 10) + [DigitChar(n % 10)]
  }

  /** Reading back the decimal text of `n` gives `n`. */
  lemma {:induction false} HornerDecimal(n: nat)
    ensures Horner(0, Decimal(n)) == n
  {
    if n >= 10 {
      HornerDecimal(n / 10);
      HornerSnoc(0, Decimal(n / 10), DigitChar(n % 10));
    }
  }

  // ---------------------------------------------------------------------
  // Parsing a u16
  // ---------------------------------------------------------------------

  /** The kinds of `ParseIntError` that parsing an unsigned integer can produce. */
  datatype IntErrorKind = Empty | InvalidDigit | PosOverflow

  /** The text `Display` prints for each kind of `ParseIntError` (Rust's standard library). */
  function ErrorDetail(kind: IntErrorKind): string
  {
    match kind
    case Empty => "cannot parse integer from empty string"
    case InvalidDigit => "invalid digit found in string"
    case PosOverflow => "number too large to fit in target type"
  }

  /** The digits `parse::<u16>` reads: the token without one leading `'+'`. */
  function Unsigned(t: string): string
  {
    if |t| > 0 && t[0] == '+' then t[1..] else t
  }

  /**
   * `t.parse::<u16>()`: a lone sign is an invalid digit, an optional `'+'` is
   * skipped, then the digits are read left to right; the first non-digit is an
   * invalid digit and the first digit that pushes the value past 65535 is an
   * overflow, whichever comes first.
   */
  function ParseU16(t: string): Result<u16, IntErrorKind>
  {
    if t == [] then Failure(Empty)
    else if t == "+" || t == "-" then Failure(InvalidDigit)
    else ParseDigits(0, Unsigned(t))
  }

  /** The digit scan itself; it reports only invalid digits and overflow, never an empty token. */
  function ParseDigits(acc: u16, ds: string): (r: Result<u16, IntErrorKind>)
    ensures r.Failure? ==> r.error != Empty
    decreases |ds|
  {
    if ds == [] then Success(acc)
    else if !IsDigit(ds[0]) then Failure(InvalidDigit)
    else if 10 * acc as int + DigitValue(ds[0]) >= U16_RANGE then Failure(PosOverflow)
    else ParseDigits((10 * acc as int + DigitValue(ds[0])) as u16, ds[1..])
  }

  /** On pure digits the scan succeeds exactly when the value fits, and then yields the value. */
  lemma {:induction false} ParseDigitsValue(acc: u16, ds: string)
    requires AllDigits(ds)
    ensures Horner(acc as nat, ds) < U16_RANGE ==> ParseDigits(acc, ds) == Success(Horner(acc as nat, ds) as u16)
    ensures Horner(acc as nat, ds) >= U16_RANGE ==> ParseDigits(acc, ds) == Failure(PosOverflow)
    decreases |ds|
  {
    if ds != [] {
      var next := 10 * acc as int + DigitValue(ds[0]);
      HornerAtLeast(next, ds[1..]);
      if next < U16_RANGE {
        ParseDigitsValue(next as u16, ds[1..]);
      }
    }
  }

  /** A character that is not a digit makes the scan fail, never succeed. */
  lemma {:induction false} ParseDigitsRejects(acc: u16, ds: string)
    requires !AllDigits(ds)
    ensures ParseDigits(acc, ds).Failure?
    decreases |ds|
  {
    if IsDigit(ds[0]) && 10 * acc as int + DigitValue(ds[0]) < U16_RANGE {
      assert !AllDigits(ds[1..]) by {
        var i :| 0 <= i < |ds| && !IsDigit(ds[i]);
        assert ds[1..][i - 1] == ds[i];
      }
      ParseDigitsRejects((10 * acc as int + DigitValue(ds[0])) as u16, ds[1..]);
    }
  }

  /**
   * Digits that still fit, followed by a non-digit: the scan stops there with
   * an invalid digit, whatever follows.
   */
  lemma {:induction false} ParseDigitsStopsAtNonDigit(acc: u16, ds: string, c: char, tail: string)
    requires AllDigits(ds) && !IsDigit(c) && Horner(acc as nat, ds) < U16_RANGE
    ensures ParseDigits(acc, ds + [c] + tail) == Failure(InvalidDigit)
    decreases |ds|
  {
    if ds != [] {
      var next := 10 * acc as int + DigitValue(ds[0]);
      HornerAtLeast(next, ds[1..]);
      assert (ds + [c] + tail)[1..] == ds[1..] + [c] + tail;
      ParseDigitsStopsAtNonDigit(next as u16, ds[1..], c, tail);
    }
  }

  /**
   * Digits whose value no longer fits: the scan stops inside them with an
   * overflow, whatever follows.
   */
  lemma {:induction false} ParseDigitsStopsAtOverflow(acc: u16, ds: string, tail: string)
    requires AllDigits(ds) && Horner(acc as nat, ds) >= U16_RANGE
    ensures ParseDigits(acc, ds + tail) == Failure(PosOverflow)
    decreases |ds|
  {
    var next := 10 * acc as int + DigitValue(ds[0]);
    assert (ds + tail)[0] == ds[0];
    if next < U16_RANGE {
      assert (ds + tail)[1..] == ds[1..] + tail;
      ParseDigitsStopsAtOverflow(next as u16, ds[1..], tail);
    }
  }

  /** The tokens `parse::<u16>` accepts: an optional `'+'`, then at least one digit, of value at most 65535. */
  predicate IsU16Text(t: string)
  {
    var ds := Unsigned(t);
    |ds| >= 1 && AllDigits(ds) && Horner(0, ds) < U16_RANGE
  }

  /**
   * Parsing succeeds exactly on the accepted texts, with their decimal value;
   * it fails with `Empty` exactly on the empty token, and an all-digit token
   * that is too large fails with `PosOverflow`.
   */
  lemma ParseU16Spec(t: string)
    ensures ParseU16(t).Success? <==> IsU16Text(t)
    ensures ParseU16(t).Success? ==> ParseU16(t).value as nat == Horner(0, Unsigned(t))
    ensures ParseU16(t) == Failure(Empty) <==> t == []
    ensures |Unsigned(t)| >= 1 && AllDigits(Unsigned(t)) && Horner(0, Unsigned(t)) >= U16_RANGE
            ==> ParseU16(t) == Failure(PosOverflow)
    ensures t == "+" || t == "-" ==> ParseU16(t) == Failure(InvalidDigit)
  {
    if t != [] && t != "+" && t != "-" {
      var ds := Unsigned(t);
      if AllDigits(ds) {
        ParseDigitsValue(0, ds);
      } else {
        ParseDigitsRejects(0, ds);
      }
    }
  }

  /**
   * The error kind of a token with a non-digit is decided by what comes
   * first: digits that still fit followed by a non-digit give an invalid
   * digit, digits that no longer fit give an overflow.
   */
  lemma ParseU16InvalidDigit(t: string, ds: string, c: char, tail: string)
    requires Unsigned(t) == ds + [c] + tail
    requires AllDigits(ds) && !IsDigit(c) && Horner(0, ds) < U16_RANGE
    ensures ParseU16(t) == Failure(InvalidDigit)
  {
    ParseDigitsStopsAtNonDigit(0, ds, c, tail);
  }

  lemma ParseU16Overflow(t: string, ds: string, tail: string)
    requires Unsigned(t) == ds + tail
    requires AllDigits(ds) && Horner(0, ds) >= U16_RANGE
    ensures ParseU16(t) == Failure(PosOverflow)
  {
    assert ds != [];
    ParseDigitsStopsAtOverflow(0, ds, tail);
  }

  /**
   * A token that starts with anything but a digit or `'+'` (a negative
   * number such as `-5`, or a word such as `aoeu`) is an invalid digit.
   */
  lemma LeadingNonDigit(t: string)
    requires |t| >= 1 && !IsDigit(t[0]) && t[0] != '+'
    ensures ParseU16(t) == Failure(InvalidDigit)
  {
    assert t == [] + [t[0]] + t[1..];
    ParseU16InvalidDigit(t, [], t[0], t[1..]);
  }

  /** Formatting a `u16` in decimal and parsing it back gives the same number. */
  lemma ParseDecimal(n: u16)
    ensures ParseU16(Decimal(n as nat)) == Success(n)
  {
    var s := Decimal(n as nat);
    HornerDecimal(n as nat);
    assert Unsigned(s) == s;
    assert s != "+" && s != "-";
    ParseDigitsValue(0, s);
  }
}

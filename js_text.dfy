/** The few JavaScript string operations the plugin relies on, written out:
    `parseInt(s, 10)`, `String.prototype.split` with a one-character
    separator, `startsWith` and `includes`. */
module JsText {
  import opened Common

  // ---------------------------------------------------------------------
  // parseInt(s, 10)
  // ---------------------------------------------------------------------

  /** The characters `parseInt` skips before the number: the white-space and
      line-terminator characters of ECMAScript. */
  predicate IsJsSpace(c: char)
  {
    || c == '\t' || c == '\n' || c == '\U{000B}' || c == '\U{000C}' || c == '\r'
    || c == ' ' || c == '\U{00A0}' || c == '\U{1680}' || ('\U{2000}' <= c <= '\U{200A}')
    || c == '\U{2028}' || c == '\U{2029}' || c == '\U{202F}' || c == '\U{205F}'
    || c == '\U{3000}' || c == '\U{FEFF}'
  }

  predicate IsDigit(c: char)
  {
    '0' <= c <= '9'
  }

  function DigitValue(c: char): nat
    requires IsDigit(c)
  {
    (c as int) - ('0' as int)
  }

  /** `s` with its leading white space removed. */
  function TrimStart(s: string): (t: string)
    ensures |t| <= |s| && t == s[|s| - |t|..]
    ensures t == [] || !IsJsSpace(t[0])
    ensures forall i :: 0 <= i < |s| - |t| ==> IsJsSpace(s[i])
  {
    if |s| > 0 && IsJsSpace(s[0]) then TrimStart(s[1..]) else s
  }

  /** The longest prefix of `s` made of decimal digits. */
  function DigitPrefix(s: string): (d: string)
    ensures d <= s
    ensures forall i :: 0 <= i < |d| ==> IsDigit(d[i])
    ensures |d| == |s| || !IsDigit(s[|d|])
  {
    if |s| > 0 && IsDigit(s[0]) then [s[0]] + DigitPrefix(s[1..]) else []
  }

  /** The number a string of decimal digits denotes. */
  function DigitsValue(d: string): nat
    requires forall i :: 0 <= i < |d| ==> IsDigit(d[i])
  {
    if |d| == 0 then 0 else DigitsValue(d[..|d| - 1]) * 10 + DigitValue(d[|d| - 1])
  }

  /** The value of the digits at the head of `body`, `None` when there are none. */
  function LeadingNumber(body: string): Option<int>
  {
    var digits := DigitPrefix(body);
    if digits == [] then None else Some(DigitsValue(digits))
  }

  function Negate(v: Option<int>): Option<int>
  {
    match v
    case None => None
    case Some(n) => Some(-n)
  }

  /** `parseInt(s, 10)`: skip leading white space, read an optional sign, then
      the longest run of decimal digits; anything after it is ignored. `None`
      stands for NaN, the result when no digit follows the sign. */
  function ParseInt(s: string): Option<int>
  {
    var t := TrimStart(s);
    if |t| > 0 && t[0] == '-' then Negate(LeadingNumber(t[1..]))
    else if |t| > 0 && t[0] == '+' then LeadingNumber(t[1..])
    else LeadingNumber(t)
  }

  /** The decimal spelling of a natural number, most significant digit first. */
  function NatToDigits(n: nat): (d: string)
    ensures |d| > 0
    ensures forall i :: 0 <= i < |d| ==> IsDigit(d[i])
  {
    var last := ('0' as int + n % 10) as char;
    if n < 10 then [last] else NatToDigits(n / 10) + [last]
  }

  /** The plain decimal spelling of an integer: what `String(n)` writes
      for magnitudes below 10^21, where JavaScript has not yet switched to
      exponent notation. */
  function IntToDecimal(n: int): string
  {
    if n < 0 then "-" + NatToDigits(-n) else NatToDigits(n)
  }

  lemma {:induction false} DigitsValueOfNatToDigits(n: nat)
    ensures DigitsValue(NatToDigits(n)) == n
  {
    var d := NatToDigits(n);
    if n >= 10 {
      DigitsValueOfNatToDigits(n / 10);
      assert d[..|d| - 1] == NatToDigits(n / 10);
    }
  }

  lemma {:induction false} DigitPrefixOfDigits(d: string, rest: string)
    requires forall i :: 0 <= i < |d| ==> IsDigit(d[i])
    requires rest == [] || !IsDigit(rest[0])
    ensures DigitPrefix(d + rest) == d
  {
    if |d| > 0 {
      assert (d + rest)[1..] == d[1..] + rest;
      DigitPrefixOfDigits(d[1..], rest);
    }
  }

  lemma {:induction false} TrimStartNoSpace(t: string)
    requires |t| > 0 && !IsJsSpace(t[0])
    ensures TrimStart(t) == t
  {
  }

  lemma {:induction false} LeadingNumberOfDigits(d: string, rest: string)
    requires |d| > 0 && forall i :: 0 <= i < |d| ==> IsDigit(d[i])
    requires rest == [] || !IsDigit(rest[0])
    ensures LeadingNumber(d + rest) == Some(DigitsValue(d))
  {
    DigitPrefixOfDigits(d, rest);
  }

  lemma {:induction false} ParseIntOfDigits(d: string, rest: string)
    requires |d| > 0 && forall i :: 0 <= i < |d| ==> IsDigit(d[i])
    requires rest == [] || !IsDigit(rest[0])
    ensures ParseInt(d + rest) == Some(DigitsValue(d))
  {
    var body := d + rest;
    LeadingNumberOfDigits(d, rest);
    assert body[0] == d[0] && IsDigit(body[0]);
    TrimStartNoSpace(body);
    assert ParseInt(body) == LeadingNumber(body);
  }

  /** After a minus sign, `parseInt` negates what the digits give. */
  lemma {:induction false} ParseIntMinus(t: string)
    requires |t| > 0 && t[0] == '-'
    ensures ParseInt(t) == Negate(LeadingNumber(t[1..]))
  {
    TrimStartNoSpace(t);
  }

  /** A minus sign followed by digits parses to the negated digits. */
  lemma {:induction false} ParseIntOfMinusDigits(d: string, rest: string)
    requires |d| > 0 && forall i :: 0 <= i < |d| ==> IsDigit(d[i])
    requires rest == [] || !IsDigit(rest[0])
    ensures ParseInt(['-'] + (d + rest)) == Negate(Some(DigitsValue(d)))
  {
    var t := ['-'] + (d + rest);
    assert t[1..] == d + rest;
    LeadingNumberOfDigits(d, rest);
    ParseIntMinus(t);
  }

  /** `parseInt` reads back the plain decimal spelling of every integer, and
      ignores anything after the digits that does not start with a digit. */
  lemma {:induction false} ParseIntOfDecimal(n: int, rest: string)
    requires rest == [] || !IsDigit(rest[0])
    ensures ParseInt(IntToDecimal(n) + rest) == Some(n)
  {
    if n < 0 {
      var d := NatToDigits(-n);
      DigitsValueOfNatToDigits(-n);
      assert IntToDecimal(n) + rest == ['-'] + (d + rest);
      ParseIntOfMinusDigits(d, rest);
    } else {
      DigitsValueOfNatToDigits(n);
      ParseIntOfDigits(NatToDigits(n), rest);
    }
  }

  /** `parseInt` gives NaN exactly when no digit follows the optional white
      space and sign. */
  lemma {:induction false} ParseIntNaN(s: string)
    ensures var t := TrimStart(s);
            var body := if |t| > 0 && (t[0] == '-' || t[0] == '+') then t[1..] else t;
            ParseInt(s) == None <==> (body == [] || !IsDigit(body[0]))
  {
  }

  // ---------------------------------------------------------------------
  // String.prototype.split with a one-character separator
  // ---------------------------------------------------------------------

  /** `s.split(sep)`: the pieces between occurrences of `sep`, in order. The
      empty string splits into one empty piece, never into no pieces. */
  function Split(s: string, sep: char): (parts: seq<string>)
    ensures |parts| >= 1
  {
    if |s| == 0 then [""]
    else
      var rest := Split(s[1..], sep);
      if s[0] == sep then [""] + rest else [[s[0]] + rest[0]] + rest[1..]
  }

  /** `parts.join(sep)`. */
  function Join(parts: seq<string>, sep: char): string
    requires |parts| >= 1
  {
    if |parts| == 1 then parts[0] else parts[0] + [sep] + Join(parts[1..], sep)
  }

  /** The number of times `c` occurs in `s`. */
  function Count(s: string, c: char): nat
  {
    if |s| == 0 then 0 else (if s[0] == c then 1 else 0) + Count(s[1..], c)
  }

  /** No piece of a split contains the separator, and there is one piece more
      than there are separators. */
  lemma {:induction false} SplitPieces(s: string, sep: char)
    ensures |Split(s, sep)| == Count(s, sep) + 1
    ensures forall i :: 0 <= i < |Split(s, sep)| ==> sep !in Split(s, sep)[i]
  {
    if |s| > 0 {
      SplitPieces(s[1..], sep);
    }
  }

  /** Joining the pieces of a split gives back the original string. */
  lemma {:induction false} JoinSplit(s: string, sep: char)
    ensures Join(Split(s, sep), sep) == s
  {
    if |s| > 0 {
      JoinSplit(s[1..], sep);
      var rest := Split(s[1..], sep);
      if s[0] != sep {
        if |rest| == 1 {
          assert [s[0]] + rest[0] == s;
        } else {
          assert ([s[0]] + rest[0]) + [sep] + Join(rest[1..], sep) == [s[0]] + Join(rest, sep);
        }
      }
    }
  }

  /** Splitting a join whose pieces do not contain the separator gives back
      the pieces. */
  lemma {:induction false} SplitJoin(parts: seq<string>, sep: char)
    requires |parts| >= 1
    requires forall i :: 0 <= i < |parts| ==> sep !in parts[i]
    ensures Split(Join(parts, sep), sep) == parts
  {
    if |parts| == 1 {
      SplitNoSeparator(parts[0], sep);
    } else {
      SplitJoin(parts[1..], sep);
      SplitAppend(parts[0], Join(parts[1..], sep), sep);
      assert parts == [parts[0]] + parts[1..];
    }
  }

  lemma {:induction false} SplitNoSeparator(s: string, sep: char)
    requires sep !in s
    ensures Split(s, sep) == [s]
  {
    if |s| > 0 {
      assert sep !in s[1..] by {
        forall i | 0 <= i < |s| - 1 ensures s[1..][i] != sep {
          assert s[1..][i] == s[i + 1];
        }
      }
      SplitNoSeparator(s[1..], sep);
      assert [s[0]] + s[1..] == s;
    }
  }

  lemma {:induction false} SplitAppend(a: string, b: string, sep: char)
    requires sep !in a
    ensures Split(a + [sep] + b, sep) == [a] + Split(b, sep)
  {
    if |a| == 0 {
      assert a + [sep] + b == [sep] + b;
      assert ([sep] + b)[1..] == b;
    } else {
      assert (a + [sep] + b)[1..] == a[1..] + [sep] + b;
      SplitAppend(a[1..], b, sep);
      assert [a[0]] + a[1..] == a;
    }
  }

  // ---------------------------------------------------------------------
  // startsWith and includes
  // ---------------------------------------------------------------------

  /** `s.startsWith(p)`. */
  predicate StartsWith(s: string, p: string)
  {
    |p| <= |s| && s[..|p|] == p
  }

  /** `s.includes(q)`: `q` starts at some position of `s`. */
  predicate Includes(s: string, q: string)
  {
    StartsWith(s, q) || (|s| > 0 && Includes(s[1..], q))
  }

  /** `q` occurs in `s` starting at index `i`. */
  predicate OccursAt(s: string, q: string, i: int)
  {
    0 <= i && i + |q| <= |s| && s[i..i + |q|] == q
  }

  /** `includes` holds exactly when `q` occurs at some index of `s`. */
  lemma {:induction false} IncludesAt(s: string, q: string)
    ensures Includes(s, q) <==> exists i :: OccursAt(s, q, i)
  {
    if Includes(s, q) {
      if StartsWith(s, q) {
        assert OccursAt(s, q, 0);
      } else {
        IncludesAt(s[1..], q);
        var i :| OccursAt(s[1..], q, i);
        assert s[i + 1..i + 1 + |q|] == s[1..][i..i + |q|];
        assert OccursAt(s, q, i + 1);
      }
    }
    if exists i :: OccursAt(s, q, i) {
      var i :| OccursAt(s, q, i);
      if i > 0 {
        assert s[1..][i - 1..i - 1 + |q|] == s[i..i + |q|];
        assert OccursAt(s[1..], q, i - 1);
        IncludesAt(s[1..], q);
      } else {
        assert StartsWith(s, q);
      }
    }
  }

  /** Every string includes the empty string. */
  lemma {:induction false} IncludesEmpty(s: string)
    ensures Includes(s, "")
  {
  }
}

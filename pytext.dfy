/**
 * The few Python 2 string operations the loaders and the plotting tool rely on:
 * `int()` on a base-10 token, `str.split(sep)` on a one-character separator,
 * `s[:n]` slicing and `str.lower()` on ASCII text.
 */
module PyText {
  import opened Outcomes

  predicate IsDigit(c: char) { '0' <= c <= '9' }

  predicate AllDigits(s: string) { forall i :: 0 <= i < |s| ==> IsDigit(s[i]) }

  /** The value of a run of decimal digits, most significant first; leading zeros are allowed. */
  function DigitsValue(s: string): nat
    requires AllDigits(s)
    decreases |s|
  {
    if s == [] then 0 else DigitsValue(s[..|s| - 1]) * 10 + (s[|s| - 1] as int - '0' as int)
  }

  /**
   * The text `int()` accepts from a token that carries no surrounding
   * whitespace (tokens cut out by `split()` never do): an optional sign
   * followed by at least one decimal digit.
   */
  predicate IntLiteral(s: string)
  {
    if |s| > 0 && (s[0] == '-' || s[0] == '+') then |s| > 1 && AllDigits(s[1..])
    else |s| > 0 && AllDigits(s)
  }

  /** Python 2 `int(s)` in base 10; `None` where it raises ValueError. */
  function ParseInt(s: string): (r: Option<int>)
    ensures r.Some? <==> IntLiteral(s)
    ensures r.Some? ==> (r.value < 0 ==> s[0] == '-')
  {
    if |s| > 0 && s[0] == '-' then
      if |s| > 1 && AllDigits(s[1..]) then Some(-(DigitsValue(s[1..]) as int)) else None
    else if |s| > 0 && s[0] == '+' then
      if |s| > 1 && AllDigits(s[1..]) then Some(DigitsValue(s[1..])) else None
    else if |s| > 0 && AllDigits(s) then Some(DigitsValue(s))
    else None
  }

  /** Decimal digits of a natural number, without leading zeros. */
  function ShowNat(n: nat): (s: string)
    decreases n
  {
    if n < 10 then ['0' + n as char] else ShowNat(n / 10) + ['0' + (n % 10) as char]
  }

  /** `str(n)` / `'%d' % n`. */
  function ShowInt(n: int): string
  {
    if n < 0 then "-" + ShowNat(-n) else ShowNat(n)
  }

  lemma {:induction false} ShowNatDigits(n: nat)
    ensures |ShowNat(n)| > 0 && AllDigits(ShowNat(n)) && DigitsValue(ShowNat(n)) == n
    decreases n
  {
    if n >= 10 {
      ShowNatDigits(n / 10);
      var s := ShowNat(n);
      assert s[..|s| - 1] == ShowNat(n / 10);
    }
  }

  /** A run of zeros, as may lead the digits of a token. */
  predicate Zeros(z: string)
  {
    forall i :: 0 <= i < |z| ==> z[i] == '0'
  }

  lemma {:induction false} ZerosValue(z: string)
    requires Zeros(z)
    ensures AllDigits(z) && DigitsValue(z) == 0
    decreases |z|
  {
    if z != [] {
      ZerosValue(z[..|z| - 1]);
    }
  }

  /** Leading zeros do not change the value of a run of digits. */
  lemma {:induction false} LeadingZerosValue(z: string, t: string)
    requires Zeros(z) && AllDigits(t)
    ensures AllDigits(z + t) && DigitsValue(z + t) == DigitsValue(t)
    decreases |t|
  {
    if t == [] {
      assert z + t == z;
      ZerosValue(z);
    } else {
      LeadingZerosValue(z, t[..|t| - 1]);
      var zt := z + t;
      assert zt[..|zt| - 1] == z + t[..|t| - 1] && zt[|zt| - 1] == t[|t| - 1];
    }
  }

  /**
   * The value `int()` gives every token it accepts: digits, with any number
   * of leading zeros and an optional sign, read in base 10.
   */
  lemma ParseIntValue(z: string, n: nat)
    requires Zeros(z)
    ensures ParseInt(z + ShowNat(n)) == Some(n)
    ensures ParseInt("+" + z + ShowNat(n)) == Some(n)
    ensures ParseInt("-" + z + ShowNat(n)) == Some(-(n as int))
  {
    var t := z + ShowNat(n);
    DigitsToken(z, n);
    SignedToken('+', t);
    SignedToken('-', t);
    assert "+" + z + ShowNat(n) == ['+'] + t && "-" + z + ShowNat(n) == ['-'] + t;
  }

  /** Zeros followed by the digits of `n` form a run of digits worth `n`, which `int()` reads as `n`. */
  lemma DigitsToken(z: string, n: nat)
    requires Zeros(z)
    ensures var t := z + ShowNat(n); |t| > 0 && AllDigits(t) && DigitsValue(t) == n && ParseInt(t) == Some(n)
  {
    ShowNatDigits(n);
    LeadingZerosValue(z, ShowNat(n));
    var t := z + ShowNat(n);
    assert IsDigit(t[0]);
  }

  /** A sign before a run of digits: `+` keeps its value, `-` negates it. */
  lemma SignedToken(sign: char, t: string)
    requires sign == '+' || sign == '-'
    requires |t| > 0 && AllDigits(t)
    ensures ParseInt([sign] + t) == Some(if sign == '+' then DigitsValue(t) as int else -(DigitsValue(t) as int))
  {
    var u := [sign] + t;
    assert u[0] == sign && u[1..] == t;
    assert |u| > 1 && AllDigits(u[1..]);
  }

  /** `int(str(n)) == n` for every integer. */
  lemma ParseShowInt(n: int)
    ensures ParseInt(ShowInt(n)) == Some(n)
    ensures '-' !in ShowInt(n) <==> n >= 0
    ensures '/' !in ShowInt(n)
  {
    var m: nat := if n < 0 then -n else n;
    var digits := ShowNat(m);
    DigitsToken("", m);
    assert "" + digits == digits;
    assert '-' !in digits && '/' !in digits by {
      forall i | 0 <= i < |digits| ensures IsDigit(digits[i]) { }
    }
    if n < 0 {
      SignedToken('-', digits);
      assert ShowInt(n) == ['-'] + digits;
    }
  }

  /** The pieces of a `str.split(sep)` result joined back with `sep`. */
  function Join(parts: seq<string>, sep: char): string
    requires |parts| > 0
    decreases |parts|
  {
    if |parts| == 1 then parts[0] else parts[0] + [sep] + Join(parts[1..], sep)
  }

  /**
   * Python `s.split(sep)` for a one-character separator: the text between
   * consecutive separators, including empty pieces, so there is always one
   * piece more than there are separators.
   */
  function Split(s: string, sep: char): (parts: seq<string>)
    ensures |parts| > 0
    ensures forall i :: 0 <= i < |parts| ==> sep !in parts[i]
    ensures Join(parts, sep) == s
    decreases |s|
  {
    if s == [] then [""]
    else
      var rest := Split(s[1..], sep);
      if s[0] == sep then
        assert s == [sep] + s[1..];
        [""] + rest
      else
        var parts := [[s[0]] + rest[0]] + rest[1..];
        assert parts[1..] == rest[1..];
        assert s == [s[0]] + s[1..];
        parts
  }

  /** Splitting is the inverse of joining pieces that hold no separator. */
  lemma {:induction false} SplitJoin(parts: seq<string>, sep: char)
    requires |parts| > 0
    requires forall i :: 0 <= i < |parts| ==> sep !in parts[i]
    ensures Split(Join(parts, sep), sep) == parts
    decreases |parts|, |parts[0]|
  {
    var s := Join(parts, sep);
    if |parts| == 1 {
      NoSepSplit(parts[0], sep);
    } else if parts[0] == [] {
      SplitJoin(parts[1..], sep);
      assert s == [sep] + Join(parts[1..], sep);
      assert s[1..] == Join(parts[1..], sep);
      assert parts == [""] + parts[1..];
    } else {
      var shorter := [parts[0][1..]] + parts[1..];
      assert shorter[1..] == parts[1..];
      SplitJoin(shorter, sep);
      assert s == parts[0] + [sep] + Join(parts[1..], sep);
      assert s[0] == parts[0][0];
      assert Join(shorter, sep) == s[1..];
      assert parts[0] == [s[0]] + shorter[0];
      assert parts == [[s[0]] + shorter[0]] + shorter[1..];
    }
  }

  lemma {:induction false} NoSepSplit(s: string, sep: char)
    requires sep !in s
    ensures Split(s, sep) == [s]
    decreases |s|
  {
    if s != [] {
      NoSepSplit(s[1..], sep);
      assert s == [s[0]] + s[1..];
    }
  }

  /** A character other than the separator stays inside one of the pieces. */
  lemma {:induction false} SplitKeeps(s: string, sep: char, c: char)
    requires c in s && c != sep
    ensures exists i :: 0 <= i < |Split(s, sep)| && c in Split(s, sep)[i]
    decreases |s|
  {
    var rest := Split(s[1..], sep);
    if s[0] == c {
      assert c in Split(s, sep)[0];
    } else {
      SplitKeeps(s[1..], sep, c);
      var i :| 0 <= i < |rest| && c in rest[i];
      if s[0] == sep {
        assert Split(s, sep)[i + 1] == rest[i];
      } else if i == 0 {
        assert c in Split(s, sep)[0];
      } else {
        assert Split(s, sep)[i] == rest[i];
      }
    }
  }

  /** Python `s[:n]`: the first `n` characters, or all of `s` when it is shorter. */
  function Prefix(s: string, n: nat): (p: string)
    ensures |p| == if |s| < n then |s| else n
    ensures p <= s
  {
    if |s| <= n then s else s[..n]
  }

  /** Python `s[i:j]` for 0 <= i <= j: clamped to the end of `s`. */
  function Slice(s: string, i: nat, j: nat): (r: string)
    requires i <= j
    ensures |r| == if |s| <= i then 0 else if |s| <= j then |s| - i else j - i
    ensures forall k :: 0 <= k < |r| ==> r[k] == s[i + k]
  {
    if |s| <= i then "" else if |s| <= j then s[i..] else s[i..j]
  }

  function LowerChar(c: char): char
  {
    if 'A' <= c <= 'Z' then (c as int + 32) as char else c
  }

  /** `str.lower()` on ASCII text: capitals become the small letter at the same place in the alphabet. */
  function Lower(s: string): (r: string)
    ensures |r| == |s|
    ensures forall i :: 0 <= i < |r| ==> !('A' <= r[i] <= 'Z')
    ensures forall i :: 0 <= i < |s| && !('A' <= s[i] <= 'Z') ==> r[i] == s[i]
    ensures forall i :: 0 <= i < |s| && 'A' <= s[i] <= 'Z' ==> 'a' <= r[i] <= 'z' && r[i] as int - 'a' as int == s[i] as int - 'A' as int
  {
    seq(|s|, i requires 0 <= i < |s| => LowerChar(s[i]))
  }

  /** Lower-casing twice is lower-casing once. */
  lemma LowerIdempotent(s: string)
    ensures Lower(Lower(s)) == Lower(s)
  {
  }
}

/**
 * String helpers used by the generator: ASCII case mapping (the model of
 * `ToLower`/`ToUpper`), the `"\r\n"` paragraph split of `String.Split`,
 * `String.Join`, and decimal rendering of integers with its inverse.
 */
module Text {

  // ---------------------------------------------------------------- case

  function LowerChar(c: char): char {
    if 'A' <= c <= 'Z' then (c as int + 32) as char else c
  }

  function UpperChar(c: char): char {
    if 'a' <= c <= 'z' then (c as int - 32) as char else c
  }

  /** `s.ToLower()`, restricted to ASCII letters. */
  function Lower(s: string): (r: string)
    ensures |r| == |s|
    ensures forall i :: 0 <= i < |s| ==> r[i] == LowerChar(s[i])
  {
    seq(|s|, i requires 0 <= i < |s| => LowerChar(s[i]))
  }

  /** `s.ToUpper()`, restricted to ASCII letters. */
  function Upper(s: string): (r: string)
    ensures |r| == |s|
    ensures forall i :: 0 <= i < |s| ==> r[i] == UpperChar(s[i])
  {
    seq(|s|, i requires 0 <= i < |s| => UpperChar(s[i]))
  }

  /** `a.ToLower() == b.ToLower()`. */
  predicate EqualsIgnoreCase(a: string, b: string) {
    Lower(a) == Lower(b)
  }

  // ---------------------------------------------------------------- split / join

  const CrLf: string := "\r\n"

  /** True when `s` contains no `"\r\n"`. */
  predicate NoCrLf(s: string) {
    forall i :: 0 <= i < |s| - 1 ==> !(s[i] == '\r' && s[i + 1] == '\n')
  }

  /**
   * `s.Split(new[] {"\r\n"}, StringSplitOptions.None)`: the segments between
   * the separators, scanned left to right, empty segments kept. Every
   * segment is separator-free, so the split is the finest one.
   */
  function SplitLines(s: string): (r: seq<string>)
    ensures |r| >= 1 && r[0] <= s
    ensures forall k :: 0 <= k < |r| ==> NoCrLf(r[k])
    decreases |s|
  {
    if s == [] then [""]
    else if |s| >= 2 && s[0] == '\r' && s[1] == '\n' then [""] + SplitLines(s[2..])
    else
      var rest := SplitLines(s[1..]);
      var head := [s[0]] + rest[0];
      assert NoCrLf(head) by {
        forall i | 0 <= i < |head| - 1 ensures !(head[i] == '\r' && head[i + 1] == '\n') {
          if i == 0 {
            assert head[1] == rest[0][0] == s[1..][0];
          } else {
            assert head[i] == rest[0][i - 1] && head[i + 1] == rest[0][i];
          }
        }
      }
      [head] + rest[1..]
  }

  /** `String.Join(sep, parts)`. */
  function Join(parts: seq<string>, sep: string): string {
    if |parts| == 0 then ""
    else if |parts| == 1 then parts[0]
    else parts[0] + sep + Join(parts[1..], sep)
  }

  lemma JoinConsHead(a: string, x: string, tail: seq<string>, sep: string)
    ensures Join([a + x] + tail, sep) == a + Join([x] + tail, sep)
  {
    if |tail| > 0 {
      assert ([a + x] + tail)[1..] == tail;
      assert ([x] + tail)[1..] == tail;
    }
  }

  /** Joining the segments of a split with the separator gives back the input. */
  lemma {:induction false} JoinSplitLines(s: string)
    ensures Join(SplitLines(s), CrLf) == s
    decreases |s|
  {
    if s == [] {
    } else if |s| >= 2 && s[0] == '\r' && s[1] == '\n' {
      JoinSplitLines(s[2..]);
      var rest := SplitLines(s[2..]);
      assert SplitLines(s) == [""] + rest;
      if |rest| == 1 {
        assert Join([""] + rest, CrLf) == "" + CrLf + Join(rest, CrLf);
      } else {
        assert ([""] + rest)[1..] == rest;
      }
      assert s == CrLf + s[2..];
    } else {
      JoinSplitLines(s[1..]);
      var rest := SplitLines(s[1..]);
      assert SplitLines(s) == [[s[0]] + rest[0]] + rest[1..];
      JoinConsHead([s[0]], rest[0], rest[1..], CrLf);
      assert [rest[0]] + rest[1..] == rest;
      assert s == [s[0]] + s[1..];
    }
  }

  // ---------------------------------------------------------------- decimals

  predicate IsDigits(s: string) {
    forall i :: 0 <= i < |s| ==> '0' <= s[i] <= '9'
  }

  function DigitChar(d: nat): (c: char)
    requires d < 10
    ensures '0' <= c <= '9' && c as int - '0' as int == d
  {
    ('0' as int + d) as char
  }

  /** The decimal digits of `n`, most significant first, no leading zero. */
  function NatToString(n: nat): (r: string)
    ensures |r| >= 1 && IsDigits(r)
    decreases n
  {
    if n < 10 then [DigitChar(n)] else NatToString(n / 10) + [DigitChar(n % 10)]
  }

  /** `Int32.ToString()`: a minus sign before the digits of a negative value. */
  function IntToString(i: int): string {
    if i < 0 then "-" + NatToString(-i) else NatToString(i)
  }

  /** The value of a string of decimal digits. */
  function DigitsValue(s: string): nat
    requires IsDigits(s)
  {
    if s == [] then 0
    else 10 * DigitsValue(s[..|s| - 1]) + (s[|s| - 1] as int - '0' as int)
  }

  /** Reading back the decimal rendering of a natural number gives that number. */
  lemma {:induction false} DigitsValueOfNatToString(n: nat)
    ensures DigitsValue(NatToString(n)) == n
    decreases n
  {
    if n >= 10 {
      DigitsValueOfNatToString(n / 10);
      var s := NatToString(n);
      assert s[..|s| - 1] == NatToString(n / 10);
    }
  }

  /** Distinct numbers have distinct decimal renderings. */
  lemma NatToStringInjective(a: nat, b: nat)
    requires NatToString(a) == NatToString(b)
    ensures a == b
  {
    DigitsValueOfNatToString(a);
    DigitsValueOfNatToString(b);
  }
}

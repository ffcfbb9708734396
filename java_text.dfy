/**
 * The few `java.lang.String` operations the services rely on, written out on
 * `seq<char>`: `trim`, `isEmpty` after trimming, `contains`, lower-casing and
 * the decimal rendering of a `long` used in exception messages.
 */
module JavaText {

  /** `String.trim` removes every leading and trailing character whose code is at most U+0020. */
  predicate IsTrimmable(c: char) {
    c <= ' '
  }

  /** A string that `trim()` turns into the empty string. */
  predicate IsBlank(s: string) {
    forall i :: 0 <= i < |s| ==> IsTrimmable(s[i])
  }

  /** Number of trimmable characters at the front of `s`. */
  function LeadingTrim(s: string): (n: nat)
    ensures n <= |s|
    ensures forall i :: 0 <= i < n ==> IsTrimmable(s[i])
    ensures n < |s| ==> !IsTrimmable(s[n])
  {
    if s == [] || !IsTrimmable(s[0]) then 0 else 1 + LeadingTrim(s[1..])
  }

  /** Number of trimmable characters at the back of `s`. */
  function TrailingTrim(s: string): (n: nat)
    ensures n <= |s|
    ensures forall i :: |s| - n <= i < |s| ==> IsTrimmable(s[i])
    ensures n < |s| ==> !IsTrimmable(s[|s| - 1 - n])
  {
    if s == [] || !IsTrimmable(s[|s| - 1]) then 0 else 1 + TrailingTrim(s[..|s| - 1])
  }

  /**
   * `String.trim`: the infix of `s` left after removing trimmable characters
   * from both ends. It is empty exactly when `s` is blank, and otherwise it
   * starts and ends with a character that is not trimmable.
   */
  function Trim(s: string): (r: string)
    ensures LeadingTrim(s) + |r| <= |s|
    ensures r == s[LeadingTrim(s)..LeadingTrim(s) + |r|]
    ensures IsBlank(s[LeadingTrim(s) + |r|..])
    ensures r == [] <==> IsBlank(s)
    ensures r != [] ==> !IsTrimmable(r[0]) && !IsTrimmable(r[|r| - 1])
  {
    var t := s[LeadingTrim(s)..];
    var r := t[..|t| - TrailingTrim(t)];
    assert r != [] ==> r[|r| - 1] == t[|t| - 1 - TrailingTrim(t)];
    assert s[LeadingTrim(s) + |r|..] == t[|t| - TrailingTrim(t)..];
    r
  }

  /** Trimming twice is trimming once. */
  lemma TrimIdempotent(s: string)
    ensures Trim(Trim(s)) == Trim(s)
  {
    var r := Trim(s);
    if r != [] {
      assert LeadingTrim(r) == 0;
      assert TrailingTrim(r[LeadingTrim(r)..]) == 0;
    }
  }

  /** `s.startsWith(p)`. */
  predicate StartsWith(s: string, p: string) {
    |p| <= |s| && s[..|p|] == p
  }

  /** `s.contains(t)`: `t` occurs in `s` starting at some position. */
  predicate Contains(s: string, t: string)
    ensures Contains(s, t) ==> |t| <= |s|
    ensures t == [] ==> Contains(s, t)
    decreases |s|
  {
    StartsWith(s, t) || (s != [] && Contains(s[1..], t))
  }

  /** `t` occurs in `s` at index `i`. */
  predicate OccursAt(s: string, t: string, i: int) {
    0 <= i <= |s| - |t| && s[i..i + |t|] == t
  }

  /** `Contains` agrees with the index-based definition of an occurrence. */
  lemma {:induction false} ContainsIffOccurrence(s: string, t: string)
    ensures Contains(s, t) <==> exists i :: OccursAt(s, t, i)
    decreases |s|
  {
    if StartsWith(s, t) {
      assert OccursAt(s, t, 0);
    } else if s != [] {
      ContainsIffOccurrence(s[1..], t);
      if Contains(s[1..], t) {
        var i :| OccursAt(s[1..], t, i);
        assert s[i + 1..i + 1 + |t|] == s[1..][i..i + |t|];
        assert OccursAt(s, t, i + 1);
      }
      if i :| OccursAt(s, t, i) {
        assert i != 0;
        assert s[1..][i - 1..i - 1 + |t|] == s[i..i + |t|];
        assert OccursAt(s[1..], t, i - 1);
      }
    }
  }

  /** `Character.toLowerCase` restricted to the ASCII letters. */
  function LowerChar(c: char): char {
    if 'A' <= c <= 'Z' then (c as int + 32) as char else c
  }

  /** `String.toLowerCase` restricted to the ASCII letters. */
  function ToLower(s: string): (r: string)
    ensures |r| == |s|
    ensures forall i :: 0 <= i < |s| ==> r[i] == LowerChar(s[i])
  {
    seq(|s|, i requires 0 <= i < |s| => LowerChar(s[i]))
  }

  /** Decimal digits of a natural number, most significant first. */
  function Digits(n: nat): (r: string)
    ensures |r| >= 1
    ensures forall i :: 0 <= i < |r| ==> '0' <= r[i] <= '9'
  {
    var d := ['0' + (n % 10) as char];
    if n < 10 then d else Digits(n / 10) + d
  }

  /** `Long.toString(n)`: the decimal rendering used when an id is concatenated into a message. */
  function DecimalString(n: int): (r: string)
    ensures |r| >= 1
    ensures r[0] == '-' <==> n < 0
    ensures forall i :: (if n < 0 then 1 else 0) <= i < |r| ==> '0' <= r[i] <= '9'
  {
    if n < 0 then "-" + Digits(-n) else Digits(n)
  }

  /** The number a string of decimal digits spells, most significant first. */
  function DigitsValue(s: string): nat
    requires forall i :: 0 <= i < |s| ==> '0' <= s[i] <= '9'
  {
    if s == [] then 0 else DigitsValue(s[..|s| - 1]) * 10 + (s[|s| - 1] - '0') as nat
  }

  /** The digits of `n` spell `n` back. */
  lemma {:induction false} DigitsSpellValue(n: nat)
    ensures DigitsValue(Digits(n)) == n
  {
    var d := ['0' + (n % 10) as char];
    if n >= 10 {
      DigitsSpellValue(n / 10);
      var r := Digits(n / 10) + d;
      assert r[..|r| - 1] == Digits(n / 10);
    }
  }

  /** The decimal rendering of `n` spells `n`: its sign, then the digits of its magnitude. */
  lemma DecimalStringSpellsValue(n: int)
    ensures n < 0 ==> DecimalString(n)[1..] == Digits(-n) && DigitsValue(DecimalString(n)[1..]) == -n
    ensures n >= 0 ==> DigitsValue(DecimalString(n)) == n
  {
    if n < 0 {
      DigitsSpellValue(-n);
      assert ("-" + Digits(-n))[1..] == Digits(-n);
    } else {
      DigitsSpellValue(n);
    }
  }
}

/** The string operations the mail model relies on. */
module Text {
  function LowerChar(c: char): char {
    if 'A' <= c <= 'Z' then (c as int + 32) as char else c
  }

  function Lower(s: string): string {
    if s == "" then "" else [LowerChar(s[0])] + Lower(s[1..])
  }

  predicate EqualIgnoringCase(a: string, b: string) {
    Lower(a) == Lower(b)
  }

  predicate IsWhitespace(c: char) {
    var u := c as int;
    u == 0x20 || 0x09 <= u <= 0x0D || u == 0x85 || u == 0xA0 || u == 0x1680 || 0x2000 <= u <= 0x200A
    || u == 0x2028 || u == 0x2029 || u == 0x202F || u == 0x205F || u == 0x3000
  }

  /** Nothing is left after trimming. */
  predicate IsBlank(s: string) {
    forall c <- s :: IsWhitespace(c)
  }

  predicate HasControl(s: string) {
    exists c <- s :: c as int < 0x20 || 0x7F <= c as int < 0xA0
  }

  /** Length in bytes of the UTF-8 form. */
  function Utf8Length(s: string): nat {
    if s == "" then 0
    else
      var u := s[0] as int;
      (if u < 0x80 then 1 else if u < 0x800 then 2 else if u < 0x10000 then 3 else 4) + Utf8Length(s[1..])
  }

  const UPPER_CASE := "ABCDEFGHIJKLMNOPQRSTUVWXYZ"
  const LOWER_CASE := "abcdefghijklmnopqrstuvwxyz"

  /** Lowering replaces the upper-case letters of ASCII and nothing else. */
  lemma LowerCharExact(c: char)
    ensures c in UPPER_CASE ==> exists k | 0 <= k < |UPPER_CASE| :: UPPER_CASE[k] == c && LOWER_CASE[k] == LowerChar(c)
    ensures c !in UPPER_CASE ==> LowerChar(c) == c
  {
    LetterPlaces();
    if 'A' <= c <= 'Z' {
      var k := c as int - 'A' as int;
      assert UPPER_CASE[k] == c && LOWER_CASE[k] == LowerChar(c);
    }
  }

  lemma LetterPlaces()
    ensures |UPPER_CASE| == |LOWER_CASE| == 26
    ensures forall k | 0 <= k < 26 :: UPPER_CASE[k] as int == 'A' as int + k && LOWER_CASE[k] as int == 'a' as int + k
  {
  }

  lemma {:induction false} LowerExact(s: string)
    ensures |Lower(s)| == |s| && forall i | 0 <= i < |s| :: Lower(s)[i] == LowerChar(s[i])
  {
    if s != "" { LowerExact(s[1..]); }
  }

  /** The 25 code points with the Unicode property White_Space. */
  const WHITE_SPACE: seq<int> := [
    0x09, 0x0A, 0x0B, 0x0C, 0x0D, 0x20, 0x85, 0xA0, 0x1680, 0x2000, 0x2001, 0x2002, 0x2003, 0x2004, 0x2005, 0x2006,
    0x2007, 0x2008, 0x2009, 0x200A, 0x2028, 0x2029, 0x202F, 0x205F, 0x3000]

  lemma WhitespaceExact(c: char)
    ensures IsWhitespace(c) <==> c as int in WHITE_SPACE
  {
    var w := WHITE_SPACE;
    assert w[0] == 9 && w[1] == 10 && w[2] == 11 && w[3] == 12 && w[4] == 13 && w[5] == 32 && w[6] == 0x85;
    assert w[7] == 0xA0 && w[8] == 0x1680 && w[20] == 0x2028 && w[21] == 0x2029 && w[22] == 0x202F;
    assert w[23] == 0x205F && w[24] == 0x3000;
    assert forall k | 9 <= k < 20 :: w[k] == 0x2000 + k - 9;
  }

  /** The controls are the sets C0 and C1 and DELETE. */
  lemma ControlExact(c: char)
    ensures HasControl([c]) <==> c as int / 32 == 0 || c as int / 32 == 4 || c as int == 127
  {
    assert c in [c];
  }

  /** How many bits of the code point each UTF-8 length carries (section 3 of RFC 3629). */
  function PayloadBits(length: nat): nat {
    if length <= 1 then 7 else if length == 2 then 11 else if length == 3 then 16 else 21
  }

  function TwoTo(n: nat): nat {
    if n == 0 then 1 else 2 * TwoTo(n - 1)
  }

  lemma Payloads()
    ensures TwoTo(7) == 0x80 && TwoTo(11) == 0x800 && TwoTo(16) == 0x10000 && TwoTo(21) == 0x200000
  {
    assert TwoTo(4) == 16 && TwoTo(7) == 8 * TwoTo(4) && TwoTo(11) == 16 * TwoTo(7);
    assert TwoTo(13) == 4 * TwoTo(11) && TwoTo(16) == 8 * TwoTo(13) && TwoTo(18) == 4 * TwoTo(16);
    assert TwoTo(21) == 8 * TwoTo(18);
  }

  /** A character takes the shortest form that carries its code point. */
  lemma Utf8Shortest(c: char)
    ensures var n := Utf8Length([c]);
            && 1 <= n <= 4 && c as int < TwoTo(PayloadBits(n))
            && forall m | 1 <= m < n :: TwoTo(PayloadBits(m)) <= c as int
  {
    Payloads();
    assert [c][1..] == "";
  }

  lemma {:induction false} Utf8Append(a: string, b: string)
    ensures Utf8Length(a + b) == Utf8Length(a) + Utf8Length(b)
  {
    if a == "" {
      assert a + b == b;
    } else {
      Utf8Append(a[1..], b);
      assert (a + b)[0] == a[0] && (a + b)[1..] == a[1..] + b;
    }
  }

  // ----- the order of strings -----

  predicate AtMost(a: string, b: string) {
    a == "" || (b != "" && (a[0] < b[0] || (a[0] == b[0] && AtMost(a[1..], b[1..]))))
  }

  lemma {:induction false} AtMostTotal(a: string, b: string)
    ensures AtMost(a, b) || AtMost(b, a)
    ensures AtMost(a, b) && AtMost(b, a) ==> a == b
  {
    if a != "" && b != "" && a[0] == b[0] {
      AtMostTotal(a[1..], b[1..]);
      assert a == [a[0]] + a[1..] && b == [b[0]] + b[1..];
    }
  }

  lemma {:induction false} AtMostTransitive(a: string, b: string, c: string)
    requires AtMost(a, b) && AtMost(b, c)
    ensures AtMost(a, c)
  {
    if a != "" && b != "" && c != "" && a[0] == b[0] == c[0] {
      AtMostTransitive(a[1..], b[1..], c[1..]);
    }
  }

  lemma PrefixOfRest(a: string, b: string)
    requires a != "" && b != "" && a[0] == b[0]
    ensures a <= b <==> a[1..] <= b[1..]
  {
    assert a == [a[0]] + a[1..] && b == [b[0]] + b[1..];
  }

  lemma DifferAtOnce(a: string, b: string)
    requires a != "" && b != "" && a[0] != b[0]
    ensures forall k | 0 < k <= |a| && k <= |b| :: a[..k] != b[..k]
  {
    forall k | 0 < k <= |a| && k <= |b| ensures a[..k] != b[..k] {
      assert a[..k][0] == a[0] && b[..k][0] == b[0];
    }
  }

  /** Strings compare by the first place where they differ, a prefix before what it begins. */
  lemma {:induction false} AtMostExact(a: string, b: string)
    ensures AtMost(a, b) <==>
            a <= b || exists k | 0 <= k < |a| && k < |b| :: a[..k] == b[..k] && a[k] as int < b[k] as int
  {
    if a != "" && b != "" {
      if a[0] == b[0] {
        AtMostExact(a[1..], b[1..]);
        PrefixOfRest(a, b);
        if k :| 0 <= k < |a[1..]| && k < |b[1..]| && a[1..][..k] == b[1..][..k] && a[1..][k] as int < b[1..][k] as int {
          assert a[..k + 1] == [a[0]] + a[1..][..k] && b[..k + 1] == [b[0]] + b[1..][..k];
          assert a[k + 1] as int < b[k + 1] as int;
        }
        if k :| 0 <= k < |a| && k < |b| && a[..k] == b[..k] && a[k] as int < b[k] as int {
          assert k > 0;
          assert a[1..][..k - 1] == a[..k][1..] && b[1..][..k - 1] == b[..k][1..];
          assert a[1..][k - 1] as int < b[1..][k - 1] as int;
        }
      } else {
        DifferAtOnce(a, b);
        assert a[..0] == b[..0];
      }
    }
  }

  lemma {:induction false} AtMostReflexive(a: string)
    ensures AtMost(a, a)
  {
    if a != "" { AtMostReflexive(a[1..]); }
  }

  // ----- decimal numbers -----

  predicate IsDigit(c: char) {
    '0' <= c <= '9'
  }

  function Decimal(n: nat): string {
    if n < 10 then [(n + '0' as int) as char] else Decimal(n / 10) + [(n % 10 + '0' as int) as char]
  }

  predicate AllDigits(s: string) {
    forall i | 0 <= i < |s| :: IsDigit(s[i])
  }

  function ParseDecimal(s: string): nat
    requires AllDigits(s)
  {
    if s == "" then 0 else 10 * ParseDecimal(s[..|s| - 1]) + (s[|s| - 1] as int - '0' as int)
  }

  lemma {:induction false} DecimalParses(n: nat)
    ensures AllDigits(Decimal(n)) && Decimal(n) != "" && ParseDecimal(Decimal(n)) == n
    ensures n > 0 ==> Decimal(n)[0] != '0'
  {
    if n >= 10 {
      DecimalParses(n / 10);
      assert Decimal(n)[..|Decimal(n)| - 1] == Decimal(n / 10);
    } else {
      assert Decimal(n)[..0] == "";
    }
  }

  lemma {:induction false} ParsedPrints(s: string)
    requires AllDigits(s) && s != "" && s[0] != '0'
    ensures ParseDecimal(s) > 0 && Decimal(ParseDecimal(s)) == s
  {
    var front, last := s[..|s| - 1], s[|s| - 1];
    var d := last as int - '0' as int;
    assert s == front + [last];
    if front != "" {
      ParsedPrints(front);
      var n := ParseDecimal(front);
      assert (10 * n + d) / 10 == n && (10 * n + d) % 10 == d;
    }
  }
}

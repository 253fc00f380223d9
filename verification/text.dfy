/** The few Python string operations the core relies on, restricted to ASCII:
    `strip`, `lower`, `capitalize`, `in` on strings, `startswith`, the first
    word of `split()`, `split('\n')`, `sep.join`, and `str(n)` of a natural. */
module Text {

  /** Python's `str.isspace` on the ASCII range: blank, \t \n \v \f \r and
      the four separators \x1c-\x1f. */
  predicate IsSpace(c: char) {
    c == ' ' || 9 <= c as int <= 13 || 28 <= c as int <= 31
  }

  predicate AllSpace(s: string) {
    forall i :: 0 <= i < |s| ==> IsSpace(s[i])
  }

  /** Neither end of `s` is whitespace (the shape `strip` leaves behind). */
  predicate Trimmed(s: string) {
    |s| == 0 || (!IsSpace(s[0]) && !IsSpace(s[|s| - 1]))
  }

  /** `s.lstrip()`: the suffix left after dropping leading whitespace. */
  function TrimLeft(s: string): (r: string)
    ensures |r| <= |s| && r == s[|s| - |r|..]
    ensures AllSpace(s[..|s| - |r|])
    ensures |r| == 0 || !IsSpace(r[0])
  {
    if |s| > 0 && IsSpace(s[0]) then TrimLeft(s[1..]) else s
  }

  /** `s.rstrip()`: the prefix left after dropping trailing whitespace. */
  function TrimRight(s: string): (r: string)
    ensures |r| <= |s| && r == s[..|r|]
    ensures AllSpace(s[|r|..])
    ensures |r| == 0 || !IsSpace(r[|r| - 1])
  {
    if |s| > 0 && IsSpace(s[|s| - 1]) then
      var r := TrimRight(s[..|s| - 1]);
      assert s[..|s| - 1][..|r|] == s[..|r|];
      assert s[|r|..] == s[..|s| - 1][|r|..] + [s[|s| - 1]];
      r
    else s
  }

  /** `s.strip()` */
  function Strip(s: string): (r: string)
    ensures |r| <= |s|
    ensures Trimmed(r)
  {
    var l := TrimLeft(s);
    var r := TrimRight(l);
    assert |r| > 0 ==> r[0] == l[0];
    r
  }

  lemma {:induction false} TrimLeftSpacePrefix(p: string, s: string)
    requires AllSpace(p)
    ensures TrimLeft(p + s) == TrimLeft(s)
  {
    if |p| > 0 {
      var q := p[1..];
      assert IsSpace((p + s)[0]);
      assert (p + s)[1..] == q + s;
      assert AllSpace(q) by {
        forall i | 0 <= i < |q| ensures IsSpace(q[i]) {
          assert q[i] == p[i + 1];
        }
      }
      TrimLeftSpacePrefix(q, s);
    } else {
      assert p + s == s;
    }
  }

  lemma TrimRightSpaceSuffix(s: string, q: string)
    requires AllSpace(q)
    ensures TrimRight(s + q) == TrimRight(s)
  {
    if |q| > 0 {
      assert (s + q)[..|s + q| - 1] == s + q[..|q| - 1];
      TrimRightSpaceSuffix(s, q[..|q| - 1]);
    } else {
      assert s + q == s;
    }
  }

  /** Left-trimming a string that continues with more text keeps that text. */
  lemma TrimLeftAppend(s: string, q: string)
    requires !AllSpace(s)
    ensures TrimLeft(s + q) == TrimLeft(s) + q
  {
    if IsSpace(s[0]) {
      assert (s + q)[1..] == s[1..] + q;
      TrimLeftAppend(s[1..], q);
    }
  }

  lemma TrimLeftAllSpace(s: string)
    requires AllSpace(s)
    ensures TrimLeft(s) == []
  {
    if |s| > 0 {
      TrimLeftAllSpace(s[1..]);
    }
  }

  /** Whitespace padding on either side never changes what `strip` returns. */
  lemma {:induction false} StripPadding(p: string, s: string, q: string)
    requires AllSpace(p) && AllSpace(q)
    ensures Strip(p + s + q) == Strip(s)
  {
    var x := s + q;
    assert p + s + q == p + x;
    TrimLeftSpacePrefix(p, x);
    assert Strip(p + s + q) == TrimRight(TrimLeft(x));
    StripSpaceSuffix(s, q);
    assert Strip(s) == TrimRight(TrimLeft(s));
  }

  lemma StripSpaceSuffix(s: string, q: string)
    requires AllSpace(q)
    ensures TrimRight(TrimLeft(s + q)) == TrimRight(TrimLeft(s))
  {
    if AllSpace(s) {
      StripAllSpace(s, q);
    } else {
      TrimLeftAppend(s, q);
      TrimRightSpaceSuffix(TrimLeft(s), q);
    }
  }

  lemma StripAllSpace(s: string, q: string)
    requires AllSpace(s) && AllSpace(q)
    ensures TrimLeft(s + q) == [] && TrimLeft(s) == []
  {
    assert AllSpace(s + q) by {
      forall i | 0 <= i < |s + q| ensures IsSpace((s + q)[i]) {
        if i >= |s| {
          assert (s + q)[i] == q[i - |s|];
        }
      }
    }
    TrimLeftAllSpace(s + q);
    TrimLeftAllSpace(s);
  }

  /** A string with no whitespace at either end is its own `strip`. */
  lemma StripTrimmed(s: string)
    requires Trimmed(s)
    ensures Strip(s) == s
  {
  }

  function LowerChar(c: char): char {
    if 'A' <= c <= 'Z' then (c as int + 32) as char else c
  }

  function UpperChar(c: char): char {
    if 'a' <= c <= 'z' then (c as int - 32) as char else c
  }

  /** `s.lower()` on ASCII letters. */
  function Lower(s: string): (r: string)
    ensures |r| == |s|
    ensures forall i :: 0 <= i < |s| ==> r[i] == LowerChar(s[i])
  {
    if |s| == 0 then [] else [LowerChar(s[0])] + Lower(s[1..])
  }

  /** Both halves of a text that occurs occur too. */
  lemma ContainsConcat(s: string, a: string, b: string)
    requires Contains(s, a + b)
    ensures Contains(s, a) && Contains(s, b)
  {
    ContainsPiece(s, a + b, a, 0);
    ContainsPiece(s, a + b, b, |a|);
  }

  /** Lower-casing twice is lower-casing once. */
  lemma LowerIdempotent(s: string)
    ensures Lower(Lower(s)) == Lower(s)
  {
    var l := Lower(s);
    assert forall i :: 0 <= i < |s| ==> Lower(l)[i] == LowerChar(LowerChar(s[i]));
  }

  /** `s.capitalize()` on ASCII: first letter upper case, the rest lower case. */
  function Capitalize(s: string): (r: string)
    ensures |r| == |s|
    ensures |s| > 0 ==> r[0] == UpperChar(s[0]) && r[1..] == Lower(s[1..])
  {
    if |s| == 0 then [] else [UpperChar(s[0])] + Lower(s[1..])
  }

  /** `s.startswith(p)` */
  predicate StartsWith(s: string, p: string) {
    |p| <= |s| && s[..|p|] == p
  }

  /** `sub in s` */
  predicate Contains(s: string, sub: string)
    decreases |s|
  {
    StartsWith(s, sub) || (|s| > 0 && Contains(s[1..], sub))
  }

  /** `sub` occurs at position `k` of `s`. */
  lemma {:induction false} ContainsAt(s: string, sub: string, k: nat)
    requires k + |sub| <= |s| && s[k..k + |sub|] == sub
    ensures Contains(s, sub)
  {
    if k > 0 {
      assert s[1..][k - 1..k - 1 + |sub|] == s[k..k + |sub|];
      ContainsAt(s[1..], sub, k - 1);
    }
  }

  /** Where `sub` occurs in `s`. */
  lemma {:induction false} ContainsWitness(s: string, sub: string) returns (k: nat)
    requires Contains(s, sub)
    ensures k + |sub| <= |s| && s[k..k + |sub|] == sub
    decreases |s|
  {
    if StartsWith(s, sub) {
      k := 0;
    } else {
      var j := ContainsWitness(s[1..], sub);
      assert s[1..][j..j + |sub|] == s[j + 1..j + 1 + |sub|];
      k := j + 1;
    }
  }

  /** A text containing a phrase contains every piece of that phrase. */
  lemma ContainsPiece(s: string, phrase: string, piece: string, j: nat)
    requires Contains(s, phrase)
    requires j + |piece| <= |phrase| && phrase[j..j + |piece|] == piece
    ensures Contains(s, piece)
  {
    var k := ContainsWitness(s, phrase);
    var w := s[k..k + |phrase|];
    assert w == phrase;
    forall i | 0 <= i < |piece| ensures s[k + j..k + j + |piece|][i] == piece[i] {
      assert s[k + j..k + j + |piece|][i] == w[j + i];
    }
    ContainsAt(s, piece, k + j);
  }

  /** `s[:n]` */
  function Take(s: string, n: nat): (r: string)
    ensures |r| == if |s| < n then |s| else n
    ensures r == s[..|r|]
  {
    if |s| <= n then s else s[..n]
  }

  /** The first whitespace-separated word of a string that does not start with whitespace. */
  function FirstWord(s: string): (r: string)
    ensures |r| <= |s| && r == s[..|r|]
    ensures forall i :: 0 <= i < |r| ==> !IsSpace(r[i])
    ensures |r| == |s| || IsSpace(s[|r|])
  {
    if |s| == 0 || IsSpace(s[0]) then [] else [s[0]] + FirstWord(s[1..])
  }

  /** A word placed at the front, followed by whitespace or nothing, is the first word. */
  lemma {:induction false} FirstWordOf(w: string, rest: string)
    requires forall i :: 0 <= i < |w| ==> !IsSpace(w[i])
    requires |rest| == 0 || IsSpace(rest[0])
    ensures FirstWord(w + rest) == w
  {
    if |w| > 0 {
      assert (w + rest)[1..] == w[1..] + rest;
      FirstWordOf(w[1..], rest);
    } else {
      assert w + rest == rest;
    }
  }

  /** `s.split(c)` for a single-character separator: never empty, one more
      part than there are separators. */
  function Split(s: string, c: char): (r: seq<string>)
    ensures |r| >= 1
  {
    if |s| == 0 then [""]
    else if s[0] == c then [""] + Split(s[1..], c)
    else
      var t := Split(s[1..], c);
      [[s[0]] + t[0]] + t[1..]
  }

  /** `sep.join(parts)` */
  function Join(parts: seq<string>, sep: string): string {
    if |parts| == 0 then ""
    else if |parts| == 1 then parts[0]
    else parts[0] + sep + Join(parts[1..], sep)
  }

  lemma JoinCons(p: string, parts: seq<string>, sep: string)
    requires |parts| >= 1
    ensures Join([p] + parts, sep) == p + sep + Join(parts, sep)
  {
    assert ([p] + parts)[1..] == parts;
  }

  /** Joining the parts of a split with the same separator restores the string. */
  lemma {:induction false} JoinSplit(s: string, c: char)
    ensures Join(Split(s, c), [c]) == s
  {
    if |s| == 0 {
    } else if s[0] == c {
      JoinSplit(s[1..], c);
      JoinCons("", Split(s[1..], c), [c]);
      assert s == [c] + s[1..];
    } else {
      var t := Split(s[1..], c);
      JoinSplit(s[1..], c);
      if |t| == 1 {
        assert s == [s[0]] + s[1..];
      } else {
        assert t == [t[0]] + t[1..];
        JoinCons(t[0], t[1..], [c]);
        var j := Join(t[1..], [c]);
        assert s[1..] == t[0] + [c] + j;
        JoinCons([s[0]] + t[0], t[1..], [c]);
        assert Join(Split(s, c), [c]) == ([s[0]] + t[0]) + [c] + j;
        assert s == [s[0]] + s[1..];
      }
    }
  }

  /** A string without the separator splits into itself alone. */
  lemma {:induction false} SplitNoSeparator(s: string, c: char)
    requires c !in s
    ensures Split(s, c) == [s]
  {
    if |s| > 0 {
      SplitNoSeparator(s[1..], c);
      assert s == [s[0]] + s[1..];
    }
  }

  /** Splitting at a separator splits each side independently. */
  lemma {:induction false} SplitAround(a: string, b: string, c: char)
    ensures Split(a + [c] + b, c) == Split(a, c) + Split(b, c)
  {
    var s := a + [c] + b;
    if |a| == 0 {
      assert s == [c] + b;
      assert s[1..] == b;
    } else {
      assert s[0] == a[0];
      assert s[1..] == a[1..] + [c] + b;
      SplitAround(a[1..], b, c);
      if a[0] != c {
        var t := Split(a[1..], c);
        assert Split(s[1..], c) == t + Split(b, c);
      }
    }
  }

  predicate IsDigit(c: char) {
    '0' <= c <= '9'
  }

  predicate AllDigits(s: string) {
    forall i :: 0 <= i < |s| ==> IsDigit(s[i])
  }

  function DigitValue(c: char): (d: nat)
    requires IsDigit(c)
    ensures d < 10
  {
    c as int - '0' as int
  }

  function DigitChar(d: nat): (c: char)
    requires d < 10
    ensures IsDigit(c) && DigitValue(c) == d
  {
    ('0' as int + d) as char
  }

  /** `int(s)` of a string of ASCII digits, most significant first. */
  function DecimalValue(s: string): nat
    requires AllDigits(s)
  {
    if |s| == 0 then 0 else 10 * DecimalValue(s[..|s| - 1]) + DigitValue(s[|s| - 1])
  }

  /** `str(n)` for a natural number: its decimal digits, most significant first. */
  function NatToString(n: nat): (r: string)
    ensures 1 <= |r|
    ensures n >= 10 ==> |r| >= 2
    ensures forall i :: 0 <= i < |r| ==> '0' <= r[i] <= '9'
  {
    if n < 10 then [DigitChar(n)] else NatToString(n / 10) + [DigitChar(n % 10)]
  }

  /** Different naturals have different decimal representations. */
  lemma {:induction false} NatToStringInjective(m: nat, n: nat)
    requires NatToString(m) == NatToString(n)
    ensures m == n
  {
    var sm, sn := NatToString(m), NatToString(n);
    if m >= 10 && n >= 10 {
      var pm, pn := NatToString(m / 10), NatToString(n / 10);
      assert sm == pm + [DigitChar(m % 10)];
      assert sn == pn + [DigitChar(n % 10)];
      assert |pm| == |pn|;
      assert pm == sm[..|pm|] && pn == sn[..|pn|];
      NatToStringInjective(m / 10, n / 10);
      assert sm[|pm|] == DigitChar(m % 10) && sn[|pn|] == DigitChar(n % 10);
    }
  }
}

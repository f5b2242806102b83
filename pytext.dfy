/** The parts of Python's `str` behaviour the models rely on. */
module PyText {

  /** `str.isspace()`; CPython's `re` module uses the same table for `\s` in a str pattern. */
  predicate IsSpace(c: char) {
    var n := c as int;
    || 0x09 <= n <= 0x0D
    || 0x1C <= n <= 0x20
    || n == 0x85 || n == 0xA0 || n == 0x1680
    || 0x2000 <= n <= 0x200A
    || n == 0x2028 || n == 0x2029 || n == 0x202F || n == 0x205F || n == 0x3000
  }

  predicate AllSpace(s: string) {
    forall k :: 0 <= k < |s| ==> IsSpace(s[k])
  }

  /** No leading and no trailing whitespace. */
  predicate IsStripped(s: string) {
    s == [] || (!IsSpace(s[0]) && !IsSpace(s[|s| - 1]))
  }

  /** Where `s[i..].lstrip()` begins: the first non-whitespace position at or after `i`. */
  function LeftEdge(s: string, i: nat): (k: nat)
    requires i <= |s|
    ensures i <= k <= |s| && (k == |s| || !IsSpace(s[k]))
    ensures forall x :: i <= x < k ==> IsSpace(s[x])
    decreases |s| - i
  {
    if i < |s| && IsSpace(s[i]) then LeftEdge(s, i + 1) else i
  }

  /** Where `s[lo..j].rstrip()` ends: just after the last non-whitespace position before `j`. */
  function RightEdge(s: string, lo: nat, j: nat): (k: nat)
    requires lo <= j <= |s|
    ensures lo <= k <= j && (k == lo || !IsSpace(s[k - 1]))
    ensures forall x :: k <= x < j ==> IsSpace(s[x])
    decreases j - lo
  {
    if lo < j && IsSpace(s[j - 1]) then RightEdge(s, lo, j - 1) else j
  }

  /** `s.strip()`: the slice between the two edges. */
  function Strip(s: string): (r: string)
    ensures IsStripped(r)
    ensures |r| <= |s|
  {
    var i := LeftEdge(s, 0);
    s[i..RightEdge(s, i, |s|)]
  }

  /** `s.strip()` is the piece `s[i..i + |r|]` left once the whitespace at both ends is gone. */
  lemma StripIsTrimmedPiece(s: string) returns (i: nat)
    ensures i + |Strip(s)| <= |s| && Strip(s) == s[i..i + |Strip(s)|]
    ensures AllSpace(s[..i]) && AllSpace(s[i + |Strip(s)|..])
  {
    i := LeftEdge(s, 0);
    var j := RightEdge(s, i, |s|);
    assert Strip(s) == s[i..j];
    SpaceRuns(s, i, j);
  }

  lemma SpaceRuns(s: string, i: nat, j: nat)
    requires i <= j <= |s|
    requires forall x :: 0 <= x < i ==> IsSpace(s[x])
    requires forall x :: j <= x < |s| ==> IsSpace(s[x])
    ensures AllSpace(s[..i]) && AllSpace(s[j..])
  {
    assert forall k :: 0 <= k < i ==> s[..i][k] == s[k];
    assert forall k :: 0 <= k < |s| - j ==> s[j..][k] == s[j + k];
  }

  /** Nothing is left of a string made only of whitespace. */
  lemma StripBlank(s: string)
    requires AllSpace(s)
    ensures Strip(s) == []
  {
  }

  lemma StripOfStripped(s: string)
    requires IsStripped(s)
    ensures Strip(s) == s
  {
  }

  /** `sep.join(parts)` */
  function Join(sep: string, parts: seq<string>): string
  {
    if parts == [] then []
    else if |parts| == 1 then parts[0]
    else parts[0] + sep + Join(sep, parts[1..])
  }

  /** `"".join(parts)` */
  function Concat(parts: seq<string>): string
  {
    if parts == [] then [] else parts[0] + Concat(parts[1..])
  }

  predicate IsAsciiDigit(c: char) {
    '0' <= c <= '9'
  }

  /** What `\d` is on ASCII: exactly the ten digits (true of the Unicode decimal-digit class). */
  ghost predicate DecimalDigits(isDigit: char -> bool) {
    forall c: char :: c as int < 128 ==> (isDigit(c) <==> IsAsciiDigit(c))
  }

  function DigitChar(d: nat): (c: char)
    requires d < 10
    ensures IsAsciiDigit(c) && c as int - '0' as int == d
  {
    ('0' as int + d) as char
  }

  /** `str(n)` for a non-negative int: decimal, no leading zeros. */
  function NatToString(n: nat): (s: string)
    ensures |s| >= 1 && forall k :: 0 <= k < |s| ==> IsAsciiDigit(s[k])
    ensures (|s| == 1) == (n < 10)
  {
    if n < 10 then [DigitChar(n)] else NatToString(n / 10) + [DigitChar(n % 10)]
  }

  /** Distinct numbers print differently, so `str(pk)` keys never collide. */
  lemma {:induction false} NatToStringInjective(a: nat, b: nat)
    requires NatToString(a) == NatToString(b)
    ensures a == b
  {
    var s := NatToString(a);
    if a < 10 {
      assert b < 10;
      assert s[0] as int - '0' as int == a;
    } else {
      assert b >= 10;
      var sa := NatToString(a / 10);
      var sb := NatToString(b / 10);
      assert sa == s[..|s| - 1] && sb == s[..|s| - 1];
      NatToStringInjective(a / 10, b / 10);
      assert s[|s| - 1] as int - '0' as int == a % 10 == b % 10;
    }
  }

  /** The end of the run of digits starting at `j`, for a digit table `isDigit`. */
  function SkipDigits(s: string, j: nat, isDigit: char -> bool): (k: nat)
    requires j <= |s|
    ensures j <= k <= |s| && (forall x :: j <= x < k ==> isDigit(s[x])) && (k == |s| || !isDigit(s[k]))
    decreases |s| - j
  {
    if j == |s| || !isDigit(s[j]) then j else SkipDigits(s, j + 1, isDigit)
  }

  lemma SkipDigitsIs(s: string, j: nat, isDigit: char -> bool, k: nat)
    requires j <= k <= |s| && (forall x :: j <= x < k ==> isDigit(s[x])) && (k == |s| || !isDigit(s[k]))
    ensures SkipDigits(s, j, isDigit) == k
  {
  }

  /** `s.split(sep)` for a one-character separator: never empty, and no piece holds `sep`. */
  function Split(s: string, sep: char): (parts: seq<string>)
    ensures |parts| >= 1
    ensures forall k :: 0 <= k < |parts| ==> sep !in parts[k]
  {
    if s == [] then [[]]
    else
      var init := Split(s[..|s| - 1], sep);
      if s[|s| - 1] == sep then init + [[]]
      else init[..|init| - 1] + [init[|init| - 1] + [s[|s| - 1]]]
  }

  lemma {:induction false} JoinSnoc(sep: string, parts: seq<string>, x: string)
    requires parts != []
    ensures Join(sep, parts + [x]) == Join(sep, parts) + sep + x
    decreases |parts|
  {
    if |parts| == 1 {
      assert parts + [x] == [parts[0], x];
    } else {
      assert (parts + [x])[1..] == parts[1..] + [x];
      JoinSnoc(sep, parts[1..], x);
    }
  }

  /** Joining the pieces of a split with the separator gives back the string. */
  lemma {:induction false} JoinSplit(s: string, sep: char)
    ensures Join([sep], Split(s, sep)) == s
    decreases |s|
  {
    if s != [] {
      var t := s[..|s| - 1];
      var c := s[|s| - 1];
      var init := Split(t, sep);
      JoinSplit(t, sep);
      if c == sep {
        JoinSnoc([sep], init, []);
      } else {
        var front := init[..|init| - 1];
        var last := init[|init| - 1];
        assert init == front + [last];
        if front == [] {
          assert Join([sep], [last + [c]]) == last + [c];
        } else {
          JoinSnoc([sep], front, last);
          JoinSnoc([sep], front, last + [c]);
        }
      }
      assert t + [c] == s;
    }
  }

  lemma {:induction false} SplitAfterSeparator(t: string, sep: char, x: string)
    requires sep !in x
    ensures Split(t + [sep] + x, sep) == Split(t, sep) + [x]
    decreases |x|
  {
    if x == [] {
      assert (t + [sep] + x)[..|t + [sep] + x| - 1] == t;
    } else {
      var y := x[..|x| - 1];
      var c := x[|x| - 1];
      assert c != sep && sep !in y;
      var u := t + [sep] + x;
      assert u[..|u| - 1] == t + [sep] + y;
      SplitAfterSeparator(t, sep, y);
      assert y + [c] == x;
    }
  }

  /** Splitting a join of separator-free pieces gives back the pieces. */
  lemma {:induction false} SplitJoin(parts: seq<string>, sep: char)
    requires parts != []
    requires forall k :: 0 <= k < |parts| ==> sep !in parts[k]
    ensures Split(Join([sep], parts), sep) == parts
    decreases |parts|
  {
    var n := |parts|;
    if n == 1 {
      SplitFree(parts[0], sep);
    } else {
      var front := parts[..n - 1];
      assert parts == front + [parts[n - 1]];
      JoinSnoc([sep], front, parts[n - 1]);
      SplitAfterSeparator(Join([sep], front), sep, parts[n - 1]);
      SplitJoin(front, sep);
    }
  }

  lemma {:induction false} SplitFree(s: string, sep: char)
    requires sep !in s
    ensures Split(s, sep) == [s]
    decreases |s|
  {
    if s != [] {
      SplitFree(s[..|s| - 1], sep);
      assert s[..|s| - 1] + [s[|s| - 1]] == s;
    }
  }

  /** `[s[i:i + k] for i in range(0, len(s), k)]`: the pieces concatenate back to `s`; each has `k`
      characters except the last, which has between 1 and `k`. */
  function Groups(s: string, k: nat): (g: seq<string>)
    requires k > 0
    ensures Concat(g) == s
    ensures forall i :: 0 <= i < |g| ==> 1 <= |g[i]| <= k && (i < |g| - 1 ==> |g[i]| == k)
    decreases |s|
  {
    if s == [] then []
    else if |s| <= k then [s]
    else
      var rest := Groups(s[k..], k);
      assert Concat([s[..k]] + rest) == s[..k] + Concat(rest) by {
        assert ([s[..k]] + rest)[1..] == rest;
      }
      assert s[..k] + s[k..] == s;
      [s[..k]] + rest
  }

  /** Every group is a slice of `s`, so a character absent from `s` is absent from every group. */
  lemma {:induction false} GroupsAvoid(s: string, k: nat, c: char)
    requires k > 0 && c !in s
    ensures forall i :: 0 <= i < |Groups(s, k)| ==> c !in Groups(s, k)[i]
    decreases |s|
  {
    if |s| > k {
      assert c !in s[k..] by {
        forall x | 0 <= x < |s| - k ensures s[k..][x] != c { assert s[k..][x] == s[k + x]; }
      }
      GroupsAvoid(s[k..], k, c);
      assert c !in s[..k] by {
        forall x | 0 <= x < k ensures s[..k][x] != c { assert s[..k][x] == s[x]; }
      }
    }
  }

  lemma GroupsCons(s: string, k: nat)
    requires 0 < k < |s|
    ensures Groups(s, k) == [s[..k]] + Groups(s[k..], k)
  {
  }

  /** Three full groups, or two and a shorter last one. */
  lemma GroupsOfThree(a: string, b: string, c: string)
    requires |a| == 3 && |b| == 3 && 1 <= |c| <= 3
    ensures Groups(a + b + c, 3) == [a, b, c]
  {
    var s := a + b + c;
    GroupsCons(s, 3);
    assert s[..3] == a && s[3..] == b + c;
    GroupsCons(b + c, 3);
    assert (b + c)[..3] == b && (b + c)[3..] == c;
  }

  /** `" ".join` of three parts. */
  lemma JoinThree(sep: string, a: string, b: string, c: string)
    ensures Join(sep, [a, b, c]) == a + sep + b + sep + c
  {
    var g := [a, b, c];
    assert g[1..] == [b, c] && g[1..][1..] == [c];
    assert Join(sep, [b, c]) == b + sep + c;
    assert Join(sep, g) == a + sep + (b + sep + c);
    assert a + sep + (b + sep + c) == a + sep + b + sep + c;
  }
}

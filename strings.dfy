/**
 * The few Python `str` operations the bot relies on, on `seq<char>`
 * (a Dafny `char` is a Unicode scalar value, as a Python code point is):
 * `str(int)`, `lower()`/`upper()` (ASCII letters only), the `in` substring
 * test, `startswith`, `split("\n")`, `"\n".join(...)`, `strip()` and slicing.
 */
module Strings {

  /** The decimal digit character for `d`. */
  function DigitChar(d: nat): (c: char)
    requires d < 10
    ensures '0' <= c <= '9'
  {
    (48 + d) as char
  }

  /** Decimal rendering of a natural number, without leading zeros. */
  function NatToString(n: nat): (s: string)
    ensures |s| >= 1
    ensures n < 10 <==> |s| == 1
    ensures forall i :: 0 <= i < |s| ==> '0' <= s[i] <= '9'
    decreases n
  {
    if n < 10 then [DigitChar(n)] else NatToString(n / 10) + [DigitChar(n % 10)]
  }

  /** Python's `str(n)` for an `int`: a minus sign, then the decimal digits. */
  function IntToString(n: int): (s: string)
    ensures |s| >= 1
    ensures (s[0] == '-') <==> n < 0
  {
    if n < 0 then "-" + NatToString(-n) else NatToString(n)
  }

  /** Two different naturals never render to the same digits. */
  lemma {:induction false} NatToStringInjective(a: nat, b: nat)
    requires NatToString(a) == NatToString(b)
    ensures a == b
  {
    if a >= 10 && b >= 10 {
      var sa, sb := NatToString(a), NatToString(b);
      assert sa[..|sa| - 1] == NatToString(a / 10);
      assert sb[..|sb| - 1] == NatToString(b / 10);
      NatToStringInjective(a / 10, b / 10);
      assert DigitChar(a % 10) == sa[|sa| - 1] == sb[|sb| - 1] == DigitChar(b % 10);
    } else if a < 10 && b < 10 {
      assert DigitChar(a) == NatToString(a)[0] == NatToString(b)[0] == DigitChar(b);
    }
  }

  /** `str` is injective on `int`: distinct guild ids give distinct keys. */
  lemma IntToStringInjective(a: int, b: int)
    requires IntToString(a) == IntToString(b)
    ensures a == b
  {
    if a < 0 && b < 0 {
      assert NatToString(-a) == IntToString(a)[1..] == IntToString(b)[1..] == NatToString(-b);
      NatToStringInjective(-a, -b);
    } else if a >= 0 && b >= 0 {
      NatToStringInjective(a, b);
    }
  }

  /** ASCII lower-casing of one character. */
  function LowerChar(c: char): char
  {
    if 'A' <= c <= 'Z' then (c as int + 32) as char else c
  }

  /** ASCII upper-casing of one character. */
  function UpperChar(c: char): char
  {
    if 'a' <= c <= 'z' then (c as int - 32) as char else c
  }

  /** `s.lower()`, restricted to ASCII letters. */
  function Lower(s: string): (r: string)
    ensures |r| == |s|
    ensures forall i :: 0 <= i < |s| ==> r[i] == LowerChar(s[i])
  {
    seq(|s|, i requires 0 <= i < |s| => LowerChar(s[i]))
  }

  /** `s.upper()`, restricted to ASCII letters. */
  function Upper(s: string): (r: string)
    ensures |r| == |s|
    ensures forall i :: 0 <= i < |s| ==> r[i] == UpperChar(s[i])
  {
    seq(|s|, i requires 0 <= i < |s| => UpperChar(s[i]))
  }

  /** `s.startswith(t)`. */
  predicate StartsWith(s: string, t: string)
  {
    |t| <= |s| && s[..|t|] == t
  }

  /** The characters of `t` from index `k` on match `s` from index `i + k` on. */
  predicate MatchesFrom(s: string, t: string, i: nat, k: nat)
    requires i + |t| <= |s| && k <= |t|
    decreases |t| - k
  {
    k == |t| || (s[i + k] == t[k] && MatchesFrom(s, t, i, k + 1))
  }

  /** `t` occurs in `s` at some position `i` or later. */
  predicate ContainsFrom(s: string, t: string, i: nat)
    requires i <= |s|
    decreases |s| - i
  {
    i + |t| <= |s| && (MatchesFrom(s, t, i, 0) || ContainsFrom(s, t, i + 1))
  }

  /** Python's substring test `t in s`, scanning the positions of `s` in turn. */
  predicate Contains(s: string, t: string)
  {
    ContainsFrom(s, t, 0)
  }

  /** `t` occurs in `s` starting at position `i`. */
  predicate OccursAt(s: string, t: string, i: nat)
  {
    i + |t| <= |s| && s[i..i + |t|] == t
  }

  lemma {:induction false} MatchesFromIff(s: string, t: string, i: nat, k: nat)
    requires i + |t| <= |s| && k <= |t|
    ensures MatchesFrom(s, t, i, k) <==> s[i + k..i + |t|] == t[k..]
    decreases |t| - k
  {
    if k < |t| {
      MatchesFromIff(s, t, i, k + 1);
      assert s[i + k..i + |t|] == [s[i + k]] + s[i + k + 1..i + |t|];
      assert t[k..] == [t[k]] + t[k + 1..];
    }
  }

  lemma {:induction false} ContainsFromIff(s: string, t: string, i: nat)
    requires i <= |s|
    ensures ContainsFrom(s, t, i) <==> exists j: nat :: i <= j && OccursAt(s, t, j)
    decreases |s| - i
  {
    if i + |t| <= |s| {
      MatchesFromIff(s, t, i, 0);
      assert t[0..] == t;
      if MatchesFrom(s, t, i, 0) {
        assert OccursAt(s, t, i);
      }
      if i < |s| {
        ContainsFromIff(s, t, i + 1);
      }
      if exists j: nat :: i <= j && OccursAt(s, t, j) {
        var j: nat :| i <= j && OccursAt(s, t, j);
        assert j == i || (i + 1 <= j && i < |s|);
      }
    } else {
      assert forall j: nat :: i <= j ==> !OccursAt(s, t, j);
    }
  }

  /** `t in s` holds exactly when `t` occurs at some position of `s`. */
  lemma ContainsIff(s: string, t: string)
    ensures Contains(s, t) <==> exists i: nat :: OccursAt(s, t, i)
  {
    ContainsFromIff(s, t, 0);
  }

  /** A longer text never occurs in a shorter one, and every text occurs in itself. */
  lemma ContainsBounds(s: string, t: string)
    ensures Contains(s, t) ==> |t| <= |s|
    ensures Contains(s, s)
  {
    ContainsIff(s, t);
    ContainsIff(s, s);
    assert OccursAt(s, s, 0);
  }

  /** A text holding one character of `t` nowhere cannot hold `t`. */
  lemma {:induction false} MissingCharNotContained(s: string, t: string, k: nat)
    requires k < |t| && t[k] !in s
    ensures !Contains(s, t)
  {
    forall i: nat ensures !OccursAt(s, t, i) {
      if i + |t| <= |s| {
        assert s[i..i + |t|][k] == s[i + k];
      }
    }
    ContainsIff(s, t);
  }

  /** A text holds whatever occurs in it at some position. */
  lemma OccursContains(s: string, t: string, i: nat)
    requires OccursAt(s, t, i)
    ensures Contains(s, t)
  {
    ContainsIff(s, t);
  }

  /** Containment is transitive: a text holding `u` holds everything `u` holds. */
  lemma ContainsTrans(s: string, u: string, t: string)
    requires Contains(s, u) && Contains(u, t)
    ensures Contains(s, t)
  {
    ContainsIff(s, u);
    ContainsIff(u, t);
    var a: nat :| OccursAt(s, u, a);
    var b: nat :| OccursAt(u, t, b);
    forall k | 0 <= k < |t| ensures s[a + b + k] == t[k] {
      assert t[k] == u[b + k] == s[a + b + k];
    }
    assert s[a + b..a + b + |t|] == t;
    assert OccursAt(s, t, a + b);
    ContainsIff(s, t);
  }

  /** Python's `s.split(sep)` for a one-character separator. */
  function Split(s: string, sep: char): (parts: seq<string>)
    ensures |parts| >= 1
    ensures forall i :: 0 <= i < |parts| ==> sep !in parts[i]
    decreases |s|
  {
    if |s| == 0 then [""]
    else
      var rest := Split(s[1..], sep);
      if s[0] == sep then [""] + rest
      else [[s[0]] + rest[0]] + rest[1..]
  }

  /** Python's `sep.join(parts)` for a one-character separator. */
  function Join(parts: seq<string>, sep: char): string
    decreases |parts|
  {
    if |parts| == 0 then ""
    else if |parts| == 1 then parts[0]
    else parts[0] + [sep] + Join(parts[1..], sep)
  }

  /** Joining the pieces of a split restores the original text. */
  lemma {:induction false} JoinSplit(s: string, sep: char)
    ensures Join(Split(s, sep), sep) == s
    decreases |s|
  {
    if |s| > 0 {
      var rest := Split(s[1..], sep);
      JoinSplit(s[1..], sep);
      if s[0] == sep {
        assert Split(s, sep) == [""] + rest;
        assert ([""] + rest)[1..] == rest;
      } else {
        var parts := [[s[0]] + rest[0]] + rest[1..];
        assert Split(s, sep) == parts;
        if |rest| == 1 {
          assert Join(rest, sep) == rest[0];
        } else {
          assert parts[1..] == rest[1..];
          assert Join(rest, sep) == rest[0] + [sep] + Join(rest[1..], sep);
        }
      }
    }
  }

  /** The characters for which Python's `str.isspace()` holds. */
  predicate IsSpace(c: char)
  {
    ('\t' <= c <= '\r') || ('\U{1C}' <= c <= ' ') || c == '\U{85}' || c == '\U{A0}'
    || c == '\U{1680}' || ('\U{2000}' <= c <= '\U{200A}') || c == '\U{2028}' || c == '\U{2029}'
    || c == '\U{202F}' || c == '\U{205F}' || c == '\U{3000}'
  }

  /** `s.lstrip()`: drops leading whitespace. */
  function StripStart(s: string): (r: string)
    ensures |r| <= |s| && r == s[|s| - |r|..]
    ensures r != [] ==> !IsSpace(r[0])
    ensures forall i :: 0 <= i < |s| - |r| ==> IsSpace(s[i])
    decreases |s|
  {
    if |s| > 0 && IsSpace(s[0]) then StripStart(s[1..]) else s
  }

  /** `s.rstrip()`: drops trailing whitespace. */
  function StripEnd(s: string): (r: string)
    ensures |r| <= |s| && r == s[..|r|]
    ensures r != [] ==> !IsSpace(r[|r| - 1])
    ensures forall i :: |r| <= i < |s| ==> IsSpace(s[i])
    decreases |s|
  {
    if |s| > 0 && IsSpace(s[|s| - 1]) then StripEnd(s[..|s| - 1]) else s
  }

  /** `s.strip()`: the text between its leading and its trailing
      whitespace. */
  function Strip(s: string): (r: string)
    ensures |r| <= |s|
    ensures r != [] ==> !IsSpace(r[0]) && !IsSpace(r[|r| - 1])
    ensures exists a, b :: 0 <= a <= b <= |s| && r == s[a..b]
                           && (forall i :: 0 <= i < a ==> IsSpace(s[i]))
                           && (forall i :: b <= i < |s| ==> IsSpace(s[i]))
  {
    var t := StripStart(s);
    var r := StripEnd(t);
    var a, b := |s| - |t|, |s| - |t| + |r|;
    assert t == s[a..];
    assert r == s[a..b];
    assert forall i :: b <= i < |s| ==> IsSpace(s[i]) by {
      forall i | b <= i < |s| ensures IsSpace(s[i]) {
        assert s[i] == t[i - a];
      }
    }
    r
  }

  /** Python's slice `s[:n]`. */
  function Take<T>(s: seq<T>, n: nat): (r: seq<T>)
    ensures |r| == if |s| <= n then |s| else n
    ensures r == s[..|r|]
  {
    if |s| <= n then s else s[..n]
  }
}

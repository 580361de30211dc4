/** JavaScript string primitives the core relies on: the `\s` character class,
    `String.prototype.trim`, case-insensitive literal matching as the `/i` flag
    does it, and `String.prototype.includes`. */
module Strings {

  /** The characters JavaScript's `\s` matches (WhiteSpace and LineTerminator);
      `trim` removes exactly this set from both ends. */
  predicate IsSpace(c: char) {
    var n := c as int;
    n == 0x09 || n == 0x0A || n == 0x0B || n == 0x0C || n == 0x0D || n == 0x20
    || n == 0xA0 || n == 0x1680 || (0x2000 <= n <= 0x200A) || n == 0x2028
    || n == 0x2029 || n == 0x202F || n == 0x205F || n == 0x3000 || n == 0xFEFF
  }

  predicate AllSpace(s: string) {
    forall k :: 0 <= k < |s| ==> IsSpace(s[k])
  }

  /** Index `k` of `s` holds a blank. */
  predicate SpaceAt(s: string, k: int)
    requires 0 <= k < |s|
  {
    IsSpace(s[k])
  }

  /** Every index from `i` up to (not including) `j` holds a blank. */
  predicate SpacesBetween(s: string, i: int, j: int)
    requires 0 <= i <= j <= |s|
  {
    forall k :: i <= k < j ==> SpaceAt(s, k)
  }

  /** A range of blanks is a blank slice. */
  lemma SpacesBetweenSlice(s: string, i: int, j: int)
    requires 0 <= i <= j <= |s|
    ensures SpacesBetween(s, i, j) <==> AllSpace(s[i..j])
  {
    if SpacesBetween(s, i, j) {
      forall k | 0 <= k < j - i ensures IsSpace(s[i..j][k]) {
        assert s[i..j][k] == s[i + k] && SpaceAt(s, i + k);
      }
    }
    if AllSpace(s[i..j]) {
      forall k | i <= k < j ensures SpaceAt(s, k) {
        assert s[i..j][k - i] == s[k];
      }
    }
  }

  /** `s.trimStart()`: drops the leading run of blanks and nothing else. */
  function TrimStart(s: string): (r: string)
    ensures |r| <= |s| && r == s[|s| - |r|..]
    ensures AllSpace(s[..|s| - |r|])
    ensures r == [] || !IsSpace(r[0])
  {
    if s != [] && IsSpace(s[0]) then TrimStart(s[1..]) else s
  }

  /** `s.trimEnd()`: drops the trailing run of blanks and nothing else. */
  function TrimEnd(s: string): (r: string)
    ensures |r| <= |s| && r == s[..|r|]
    ensures AllSpace(s[|r|..])
    ensures r == [] || !IsSpace(r[|r| - 1])
  {
    if s != [] && IsSpace(s[|s| - 1]) then TrimEnd(s[..|s| - 1]) else s
  }

  /** `s.trim()`. */
  function Trim(s: string): string {
    TrimEnd(TrimStart(s))
  }

  /** Leading blanks do not change `trimStart`. */
  lemma {:induction false} TrimStartSpacePrefix(a: string, x: string)
    requires AllSpace(a)
    ensures TrimStart(a + x) == TrimStart(x)
  {
    if a != [] {
      var y := a + x;
      assert y[0] == a[0] && y[1..] == a[1..] + x;
      assert TrimStart(y) == TrimStart(y[1..]);
      assert AllSpace(a[1..]) by {
        forall k | 0 <= k < |a| - 1 ensures IsSpace(a[1..][k]) {
          assert a[1..][k] == a[k + 1];
        }
      }
      TrimStartSpacePrefix(a[1..], x);
    } else {
      assert a + x == x;
    }
  }

  /** Trailing blanks do not change `trimEnd`. */
  lemma {:induction false} TrimEndSpaceSuffix(x: string, c: string)
    requires AllSpace(c)
    ensures TrimEnd(x + c) == TrimEnd(x)
  {
    if c != [] {
      assert (x + c)[..|x + c| - 1] == x + c[..|c| - 1];
      TrimEndSpaceSuffix(x, c[..|c| - 1]);
    } else {
      assert x + c == x;
    }
  }

  /** Once a non-blank character has been reached, what follows is kept. */
  lemma {:induction false} TrimStartKeepsTail(b: string, c: string)
    requires !AllSpace(b)
    ensures TrimStart(b + c) == TrimStart(b) + c
  {
    if IsSpace(b[0]) {
      assert (b + c)[1..] == b[1..] + c;
      assert !AllSpace(b[1..]) by {
        var k :| 0 <= k < |b| && !IsSpace(b[k]);
        assert b[1..][k - 1] == b[k];
      }
      TrimStartKeepsTail(b[1..], c);
    }
  }

  /** A blank-only string trims to nothing. */
  lemma {:induction false} TrimStartAllSpace(s: string)
    requires AllSpace(s)
    ensures TrimStart(s) == []
  {
    if s != [] {
      TrimStartAllSpace(s[1..]);
    }
  }

  /** Blanks around a string never change its trim. */
  lemma TrimSpacePadding(a: string, b: string, c: string)
    requires AllSpace(a) && AllSpace(c)
    ensures Trim(a + b + c) == Trim(b)
  {
    assert a + b + c == a + (b + c);
    TrimStartSpacePrefix(a, b + c);
    if AllSpace(b) {
      assert AllSpace(b + c);
      TrimStartAllSpace(b + c);
      TrimStartAllSpace(b);
    } else {
      TrimStartKeepsTail(b, c);
      TrimEndSpaceSuffix(TrimStart(b), c);
    }
  }

  /** A string with non-blank ends is its own trim. */
  lemma TrimOfTrimmed(s: string)
    requires s == [] || (!IsSpace(s[0]) && !IsSpace(s[|s| - 1]))
    ensures Trim(s) == s
  {
  }

  /** Trimming is idempotent. */
  lemma TrimIdempotent(s: string)
    ensures Trim(Trim(s)) == Trim(s)
  {
    var t := TrimStart(s);
    var r := TrimEnd(t);
    assert r == [] || !IsSpace(r[0]) by {
      if r != [] {
        assert r[0] == t[0];
      }
    }
    TrimOfTrimmed(r);
  }

  /** ASCII upper case of an ASCII lower-case letter; any other character unchanged.
      This agrees with the `/i` canonicalisation on the pattern characters this
      model matches (the lower-case letters and the colon of the two labels); it
      is not the canonicalisation of arbitrary characters. */
  function Upper(c: char): char {
    if 'a' <= c <= 'z' then (c as int - 32) as char else c
  }

  /** Case-insensitive comparison of an input character with an ASCII pattern
      character that is a lower-case letter or punctuation, as the non-Unicode `/i`
      flag canonicalises them: the character itself or its upper case matches, and
      a non-ASCII character never does. */
  predicate EqIgnoreCase(c: char, p: char) {
    c == p || c == Upper(p)
  }

  /** The pattern characters of `lit`, matched case-insensitively, start at index `i`. */
  predicate MatchesAt(s: string, i: int, lit: string) {
    0 <= i && i + |lit| <= |s| && MatchesFrom(s, i, lit, 0)
  }

  /** Pattern characters `k` onwards of `lit` match from index `i + k` on. */
  predicate MatchesFrom(s: string, i: nat, lit: string, k: nat)
    requires i + |lit| <= |s|
    decreases |lit| - k
  {
    k >= |lit| || (EqIgnoreCase(s[i + k], lit[k]) && MatchesFrom(s, i, lit, k + 1))
  }

  /** Each pattern character of a match, one at a time. */
  lemma {:induction false} MatchesFromChar(s: string, i: nat, lit: string, m: nat, k: nat)
    requires i + |lit| <= |s| && MatchesFrom(s, i, lit, m) && m <= k < |lit|
    ensures EqIgnoreCase(s[i + k], lit[k])
    decreases k - m
  {
    if m < k {
      MatchesFromChar(s, i, lit, m + 1, k);
    }
  }

  lemma MatchesAtChar(s: string, i: int, lit: string, k: nat)
    requires MatchesAt(s, i, lit) && k < |lit|
    ensures EqIgnoreCase(s[i + k], lit[k])
  {
    MatchesFromChar(s, i, lit, 0, k);
  }

  /** A match only depends on the characters it covers. */
  lemma {:induction false} MatchesFromSame(s: string, i: nat, t: string, j: nat, lit: string, m: nat)
    requires i + |lit| <= |s| && j + |lit| <= |t|
    requires s[i..i + |lit|] == t[j..j + |lit|]
    ensures MatchesFrom(s, i, lit, m) <==> MatchesFrom(t, j, lit, m)
    decreases |lit| - m
  {
    if m < |lit| {
      assert s[i + m] == s[i..i + |lit|][m] == t[j..j + |lit|][m] == t[j + m];
      MatchesFromSame(s, i, t, j, lit, m + 1);
    }
  }

  lemma MatchesAtSame(s: string, i: nat, t: string, j: nat, lit: string)
    requires i + |lit| <= |s| && j + |lit| <= |t|
    requires s[i..i + |lit|] == t[j..j + |lit|]
    ensures MatchesAt(s, i, lit) <==> MatchesAt(t, j, lit)
  {
    MatchesFromSame(s, i, t, j, lit, 0);
  }

  /** An exact occurrence is a case-insensitive match. */
  lemma {:induction false} MatchesFromExact(s: string, i: nat, lit: string, m: nat)
    requires i + |lit| <= |s|
    requires s[i..i + |lit|] == lit
    ensures MatchesFrom(s, i, lit, m)
    decreases |lit| - m
  {
    if m < |lit| {
      assert s[i + m] == s[i..i + |lit|][m];
      MatchesFromExact(s, i, lit, m + 1);
    }
  }

  /** `s.search(/lit/i) !== -1`: some index starts a case-insensitive match. */
  predicate HasMatch(s: string, lit: string) {
    exists j :: 0 <= j <= |s| && MatchesAt(s, j, lit)
  }

  /** The exact text `w` starts at index `i`. */
  predicate OccursAt(s: string, i: int, w: string) {
    0 <= i && i + |w| <= |s| && s[i..i + |w|] == w
  }

  /** `s.includes(w)`. */
  predicate Contains(s: string, w: string) {
    exists i :: 0 <= i <= |s| && OccursAt(s, i, w)
  }

  /** An occurrence of `w` inside `a + sep + b` lies inside `a` or inside `b` when no
      character of `sep` occurs in `w`. */
  lemma ContainsAcrossSeparator(a: string, sep: string, b: string, w: string)
    requires sep != [] && w != []
    requires forall k, l :: 0 <= k < |sep| && 0 <= l < |w| ==> sep[k] != w[l]
    requires !Contains(a, w) && !Contains(b, w)
    ensures !Contains(a + sep + b, w)
  {
    var s := a + sep + b;
    forall i | 0 <= i <= |s| ensures !OccursAt(s, i, w) {
      if i + |w| <= |s| {
        if i + |w| <= |a| {
          assert s[i..i + |w|] == a[i..i + |w|];
          assert !OccursAt(a, i, w);
        } else if i >= |a| + |sep| {
          var j := i - |a| - |sep|;
          assert s[|a| + |sep|..] == b;
          assert s[i..i + |w|] == s[|a| + |sep|..][j..j + |w|];
          assert !OccursAt(b, j, w);
        } else {
          var m := if i >= |a| then i else |a|;
          assert s[m] == sep[m - |a|];
          assert s[i..i + |w|][m - i] == s[m] != w[m - i];
        }
      }
    }
  }

  /** A text without the first character of `w` does not contain `w`. */
  lemma NotContainsFirst(s: string, w: string)
    requires w != [] && forall k :: 0 <= k < |s| ==> s[k] != w[0]
    ensures !Contains(s, w)
  {
    forall i | 0 <= i <= |s| ensures !OccursAt(s, i, w) {
      if i + |w| <= |s| {
        assert s[i..i + |w|][0] == s[i];
      }
    }
  }
}

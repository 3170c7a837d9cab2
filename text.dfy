/**
 * String operations of the JavaScript runtime that the services and the
 * composer rely on: substring search (`includes`), `trim`, global literal
 * replacement (`replace(/x/g, '')`), `split(',')[1]` and the decimal
 * rendering of a number inside a template literal.
 */
module Text {
  import opened Types

  /** `s.includes(p)`: p occurs somewhere in s. */
  predicate Contains(s: string, p: string)
    decreases |s|
  {
    p <= s || (s != [] && Contains(s[1..], p))
  }

  /** The characters `String.prototype.trim` removes (WhiteSpace and LineTerminator of ECMA-262). */
  predicate IsWhitespace(c: char)
  {
    || ('\t' <= c <= '\r')   // tab, line feed, vertical tab, form feed, carriage return
    || c == ' '
    || c == '\U{00A0}'
    || c == '\U{1680}'
    || ('\U{2000}' <= c <= '\U{200A}')
    || c == '\U{2028}'
    || c == '\U{2029}'
    || c == '\U{202F}'
    || c == '\U{205F}'
    || c == '\U{3000}'
    || c == '\U{FEFF}'
  }

  /** Drops leading whitespace: the result is the suffix of s left after every dropped character was whitespace. */
  function TrimStart(s: string): (r: string)
    ensures |r| <= |s| && r == s[|s| - |r|..]
    ensures r == [] || !IsWhitespace(r[0])
    ensures forall i :: 0 <= i < |s| - |r| ==> IsWhitespace(s[i])
    decreases |s|
  {
    if s != [] && IsWhitespace(s[0]) then TrimStart(s[1..]) else s
  }

  /** Drops trailing whitespace: the result is a prefix of s, and what was cut off is whitespace. */
  function TrimEnd(s: string): (r: string)
    ensures |r| <= |s| && r == s[..|r|]
    ensures r == [] || !IsWhitespace(r[|r| - 1])
    ensures forall i :: |r| <= i < |s| ==> IsWhitespace(s[i])
    decreases |s|
  {
    if s != [] && IsWhitespace(s[|s| - 1]) then TrimEnd(s[..|s| - 1]) else s
  }

  /** `s.trim()`: a slice of s that neither starts nor ends with whitespace. */
  function Trim(s: string): (r: string)
    ensures |r| <= |s|
    ensures r == [] || (!IsWhitespace(r[0]) && !IsWhitespace(r[|r| - 1]))
  {
    var t := TrimStart(s);
    var r := TrimEnd(t);
    assert r == [] || r[0] == t[0];
    r
  }

  /** A string is blank (`!s.trim()`) exactly when every character of it is whitespace. */
  lemma BlankIff(s: string)
    ensures Trim(s) == [] <==> forall i :: 0 <= i < |s| ==> IsWhitespace(s[i])
  {
    var t := TrimStart(s);
    if t != [] {
      // the first character TrimStart keeps is not whitespace, and TrimEnd cannot cut it
      assert t[0] == s[|s| - |t|] && !IsWhitespace(t[0]);
    }
  }

  /** Every character is whitespace, checked front to back. */
  predicate Blank(s: string)
  {
    s == [] || (IsWhitespace(s[0]) && Blank(s[1..]))
  }

  /** `!s.trim()` is the same test as Blank: trimming removes everything exactly when everything is whitespace. */
  lemma {:induction false} BlankIsTrimmedAway(s: string)
    ensures Blank(s) <==> Trim(s) == []
  {
    BlankAll(s);
    BlankIff(s);
  }

  lemma {:induction false} BlankAll(s: string)
    ensures Blank(s) <==> forall i :: 0 <= i < |s| ==> IsWhitespace(s[i])
    decreases |s|
  {
    if s != [] {
      BlankAll(s[1..]);
      assert forall i :: 1 <= i < |s| ==> s[i] == s[1..][i - 1];
    }
  }

  /** Trimming is idempotent. */
  lemma TrimIdempotent(s: string)
    ensures Trim(Trim(s)) == Trim(s)
  {
    var r := Trim(s);
    assert TrimStart(r) == r;
    assert TrimEnd(r) == r;
  }

  /**
   * `s.replace(/pat/g, '')` for a literal pattern: scanning left to right,
   * every non-overlapping occurrence of pat is deleted.
   */
  function RemoveAll(s: string, pat: string): (r: string)
    requires pat != []
    ensures |r| <= |s|
    ensures forall c :: c in r ==> c in s
    decreases |s|
  {
    if s == [] then []
    else if pat <= s then RemoveAll(s[|pat|..], pat)
    else [s[0]] + RemoveAll(s[1..], pat)
  }

  /** p sits in s at position k. */
  predicate OccursAt(s: string, p: string, k: int)
  {
    0 <= k <= |s| - |p| && s[k..k + |p|] == p
  }

  /** Contains agrees with the textbook definition: p is a slice of s at some position. */
  lemma {:induction false} ContainsIff(s: string, p: string)
    ensures Contains(s, p) <==> exists k :: OccursAt(s, p, k)
    decreases |s|
  {
    if p <= s {
      assert OccursAt(s, p, 0);
    } else if s == [] {
      assert !Contains(s, p);
      assert forall k :: !OccursAt(s, p, k);
    } else {
      ContainsIff(s[1..], p);
      if Contains(s[1..], p) {
        var k :| OccursAt(s[1..], p, k);
        assert OccursAt(s, p, k + 1) by { assert s[k + 1..k + 1 + |p|] == s[1..][k..k + |p|]; }
      }
      if exists k :: OccursAt(s, p, k) {
        var k :| OccursAt(s, p, k);
        assert k != 0;
        assert OccursAt(s[1..], p, k - 1) by { assert s[1..][k - 1..k - 1 + |p|] == s[k..k + |p|]; }
      }
    }
  }

  /**
   * r can be read off s left to right by skipping characters: r is a
   * subsequence of s (matched greedily).
   */
  predicate Subsequence(r: string, s: string)
    decreases |s|
  {
    if r == [] then true
    else if s == [] then false
    else if r[0] == s[0] then Subsequence(r[1..], s[1..])
    else Subsequence(r, s[1..])
  }

  /** Putting a character in front keeps a subsequence a subsequence. */
  lemma {:induction false} SubsequenceCons(r: string, c: char, t: string)
    requires Subsequence(r, t)
    ensures Subsequence(r, [c] + t)
    decreases |t|, 1
  {
    assert ([c] + t)[1..] == t;
    if r != [] && r[0] == c {
      SubsequenceTail(r, t);
    }
  }

  /** Dropping the first character of a subsequence leaves a subsequence. */
  lemma {:induction false} SubsequenceTail(r: string, t: string)
    requires r != [] && Subsequence(r, t)
    ensures Subsequence(r[1..], t)
    decreases |t|, 0
  {
    if r[0] == t[0] {
      SubsequenceCons(r[1..], t[0], t[1..]);
      assert [t[0]] + t[1..] == t;
    } else {
      SubsequenceTail(r, t[1..]);
      SubsequenceCons(r[1..], t[0], t[1..]);
      assert [t[0]] + t[1..] == t;
    }
  }

  /** A subsequence of a suffix is a subsequence of the whole. */
  lemma {:induction false} SubsequenceOfSuffix(r: string, s: string, k: nat)
    requires k <= |s| && Subsequence(r, s[k..])
    ensures Subsequence(r, s)
    decreases k
  {
    if k > 0 {
      SubsequenceCons(r, s[k - 1], s[k..]);
      assert [s[k - 1]] + s[k..] == s[k - 1..];
      SubsequenceOfSuffix(r, s, k - 1);
    }
  }

  /** A global removal only deletes: what is left is a subsequence of the text. */
  lemma {:induction false} RemoveAllOnlyDeletes(s: string, pat: string)
    requires pat != []
    ensures Subsequence(RemoveAll(s, pat), s)
    decreases |s|
  {
    if s == [] {
    } else if pat <= s {
      RemoveAllOnlyDeletes(s[|pat|..], pat);
      SubsequenceOfSuffix(RemoveAll(s, pat), s, |pat|);
    } else {
      RemoveAllOnlyDeletes(s[1..], pat);
      var r := [s[0]] + RemoveAll(s[1..], pat);
      assert r[1..] == RemoveAll(s[1..], pat);
    }
  }

  /** An occurrence inside a suffix is an occurrence in the whole string. */
  lemma {:induction false} ContainsInSuffix(s: string, k: nat, p: string)
    requires k <= |s| && Contains(s[k..], p)
    ensures Contains(s, p)
    decreases k
  {
    if k > 0 {
      assert s[k..] == s[1..][k - 1..];
      ContainsInSuffix(s[1..], k - 1, p);
    }
  }

  /** An occurrence inside a prefix is an occurrence in the whole string. */
  lemma {:induction false} ContainsInPrefix(s: string, k: nat, p: string)
    requires k <= |s| && Contains(s[..k], p)
    ensures Contains(s, p)
    decreases |s|
  {
    if p <= s[..k] {
      assert p <= s;
    } else {
      assert s[..k][1..] == s[1..][..k - 1];
      ContainsInPrefix(s[1..], k - 1, p);
    }
  }

  /** A string that contains p contains every prefix of p. */
  lemma {:induction false} ContainsShorterPattern(s: string, p: string, q: string)
    requires q <= p && Contains(s, p)
    ensures Contains(s, q)
    decreases |s|
  {
    if !(p <= s) {
      ContainsShorterPattern(s[1..], p, q);
    }
  }

  /** An occurrence needs room: nothing longer than s occurs in s. */
  lemma {:induction false} ContainsNeedsRoom(s: string, p: string)
    requires Contains(s, p)
    ensures |p| <= |s|
    decreases |s|
  {
    if !(p <= s) {
      ContainsNeedsRoom(s[1..], p);
    }
  }

  /** A string containing p contains the first character of p. */
  lemma {:induction false} ContainsHead(s: string, p: string)
    requires p != [] && Contains(s, p)
    ensures p[0] in s
    decreases |s|
  {
    if !(p <= s) {
      ContainsHead(s[1..], p);
    }
  }

  /** Removing a pattern that does not occur changes nothing. */
  lemma {:induction false} RemoveAbsent(s: string, pat: string)
    requires pat != [] && !Contains(s, pat)
    ensures RemoveAll(s, pat) == s
    decreases |s|
  {
    if s != [] {
      RemoveAbsent(s[1..], pat);
    }
  }

  /** Removal passes over a leading part in which the pattern cannot start. */
  lemma {:induction false} RemoveAllSkipsClean(s: string, t: string, pat: string)
    requires pat != [] && pat[0] !in s
    ensures RemoveAll(s + t, pat) == s + RemoveAll(t, pat)
    decreases |s|
  {
    if s == [] {
      assert s + t == t;
    } else {
      assert !(pat <= s + t) by { assert (s + t)[0] == s[0] != pat[0]; }
      assert (s + t)[1..] == s[1..] + t;
      assert RemoveAll(s + t, pat) == [s[0]] + RemoveAll(s[1..] + t, pat);
      RemoveAllSkipsClean(s[1..], t, pat);
      assert [s[0]] + s[1..] == s;
    }
  }

  const Fence: string := "```"

  /** Removing every fence from a string that does not start with a backtick keeps its first character. */
  lemma RemoveFenceKeepsHead(s: string)
    requires s != [] && s[0] != '`'
    ensures RemoveAll(s, Fence) == [s[0]] + RemoveAll(s[1..], Fence)
  {
    assert Fence[0] == '`';
  }

  /**
   * After every "```" is removed none is left: removing the leftmost
   * occurrences cannot make a new one, because a run of n backticks
   * shrinks to n mod 3 and runs never merge.
   */
  lemma {:induction false} NoFenceAfterRemoval(s: string)
    ensures !Contains(RemoveAll(s, Fence), Fence)
    decreases |s|
  {
    if s == [] {
      assert !(Fence <= []);
    } else if Fence <= s {
      NoFenceAfterRemoval(s[|Fence|..]);
    } else {
      var rest := RemoveAll(s[1..], Fence);
      var r := [s[0]] + rest;
      NoFenceAfterRemoval(s[1..]);
      assert r == RemoveAll(s, Fence);
      assert r[1..] == rest;
      // one of the first three characters of r is not a backtick, or r is too short
      assert !(Fence <= r) by {
        if s[0] != '`' {
          assert r[0] != Fence[0];
        } else if |s| == 1 {
          assert rest == [];
        } else if s[1] != '`' {
          RemoveFenceKeepsHead(s[1..]);
          assert r[1] == s[1];
        } else if |s| == 2 {
          assert |rest| <= 1;
        } else {
          assert s[2] != '`' by { assert s[..3] != Fence; }
          assert !(Fence <= s[1..]) by { assert s[1..][1] == s[2]; }
          assert rest == ['`'] + RemoveAll(s[2..], Fence);
          RemoveFenceKeepsHead(s[2..]);
          assert r[2] == s[2];
        }
      }
    }
  }

  /** `s.split(',')[1]`: the field between the first comma and the next one (or the end); None (`undefined`) when s has no comma. */
  function SecondField(s: string): (r: Option<string>)
    ensures r.Some? <==> ',' in s
    ensures r.Some? ==> ',' !in r.value
  {
    if ',' !in s then None
    else
      var i := FirstIndex(s, ',');
      Some(UpTo(s[i + 1..], ','))
  }

  /** The position of the first c in s. */
  function FirstIndex(s: string, c: char): (i: nat)
    requires c in s
    ensures i < |s| && s[i] == c && c !in s[..i]
  {
    if s[0] == c then 0 else 1 + FirstIndex(s[1..], c)
  }

  /** The longest prefix of s without c. */
  function UpTo(s: string, c: char): (r: string)
    ensures r <= s && c !in r
    ensures |r| < |s| ==> s[|r|] == c
  {
    if s == [] || s[0] == c then [] else [s[0]] + UpTo(s[1..], c)
  }

  /** A data URL "header,payload" whose parts hold no comma yields its payload. */
  lemma {:induction false} SecondFieldOfDataUrl(header: string, payload: string)
    requires ',' !in header && ',' !in payload
    ensures SecondField(header + "," + payload) == Some(payload)
  {
    var s := header + "," + payload;
    assert s[|header|] == ',';
    var i := FirstIndex(s, ',');
    assert s[..|header|] == header;
    assert i == |header|;
    assert s[i + 1..] == payload;
    UpToAbsent(payload, ',');
  }

  /** UpTo keeps the whole string when c does not occur. */
  lemma {:induction false} UpToAbsent(s: string, c: char)
    requires c !in s
    ensures UpTo(s, c) == s
  {
    if s != [] {
      UpToAbsent(s[1..], c);
    }
  }

  /** The number a string of decimal digits denotes, most significant digit first. */
  function DecimalValue(s: string): nat
  {
    if s == [] then 0
    else
      var d := (s[|s| - 1] as int) - ('0' as int);
      DecimalValue(s[..|s| - 1]) * 10 + (if 0 <= d < 10 then d else 0)
  }

  /**
   * The decimal digits of n, as a template literal renders a number: the
   * digits denote n, and only zero itself starts with a zero.
   */
  function NatToString(n: nat): (r: string)
    ensures r != [] && forall i :: 0 <= i < |r| ==> '0' <= r[i] <= '9'
    ensures DecimalValue(r) == n
    ensures r[0] == '0' ==> r == "0"
    decreases n
  {
    if n < 10 then [Digit(n)]
    else
      var front := NatToString(n / 10);
      var r := front + [Digit(n % 10)];
      assert r[..|r| - 1] == front;
      assert r[0] == front[0];
      r
  }

  function Digit(d: nat): (c: char)
    requires d < 10
    ensures '0' <= c <= '9' && (c as int) - ('0' as int) == d
  {
    (('0' as int) + d) as char
  }
}

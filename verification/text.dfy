/**
 * The string operations the application relies on (`toLowerCase`, `includes`,
 * `trim`, `split`, `endsWith`, the `\s` character class), restricted to ASCII.
 */
module Text {

  /** ASCII whitespace, as matched by `\s` and removed by `trim`: space, tab, LF, VT, FF, CR. */
  predicate IsSpace(c: char) {
    c == ' ' || c == '\t' || c == '\n' || c == '\U{B}' || c == '\U{C}' || c == '\r'
  }

  predicate NoSpace(s: string) {
    forall i | 0 <= i < |s| :: !IsSpace(s[i])
  }

  predicate AllSpace(s: string) {
    forall i | 0 <= i < |s| :: IsSpace(s[i])
  }

  // ---------------------------------------------------------------- toLowerCase

  function LowerChar(c: char): char {
    if 'A' <= c <= 'Z' then (c as int + 32) as char else c
  }

  predicate IsLower(s: string) {
    forall i | 0 <= i < |s| :: LowerChar(s[i]) == s[i]
  }

  /** `s.toLowerCase()` on ASCII letters; every other character is kept. */
  function ToLower(s: string): (r: string)
    ensures |r| == |s|
    ensures forall i | 0 <= i < |s| :: r[i] == LowerChar(s[i])
  {
    if s == [] then [] else [LowerChar(s[0])] + ToLower(s[1..])
  }

  lemma ToLowerIsLower(s: string)
    ensures IsLower(ToLower(s))
  {
  }

  /** Lowercasing twice is lowercasing once. */
  lemma ToLowerIdempotent(s: string)
    ensures ToLower(ToLower(s)) == ToLower(s)
  {
    ToLowerIsLower(s);
    LowerFixpoint(ToLower(s));
  }

  lemma LowerFixpoint(s: string)
    requires IsLower(s)
    ensures ToLower(s) == s
  {
  }

  /** Lowercasing neither creates nor removes whitespace. */
  lemma LowerKeepsSpace(c: char)
    ensures IsSpace(LowerChar(c)) <==> IsSpace(c)
  {
  }

  // ---------------------------------------------------------------- includes

  predicate MatchAt(s: string, t: string, k: int) {
    0 <= k <= |s| - |t| && s[k..k + |t|] == t
  }

  /** `s.includes(t)`: `t` occurs in `s` as a contiguous block. */
  predicate Contains(s: string, t: string) {
    exists k | 0 <= k <= |s| - |t| :: MatchAt(s, t, k)
  }

  lemma ContainsEmpty(s: string)
    ensures Contains(s, "")
  {
    assert MatchAt(s, "", 0);
  }

  lemma ContainsMiddle(a: string, b: string, c: string)
    ensures Contains(a + b + c, b)
  {
    assert (a + b + c)[|a|..|a| + |b|] == b;
    assert MatchAt(a + b + c, b, |a|);
  }

  lemma ContainsSelf(s: string)
    ensures Contains(s, s)
  {
    assert MatchAt(s, s, 0);
  }

  /** An occurrence of an occurrence is an occurrence. */
  lemma ContainsTransitive(s: string, t: string, u: string)
    requires Contains(s, t) && Contains(t, u)
    ensures Contains(s, u)
  {
    var k :| 0 <= k <= |s| - |t| && MatchAt(s, t, k);
    var m :| 0 <= m <= |t| - |u| && MatchAt(t, u, m);
    forall j | 0 <= j < |u| ensures s[k + m + j] == u[j] {
      assert s[k..k + |t|][m + j] == t[m + j];
      assert t[m..m + |u|][j] == u[j];
    }
    assert s[k + m..k + m + |u|] == u;
    assert MatchAt(s, u, k + m);
  }

  /**
   * The tool for showing that a literal does not occur in another: one
   * character of `t` is never found at the matching place of `s`.
   */
  lemma NotContainedAt(s: string, t: string, i: nat)
    requires i < |t|
    requires forall j | i <= j <= |s| - |t| + i :: s[j] != t[i]
    ensures !Contains(s, t)
  {
    forall k | 0 <= k <= |s| - |t| ensures !MatchAt(s, t, k) {
      assert s[k + i] != t[i];
      assert s[k..k + |t|][i] == s[k + i];
    }
  }

  /** `includes` is not affected by lowercasing a text that is already lowercase. */
  lemma ContainsAfterLower(s: string, t: string)
    ensures Contains(ToLower(s), ToLower(t)) <==> Contains(ToLower(s), ToLower(ToLower(t)))
  {
    ToLowerIdempotent(t);
  }

  // ---------------------------------------------------------------- endsWith

  predicate EndsWith(s: string, suffix: string) {
    |suffix| <= |s| && s[|s| - |suffix|..] == suffix
  }

  // ---------------------------------------------------------------- trim

  function TrimStart(s: string): (r: string)
    ensures |r| <= |s| && r == s[|s| - |r|..]
    ensures AllSpace(s[..|s| - |r|])
    ensures r == [] || !IsSpace(r[0])
  {
    if s != [] && IsSpace(s[0]) then
      var r := TrimStart(s[1..]);
      assert s[1..][|s| - 1 - |r|..] == s[|s| - |r|..];
      r
    else
      s
  }

  function TrimEnd(s: string): (r: string)
    ensures |r| <= |s| && r == s[..|r|]
    ensures AllSpace(s[|r|..])
    ensures r == [] || !IsSpace(r[|r| - 1])
  {
    if s != [] && IsSpace(s[|s| - 1]) then
      var r := TrimEnd(s[..|s| - 1]);
      assert s[..|s| - 1][..|r|] == s[..|r|];
      assert AllSpace(s[|r|..]) by {
        forall j | 0 <= j < |s| - |r| ensures IsSpace(s[|r|..][j]) {
          if j < |s| - 1 - |r| {
            assert s[|r|..][j] == s[..|s| - 1][|r|..][j];
          }
        }
      }
      r
    else
      s
  }

  /** `s.trim()`: the text without its leading and trailing whitespace. */
  function Trim(s: string): (r: string)
    ensures r == [] || (!IsSpace(r[0]) && !IsSpace(r[|r| - 1]))
  {
    TrimEnd(TrimStart(s))
  }

  /**
   * The trimmed text is the slice `s[i..j]` of the text, with only whitespace
   * before `i` and from `j` on.
   */
  lemma {:induction false} TrimIsSlice(s: string) returns (i: nat, j: nat)
    ensures i <= j <= |s| && Trim(s) == s[i..j]
    ensures AllSpace(s[..i]) && AllSpace(s[j..])
  {
    var a := TrimStart(s);
    var r := TrimEnd(a);
    i := |s| - |a|;
    j := i + |r|;
    assert r == s[i..j];
    assert s[j..] == a[|r|..];
  }

  /**
   * `s.trim()` is falsy exactly when the text is blank; this is the test the
   * components use before searching.
   */
  lemma {:induction false} TrimEmptyIffBlank(s: string)
    ensures Trim(s) == [] <==> AllSpace(s)
  {
    var a := TrimStart(s);
    if !AllSpace(s) {
      var i :| 0 <= i < |s| && !IsSpace(s[i]);
      assert a[i - (|s| - |a|)] == s[i];
    }
  }

  /** Whitespace is preserved by lowercasing, so lowercasing does not change blankness. */
  lemma BlankAfterLower(s: string)
    ensures AllSpace(ToLower(s)) <==> AllSpace(s)
  {
    forall i | 0 <= i < |s| ensures IsSpace(ToLower(s)[i]) <==> IsSpace(s[i]) {
      LowerKeepsSpace(s[i]);
    }
  }

  // ---------------------------------------------------------------- split

  /** `s.split(sep)` for a one-character separator; `"".split(sep)` is `[""]`. */
  function Split(s: string, sep: char): (r: seq<string>)
    ensures |r| >= 1
  {
    if s == [] then [""]
    else if s[0] == sep then [""] + Split(s[1..], sep)
    else
      var rest := Split(s[1..], sep);
      [[s[0]] + rest[0]] + rest[1..]
  }

  /** `parts.join(sep)`. */
  function Join(parts: seq<string>, sep: char): string {
    if parts == [] then ""
    else if |parts| == 1 then parts[0]
    else parts[0] + [sep] + Join(parts[1..], sep)
  }

  /** Splitting produces one piece more than there are separators. */
  lemma {:induction false} SplitCount(s: string, sep: char)
    ensures |Split(s, sep)| == multiset(s)[sep] + 1
  {
    if s != [] {
      assert s == [s[0]] + s[1..];
      SplitCount(s[1..], sep);
    }
  }

  /** No piece contains the separator. */
  lemma {:induction false} SplitPiecesFree(s: string, sep: char)
    ensures forall p | p in Split(s, sep) :: sep !in p
  {
    if s != [] {
      SplitPiecesFree(s[1..], sep);
      var rest := Split(s[1..], sep);
      if s[0] != sep {
        assert sep !in rest[0];
        assert forall p | p in rest[1..] :: p in rest;
      }
    }
  }

  /** Joining the pieces with the separator gives back the text. */
  lemma {:induction false} JoinSplit(s: string, sep: char)
    ensures Join(Split(s, sep), sep) == s
  {
    if s != [] {
      JoinSplit(s[1..], sep);
      var rest := Split(s[1..], sep);
      if s[0] == sep {
        assert Split(s, sep) == [""] + rest;
        assert ([""] + rest)[1..] == rest;
      } else {
        var first := [s[0]] + rest[0];
        assert Split(s, sep) == [first] + rest[1..];
        if |rest| == 1 {
          assert rest == [rest[0]];
        } else {
          assert ([first] + rest[1..])[1..] == rest[1..];
          assert rest == [rest[0]] + rest[1..];
          assert Join(rest, sep) == rest[0] + [sep] + Join(rest[1..], sep);
        }
      }
    }
  }

  // ---------------------------------------------------------------- ordering

  /** The order the default `sort()` puts texts in: character by character, a prefix first. */
  predicate Less(a: string, b: string) {
    if a == [] then b != []
    else if b == [] then false
    else a[0] < b[0] || (a[0] == b[0] && Less(a[1..], b[1..]))
  }

  lemma {:induction false} LessIrreflexive(a: string)
    ensures !Less(a, a)
  {
    if a != [] {
      LessIrreflexive(a[1..]);
    }
  }

  lemma {:induction false} LessTransitive(a: string, b: string, c: string)
    requires Less(a, b) && Less(b, c)
    ensures Less(a, c)
  {
    if a != [] && a[0] == b[0] && b[0] == c[0] {
      LessTransitive(a[1..], b[1..], c[1..]);
    }
  }

  lemma {:induction false} LessTotal(a: string, b: string)
    ensures a == b || Less(a, b) || Less(b, a)
  {
    if a != [] && b != [] && a[0] == b[0] {
      LessTotal(a[1..], b[1..]);
      if a[1..] == b[1..] {
        assert a == [a[0]] + a[1..] && b == [b[0]] + b[1..];
      }
    }
  }

  // ---------------------------------------------------------------- numbers

  /** Decimal text of a document id, as it appears inside paths and messages. */
  function NatToString(n: nat): (r: string)
    ensures |r| >= 1
    decreases n
  {
    if n < 10 then [DigitChar(n)] else NatToString(n / 10) + [DigitChar(n % 10)]
  }

  function DigitChar(d: nat): char
    requires d < 10
  {
    ('0' as int + d) as char
  }

  predicate IsDigit(c: char) {
    '0' <= c <= '9'
  }

  /** The decimal text has only digits, and two numbers have the same text only if they are equal. */
  lemma {:induction false} NatToStringInjective(m: nat, n: nat)
    ensures forall i | 0 <= i < |NatToString(m)| :: IsDigit(NatToString(m)[i])
    ensures NatToString(m) == NatToString(n) ==> m == n
    decreases m + n
  {
    if m >= 10 {
      NatToStringInjective(m / 10, n / 10);
    }
    if m >= 10 && n >= 10 {
      var a, b := NatToString(m), NatToString(n);
      if a == b {
        assert a[..|a| - 1] == NatToString(m / 10);
        assert b[..|b| - 1] == NatToString(n / 10);
        assert a[|a| - 1] == b[|b| - 1];
      }
    } else if m < 10 && n >= 10 {
      assert |NatToString(n)| >= 2;
    } else if m >= 10 && n < 10 {
      assert |NatToString(m)| >= 2;
    }
  }
}

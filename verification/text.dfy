/** String helpers the services and validators rely on: the whitespace trim that
    express-validator's `.trim()` sanitizer applies, the case-insensitive substring test an
    `ilike '%search%'` filter performs, and the code-point order (SQLite's BINARY collation) used by ORDER BY on text. */
module Text {
  import opened Wrappers

  /** An optional string argument that takes effect: present and non-empty (JavaScript
      truthiness). */
  predicate Given(v: Option<string>) {
    v.Some? && v.value != ""
  }

  /** Characters in JavaScript's `\s` class, which `.trim()` strips from both ends. */
  predicate IsSpace(c: char) {
    || c == ' ' || c == '\t' || c == '\n' || c == '\U{000B}' || c == '\U{000C}' || c == '\r'
    || c == '\U{00A0}' || c == '\U{1680}' || ('\U{2000}' <= c <= '\U{200A}')
    || c == '\U{2028}' || c == '\U{2029}' || c == '\U{202F}' || c == '\U{205F}'
    || c == '\U{3000}' || c == '\U{FEFF}'
  }

  predicate AllSpace(s: string) {
    forall k :: 0 <= k < |s| ==> IsSpace(s[k])
  }

  /** Number of leading whitespace characters. */
  function LeadingSpaces(s: string): (n: nat)
    ensures n <= |s|
    ensures AllSpace(s[..n])
    ensures n < |s| ==> !IsSpace(s[n])
  {
    if |s| > 0 && IsSpace(s[0]) then 1 + LeadingSpaces(s[1..]) else 0
  }

  /** Number of trailing whitespace characters. */
  function TrailingSpaces(s: string): (n: nat)
    ensures n <= |s|
    ensures AllSpace(s[|s| - n..])
    ensures n < |s| ==> !IsSpace(s[|s| - n - 1])
  {
    if |s| > 0 && IsSpace(s[|s| - 1]) then 1 + TrailingSpaces(s[..|s| - 1]) else 0
  }

  /** A character that is not whitespace sits before the trailing run. */
  lemma {:induction false} RunsDoNotOverlap(s: string)
    requires LeadingSpaces(s) < |s|
    ensures LeadingSpaces(s) + TrailingSpaces(s) < |s|
  {
    var i := LeadingSpaces(s);
    var j := TrailingSpaces(s);
    forall k | |s| - j <= k < |s|
      ensures IsSpace(s[k])
    {
      assert s[k] == s[|s| - j..][k - (|s| - j)];
    }
    assert !IsSpace(s[i]);
  }

  /** `s` with whitespace removed from both ends. */
  function Trim(s: string): (r: string)
    ensures |r| <= |s|
    ensures |r| > 0 ==> !IsSpace(r[0]) && !IsSpace(r[|r| - 1])
    ensures r == [] <==> AllSpace(s)
    ensures var i := LeadingSpaces(s);
      i + |r| <= |s| && r == s[i..i + |r|] && AllSpace(s[i + |r|..])
  {
    var i := LeadingSpaces(s);
    if i == |s| then
      assert s[..i] == s;
      []
    else
      RunsDoNotOverlap(s);
      var j := TrailingSpaces(s);
      assert !AllSpace(s) by { assert !IsSpace(s[i]); }
      s[i..|s| - j]
  }

  /** Trimming twice is trimming once. */
  lemma TrimIdempotent(s: string)
    ensures Trim(Trim(s)) == Trim(s)
  {
    var r := Trim(s);
    if |r| > 0 {
      assert LeadingSpaces(r) == 0;
      assert TrailingSpaces(r) == 0;
      assert r[0..|r| - 0] == r;
    }
  }

  /** ASCII upper case to lower case; every other character unchanged. */
  function Lower(c: char): char {
    if 'A' <= c <= 'Z' then (c as int + 32) as char else c
  }

  function LowerStr(s: string): (r: string)
    ensures |r| == |s|
    ensures forall k :: 0 <= k < |s| ==> r[k] == Lower(s[k])
  {
    seq(|s|, k requires 0 <= k < |s| => Lower(s[k]))
  }

  /** The window of `h` starting at `i` equals `n`. */
  predicate OccursAt(n: string, h: string, i: int) {
    0 <= i <= |h| - |n| && h[i..i + |n|] == n
  }

  ghost predicate Occurs(n: string, h: string) {
    exists i :: OccursAt(n, h, i)
  }

  /** Substring test, scanning `h` from the left. */
  function Contains(h: string, n: string): (r: bool)
    ensures r <==> Occurs(n, h)
    decreases |h|
  {
    if |n| > |h| then
      assert !Occurs(n, h);
      false
    else if h[..|n|] == n then
      assert OccursAt(n, h, 0);
      true
    else
      var rest := Contains(h[1..], n);
      assert rest ==> Occurs(n, h) by {
        if rest {
          var i :| OccursAt(n, h[1..], i);
          assert h[1..][i..i + |n|] == h[i + 1..i + 1 + |n|];
          assert OccursAt(n, h, i + 1);
        }
      }
      assert Occurs(n, h) ==> rest by {
        forall i | OccursAt(n, h, i)
          ensures OccursAt(n, h[1..], i - 1)
        {
          assert h[..|n|] == h[0..0 + |n|];
          assert i != 0;
          var t := h[1..];
          assert t[i - 1..i - 1 + |n|] == n by {
            forall k | 0 <= k < |n|
              ensures t[i - 1..i - 1 + |n|][k] == n[k]
            {
              assert t[i - 1 + k] == h[i + k];
              assert h[i..i + |n|][k] == n[k];
            }
          }
        }
      }
      rest
  }

  /** `ilike '%n%'`: ASCII case-insensitive substring test. */
  function ContainsIgnoringCase(h: string, n: string): (r: bool)
    ensures r <==> Occurs(LowerStr(n), LowerStr(h))
  {
    Contains(LowerStr(h), LowerStr(n))
  }

  /** Lexicographic order on code points: SQLite's BINARY collation, the order ORDER BY gives
      text columns here. */
  predicate StrLeq(a: string, b: string) {
    |a| == 0 || (|b| > 0 && (a[0] < b[0] || (a[0] == b[0] && StrLeq(a[1..], b[1..]))))
  }

  lemma {:induction false} StrLeqReflexive(a: string)
    ensures StrLeq(a, a)
  {
    if |a| > 0 {
      StrLeqReflexive(a[1..]);
    }
  }

  lemma {:induction false} StrLeqTotal(a: string, b: string)
    ensures StrLeq(a, b) || StrLeq(b, a)
  {
    if |a| > 0 && |b| > 0 && a[0] == b[0] {
      StrLeqTotal(a[1..], b[1..]);
    }
  }

  lemma {:induction false} StrLeqAntisymmetric(a: string, b: string)
    requires StrLeq(a, b) && StrLeq(b, a)
    ensures a == b
  {
    if |a| > 0 && |b| > 0 {
      StrLeqAntisymmetric(a[1..], b[1..]);
      assert a == [a[0]] + a[1..];
      assert b == [b[0]] + b[1..];
    }
  }

  lemma {:induction false} StrLeqTransitive(a: string, b: string, c: string)
    requires StrLeq(a, b) && StrLeq(b, c)
    ensures StrLeq(a, c)
  {
    if |a| > 0 && |b| > 0 && |c| > 0 && a[0] == b[0] && b[0] == c[0] {
      StrLeqTransitive(a[1..], b[1..], c[1..]);
    }
  }
}

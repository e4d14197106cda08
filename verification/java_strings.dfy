/**
 The parts of java.lang.String and Integer.toString that the request processor
 relies on, stated over Dafny strings (sequences of characters).
 */
module JavaStrings {

  /** String.startsWith */
  predicate StartsWith(s: string, prefix: string) {
    |prefix| <= |s| && s[..|prefix|] == prefix
  }

  /** String.endsWith */
  predicate EndsWith(s: string, suffix: string) {
    |suffix| <= |s| && s[|s| - |suffix|..] == suffix
  }

  /** `t` occurs in `s` starting at index `i`. */
  predicate OccursAt(s: string, t: string, i: int) {
    0 <= i && i + |t| <= |s| && s[i..i + |t|] == t
  }

  lemma OccursAtShift(s: string, t: string, i: int)
    requires |s| > 0 && 0 <= i
    ensures OccursAt(s[1..], t, i) <==> OccursAt(s, t, i + 1)
  {
    if 0 <= i && i + |t| <= |s| - 1 {
      assert s[1..][i..i + |t|] == s[i + 1..i + 1 + |t|];
    }
  }

  /** String.contains: some occurrence of `t` exists. */
  function Contains(s: string, t: string): (b: bool)
    ensures b <==> exists i :: OccursAt(s, t, i)
    decreases |s|
  {
    if StartsWith(s, t) then
      assert OccursAt(s, t, 0);
      true
    else if |s| == 0 then
      assert forall i :: !OccursAt(s, t, i);
      false
    else
      var b := Contains(s[1..], t);
      assert forall i :: OccursAt(s, t, i) ==> i == 0 || OccursAt(s[1..], t, i - 1) by {
        forall i | OccursAt(s, t, i) && i != 0 {
          OccursAtShift(s, t, i - 1);
        }
      }
      assert b ==> exists i :: OccursAt(s, t, i) by {
        if b {
          var j :| OccursAt(s[1..], t, j);
          OccursAtShift(s, t, j);
        }
      }
      b
  }

  /** String.indexOf(t, from): the first occurrence at or after `from`, or -1. */
  function IndexFrom(s: string, t: string, from: nat): (r: int)
    ensures r == -1 || (from <= r && OccursAt(s, t, r))
    ensures forall i :: from <= i && (r == -1 || i < r) ==> !OccursAt(s, t, i)
    decreases |s| - from
  {
    if from + |t| > |s| then -1
    else if s[from..from + |t|] == t then from
    else IndexFrom(s, t, from + 1)
  }

  /** String.indexOf(t): the first occurrence of `t` in `s`, or -1 when there is none. */
  function IndexOf(s: string, t: string): (r: int)
    ensures r == -1 <==> forall i :: !OccursAt(s, t, i)
    ensures r != -1 ==> OccursAt(s, t, r) && forall i :: 0 <= i < r ==> !OccursAt(s, t, i)
  {
    IndexFrom(s, t, 0)
  }

  /** String.contains and String.indexOf agree: `contains` is exactly `indexOf != -1`. */
  lemma ContainsIsIndexOf(s: string, t: string)
    ensures Contains(s, t) <==> IndexOf(s, t) != -1
  {
  }

  /** The characters String.trim removes: every code point up to and including U+0020. */
  predicate Blank(c: char) {
    c <= ' '
  }

  predicate AllBlank(s: string) {
    forall k :: 0 <= k < |s| ==> Blank(s[k])
  }

  /** A string String.trim leaves unchanged: empty, or non-blank at both ends. */
  predicate Trimmed(s: string) {
    s == [] || (!Blank(s[0]) && !Blank(s[|s| - 1]))
  }

  function TrimStart(s: string): (r: string)
    ensures |r| <= |s| && r == s[|s| - |r|..]
    ensures AllBlank(s[..|s| - |r|])
    ensures r == [] || !Blank(r[0])
  {
    if |s| > 0 && Blank(s[0]) then TrimStart(s[1..]) else s
  }

  function TrimEnd(s: string): (r: string)
    ensures |r| <= |s| && r == s[..|r|]
    ensures AllBlank(s[|r|..])
    ensures r == [] || !Blank(r[|r| - 1])
  {
    if |s| > 0 && Blank(s[|s| - 1]) then
      var r := TrimEnd(s[..|s| - 1]);
      assert s[|r|..] == s[..|s| - 1][|r|..] + [s[|s| - 1]];
      r
    else s
  }

  /** `r` is `s` with the blank prefix of length `a` and a blank suffix removed. */
  predicate TrimmedAt(s: string, r: string, a: int) {
    0 <= a && a + |r| <= |s| && s[a..a + |r|] == r && AllBlank(s[..a]) && AllBlank(s[a + |r|..])
  }

  lemma TrimmedAtSplit(s: string, t: string, r: string)
    requires |t| <= |s| && t == s[|s| - |t|..] && AllBlank(s[..|s| - |t|])
    requires |r| <= |t| && r == t[..|r|] && AllBlank(t[|r|..])
    ensures TrimmedAt(s, r, |s| - |t|)
  {
    var a := |s| - |t|;
    assert s[a..a + |r|] == t[..|r|];
    assert s[a + |r|..] == t[|r|..];
  }

  /** `r` is what remains of `s` once some blank prefix and some blank suffix are removed. */
  predicate TrimOf(s: string, r: string) {
    exists a :: 0 <= a <= |s| && TrimmedAt(s, r, a)
  }

  /** String.trim: removes leading and trailing characters up to U+0020. */
  function Trim(s: string): (r: string)
    ensures Trimmed(r)
    ensures TrimOf(s, r)
  {
    var t := TrimStart(s);
    var r := TrimEnd(t);
    TrimmedAtSplit(s, t, r);
    r
  }

  lemma TrimStartPadded(u: string, p: string)
    requires AllBlank(u)
    requires p == [] || !Blank(p[0])
    ensures TrimStart(u + p) == p
  {
    if u != [] {
      assert (u + p)[1..] == u[1..] + p;
      TrimStartPadded(u[1..], p);
    }
  }

  lemma TrimEndPadded(p: string, w: string)
    requires AllBlank(w)
    requires p == [] || !Blank(p[|p| - 1])
    ensures TrimEnd(p + w) == p
  {
    if w != [] {
      var w' := w[..|w| - 1];
      assert (p + w)[..|p + w| - 1] == p + w';
      assert AllBlank(w');
      TrimEndPadded(p, w');
    }
  }

  /** Trimming undoes any blank padding around an already trimmed string. */
  lemma {:induction false} TrimPadded(u: string, p: string, w: string)
    requires AllBlank(u) && AllBlank(w) && Trimmed(p)
    ensures Trim(u + p + w) == p
  {
    if p == [] {
      assert u + p + w == u + w;
      assert AllBlank(u + w);
      TrimStartPadded(u + w, []);
      assert u + w + [] == u + w;
    } else {
      assert u + p + w == u + (p + w);
      TrimStartPadded(u, p + w);
      TrimEndPadded(p, w);
    }
  }

  /** Trimming is idempotent. */
  lemma TrimIdempotent(s: string)
    ensures Trim(Trim(s)) == Trim(s)
  {
    var r := Trim(s);
    TrimPadded([], r, []);
    assert [] + r + [] == r;
  }

  /** The decimal digit characters. */
  predicate IsDigit(c: char) {
    '0' <= c <= '9'
  }

  predicate AllDigits(s: string) {
    forall k :: 0 <= k < |s| ==> IsDigit(s[k])
  }

  function DigitChar(d: nat): (c: char)
    requires d < 10
    ensures IsDigit(c) && c as int - '0' as int == d
  {
    ('0' as int + d) as char
  }

  /**
   Integer.toString / Long.toString for a non-negative value, as produced by
   Java string concatenation: shortest decimal form without leading zeros.
   */
  function Decimal(n: nat): (r: string)
    ensures |r| >= 1 && AllDigits(r)
    ensures r[0] == '0' ==> n == 0 && |r| == 1
    decreases n
  {
    if n < 10 then [DigitChar(n)] else Decimal(n / 10) + [DigitChar(n % 10)]
  }

  /** Reads a string of decimal digits back as a number (the client's view of Content-Length). */
  function ParseDecimal(s: string): nat
    decreases |s|
  {
    if s == [] then 0
    else
      var d := s[|s| - 1] as int - '0' as int;
      ParseDecimal(s[..|s| - 1]) * 10 + (if 0 <= d then d else 0)
  }

  /** Decimal is inverted by ParseDecimal: a printed length reads back as the same number. */
  lemma {:induction false} DecimalRoundTrip(n: nat)
    ensures ParseDecimal(Decimal(n)) == n
  {
    if n >= 10 {
      var s := Decimal(n / 10) + [DigitChar(n % 10)];
      assert s[..|s| - 1] == Decimal(n / 10);
      DecimalRoundTrip(n / 10);
    }
  }
}

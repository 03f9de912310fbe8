/** The java.lang.String and commons-lang operations the two resolvers apply to
    names and versions, written out character by character. Case mapping covers
    the ASCII letters only (see README, "Left out"). */
module Text {

  // ---- single characters --------------------------------------------------

  predicate IsUpper(c: char) { 'A' <= c <= 'Z' }

  predicate IsLower(c: char) { 'a' <= c <= 'z' }

  predicate IsDigit(c: char) { '0' <= c <= '9' }

  function ToLowerChar(c: char): (r: char)
    ensures !IsUpper(r)
    ensures IsUpper(c) || r == c
  {
    if IsUpper(c) then (c as int - 'A' as int + 'a' as int) as char else c
  }

  function ToUpperChar(c: char): (r: char)
    ensures !IsLower(r)
    ensures IsLower(c) || r == c
  {
    if IsLower(c) then (c as int - 'a' as int + 'A' as int) as char else c
  }

  // ---- whole strings ------------------------------------------------------

  /** `s.replace(from, to)` for one-character targets: every occurrence is replaced. */
  function ReplaceChar(s: string, from: char, to: char): (r: string)
    ensures |r| == |s|
    ensures forall i :: 0 <= i < |s| ==> r[i] == (if s[i] == from then to else s[i])
    ensures from != to ==> from !in r
  {
    if s == [] then [] else [if s[0] == from then to else s[0]] + ReplaceChar(s[1..], from, to)
  }

  /** `s.toLowerCase()`. */
  function ToLower(s: string): (r: string)
    ensures |r| == |s|
    ensures forall i :: 0 <= i < |s| ==> r[i] == ToLowerChar(s[i])
  {
    if s == [] then [] else [ToLowerChar(s[0])] + ToLower(s[1..])
  }

  /** `s.toUpperCase()`. */
  function ToUpper(s: string): (r: string)
    ensures |r| == |s|
    ensures forall i :: 0 <= i < |s| ==> r[i] == ToUpperChar(s[i])
  {
    if s == [] then [] else [ToUpperChar(s[0])] + ToUpper(s[1..])
  }

  predicate StartsWith(s: string, prefix: string) {
    |prefix| <= |s| && s[..|prefix|] == prefix
  }

  /** A string does not start with a prefix it differs from at some index. */
  lemma DiffersFromPrefix(s: string, prefix: string, i: nat)
    requires i < |s| && i < |prefix| && s[i] != prefix[i]
    ensures !StartsWith(s, prefix)
  {
    if |prefix| <= |s| {
      assert s[..|prefix|][i] == s[i];
    }
  }

  predicate EndsWith(s: string, suffix: string) {
    |suffix| <= |s| && s[|s| - |suffix|..] == suffix
  }

  /** `Boolean.parseBoolean(s)` for a non-null `s`: "true" in any letter case. */
  function ParseBoolean(s: string): (b: bool)
    ensures b <==> |s| == 4 && ToLower(s) == "true"
  {
    ToLower(s) == "true"
  }

  // ---- "-SNAPSHOT" removal ------------------------------------------------

  const SnapshotSuffix := "-SNAPSHOT"

  /** What may follow a match of the Java regex `-SNAPSHOT$`: `$` matches at the
      end of the input and also just before a final line terminator. */
  predicate IsFinalTerminator(t: string) {
    t == "" || t == "\n" || t == "\r" || t == "\r\n" || t == "\U{85}" || t == "\U{2028}" || t == "\U{2029}"
  }

  predicate IsLineTerminatorChar(c: char) {
    c == '\n' || c == '\r' || c == '\U{85}' || c == '\U{2028}' || c == '\U{2029}'
  }

  /** `version.replaceFirst("-SNAPSHOT$", "")`: removes the one "-SNAPSHOT" that ends
      the version (possibly followed by a final line terminator) and nothing else;
      ReleaseVersionRemovesSuffix and ReleaseVersionKeepsOthers state it. */
  function ReleaseVersion(v: string): (r: string)
    ensures |r| == |v| || |r| == |v| - |SnapshotSuffix|
  {
    var n := |v|;
    if EndsWith(v, SnapshotSuffix) then
      v[..n - 9]
    else if n >= 10 && IsLineTerminatorChar(v[n - 1]) && EndsWith(v[..n - 1], SnapshotSuffix) then
      v[..n - 10] + [v[n - 1]]
    else if n >= 11 && v[n - 2..] == "\r\n" && EndsWith(v[..n - 2], SnapshotSuffix) then
      v[..n - 11] + "\r\n"
    else
      v
  }

  /** `s` ends with `a + b` exactly when it ends with `b` and what precedes that ends with `a`. */
  lemma EndsWithConcat(s: string, a: string, b: string)
    ensures EndsWith(s, a + b) <==> EndsWith(s, b) && EndsWith(s[..|s| - |b|], a)
  {
    if EndsWith(s, b) && EndsWith(s[..|s| - |b|], a) {
      assert s[|s| - |a + b|..] == s[..|s| - |b|][|s| - |b| - |a|..] + s[|s| - |b|..];
    }
    if EndsWith(s, a + b) {
      assert s[|s| - |b|..] == (a + b)[|a|..];
      assert s[..|s| - |b|][|s| - |b| - |a|..] == (a + b)[..|a|];
    }
  }

  /** A version ending in "-SNAPSHOT" (before an optional final line terminator)
      loses exactly that "-SNAPSHOT". */
  lemma ReleaseVersionRemovesSuffix(v: string, t: string)
    requires IsFinalTerminator(t) && EndsWith(v, SnapshotSuffix + t)
    ensures ReleaseVersion(v) == v[..|v| - |t| - |SnapshotSuffix|] + t
  {
    if t == "" {
      assert SnapshotSuffix + t == SnapshotSuffix;
    } else if |t| == 1 {
      assert t == [t[0]];
      RemovesBeforeTerminatorChar(v, t[0]);
    } else {
      assert t == "\r\n";
      RemovesBeforeCrLf(v);
    }
  }

  lemma RemovesBeforeTerminatorChar(v: string, c: char)
    requires IsLineTerminatorChar(c) && EndsWith(v, SnapshotSuffix + [c])
    ensures ReleaseVersion(v) == v[..|v| - 10] + [c]
  {
    var n := |v|;
    EndsWithConcat(v, SnapshotSuffix, [c]);
    assert v[n - 1..] == [c];
    assert !EndsWith(v, SnapshotSuffix) by {
      if EndsWith(v, SnapshotSuffix) { EndsWithLast(v, SnapshotSuffix); }
    }
    assert v[..n - 1][..n - 10] == v[..n - 10];
  }

  lemma RemovesBeforeCrLf(v: string)
    requires EndsWith(v, SnapshotSuffix + "\r\n")
    ensures ReleaseVersion(v) == v[..|v| - 11] + "\r\n"
  {
    var n := |v|;
    EndsWithConcat(v, SnapshotSuffix, "\r\n");
    assert v[n - 2..] == "\r\n";
    assert v[n - 1] == '\n';
    assert !EndsWith(v, SnapshotSuffix) by {
      if EndsWith(v, SnapshotSuffix) { EndsWithLast(v, SnapshotSuffix); }
    }
    assert v[n - 2] == '\r';
    assert !EndsWith(v[..n - 1], SnapshotSuffix) by {
      if EndsWith(v[..n - 1], SnapshotSuffix) { EndsWithLast(v[..n - 1], SnapshotSuffix); }
    }
    assert v[..n - 2][..n - 11] == v[..n - 11];
  }

  /** A version without a final "-SNAPSHOT" is left unchanged. */
  lemma ReleaseVersionKeepsOthers(v: string)
    requires forall t :: IsFinalTerminator(t) ==> !EndsWith(v, SnapshotSuffix + t)
    ensures ReleaseVersion(v) == v
  {
    assert IsFinalTerminator("") && SnapshotSuffix + "" == SnapshotSuffix;
    NoSnapshotBeforeTerminatorChar(v);
    NoSnapshotBeforeCrLf(v);
    ReleaseVersionUnchanged(v);
  }

  lemma NoSnapshotBeforeTerminatorChar(v: string)
    requires forall t :: IsFinalTerminator(t) ==> !EndsWith(v, SnapshotSuffix + t)
    ensures !(|v| >= 10 && IsLineTerminatorChar(v[|v| - 1]) && EndsWith(v[..|v| - 1], SnapshotSuffix))
  {
    var n := |v|;
    if n >= 10 && IsLineTerminatorChar(v[n - 1]) && EndsWith(v[..n - 1], SnapshotSuffix) {
      TerminatorCharIsFinal(v[n - 1]);
      EndsWithTerminated(v, [v[n - 1]]);
      assert false;
    }
  }

  lemma NoSnapshotBeforeCrLf(v: string)
    requires forall t :: IsFinalTerminator(t) ==> !EndsWith(v, SnapshotSuffix + t)
    ensures !(|v| >= 11 && v[|v| - 2..] == "\r\n" && EndsWith(v[..|v| - 2], SnapshotSuffix))
  {
    var n := |v|;
    if n >= 11 && v[n - 2..] == "\r\n" && EndsWith(v[..n - 2], SnapshotSuffix) {
      assert IsFinalTerminator("\r\n");
      EndsWithTerminated(v, "\r\n");
      assert false;
    }
  }

  lemma TerminatorCharIsFinal(c: char)
    requires IsLineTerminatorChar(c)
    ensures IsFinalTerminator([c])
  {
  }

  lemma ReleaseVersionUnchanged(v: string)
    requires !EndsWith(v, SnapshotSuffix)
    requires !(|v| >= 10 && IsLineTerminatorChar(v[|v| - 1]) && EndsWith(v[..|v| - 1], SnapshotSuffix))
    requires !(|v| >= 11 && v[|v| - 2..] == "\r\n" && EndsWith(v[..|v| - 2], SnapshotSuffix))
    ensures ReleaseVersion(v) == v
  {
  }

  /** A version whose last characters `t` follow a "-SNAPSHOT" ends with "-SNAPSHOT" + `t`. */
  lemma EndsWithTerminated(v: string, t: string)
    requires |t| <= |v| && v[|v| - |t|..] == t && EndsWith(v[..|v| - |t|], SnapshotSuffix)
    ensures EndsWith(v, SnapshotSuffix + t)
  {
    EndsWithConcat(v, SnapshotSuffix, t);
  }

  /** A string ends with the last character of each of its suffixes. */
  lemma EndsWithLast(s: string, suffix: string)
    requires EndsWith(s, suffix) && suffix != []
    ensures s[|s| - 1] == suffix[|suffix| - 1]
  {
    assert s[|s| - |suffix|..][|suffix| - 1] == s[|s| - 1];
  }

  // ---- numbers ------------------------------------------------------------

  function DigitChar(d: nat): (c: char)
    requires d < 10
    ensures IsDigit(c) && c as int - '0' as int == d
  {
    ('0' as int + d) as char
  }

  predicate AllDigits(s: string) {
    forall i :: 0 <= i < |s| ==> IsDigit(s[i])
  }

  /** `String.valueOf(n)` for a non-negative number: its decimal digits,
      without leading zeros. */
  function NatToString(n: nat): (r: string)
    ensures |r| >= 1 && AllDigits(r)
    ensures |r| > 1 ==> r[0] != '0'
    decreases n
  {
    if n < 10 then [DigitChar(n)] else NatToString(n / 10) + [DigitChar(n % 10)]
  }

  /** `String.valueOf(i)` / `Long.toString(i)`. */
  function IntToString(i: int): (r: string)
    ensures i < 0 <==> |r| > 0 && r[0] == '-'
    ensures i >= 0 ==> AllDigits(r)
  {
    if i < 0 then "-" + NatToString(-i) else NatToString(i)
  }

  /** The value of a string of decimal digits (what `Long.parseLong` reads). */
  function DigitsValue(s: string): nat
    requires AllDigits(s)
  {
    if s == [] then 0 else DigitsValue(s[..|s| - 1]) * 10 + (s[|s| - 1] as int - '0' as int)
  }

  /** Parsing the decimal rendering gives the number back. */
  lemma {:induction false} NatToStringRoundTrip(n: nat)
    ensures DigitsValue(NatToString(n)) == n
    decreases n
  {
    if n >= 10 {
      var s := NatToString(n);
      assert s[..|s| - 1] == NatToString(n / 10);
      NatToStringRoundTrip(n / 10);
    }
  }

  /** Two numbers with the same rendering are equal. */
  lemma NatToStringInjective(m: nat, n: nat)
    requires NatToString(m) == NatToString(n)
    ensures m == n
  {
    NatToStringRoundTrip(m);
    NatToStringRoundTrip(n);
  }

  /** `StringUtils.leftPad(s, size, pad)`: pads on the left up to `size`
      characters, leaving longer strings as they are. */
  function LeftPad(s: string, size: int, pad: char): (r: string)
    ensures |r| == if |s| >= size then |s| else size
    ensures r[|r| - |s|..] == s
    ensures forall i :: 0 <= i < |r| - |s| ==> r[i] == pad
  {
    if |s| >= size then s else seq(size - |s|, _ => pad) + s
  }
}

/**
 * String primitives the command handlers rely on, with ECMAScript semantics:
 * the white-space class shared by String.prototype.trim and the regular
 * expression escape \s, trimming, String.prototype.split(/\s+/),
 * Array.prototype.join, lower-casing and the decimal rendering of a number.
 */
module Text {

  /** ECMAScript WhiteSpace and LineTerminator code points (the \s class). */
  predicate IsSpace(c: char)
  {
    c == '\t' || c == '\n' || c == '\U{B}' || c == '\U{C}' || c == '\r' || c == ' '
    || c == '\U{A0}' || c == '\U{1680}' || ('\U{2000}' <= c <= '\U{200A}')
    || c == '\U{2028}' || c == '\U{2029}' || c == '\U{202F}' || c == '\U{205F}'
    || c == '\U{3000}' || c == '\U{FEFF}'
  }

  predicate NoSpace(t: string)
  {
    forall m :: 0 <= m < |t| ==> !IsSpace(t[m])
  }

  predicate AllSpace(t: string)
  {
    forall m :: 0 <= m < |t| ==> IsSpace(t[m])
  }

  /** Index of the first white-space character of s, or |s| if there is none. */
  function IndexOfSpace(s: string): (i: nat)
    ensures i <= |s| && NoSpace(s[..i])
    ensures i < |s| ==> IsSpace(s[i])
    decreases |s|
  {
    if s == [] then 0
    else if IsSpace(s[0]) then 0
    else
      var k := IndexOfSpace(s[1..]);
      assert s[..k + 1] == [s[0]] + s[1..][..k];
      k + 1
  }

  /** End of the white-space run that starts at position i. */
  function SpaceRunEnd(s: string, i: nat): (j: nat)
    requires i <= |s|
    ensures i <= j <= |s| && AllSpace(s[i..j])
    ensures j < |s| ==> !IsSpace(s[j])
    decreases |s| - i
  {
    if i < |s| && IsSpace(s[i]) then SpaceRunEnd(s, i + 1) else i
  }

  /** Start of the white-space run that ends just before position j. */
  function SpaceRunStart(s: string, j: nat): (i: nat)
    requires j <= |s|
    ensures i <= j && AllSpace(s[i..j])
    ensures i > 0 ==> !IsSpace(s[i - 1])
    decreases j
  {
    if j > 0 && IsSpace(s[j - 1]) then
      var i := SpaceRunStart(s, j - 1);
      assert s[i..j] == s[i..j - 1] + [s[j - 1]];
      i
    else j
  }

  /**
   * String.prototype.trim: the string between the white-space runs at
   * either end, found by scanning inwards from both ends.
   */
  function Trim(s: string): (r: string)
    ensures exists i, j :: 0 <= i <= j <= |s| && r == s[i..j] && AllSpace(s[..i]) && AllSpace(s[j..])
    ensures r == [] || (!IsSpace(r[0]) && !IsSpace(r[|r| - 1]))
  {
    var i := SpaceRunEnd(s, 0);
    var k := SpaceRunStart(s, |s|);
    TrimScan(s, i, k);
    var j := if i == |s| then i else k;
    assert AllSpace(s[..i]) && AllSpace(s[j..]);
    s[i..j]
  }

  /** The leading run ends at i and the trailing run starts at k; unless all is white space, i < k. */
  lemma TrimScan(s: string, i: nat, k: nat)
    requires i <= |s| && AllSpace(s[0..i]) && (i < |s| ==> !IsSpace(s[i]))
    requires k <= |s| && AllSpace(s[k..|s|]) && (k > 0 ==> !IsSpace(s[k - 1]))
    ensures s[..i] == s[0..i] && s[k..] == s[k..|s|]
    ensures i < |s| ==> i < k
  {
    if i < |s| && k <= i {
      assert false;
    }
  }

  /** A run of white space up to a non-space character at e ends at e. */
  lemma {:induction false} SpaceRunEndAt(s: string, k: nat, e: nat)
    requires k <= e < |s| && AllSpace(s[k..e]) && !IsSpace(s[e])
    ensures SpaceRunEnd(s, k) == e
    decreases e - k
  {
    if k < e {
      assert s[k..e][0] == s[k];
      assert s[k + 1..e] == s[k..e][1..];
      SpaceRunEndAt(s, k + 1, e);
    }
  }

  /** A run of white space back to a non-space character at e - 1 starts at e. */
  lemma {:induction false} SpaceRunStartAt(s: string, e: nat, k: nat)
    requires 0 < e <= k <= |s| && AllSpace(s[e..k]) && !IsSpace(s[e - 1])
    ensures SpaceRunStart(s, k) == e
    decreases k - e
  {
    if e < k {
      assert s[e..k][k - 1 - e] == s[k - 1];
      assert s[e..k - 1] == s[e..k][..k - 1 - e];
      SpaceRunStartAt(s, e, k - 1);
    }
  }

  /**
   * Trim is determined by its characterisation: white space, then a string
   * whose ends are not white space, then white space, trims to that string.
   */
  lemma TrimUnique(a: string, m: string, b: string)
    requires AllSpace(a) && AllSpace(b)
    requires m != [] && !IsSpace(m[0]) && !IsSpace(m[|m| - 1])
    ensures Trim(a + m + b) == m
  {
    var s := a + m + b;
    var i, j := |a|, |a| + |m|;
    assert s[0..i] == a && s[i] == m[0];
    SpaceRunEndAt(s, 0, i);
    assert s[j..|s|] == b && s[j - 1] == m[|m| - 1];
    SpaceRunStartAt(s, j, |s|);
    assert s[i..j] == m;
  }

  /**
   * String.prototype.split with the separator /\s+/: the fields between the
   * maximal white-space runs, searched left to right. A run at the very start
   * or end yields an empty first or last field, and "" splits into [""].
   */
  function Split(s: string): (r: seq<string>)
    ensures SplitShape(s, r)
    decreases |s|
  {
    var i := IndexOfSpace(s);
    if i == |s| then
      assert s[..i] == s;
      [s]
    else
      var j := SpaceRunEnd(s, i);
      var rest := Split(s[j..]);
      SplitStep(s, i, j, rest);
      [s[..i]] + rest
  }

  /**
   * What the fields r of s look like: at least one field; no field holds white
   * space; inner fields are non-empty; the first (last) field is empty exactly
   * when s is empty or starts (ends) with white space; and there is more than
   * one field only if s holds white space.
   */
  ghost predicate SplitShape(s: string, r: seq<string>)
  {
    && |r| >= 1
    && (forall k :: 0 <= k < |r| ==> NoSpace(r[k]))
    && (forall k :: 0 < k < |r| - 1 ==> r[k] != [])
    && (r[0] == [] <==> (s == [] || IsSpace(s[0])))
    && (r[|r| - 1] == [] <==> (s == [] || IsSpace(s[|s| - 1])))
    && (|r| > 1 ==> exists i :: 0 <= i < |s| && IsSpace(s[i]))
  }

  /** The first field ends at the white-space run from i to j, and the rest of s splits into rest. */
  lemma SplitStep(s: string, i: nat, j: nat, rest: seq<string>)
    requires i < j <= |s| && NoSpace(s[..i]) && IsSpace(s[i]) && AllSpace(s[i..j])
    requires j < |s| ==> !IsSpace(s[j])
    requires SplitShape(s[j..], rest)
    ensures SplitShape(s, [s[..i]] + rest)
  {
    var t := s[j..];
    var r := [s[..i]] + rest;
    assert r[0] == s[..i] && r[1..] == rest && r[|r| - 1] == rest[|rest| - 1];
    if j == |s| {
      assert t == [] && |rest| == 1;
      assert s[|s| - 1] == s[i..j][|s| - 1 - i];
    } else {
      assert t[0] == s[j] && t[|t| - 1] == s[|s| - 1];
    }
  }

  /** Array.prototype.join with separator sep. */
  function Join(words: seq<string>, sep: string): (r: string)
    decreases |words|
  {
    if |words| == 0 then []
    else if |words| == 1 then words[0]
    else words[0] + sep + Join(words[1..], sep)
  }

  /** The join is empty exactly when there is nothing to join or a single empty element. */
  lemma {:induction false} JoinEmpty(words: seq<string>, sep: string)
    requires sep != []
    ensures Join(words, sep) == [] <==> (words == [] || words == [[]])
  {
    if |words| >= 2 {
      assert |Join(words, sep)| >= |sep|;
    } else if |words| == 1 {
      assert words == [words[0]];
    }
  }

  lemma {:induction false} IndexOfSpaceAppend(w: string, t: string)
    requires NoSpace(w) && t != [] && IsSpace(t[0])
    ensures IndexOfSpace(w + t) == |w|
    decreases |w|
  {
    var s := w + t;
    if w == [] {
      assert s == t;
    } else {
      assert s[0] == w[0] && !IsSpace(w[0]);
      assert s[1..] == w[1..] + t;
      assert NoSpace(w[1..]) by {
        forall m | 0 <= m < |w[1..]| ensures !IsSpace(w[1..][m]) {
          assert w[1..][m] == w[m + 1];
        }
      }
      IndexOfSpaceAppend(w[1..], t);
    }
  }

  /**
   * Fields with a separator between each two consecutive ones: what a split
   * on white-space runs takes apart when every separator is such a run.
   */
  function JoinRuns(words: seq<string>, seps: seq<string>): string
    requires |words| >= 1 && |seps| == |words| - 1
    decreases |words|
  {
    if |words| == 1 then words[0] else words[0] + seps[0] + JoinRuns(words[1..], seps[1..])
  }

  /** Every separator is a non-empty run of white space. */
  predicate WhiteRuns(seps: seq<string>)
  {
    forall k :: 0 <= k < |seps| ==> seps[k] != [] && AllSpace(seps[k])
  }

  /** Array.prototype.join is JoinRuns with the same separator everywhere. */
  lemma {:induction false} JoinIsJoinRuns(words: seq<string>, sep: string)
    requires |words| >= 1
    ensures Join(words, sep) == JoinRuns(words, seq(|words| - 1, _ => sep))
    decreases |words|
  {
    if |words| > 1 {
      var seps := seq(|words| - 1, _ => sep);
      assert seps[0] == sep && seps[1..] == seq(|words| - 2, _ => sep);
      JoinIsJoinRuns(words[1..], sep);
    }
  }

  lemma {:induction false} JoinRunsStart(words: seq<string>, seps: seq<string>)
    requires |words| >= 1 && |seps| == |words| - 1 && words[0] != []
    ensures JoinRuns(words, seps) != [] && JoinRuns(words, seps)[0] == words[0][0]
  {
  }

  lemma {:induction false} JoinRunsEnd(words: seq<string>, seps: seq<string>)
    requires |words| >= 1 && |seps| == |words| - 1 && words[|words| - 1] != []
    ensures var j := JoinRuns(words, seps); j != [] && j[|j| - 1] == words[|words| - 1][|words[|words| - 1]| - 1]
    decreases |words|
  {
    if |words| > 1 {
      JoinRunsEnd(words[1..], seps[1..]);
    }
  }

  /**
   * A white-space-free word, a non-empty run of white space and a string
   * that is empty or starts with a non-space character split at that run.
   */
  lemma SplitConsRun(w: string, sp: string, rest: string)
    requires NoSpace(w) && sp != [] && AllSpace(sp)
    requires rest == [] || !IsSpace(rest[0])
    ensures Split(w + sp + rest) == [w] + Split(rest)
  {
    var s := w + sp + rest;
    var e := |w| + |sp|;
    assert s == w + (sp + rest) && (sp + rest)[0] == sp[0];
    IndexOfSpaceAppend(w, sp + rest);
    assert s[|w|..e] == sp && s[..|w|] == w && s[e..] == rest;
    if rest != [] {
      assert s[e] == rest[0];
      SpaceRunEndAt(s, |w|, e);
    }
  }

  /**
   * Splitting white-space-free fields separated by non-empty white-space
   * runs gives the fields back; only the first and the last may be empty,
   * as when the string starts or ends with white space.
   */
  lemma {:induction false} SplitJoinRuns(words: seq<string>, seps: seq<string>)
    requires |words| >= 1 && |seps| == |words| - 1
    requires forall k :: 0 <= k < |words| ==> NoSpace(words[k])
    requires forall k :: 0 < k < |words| - 1 ==> words[k] != []
    requires WhiteRuns(seps)
    ensures Split(JoinRuns(words, seps)) == words
    decreases |words|
  {
    var w := words[0];
    if |words| == 1 {
      assert NoSpace(w);
      assert IndexOfSpace(w) == |w| && w[..|w|] == w;
    } else {
      var rest := JoinRuns(words[1..], seps[1..]);
      assert NoSpace(w) && seps[0] != [] && AllSpace(seps[0]);
      if words[1] != [] {
        JoinRunsStart(words[1..], seps[1..]);
        assert NoSpace(words[1]);
      } else {
        assert |words| == 2 && rest == [];
      }
      SplitConsRun(w, seps[0], rest);
      SplitJoinRuns(words[1..], seps[1..]);
      assert words == [w] + words[1..];
    }
  }

  /** The white-space runs that Split removes, in order. */
  function SplitSeps(s: string): (seps: seq<string>)
    decreases |s|
  {
    var i := IndexOfSpace(s);
    if i == |s| then []
    else
      var j := SpaceRunEnd(s, i);
      [s[i..j]] + SplitSeps(s[j..])
  }

  /**
   * Split only removes white-space runs: putting the removed runs back
   * between the fields rebuilds the string.
   */
  lemma {:induction false} SplitRebuilds(s: string)
    ensures |SplitSeps(s)| == |Split(s)| - 1
    ensures WhiteRuns(SplitSeps(s))
    ensures s == JoinRuns(Split(s), SplitSeps(s))
    decreases |s|
  {
    var i := IndexOfSpace(s);
    if i == |s| {
      assert s[..i] == s;
    } else {
      var j := SpaceRunEnd(s, i);
      var t := s[j..];
      SplitRebuilds(t);
      assert Split(s) == [s[..i]] + Split(t);
      assert SplitSeps(s) == [s[i..j]] + SplitSeps(t);
      RebuildStep(s, i, j, Split(t), SplitSeps(t));
    }
  }

  lemma RebuildStep(s: string, i: nat, j: nat, r: seq<string>, seps: seq<string>)
    requires i < j <= |s| && AllSpace(s[i..j])
    requires |r| >= 1 && |seps| == |r| - 1 && WhiteRuns(seps) && s[j..] == JoinRuns(r, seps)
    ensures WhiteRuns([s[i..j]] + seps)
    ensures s == JoinRuns([s[..i]] + r, [s[i..j]] + seps)
  {
    JoinRunsCons(s[..i], s[i..j], r, seps);
    SliceThree(s, i, j);
    WhiteRunsCons(s[i..j], seps);
  }

  lemma SliceThree(s: string, i: nat, j: nat)
    requires i <= j <= |s|
    ensures s == s[..i] + s[i..j] + s[j..]
  {
    assert s[..j] == s[..i] + s[i..j];
    assert s == s[..j] + s[j..];
  }

  lemma JoinRunsCons(w: string, sp: string, r: seq<string>, seps: seq<string>)
    requires |r| >= 1 && |seps| == |r| - 1
    ensures JoinRuns([w] + r, [sp] + seps) == w + sp + JoinRuns(r, seps)
  {
    assert ([w] + r)[1..] == r && ([sp] + seps)[1..] == seps;
  }

  lemma WhiteRunsCons(sp: string, seps: seq<string>)
    requires sp != [] && AllSpace(sp) && WhiteRuns(seps)
    ensures WhiteRuns([sp] + seps)
  {
    forall k | 0 <= k < |seps| + 1 ensures ([sp] + seps)[k] != [] && AllSpace(([sp] + seps)[k]) {
      if k > 0 {
        assert ([sp] + seps)[k] == seps[k - 1];
      }
    }
  }

  /** Splitting a trimmed, non-empty string yields only non-empty tokens. */
  lemma SplitTrimmedTokens(s: string)
    requires s != [] && !IsSpace(s[0]) && !IsSpace(s[|s| - 1])
    ensures forall k :: 0 <= k < |Split(s)| ==> Split(s)[k] != []
  {
  }

  /** ASCII upper-case letters map to lower case; every other character is kept. */
  function LowerChar(c: char): (d: char)
    ensures 'A' <= c <= 'Z' ==> d as int == c as int + 32
    ensures !('A' <= c <= 'Z') ==> d == c
    ensures !('A' <= d <= 'Z')
    ensures IsSpace(d) == IsSpace(c)
  {
    if 'A' <= c <= 'Z' then (c as int + 32) as char else c
  }

  /** String.prototype.toLowerCase, restricted to the ASCII letters. */
  function Lower(s: string): (r: string)
    ensures |r| == |s|
    ensures forall i :: 0 <= i < |s| ==> r[i] == LowerChar(s[i])
    ensures forall i :: 0 <= i < |r| ==> !('A' <= r[i] <= 'Z')
    ensures NoSpace(s) ==> NoSpace(r)
  {
    seq(|s|, i requires 0 <= i < |s| => LowerChar(s[i]))
  }

  /** A string without upper-case ASCII letters is its own lower-case form. */
  lemma LowerKeepsLowerCase(s: string)
    requires forall i :: 0 <= i < |s| ==> !('A' <= s[i] <= 'Z')
    ensures Lower(s) == s
  {
  }

  /** Lower-casing is idempotent. */
  lemma LowerIdempotent(s: string)
    ensures Lower(Lower(s)) == Lower(s)
  {
  }

  predicate IsDigits(s: string)
  {
    forall i :: 0 <= i < |s| ==> '0' <= s[i] <= '9'
  }

  /** The decimal digits of n, most significant first, as `${n}` renders it. */
  function NatToString(n: nat): (r: string)
    ensures |r| >= 1 && IsDigits(r)
    ensures r[0] == '0' ==> n == 0 && r == "0"
    decreases n
  {
    if n < 10 then [DigitChar(n)] else NatToString(n / 10) + [DigitChar(n % 10)]
  }

  function DigitChar(d: nat): (c: char)
    requires d < 10
    ensures '0' <= c <= '9' && c as int - '0' as int == d
  {
    ('0' as int + d) as char
  }

  /** The value of a string of decimal digits (the inverse of NatToString). */
  function DecimalValue(s: string): nat
    requires IsDigits(s)
    decreases |s|
  {
    if s == [] then 0
    else DecimalValue(s[..|s| - 1]) * 10 + (s[|s| - 1] as int - '0' as int)
  }

  /** Reading back the rendered digits gives the number. */
  lemma {:induction false} DecimalRoundTrip(n: nat)
    ensures DecimalValue(NatToString(n)) == n
    decreases n
  {
    if n >= 10 {
      var r := NatToString(n);
      assert r[..|r| - 1] == NatToString(n / 10);
      DecimalRoundTrip(n / 10);
    }
  }

  /** Distinct numbers render as distinct strings. */
  lemma NatToStringInjective(m: nat, n: nat)
    requires NatToString(m) == NatToString(n)
    ensures m == n
  {
    DecimalRoundTrip(m);
    DecimalRoundTrip(n);
  }
}

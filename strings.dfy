/**
 * The few Python `str` builtins the detector is built from: whitespace
 * (`str.isspace`, and `\s` in a `str` regular expression), `strip()`,
 * `split(sep)` and `sep.join(parts)`. Strings are sequences of Unicode
 * code points, as Python 3 strings are.
 */
module Strings {

  /** Python's Unicode whitespace: the code points for which `str.isspace()` holds. */
  predicate IsSpace(c: char) {
    ('\t' <= c <= '\r') || ('\U{1C}' <= c <= ' ') || c == '\U{85}' || c == '\U{A0}'
    || c == '\U{1680}' || ('\U{2000}' <= c <= '\U{200A}') || c == '\U{2028}' || c == '\U{2029}'
    || c == '\U{202F}' || c == '\U{205F}' || c == '\U{3000}'
  }

  /** `not s.strip()`: the string is empty or all whitespace. */
  predicate Blank(s: string) {
    forall i :: 0 <= i < |s| ==> IsSpace(s[i])
  }

  /** Neither end of the string is whitespace. */
  predicate Stripped(s: string) {
    s == [] || (!IsSpace(s[0]) && !IsSpace(s[|s| - 1]))
  }

  /** Length of the whitespace run at the start of `s`. */
  function LeadingSpaces(s: string): (n: nat)
    ensures n <= |s|
    ensures Blank(s[..n])
    ensures n < |s| ==> !IsSpace(s[n])
  {
    if s != [] && IsSpace(s[0]) then 1 + LeadingSpaces(s[1..]) else 0
  }

  /**
   * `s.strip()`: `s` with its leading and trailing whitespace removed, one
   * character at a time. The result has no whitespace at either end, and it
   * is empty exactly when `s` is blank.
   */
  function Strip(s: string): (r: string)
    ensures Stripped(r)
    ensures r == [] <==> Blank(s)
    decreases |s|
  {
    if s == [] then []
    else if IsSpace(s[0]) then
      var r := Strip(s[1..]);
      assert Blank(s) <==> Blank(s[1..]) by {
        assert forall i :: 0 < i < |s| ==> s[i] == s[1..][i - 1];
      }
      r
    else if IsSpace(s[|s| - 1]) then
      var r := Strip(s[..|s| - 1]);
      assert !Blank(s[..|s| - 1]) by {
        assert s[..|s| - 1][0] == s[0];
      }
      r
    else s
  }

  /**
   * `s.strip()` is a slice `s[a..b]` of `s`, and only whitespace is cut off
   * on either side of it.
   */
  lemma {:induction false} StripSlice(s: string) returns (a: nat, b: nat)
    ensures a <= b <= |s| && Strip(s) == s[a..b]
    ensures Blank(s[..a]) && Blank(s[b..])
    decreases |s|
  {
    if s == [] {
      a, b := 0, 0;
    } else if IsSpace(s[0]) {
      var a', b' := StripSlice(s[1..]);
      a, b := a' + 1, b' + 1;
      DropFirst(s, a', b');
    } else if IsSpace(s[|s| - 1]) {
      a, b := StripSlice(s[..|s| - 1]);
      DropLast(s, a, b);
    } else {
      a, b := 0, |s|;
      assert s[0..|s|] == s;
    }
  }

  /** A slice of `s[1..]` with blank margins, moved over to `s` when `s[0]` is whitespace. */
  lemma DropFirst(s: string, a: nat, b: nat)
    requires s != [] && IsSpace(s[0]) && a <= b <= |s| - 1
    requires Blank(s[1..][..a]) && Blank(s[1..][b..])
    ensures s[1..][a..b] == s[a + 1..b + 1]
    ensures Blank(s[..a + 1]) && Blank(s[b + 1..])
  {
    var t, head := s[1..], s[..a + 1];
    forall i | 0 < i < |head| ensures IsSpace(head[i]) {
      assert head[i] == t[..a][i - 1];
    }
    assert s[b + 1..] == t[b..];
  }

  /** A slice of `s[..|s| - 1]` with blank margins, moved over to `s` when its last character is whitespace. */
  lemma DropLast(s: string, a: nat, b: nat)
    requires s != [] && IsSpace(s[|s| - 1]) && a <= b <= |s| - 1
    requires Blank(s[..|s| - 1][..a]) && Blank(s[..|s| - 1][b..])
    ensures s[..|s| - 1][a..b] == s[a..b]
    ensures Blank(s[..a]) && Blank(s[b..])
  {
    var t := s[..|s| - 1];
    assert t[..a] == s[..a];
    forall i | 0 <= i < |s| - b - 1 ensures IsSpace(s[b..][i]) {
      assert s[b..][i] == t[b..][i];
    }
    assert s[b..][|s| - b - 1] == s[|s| - 1];
  }

  /** A string with no whitespace at either end is its own `strip()`. */
  lemma StripStripped(s: string)
    requires Stripped(s)
    ensures Strip(s) == s
  {
  }

  /** Stripping a string whose last character is not whitespace keeps that character last. */
  lemma {:induction false} StripKeepsLast(s: string)
    requires s != [] && !IsSpace(s[|s| - 1])
    ensures Strip(s) != [] && Strip(s)[|Strip(s)| - 1] == s[|s| - 1]
    decreases |s|
  {
    if IsSpace(s[0]) {
      assert s[1..][|s[1..]| - 1] == s[|s| - 1];
      StripKeepsLast(s[1..]);
    }
  }

  /** `sep` occurs in `s` starting at index `k`. */
  predicate OccursAt(s: string, sep: string, k: nat) {
    k + |sep| <= |s| && s[k..k + |sep|] == sep
  }

  /** `sep not in s`. */
  predicate Lacks(s: string, sep: string) {
    forall k: nat :: k <= |s| ==> !OccursAt(s, sep, k)
  }

  /** An occurrence inside a slice is an occurrence in the whole string. */
  lemma OccursInSlice(s: string, sep: string, i: nat, j: nat, k: nat)
    requires i <= j <= |s| && OccursAt(s[i..j], sep, k)
    ensures OccursAt(s, sep, i + k)
  {
    forall t | 0 <= t < |sep| ensures s[i + k..i + k + |sep|][t] == sep[t] {
      assert s[i..j][k..k + |sep|][t] == sep[t];
    }
  }

  /** A one-character separator occurs exactly where that character is. */
  lemma OccursChar(s: string, c: char, k: nat)
    ensures OccursAt(s, [c], k) <==> k < |s| && s[k] == c
  {
    if k < |s| {
      assert s[k..k + 1][0] == s[k];
    }
  }

  /** A string lacks a one-character separator exactly when it lacks the character. */
  lemma LacksChar(s: string, c: char)
    ensures Lacks(s, [c]) <==> c !in s
  {
    forall k: nat ensures OccursAt(s, [c], k) <==> k < |s| && s[k] == c {
      OccursChar(s, c, k);
    }
  }

  /** A slice of a string that lacks `sep` lacks it too. */
  lemma LacksSlice(s: string, sep: string, i: nat, j: nat)
    requires i <= j <= |s| && Lacks(s, sep)
    ensures Lacks(s[i..j], sep)
  {
    forall k: nat | k <= j - i && OccursAt(s[i..j], sep, k)
      ensures false
    {
      OccursInSlice(s, sep, i, j, k);
    }
  }

  /** `s.find(sep)`, with `|s|` standing for "not found". */
  function FirstOccurrence(s: string, sep: string): (k: nat)
    requires |sep| > 0
    ensures k <= |s|
    ensures k < |s| ==> OccursAt(s, sep, k)
    ensures forall j: nat :: j < k ==> !OccursAt(s, sep, j)
  {
    if |s| < |sep| then |s|
    else if s[..|sep|] == sep then 0
    else
      var k := 1 + FirstOccurrence(s[1..], sep);
      forall j: nat | 1 <= j ensures OccursAt(s, sep, j) <==> OccursAt(s[1..], sep, j - 1) {
        if j + |sep| <= |s| {
          assert s[1..][j - 1..j - 1 + |sep|] == s[j..j + |sep|];
        }
      }
      k
  }

  /**
   * `sep.join(parts)`. In Python, joining an empty list gives the empty string.
   */
  function Join(parts: seq<string>, sep: string): string {
    if |parts| == 0 then ""
    else if |parts| == 1 then parts[0]
    else parts[0] + sep + Join(parts[1..], sep)
  }

  /** `parts[0] + seps[0] + parts[1] + ... + parts[n]`: the parts with a separator of their own between each two. */
  function Interleave(parts: seq<string>, seps: seq<string>): string
    requires |parts| == |seps| + 1
  {
    if |seps| == 0 then parts[0] else parts[0] + seps[0] + Interleave(parts[1..], seps[1..])
  }

  /**
   * `s.split(sep)`: the pieces between the non-overlapping occurrences of
   * `sep`, found from left to right. There is always at least one piece, no
   * piece contains `sep`, and joining the pieces with `sep` gives back `s`.
   */
  function SplitOn(s: string, sep: string): (r: seq<string>)
    requires |sep| > 0
    ensures |r| >= 1
    ensures forall i :: 0 <= i < |r| ==> Lacks(r[i], sep)
    ensures Join(r, sep) == s
    decreases |s|
  {
    var k := FirstOccurrence(s, sep);
    if k == |s| then
      assert Lacks(s, sep);
      [s]
    else
      var rest := SplitOn(s[k + |sep|..], sep);
      SplitOnStep(s, sep, k, rest);
      [s[..k]] + rest
  }

  /**
   * One cut of `split`: the text before the first `sep`, followed by the
   * pieces of the rest, again has no piece holding `sep` and joins back to `s`.
   */
  lemma SplitOnStep(s: string, sep: string, k: nat, rest: seq<string>)
    requires |sep| > 0 && OccursAt(s, sep, k)
    requires forall j: nat :: j < k ==> !OccursAt(s, sep, j)
    requires |rest| >= 1 && Join(rest, sep) == s[k + |sep|..]
    requires forall i :: 0 <= i < |rest| ==> Lacks(rest[i], sep)
    ensures forall i :: 0 <= i < |rest| + 1 ==> Lacks(([s[..k]] + rest)[i], sep)
    ensures Join([s[..k]] + rest, sep) == s
  {
    var r := [s[..k]] + rest;
    LacksBeforeFirst(s, sep, k);
    forall i | 0 < i < |r| ensures Lacks(r[i], sep) {
      assert r[i] == rest[i - 1];
    }
    assert Join(r, sep) == s[..k] + sep + Join(rest, sep) by {
      assert r[0] == s[..k] && r[1..] == rest;
    }
    var m := k + |sep|;
    assert s[..k] + sep == s[..m] by {
      assert s[k..m] == sep;
    }
    assert s[..m] + s[m..] == s;
  }

  /** The text before the first occurrence of `sep` does not contain `sep`. */
  lemma LacksBeforeFirst(s: string, sep: string, k: nat)
    requires |sep| > 0 && k <= |s|
    requires forall j: nat :: j < k ==> !OccursAt(s, sep, j)
    ensures Lacks(s[..k], sep)
  {
    forall j: nat | j <= k && OccursAt(s[..k], sep, j) ensures false {
      OccursInSlice(s, sep, 0, k, j);
    }
  }

  /** Split at the first occurrence of `sep`: the text before it, then the split of the rest. */
  lemma SplitOnFirst(s: string, sep: string, k: nat)
    requires |sep| > 0 && OccursAt(s, sep, k)
    requires forall j: nat :: j < k ==> !OccursAt(s, sep, j)
    ensures SplitOn(s, sep) == [s[..k]] + SplitOn(s[k + |sep|..], sep)
  {
    assert FirstOccurrence(s, sep) == k;
  }

  /** A text without `sep` splits into just itself. */
  lemma SplitOnLacking(s: string, sep: string)
    requires |sep| > 0 && Lacks(s, sep)
    ensures SplitOn(s, sep) == [s]
  {
    assert FirstOccurrence(s, sep) == |s|;
  }

  /**
   * Splitting on a one-character separator undoes joining on it, provided no
   * part contains that character.
   */
  lemma {:induction false} SplitJoin(parts: seq<string>, c: char)
    requires |parts| >= 1
    requires forall i :: 0 <= i < |parts| ==> c !in parts[i]
    ensures SplitOn(Join(parts, [c]), [c]) == parts
  {
    var p := parts[0];
    LacksChar(p, c);
    if |parts| == 1 {
      assert FirstOccurrence(p, [c]) == |p|;
    } else {
      var rest := Join(parts[1..], [c]);
      var s := p + [c] + rest;
      assert Join(parts, [c]) == s;
      assert OccursAt(s, [c], |p|) by {
        assert s[|p|..|p| + 1] == [c];
      }
      var k := FirstOccurrence(s, [c]);
      forall j: nat ensures OccursAt(s, [c], j) <==> j < |s| && s[j] == c {
        OccursChar(s, c, j);
      }
      assert k == |p|;
      assert s[k + 1..] == rest;
      assert s[..k] == p;
      SplitJoin(parts[1..], c);
      assert parts == [p] + parts[1..];
    }
  }

  /** Joining blank parts with a blank separator gives a blank string. */
  lemma {:induction false} JoinBlank(parts: seq<string>, sep: string)
    requires Blank(sep)
    requires forall i :: 0 <= i < |parts| ==> Blank(parts[i])
    ensures Blank(Join(parts, sep))
  {
    if |parts| > 1 {
      JoinBlank(parts[1..], sep);
      var s := parts[0] + sep + Join(parts[1..], sep);
      forall i | 0 <= i < |s| ensures IsSpace(s[i]) {
        if i < |parts[0]| {
          assert s[i] == parts[0][i];
        } else if i < |parts[0]| + |sep| {
          assert s[i] == sep[i - |parts[0]|];
        } else {
          assert s[i] == Join(parts[1..], sep)[i - |parts[0]| - |sep|];
        }
      }
    }
  }
}

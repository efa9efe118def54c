/**
 * The few Python string operations the scripts rely on, with Python's
 * semantics written out: clamping slices, `str.find`, `str.rfind`,
 * `str.replace` with an empty replacement, `str.lower` and
 * `pathlib.PurePath.suffix`.
 */
module PyStrings {

  /** `s[n:]` for a non-negative start: a start past the end gives "". */
  function SliceFrom(s: string, n: nat): (r: string)
    ensures n <= |s| ==> s == s[..n] + r
    ensures |s| <= n ==> r == ""
  {
    if n <= |s| then s[n..] else ""
  }

  /** `s.find(c)`: the index of the first `c` in `s`, or -1. */
  function FindChar(s: string, c: char): (r: int)
    ensures -1 <= r < |s|
    ensures r == -1 <==> c !in s
    ensures 0 <= r ==> s[r] == c && c !in s[..r]
  {
    if s == [] then -1
    else if s[0] == c then 0
    else
      var k := FindChar(s[1..], c);
      assert k >= 0 ==> s[..k + 1] == [s[0]] + s[1..][..k];
      if k == -1 then -1 else k + 1
  }

  /** A first occurrence is unique: any index holding `c` with no `c` before it is what `find` returns. */
  lemma FindCharAt(s: string, c: char, k: nat)
    requires k < |s| && s[k] == c && c !in s[..k]
    ensures FindChar(s, c) == k
  {
    assert s[k] in s;
  }

  /** `s.rfind(c)`: the index of the last `c` in `s`, or -1. */
  function RFindChar(s: string, c: char): (r: int)
    ensures -1 <= r < |s|
    ensures r == -1 <==> c !in s
    ensures 0 <= r ==> s[r] == c && c !in s[r + 1..]
  {
    if s == [] then -1
    else if s[|s| - 1] == c then |s| - 1
    else
      var k := RFindChar(s[..|s| - 1], c);
      assert s == s[..|s| - 1] + [s[|s| - 1]];
      assert k >= 0 ==> s[k + 1..] == s[..|s| - 1][k + 1..] + [s[|s| - 1]];
      k
  }

  /** A last occurrence is unique: any index holding `c` with no `c` after it is what `rfind` returns. */
  lemma RFindCharAt(s: string, c: char, k: nat)
    requires k < |s| && s[k] == c && c !in s[k + 1..]
    ensures RFindChar(s, c) == k
  {
    assert s[k] in s;
  }

  /** `s.replace(c, '')` for a one-character pattern: every `c` removed, the rest kept in order. */
  function RemoveAll(s: string, c: char): (r: string)
    ensures c !in r
    ensures |r| <= |s|
    ensures forall x :: x in r ==> x in s
  {
    if s == [] then ""
    else
      (if s[0] == c then "" else [s[0]]) + RemoveAll(s[1..], c)
  }

  /** Removing from a concatenation removes from each part. */
  lemma {:induction false} RemoveAllAppend(a: string, b: string, c: char)
    ensures RemoveAll(a + b, c) == RemoveAll(a, c) + RemoveAll(b, c)
  {
    if a != [] {
      assert (a + b)[1..] == a[1..] + b;
      RemoveAllAppend(a[1..], b, c);
    } else {
      assert a + b == b;
    }
  }

  /** A string without `c` is left unchanged. */
  lemma {:induction false} RemoveAllAbsent(s: string, c: char)
    requires c !in s
    ensures RemoveAll(s, c) == s
  {
    if s != [] {
      assert s[1..] == s[1..] && c !in s[1..] by { assert forall x :: x in s[1..] ==> x in s; }
      RemoveAllAbsent(s[1..], c);
    }
  }

  /** `c.lower()` for the characters that matter here (ASCII letters). */
  function LowerChar(c: char): char
  {
    if 'A' <= c <= 'Z' then (c as int + 32) as char else c
  }

  /** `s.lower()` restricted to ASCII case folding. */
  function Lower(s: string): string
  {
    seq(|s|, i requires 0 <= i < |s| => LowerChar(s[i]))
  }

  /**
   * Lower-casing keeps the length, leaves no upper-case ASCII letter,
   * changes only upper-case ASCII letters (each into its lower-case
   * letter), and lower-casing twice is lower-casing once.
   */
  lemma LowerFolds(s: string)
    ensures |Lower(s)| == |s|
    ensures forall i :: 0 <= i < |s| ==> !('A' <= Lower(s)[i] <= 'Z')
    ensures forall i :: 0 <= i < |s| ==>
      if 'A' <= s[i] <= 'Z' then Lower(s)[i] as int == s[i] as int + 32 else Lower(s)[i] == s[i]
    ensures Lower(Lower(s)) == Lower(s)
  {
  }

  /**
   * `PurePath(name).suffix` of a final path component: everything from
   * the last '.' on, provided that dot is neither the first nor the last
   * character of the name; otherwise "".
   */
  function PathSuffix(name: string): (r: string)
    ensures r == "" || (2 <= |r| < |name| && r[0] == '.' && '.' !in r[1..] && name == name[..|name| - |r|] + r)
  {
    var i := RFindChar(name, '.');
    if 0 < i < |name| - 1 then name[i..] else ""
  }

  /**
   * `PurePath(name).suffix.lower() == ext` for an extension such as
   * ".sec": the name is longer than the extension, the character where
   * the extension starts is a dot, and the tail lower-cases to `ext`.
   * A name that is only the extension (a hidden file) does not match.
   */
  lemma SuffixIs(name: string, ext: string)
    requires 2 <= |ext| && ext[0] == '.' && '.' !in ext[1..]
    ensures Lower(PathSuffix(name)) == ext <==>
      (|ext| < |name| && name[|name| - |ext|] == '.' && Lower(name[|name| - |ext|..]) == ext)
  {
    var j := |name| - |ext|;
    if |ext| < |name| && name[j] == '.' && Lower(name[j..]) == ext {
      forall t | j < t < |name| ensures name[t] != '.' {
        assert Lower(name[j..])[t - j] == ext[t - j];
        assert ext[1..][t - j - 1] == ext[t - j];
      }
      var tail := name[j + 1..];
      forall t | 0 <= t < |tail| ensures tail[t] != '.' {
        assert tail[t] == name[j + 1 + t];
      }
      assert '.' !in tail;
      RFindCharAt(name, '.', j);
    }
    if Lower(PathSuffix(name)) == ext {
      var r := PathSuffix(name);
      assert |r| == |ext|;
      assert r[0] == '.' by { assert LowerChar(r[0]) == '.'; }
      assert name[j..] == r;
    }
  }
}

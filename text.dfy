/**
 * The string operations the core applies to operator answers and file
 * names: Python's str.strip, str.lower, str.endswith and `in`, click's
 * prompt default, os.path.basename and os.path.splitext.
 */
module Text {
  import opened Wrappers

  /** Python's str.isspace on one character. */
  predicate IsSpace(c: char) {
    c == ' ' || ('\t' <= c <= '\r') || ('\U{1C}' <= c <= '\U{1F}')
    || c == '\U{85}' || c == '\U{A0}' || c == '\U{1680}' || ('\U{2000}' <= c <= '\U{200A}')
    || c == '\U{2028}' || c == '\U{2029}' || c == '\U{202F}' || c == '\U{205F}' || c == '\U{3000}'
  }

  /** Number of leading whitespace characters. */
  function SpacesBefore(s: string): (n: nat)
    ensures n <= |s|
    ensures forall k :: 0 <= k < n ==> IsSpace(s[k])
    ensures n < |s| ==> !IsSpace(s[n])
  {
    if s == [] || !IsSpace(s[0]) then 0 else 1 + SpacesBefore(s[1..])
  }

  /** Number of trailing whitespace characters. */
  function SpacesAfter(s: string): (n: nat)
    ensures n <= |s|
    ensures forall k :: |s| - n <= k < |s| ==> IsSpace(s[k])
    ensures n < |s| ==> !IsSpace(s[|s| - n - 1])
  {
    if s == [] || !IsSpace(s[|s| - 1]) then 0 else 1 + SpacesAfter(s[..|s| - 1])
  }

  /** Python's `s.strip()`: `s` without its leading and trailing whitespace. */
  function Strip(s: string): (r: string)
    ensures r == [] <==> forall k :: 0 <= k < |s| ==> IsSpace(s[k])
    ensures r != [] ==> !IsSpace(r[0]) && !IsSpace(r[|r| - 1])
    ensures SpacesBefore(s) + |r| <= |s| && r == s[SpacesBefore(s)..SpacesBefore(s) + |r|]
    ensures forall k :: SpacesBefore(s) + |r| <= k < |s| ==> IsSpace(s[k])
  {
    var a := SpacesBefore(s);
    if a == |s| then [] else s[a..|s| - SpacesAfter(s)]
  }

  /** Python's `c.lower()` on the ASCII letters; other characters are kept. */
  function LowerChar(c: char): (l: char)
    ensures l == 'y' <==> c == 'y' || c == 'Y'
  {
    if 'A' <= c <= 'Z' then (c as int + 32) as char else c
  }

  /** Python's `s.lower()`, character by character. */
  function Lower(s: string): (r: string)
    ensures |r| == |s|
    ensures forall i :: 0 <= i < |s| ==> r[i] == LowerChar(s[i])
  {
    seq(|s|, i requires 0 <= i < |s| => LowerChar(s[i]))
  }

  /** click.prompt: an empty answer stands for the prompt's default. */
  function PromptValue(line: string, default: string): (v: string)
    ensures line != "" ==> v == line
    ensures line == "" ==> v == default
  {
    if line == "" then default else line
  }

  /** The test `answer.strip().lower() == 'y'` applied to every yes/no prompt. */
  predicate IsYes(answer: string) {
    Lower(Strip(answer)) == "y"
  }

  /** An answer counts as yes exactly when it is one `y` or `Y` surrounded by whitespace only. */
  lemma YesShape(s: string)
    ensures IsYes(s) <==> exists i :: 0 <= i < |s| && (s[i] == 'y' || s[i] == 'Y')
                                   && forall k :: 0 <= k < |s| && k != i ==> IsSpace(s[k])
  {
    var r := Strip(s);
    var a := SpacesBefore(s);
    if IsYes(s) {
      assert |r| == 1 && LowerChar(r[0]) == 'y';
      assert s[a] == r[0];
      forall k | 0 <= k < |s| && k != a ensures IsSpace(s[k]) {
        if k > a { assert a + |r| <= k; }
      }
    }
    if i :| 0 <= i < |s| && (s[i] == 'y' || s[i] == 'Y') && forall k :: 0 <= k < |s| && k != i ==> IsSpace(s[k]) {
      assert !IsSpace(s[i]);
      assert a == i;
      assert r != [];
      assert |r| == 1;
      assert Lower(r) == [LowerChar(s[i])];
    }
  }

  function StartsWith(s: string, prefix: string): bool {
    |prefix| <= |s| && s[..|prefix|] == prefix
  }

  /** Python's `s.endswith(suffix)`. */
  function EndsWith(s: string, suffix: string): bool {
    |suffix| <= |s| && s[|s| - |suffix|..] == suffix
  }

  /** `sub` occurs in `s` starting at position `i`. */
  predicate OccursAt(s: string, sub: string, i: int) {
    0 <= i <= |s| - |sub| && s[i..i + |sub|] == sub
  }

  /** Python's `sub in s` on strings. */
  function Contains(s: string, sub: string): bool
    decreases |s|
  {
    StartsWith(s, sub) || (s != [] && Contains(s[1..], sub))
  }

  /** `sub in s` holds exactly when `sub` occurs at some position of `s`. */
  lemma {:induction false} ContainsIff(s: string, sub: string)
    ensures Contains(s, sub) <==> exists i :: OccursAt(s, sub, i)
    decreases |s|
  {
    if StartsWith(s, sub) {
      assert OccursAt(s, sub, 0);
    }
    if s != [] {
      ContainsIff(s[1..], sub);
      if i :| OccursAt(s, sub, i) {
        if i > 0 {
          assert OccursAt(s[1..], sub, i - 1) by {
            assert s[1..][i - 1..i - 1 + |sub|] == s[i..i + |sub|];
          }
        }
      }
      if Contains(s[1..], sub) {
        var j :| OccursAt(s[1..], sub, j);
        assert OccursAt(s, sub, j + 1) by {
          assert s[1..][j..j + |sub|] == s[j + 1..j + 1 + |sub|];
        }
      }
    } else {
      if i :| OccursAt(s, sub, i) {
        assert i == 0 && StartsWith(s, sub);
      }
    }
  }

  /** Position of the last occurrence of `c` in `s`, if any (Python's str.rfind). */
  function LastIndexOf(s: string, c: char): (r: Option<nat>)
    ensures r.Some? ==> r.value < |s| && s[r.value] == c && forall k :: r.value < k < |s| ==> s[k] != c
    ensures r.None? ==> forall k :: 0 <= k < |s| ==> s[k] != c
  {
    if s == [] then None
    else if s[|s| - 1] == c then Some(|s| - 1)
    else LastIndexOf(s[..|s| - 1], c)
  }

  /** os.path.basename: the part after the last '/'. */
  function BaseName(p: string): (b: string)
    ensures '/' !in b
    ensures '/' !in p ==> b == p
    ensures |b| <= |p| && b == p[|p| - |b|..]
  {
    match LastIndexOf(p, '/')
    case None => p
    case Some(i) => p[i + 1..]
  }

  /** The base name of `q + f`, where `q` is empty or ends with '/', is `f` when `f` has no '/'. */
  lemma BaseNameAfterSlash(q: string, f: string)
    requires q == [] || q[|q| - 1] == '/'
    requires '/' !in f
    ensures BaseName(q + f) == f
  {
    var p := q + f;
    if q != [] {
      assert p[|q| - 1] == '/';
      forall k | |q| <= k < |p| ensures p[k] != '/' {
        assert p[k] == f[k - |q|];
      }
      var i := LastIndexOf(p, '/');
      assert i.Some? && i.value == |q| - 1;
      assert p[|q|..] == f;
    } else {
      assert p == f;
    }
  }

  predicate AllDots(s: string) {
    forall k :: 0 <= k < |s| ==> s[k] == '.'
  }

  /**
   * os.path.splitext on a name without '/': the extension runs from the last
   * '.' to the end, unless only dots precede that '.' (".csv" has no extension).
   */
  function SplitExt(p: string): (r: (string, string))
    ensures r.0 + r.1 == p
    ensures r.1 != "" ==> r.1[0] == '.' && '.' !in r.1[1..] && !AllDots(r.0)
    ensures r.1 == "" ==> '.' !in p || AllDots(p[..LastIndexOf(p, '.').value])
  {
    match LastIndexOf(p, '.')
    case None => (p, "")
    case Some(d) => if AllDots(p[..d]) then (p, "") else (p[..d], p[d..])
  }

  /** Splitting `stem + ext` gives back the two parts when `ext` is one extension and `stem` is not all dots. */
  lemma SplitExtOf(stem: string, ext: string)
    requires |ext| >= 1 && ext[0] == '.' && '.' !in ext[1..]
    requires !AllDots(stem)
    ensures SplitExt(stem + ext) == (stem, ext)
  {
    var p := stem + ext;
    var d := LastIndexOf(p, '.');
    assert p[|stem|] == '.';
    assert d.Some? && d.value >= |stem| by {
      forall k | |stem| < k < |p| ensures p[k] != '.' {
        assert p[k] == ext[1..][k - |stem| - 1];
      }
    }
    assert d.value == |stem|;
    assert p[..d.value] == stem;
    assert p[d.value..] == ext;
  }
}

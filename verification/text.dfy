/**
 ASCII-level string helpers shared by every part of the pipeline model:
 Python's `str.lower`, `str.strip`, the `in` substring test and the
 character classes `\s` and `\d` of its regular expressions.
 Unicode case folding and non-ASCII whitespace are not modelled.
 */
module Text {

  /** Python's `str.isspace` / regex `\s`, restricted to ASCII:
      space, \t, \n, \r, \v, \f and the separators \x1c-\x1f. */
  predicate IsSpace(c: char) {
    c == ' ' || c == '\t' || c == '\n' || c == '\r' || c == '\U{000B}' || c == '\U{000C}'
    || ('\U{001C}' <= c <= '\U{001F}')
  }

  /** Regex `\d` restricted to ASCII. */
  predicate IsDigit(c: char) {
    '0' <= c <= '9'
  }

  predicate AllSpace(s: string) {
    forall i :: 0 <= i < |s| ==> IsSpace(s[i])
  }

  predicate NoNewline(s: string) {
    forall i :: 0 <= i < |s| ==> s[i] != '\n'
  }

  predicate NoComma(s: string) {
    forall i :: 0 <= i < |s| ==> s[i] != ','
  }

  /** No leading and no trailing whitespace. */
  predicate Trimmed(s: string) {
    |s| == 0 || (!IsSpace(s[0]) && !IsSpace(s[|s| - 1]))
  }

  function LowerChar(c: char): char {
    if 'A' <= c <= 'Z' then (c as int + 32) as char else c
  }

  /** `str.lower()` over ASCII. */
  function Lower(s: string): (r: string)
    ensures |r| == |s|
    ensures forall i :: 0 <= i < |s| ==> r[i] == LowerChar(s[i])
  {
    seq(|s|, i requires 0 <= i < |s| => LowerChar(s[i]))
  }

  predicate NoUpper(s: string) {
    forall i :: 0 <= i < |s| ==> !('A' <= s[i] <= 'Z')
  }

  lemma LowerOfNoUpper(s: string)
    requires NoUpper(s)
    ensures Lower(s) == s
  {
  }

  lemma LowerIdempotent(s: string)
    ensures Lower(Lower(s)) == Lower(s)
  {
  }

  lemma LowerConcat(a: string, b: string)
    ensures Lower(a + b) == Lower(a) + Lower(b)
  {
  }

  /** Python's `needle in hay` on strings. */
  predicate Contains(hay: string, needle: string) {
    exists i | 0 <= i <= |hay| - |needle| :: needle <= hay[i..]
  }

  /** `needle.lower() in hay.lower()`: the ASCII model of SQL `ilike '%needle%'`
      and of the case-insensitive containment tests in the nodes. */
  predicate ContainsIgnoringCase(hay: string, needle: string) {
    Contains(Lower(hay), Lower(needle))
  }

  lemma ContainsAt(hay: string, needle: string, i: nat)
    requires i + |needle| <= |hay| && hay[i..i + |needle|] == needle
    ensures Contains(hay, needle)
  {
    assert needle <= hay[i..];
  }

  /** A needle with a character the haystack lacks is not contained. */
  lemma MissingCharNotContained(hay: string, needle: string, c: char)
    requires c in needle && c !in hay
    ensures !Contains(hay, needle)
  {
    forall i | 0 <= i <= |hay| - |needle|
      ensures !(needle <= hay[i..])
    {
      var k :| 0 <= k < |needle| && needle[k] == c;
      assert hay[i + k] in hay;
      assert hay[i..][k] != needle[k];
    }
  }

  lemma ContainsEmpty(hay: string)
    ensures Contains(hay, "")
  {
    assert "" <= hay[0..];
  }

  lemma ContainsSelf(s: string)
    ensures Contains(s, s)
  {
    assert s <= s[0..];
  }

  function TrimLeft(s: string): (r: string)
    decreases |s|
  {
    if |s| > 0 && IsSpace(s[0]) then TrimLeft(s[1..]) else s
  }

  function TrimRight(s: string): (r: string)
    decreases |s|
  {
    if |s| > 0 && IsSpace(s[|s| - 1]) then TrimRight(s[..|s| - 1]) else s
  }

  /** Python's `str.strip()` over ASCII whitespace. */
  function Strip(s: string): (r: string) {
    TrimRight(TrimLeft(s))
  }

  lemma {:induction false} TrimLeftSpec(s: string) returns (a: nat)
    ensures a <= |s| && TrimLeft(s) == s[a..] && AllSpace(s[..a])
    ensures a < |s| ==> !IsSpace(s[a])
    decreases |s|
  {
    if |s| > 0 && IsSpace(s[0]) {
      var a' := TrimLeftSpec(s[1..]);
      a := a' + 1;
      assert s[1..][a'..] == s[a..];
      forall i | 0 <= i < a ensures IsSpace(s[i]) {
        if i > 0 { assert s[i] == s[1..][..a'][i - 1]; }
      }
    } else {
      a := 0;
    }
  }

  lemma {:induction false} TrimRightSpec(s: string) returns (b: nat)
    ensures b <= |s| && TrimRight(s) == s[..b] && AllSpace(s[b..])
    ensures b > 0 ==> !IsSpace(s[b - 1])
    decreases |s|
  {
    if |s| > 0 && IsSpace(s[|s| - 1]) {
      var s' := s[..|s| - 1];
      b := TrimRightSpec(s');
      assert s'[..b] == s[..b];
      forall i | b <= i < |s| ensures IsSpace(s[i]) {
        if i < |s| - 1 { assert s[i] == s'[b..][i - b]; }
      }
    } else {
      b := |s|;
    }
  }

  /** `strip` removes exactly a whitespace prefix and a whitespace suffix and
      leaves a result with neither. */
  lemma StripSpec(s: string) returns (a: nat, b: nat)
    ensures a <= b <= |s| && Strip(s) == s[a..b] && AllSpace(s[..a]) && AllSpace(s[b..])
    ensures Trimmed(Strip(s))
  {
    a := TrimLeftSpec(s);
    var t := s[a..];
    var b' := TrimRightSpec(t);
    b := a + b';
    assert t[..b'] == s[a..b];
    assert s[b..] == t[b'..];
    if b' > 0 {
      assert Strip(s)[0] == s[a];
    }
  }

  lemma StripTrimmed(s: string)
    ensures Trimmed(Strip(s))
  {
    var _, _ := StripSpec(s);
  }

  lemma {:induction false} TrimLeftSpacePrefix(w: string, x: string)
    requires AllSpace(w)
    ensures TrimLeft(w + x) == TrimLeft(x)
    decreases |w|
  {
    if |w| > 0 {
      assert (w + x)[1..] == w[1..] + x;
      TrimLeftSpacePrefix(w[1..], x);
    } else {
      assert w + x == x;
    }
  }

  /** Leading whitespace does not change the result of `strip`. */
  lemma StripSpacePrefix(w: string, x: string)
    requires AllSpace(w)
    ensures Strip(w + x) == Strip(x)
  {
    TrimLeftSpacePrefix(w, x);
  }

  lemma {:induction false} TrimRightOfAllSpace(s: string)
    requires AllSpace(s)
    ensures TrimRight(s) == ""
    decreases |s|
  {
    if |s| > 0 {
      TrimRightOfAllSpace(s[..|s| - 1]);
    }
  }

  lemma StripOfAllSpace(s: string)
    requires AllSpace(s)
    ensures Strip(s) == ""
  {
    TrimLeftSpacePrefix(s, "");
    assert s + "" == s;
    assert TrimLeft(s) == "";
  }

  lemma {:induction false} TrimRightSpaceSuffix(x: string, w: string)
    requires AllSpace(w)
    ensures TrimRight(x + w) == TrimRight(x)
    decreases |w|
  {
    if |w| > 0 {
      var w' := w[..|w| - 1];
      assert (x + w)[..|x + w| - 1] == x + w';
      AllSpaceSub(w, 0, |w|, 0, |w| - 1);
      assert w[0..|w|] == w;
      TrimRightSpaceSuffix(x, w');
    } else {
      assert x + w == x;
    }
  }

  /** Padding a stripped string with whitespace on both sides and stripping
      gives it back. */
  lemma StripPadded(a: string, t: string, b: string)
    requires AllSpace(a) && AllSpace(b) && Trimmed(t)
    ensures Strip(a + t + b) == t
  {
    assert a + t + b == a + (t + b);
    StripSpacePrefix(a, t + b);
    if |t| > 0 {
      assert (t + b)[0] == t[0];
      assert TrimLeft(t + b) == t + b;
    } else {
      assert t + b == b;
      TrimLeftSpacePrefix(b, "");
      assert b + "" == b;
    }
    TrimRightSpaceSuffix(t, b);
  }

  /** `strip` leaves a stripped string alone. */
  lemma StripOfTrimmed(s: string)
    requires Trimmed(s)
    ensures Strip(s) == s
  {
  }

  /** A substring of a newline-free string is newline-free. */
  lemma StripNoNewline(s: string)
    requires NoNewline(s)
    ensures NoNewline(Strip(s))
  {
    var a, b := StripSpec(s);
    assert forall i :: 0 <= i < b - a ==> Strip(s)[i] == s[a + i];
  }

  /** Index of the first occurrence of `c` in `s`, or |s| when there is none. */
  function IndexOf(s: string, c: char): (k: nat)
    ensures k <= |s|
    ensures k < |s| ==> s[k] == c
    ensures forall j :: 0 <= j < k ==> s[j] != c
    decreases |s|
  {
    if |s| == 0 then 0
    else if s[0] == c then 0
    else 1 + IndexOf(s[1..], c)
  }

  /** Index of the last occurrence of `c` in `s`, or -1 when there is none. */
  function LastIndexOf(s: string, c: char): (k: int)
    ensures -1 <= k < |s|
    ensures k >= 0 ==> s[k] == c
    ensures forall j :: k < j < |s| ==> s[j] != c
    decreases |s|
  {
    if |s| == 0 then -1
    else if s[|s| - 1] == c then |s| - 1
    else LastIndexOf(s[..|s| - 1], c)
  }

  /** Length of the longest whitespace prefix of `s`. */
  function SpaceRun(s: string): (n: nat)
    ensures n <= |s|
    ensures AllSpace(s[..n])
    ensures n < |s| ==> !IsSpace(s[n])
    decreases |s|
  {
    if |s| > 0 && IsSpace(s[0]) then
      var n := 1 + SpaceRun(s[1..]);
      assert forall i :: 1 <= i < n ==> s[..n][i] == s[1..][..n - 1][i - 1];
      n
    else 0
  }

  predicate OccursAt(s: string, n: string, j: int) {
    0 <= j && j + |n| <= |s| && s[j..j + |n|] == n
  }

  /** Index of the first occurrence of the non-empty string `n` in `s` at or
      after position `from`, or |s| when there is none. */
  function Find(s: string, n: string, from: nat): (k: nat)
    requires |n| > 0 && from <= |s|
    ensures from <= k <= |s|
    ensures k < |s| ==> OccursAt(s, n, k)
    ensures forall j :: from <= j < k ==> !OccursAt(s, n, j)
    decreases |s| - from
  {
    if from + |n| > |s| then |s|
    else if s[from..from + |n|] == n then from
    else Find(s, n, from + 1)
  }

  /** Every piece of an all-whitespace slice is all whitespace. */
  lemma AllSpaceSub(s: string, i: nat, j: nat, k: nat, l: nat)
    requires i <= k <= l <= j <= |s| && AllSpace(s[i..j])
    ensures AllSpace(s[k..l])
  {
    forall x | 0 <= x < l - k ensures IsSpace(s[k..l][x]) {
      assert s[k..l][x] == s[k + x] == s[i..j][k + x - i];
    }
  }

  /** `IndexOf` is determined by its contract. */
  lemma IndexOfIs(s: string, c: char, k: nat)
    requires k <= |s| && (k < |s| ==> s[k] == c)
    requires forall j :: 0 <= j < k ==> s[j] != c
    ensures IndexOf(s, c) == k
  {
    var r := IndexOf(s, c);
    assert r < |s| ==> s[r] == c;
  }

  /** `SpaceRun` is determined by its contract. */
  lemma SpaceRunIs(s: string, n: nat)
    requires n <= |s| && AllSpace(s[..n]) && (n < |s| ==> !IsSpace(s[n]))
    ensures SpaceRun(s) == n
  {
    var r := SpaceRun(s);
    assert forall j :: 0 <= j < n ==> s[..n][j] == s[j];
    assert forall j :: 0 <= j < r ==> s[..r][j] == s[j];
  }
}

/**
 `parse_item_details`: splits a product description into base description,
 colour and size. Two layouts are recognised:

   1. the anchored regular expression `^(.*?)\.\s*([^,]+),\s*(.+)$`
      ("Name. Colour, Size"), whose groups are stripped;
   2. otherwise the first line is the base description and the labels
      `Color:` and `Size:` are searched for case-insensitively with
      `Label:\s*(.+)`, each missing tag giving "".

 Layout 1 is modelled in two ways: `Layout1At` is the set of ways the
 pattern can match (its language), and `MatchLayout1` computes the match the
 way the backtracking engine picks it (lazy group 1, greedy elsewhere).
 `Layout1Characterised` connects them.
 */
module ItemDetails {
  import opened Text
  import opened Values

  datatype Details = Details(base: string, color: string, size: string)

  /** `$` without MULTILINE: at the end, or just before a final newline. */
  predicate EndAnchor(s: string, e: int) {
    e == |s| || (0 <= e == |s| - 1 && s[e] == '\n')
  }

  /** `\s*([^,]+),\s*(.+)$` matches the text `r` after the period with
      `\s*` = r[..a], group 2 = r[a..c], the comma at c, `\s*` = r[c+1..b],
      group 3 = r[b..e] and `$` at e. */
  ghost predicate TailAt(r: string, a: int, c: int, b: int, e: int) {
    && 0 <= a < c < b < e <= |r|
    && AllSpace(r[..a]) && NoComma(r[a..c]) && r[c] == ','
    && AllSpace(r[c + 1..b]) && NoNewline(r[b..e]) && EndAnchor(r, e)
  }

  /** The whole pattern matches `s` with group 1 = s[..i] (`.` never matches
      a newline), the period at i, and the rest as in `TailAt` relative to
      s[i+1..]. */
  ghost predicate Layout1At(s: string, i: int, a: int, c: int, b: int, e: int) {
    && 0 <= i < |s| && s[i] == '.' && NoNewline(s[..i])
    && TailAt(s[i + 1..], a, c, b, e)
  }

  ghost predicate Layout1Matches(s: string) {
    exists i, a, c, b, e :: Layout1At(s, i, a, c, b, e)
  }

  /** `s` without one trailing newline, if it has one. */
  function DropFinalNewline(s: string): (t: string) {
    if |s| > 0 && s[|s| - 1] == '\n' then s[..|s| - 1] else s
  }

  /** The engine's work after the period: `[^,]+` must end at the first comma
      (it cannot cross one) and be non-empty; `(.+)$` must reach the end or
      a final newline, so everything after the comma up to the last newline
      before that must be `\s*`. Answers the stripped groups 2 and 3. */
  function Tail(r: string): Option<(string, string)> {
    var c := IndexOf(r, ',');
    if c == |r| || c == 0 then None
    else
      var t := DropFinalNewline(r[c + 1..]);
      if SizeShaped(t) then Some((Strip(r[..c]), Strip(t))) else None
  }

  /** `\s*(.+)` can cover all of t: everything up to its last newline is
      whitespace and something follows that newline. */
  predicate SizeShaped(t: string) {
    LastIndexOf(t, '\n') + 1 < |t| && AllSpace(t[..LastIndexOf(t, '\n') + 1])
  }

  /** The rest of the pattern matches the text after a period. */
  predicate TailFound(r: string) {
    Tail(r).Some?
  }

  /** The period at `j` is preceded by a newline-free group 1 and followed
      by text that `ok` accepts. */
  predicate PeriodOk(s: string, j: int, ok: string -> bool) {
    0 <= j < |s| && s[j] == '.' && NoNewline(s[..j]) && ok(s[j + 1..])
  }

  /** The period at `j` starts a successful match. */
  predicate PeriodWorks(s: string, j: int) {
    PeriodOk(s, j, TailFound)
  }

  /** Lazy `(.*?)`: try group 1 lengths in increasing order; `.` stops at the
      first newline. The test of the rest of the pattern is the parameter
      `ok`. */
  function FirstPeriod(s: string, i: nat, ok: string -> bool): (r: Option<nat>)
    requires i <= |s| && NoNewline(s[..i])
    ensures r.Some? ==> i <= r.value && PeriodOk(s, r.value, ok)
    ensures r.Some? ==> forall j :: i <= j < r.value ==> !PeriodOk(s, j, ok)
    ensures r.None? ==> forall j :: i <= j ==> !PeriodOk(s, j, ok)
    decreases |s| - i
  {
    if i == |s| then None
    else if s[i] == '\n' then
      assert forall j :: i < j ==> !PeriodOk(s, j, ok) by {
        forall j | i < j ensures !PeriodOk(s, j, ok) {
          if j < |s| { assert s[..j][i] == '\n'; }
        }
      }
      None
    else if s[i] == '.' && ok(s[i + 1..]) then Some(i)
    else
      assert NoNewline(s[..i + 1]) by {
        assert forall j :: 0 <= j < i ==> s[..i + 1][j] == s[..i][j];
      }
      FirstPeriod(s, i + 1, ok)
  }

  /** `re.match(r"^(.*?)\.\s*([^,]+),\s*(.+)$", s)` with the three groups stripped. */
  function MatchLayout1(s: string): Option<Details> {
    match FirstPeriod(s, 0, TailFound)
    case None => None
    case Some(i) =>
      assert PeriodOk(s, i, TailFound);
      var (color, size) := Tail(s[i + 1..]).value;
      Some(Details(Strip(s[..i]), color, size))
  }

  /** A case-insensitive occurrence of the lower-case `tag` at p. */
  predicate LabelAt(s: string, tag: string, p: int) {
    0 <= p && p + |tag| <= |s| && Lower(s[p..p + |tag|]) == tag
  }

  /** Greedy `\s*` backing off: the largest j in [q, m] where `.` can match. */
  function BackOff(s: string, q: nat, j: nat): (r: Option<nat>)
    requires q <= j
    ensures r.Some? ==> q <= r.value <= j && r.value < |s| && s[r.value] != '\n'
    ensures r.Some? ==> forall k :: r.value < k <= j ==> k >= |s| || s[k] == '\n'
    ensures r.None? ==> forall k :: q <= k <= j ==> k >= |s| || s[k] == '\n'
    decreases j - q
  {
    if j < |s| && s[j] != '\n' then Some(j)
    else if j == q then None
    else BackOff(s, q, j - 1)
  }

  /** The longest newline-free run of `s` starting at j: what greedy `(.+)` takes. */
  function LineFrom(s: string, j: nat): (g: string)
    requires j <= |s|
    ensures NoNewline(g)
  {
    s[j..j + IndexOf(s[j..], '\n')]
  }

  /** `\s*(.+)` at position q: group 1, or None when it cannot match. */
  function Capture(s: string, q: nat): Option<string>
    requires q <= |s|
  {
    var m := q + SpaceRun(s[q..]);
    match BackOff(s, q, m)
    case None => None
    case Some(j) => Some(LineFrom(s, j))
  }

  /** `re.search(tag + r"\s*(.+)", s, re.IGNORECASE)`: the leftmost position
      at or after p where the whole pattern matches. */
  function SearchLabel(s: string, tag: string, p: nat): Option<string>
    decreases |s| + 1 - p
  {
    if p + |tag| > |s| then None
    else if LabelAt(s, tag, p) then
      match Capture(s, p + |tag|)
      case Some(g) => Some(g)
      case None => SearchLabel(s, tag, p + 1)
    else SearchLabel(s, tag, p + 1)
  }

  /** `m.group(1).strip() if m else ""`. */
  function LabelValue(s: string, tag: string): string {
    match SearchLabel(s, tag, 0)
    case Some(g) => Strip(g)
    case None => ""
  }

  /** `s.split("\n")[0]`. */
  function FirstLine(s: string): (l: string)
    ensures NoNewline(l)
    ensures |l| <= |s| && l == s[..|l|]
    ensures |l| < |s| ==> s[|l|] == '\n'
  {
    s[..IndexOf(s, '\n')]
  }

  /** `parse_item_details`. */
  function ParseItemDetails(desc: string): (d: Details)
  {
    if |desc| == 0 then Details("", "", "")
    else match MatchLayout1(desc)
      case Some(d) => d
      case None => Details(Strip(FirstLine(desc)), LabelValue(desc, "color:"), LabelValue(desc, "size:"))
  }

  // ---------------------------------------------------------------------
  // Layout 1: the engine agrees with the pattern's language.
  // ---------------------------------------------------------------------

  /** When the engine finds a tail, the pattern matches there (soundness). */
  lemma TailSound(r: string) returns (c: int, b: int, e: int)
    requires Tail(r).Some?
    ensures TailAt(r, 0, c, b, e)
    ensures Tail(r) == Some((Strip(r[0..c]), Strip(r[b..e])))
  {
    var k, n;
    c, k, n := TailPieces(r);
    b, e := TailAtAfterComma(r, c, k, n);
    TailComplete(r, 0, c, b, e);
  }

  /** Where the engine's comma and size text lie when it finds a tail. */
  lemma TailPieces(r: string) returns (c: nat, k: nat, n: nat)
    requires Tail(r).Some?
    ensures 0 < c < |r| && r[c] == ',' && NoComma(r[..c]) && SizeSplit(r[c + 1..], k, n)
  {
    c := IndexOf(r, ',');
    assert NoComma(r[..c]) by {
      assert forall j :: 0 <= j < c ==> r[..c][j] == r[j];
    }
    k, n := SizeTextSound(r[c + 1..]);
  }

  /** The pieces the engine finds after the first comma form a match. */
  lemma TailAtAfterComma(r: string, c: nat, k: nat, n: nat) returns (b: int, e: int)
    requires 0 < c < |r| && r[c] == ',' && NoComma(r[..c]) && SizeSplit(r[c + 1..], k, n)
    ensures b == c + 1 + k && e == c + 1 + n
    ensures TailAt(r, 0, c, b, e)
  {
    var u := r[c + 1..];
    b, e := c + 1 + k, c + 1 + n;
    assert r[..0] == "" && r[0..c] == r[..c];
    assert AllSpace(r[c + 1..b]) by {
      assert r[c + 1..b] == u[..k];
    }
    assert NoNewline(r[b..e]) by {
      assert r[b..e] == u[k..n];
    }
    assert EndAnchor(r, e) by {
      if n < |u| {
        assert r[e] == u[n];
      }
    }
  }

  /** u splits at k and n into `\s*`, a newline-free group 3 and `$`. */
  predicate SizeSplit(u: string, k: int, n: int) {
    && 0 <= k < n <= |u| && AllSpace(u[..k]) && NoNewline(u[k..n])
    && (n == |u| || (n == |u| - 1 && u[n] == '\n'))
  }

  /** After the comma: the size text (without a final newline) is `\s*`, then
      a newline-free group 3 from k to n, then `$`. */
  lemma SizeTextSound(u: string) returns (k: nat, n: nat)
    requires SizeShaped(DropFinalNewline(u))
    ensures var t := DropFinalNewline(u); n == |t| && k == LastIndexOf(t, '\n') + 1
    ensures SizeSplit(u, k, n)
    ensures Strip(DropFinalNewline(u)) == Strip(u[k..n])
  {
    var t := DropFinalNewline(u);
    k := LastIndexOf(t, '\n') + 1;
    n := |t|;
    assert t == u[..n];
    assert AllSpace(u[..k]) by {
      assert u[..k] == t[..k];
    }
    assert NoNewline(u[k..n]) by {
      assert u[k..n] == t[k..];
      assert forall j :: 0 <= j < n - k ==> t[k..][j] == t[k + j];
    }
    assert Strip(t) == Strip(u[k..n]) by {
      assert u[k..n] == t[k..];
      assert t == t[..k] + t[k..];
      StripSpacePrefix(t[..k], t[k..]);
    }
  }

  /** In a match, the comma of the pattern is the first comma after the period. */
  lemma FirstCommaAt(r: string, a: int, c: int, b: int, e: int)
    requires TailAt(r, a, c, b, e)
    ensures IndexOf(r, ',') == c
  {
    assert forall j :: 0 <= j < a ==> r[..a][j] == r[j];
    assert forall j :: a <= j < c ==> r[a..c][j - a] == r[j];
    IndexOfIs(r, ',', c);
  }

  /** In a match, the text after the comma minus a final newline is exactly
      `\s*` followed by group 3. */
  lemma SizeTextAt(r: string, a: int, c: int, b: int, e: int)
    requires TailAt(r, a, c, b, e)
    ensures DropFinalNewline(r[c + 1..]) == r[c + 1..e]
  {
    if e == |r| {
      assert r[b..e][e - b - 1] == r[|r| - 1];
    }
  }

  /** Group 3 starts after the last newline of the size text. */
  lemma SizeStart(t: string, n: nat)
    requires n < |t| && NoNewline(t[n..]) && AllSpace(t[..n])
    ensures LastIndexOf(t, '\n') + 1 <= n
    ensures AllSpace(t[..LastIndexOf(t, '\n') + 1])
  {
    var last := LastIndexOf(t, '\n');
    forall j | n <= j < |t| ensures t[j] != '\n' {
      assert t[n..][j - n] == t[j];
    }
    assert last < n;
    var pre := t[..last + 1];
    forall j | 0 <= j < |pre| ensures IsSpace(pre[j]) {
      assert pre[j] == t[j] == t[..n][j];
    }
  }

  /** Any way the pattern can match after the period gives the engine's answer:
      the stripped groups do not depend on how `\s*` and the greedy groups
      split the text (completeness and uniqueness). */
  lemma TailComplete(r: string, a: int, c: int, b: int, e: int)
    requires TailAt(r, a, c, b, e)
    ensures Tail(r) == Some((Strip(r[a..c]), Strip(r[b..e])))
  {
    FirstCommaAt(r, a, c, b, e);
    SizeTextAt(r, a, c, b, e);
    GroupTwo(r, a, c);
    assert r[c + 1..e][..b - c - 1] == r[c + 1..b];
    assert r[c + 1..e][b - c - 1..] == r[b..e];
    GroupThree(r[c + 1..e], b - c - 1);
    assert r[c + 1..e][b - c - 1..] == r[b..e];
    TailIs(r, c, r[c + 1..e]);
  }

  /** The engine's verdict once the comma and the size text are known. */
  lemma TailIs(r: string, c: nat, t: string)
    requires 0 < c < |r| && IndexOf(r, ',') == c && DropFinalNewline(r[c + 1..]) == t
    requires SizeShaped(t)
    ensures Tail(r) == Some((Strip(r[..c]), Strip(t)))
  {
  }

  lemma GroupTwo(r: string, a: nat, c: nat)
    requires a <= c <= |r| && AllSpace(r[..a])
    ensures Strip(r[..c]) == Strip(r[a..c])
  {
    assert r[..c] == r[..a] + r[a..c];
    StripSpacePrefix(r[..a], r[a..c]);
  }

  lemma GroupThree(t: string, n: nat)
    requires n < |t| && NoNewline(t[n..]) && AllSpace(t[..n])
    ensures SizeShaped(t)
    ensures Strip(t) == Strip(t[n..])
  {
    SizeStart(t, n);
    assert t == t[..n] + t[n..];
    StripSpacePrefix(t[..n], t[n..]);
  }

  /** The period the engine settles on, if any. */
  function MatchedPeriod(s: string): Option<nat> {
    assert s[..0] == "";
    FirstPeriod(s, 0, TailFound)
  }

  /** Completeness, and laziness of group 1: whenever the pattern can match
      with its period at i, the engine matches, at i or at an earlier period. */
  lemma Layout1Complete(s: string, i: int, a: int, c: int, b: int, e: int)
    requires Layout1At(s, i, a, c, b, e)
    ensures MatchLayout1(s).Some?
    ensures MatchedPeriod(s).Some? && MatchedPeriod(s).value <= i
  {
    TailComplete(s[i + 1..], a, c, b, e);
    assert PeriodWorks(s, i);
  }

  /** Soundness: what the engine matches is a match of the pattern, with a
      newline-free group 1 ending at the chosen period. */
  lemma Layout1Sound(s: string) returns (c: int, b: int, e: int)
    requires MatchLayout1(s).Some?
    ensures MatchedPeriod(s).Some?
    ensures var i := MatchedPeriod(s).value;
      && Layout1At(s, i, 0, c, b, e)
      && MatchLayout1(s) == Some(Details(Strip(s[..i]), Strip(s[i + 1..][0..c]), Strip(s[i + 1..][b..e])))
  {
    c, b, e := TailSound(s[MatchedPeriod(s).value + 1..]);
  }

  /** Uniqueness: every way the pattern matches with the chosen period gives
      the engine's stripped groups. */
  lemma Layout1Groups(s: string, a: int, c: int, b: int, e: int)
    requires MatchedPeriod(s).Some?
    requires Layout1At(s, MatchedPeriod(s).value, a, c, b, e)
    ensures var i := MatchedPeriod(s).value;
      MatchLayout1(s) == Some(Details(Strip(s[..i]), Strip(s[i + 1..][a..c]), Strip(s[i + 1..][b..e])))
  {
    TailComplete(s[MatchedPeriod(s).value + 1..], a, c, b, e);
  }

  /** The engine succeeds exactly when the pattern matches. */
  lemma Layout1Characterised(s: string)
    ensures MatchLayout1(s).Some? <==> Layout1Matches(s)
  {
    if MatchLayout1(s).Some? {
      var c, b, e := Layout1Sound(s);
    }
    if Layout1Matches(s) {
      var i, a, c, b, e :| Layout1At(s, i, a, c, b, e);
      Layout1Complete(s, i, a, c, b, e);
    }
  }

  // ---------------------------------------------------------------------
  // Layout 2: the tag search.
  // ---------------------------------------------------------------------

  /** The tags searched for end in a non-space character (":"). */
  predicate TagShape(tag: string) {
    |tag| > 0 && !IsSpace(tag[|tag| - 1])
  }

  /** The first case-insensitive occurrence of the tag is at p. */
  predicate FirstLabelAt(s: string, tag: string, p: nat) {
    LabelAt(s, tag, p) && forall p' :: 0 <= p' < p ==> !LabelAt(s, tag, p')
  }

  /** What the backtracking search boils down to: the first case-insensitive
      occurrence of the tag decides, and its value is the rest of the line
      that starts after the whitespace following the tag (that whitespace may
      span newlines), stripped... */
  lemma LabelValueAtFirstOccurrence(s: string, tag: string, p: nat, m: nat)
    requires FirstLabelAt(s, tag, p)
    requires m == p + |tag| + SpaceRun(s[p + |tag|..]) && m < |s|
    ensures LabelValue(s, tag) == Strip(LineFrom(s, m))
  {
    var g := CaptureAtNonSpace(s, p + |tag|, m);
    FirstLabelSearch(s, tag, p, g);
    LabelValueOf(s, tag, g);
  }

  /** The value is the stripped capture of the search from the start. */
  lemma LabelValueOf(s: string, tag: string, g: string)
    requires SearchLabel(s, tag, 0) == Some(g)
    ensures LabelValue(s, tag) == Strip(g)
  {
  }

  /** The search from the start of the text ends at the first occurrence
      when that occurrence's capture succeeds. */
  lemma FirstLabelSearch(s: string, tag: string, p: nat, g: string)
    requires FirstLabelAt(s, tag, p) && Capture(s, p + |tag|) == Some(g)
    ensures SearchLabel(s, tag, 0) == Some(g)
  {
    SearchSkips(s, tag, 0, p);
    SearchAtLabel(s, tag, p);
  }

  /** At an occurrence whose capture succeeds, the search stops there. */
  lemma SearchAtLabel(s: string, tag: string, p: nat)
    requires LabelAt(s, tag, p) && Capture(s, p + |tag|).Some?
    ensures SearchLabel(s, tag, p) == Capture(s, p + |tag|)
  {
  }

  /** When a non-space character follows the whitespace after q, `\s*(.+)`
      captures the line from that character on. */
  lemma CaptureAtNonSpace(s: string, q: nat, m: nat) returns (g: string)
    requires q <= |s| && m == q + SpaceRun(s[q..]) && m < |s|
    ensures g == LineFrom(s, m) && Capture(s, q) == Some(g)
  {
    g := LineFrom(s, m);
    assert s[q..][m - q] == s[m];
    assert s[m] != '\n';
    assert BackOff(s, q, m) == Some(m);
  }

  /** ... and when only whitespace follows the first occurrence, the value is "". */
  lemma LabelValueBlankAtFirstOccurrence(s: string, tag: string, p: nat)
    requires TagShape(tag) && FirstLabelAt(s, tag, p)
    requires p + |tag| + SpaceRun(s[p + |tag|..]) == |s|
    ensures LabelValue(s, tag) == ""
  {
    SearchSkips(s, tag, 0, p);
    var q := p + |tag|;
    BlankCapture(s, q);
    if Capture(s, q).None? {
      // This occurrence fails and no later one exists.
      NoLabelInSpace(s, tag, q, p + 1);
    }
  }

  /** Whatever `\s*(.+)` captures inside an all-whitespace suffix is blank. */
  lemma BlankCapture(s: string, q: nat)
    requires q <= |s| && q + SpaceRun(s[q..]) == |s|
    ensures AllSpace(s[q..])
    ensures Capture(s, q).Some? ==> Strip(Capture(s, q).value) == ""
  {
    assert s[q..] == s[q..][..SpaceRun(s[q..])];
    match BackOff(s, q, |s|)
    case Some(j) => {
      var g := LineFrom(s, j);
      assert forall k :: 0 <= k < |g| ==> g[k] == s[q..][j + k - q];
      StripOfAllSpace(g);
    }
    case None => {}
  }

  /** The search passes over positions holding no occurrence. */
  lemma {:induction false} SearchSkips(s: string, tag: string, from: nat, p: nat)
    requires from <= p && p + |tag| <= |s|
    requires forall p' :: from <= p' < p ==> !LabelAt(s, tag, p')
    ensures SearchLabel(s, tag, from) == SearchLabel(s, tag, p)
    decreases p - from
  {
    if from < p {
      SearchSkips(s, tag, from + 1, p);
    }
  }

  /** No occurrence of a tag ending in a non-space character reaches into an
      all-whitespace suffix, so the search finds nothing there. */
  lemma {:induction false} NoLabelInSpace(s: string, tag: string, q: nat, p: nat)
    requires TagShape(tag)
    requires q <= |s| && AllSpace(s[q..]) && q < p + |tag|
    ensures SearchLabel(s, tag, p) == None
    decreases |s| + 1 - p
  {
    if p + |tag| <= |s| {
      var z := p + |tag| - 1;
      assert s[z] == s[q..][z - q];
      assert Lower(s[p..p + |tag|])[|tag| - 1] == LowerChar(s[z]);
      NoLabelInSpace(s, tag, q, p + 1);
    }
  }

  /** A tag that occurs nowhere yields "". */
  lemma MissingLabelIsEmpty(s: string, tag: string)
    requires forall p :: 0 <= p ==> !LabelAt(s, tag, p)
    ensures LabelValue(s, tag) == ""
  {
    NoOccurrenceNoMatch(s, tag, 0);
  }

  lemma {:induction false} NoOccurrenceNoMatch(s: string, tag: string, p: nat)
    requires forall p' :: p <= p' ==> !LabelAt(s, tag, p')
    ensures SearchLabel(s, tag, p) == None
    decreases |s| + 1 - p
  {
    if p + |tag| <= |s| {
      NoOccurrenceNoMatch(s, tag, p + 1);
    }
  }

  /** The line starting at m ends at n. */
  lemma LineFromIs(s: string, m: nat, n: nat)
    requires m <= n <= |s| && NoNewline(s[m..n]) && (n == |s| || s[n] == '\n')
    ensures LineFrom(s, m) == s[m..n]
  {
    assert forall j :: 0 <= j < n - m ==> s[m..][j] == s[m..n][j];
    IndexOfIs(s[m..], '\n', n - m);
  }

  /** The labelled layout on any line: if the first case-insensitive occurrence
      of the tag (at p) is followed by whitespace and then, from m, a value
      running to the end of its line at n, the value is s[m..n], stripped. */
  lemma LabelOnAnyLine(s: string, tag: string, p: nat, m: nat, n: nat)
    requires FirstLabelAt(s, tag, p)
    requires p + |tag| <= m < n <= |s| && AllSpace(s[p + |tag|..m]) && !IsSpace(s[m])
    requires NoNewline(s[m..n]) && (n == |s| || s[n] == '\n')
    ensures LabelValue(s, tag) == Strip(s[m..n])
  {
    var q := p + |tag|;
    assert s[q..][..m - q] == s[q..m];
    assert s[q..][m - q] == s[m];
    SpaceRunIs(s[q..], m - q);
    LabelValueAtFirstOccurrence(s, tag, p, m);
    LineFromIs(s, m, n);
  }

  // ---------------------------------------------------------------------
  // Properties of the whole parser.
  // ---------------------------------------------------------------------

  /** The results are always stripped; the base description and the size never
      contain a newline (the colour can, in layout 1, because `[^,]` matches
      newlines). */
  lemma ParseItemDetailsShape(desc: string)
    ensures var d := ParseItemDetails(desc);
      Trimmed(d.base) && Trimmed(d.color) && Trimmed(d.size) && NoNewline(d.base) && NoNewline(d.size)
    ensures desc == "" ==> ParseItemDetails(desc) == Details("", "", "")
  {
    if |desc| > 0 {
      match MatchLayout1(desc)
      case Some(d) => {
        Layout1Shape(desc);
      }
      case None => {
        StripNoNewline(FirstLine(desc));
        StripTrimmed(FirstLine(desc));
        LabelValueShape(desc, "color:");
        LabelValueShape(desc, "size:");
      }
    }
  }

  lemma Layout1Shape(s: string)
    requires MatchLayout1(s).Some?
    ensures var d := MatchLayout1(s).value;
      Trimmed(d.base) && Trimmed(d.color) && Trimmed(d.size) && NoNewline(d.base) && NoNewline(d.size)
  {
    var c, b, e := Layout1Sound(s);
    var i := MatchedPeriod(s).value;
    var r := s[i + 1..];
    StripNoNewline(s[..i]);
    StripNoNewline(r[b..e]);
    StripTrimmed(s[..i]);
    StripTrimmed(r[0..c]);
    StripTrimmed(r[b..e]);
  }

  lemma LabelValueShape(s: string, tag: string)
    ensures Trimmed(LabelValue(s, tag)) && NoNewline(LabelValue(s, tag))
  {
    match SearchLabel(s, tag, 0)
    case Some(g) => {
      SearchFindsLine(s, tag, 0);
      StripTrimmed(g);
      StripNoNewline(g);
    }
    case None => {}
  }

  lemma {:induction false} SearchFindsLine(s: string, tag: string, p: nat)
    ensures SearchLabel(s, tag, p).Some? ==> NoNewline(SearchLabel(s, tag, p).value)
    decreases |s| + 1 - p
  {
    if p + |tag| <= |s| {
      SearchFindsLine(s, tag, p + 1);
    }
  }

  /** "Name. Colour, Size" on one line, with a period-free name and trimmed
      parts, splits into exactly those parts. */
  lemma SimpleLayout1(a: string, x: string, y: string)
    requires NoNewline(a) && Trimmed(a) && (forall j :: 0 <= j < |a| ==> a[j] != '.')
    requires |x| > 0 && Trimmed(x) && NoComma(x)
    requires |y| > 0 && Trimmed(y) && NoNewline(y)
    ensures ParseItemDetails(a + ". " + x + ", " + y) == Details(a, x, y)
  {
    var s := a + ". " + x + ", " + y;
    var r := " " + x + ", " + y;
    assert s == a + "." + r;
    SimpleLayout1Match(a, x, y);
  }

  lemma SimpleLayout1Match(a: string, x: string, y: string)
    requires NoNewline(a) && Trimmed(a) && (forall j :: 0 <= j < |a| ==> a[j] != '.')
    requires |x| > 0 && Trimmed(x) && NoComma(x)
    requires |y| > 0 && Trimmed(y) && NoNewline(y)
    ensures MatchLayout1(a + "." + (" " + x + ", " + y)) == Some(Details(a, x, y))
  {
    var r := " " + x + ", " + y;
    SimpleTail(x, y);
    Layout1AfterName(a, r, 1, 1 + |x|, 3 + |x|, |r|);
    StripOfTrimmed(a);
    StripOfTrimmed(x);
    StripOfTrimmed(y);
  }

  /** With a period-free, newline-free name, the period right after it is the
      one the engine settles on, whenever the rest matches. */
  lemma Layout1AfterName(a: string, r: string, a': int, c: int, b: int, e: int)
    requires NoNewline(a) && (forall j :: 0 <= j < |a| ==> a[j] != '.')
    requires TailAt(r, a', c, b, e)
    ensures MatchLayout1(a + "." + r) == Some(Details(Strip(a), Strip(r[a'..c]), Strip(r[b..e])))
  {
    PeriodAfterName(a, r);
    Layout1Groups(a + "." + r, a', c, b, e);
  }

  lemma SimpleTail(x: string, y: string)
    requires |x| > 0 && NoComma(x)
    requires |y| > 0 && NoNewline(y)
    ensures var r := " " + x + ", " + y;
      TailAt(r, 1, 1 + |x|, 3 + |x|, |r|) && r[1..1 + |x|] == x && r[3 + |x|..|r|] == y
  {
    var r := " " + x + ", " + y;
    var c := 1 + |x|;
    assert r[..1] == " " && r[1..c] == x && r[c] == ',' && r[c + 1..c + 2] == " ";
    assert r[c + 2..] == y;
  }

  /** With a period-free, newline-free name, the period right after it is the
      one the engine settles on, provided the rest matches. */
  lemma PeriodAfterName(a: string, r: string)
    requires NoNewline(a) && (forall j :: 0 <= j < |a| ==> a[j] != '.')
    requires exists a', c, b, e :: TailAt(r, a', c, b, e)
    ensures MatchedPeriod(a + "." + r) == Some(|a|)
    ensures (a + "." + r)[..|a|] == a && (a + "." + r)[|a| + 1..] == r
  {
    var s := a + "." + r;
    assert s[..|a|] == a && s[|a|] == '.' && s[|a| + 1..] == r;
    var a', c, b, e :| TailAt(r, a', c, b, e);
    Layout1Complete(s, |a|, a', c, b, e);
  }

  /** "Men's Slim Jeans. Blue, 32" splits into its three parts. */
  lemma OneLineExample()
    ensures ParseItemDetails("Men's Slim Jeans. Blue, 32") == Details("Men's Slim Jeans", "Blue", "32")
  {
    assert "Men's Slim Jeans. Blue, 32" == "Men's Slim Jeans" + ". " + "Blue" + ", " + "32";
    assert forall j :: 0 <= j < 16 ==> "Men's Slim Jeans"[j] != '.' && "Men's Slim Jeans"[j] != '\n';
    SimpleLayout1("Men's Slim Jeans", "Blue", "32");
  }

  /** A first line without a period rules layout 1 out. */
  lemma NoLayout1BeforeNewline(a: string, b: string)
    requires NoNewline(a) && (forall j :: 0 <= j < |a| ==> a[j] != '.')
    ensures MatchLayout1(a + "\n" + b) == None
  {
    var s := a + "\n" + b;
    assert s[|a|] == '\n';
  }

  lemma FirstLineOf(a: string, b: string)
    requires NoNewline(a)
    ensures FirstLine(a + "\n" + b) == a
  {
    var s := a + "\n" + b;
    assert forall j :: 0 <= j < |a| ==> s[j] == a[j];
    IndexOfIs(s, '\n', |a|);
  }

  /** No occurrence of the tag starts before p when the tag's character at
      offset i, lower-cased, appears nowhere it would have to. */
  lemma NoLabelBefore(s: string, tag: string, p: nat, i: nat)
    requires i < |tag|
    requires forall j :: i <= j < p + i && j < |s| ==> LowerChar(s[j]) != tag[i]
    ensures forall p' :: 0 <= p' < p ==> !LabelAt(s, tag, p')
  {
    forall p' | 0 <= p' < p
      ensures !LabelAt(s, tag, p')
    {
      if p' + |tag| <= |s| {
        assert Lower(s[p'..p' + |tag|])[i] == LowerChar(s[p' + i]);
      }
    }
  }

  /** The labelled layout: "Product Name\nColor: xyz\nSize: abc". */
  lemma MultiLineExample()
    ensures ParseItemDetails("Product Name\nColor: xyz\nSize: abc") == Details("Product Name", "xyz", "abc")
  {
    MultiLineFirstLine();
    MultiLineColor();
    MultiLineSize();
  }

  lemma MultiLineFirstLine()
    ensures MatchLayout1("Product Name\nColor: xyz\nSize: abc") == None
    ensures Strip(FirstLine("Product Name\nColor: xyz\nSize: abc")) == "Product Name"
  {
    var s := "Product Name\nColor: xyz\nSize: abc";
    var b := "Color: xyz\nSize: abc";
    assert s == "Product Name" + "\n" + b;
    ProductNameFacts();
    NoLayout1BeforeNewline("Product Name", b);
    FirstLineOf("Product Name", b);
  }

  lemma ProductNameFacts()
    ensures NoNewline("Product Name") && forall j :: 0 <= j < 12 ==> "Product Name"[j] != '.'
    ensures Strip("Product Name") == "Product Name"
  {
    assert Trimmed("Product Name");
    StripOfTrimmed("Product Name");
  }

  lemma MultiLineColor()
    ensures LabelValue("Product Name\nColor: xyz\nSize: abc", "color:") == "xyz"
  {
    var s := "Product Name\nColor: xyz\nSize: abc";
    MultiLineColorFacts();
    LabelOnAnyLine(s, "color:", 13, 20, 23);
  }

  lemma MultiLineColorFacts()
    ensures var s := "Product Name\nColor: xyz\nSize: abc";
      && FirstLabelAt(s, "color:", 13) && |s| == 33
      && AllSpace(s[19..20]) && !IsSpace(s[20]) && NoNewline(s[20..23]) && s[23] == '\n'
      && Strip(s[20..23]) == "xyz"
  {
    var s := "Product Name\nColor: xyz\nSize: abc";
    assert s[13..19] == "Color:" && s[19..20] == " " && s[20..23] == "xyz";
    assert forall j :: 5 <= j < 18 ==> s[j] != ':';
    NoLabelBefore(s, "color:", 13, 5);
    assert Trimmed("xyz");
    StripOfTrimmed("xyz");
  }

  lemma MultiLineSize()
    ensures LabelValue("Product Name\nColor: xyz\nSize: abc", "size:") == "abc"
  {
    var s := "Product Name\nColor: xyz\nSize: abc";
    MultiLineSizeFacts();
    LabelOnAnyLine(s, "size:", 24, 30, 33);
  }

  lemma MultiLineSizeFacts()
    ensures var s := "Product Name\nColor: xyz\nSize: abc";
      && FirstLabelAt(s, "size:", 24) && |s| == 33
      && AllSpace(s[29..30]) && !IsSpace(s[30]) && NoNewline(s[30..33])
      && Strip(s[30..33]) == "abc"
  {
    var s := "Product Name\nColor: xyz\nSize: abc";
    assert s[24..29] == "Size:" && s[29..30] == " " && s[30..33] == "abc";
    assert forall j :: 0 <= j < 24 ==> s[j] != 's' && s[j] != 'S';
    NoLabelBefore(s, "size:", 24, 0);
    assert Trimmed("abc");
    StripOfTrimmed("abc");
  }
}

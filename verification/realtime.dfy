/**
 The derivation of the realtime WebSocket endpoint from the store's project
 URL: `wss://` followed by the text between the first and the second `//`
 of the URL, followed by `/realtime/v1`.
 */
module Realtime {

  /** A `//` starts at index `j` of `s`. */
  predicate SlashesAt(s: string, j: int) {
    0 <= j && j + 1 < |s| && s[j] == '/' && s[j + 1] == '/'
  }

  /** The index of the first `//` at or after `from`, or |s| when there is
      none. */
  function NextSlashes(s: string, from: nat): (k: nat)
    requires from <= |s|
    ensures from <= k <= |s|
    ensures k < |s| ==> SlashesAt(s, k)
    ensures forall j :: from <= j < k ==> !SlashesAt(s, j)
    ensures k == |s| ==> forall j :: from <= j ==> !SlashesAt(s, j)
    decreases |s| - from
  {
    if from + 1 >= |s| then |s|
    else if SlashesAt(s, from) then from
    else NextSlashes(s, from + 1)
  }

  /** `NextSlashes` is determined by its contract. */
  lemma NextSlashesIs(s: string, from: nat, k: nat)
    requires from <= k <= |s| && (k < |s| ==> SlashesAt(s, k))
    requires forall j :: from <= j < k ==> !SlashesAt(s, j)
    ensures NextSlashes(s, from) == k
  {
  }

  /** Searching a suffix is searching the whole text from where the suffix
      starts. */
  lemma {:induction false} NextSlashesShift(s: string, d: nat, i: nat)
    requires d + i <= |s|
    ensures NextSlashes(s[d..], i) == NextSlashes(s, d + i) - d
    decreases |s| - d - i
  {
    var t := s[d..];
    assert SlashesAt(t, i) <==> SlashesAt(s, d + i) by {
      if i + 1 < |t| {
        assert t[i] == s[d + i] && t[i + 1] == s[d + i + 1];
      }
    }
    if i + 1 < |t| && !SlashesAt(t, i) {
      NextSlashesShift(s, d, i + 1);
    }
  }

  /** Python's `s.split("//")`: the pieces between the non-overlapping
      occurrences of `//`, found left to right. */
  function SplitSlashes(s: string): (parts: seq<string>)
    ensures |parts| >= 1
    ensures parts[0] == s[..NextSlashes(s, 0)]
    ensures |parts| == 1 <==> NextSlashes(s, 0) == |s|
    decreases |s|
  {
    var k := NextSlashes(s, 0);
    if k == |s| then [s] else [s[..k]] + SplitSlashes(s[k + 2..])
  }

  /** `"//".join(parts)`. */
  function JoinSlashes(parts: seq<string>): string
    requires |parts| >= 1
  {
    if |parts| == 1 then parts[0] else parts[0] + "//" + JoinSlashes(parts[1..])
  }

  /** Splitting loses nothing: joining the pieces gives the text back. */
  lemma {:induction false} JoinSplit(s: string)
    ensures JoinSlashes(SplitSlashes(s)) == s
    decreases |s|
  {
    var k := NextSlashes(s, 0);
    if k < |s| {
      var rest := s[k + 2..];
      JoinSplit(rest);
      var parts := SplitSlashes(s);
      assert parts[1..] == SplitSlashes(rest);
      assert s[k..k + 2] == "//";
      assert s == s[..k] + s[k..k + 2] + rest;
    }
  }

  /** No piece contains `//`. */
  lemma {:induction false} SplitPiecesFree(s: string)
    ensures forall i, j :: 0 <= i < |SplitSlashes(s)| ==> !SlashesAt(SplitSlashes(s)[i], j)
    decreases |s|
  {
    var k := NextSlashes(s, 0);
    var parts := SplitSlashes(s);
    forall j ensures !SlashesAt(parts[0], j) {
      if 0 <= j && j + 1 < |parts[0]| {
        assert parts[0][j] == s[j] && parts[0][j + 1] == s[j + 1];
        assert !SlashesAt(s, j);
      }
    }
    if k < |s| {
      SplitPiecesFree(s[k + 2..]);
      assert forall i :: 1 <= i < |parts| ==> parts[i] == SplitSlashes(s[k + 2..])[i - 1];
    }
  }

  /** `get_realtime_url`; a URL without `//` makes the source raise, so it
      is excluded. */
  function RealtimeUrl(url: string): (r: string)
    requires exists j :: SlashesAt(url, j)
    ensures var k := NextSlashes(url, 0);
      k + 2 <= |url| && r == "wss://" + url[k + 2..NextSlashes(url, k + 2)] + "/realtime/v1"
  {
    var k := NextSlashes(url, 0);
    var parts := SplitSlashes(url);
    NextSlashesShift(url, k + 2, 0);
    "wss://" + parts[1] + "/realtime/v1"
  }

  /** With one `//`, after a scheme part with no `//` of its own, the host
      is everything after it. */
  lemma OneSeparator(a: string, b: string)
    requires forall j :: !SlashesAt(a + "/", j)
    requires forall j :: 0 <= j < |b| ==> b[j] != '/'
    ensures SlashesAt(a + "//" + b, |a|)
    ensures RealtimeUrl(a + "//" + b) == "wss://" + b + "/realtime/v1"
  {
    var u := a + "//" + b;
    var k := |a|;
    assert u[k] == '/' && u[k + 1] == '/';
    forall j | 0 <= j < k ensures !SlashesAt(u, j) {
      assert u[j] == (a + "/")[j] && u[j + 1] == (a + "/")[j + 1];
      assert !SlashesAt(a + "/", j);
    }
    NextSlashesIs(u, 0, k);
    forall j | k + 2 <= j < |u| ensures !SlashesAt(u, j) {
      assert u[j] == b[j - k - 2];
    }
    NextSlashesIs(u, k + 2, |u|);
    assert u[k + 2..|u|] == b;
  }

  lemma ExampleFacts()
    ensures "https://abc.supabase.co" == "https:" + "//" + "abc.supabase.co"
    ensures forall j :: !SlashesAt("https:" + "/", j)
    ensures forall j :: 0 <= j < |"abc.supabase.co"| ==> "abc.supabase.co"[j] != '/'
    ensures "wss://" + "abc.supabase.co" + "/realtime/v1" == "wss://abc.supabase.co/realtime/v1"
  {
    forall j ensures !SlashesAt("https:" + "/", j) {
      if 0 <= j && j + 1 < 7 {
        assert ("https:" + "/")[j] == "https:/"[j];
      }
    }
  }

  /** The scheme is replaced and the host kept. */
  lemma SupabaseExample()
    ensures SlashesAt("https://abc.supabase.co", 6)
    ensures RealtimeUrl("https://abc.supabase.co") == "wss://abc.supabase.co/realtime/v1"
  {
    ExampleFacts();
    OneSeparator("https:", "abc.supabase.co");
  }

  /** Whatever follows a second `//` is dropped. */
  lemma SecondSeparatorDrops(a: string, b: string, c: string)
    requires forall j :: !SlashesAt(a + "/", j)
    requires forall j :: !SlashesAt(b + "/", j)
    ensures SlashesAt(a + "//" + b + "//" + c, |a|)
    ensures RealtimeUrl(a + "//" + b + "//" + c) == "wss://" + b + "/realtime/v1"
  {
    var u := a + "//" + b + "//" + c;
    var k := |a|;
    var m := |a| + 2 + |b|;
    assert u[k] == '/' && u[k + 1] == '/' && u[m] == '/' && u[m + 1] == '/';
    forall j | 0 <= j < k ensures !SlashesAt(u, j) {
      assert u[j] == (a + "/")[j] && u[j + 1] == (a + "/")[j + 1];
      assert !SlashesAt(a + "/", j);
    }
    NextSlashesIs(u, 0, k);
    forall j | k + 2 <= j < m ensures !SlashesAt(u, j) {
      assert u[j] == (b + "/")[j - k - 2] && u[j + 1] == (b + "/")[j - k - 1];
      assert !SlashesAt(b + "/", j - k - 2);
    }
    NextSlashesIs(u, k + 2, m);
    assert u[k + 2..m] == b;
  }
}

/**
 The deterministic parts of the language-model client: the clean-up of the
 reply text before JSON decoding, the None-on-failure contract of the query,
 and the two guards that decide which semantic-match answers are accepted.
 The chat request and the JSON decoder themselves are parameters.
 */
module Extractor {
  import opened Text
  import opened Values

  predicate IsCloser(c: char) {
    c == '}' || c == ']'
  }

  /** `s` starts with whitespace and then a closing bracket: what `\s*([}\]])`
      needs after a comma. */
  predicate Closes(s: string) {
    SpaceRun(s) < |s| && IsCloser(s[SpaceRun(s)])
  }

  /** `re.sub(r',\s*([}\]])', r'\1', s)`: scanning left to right, a comma
      followed by whitespace and a closing bracket is replaced, together with
      that whitespace, by the bracket, and the scan resumes after the bracket. */
  function StripTrailingCommas(s: string): (r: string)
    ensures |r| <= |s|
    decreases |s|
  {
    if |s| == 0 then ""
    else if s[0] == ',' && Closes(s[1..]) then
      var n := SpaceRun(s[1..]);
      [s[1 + n]] + StripTrailingCommas(s[2 + n..])
    else [s[0]] + StripTrailingCommas(s[1..])
  }

  /** The number of occurrences of `c` in `s`. */
  function Count(s: string, c: char): (n: nat)
    ensures n <= |s|
    decreases |s|
  {
    if |s| == 0 then 0 else (if s[0] == c then 1 else 0) + Count(s[1..], c)
  }

  /** The number of commas in `s` that are NOT followed by whitespace and a
      closing bracket. */
  function KeptCommas(s: string): (n: nat)
    ensures n <= Count(s, ',')
    decreases |s|
  {
    if |s| == 0 then 0 else (if s[0] == ',' && !Closes(s[1..]) then 1 else 0) + KeptCommas(s[1..])
  }

  /** No comma of `s` is followed by whitespace and a closing bracket. */
  predicate NoTrailingComma(s: string) {
    forall i :: 0 <= i < |s| && s[i] == ',' ==> !Closes(s[i + 1..])
  }

  /** Every character of `s[a..b]` is whitespace. */
  predicate SpaceBetween(s: string, a: nat, b: nat)
    requires a <= b <= |s|
  {
    forall k :: a <= k < b ==> IsSpace(s[k])
  }

  /** A match of `,\s*([}\]])` starts at position `j`. */
  predicate MatchAt(s: string, j: nat)
    requires j < |s|
  {
    s[j] == ',' && Closes(s[j + 1..])
  }

  /** Position `i` lies in a match of `,\s*([}\]])` and is not its bracket:
      it is a comma followed by whitespace and a closing bracket, or it is
      whitespace between such a comma and its bracket. */
  ghost predicate Deleted(s: string, i: nat)
    requires i < |s|
  {
    exists j :: 0 <= j <= i && MatchAt(s, j) && SpaceBetween(s, j + 1, i + 1)
  }

  /** The characters of `s` from position `lo` on that are not deleted, in order. */
  ghost function Survivors(s: string, lo: nat): string
    requires lo <= |s|
    decreases |s| - lo
  {
    if lo == |s| then "" else (if Deleted(s, lo) then "" else [s[lo]]) + Survivors(s, lo + 1)
  }

  /** No match that starts before `lo` reaches `lo`. */
  ghost predicate Fresh(s: string, lo: nat)
    requires lo <= |s|
  {
    forall j :: 0 <= j < lo && MatchAt(s, j) ==> !SpaceBetween(s, j + 1, lo)
  }

  /** A stretch of deleted positions contributes nothing. */
  lemma {:induction false} SkipDeleted(s: string, lo: nat, k: nat)
    requires lo <= k <= |s| && forall x :: lo <= x < k ==> Deleted(s, x)
    ensures Survivors(s, lo) == Survivors(s, k)
    decreases k - lo
  {
    if lo < k {
      assert Deleted(s, lo);
      SkipDeleted(s, lo + 1, k);
    }
  }

  /** The run of a match starting at `lo`: whitespace from `lo + 1` up to
      its closing bracket at `c`. */
  lemma MatchRun(s: string, lo: nat) returns (c: nat)
    requires lo < |s| && MatchAt(s, lo)
    ensures c == lo + 1 + SpaceRun(s[lo + 1..]) && c < |s|
    ensures IsCloser(s[c]) && SpaceBetween(s, lo + 1, c)
  {
    var n := SpaceRun(s[lo + 1..]);
    c := lo + 1 + n;
    forall k | lo + 1 <= k < c ensures IsSpace(s[k]) {
      assert s[k] == s[lo + 1..][..n][k - lo - 1];
    }
    assert s[c] == s[lo + 1..][n];
  }

  /** On a match at `lo` with bracket at `c` the scan emits the bracket and
      resumes after it; elsewhere it emits the character and moves on. */
  lemma CleanupUnfolds(s: string, lo: nat, c: nat)
    requires lo < |s|
    requires MatchAt(s, lo) ==> c == lo + 1 + SpaceRun(s[lo + 1..]) && c < |s|
    ensures MatchAt(s, lo) ==> StripTrailingCommas(s[lo..]) == [s[c]] + StripTrailingCommas(s[c + 1..])
    ensures !MatchAt(s, lo) ==> StripTrailingCommas(s[lo..]) == [s[lo]] + StripTrailingCommas(s[lo + 1..])
  {
    var t := s[lo..];
    assert t[0] == s[lo] && t[1..] == s[lo + 1..];
    if MatchAt(s, lo) {
      assert t[2 + SpaceRun(t[1..])..] == s[c + 1..];
      assert t[1 + SpaceRun(t[1..])] == s[c];
    }
  }

  /** A match deletes its comma and its whitespace and keeps its bracket,
      after which no match is open. */
  lemma MatchStep(s: string, lo: nat, c: nat)
    requires lo < c < |s| && Fresh(s, lo) && MatchAt(s, lo)
    requires IsCloser(s[c]) && SpaceBetween(s, lo + 1, c)
    ensures forall x :: lo <= x < c ==> Deleted(s, x)
    ensures !Deleted(s, c) && Fresh(s, c + 1)
  {
    forall x | lo <= x < c ensures Deleted(s, x) {
      assert 0 <= lo <= x && MatchAt(s, lo) && SpaceBetween(s, lo + 1, x + 1);
    }
    forall j | 0 <= j <= c && MatchAt(s, j) ensures !SpaceBetween(s, j + 1, c + 1) {
      if j < lo {
        var k :| j + 1 <= k < lo && !IsSpace(s[k]);
      }
    }
  }

  /** A position where no match starts, outside every match, is kept. */
  lemma PlainStep(s: string, lo: nat)
    requires lo < |s| && Fresh(s, lo) && !MatchAt(s, lo)
    ensures !Deleted(s, lo) && Fresh(s, lo + 1)
  {
    forall j | 0 <= j <= lo && MatchAt(s, j) ensures !SpaceBetween(s, j + 1, lo + 1) {
      if j < lo {
        var k :| j + 1 <= k < lo && !IsSpace(s[k]);
      }
    }
  }

  /** The clean-up of a suffix that starts outside every match keeps exactly
      the characters that are not deleted. */
  lemma {:induction false} CleanupKeepsSurvivors(s: string, lo: nat)
    requires lo <= |s| && Fresh(s, lo)
    ensures StripTrailingCommas(s[lo..]) == Survivors(s, lo)
    decreases |s| - lo
  {
    if lo < |s| {
      if MatchAt(s, lo) {
        var c := MatchRun(s, lo);
        MatchStep(s, lo, c);
        calc {
          Survivors(s, lo);
        == { SkipDeleted(s, lo, c); }
          Survivors(s, c);
        == { CleanupKeepsSurvivors(s, c + 1); }
          [s[c]] + StripTrailingCommas(s[c + 1..]);
        == { CleanupUnfolds(s, lo, c); }
          StripTrailingCommas(s[lo..]);
        }
      } else {
        PlainStep(s, lo);
        CleanupKeepsSurvivors(s, lo + 1);
        CleanupUnfolds(s, lo, lo);
      }
    }
  }

  /** The clean-up deletes exactly the commas followed by whitespace and a
      closing bracket, together with that whitespace, and changes nothing
      else. */
  lemma CleanupErases(s: string)
    ensures StripTrailingCommas(s) == Survivors(s, 0)
  {
    assert s[0..] == s;
    CleanupKeepsSurvivors(s, 0);
  }

  /** A comma, a whitespace run and a closing bracket leave only the bracket. */
  lemma CommaRunBracket(ws: string, b: char, rest: string)
    requires AllSpace(ws) && IsCloser(b)
    ensures StripTrailingCommas([','] + ws + [b] + rest) == [b] + StripTrailingCommas(rest)
  {
    var s := [','] + ws + [b] + rest;
    var u := s[1..];
    assert u == ws + [b] + rest && u[..|ws|] == ws && u[|ws|] == b;
    SpaceRunIs(u, |ws|);
    assert s[2 + |ws|..] == rest;
  }

  /** A character other than a comma is kept as it is. */
  lemma KeepsNonComma(c: char, rest: string)
    requires c != ','
    ensures StripTrailingCommas([c] + rest) == [c] + StripTrailingCommas(rest)
  {
    assert ([c] + rest)[1..] == rest;
  }

  /** Whitespace after a comma goes with it: with `b` either closing
      bracket, ",b, b" becomes "bb". */
  lemma RunAfterCommaErased(b: char)
    requires IsCloser(b)
    ensures StripTrailingCommas([',', b, ',', ' ', b]) == [b, b]
  {
    var tail := [',', ' ', b];
    CommaRunBracket("", b, tail);
    CommaRunBracket(" ", b, "");
    assert [','] + "" + [b] + tail == [',', b, ',', ' ', b];
    assert [','] + " " + [b] + "" == tail;
  }

  /** Whitespace after a bracket stays: ",b b" becomes "b b". */
  lemma SpaceAfterBracketKept(b: char)
    requires IsCloser(b)
    ensures StripTrailingCommas([',', b, ' ', b]) == [b, ' ', b]
  {
    var kept := [' ', b];
    CommaRunBracket("", b, kept);
    KeepsNonComma(' ', [b]);
    KeepsNonComma(b, []);
    assert [','] + "" + [b] + kept == [',', b, ' ', b];
    assert [' '] + [b] == kept && [b] + [] == [b];
  }

  lemma {:induction false} KeptCommasOverSpace(s: string, n: nat)
    requires n <= |s| && AllSpace(s[..n])
    ensures KeptCommas(s) == KeptCommas(s[n..])
    decreases n
  {
    if n > 0 {
      assert IsSpace(s[..n][0]);
      assert s[0..n] == s[..n] && s[1..][..n - 1] == s[1..n];
      AllSpaceSub(s, 0, n, 1, n);
      KeptCommasOverSpace(s[1..], n - 1);
      assert s[1..][n - 1..] == s[n..];
    }
  }

  lemma CountCons(c: char, s: string, x: char)
    ensures Count([c] + s, x) == (if c == x then 1 else 0) + Count(s, x)
  {
    assert ([c] + s)[1..] == s;
  }

  /** Exactly the commas followed by whitespace and a closing bracket are
      removed: the commas left are the others. */
  lemma {:induction false} CleanupKeepsOtherCommas(s: string)
    ensures Count(StripTrailingCommas(s), ',') == KeptCommas(s)
    decreases |s|
  {
    if |s| > 0 {
      if s[0] == ',' && Closes(s[1..]) {
        var n := SpaceRun(s[1..]);
        CleanupKeepsOtherCommas(s[2 + n..]);
        CountCons(s[1 + n], StripTrailingCommas(s[2 + n..]), ',');
        KeptCommasOverSpace(s[1..], n);
        assert s[1..][n..][1..] == s[2 + n..];
      } else {
        CleanupKeepsOtherCommas(s[1..]);
        CountCons(s[0], StripTrailingCommas(s[1..]), ',');
      }
    }
  }

  /** Text without a trailing comma passes through unchanged. */
  lemma {:induction false} CleanupIdentity(s: string)
    requires NoTrailingComma(s)
    ensures StripTrailingCommas(s) == s
    decreases |s|
  {
    if |s| > 0 {
      assert s[0] == ',' ==> !Closes(s[1..]);
      assert forall i :: 0 <= i < |s| - 1 ==> s[1..][i] == s[i + 1] && s[1..][i + 1..] == s[i + 2..];
      CleanupIdentity(s[1..]);
      assert s == [s[0]] + s[1..];
    }
  }

  /** The last character is never removed, and the first is kept or replaced
      by a closing bracket. */
  lemma {:induction false} CleanupKeepsEnds(s: string)
    requires |s| > 0
    ensures var r := StripTrailingCommas(s);
      |r| > 0 && r[|r| - 1] == s[|s| - 1] && (r[0] == s[0] || IsCloser(r[0]))
    decreases |s|
  {
    if s[0] == ',' && Closes(s[1..]) {
      var n := SpaceRun(s[1..]);
      if 2 + n < |s| {
        CleanupKeepsEnds(s[2 + n..]);
      }
    } else if |s| > 1 {
      CleanupKeepsEnds(s[1..]);
    }
  }

  /** Clean-up keeps a stripped reply stripped. */
  lemma CleanupKeepsTrimmed(s: string)
    requires Trimmed(s)
    ensures Trimmed(StripTrailingCommas(s))
  {
    if |s| > 0 {
      CleanupKeepsEnds(s);
    }
  }

  /** Text before the first comma passes through unchanged. */
  lemma {:induction false} CleanupCommaFreePrefix(a: string, t: string)
    requires NoComma(a)
    ensures StripTrailingCommas(a + t) == a + StripTrailingCommas(t)
    decreases |a|
  {
    if |a| > 0 {
      assert (a + t)[0] == a[0];
      assert (a + t)[1..] == a[1..] + t;
      CleanupCommaFreePrefix(a[1..], t);
      assert a == [a[0]] + a[1..];
    } else {
      assert a + t == t;
    }
  }

  /** The trailing comma of an object is removed. */
  lemma ObjectExample()
    ensures StripTrailingCommas("{\"a\": 1,}") == "{\"a\": 1}"
  {
    assert "{\"a\": 1,}" == "{\"a\": 1" + ",}";
    assert NoComma("{\"a\": 1");
    CleanupCommaFreePrefix("{\"a\": 1", ",}");
    assert SpaceRun("}") == 0;
    assert StripTrailingCommas(",}") == "}";
    assert "{\"a\": 1" + "}" == "{\"a\": 1}";
  }

  /** One pass only: a comma uncovered by a removal stays. */
  lemma SinglePassExample()
    ensures StripTrailingCommas(",,]") == ",]"
  {
    assert Closes("]") && !Closes(",]");
  }

  // ---------------------------------------------------------------------
  // `query_openai` and the match guards.
  // ---------------------------------------------------------------------

  /** The JSON decoder (`json.loads`): None on a decoding error. */
  type Decoder = string -> Option<Json>

  /** The chat request for the matching prompt built from a description and
      the candidate rows: the reply text, or None when the request fails. */
  type Reply = (Json, seq<Record>) -> Option<string>

  datatype Model = Model(reply: Reply, decode: Decoder)

  /** `query_openai`: strip the reply, remove trailing commas, decode; every
      failure is None. */
  function QueryOpenAI(reply: Option<string>, decode: Decoder): (r: Option<Json>)
  {
    match reply
    case None => None
    case Some(text) => decode(StripTrailingCommas(Strip(text)))
  }

  /** What reaches the decoder is the reply with its surrounding whitespace
      and its trailing commas removed, and nothing else. */
  lemma QueryDecodesCleanedReply(text: string, decode: Decoder) returns (t: string)
    ensures QueryOpenAI(Some(text), decode) == decode(t)
    ensures Trimmed(t) && t == Survivors(Strip(text), 0) && Count(t, ',') == KeptCommas(Strip(text))
  {
    t := StripTrailingCommas(Strip(text));
    StripTrimmed(text);
    CleanupKeepsTrimmed(Strip(text));
    CleanupErases(Strip(text));
    CleanupKeepsOtherCommas(Strip(text));
  }

  /** A failed request is None, never an exception. */
  lemma QueryFailureIsNone(decode: Decoder)
    ensures QueryOpenAI(None, decode) == None
  {
  }

  function Ask(m: Model, desc: Json, cands: seq<Record>): Option<Json> {
    QueryOpenAI(m.reply(desc, cands), m.decode)
  }

  /** `match_item_desc_via_gpt`: no model call without candidates; an answer
      is accepted when it is an object with an `entry_id` key. */
  function MatchItem(m: Model, desc: Json, cands: seq<Record>): (r: Record)
    ensures |cands| == 0 ==> r == map[]
    ensures r != map[] ==> "entry_id" in r && Ask(m, desc, cands) == Some(JObj(r))
  {
    if |cands| == 0 then map[]
    else match Ask(m, desc, cands)
      case Some(JObj(d)) => if "entry_id" in d then d else map[]
      case _ => map[]
  }

  /** Conversely, every such answer is accepted, member of the candidates or not. */
  lemma MatchItemAccepts(m: Model, desc: Json, cands: seq<Record>, d: Record)
    requires |cands| > 0 && Ask(m, desc, cands) == Some(JObj(d)) && "entry_id" in d
    ensures MatchItem(m, desc, cands) == d
  {
  }

  /** Python's `d in cands` for a dict: some candidate equals `d` under `==`. */
  predicate PyIn(d: Record, cands: seq<Record>) {
    exists i :: 0 <= i < |cands| && PyEq(JObj(d), JObj(cands[i]))
  }

  /** A candidate itself passes the membership test. */
  lemma MemberIsPyIn(cands: seq<Record>, i: nat)
    requires i < |cands|
    ensures PyIn(cands[i], cands)
  {
    PyEqReflexive(JObj(cands[i]));
  }

  /** `match_item_desc_via_gpt_returns`: an answer is accepted only when it
      equals one of the candidates under Python's `==`; the answer itself,
      not the candidate, is returned. */
  function MatchReturnItem(m: Model, desc: Json, cands: seq<Record>): (r: Record)
    ensures |cands| == 0 ==> r == map[]
    ensures r == map[] || PyIn(r, cands)
    ensures r != map[] ==> Ask(m, desc, cands) == Some(JObj(r))
  {
    if |cands| == 0 then map[]
    else match Ask(m, desc, cands)
      case Some(JObj(d)) => if PyIn(d, cands) then d else map[]
      case _ => map[]
  }

  /** Conversely, an answer equal to one of the candidates is accepted. */
  lemma MatchReturnItemAccepts(m: Model, desc: Json, cands: seq<Record>, d: Record)
    requires Ask(m, desc, cands) == Some(JObj(d)) && PyIn(d, cands)
    ensures MatchReturnItem(m, desc, cands) == d
  {
  }

  /** An answer that writes `1` where the candidate has `true` is accepted,
      and is what the caller gets back. */
  lemma BoolAsNumberAccepted(m: Model, desc: Json)
    ensures var cand := map["entry_id" := JNum(7.0), "refunded" := JBool(true)];
      var answer := map["entry_id" := JNum(7.0), "refunded" := JNum(1.0)];
      Ask(m, desc, [cand]) == Some(JObj(answer)) ==> MatchReturnItem(m, desc, [cand]) == answer
  {
    var cand := map["entry_id" := JNum(7.0), "refunded" := JBool(true)];
    var answer := map["entry_id" := JNum(7.0), "refunded" := JNum(1.0)];
    assert PyEq(JObj(answer), JObj([cand][0]));
  }
}

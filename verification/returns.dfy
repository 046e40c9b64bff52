/**
 The returns reconciliation shared by the refund, return-confirmation and
 return-update nodes: merge order-level and item-level fields, look for an
 existing `returns_refunds` row through three tiers of id filters, pick a
 row by field containment or by the language model, then either update the
 picked row or queue the item for one batched insert.
 */
module Returns {
  import opened Text
  import opened Values
  import opened Store
  import opened Extractor

  const Table := "returns_refunds"

  /** Compared by containment when a tier has produced candidates. */
  const MatchFields: seq<string> := ["return_item_desc", "return_item_color", "return_item_size"]

  /** Never overwritten on a row that already has a value for them. */
  const Protected: seq<string> := ["return_id", "order_id", "return_item_desc"]

  /** The matched row's fields that make up the update's equality predicate. */
  const KeyFields: seq<string> :=
    ["return_id", "order_id", "return_item_desc", "return_item_sku", "return_item_size", "return_item_color"]

  /** The candidate tiers, tried in this order. */
  const Tiers: seq<seq<string>> := [["return_id", "order_id"], ["return_id"], ["order_id"]]

  /** The one difference between the three nodes: what the language model is
      given as the description when the merged item has none. */
  datatype Config = Config(descDefault: Json)

  /** What a node works against: its configuration, the model and the store. */
  datatype Env = Env(cfg: Config, model: Model, store: Store)

  predicate IsId(k: string) {
    k == "return_id" || k == "order_id" || k == "user_email"
  }

  // ---------------------------------------------------------------------
  // Merging.
  // ---------------------------------------------------------------------

  /** `{**return_info, **item}` with the three id fields replaced by `v or ""`. */
  function Merge(info: Record, item: Record): (m: Record)
    ensures m.Keys == info.Keys + item.Keys + {"return_id", "order_id", "user_email"}
    ensures forall k :: k in item && !IsId(k) ==> m[k] == item[k]
    ensures forall k :: k in info && k !in item && !IsId(k) ==> m[k] == info[k]
    ensures forall k :: IsId(k) ==> k in m && (Truthy(m[k]) || m[k] == JStr(""))
    ensures forall k :: IsId(k) && k in item ==> m[k] == (if Truthy(item[k]) then item[k] else JStr(""))
    ensures forall k :: IsId(k) && k !in item && k in info && Truthy(info[k]) ==> m[k] == info[k]
  {
    UnionGet(info, item);
    BlankIds(info + item)
  }

  /** The identifiers made present: each keeps a truthy value and is blanked
      to `""` otherwise; every other key is untouched. */
  function BlankIds(u: Record): (r: Record)
    ensures r.Keys == u.Keys + {"return_id", "order_id", "user_email"}
    ensures forall k :: k in u && !IsId(k) ==> r[k] == u[k]
    ensures forall k :: IsId(k) ==> k in r && r[k] == Or(Get(u, k), JStr(""))
  {
    IdsDistinct();
    ThreeBlanks(u, "return_id", "order_id", "user_email");
    OrEmpty(OrEmpty(OrEmpty(u, "return_id"), "order_id"), "user_email")
  }

  /** Blanking three different keys one after the other. */
  lemma ThreeBlanks(u: Record, x: string, y: string, z: string)
    requires x != y && y != z && z != x
    ensures var r := OrEmpty(OrEmpty(OrEmpty(u, x), y), z);
      && r.Keys == u.Keys + {x, y, z}
      && (forall k :: k in u && k != x && k != y && k != z ==> r[k] == u[k])
      && r[x] == Or(Get(u, x), JStr("")) && r[y] == Or(Get(u, y), JStr("")) && r[z] == Or(Get(u, z), JStr(""))
  {
    var a := OrEmpty(u, x);
    var b := OrEmpty(a, y);
    assert Get(a, y) == Get(u, y) && Get(b, z) == Get(u, z);
  }

  /** The three identifiers are different keys. */
  lemma IdsDistinct()
    ensures |"return_id"| == 9 && |"order_id"| == 8 && |"user_email"| == 10
    ensures "return_id" != "order_id" && "order_id" != "user_email" && "user_email" != "return_id"
  {
  }

  /** Looking a key up in `info + item`: the item's value wins. */
  lemma UnionGet(info: Record, item: Record)
    ensures (info + item).Keys == info.Keys + item.Keys
    ensures forall k :: k in item ==> Get(info + item, k) == item[k]
    ensures forall k :: k in info && k !in item ==> Get(info + item, k) == info[k]
  {
  }

  /** `u[k] = u.get(k) or ""`. */
  function OrEmpty(u: Record, k: string): (r: Record)
    ensures r.Keys == u.Keys + {k}
    ensures r[k] == Or(Get(u, k), JStr("")) && (Truthy(r[k]) || r[k] == JStr(""))
    ensures forall j :: j in u && j != k ==> r[j] == u[j]
  {
    u[k := Or(Get(u, k), JStr(""))]
  }

  // ---------------------------------------------------------------------
  // Candidate retrieval.
  // ---------------------------------------------------------------------

  /** One `ilike '%v%'` filter per field of the tier whose merged value is truthy. */
  function TierFilters(m: Record, fields: seq<string>): (fs: seq<Filter>)
    ensures forall f :: f in fs <==> f.ILike? && f.field in fields && Truthy(Get(m, f.field)) && f.value == Get(m, f.field)
  {
    if |fields| == 0 then []
    else
      var rest := TierFilters(m, fields[1..]);
      assert fields == [fields[0]] + fields[1..];
      if Truthy(Get(m, fields[0])) then [ILike(fields[0], Get(m, fields[0]))] + rest else rest
  }

  /** The rows a tier's query returns, with the updates issued so far applied. */
  function Candidates(env: Env, issued: seq<Op>, m: Record, t: nat): seq<Record>
    requires t < |Tiers|
  {
    env.store(issued, Select(Table, TierFilters(m, Tiers[t])))
  }

  /** Under a store that honours its filters, every candidate of a tier
      contains each of the tier's non-empty ids, ignoring case. */
  lemma CandidatesContainIds(env: Env, issued: seq<Op>, m: Record, t: nat, i: nat, f: string)
    requires t < |Tiers| && Faithful(env.store)
    requires i < |Candidates(env, issued, m, t)|
    requires f in Tiers[t] && Truthy(Get(m, f)) && Get(m, f).JStr?
    ensures var row := Candidates(env, issued, m, t)[i];
      f in row && row[f].JStr? && ContainsIgnoringCase(row[f].s, Get(m, f).s)
  {
    var fs := TierFilters(m, Tiers[t]);
    assert ILike(f, Get(m, f)) in fs;
    var n :| 0 <= n < |fs| && fs[n] == ILike(f, Get(m, f));
    assert Holds(env.store(issued, Select(Table, fs))[i], Select(Table, fs).filters[n]);
  }


  // ---------------------------------------------------------------------
  // Picking a row among the candidates.
  //
  // The nodes check no types up front: `.lower()` on a value that is not a
  // string raises, and nothing in the nodes catches it. `None` below stands
  // for that exception.
  // ---------------------------------------------------------------------

  /** For text values: field `f` is empty in the item or contained, ignoring
      case, in the row's value. */
  predicate FieldOk(m: Record, row: Record, f: string)
    requires TextLike(Get(m, f)) && TextLike(Get(row, f))
  {
    !Truthy(Get(m, f)) || ContainsIgnoringCase(TextOr(Get(row, f)), TextOr(Get(m, f)))
  }

  /** For text values: description, colour and size each match. */
  predicate RowMatches(m: Record, row: Record)
    requires TextFields(m, MatchFields) && TextFields(row, MatchFields)
  {
    assert MatchFields[0] == "return_item_desc" && MatchFields[1] == "return_item_color";
    assert MatchFields[2] == "return_item_size";
    FieldOk(m, row, "return_item_desc") && FieldOk(m, row, "return_item_color") && FieldOk(m, row, "return_item_size")
  }

  /** One test of the field match,
      `not m.get(f) or m.get(f).lower() in (row.get(f) or "").lower()`;
      None when one of the two `.lower()` calls meets a value that is not a
      string. */
  function FieldTest(m: Record, row: Record, f: string): (r: Option<bool>)
    ensures r.None? <==> Truthy(Get(m, f)) && !(Get(m, f).JStr? && TextLike(Get(row, f)))
    ensures TextLike(Get(m, f)) && TextLike(Get(row, f)) ==> r == Some(FieldOk(m, row, f))
  {
    var v := Get(m, f);
    if !Truthy(v) then Some(true)
    else if !v.JStr? then None
    else
      var w := Or(Get(row, f), JStr(""));
      if !w.JStr? then None else Some(ContainsIgnoringCase(w.s, v.s))
  }

  /** Every element before index `k` is `p`. */
  predicate AllAre<T(==)>(ts: seq<T>, p: T, k: nat)
    requires k <= |ts|
  {
    forall i :: 0 <= i < k ==> ts[i] == p
  }

  /** The first element that is not `p`, or `p` when there is none: the
      shape of Python's `all` over lazily evaluated tests (p = passed) and of
      a chain of guarded fallbacks (p = nothing found yet). */
  function FirstOther<T(==)>(ts: seq<T>, p: T): (r: T)
    ensures AllAre(ts, p, |ts|) ==> r == p
    ensures forall k :: 0 <= k < |ts| && AllAre(ts, p, k) && ts[k] != p ==> r == ts[k]
    ensures r == p || exists k :: 0 <= k < |ts| && ts[k] == r
    decreases |ts|
  {
    if |ts| == 0 then p
    else if ts[0] != p then ts[0]
    else
      var r := FirstOther(ts[1..], p);
      assert AllAre(ts, p, |ts|) ==> r == p by {
        if AllAre(ts, p, |ts|) {
          assert AllAre(ts[1..], p, |ts| - 1) by {
            forall i | 0 <= i < |ts| - 1 ensures ts[1..][i] == p {
              assert ts[1..][i] == ts[i + 1];
            }
          }
        }
      }
      forall k | 0 <= k < |ts| && AllAre(ts, p, k) && ts[k] != p ensures r == ts[k] {
        assert k != 0;
        assert AllAre(ts[1..], p, k - 1) by {
          forall i | 0 <= i < k - 1 ensures ts[1..][i] == p {
            assert ts[1..][i] == ts[i + 1];
          }
        }
        assert ts[1..][k - 1] == ts[k];
      }
      assert r == p || exists k :: 0 <= k < |ts| && ts[k] == r by {
        if r != p {
          var k :| 0 <= k < |ts| - 1 && ts[1..][k] == r;
          assert ts[k + 1] == r;
        }
      }
      r
  }

  /** A first element that is not `p` decides at once. */
  lemma FirstOtherHead<T>(ts: seq<T>, p: T)
    requires |ts| > 0 && ts[0] != p
    ensures FirstOther(ts, p) == ts[0]
  {
    assert AllAre(ts, p, 0);
  }

  /** The field match of one candidate row: description, colour and size,
      in that order. */
  function RowTest(m: Record, row: Record): Option<bool> {
    FirstOther([FieldTest(m, row, "return_item_desc"), FieldTest(m, row, "return_item_color"), FieldTest(m, row, "return_item_size")], Some(true))
  }

  /** On text values no test raises, and the row passes exactly when it
      matches field by field. */
  lemma RowTestOfText(m: Record, row: Record)
    requires TextFields(m, MatchFields) && TextFields(row, MatchFields)
    ensures RowTest(m, row) == Some(RowMatches(m, row))
  {
    assert MatchFields[0] == "return_item_desc" && MatchFields[1] == "return_item_color";
    assert MatchFields[2] == "return_item_size";
    var a, b, c := FieldOk(m, row, "return_item_desc"), FieldOk(m, row, "return_item_color"), FieldOk(m, row, "return_item_size");
    assert [FieldTest(m, row, "return_item_desc"), FieldTest(m, row, "return_item_color"), FieldTest(m, row, "return_item_size")]
      == [Some(a), Some(b), Some(c)];
    AllOfThree(a, b, c);
  }

  /** Three tests that all complete pass together exactly when each passes. */
  lemma AllOfThree(a: bool, b: bool, c: bool)
    ensures FirstOther([Some(a), Some(b), Some(c)], Some(true)) == Some(a && b && c)
  {
    var ts := [Some(a), Some(b), Some(c)];
    var k := if !a then 0 else if !b then 1 else if !c then 2 else 3;
    assert AllAre(ts, Some(true), k);
  }

  /** The scan of `for row in rows: if test(row): return row`: the first
      test that does not fail decides, giving its index when it passes and
      None when it raises; |ts| when every test fails. */
  function FirstHit(ts: seq<Option<bool>>): (r: Option<nat>)
    ensures AllAre(ts, Some(false), |ts|) ==> r == Some(|ts|)
    ensures forall k :: 0 <= k < |ts| && AllAre(ts, Some(false), k) && ts[k] != Some(false) ==>
      r == if ts[k].None? then None else Some(k)
    ensures r.None? ==> exists k :: 0 <= k < |ts| && ts[k].None?
    decreases |ts|
  {
    if |ts| == 0 then Some(0)
    else if ts[0].None? then None
    else if ts[0] == Some(true) then Some(0)
    else
      assert ts[0] == Some(ts[0].value) && !ts[0].value;
      var rest := FirstHit(ts[1..]);
      var r := if rest.None? then None else Some(1 + rest.value);
      assert AllAre(ts, Some(false), |ts|) ==> r == Some(|ts|) by {
        if AllAre(ts, Some(false), |ts|) {
          assert AllAre(ts[1..], Some(false), |ts| - 1) by {
            forall j | 0 <= j < |ts| - 1 ensures ts[1..][j] == Some(false) {
              assert ts[1..][j] == ts[j + 1];
            }
          }
        }
      }
      forall k | 0 <= k < |ts| && AllAre(ts, Some(false), k) && ts[k] != Some(false)
        ensures r == if ts[k].None? then None else Some(k)
      {
        assert k != 0;
        assert AllAre(ts[1..], Some(false), k - 1) by {
          forall j | 0 <= j < k - 1 ensures ts[1..][j] == Some(false) {
            assert ts[1..][j] == ts[j + 1];
          }
        }
        assert ts[1..][k - 1] == ts[k];
      }
      assert r.None? ==> exists k :: 0 <= k < |ts| && ts[k].None? by {
        if r.None? {
          var k :| 0 <= k < |ts| - 1 && ts[1..][k].None?;
          assert ts[k + 1].None?;
        }
      }
      r
  }

  /** The field match of every candidate, in order. */
  function RowTests(m: Record, cands: seq<Record>): (ts: seq<Option<bool>>)
    ensures |ts| == |cands| && forall j :: 0 <= j < |cands| ==> ts[j] == RowTest(m, cands[j])
  {
    seq(|cands|, j requires 0 <= j < |cands| => RowTest(m, cands[j]))
  }

  /** How far the field match scans the candidates. */
  function FirstMatch(m: Record, cands: seq<Record>): Option<nat> {
    FirstHit(RowTests(m, cands))
  }

  /** `match_existing_row`: the first candidate that matches field by field,
      else the model's answer when it equals a candidate under Python's
      `==`; None when the field match raises. */
  function Pick(env: Env, m: Record, cands: seq<Record>): (r: Option<Record>)
    ensures r.None? <==> FirstMatch(m, cands).None?
    ensures r.Some? ==> r.value == map[] || PyIn(r.value, cands)
  {
    match FirstMatch(m, cands)
    case None => None
    case Some(k) =>
      if k < |cands| then
        MemberIsPyIn(cands, k);
        Some(cands[k])
      else Some(MatchReturnItem(env.model, GetOr(m, "return_item_desc", env.cfg.descDefault), cands))
  }

  /** The first field-by-field match is picked, whatever the model would say. */
  lemma PickFirstMatch(env: Env, m: Record, cands: seq<Record>, k: nat)
    requires k < |cands| && RowTest(m, cands[k]) == Some(true)
    requires forall j :: 0 <= j < k ==> RowTest(m, cands[j]) == Some(false)
    ensures Pick(env, m, cands) == Some(cands[k])
  {
  }

  /** The model is consulted only when no candidate matches field by field. */
  lemma PickAsksModel(env: Env, m: Record, cands: seq<Record>)
    requires forall j :: 0 <= j < |cands| ==> RowTest(m, cands[j]) == Some(false)
    ensures Pick(env, m, cands) == Some(MatchReturnItem(env.model, GetOr(m, "return_item_desc", env.cfg.descDefault), cands))
  {
  }

  /** A test that raises before any candidate has matched ends the pick. */
  lemma PickRaises(env: Env, m: Record, cands: seq<Record>, k: nat)
    requires k < |cands| && RowTest(m, cands[k]).None?
    requires forall j :: 0 <= j < k ==> RowTest(m, cands[j]) == Some(false)
    ensures Pick(env, m, cands).None?
  {
  }

  // ---------------------------------------------------------------------
  // The tier cascade.
  // ---------------------------------------------------------------------

  /** Every field of the tier has a truthy merged value. */
  predicate TierRuns(m: Record, fields: seq<string>) {
    forall i :: 0 <= i < |fields| ==> Truthy(Get(m, fields[i]))
  }

  /** What tier `t` yields: nothing when one of its ids is empty, else the
      pick among its candidates (None when it raises). */
  function TierResult(env: Env, issued: seq<Op>, m: Record, t: nat): (r: Option<Record>)
    requires t < |Tiers|
    ensures !TierRuns(m, Tiers[t]) ==> r == Some(map[])
    ensures r.Some? && r.value != map[] ==> TierRuns(m, Tiers[t]) && PyIn(r.value, Candidates(env, issued, m, t))
  {
    if TierRuns(m, Tiers[t]) then Pick(env, m, Candidates(env, issued, m, t))
    else Some(map[])
  }

  /** The results of the three tiers, in order. */
  function TierResults(env: Env, issued: seq<Op>, m: Record): (rs: seq<Option<Record>>)
    ensures |rs| == |Tiers| && forall t :: 0 <= t < |Tiers| ==> rs[t] == TierResult(env, issued, m, t)
  {
    [TierResult(env, issued, m, 0), TierResult(env, issued, m, 1), TierResult(env, issued, m, 2)]
  }

  /** The row the item is matched to, the empty record, or None when the
      matching raised: the first tier whose result is not the empty record
      decides. */
  function Matched(env: Env, issued: seq<Op>, m: Record): Option<Record> {
    FirstOther(TierResults(env, issued, m), Some(map[]))
  }

  /** Three guarded fallbacks, each run only while nothing has been found
      and only when its guard holds, pick the first result that is not `p`
      (a result whose guard fails is `p`). */
  lemma GuardedChain<T>(rs: seq<T>, p: T, g0: bool, g1: bool, g2: bool)
    requires |rs| == 3 && (!g0 ==> rs[0] == p) && (!g1 ==> rs[1] == p) && (!g2 ==> rs[2] == p)
    ensures
      var r0 := if g0 then rs[0] else p;
      var r1 := if r0 == p && g1 then rs[1] else r0;
      var r2 := if r1 == p && g2 then rs[2] else r1;
      FirstOther(rs, p) == r2
  {
    var k := if rs[0] != p then 0 else if rs[1] != p then 1 else if rs[2] != p then 2 else 3;
    assert AllAre(rs, p, k);
  }

  /** The cascade is the source's chain of three guarded assignments; a raise
      leaves the chain at once. */
  lemma CascadeIsChain(env: Env, issued: seq<Op>, m: Record)
    ensures
      var rid := Truthy(Get(m, "return_id"));
      var oid := Truthy(Get(m, "order_id"));
      var r0 := if rid && oid then TierResult(env, issued, m, 0) else Some(map[]);
      var r1 := if r0 == Some(map[]) && rid then TierResult(env, issued, m, 1) else r0;
      var r2 := if r1 == Some(map[]) && oid then TierResult(env, issued, m, 2) else r1;
      Matched(env, issued, m) == r2
  {
    assert TierRuns(m, Tiers[0]) <==> Truthy(Get(m, "return_id")) && Truthy(Get(m, "order_id")) by {
      assert Tiers[0][0] == "return_id" && Tiers[0][1] == "order_id";
    }
    assert TierRuns(m, Tiers[1]) <==> Truthy(Get(m, "return_id")) by {
      assert Tiers[1][0] == "return_id";
    }
    assert TierRuns(m, Tiers[2]) <==> Truthy(Get(m, "order_id")) by {
      assert Tiers[2][0] == "order_id";
    }
    var rs := TierResults(env, issued, m);
    GuardedChain(rs, Some(map[]), Truthy(Get(m, "return_id")) && Truthy(Get(m, "order_id")),
      Truthy(Get(m, "return_id")), Truthy(Get(m, "order_id")));
  }

  /** A matched row equals, under Python's `==`, a candidate of the first
      tier that produced one, and that tier's ids are all non-empty. */
  lemma MatchedFromItsTier(env: Env, issued: seq<Op>, m: Record) returns (t: nat)
    requires Matched(env, issued, m).Some? && Matched(env, issued, m).value != map[]
    ensures t < |Tiers| && TierRuns(m, Tiers[t])
    ensures PyIn(Matched(env, issued, m).value, Candidates(env, issued, m, t))
    ensures forall l :: 0 <= l < t ==> TierResult(env, issued, m, l) == Some(map[])
  {
    var rs := TierResults(env, issued, m);
    t := if rs[0] != Some(map[]) then 0 else if rs[1] != Some(map[]) then 1 else 2;
    assert AllAre(rs, Some(map[]), t);
  }

  /** With neither a return id nor an order id no tier runs, so nothing is
      matched and nothing can raise. */
  lemma NoIdsNoMatch(env: Env, issued: seq<Op>, m: Record)
    requires !Truthy(Get(m, "return_id")) && !Truthy(Get(m, "order_id"))
    ensures Matched(env, issued, m) == Some(map[])
  {
    CascadeIsChain(env, issued, m);
  }

  /** When the item's match fields and the table's match columns hold text
      (or nothing), the matching never raises. */
  lemma TextNeverRaises(env: Env, issued: seq<Op>, m: Record)
    requires TextColumns(env.store, MatchFields) && TextFields(m, MatchFields)
    ensures Matched(env, issued, m).Some?
  {
    var rs := TierResults(env, issued, m);
    forall j | 0 <= j < |Tiers| ensures rs[j].Some? {
      TierOfTextNeverRaises(env, issued, m, j);
    }
  }

  /** The same for one tier. */
  lemma TierOfTextNeverRaises(env: Env, issued: seq<Op>, m: Record, j: nat)
    requires TextColumns(env.store, MatchFields) && TextFields(m, MatchFields) && j < |Tiers|
    ensures TierResult(env, issued, m, j).Some?
  {
    if TierRuns(m, Tiers[j]) {
      var cands := Candidates(env, issued, m, j);
      var ts := RowTests(m, cands);
      forall k | 0 <= k < |ts| ensures ts[k].Some? {
        assert TextFields(cands[k], MatchFields) by {
          forall c | 0 <= c < |MatchFields| ensures TextLike(Get(cands[k], MatchFields[c])) {
          }
        }
        RowTestOfText(m, cands[k]);
      }
      assert FirstMatch(m, cands).Some?;
    }
  }

  /** With no description or colour to test, a size that is not a string
      raises against any row. */
  lemma SizeTestRaises(m: Record, row: Record)
    requires !Truthy(Get(m, "return_item_desc")) && !Truthy(Get(m, "return_item_color"))
    requires Truthy(Get(m, "return_item_size")) && !Get(m, "return_item_size").JStr?
    ensures RowTest(m, row).None?
  {
    var ts := [FieldTest(m, row, "return_item_desc"), FieldTest(m, row, "return_item_color"), FieldTest(m, row, "return_item_size")];
    assert AllAre(ts, Some(true), 2) && ts[2].None?;
  }

  /** A numeric size on an item that reaches a candidate raises: with both
      ids, no description or colour to test first, and a candidate in the
      first tier, `.lower()` is called on the number. */
  lemma NonTextSizeRaises(env: Env, issued: seq<Op>, m: Record)
    requires Truthy(Get(m, "return_id")) && Truthy(Get(m, "order_id"))
    requires !Truthy(Get(m, "return_item_desc")) && !Truthy(Get(m, "return_item_color"))
    requires Truthy(Get(m, "return_item_size")) && !Get(m, "return_item_size").JStr?
    requires |Candidates(env, issued, m, 0)| > 0
    ensures Matched(env, issued, m).None?
  {
    var cands := Candidates(env, issued, m, 0);
    assert TierRuns(m, Tiers[0]) by {
      assert Tiers[0][0] == "return_id" && Tiers[0][1] == "order_id";
    }
    SizeTestRaises(m, cands[0]);
    PickRaises(env, m, cands, 0);
    assert TierResult(env, issued, m, 0).None?;
    FirstOtherHead(TierResults(env, issued, m), Some(map[]));
  }

  /** A description that is a reordering of the row's ("hoodie, blue"
      against "Blue Hoodie") is not a field match: containment, not
      similarity, is checked. */
  lemma ReorderedDescriptionNoMatch()
    ensures !ContainsIgnoringCase("Blue Hoodie", "hoodie, blue")
  {
    assert ',' in Lower("hoodie, blue") by {
      assert Lower("hoodie, blue")[6] == ',';
    }
    assert ',' !in Lower("Blue Hoodie");
    MissingCharNotContained(Lower("Blue Hoodie"), Lower("hoodie, blue"), ',');
  }

  // ---------------------------------------------------------------------
  // The write for one item.
  // ---------------------------------------------------------------------

  /** `str(v).strip() == ""`: only a string can be blank (`str` of any other
      non-None value is never blank). */
  predicate Blank(v: Json) {
    v.JStr? && Strip(v.s) == ""
  }

  /** Drops the None values and a blank description. */
  function Clean(m: Record): (c: Record)
    ensures c.Keys <= m.Keys
    ensures forall k :: k in c ==> c[k] == m[k] && c[k] != JNull
    ensures forall k :: k in m && k !in c ==> m[k] == JNull || (k == "return_item_desc" && Blank(m[k]))
    ensures "return_item_desc" in c ==> !Blank(c["return_item_desc"])
  {
    map k | k in m && m[k] != JNull && (k != "return_item_desc" || !Blank(m[k])) :: m[k]
  }

  /** Cleaning a clean payload changes nothing. */
  lemma CleanIdempotent(m: Record)
    ensures Clean(Clean(m)) == Clean(m)
  {
  }

  /** Removes each protected field for which the matched row already has a
      truthy value. */
  function DropProtected(c: Record, row: Record): (p: Record)
    ensures forall k :: k in p <==> k in c && !(k in Protected && Truthy(Get(row, k)))
    ensures forall k :: k in p ==> p[k] == c[k]
  {
    c - (set k | k in Protected && Truthy(Get(row, k)))
  }

  /** The update's predicate: equality on each key field that is truthy in
      the matched row, with the row's own value, in `keys` order. */
  function KeyWhere(row: Record, keys: seq<string>): (w: seq<(string, Json)>)
    ensures |w| <= |keys|
    ensures forall p :: p in w <==> p.0 in keys && p.0 in row && Truthy(row[p.0]) && p.1 == row[p.0]
  {
    if |keys| == 0 then []
    else
      var rest := KeyWhere(row, keys[1..]);
      assert keys == [keys[0]] + keys[1..];
      if Truthy(Get(row, keys[0])) then [(keys[0], row[keys[0]])] + rest else rest
  }

  /** The matched row satisfies every equality of its own predicate. */
  lemma WhereHoldsOfRow(row: Record)
    ensures forall p :: p in KeyWhere(row, KeyFields) ==> Holds(row, Eq(p.0, p.1))
  {
  }

  /** What happens to one item: an update issued at once, a row queued for
      the insert, or an exception that ends the node. */
  datatype Step = Updated(op: Op) | Queued(row: Record) | Failed

  /** A payload without None values. */
  predicate NoNulls(r: Record) {
    forall k :: k in r ==> r[k] != JNull
  }

  /** An update of the returns table. */
  predicate IsReturnsUpdate(op: Op) {
    op.Update? && op.table == Table
  }

  /** What happens to a merged item given what the matching found: a raise
      propagates, a row is updated, nothing found queues the item. */
  function StepFor(found: Option<Record>, m: Record): (s: Step)
    ensures s.Failed? <==> found.None?
    ensures s.Queued? <==> found == Some(map[])
    ensures s.Updated? ==> IsReturnsUpdate(s.op)
    ensures s.Queued? ==> NoNulls(s.row)
  {
    match found
    case None => Failed
    case Some(row) =>
      if row != map[] then Updated(Update(Table, KeyWhere(row, KeyFields), DropProtected(Clean(m), row)))
      else Queued(Clean(m))
  }

  /** What happens to one merged item. */
  function Reconcile(env: Env, issued: seq<Op>, m: Record): (s: Step)
    ensures s.Failed? <==> Matched(env, issued, m).None?
    ensures s.Queued? <==> Matched(env, issued, m) == Some(map[])
    ensures s.Updated? ==> IsReturnsUpdate(s.op)
    ensures s.Queued? ==> NoNulls(s.row)
  {
    StepFor(Matched(env, issued, m), m)
  }

  /** An item with neither a return id nor an order id is queued, cleaned,
      whatever its other fields hold. */
  lemma NoIdsQueued(env: Env, issued: seq<Op>, m: Record)
    requires !Truthy(Get(m, "return_id")) && !Truthy(Get(m, "order_id"))
    ensures Reconcile(env, issued, m) == Queued(Clean(m))
  {
    NoIdsNoMatch(env, issued, m);
  }

  /** No protected field the matched row already has reaches the update
      payload: for every protected field, the payload carries it only when
      the predicate does not constrain it. */
  lemma UpdateKeepsProtected(env: Env, issued: seq<Op>, m: Record, k: string)
    requires Reconcile(env, issued, m).Updated? && k in Protected
    ensures var op := Reconcile(env, issued, m).op;
      k in op.payload ==> forall i :: 0 <= i < |op.where| ==> op.where[i].0 != k
    ensures var op := Reconcile(env, issued, m).op;
      k !in op.payload && k in Clean(m) ==> exists i :: 0 <= i < |op.where| && op.where[i].0 == k
  {
    UpdateOfRowKeepsProtected(Matched(env, issued, m).value, m, k);
  }

  /** The same for the update of a given matched row. */
  lemma UpdateOfRowKeepsProtected(row: Record, m: Record, k: string)
    requires row != map[] && k in Protected
    ensures var op := StepFor(Some(row), m).op;
      k in op.payload ==> forall i :: 0 <= i < |op.where| ==> op.where[i].0 != k
    ensures var op := StepFor(Some(row), m).op;
      k !in op.payload && k in Clean(m) ==> exists i :: 0 <= i < |op.where| && op.where[i].0 == k
  {
    var op := StepFor(Some(row), m).op;
    if k !in op.payload && k in Clean(m) {
      assert k in KeyFields;
      assert (k, row[k]) in op.where;
    }
  }

  // ---------------------------------------------------------------------
  // The loop over the items and the node.
  // ---------------------------------------------------------------------

  /** One extracted item: `{**return_info, **item}` raises unless both are
      objects; otherwise the merged item is reconciled. */
  function ItemStep(env: Env, info: Json, issued: seq<Op>, item: Json): (s: Step)
    ensures !(info.JObj? && item.JObj?) ==> s == Failed
    ensures info.JObj? && item.JObj? ==> s == Reconcile(env, issued, Merge(info.fields, item.fields))
  {
    if info.JObj? && item.JObj? then Reconcile(env, issued, Merge(info.fields, item.fields)) else Failed
  }

  /** What the loop does with one item, given the writes issued so far. */
  type StepFn = (seq<Op>, Json) -> Step

  /** The loop's step for the return info `info`. */
  function StepOf(env: Env, info: Json): (step: StepFn)
    ensures forall issued, item :: step(issued, item) == ItemStep(env, info, issued, item)
  {
    (issued: seq<Op>, item: Json) => ItemStep(env, info, issued, item)
  }

  /** How far the loop got: the updates issued, the rows queued, and whether
      an item raised (which ends the loop and the node). */
  datatype Progress = Progress(ups: seq<Op>, rows: seq<Record>, raised: bool)

  /** The loop over the items: each update is issued at once, so that later
      items see it; the queued rows are collected for one insert; an
      exception stops everything after it. */
  function Loop(step: StepFn, issued: seq<Op>, items: seq<Json>): (p: Progress)
    ensures !p.raised ==> |p.ups| + |p.rows| == |items|
    ensures p.raised ==> |p.ups| + |p.rows| < |items|
    decreases |items|
  {
    if |items| == 0 then Progress([], [], false)
    else
      match step(issued, items[0])
      case Failed => Progress([], [], true)
      case Updated(op) =>
        var rest := Loop(step, issued + [op], items[1..]);
        Progress([op] + rest.ups, rest.rows, rest.raised)
      case Queued(row) =>
        var rest := Loop(step, issued, items[1..]);
        Progress(rest.ups, [row] + rest.rows, rest.raised)
  }

  /** Every step of `step` on the items issues an update of the returns
      table or queues a row without None values. */
  ghost predicate StepsWellFormed(step: StepFn, items: seq<Json>) {
    forall issued, i :: 0 <= i < |items| ==>
      (step(issued, items[i]).Updated? ==> IsReturnsUpdate(step(issued, items[i]).op)) &&
      (step(issued, items[i]).Queued? ==> NoNulls(step(issued, items[i]).row))
  }

  /** The loop's writes inherit the steps' shape. */
  lemma {:induction false} LoopWrites(step: StepFn, issued: seq<Op>, items: seq<Json>)
    requires StepsWellFormed(step, items)
    ensures forall i :: 0 <= i < |Loop(step, issued, items).ups| ==> IsReturnsUpdate(Loop(step, issued, items).ups[i])
    ensures forall i :: 0 <= i < |Loop(step, issued, items).rows| ==> NoNulls(Loop(step, issued, items).rows[i])
    decreases |items|
  {
    if |items| > 0 {
      assert StepsWellFormed(step, items[1..]) by {
        assert forall i :: 0 <= i < |items| - 1 ==> items[1..][i] == items[i + 1];
      }
      var s := step(issued, items[0]);
      var p := Loop(step, issued, items);
      if s.Updated? {
        var rest := Loop(step, issued + [s.op], items[1..]);
        LoopWrites(step, issued + [s.op], items[1..]);
        assert p.ups == [s.op] + rest.ups && p.rows == rest.rows;
        assert forall i :: 1 <= i < |p.ups| ==> p.ups[i] == rest.ups[i - 1];
      } else if s.Queued? {
        var rest := Loop(step, issued, items[1..]);
        LoopWrites(step, issued, items[1..]);
        assert p.rows == [s.row] + rest.rows && p.ups == rest.ups;
        assert forall i :: 1 <= i < |p.rows| ==> p.rows[i] == rest.rows[i - 1];
      }
    }
  }

  /** Two steps that agree on the items give the same loop. */
  lemma {:induction false} LoopAgrees(s1: StepFn, s2: StepFn, issued: seq<Op>, items: seq<Json>)
    requires forall issued', i :: 0 <= i < |items| ==> s1(issued', items[i]) == s2(issued', items[i])
    ensures Loop(s1, issued, items) == Loop(s2, issued, items)
    decreases |items|
  {
    if |items| > 0 {
      forall issued', i | 0 <= i < |items| - 1 ensures s1(issued', items[1..][i]) == s2(issued', items[1..][i]) {
        assert items[1..][i] == items[i + 1];
      }
      var s := s1(issued, items[0]);
      if s.Updated? {
        LoopAgrees(s1, s2, issued + [s.op], items[1..]);
      } else if s.Queued? {
        LoopAgrees(s1, s2, issued, items[1..]);
      }
    }
  }

  /** The returns step is well formed on every item. */
  lemma StepOfWellFormed(env: Env, info: Json, items: seq<Json>)
    ensures StepsWellFormed(StepOf(env, info), items)
  {
  }

  /** `extracted.get("return_info", {}) or {}`. */
  function InfoOf(x: Record): Json {
    GetOrEmpty(x, "return_info", JObj(map[]))
  }

  /** `extracted.get("items", []) or []`. */
  function ItemsOf(x: Record): Json {
    GetOrEmpty(x, "items", JArr([]))
  }

  /** The writes of a whole node: the updates, then one insert of every
      queued row when there is one. */
  function Batch(ups: seq<Op>, rows: seq<Record>): (ops: seq<Op>)
    ensures |rows| == 0 ==> ops == ups
    ensures |rows| > 0 ==> ops == ups + [Insert(Table, rows)]
  {
    if |rows| > 0 then ups + [Insert(Table, rows)] else ups
  }

  /** A batch of returns-table updates is all updates of the returns table,
      except possibly a final non-empty insert into it. */
  lemma BatchShape(ups: seq<Op>, rows: seq<Record>)
    requires forall i :: 0 <= i < |ups| ==> IsReturnsUpdate(ups[i])
    ensures var ops := Batch(ups, rows);
      && (forall i :: 0 <= i < |ops| ==> ops[i].table == Table)
      && (forall i :: 0 <= i < |ops| - 1 ==> ops[i].Update?)
      && (forall i :: 0 <= i < |ops| && ops[i].Insert? ==> |ops[i].rows| > 0)
  {
  }

  /** The loop over a list of items and the writes that follow it: the
      updates, then the insert, or only the updates issued before a raise. */
  function ItemsRun(env: Env, info: Json, items: seq<Json>): (run: Run)
    ensures forall i :: 0 <= i < |run.ops| ==> run.ops[i].table == Table
    ensures forall i :: 0 <= i < |run.ops| - 1 ==> run.ops[i].Update?
    ensures forall i :: 0 <= i < |run.ops| && run.ops[i].Insert? ==> |run.ops[i].rows| > 0
    ensures run.Raised? ==> forall i :: 0 <= i < |run.ops| ==> run.ops[i].Update?
    ensures run.Returned? ==> run.result == map["return_info" := info, "items" := JArr(items)]
  {
    StepOfWellFormed(env, info, items);
    LoopWrites(StepOf(env, info), [], items);
    var p := Loop(StepOf(env, info), [], items);
    BatchShape(p.ups, p.rows);
    if p.raised then Raised(p.ups)
    else Returned(map["return_info" := info, "items" := JArr(items)], Batch(p.ups, p.rows))
  }

  /** The reconciliation node, parameterised by its configuration. A truthy
      extraction that is not an object raises at `extracted.get`, and truthy
      items that are not a list raise at the first merge. */
  function Node(env: Env, e: Option<Json>): (run: Run)
    ensures (e.None? || !Truthy(e.value)) ==> run == Returned(map[], [])
    ensures e.Some? && Truthy(e.value) && !e.value.JObj? ==> run == Raised([])
    ensures e.Some? && e.value.JObj? && Truthy(e.value) && !ItemsOf(e.value.fields).JArr? ==> run == Raised([])
    ensures run.Returned? && e.Some? && Truthy(e.value) ==>
      run.result.Keys == {"return_info", "items"} && run.result["items"] == ItemsOf(e.value.fields)
      && run.result["return_info"] == InfoOf(e.value.fields)
    ensures forall i :: 0 <= i < |run.ops| ==> run.ops[i].table == Table
    ensures forall i :: 0 <= i < |run.ops| - 1 ==> run.ops[i].Update?
    ensures forall i :: 0 <= i < |run.ops| && run.ops[i].Insert? ==> |run.ops[i].rows| > 0
    ensures run.Raised? ==> forall i :: 0 <= i < |run.ops| ==> run.ops[i].Update?
  {
    match e
    case None => Returned(map[], [])
    case Some(x) =>
      if !Truthy(x) then Returned(map[], [])
      else if !x.JObj? then Raised([])
      else
        var items := ItemsOf(x.fields);
        if !items.JArr? then Raised([]) else ItemsRun(env, InfoOf(x.fields), items.elems)
  }

  /** For a truthy object whose items are a list, the node is the loop. */
  lemma NodeIsItemsRun(env: Env, e: Option<Json>)
    requires e.Some? && e.value.JObj? && Truthy(e.value) && ItemsOf(e.value.fields).JArr?
    ensures Node(env, e) == ItemsRun(env, InfoOf(e.value.fields), ItemsOf(e.value.fields).elems)
  {
  }

  /** Each extracted item accounts for exactly one write, an update or one
      row of the single batched insert; after a raise, the items before it
      have had their updates and nothing is inserted. */
  lemma OneWritePerItem(env: Env, e: Option<Json>) returns (ups: seq<Op>, rows: seq<Record>)
    requires e.Some? && e.value.JObj? && ItemsOf(e.value.fields).JArr?
    ensures Node(env, e).Returned? ==>
      Node(env, e).ops == Batch(ups, rows) && |ups| + |rows| == |ItemsOf(e.value.fields).elems|
    ensures Node(env, e).Raised? ==>
      Node(env, e).ops == ups && |ups| + |rows| < |ItemsOf(e.value.fields).elems|
    ensures forall i :: 0 <= i < |ups| ==> ups[i].Update?
  {
    var x := e.value.fields;
    var info := InfoOf(x);
    var items := ItemsOf(x).elems;
    StepOfWellFormed(env, info, items);
    LoopWrites(StepOf(env, info), [], items);
    var p := Loop(StepOf(env, info), [], items);
    ups, rows := p.ups, p.rows;
    if !Truthy(e.value) {
      assert x == map[] && items == [];
    } else {
      NodeIsItemsRun(env, e);
    }
  }

  /** One item that is queued: no update, one row, no raise. */
  lemma LoopOfOneQueued(step: StepFn, item: Json, row: Record)
    requires step([], item) == Queued(row)
    ensures Loop(step, [], [item]) == Progress([], [row], false)
  {
    assert [item][1..] == [];
  }

  /** A run over one queued item returns after one insert of its row. */
  lemma QueuedOnlyRun(env: Env, info: Json, item: Json, row: Record)
    requires Loop(StepOf(env, info), [], [item]) == Progress([], [row], false)
    ensures ItemsRun(env, info, [item]) == Returned(map["return_info" := info, "items" := JArr([item])], [Insert(Table, [row])])
  {
    assert [] + [Insert(Table, [row])] == [Insert(Table, [row])];
  }

  /** An item without ids merges to a record whose ids are blank. */
  lemma NoIdsMergeBlank(item: Record)
    requires "return_id" !in item && "order_id" !in item
    ensures var m := Merge(map[], item);
      !Truthy(Get(m, "return_id")) && !Truthy(Get(m, "order_id"))
  {
    assert map[] + item == item;
  }

  /** `{"items": [{"return_item_size": 32}]}`: without ids no tier runs, so
      the numeric size is never lowered and the item is inserted. */
  lemma NumericSizeQueued(env: Env)
    ensures var item := JObj(map["return_item_size" := JNum(32.0)]);
      var e := Some(JObj(map["items" := JArr([item])]));
      Node(env, e) == Returned(map["return_info" := JObj(map[]), "items" := JArr([item])],
        [Insert(Table, [Clean(Merge(map[], item.fields))])])
  {
    var fields := map["return_item_size" := JNum(32.0)];
    var item := JObj(fields);
    var x := map["items" := JArr([item])];
    var info := JObj(map[]);
    assert InfoOf(x) == info && ItemsOf(x) == JArr([item]);
    var m := Merge(map[], fields);
    NoIdsMergeBlank(fields);
    NoIdsQueued(env, [], m);
    var step := StepOf(env, info);
    assert step([], item) == ItemStep(env, info, [], item) == Queued(Clean(m));
    LoopOfOneQueued(step, item, Clean(m));
    NodeIsItemsRun(env, Some(JObj(x)));
    QueuedOnlyRun(env, info, item, Clean(m));
  }

  // ---------------------------------------------------------------------
  // The three nodes.
  // ---------------------------------------------------------------------

  /** `extract_refund_node`: a missing description is given to the model as None. */
  function RefundNode(model: Model, store: Store, e: Option<Json>): (run: Run)
    ensures (e.None? || !Truthy(e.value)) ==> run == Returned(map[], [])
    ensures e.Some? && Truthy(e.value) && !e.value.JObj? ==> run == Raised([])
    ensures run.Returned? && e.Some? && Truthy(e.value) ==>
      run.result == map["return_info" := InfoOf(e.value.fields), "items" := ItemsOf(e.value.fields)]
    ensures forall i :: 0 <= i < |run.ops| ==> run.ops[i].table == Table
    ensures forall i :: 0 <= i < |run.ops| - 1 ==> run.ops[i].Update?
  {
    Node(Env(Config(JNull), model, store), e)
  }

  /** `extract_return_confirmation_node`: a missing description is given as "". */
  function ReturnConfirmationNode(model: Model, store: Store, e: Option<Json>): (run: Run)
    ensures (e.None? || !Truthy(e.value)) ==> run == Returned(map[], [])
    ensures e.Some? && Truthy(e.value) && !e.value.JObj? ==> run == Raised([])
    ensures run.Returned? && e.Some? && Truthy(e.value) ==>
      run.result == map["return_info" := InfoOf(e.value.fields), "items" := ItemsOf(e.value.fields)]
    ensures forall i :: 0 <= i < |run.ops| ==> run.ops[i].table == Table
    ensures forall i :: 0 <= i < |run.ops| - 1 ==> run.ops[i].Update?
  {
    Node(Env(Config(JStr("")), model, store), e)
  }

  /** `extract_return_update_node`: a missing description is given as "". */
  function ReturnUpdateNode(model: Model, store: Store, e: Option<Json>): (run: Run)
    ensures (e.None? || !Truthy(e.value)) ==> run == Returned(map[], [])
    ensures e.Some? && Truthy(e.value) && !e.value.JObj? ==> run == Raised([])
    ensures run.Returned? && e.Some? && Truthy(e.value) ==>
      run.result == map["return_info" := InfoOf(e.value.fields), "items" := ItemsOf(e.value.fields)]
    ensures forall i :: 0 <= i < |run.ops| ==> run.ops[i].table == Table
    ensures forall i :: 0 <= i < |run.ops| - 1 ==> run.ops[i].Update?
  {
    Node(Env(Config(JStr("")), model, store), e)
  }

  /** The return-confirmation and return-update nodes behave identically. */
  lemma ConfirmationIsUpdate(model: Model, store: Store, e: Option<Json>)
    ensures ReturnConfirmationNode(model, store, e) == ReturnUpdateNode(model, store, e)
  {
  }

  /** With a description in the merged item, the configured default is
      never read. */
  lemma TierSameUnderDefault(env: Env, d: Config, issued: seq<Op>, m: Record, t: nat)
    requires "return_item_desc" in m && t < |Tiers|
    ensures TierResult(env, issued, m, t) == TierResult(env.(cfg := d), issued, m, t)
  {
  }

  lemma MatchedSameUnderDefault(env: Env, d: Config, issued: seq<Op>, m: Record)
    requires "return_item_desc" in m
    ensures Matched(env, issued, m) == Matched(env.(cfg := d), issued, m)
  {
    TierSameUnderDefault(env, d, issued, m, 0);
    TierSameUnderDefault(env, d, issued, m, 1);
    TierSameUnderDefault(env, d, issued, m, 2);
    assert TierResults(env, issued, m) == TierResults(env.(cfg := d), issued, m);
  }

  /** An item whose merge carries a description steps the same under any
      configuration. */
  lemma StepSameUnderDefault(env: Env, d: Config, info: Json, issued: seq<Op>, item: Json)
    requires info.JObj? && item.JObj? ==> "return_item_desc" in info.fields || "return_item_desc" in item.fields
    ensures ItemStep(env, info, issued, item) == ItemStep(env.(cfg := d), info, issued, item)
  {
    if info.JObj? && item.JObj? {
      var m := Merge(info.fields, item.fields);
      assert "return_item_desc" in m;
      MatchedSameUnderDefault(env, d, issued, m);
    }
  }

  /** Every item that merges carries a description, from the item or from
      the return info. */
  predicate DescPresent(info: Json, items: seq<Json>) {
    forall i :: 0 <= i < |items| && info.JObj? && items[i].JObj? ==>
      "return_item_desc" in info.fields || "return_item_desc" in items[i].fields
  }

  /** The refund node differs from the other two only in what the model sees
      for an item without a description. */
  lemma RefundAgreesWhenDescPresent(model: Model, store: Store, e: Option<Json>)
    requires e.Some? && e.value.JObj? && ItemsOf(e.value.fields).JArr? ==>
      DescPresent(InfoOf(e.value.fields), ItemsOf(e.value.fields).elems)
    ensures RefundNode(model, store, e) == ReturnConfirmationNode(model, store, e)
  {
    if e.Some? && Truthy(e.value) && e.value.JObj? && ItemsOf(e.value.fields).JArr? {
      var x := e.value.fields;
      var info := InfoOf(x);
      var items := ItemsOf(x).elems;
      var env := Env(Config(JNull), model, store);
      var env' := Env(Config(JStr("")), model, store);
      forall issued, i | 0 <= i < |items|
        ensures StepOf(env, info)(issued, items[i]) == StepOf(env', info)(issued, items[i])
      {
        StepSameUnderDefault(env, env'.cfg, info, issued, items[i]);
      }
      LoopAgrees(StepOf(env, info), StepOf(env', info), [], items);
      NodeIsItemsRun(env, e);
      NodeIsItemsRun(env', e);
      assert ItemsRun(env, info, items) == ItemsRun(env', info, items);
    }
  }
}

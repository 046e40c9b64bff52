/**
 The shipping-update node: an extracted progress report (tracking number,
 status, dates) is written to the `order_details` rows of the user that
 carry the tracking number, preferring the rows of the named order. Every
 extracted value is cleaned first: whitespace is stripped, the text "null"
 becomes None and a timestamp is cut to its date.
 */
module ShippingUpdate {
  import opened Text
  import opened Values
  import opened Store

  const Table := "order_details"

  /** The columns an update never overwrites. */
  const Immutable: set<string> := {"order_id", "user_id", "item_desc", "item_sku"}

  /** `s` starts with a date `dddd-dd-dd`. */
  predicate DatePrefix(s: string) {
    |s| >= 10 && IsDigit(s[0]) && IsDigit(s[1]) && IsDigit(s[2]) && IsDigit(s[3]) && s[4] == '-'
    && IsDigit(s[5]) && IsDigit(s[6]) && s[7] == '-' && IsDigit(s[8]) && IsDigit(s[9])
  }

  /** `clean_field`: a string is stripped, becomes None when it reads "null"
      in any case, and is cut to its first ten characters when it starts
      with a date; other values pass unchanged. */
  function CleanField(v: Json): (r: Json)
    ensures !v.JStr? ==> r == v
    ensures v.JStr? ==> (r == JNull <==> Lower(Strip(v.s)) == "null")
    ensures v.JStr? && r != JNull ==> r.JStr? && Trimmed(r.s) && r.s <= Strip(v.s)
    ensures v.JStr? && r != JNull && DatePrefix(Strip(v.s)) ==> |r.s| == 10
    ensures v.JStr? && r != JNull && !DatePrefix(Strip(v.s)) ==> r.s == Strip(v.s)
  {
    match v
    case JStr(raw) =>
      var s := Strip(raw);
      StripTrimmed(raw);
      if Lower(s) == "null" then JNull
      else if DatePrefix(s) then JStr(s[..10])
      else JStr(s)
    case _ => v
  }

  /** A cleaned value is never the text "null" and cleaning it again
      changes nothing. */
  lemma CleanFieldIdempotent(v: Json)
    ensures var r := CleanField(v);
      CleanField(r) == r && (r.JStr? ==> Lower(r.s) != "null")
  {
    var r := CleanField(v);
    if v.JStr? && r.JStr? {
      StripOfTrimmed(r.s);
      if DatePrefix(Strip(v.s)) {
        assert r.s == Strip(v.s)[..10];
        assert DatePrefix(r.s);
        assert r.s[..10] == r.s;
      }
      assert |Lower(r.s)| == |r.s|;
    }
  }

  /** A string that strips to a date-prefixed text is cut to the date. */
  lemma CleanOfDate(raw: string)
    requires DatePrefix(Strip(raw))
    ensures CleanField(JStr(raw)) == JStr(Strip(raw)[..10])
  {
    assert |Lower(Strip(raw))| >= 10;
  }

  /** A string that strips to text other than "null" without a date prefix
      is only stripped. */
  lemma CleanOfText(raw: string)
    requires !DatePrefix(Strip(raw)) && Lower(Strip(raw)) != "null"
    ensures CleanField(JStr(raw)) == JStr(Strip(raw))
  {
  }

  lemma CleanDateExample()
    ensures CleanField(JStr(" 2024-05-01T10:00:00Z ")) == JStr("2024-05-01")
  {
    var d, rest := "2024-05-01", "T10:00:00Z";
    assert " 2024-05-01T10:00:00Z " == " " + d + rest + " ";
    assert DatePrefix(d);
    CleanOfPaddedDate(" ", d, rest, " ");
  }

  /** A padded timestamp that starts with a date is cleaned to the date. */
  lemma CleanOfPaddedDate(a: string, d: string, rest: string, b: string)
    requires AllSpace(a) && AllSpace(b) && |d| == 10 && DatePrefix(d)
    requires |rest| > 0 && !IsSpace(rest[|rest| - 1])
    ensures CleanField(JStr(a + d + rest + b)) == JStr(d)
  {
    var t := d + rest;
    assert a + d + rest + b == a + t + b;
    assert t[0] == d[0] && t[|t| - 1] == rest[|rest| - 1];
    StripPadded(a, t, b);
    assert t[..10] == d;
    assert DatePrefix(t) by {
      assert forall i :: 0 <= i < 10 ==> t[i] == d[i];
    }
    CleanOfDate(a + t + b);
  }

  lemma CleanNullExample()
    ensures CleanField(JStr(" NULL")) == JNull
  {
    assert " NULL" == " " + "NULL" + "";
    StripPadded(" ", "NULL", "");
    assert Lower("NULL") == "null";
  }

  lemma CleanTextExample()
    ensures CleanField(JStr("  UPS ")) == JStr("UPS")
    ensures CleanField(JNum(3.0)) == JNum(3.0)
  {
    assert "  UPS " == "  " + "UPS" + " ";
    StripPadded("  ", "UPS", " ");
    assert Lower("UPS")[0] == 'u';
    CleanOfText("  UPS ");
  }

  /** The update payload: every extracted field except the immutable ones,
      cleaned, without those that clean to None. */
  function UpdatePayload(info: Record): (p: Record)
    ensures forall k :: k in p <==> k in info && k !in Immutable && CleanField(info[k]) != JNull
    ensures forall k :: k in p ==> p[k] == CleanField(info[k])
    ensures forall k :: k in p ==> p[k] != JNull && (p[k].JStr? ==> Trimmed(p[k].s) && Lower(p[k].s) != "null")
  {
    var p := map k | k in info && k !in Immutable && CleanField(info[k]) != JNull :: CleanField(info[k]);
    forall k | k in p
      ensures p[k].JStr? ==> Trimmed(p[k].s) && Lower(p[k].s) != "null"
    {
      CleanFieldIdempotent(info[k]);
    }
    p
  }

  /** The payload is already clean: building a payload from it gives it back. */
  lemma UpdatePayloadStable(info: Record)
    ensures UpdatePayload(UpdatePayload(info)) == UpdatePayload(info)
  {
    var p := UpdatePayload(info);
    forall k | k in p ensures CleanField(p[k]) == p[k] {
      CleanFieldIdempotent(info[k]);
    }
  }

  /** The user, the order id (empty when absent) and the tracking number of
      the report. */
  datatype Ids = Ids(userId: Json, orderId: string, tracking: string)

  /** The shipping info's values the code calls `str` methods on are text. */
  predicate InfoTyped(info: Record) {
    TextLike(Get(info, "order_id")) && TextLike(Get(info, "tracking_num"))
  }

  function IdsOf(record: Record, info: Record): (ids: Ids)
    requires InfoTyped(info)
    ensures ids.userId == Get(record, "user_id")
    ensures Trimmed(ids.orderId) && Trimmed(ids.tracking)
  {
    StripTrimmed(TextOr(Get(info, "order_id")));
    StripTrimmed(TextOr(Get(info, "tracking_num")));
    Ids(Get(record, "user_id"), Strip(TextOr(Get(info, "order_id"))), Strip(TextOr(Get(info, "tracking_num"))))
  }

  /** The best lookup: user, order and tracking number. */
  function ByOrder(ids: Ids): seq<Filter> {
    [Eq("user_id", ids.userId), Eq("order_id", JStr(ids.orderId)), Eq("tracking_num", JStr(ids.tracking))]
  }

  /** The fallback lookup: user and tracking number. */
  function ByTracking(ids: Ids): seq<Filter> {
    [Eq("user_id", ids.userId), Eq("tracking_num", JStr(ids.tracking))]
  }

  /** The rows found, and whether they came from the lookup by order. */
  datatype Found = Found(rows: seq<Record>, byOrder: bool)

  /** The lookup by order is made only when there is an order id, and the
      fallback only when it found nothing. */
  function FindRows(store: Store, ids: Ids): (f: Found)
    ensures f.byOrder <==> ids.orderId != "" && |store([], Select(Table, ByOrder(ids)))| > 0
    ensures f.byOrder ==> f.rows == store([], Select(Table, ByOrder(ids)))
    ensures !f.byOrder ==> f.rows == store([], Select(Table, ByTracking(ids)))
  {
    var first := if ids.orderId != "" then store([], Select(Table, ByOrder(ids))) else [];
    if |first| > 0 then Found(first, true)
    else Found(store([], Select(Table, ByTracking(ids))), false)
  }

  /** `where` holds of `row`: the row has every listed column at the listed
      value, so the update reaches it. */
  predicate Reaches(row: Record, where: seq<(string, Json)>) {
    forall j :: 0 <= j < |where| ==> where[j].0 in row && row[where[j].0] == where[j].1
  }

  /** Under a store that answers faithfully, every row found belongs to the
      user and carries the tracking number, and the rows of the lookup by
      order also carry the order id. */
  lemma FoundRowsMatch(store: Store, ids: Ids)
    requires Faithful(store)
    ensures var f := FindRows(store, ids);
      forall i :: 0 <= i < |f.rows| ==>
        Reaches(f.rows[i], [("user_id", ids.userId), ("tracking_num", JStr(ids.tracking))])
        && (f.byOrder ==> Reaches(f.rows[i], [("order_id", JStr(ids.orderId))]))
  {
    var f := FindRows(store, ids);
    var q := if f.byOrder then Select(Table, ByOrder(ids)) else Select(Table, ByTracking(ids));
    forall i | 0 <= i < |f.rows|
      ensures Reaches(f.rows[i], [("user_id", ids.userId), ("tracking_num", JStr(ids.tracking))])
      ensures f.byOrder ==> Reaches(f.rows[i], [("order_id", JStr(ids.orderId))])
    {
      assert f.rows == store([], q);
      assert Holds(f.rows[i], q.filters[0]);
      assert Holds(f.rows[i], q.filters[|q.filters| - 1]);
      if f.byOrder {
        assert Holds(f.rows[i], q.filters[1]);
      }
    }
  }

  /** The filter of the update of one row: user, tracking number and
      `entry_id`, and the order id when `scoped` and there is one. */
  function Where(ids: Ids, row: Record, scoped: bool): seq<(string, Json)>
    requires "entry_id" in row
  {
    [("user_id", ids.userId), ("tracking_num", JStr(ids.tracking)), ("entry_id", row["entry_id"])]
      + (if scoped && ids.orderId != "" then [("order_id", JStr(ids.orderId))] else [])
  }

  /** One update per row; a row without an `entry_id` raises, which ends
      the remaining updates. */
  function Updates(ids: Ids, rows: seq<Record>, p: Record, scoped: bool): (ops: seq<Op>)
    ensures |ops| <= |rows|
    ensures forall i :: 0 <= i < |ops| ==>
      "entry_id" in rows[i] && ops[i] == Update(Table, Where(ids, rows[i], scoped), p)
    ensures |ops| < |rows| ==> "entry_id" !in rows[|ops|]
  {
    if |rows| == 0 || "entry_id" !in rows[0] then []
    else [Update(Table, Where(ids, rows[0], scoped), p)] + Updates(ids, rows[1..], p, scoped)
  }

  /** The updates exactly as the code issues them: the order id is added to
      every update's filter whenever there is one, including for rows the
      fallback found by tracking number alone. */
  function WritesAsWritten(store: Store, ids: Ids, info: Record): (ops: seq<Op>)
    ensures forall i :: 0 <= i < |ops| ==> ops[i].Update? && ops[i].payload == UpdatePayload(info)
  {
    var f := FindRows(store, ids);
    Updates(ids, f.rows, UpdatePayload(info), true)
  }

  /** With an order id whose lookup found nothing, an update as written
      reaches the row the fallback found only if that row carries the order
      id, which the lookup by order has just reported no row of the user
      with this tracking number does. */
  lemma AsWrittenNeedsOrderId(store: Store, ids: Ids, info: Record)
    requires Faithful(store)
    requires ids.orderId != "" && |store([], Select(Table, ByOrder(ids)))| == 0
    ensures var f := FindRows(store, ids);
      var ops := WritesAsWritten(store, ids, info);
      forall i :: 0 <= i < |ops| ==>
        (Reaches(f.rows[i], ops[i].where) <==> Get(f.rows[i], "order_id") == JStr(ids.orderId))
  {
    var f := FindRows(store, ids);
    var ops := WritesAsWritten(store, ids, info);
    FoundRowsMatch(store, ids);
    forall i | 0 <= i < |ops|
      ensures Reaches(f.rows[i], ops[i].where) <==> Get(f.rows[i], "order_id") == JStr(ids.orderId)
    {
      var w := ops[i].where;
      assert w == Where(ids, f.rows[i], true);
      assert w[3] == ("order_id", JStr(ids.orderId));
      var two := [("user_id", ids.userId), ("tracking_num", JStr(ids.tracking))];
      assert Reaches(f.rows[i], two);
      assert two[0] == w[0] && two[1] == w[1];
    }
  }

  /** The updates the fallback is evidently meant to make: the order id
      narrows the update only for rows the lookup by order found. */
  function Writes(store: Store, ids: Ids, info: Record): (ops: seq<Op>)
    ensures forall i :: 0 <= i < |ops| ==> ops[i].Update? && ops[i].table == Table && ops[i].payload == UpdatePayload(info)
  {
    var f := FindRows(store, ids);
    Updates(ids, f.rows, UpdatePayload(info), f.byOrder)
  }

  /** Under a faithful store every update reaches the row it was issued for. */
  lemma WritesReachTheirRows(store: Store, ids: Ids, info: Record)
    requires Faithful(store)
    ensures var f := FindRows(store, ids);
      var ops := Writes(store, ids, info);
      |ops| <= |f.rows| && forall i :: 0 <= i < |ops| ==> Reaches(f.rows[i], ops[i].where)
  {
    var f := FindRows(store, ids);
    var ops := Writes(store, ids, info);
    FoundRowsMatch(store, ids);
    forall i | 0 <= i < |ops| ensures Reaches(f.rows[i], ops[i].where) {
      var w := ops[i].where;
      var row := f.rows[i];
      assert w == Where(ids, row, f.byOrder);
      var two := [("user_id", ids.userId), ("tracking_num", JStr(ids.tracking))];
      assert Reaches(row, two);
      assert two[0] == w[0] && two[1] == w[1];
      if f.byOrder && ids.orderId != "" {
        assert Reaches(row, [("order_id", JStr(ids.orderId))]);
        assert w[3] == ("order_id", JStr(ids.orderId));
      }
    }
  }

  /** The correction changes nothing when the rows come from the lookup by
      order or there is no order id. */
  lemma WritesAgreeOutsideFallback(store: Store, ids: Ids, info: Record)
    requires ids.orderId == "" || FindRows(store, ids).byOrder
    ensures Writes(store, ids, info) == WritesAsWritten(store, ids, info)
  {
  }

  // A concrete instance of the fallback: the only row of the table belongs
  // to the user and carries the tracking number but another order id.

  const ExampleRow: Record :=
    map["entry_id" := JNum(7.0), "user_id" := JStr("u1"), "order_id" := JStr("B2"), "tracking_num" := JStr("T9")]

  const ExampleIds := Ids(JStr("u1"), "A1", "T9")

  /** A store over a one-row table answering every select by its filters. */
  function ExampleStore(): (s: Store)
    ensures Faithful(s)
  {
    (issued: seq<Op>, q: Query) =>
      if forall j :: 0 <= j < |q.filters| ==> Holds(ExampleRow, q.filters[j]) then [ExampleRow] else []
  }

  /** The fallback finds the row, but the update as written does not reach
      it; the corrected one does. */
  lemma FallbackExample()
    ensures FindRows(ExampleStore(), ExampleIds) == Found([ExampleRow], false)
    ensures var ops := WritesAsWritten(ExampleStore(), ExampleIds, map[]);
      |ops| == 1 && !Reaches(ExampleRow, ops[0].where)
    ensures var ops := Writes(ExampleStore(), ExampleIds, map[]);
      |ops| == 1 && Reaches(ExampleRow, ops[0].where)
  {
    var s := ExampleStore();
    assert !Holds(ExampleRow, ByOrder(ExampleIds)[1]);
    assert s([], Select(Table, ByOrder(ExampleIds))) == [];
    assert Holds(ExampleRow, ByTracking(ExampleIds)[0]) && Holds(ExampleRow, ByTracking(ExampleIds)[1]);
    assert s([], Select(Table, ByTracking(ExampleIds))) == [ExampleRow];
    var bad := WritesAsWritten(s, ExampleIds, map[]);
    assert bad[0].where[3] == ("order_id", JStr("A1"));
    WritesReachTheirRows(s, ExampleIds, map[]);
  }

  /** `extracted.get("order_info", {}) or {}`. */
  function InfoOf(x: Record): Json {
    GetOrEmpty(x, "order_info", JObj(map[]))
  }

  /** How far the node gets before its lookup: nothing to do, an uncaught
      exception, or a lookup for these ids with this shipping info. */
  datatype Gate = Skip | Fail | Go(ids: Ids, info: Record)

  /** The checks before the lookup. A truthy extraction that is not an
      object, truthy shipping info that is not an object, and a truthy order
      id or tracking number that is not a string (`.strip()`) raise; without
      a user or a tracking number the node stops. */
  function Admit(record: Record, e: Option<Json>): (g: Gate)
    ensures (e.None? || !Truthy(e.value)) ==> g == Skip
    ensures e.Some? && Truthy(e.value) && !e.value.JObj? ==> g == Fail
    ensures e.Some? && Truthy(e.value) && e.value.JObj? ==>
      var info := InfoOf(e.value.fields);
      (!info.JObj? || !InfoTyped(info.fields) <==> g == Fail)
      && (info.JObj? && InfoTyped(info.fields) ==>
        var ids := IdsOf(record, info.fields);
        g == if !Truthy(ids.userId) || ids.tracking == "" then Skip else Go(ids, info.fields))
    ensures g.Go? ==> Truthy(g.ids.userId) && g.ids.tracking != ""
  {
    match e
    case None => Skip
    case Some(x) =>
      if !Truthy(x) then Skip
      else if !x.JObj? then Fail
      else
        var info := InfoOf(x.fields);
        if !info.JObj? || !InfoTyped(info.fields) then Fail
        else
          var ids := IdsOf(record, info.fields);
          if !Truthy(ids.userId) || ids.tracking == "" then Skip else Go(ids, info.fields)
  }

  /** `extract_shipping_update_node`: returns {} after the updates as the
      code issues them; a raise in the lookup or the updates is caught and
      only ends the updates. */
  function Node(store: Store, record: Record, e: Option<Json>): (run: Run)
    ensures run.Raised? <==> Admit(record, e) == Fail
    ensures run.Raised? ==> run.ops == []
    ensures run.Returned? ==> run.result == map[]
    ensures Admit(record, e) == Skip ==> run.ops == []
    ensures Admit(record, e).Go? ==> run.ops == WritesAsWritten(store, Admit(record, e).ids, Admit(record, e).info)
  {
    match Admit(record, e)
    case Skip => Returned(map[], [])
    case Fail => Raised([])
    case Go(ids, info) => Returned(map[], WritesAsWritten(store, ids, info))
  }

  /** The node as evidently intended: the same, except that the updates of
      rows found by tracking number alone are not narrowed by the order id,
      so that under a faithful store each update reaches its row. */
  function NodeIntended(store: Store, record: Record, e: Option<Json>): (run: Run)
    ensures run.Raised? <==> Node(store, record, e).Raised?
    ensures run.Returned? ==> run.result == map[]
    ensures Admit(record, e) == Skip ==> run.ops == []
    ensures Admit(record, e).Go? ==> run.ops == Writes(store, Admit(record, e).ids, Admit(record, e).info)
  {
    match Admit(record, e)
    case Skip => Returned(map[], [])
    case Fail => Raised([])
    case Go(ids, info) => Returned(map[], Writes(store, ids, info))
  }

  /** Under a faithful store every update of the intended node reaches the
      row it was issued for. */
  lemma NodeIntendedReaches(store: Store, record: Record, e: Option<Json>)
    requires Faithful(store) && Admit(record, e).Go?
    ensures var run := NodeIntended(store, record, e);
      var f := FindRows(store, Admit(record, e).ids);
      |run.ops| <= |f.rows| && forall i :: 0 <= i < |run.ops| ==> Reaches(f.rows[i], run.ops[i].where)
  {
    WritesReachTheirRows(store, Admit(record, e).ids, Admit(record, e).info);
  }

  /** The two differ only when the fallback lookup ran with an order id. */
  lemma NodeIntendedAgrees(store: Store, record: Record, e: Option<Json>)
    requires Admit(record, e).Go? ==> FindRows(store, Admit(record, e).ids).byOrder || Admit(record, e).ids.orderId == ""
    ensures NodeIntended(store, record, e) == Node(store, record, e)
  {
    if Admit(record, e).Go? {
      WritesAgreeOutsideFallback(store, Admit(record, e).ids, Admit(record, e).info);
    }
  }
}

/**
 The shipping-confirmation node: for each extracted item, find the
 `order_details` rows of the same order, user and normalised description
 (narrowed by colour, size and SKU when known), fall back to the language
 model over the rows of the order, and write the item's shipping fields to
 every row found, one update per row by its `entry_id`.
 */
module Shipping {
  import opened Text
  import opened Values
  import opened Store
  import opened Extractor
  import opened ItemDetails

  const Table := "order_details"

  /** The item's fields written to the matched rows. */
  const ShippingFields: seq<string> := [
    "item_discount", "item_shipping", "item_tax", "shipping_method", "tracking_num",
    "expected_deliv_date", "actual_deliv_date", "carrier", "status"]

  /** The order-level fields written with them. */
  const OrderFields: seq<string> := ["shipping_address", "zip_code"]

  datatype Env = Env(model: Model, store: Store)

  /** The keys an item is looked up by. */
  datatype Keys = Keys(userId: Json, orderId: string, base: string, color: Json, size: Json, sku: string)

  /** The item's values the node's code can call `str` methods on: its
      description is a string when present, its SKU and the order id are
      text or empty. */
  predicate ItemTyped(orderInfo: Record, item: Record) {
    TextLike(Get(orderInfo, "order_id"))
    && ("item_desc" in item ==> item["item_desc"].JStr?)
    && TextLike(Get(item, "item_sku"))
  }

  /** The item's raw description, stripped. */
  function RawDesc(item: Record): (s: string)
    requires "item_desc" in item ==> item["item_desc"].JStr?
    ensures Trimmed(s)
    ensures "item_desc" !in item ==> s == ""
  {
    StripTrimmed(if "item_desc" in item then item["item_desc"].s else "");
    Strip(if "item_desc" in item then item["item_desc"].s else "")
  }

  /** Keys of one item: the stripped order id, the description's base, and
      colour and size taken from the item when given, else from the
      description. */
  function ItemKeys(record: Record, orderInfo: Record, item: Record): (k: Keys)
    requires ItemTyped(orderInfo, item)
    ensures k.userId == Get(record, "user_id")
    ensures Trimmed(k.orderId) && Trimmed(k.sku) && Trimmed(k.base)
    ensures k.base == ParseItemDetails(RawDesc(item)).base
    ensures Truthy(Get(item, "item_color")) ==> k.color == item["item_color"]
    ensures !Truthy(Get(item, "item_color")) ==> k.color == JStr(ParseItemDetails(RawDesc(item)).color)
    ensures Truthy(Get(item, "item_size")) ==> k.size == item["item_size"]
    ensures !Truthy(Get(item, "item_size")) ==> k.size == JStr(ParseItemDetails(RawDesc(item)).size)
  {
    var d := ParseItemDetails(RawDesc(item));
    ParseItemDetailsShape(RawDesc(item));
    StripTrimmed(TextOr(Get(orderInfo, "order_id")));
    StripTrimmed(TextOr(Get(item, "item_sku")));
    Keys(Get(record, "user_id"),
         Strip(TextOr(Get(orderInfo, "order_id"))),
         d.base,
         Or(Get(item, "item_color"), JStr(d.color)),
         Or(Get(item, "item_size"), JStr(d.size)),
         Strip(TextOr(Get(item, "item_sku"))))
  }

  /** The user, the order and the base description are all known. */
  predicate HasKeys(k: Keys) {
    Truthy(k.userId) && k.orderId != "" && k.base != ""
  }

  /** `ilike '%v%'` when `v` is truthy, no filter otherwise. */
  function Flexible(field: string, v: Json): (fs: seq<Filter>)
    ensures Truthy(v) ==> fs == [ILike(field, v)]
    ensures !Truthy(v) ==> fs == []
  {
    if Truthy(v) then [ILike(field, v)] else []
  }

  /** The exact lookup: order, base description and user, narrowed by colour,
      size and SKU when they are known. */
  function PrimaryFilters(k: Keys): (fs: seq<Filter>)
    ensures |fs| >= 3
    ensures fs[..3] == [Eq("order_id", JStr(k.orderId)), Eq("item_desc", JStr(k.base)), Eq("user_id", k.userId)]
    ensures forall i :: 3 <= i < |fs| ==> fs[i].ILike?
    ensures ILike("item_color", k.color) in fs <==> Truthy(k.color)
    ensures ILike("item_size", k.size) in fs <==> Truthy(k.size)
    ensures ILike("item_sku", JStr(k.sku)) in fs <==> k.sku != ""
  {
    var head := [Eq("order_id", JStr(k.orderId)), Eq("item_desc", JStr(k.base)), Eq("user_id", k.userId)];
    var a, b, c := Flexible("item_color", k.color), Flexible("item_size", k.size), Flexible("item_sku", JStr(k.sku));
    FlexibleShape(head, a, b, c);
    FlexibleHas(head, "item_color", k.color, "item_size", k.size, "item_sku", JStr(k.sku));
    head + a + b + c
  }

  /** Three optional narrowings after a fixed head of equality filters: the
      head comes first and everything after it is a narrowing. */
  lemma FlexibleShape(head: seq<Filter>, a: seq<Filter>, b: seq<Filter>, c: seq<Filter>)
    requires forall x :: x in a + b + c ==> x.ILike?
    ensures var fs := head + a + b + c;
      fs[..|head|] == head && forall i :: |head| <= i < |fs| ==> fs[i].ILike?
  {
    var fs := head + a + b + c;
    assert fs == head + (a + b + c);
    assert forall i :: |head| <= i < |fs| ==> fs[i] == (a + b + c)[i - |head|];
  }

  /** Each narrowing is present exactly when its value is truthy. */
  lemma FlexibleHas(head: seq<Filter>, f1: string, v1: Json, f2: string, v2: Json, f3: string, v3: Json)
    requires forall i :: 0 <= i < |head| ==> head[i].Eq?
    requires |f1| != |f2| && |f2| != |f3| && |f3| != |f1|
    ensures var fs := head + Flexible(f1, v1) + Flexible(f2, v2) + Flexible(f3, v3);
      && (ILike(f1, v1) in fs <==> Truthy(v1))
      && (ILike(f2, v2) in fs <==> Truthy(v2))
      && (ILike(f3, v3) in fs <==> Truthy(v3))
  {
    var a, b, c := Flexible(f1, v1), Flexible(f2, v2), Flexible(f3, v3);
    InFour(head, a, b, c, ILike(f1, v1));
    InFour(head, a, b, c, ILike(f2, v2));
    InFour(head, a, b, c, ILike(f3, v3));
  }

  /** Membership in four concatenated filter lists. */
  lemma InFour(h: seq<Filter>, a: seq<Filter>, b: seq<Filter>, c: seq<Filter>, x: Filter)
    ensures x in h + a + b + c <==> x in h || x in a || x in b || x in c
  {
  }

  /** The fallback lookup: every row of the user's order. */
  function FallbackFilters(k: Keys): seq<Filter> {
    [Eq("order_id", JStr(k.orderId)), Eq("user_id", k.userId)]
  }

  /** The rows to update: the exact lookup's, else the model's choice among
      the order's rows, when it carries an `entry_id`. */
  function MatchedRows(env: Env, issued: seq<Op>, k: Keys): (rows: seq<Record>)
    ensures var primary := env.store(issued, Select(Table, PrimaryFilters(k)));
      |primary| > 0 ==> rows == primary
    ensures var primary := env.store(issued, Select(Table, PrimaryFilters(k)));
      |primary| == 0 ==> |rows| <= 1 && forall i :: 0 <= i < |rows| ==> "entry_id" in rows[i]
  {
    var primary := env.store(issued, Select(Table, PrimaryFilters(k)));
    if |primary| > 0 then primary
    else
      var best := MatchItem(env.model, JStr(k.base), env.store(issued, Select(Table, FallbackFilters(k))));
      if best != map[] then [best] else []
  }

  /** When the exact lookup is empty, the model's answer is taken as soon as
      it is an object with an `entry_id`, whether or not it is one of the
      candidates. */
  lemma FallbackTakesAnyEntry(env: Env, issued: seq<Op>, k: Keys, d: Record)
    requires |env.store(issued, Select(Table, PrimaryFilters(k)))| == 0
    requires var cands := env.store(issued, Select(Table, FallbackFilters(k)));
      |cands| > 0 && Ask(env.model, JStr(k.base), cands) == Some(JObj(d)) && "entry_id" in d
    ensures MatchedRows(env, issued, k) == [d]
  {
    MatchItemAccepts(env.model, JStr(k.base), env.store(issued, Select(Table, FallbackFilters(k))), d);
  }

  /** The update payload: the nine shipping fields of the item and the
      address and zip code of the order, None included. */
  function Payload(orderInfo: Record, item: Record): (p: Record)
    ensures p.Keys == (set f | f in ShippingFields) + (set f | f in OrderFields)
    ensures forall f :: f in ShippingFields ==> p[f] == Get(item, f)
    ensures forall f :: f in OrderFields ==> p[f] == Get(orderInfo, f)
  {
    OrderFieldsApart();
    ProjectUnion(item, orderInfo, ShippingFields, OrderFields);
    Project(item, ShippingFields) + Project(orderInfo, OrderFields)
  }

  /** The order-level fields are not item shipping fields. */
  lemma OrderFieldsApart()
    ensures forall f :: f in OrderFields ==> f !in ShippingFields
  {
  }

  /** Two projections on disjoint keys, put side by side. */
  lemma ProjectUnion(a: Record, b: Record, ka: seq<string>, kb: seq<string>)
    requires forall f :: f in kb ==> f !in ka
    ensures var p := Project(a, ka) + Project(b, kb);
      && p.Keys == (set f | f in ka) + (set f | f in kb)
      && (forall f :: f in ka ==> p[f] == Get(a, f))
      && (forall f :: f in kb ==> p[f] == Get(b, f))
  {
  }

  /** The payload never touches an identifying column. */
  lemma PayloadHasNoIdentity(orderInfo: Record, item: Record)
    ensures var p := Payload(orderInfo, item);
      "entry_id" !in p && "order_id" !in p && "user_id" !in p && "item_desc" !in p
      && "item_sku" !in p && "item_color" !in p && "item_size" !in p
  {
    IdentityNotFields();
    NotPayloadField(orderInfo, item, "entry_id");
    NotPayloadField(orderInfo, item, "order_id");
    NotPayloadField(orderInfo, item, "user_id");
    NotPayloadField(orderInfo, item, "item_desc");
    NotPayloadField(orderInfo, item, "item_sku");
    NotPayloadField(orderInfo, item, "item_color");
    NotPayloadField(orderInfo, item, "item_size");
  }

  /** None of the identifying columns is a shipping or an order field. */
  lemma IdentityNotFields()
    ensures forall f :: f in ["entry_id", "order_id", "user_id", "item_desc", "item_sku", "item_color", "item_size"] ==>
      f !in ShippingFields && f !in OrderFields
  {
  }

  /** A column outside both field lists is not in the payload. */
  lemma NotPayloadField(orderInfo: Record, item: Record, f: string)
    requires f !in ShippingFields && f !in OrderFields
    ensures f !in Payload(orderInfo, item)
  {
  }

  /** Every value is None. */
  predicate AllNull(p: Record) {
    forall f :: f in p ==> p[f] == JNull
  }

  /** One update per row, by the row's `entry_id`; a row without one raises,
      which ends the item's updates (the exception is caught per item). */
  function RowUpdates(rows: seq<Record>, p: Record): (ops: seq<Op>)
    ensures |ops| <= |rows|
    ensures forall i :: 0 <= i < |ops| ==>
      "entry_id" in rows[i] && ops[i] == Update(Table, [("entry_id", rows[i]["entry_id"])], p)
    ensures |ops| < |rows| ==> "entry_id" !in rows[|ops|]
  {
    if |rows| == 0 || "entry_id" !in rows[0] then []
    else
      var rest := RowUpdates(rows[1..], p);
      [Update(Table, [("entry_id", rows[0]["entry_id"])], p)] + rest
  }

  /** Every update is by `entry_id` and carries the payload. */
  lemma RowUpdatesByEntry(rows: seq<Record>, p: Record)
    ensures forall i :: 0 <= i < |RowUpdates(rows, p)| ==>
      ByEntry(RowUpdates(rows, p)[i]) && RowUpdates(rows, p)[i].payload == p
  {
  }

  /** Every row with an `entry_id` is updated. */
  lemma AllRowsUpdated(rows: seq<Record>, p: Record)
    requires forall i :: 0 <= i < |rows| ==> "entry_id" in rows[i]
    ensures |RowUpdates(rows, p)| == |rows|
  {
  }

  /** An update of one `order_details` row by its `entry_id`. */
  predicate ByEntry(op: Op) {
    op.Update? && op.table == Table && |op.where| == 1 && op.where[0].0 == "entry_id"
  }

  /** The writes for one item. */
  function ShipItem(env: Env, issued: seq<Op>, record: Record, orderInfo: Record, item: Record): (ops: seq<Op>)
    requires ItemTyped(orderInfo, item)
    ensures !HasKeys(ItemKeys(record, orderInfo, item)) ==> ops == []
    ensures AllNull(Payload(orderInfo, item)) ==> ops == []
    ensures forall i :: 0 <= i < |ops| ==> ByEntry(ops[i]) && ops[i].payload == Payload(orderInfo, item)
  {
    var k := ItemKeys(record, orderInfo, item);
    if !HasKeys(k) then []
    else
      var rows := MatchedRows(env, issued, k);
      var p := Payload(orderInfo, item);
      if |rows| == 0 || AllNull(p) then []
      else
        RowUpdatesByEntry(rows, p);
        RowUpdates(rows, p)
  }

  /** With all keys, rows and a non-empty payload, each row of the exact
      lookup (while they carry an `entry_id`) is updated, in order. */
  lemma ShipItemUpdatesPrimary(env: Env, issued: seq<Op>, record: Record, orderInfo: Record, item: Record)
    requires ItemTyped(orderInfo, item)
    requires var k := ItemKeys(record, orderInfo, item);
      HasKeys(k) && |env.store(issued, Select(Table, PrimaryFilters(k)))| > 0
    requires !AllNull(Payload(orderInfo, item))
    ensures var k := ItemKeys(record, orderInfo, item);
      ShipItem(env, issued, record, orderInfo, item)
      == RowUpdates(env.store(issued, Select(Table, PrimaryFilters(k))), Payload(orderInfo, item))
  {
  }

  /** The item passes the statements before the `try` without raising: the
      order info and the item are objects, and the values they strip are
      strings (or, for the order id and the SKU, falsy). */
  predicate ItemOk(info: Json, item: Json) {
    info.JObj? && item.JObj? && ItemTyped(info.fields, item.fields)
  }

  /** Some item raises before its `try`. */
  predicate SomeItemRaises(info: Json, items: seq<Json>) {
    exists i :: 0 <= i < |items| && !ItemOk(info, items[i])
  }

  /** The writes of the loop, and whether an item raised, which ends the
      loop and the node. */
  datatype Shipped = Shipped(ops: seq<Op>, raised: bool)

  /** The writes for all items, each item seeing the earlier items' writes;
      the first item that raises ends the loop after the earlier items'
      writes. */
  function ShipItems(env: Env, issued: seq<Op>, record: Record, info: Json, items: seq<Json>): (s: Shipped)
    ensures s.raised <==> SomeItemRaises(info, items)
    decreases |items|
  {
    if |items| == 0 then Shipped([], false)
    else if !ItemOk(info, items[0]) then Shipped([], true)
    else
      var here := ShipItem(env, issued, record, info.fields, items[0].fields);
      var rest := ShipItems(env, issued + here, record, info, items[1..]);
      assert rest.raised <==> SomeItemRaises(info, items) by {
        assert forall i :: 1 <= i < |items| ==> items[1..][i - 1] == items[i];
        if rest.raised {
          var j :| 0 <= j < |items| - 1 && !ItemOk(info, items[1..][j]);
          assert !ItemOk(info, items[j + 1]);
        }
      }
      Shipped(here + rest.ops, rest.raised)
  }

  /** Every write of the loop updates one row by its `entry_id`. */
  lemma {:induction false} ShipItemsByEntry(env: Env, issued: seq<Op>, record: Record, info: Json, items: seq<Json>)
    ensures forall i :: 0 <= i < |ShipItems(env, issued, record, info, items).ops| ==>
      ByEntry(ShipItems(env, issued, record, info, items).ops[i])
    decreases |items|
  {
    if |items| > 0 && ItemOk(info, items[0]) {
      var here := ShipItem(env, issued, record, info.fields, items[0].fields);
      var rest := ShipItems(env, issued + here, record, info, items[1..]);
      ShipItemsByEntry(env, issued + here, record, info, items[1..]);
      assert ShipItems(env, issued, record, info, items).ops == here + rest.ops;
      ConcatByEntry(here, rest.ops);
    }
  }

  /** Updates by `entry_id`, put one after the other. */
  lemma ConcatByEntry(a: seq<Op>, b: seq<Op>)
    requires forall i :: 0 <= i < |a| ==> ByEntry(a[i])
    requires forall i :: 0 <= i < |b| ==> ByEntry(b[i])
    ensures forall i :: 0 <= i < |a + b| ==> ByEntry((a + b)[i])
  {
  }

  /** `extracted.get("order_info", {}) or {}`. */
  function OrderInfoOf(x: Record): Json {
    GetOrEmpty(x, "order_info", JObj(map[]))
  }

  /** `extracted.get("items", []) or []`. */
  function ItemsOf(x: Record): Json {
    GetOrEmpty(x, "items", JArr([]))
  }

  /** `extract_shipping_node`: returns {} and issues updates only. A truthy
      extraction that is not an object raises at `extracted.get`, and truthy
      items that are not a list raise before any write (iterating a string
      or an object yields strings); the first item that raises before its
      `try` ends the node after the earlier items' updates. */
  function Node(env: Env, record: Record, e: Option<Json>): (run: Run)
    ensures run.Returned? ==> run.result == map[]
    ensures (e.None? || !Truthy(e.value)) ==> run == Returned(map[], [])
    ensures e.Some? && Truthy(e.value) && !e.value.JObj? ==> run == Raised([])
    ensures e.Some? && Truthy(e.value) && e.value.JObj? && !ItemsOf(e.value.fields).JArr? ==> run == Raised([])
    ensures e.Some? && Truthy(e.value) && e.value.JObj? && ItemsOf(e.value.fields).JArr? ==>
      (run.Raised? <==> SomeItemRaises(OrderInfoOf(e.value.fields), ItemsOf(e.value.fields).elems))
    ensures forall i :: 0 <= i < |run.ops| ==> ByEntry(run.ops[i])
  {
    match e
    case None => Returned(map[], [])
    case Some(x) =>
      if !Truthy(x) then Returned(map[], [])
      else if !x.JObj? then Raised([])
      else
        var items := ItemsOf(x.fields);
        if !items.JArr? then Raised([])
        else
          var info := OrderInfoOf(x.fields);
          ShipItemsByEntry(env, [], record, info, items.elems);
          var s := ShipItems(env, [], record, info, items.elems);
          if s.raised then Raised(s.ops) else Returned(map[], s.ops)
  }
}

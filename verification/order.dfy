/**
 The order-confirmation node: every extracted item becomes one
 `order_details` row combining the user, the order-level fields and the
 item's fields, with the description normalised into base, colour and size;
 all rows go to the store in a single insert.
 */
module Order {
  import opened Text
  import opened Values
  import opened Store
  import opened ItemDetails

  const Table := "order_details"

  const OrderFields: seq<string> := [
    "retailer", "order_id", "order_date", "order_total", "tax_total",
    "shipping_total", "discount_total", "shipping_address", "zip_code", "archive_flag"]

  const ItemFields: seq<string> := [
    "item_desc", "item_price", "item_sku", "item_qty", "item_color", "item_size",
    "item_discount", "image_name", "item_tax", "item_shipping", "shipping_method",
    "tracking_num", "expected_deliv_date", "status", "carrier", "actual_deliv_date"]

  /** The item fields the node rewrites rather than copies. */
  const Normalised: set<string> := {"item_desc", "item_color", "item_size", "item_sku"}

  /** The keys of every row built. */
  function RowKeys(): set<string> {
    {"user_email", "user_id"} + (set f | f in OrderFields) + (set f | f in ItemFields)
  }

  /** The description the node can strip: text or falsy. */
  predicate ItemTyped(item: Record) {
    TextLike(Get(item, "item_desc"))
  }

  /** The normalised parts of the item's description. */
  function DetailsOf(item: Record): Details
    requires ItemTyped(item)
  {
    ParseItemDetails(Strip(TextOr(Get(item, "item_desc"))))
  }

  /** `extracted or parsed or None` for colour and size. */
  function Pick(given: Json, parsed: string): (v: Json)
    ensures Truthy(given) ==> v == given
    ensures !Truthy(given) && parsed != "" ==> v == JStr(parsed)
    ensures !Truthy(given) && parsed == "" ==> v == JNull
  {
    Or(Or(given, JStr(parsed)), JNull)
  }

  /** No column is both an order field and an item field, so merging the two
      parts overrides nothing. */
  lemma FieldListsDisjoint()
    ensures forall f :: f in OrderFields ==> f !in ItemFields
  {
    forall i | 0 <= i < |OrderFields| ensures OrderFields[i] !in ItemFields {
      var f := OrderFields[i];
      forall j | 0 <= j < |ItemFields| ensures f != ItemFields[j] {
        var g := ItemFields[j];
        if |f| == |g| {
          assert f[0] != g[0] || f[1] != g[1] || f[2] != g[2] || f[3] != g[3] || f[4] != g[4] || f[5] != g[5] || f[6] != g[6];
        }
      }
    }
  }

  /** The user columns are neither order nor item fields. */
  lemma UserOutsideFieldLists()
    ensures "user_email" !in OrderFields && "user_email" !in ItemFields
    ensures "user_id" !in OrderFields && "user_id" !in ItemFields
  {
    assert NoneStartsWith(OrderFields, 'u') && NoneStartsWith(ItemFields, 'u');
    StartsWithNotIn(OrderFields, "user_email");
    StartsWithNotIn(ItemFields, "user_email");
    StartsWithNotIn(OrderFields, "user_id");
    StartsWithNotIn(ItemFields, "user_id");
  }

  /** Every name in `fs` is non-empty and starts with something other than `c`. */
  predicate NoneStartsWith(fs: seq<string>, c: char) {
    forall i :: 0 <= i < |fs| ==> |fs[i]| > 0 && fs[i][0] != c
  }

  lemma StartsWithNotIn(fs: seq<string>, name: string)
    requires |name| > 0 && NoneStartsWith(fs, name[0])
    ensures name !in fs
  {
  }

  /** `{**user, **{f: info.get(f) for f in orderFields}, **itemData}` where
      `itemData` is `{f: item.get(f) for f in itemFields}` with the entries of
      `fixed` written over it. */
  function Assemble(user: Record, info: Record, item: Record, orderFields: seq<string>,
                    itemFields: seq<string>, fixed: Record): (row: Record)
    requires forall f :: f in fixed ==> f in itemFields
    ensures row.Keys == user.Keys + (set f | f in orderFields) + (set f | f in itemFields)
    ensures forall f :: f in fixed ==> row[f] == fixed[f]
    ensures forall f :: f in itemFields && f !in fixed ==> row[f] == Get(item, f)
    ensures forall f :: f in orderFields && f !in itemFields ==> row[f] == Get(info, f)
    ensures forall f :: f in user && f !in orderFields && f !in itemFields ==> row[f] == user[f]
  {
    user + Project(info, orderFields) + (Project(item, itemFields) + fixed)
  }

  /** The normalised description, colour, size and SKU of an item. */
  function Fixed(item: Record): (m: Record)
    requires ItemTyped(item)
    ensures m.Keys == Normalised
    ensures m["item_desc"] == JStr(DetailsOf(item).base)
    ensures m["item_color"] == Pick(Get(item, "item_color"), DetailsOf(item).color)
    ensures m["item_size"] == Pick(Get(item, "item_size"), DetailsOf(item).size)
    ensures m["item_sku"] == Or(Get(item, "item_sku"), JStr("")) && m["item_sku"] != JNull
  {
    var d := DetailsOf(item);
    map["item_desc" := JStr(d.base),
        "item_color" := Pick(Get(item, "item_color"), d.color),
        "item_size" := Pick(Get(item, "item_size"), d.size),
        "item_sku" := Or(Get(item, "item_sku"), JStr(""))]
  }

  lemma NormalisedAreItemFields()
    ensures forall f :: f in Normalised ==> f in ItemFields
  {
    assert ItemFields[0] == "item_desc" && ItemFields[2] == "item_sku";
    assert ItemFields[4] == "item_color" && ItemFields[5] == "item_size";
  }

  /** One row: user, the ten order fields and the sixteen item fields, with
      the base description, colour and size normalised and a SKU that is
      never None. */
  function BuildRow(record: Record, info: Record, item: Record): (row: Record)
    requires ItemTyped(item)
    ensures row.Keys == RowKeys()
  {
    NormalisedAreItemFields();
    Assemble(UserPart(record), info, item, OrderFields, ItemFields, Fixed(item))
  }

  /** The user columns of the email record. */
  function UserPart(record: Record): (user: Record)
    ensures user.Keys == {"user_email", "user_id"}
    ensures user["user_email"] == Get(record, "user_email") && user["user_id"] == Get(record, "user_id")
  {
    map["user_email" := Get(record, "user_email"), "user_id" := Get(record, "user_id")]
  }

  /** A user column outside both field lists keeps the user's value. */
  lemma AssembleKeepsUser(user: Record, info: Record, item: Record, orderFields: seq<string>,
                          itemFields: seq<string>, fixed: Record, f: string)
    requires forall g :: g in fixed ==> g in itemFields
    requires f in user && f !in orderFields && f !in itemFields
    ensures Assemble(user, info, item, orderFields, itemFields, fixed)[f] == user[f]
  {
  }

  /** The description is the base of the normalised description; colour and
      size are the extracted values when truthy, else the parsed ones when
      non-empty, else None; the SKU is never None. */
  lemma BuildRowNormalises(record: Record, info: Record, item: Record)
    requires ItemTyped(item)
    ensures var row := BuildRow(record, info, item);
      row["item_desc"] == JStr(DetailsOf(item).base)
      && row["item_color"] == Pick(Get(item, "item_color"), DetailsOf(item).color)
      && row["item_size"] == Pick(Get(item, "item_size"), DetailsOf(item).size)
      && row["item_sku"] == Or(Get(item, "item_sku"), JStr("")) && row["item_sku"] != JNull
  {
    var fixed := Fixed(item);
    assert "item_desc" in fixed && "item_color" in fixed && "item_size" in fixed && "item_sku" in fixed;
  }

  /** The user columns come from the email record. */
  lemma BuildRowCopiesUser(record: Record, info: Record, item: Record)
    requires ItemTyped(item)
    ensures var row := BuildRow(record, info, item);
      row["user_email"] == Get(record, "user_email") && row["user_id"] == Get(record, "user_id")
  {
    UserOutsideFieldLists();
    NormalisedAreItemFields();
    var user := UserPart(record);
    AssembleKeepsUser(user, info, item, OrderFields, ItemFields, Fixed(item), "user_email");
    AssembleKeepsUser(user, info, item, OrderFields, ItemFields, Fixed(item), "user_id");
  }

  /** The ten order columns come from the order info, absent ones as None. */
  lemma BuildRowCopiesOrder(record: Record, info: Record, item: Record)
    requires ItemTyped(item)
    ensures var row := BuildRow(record, info, item);
      forall f :: f in OrderFields ==> row[f] == Get(info, f)
  {
    FieldListsDisjoint();
  }

  /** The item columns other than the normalised four come from the item,
      absent ones as None. */
  lemma BuildRowCopiesItem(record: Record, info: Record, item: Record)
    requires ItemTyped(item)
    ensures var row := BuildRow(record, info, item);
      forall f :: f in ItemFields && f !in Normalised ==> row[f] == Get(item, f)
  {
  }

  /** The order part of a row gives back the projection of the order info:
      every row of one email carries the same order fields. */
  lemma OrderPartRecovered(record: Record, info: Record, item: Record)
    requires ItemTyped(item)
    ensures Project(BuildRow(record, info, item), OrderFields) == Project(info, OrderFields)
  {
    var row := BuildRow(record, info, item);
    BuildRowCopiesOrder(record, info, item);
    assert forall f :: f in OrderFields ==> f in RowKeys();
    ProjectAgree(row, info, OrderFields);
  }

  /** The description stored is the normalised base, which carries no
      surrounding whitespace, and an empty description gives empty parts. */
  lemma RowDescriptionNormalised(record: Record, info: Record, item: Record)
    requires ItemTyped(item)
    ensures var row := BuildRow(record, info, item);
      row["item_desc"].JStr? && Trimmed(row["item_desc"].s) && NoNewline(row["item_desc"].s)
    ensures !Truthy(Get(item, "item_desc")) ==>
      var row := BuildRow(record, info, item);
      row["item_desc"] == JStr("") && row["item_color"] == Or(Get(item, "item_color"), JNull)
      && row["item_size"] == Or(Get(item, "item_size"), JNull)
  {
    BuildRowNormalises(record, info, item);
    ParseItemDetailsShape(Strip(TextOr(Get(item, "item_desc"))));
    if !Truthy(Get(item, "item_desc")) {
      assert Strip("") == "";
    }
  }

  /** `extracted.get("order_info", {}) or {}`. */
  function InfoOf(x: Record): Json {
    GetOrEmpty(x, "order_info", JObj(map[]))
  }

  /** `extracted.get("items", []) or []`. */
  function ItemsOf(x: Record): Json {
    GetOrEmpty(x, "items", JArr([]))
  }

  /** The items are objects with a description the node can strip. */
  predicate ItemsOk(elems: seq<Json>) {
    forall i :: 0 <= i < |elems| ==> elems[i].JObj? && ItemTyped(elems[i].fields)
  }

  /** The extraction is one the node processes without raising. A truthy
      extraction that is not an object (`extracted.get`), truthy order info
      that is not an object (`raw_order_info.get`), truthy items that are not
      a list (iterating a string or an object yields strings, and `.get`
      fails on them), an item that is not an object, and a truthy
      `item_desc` that is not a string (`.strip()`) each raise. */
  predicate ExtractionOk(e: Option<Json>) {
    match e
    case None => true
    case Some(x) =>
      !Truthy(x) || (x.JObj? && InfoOf(x.fields).JObj? && ItemsOf(x.fields).JArr? && ItemsOk(ItemsOf(x.fields).elems))
  }

  /** The rows of all items, in order. */
  function BuildRows(record: Record, info: Record, elems: seq<Json>): (rows: seq<Record>)
    requires ItemsOk(elems)
    ensures |rows| == |elems|
    ensures forall i :: 0 <= i < |elems| ==> rows[i] == BuildRow(record, info, elems[i].fields)
  {
    seq(|elems|, i requires 0 <= i < |elems| && ItemsOk(elems) => BuildRow(record, info, elems[i].fields))
  }

  /** `extract_order_node`: returns {}; issues exactly one insert, of one
      row per item in order, when there are items, and nothing otherwise.
      Every exception comes before the insert, so a raise writes nothing. */
  function Node(record: Record, e: Option<Json>): (run: Run)
    ensures run.Raised? <==> !ExtractionOk(e)
    ensures run.Raised? ==> run.ops == []
    ensures run.Returned? ==> run.result == map[]
    ensures (e.None? || !Truthy(e.value)) ==> run == Returned(map[], [])
    ensures ExtractionOk(e) && e.Some? && Truthy(e.value) ==>
      var items := ItemsOf(e.value.fields).elems;
      (|items| == 0 ==> run.ops == [])
      && (|items| > 0 ==>
            |run.ops| == 1 && run.ops[0].Insert? && run.ops[0].table == Table && |run.ops[0].rows| == |items|
            && forall i :: 0 <= i < |items| ==>
                 run.ops[0].rows[i] == BuildRow(record, InfoOf(e.value.fields).fields, items[i].fields))
  {
    if !ExtractionOk(e) then Raised([])
    else
      match e
      case None => Returned(map[], [])
      case Some(x) =>
        if !Truthy(x) then Returned(map[], [])
        else
          var rows := BuildRows(record, InfoOf(x.fields).fields, ItemsOf(x.fields).elems);
          if |rows| == 0 then Returned(map[], []) else Returned(map[], [Insert(Table, rows)])
  }

  /** All rows of one insert agree on the user and the order fields. */
  lemma RowsShareOrder(record: Record, e: Option<Json>, i: nat, j: nat)
    requires var ops := Node(record, e).ops; |ops| == 1 && i < |ops[0].rows| && j < |ops[0].rows|
    ensures var rows := Node(record, e).ops[0].rows;
      Project(rows[i], OrderFields) == Project(rows[j], OrderFields)
      && rows[i]["user_id"] == rows[j]["user_id"] && rows[i]["user_email"] == rows[j]["user_email"]
  {
    assert ExtractionOk(e) && e.Some? && Truthy(e.value);
    var x := e.value;
    var info := InfoOf(x.fields).fields;
    var items := ItemsOf(x.fields).elems;
    OrderPartRecovered(record, info, items[i].fields);
    OrderPartRecovered(record, info, items[j].fields);
    BuildRowCopiesUser(record, info, items[i].fields);
    BuildRowCopiesUser(record, info, items[j].fields);
  }

  /** "Men's Slim Jeans. Blue, 32" with no colour or size given becomes a row
      with base, colour and size split out. */
  lemma JeansRowExample(record: Record, info: Record)
    ensures var item := map["item_desc" := JStr("Men's Slim Jeans. Blue, 32")];
      var row := BuildRow(record, info, item);
      row["item_desc"] == JStr("Men's Slim Jeans") && row["item_color"] == JStr("Blue")
      && row["item_size"] == JStr("32") && row["item_sku"] == JStr("")
  {
    var item := map["item_desc" := JStr("Men's Slim Jeans. Blue, 32")];
    JeansItem(item);
    BuildRowNormalises(record, info, item);
  }

  /** The item's description parses to its three parts; it has no colour,
      size or SKU of its own. */
  lemma JeansItem(item: Record)
    requires item == map["item_desc" := JStr("Men's Slim Jeans. Blue, 32")]
    ensures ItemTyped(item) && DetailsOf(item) == Details("Men's Slim Jeans", "Blue", "32")
    ensures Get(item, "item_color") == JNull && Get(item, "item_size") == JNull && Get(item, "item_sku") == JNull
  {
    JeansStripped();
    OneLineExample();
  }

  lemma JeansStripped()
    ensures Strip("Men's Slim Jeans. Blue, 32") == "Men's Slim Jeans. Blue, 32"
  {
    StripOfTrimmed("Men's Slim Jeans. Blue, 32");
  }
}

/**
 The workflow graph: the entry node classifies the message, the router maps
 the category string to one pipeline node (or to the end), and every
 pipeline node ends the run.
 */
module Router {
  import opened Values
  import opened Text

  /** The router's targets: the six pipeline nodes and END. */
  datatype Target =
    | Order
    | Refund
    | Shipping
    | ShippingUpdate
    | ReturnUpdate
    | ReturnConfirmation
    | End

  /** `router`: substring tests on the lower-cased category in a fixed
      priority order; an absent category is treated as "". */
  function Route(category: Option<string>): (r: Target)
  {
    var c := Lower(match category case Some(s) => s case None => "");
    if Contains(c, "order confirmation") then Order
    else if Contains(c, "refund") then Refund
    else if Contains(c, "shipping confirmation") || Contains(c, "order update") then Shipping
    else if Contains(c, "shipping update") then ShippingUpdate
    else if Contains(c, "return update") then ReturnUpdate
    else if Contains(c, "return confirmation") then ReturnConfirmation
    else End
  }

  /** The seven key phrases of the routing table. */
  predicate HasKey(c: string) {
    || Contains(c, "order confirmation")
    || Contains(c, "refund")
    || Contains(c, "shipping confirmation")
    || Contains(c, "order update")
    || Contains(c, "shipping update")
    || Contains(c, "return update")
    || Contains(c, "return confirmation")
  }

  /** The router only sees the lower-cased category. */
  lemma RouteIgnoresCase(c: string)
    ensures Route(Some(c)) == Route(Some(Lower(c)))
  {
    LowerIdempotent(c);
  }

  lemma RouteOfAbsent()
    ensures Route(None) == End
    ensures Route(Some("")) == End
  {
    MissingCharNotContained("", "order confirmation", 'o');
    MissingCharNotContained("", "refund", 'r');
    MissingCharNotContained("", "shipping confirmation", 's');
    MissingCharNotContained("", "order update", 'o');
    MissingCharNotContained("", "shipping update", 's');
    MissingCharNotContained("", "return update", 'r');
    MissingCharNotContained("", "return confirmation", 'r');
  }

  /** "order confirmation" wins over every other key. */
  lemma OrderConfirmationFirst(c: string)
    requires Contains(Lower(c), "order confirmation")
    ensures Route(Some(c)) == Order
  {
  }

  /** Without "order confirmation", "refund" beats the shipping and return keys. */
  lemma RefundBeatsShippingAndReturns(c: string)
    requires !Contains(Lower(c), "order confirmation") && Contains(Lower(c), "refund")
    ensures Route(Some(c)) == Refund
  {
  }

  /** "order update" and "shipping confirmation" are checked before "shipping update". */
  lemma OrderUpdateBeforeShippingUpdate(c: string)
    requires !Contains(Lower(c), "order confirmation") && !Contains(Lower(c), "refund")
    requires Contains(Lower(c), "order update") || Contains(Lower(c), "shipping confirmation")
    ensures Route(Some(c)) == Shipping
  {
  }

  /** A category containing "return update" never reaches the return-confirmation
      node, whatever else it contains. */
  lemma ReturnUpdateNeverConfirmation(c: string)
    requires Contains(Lower(c), "return update")
    ensures Route(Some(c)) != ReturnConfirmation
  {
  }

  /** END exactly when none of the keys occurs in the lower-cased category. */
  lemma EndIffNoKey(c: string)
    ensures Route(Some(c)) == End <==> !HasKey(Lower(c))
  {
  }

  /** Routing of a lower-case category decided by which keys it contains. */
  lemma RouteOfLowerCase(c: string)
    requires NoUpper(c)
    ensures Route(Some(c)) == Route(Some(Lower(c)))
    ensures Lower(c) == c
  {
    LowerOfNoUpper(c);
  }

  lemma SharedExample()
    ensures Route(Some("we've shipped your order update")) == Shipping
  {
    var c := "we've shipped your order update";
    SharedExampleLetters();
    SharedExampleKey();
    MissingCharNotContained(c, "order confirmation", 'f');
    MissingCharNotContained(c, "refund", 'f');
    ContainsAt(c, "order update", 19);
    RouteOfLowerCase(c);
    OrderUpdateBeforeShippingUpdate(c);
  }

  lemma SharedExampleLetters()
    ensures NoUpper("we've shipped your order update")
    ensures 'f' in "order confirmation" && 'f' in "refund" && 'f' !in "we've shipped your order update"
  {
  }

  lemma SharedExampleKey()
    ensures "we've shipped your order update"[19..31] == "order update"
  {
  }

  lemma ReturnUpdateExample()
    ensures Route(Some("return update requested")) == ReturnUpdate
  {
    var c := "return update requested";
    ReturnUpdateExampleLetters();
    LowerOfNoUpper(c);
    MissingCharNotContained(c, "order confirmation", 'f');
    MissingCharNotContained(c, "refund", 'f');
    MissingCharNotContained(c, "shipping confirmation", 'f');
    MissingCharNotContained(c, "order update", 'o');
    MissingCharNotContained(c, "shipping update", 'h');
    ContainsAt(c, "return update", 0);
    ReturnUpdateBeforeConfirmation(c);
  }

  lemma ReturnUpdateExampleLetters()
    ensures NoUpper("return update requested")
    ensures 'f' !in "return update requested" && 'o' !in "return update requested"
    ensures 'h' !in "return update requested"
    ensures "return update requested"[0..13] == "return update"
  {
  }

  /** With none of the earlier keys, "return update" is checked before
      "return confirmation". */
  lemma ReturnUpdateBeforeConfirmation(c: string)
    requires !Contains(Lower(c), "order confirmation") && !Contains(Lower(c), "refund")
    requires !Contains(Lower(c), "shipping confirmation") && !Contains(Lower(c), "order update")
    requires !Contains(Lower(c), "shipping update") && Contains(Lower(c), "return update")
    ensures Route(Some(c)) == ReturnUpdate
  {
  }

  /** The ignored categories of the taxonomy go to END. */
  lemma IgnoredCategoriesEnd(c: string)
    requires c == "promos" || c == "goods receipt" || c == "services receipt"
    ensures Route(Some(c)) == End
  {
    assert NoUpper(c) && 'f' !in c && 'u' !in c;
    NoKeyWithoutLetters(c);
  }

  /** So does "unknown", the classifier's fallback. */
  lemma UnknownEnd()
    ensures Route(Some("unknown")) == End
  {
    assert NoUpper("unknown") && 'f' !in "unknown" && 'd' !in "unknown" && 'h' !in "unknown";
    NoKeyWithoutLetters("unknown");
  }

  /** Every key contains an 'f' or a 'u' together with a 'd' or an 'h':
      a lower-case category lacking these letters has no key. */
  lemma NoKeyWithoutLetters(c: string)
    requires NoUpper(c)
    requires 'f' !in c
    requires 'u' !in c || ('d' !in c && 'h' !in c)
    ensures Route(Some(c)) == End
  {
    RouteOfLowerCase(c);
    EndIffNoKey(c);
    MissingCharNotContained(c, "order confirmation", 'f');
    MissingCharNotContained(c, "refund", 'f');
    MissingCharNotContained(c, "shipping confirmation", 'f');
    MissingCharNotContained(c, "return confirmation", 'f');
    if 'u' !in c {
      MissingCharNotContained(c, "order update", 'u');
      MissingCharNotContained(c, "shipping update", 'u');
      MissingCharNotContained(c, "return update", 'u');
    } else {
      MissingCharNotContained(c, "order update", 'd');
      MissingCharNotContained(c, "shipping update", 'h');
      MissingCharNotContained(c, "return update", 'd');
    }
  }

  /** The nodes of the compiled graph. */
  datatype Node = Classify | Stage(target: Target)

  /** The edge table: the classifier's conditional edge through the router,
      and an unconditional edge from every pipeline node to END. END has no
      successor. */
  function Successors(n: Node): (s: set<Node>)
  {
    match n
    case Classify => set r: Target | true :: Stage(r)
    case Stage(End) => {}
    case Stage(_) => {Stage(End)}
  }

  /** Distance to END. */
  function Height(n: Node): nat {
    match n
    case Classify => 2
    case Stage(End) => 0
    case Stage(_) => 1
  }

  /** Every edge goes strictly down in height, so the graph has no cycle and
      every run is classify, at most one pipeline node, END. */
  lemma EdgesDescend(n: Node, m: Node)
    requires m in Successors(n)
    ensures Height(m) < Height(n)
    ensures n != Classify ==> m == Stage(End)
    ensures m != Classify
  {
  }

  /** The classifier's edge goes where the router says. */
  lemma ClassifyEdgeIsRouter(category: Option<string>)
    ensures Stage(Route(category)) in Successors(Classify)
  {
  }

  /** A path of nodes following edges. */
  ghost predicate IsPath(p: seq<Node>) {
    forall i :: 0 <= i < |p| - 1 ==> p[i + 1] in Successors(p[i])
  }

  /** Along a path the height drops by at least one per step. */
  lemma {:induction false} PathDescends(p: seq<Node>)
    requires |p| > 0 && IsPath(p)
    ensures Height(p[|p| - 1]) + |p| - 1 <= Height(p[0])
    decreases |p|
  {
    if |p| > 1 {
      PathDescends(p[..|p| - 1]);
      EdgesDescend(p[|p| - 2], p[|p| - 1]);
    }
  }

  /** No path has more than three nodes: classify, one pipeline node, END. */
  lemma PathsAreShort(p: seq<Node>)
    requires |p| > 0 && IsPath(p)
    ensures |p| <= 3
  {
    PathDescends(p);
  }
}

// packages/k8s-baseline/src/trusted-node-label-controller-kubernetes.ts,
// listCandidateNodes: two paginated label-selector queries merged into one list
// of Nodes, whatever the server answers.
module NodeListing {
  import opened Wrappers
  import opened Json
  import opened TrustedNodeLabel
  import opened NodeDocument
  import opened LabelAgreement
  import opened NodeProtocol

  datatype ListError = ResponseInvalid | Unauthorized | TransportFailed | NodeBoundExceeded | PaginationInvalid

  const MAX_PAGES := 12
  const MAX_CONTINUATION := 1024

  /** What a request may come back with; the body is `None` when it is no JSON. */
  datatype Response = NoResponse | Response(status: int, body: Option<Json>)

  /** One served page: the continuation it was asked with and the body. */
  datatype Page = Page(asked: Option<string>, body: Json)

  function ItemsOf(body: Json): seq<Json> {
    match Member(body, "items")
    case Some(Arr(items)) => items
    case _ => []
  }

  predicate IsNodeList(body: Json) {
    && Member(body, "apiVersion") == Some(Str("v1")) && Member(body, "kind") == Some(Str("NodeList"))
    && Member(body, "items").Some? && Member(body, "items").value.Arr?
  }

  function NextOf(body: Json): Option<Json> { Member(Part(body, "metadata"), "continue") }

  predicate IsLast(body: Json) { NextOf(body) == None || NextOf(body) == Some(Str("")) }

  function AllItems(pages: seq<Page>): seq<Json> {
    if pages == [] then [] else AllItems(pages[..|pages| - 1]) + ItemsOf(pages[|pages| - 1].body)
  }

  /** Each page was asked with the continuation of the page before, and no continuation came twice. */
  ghost predicate Chained(pages: seq<Page>) {
    && (pages != [] ==> pages[0].asked == None)
    && (forall i | 0 < i < |pages| ::
          pages[i].asked.Some? && NextOf(pages[i - 1].body) == Some(Str(pages[i].asked.value))
          && 0 < |pages[i].asked.value| <= 1024)
    && (forall i, j | 0 < i < j < |pages| :: pages[i].asked != pages[j].asked)
  }

  /** A whole listing of one selector, from the first page to the one without a continuation. */
  ghost predicate Complete(pages: seq<Page>) {
    && 0 < |pages| <= 12 && Chained(pages) && IsLast(pages[|pages| - 1].body)
    && forall i | 0 <= i < |pages| :: IsNodeList(pages[i].body)
  }

  ghost predicate DistinctNodes(nodes: seq<NodeSnapshot>) {
    forall i, j | 0 <= i < j < |nodes| :: nodes[i].uid != nodes[j].uid && nodes[i].name != nodes[j].name
  }

  /** The Nodes are those of the items, each item being readable. */
  ghost predicate ExactlyNodesOf(nodes: seq<NodeSnapshot>, items: seq<Json>) {
    && (forall x | x in items :: ParseNode(x).Some? && ParseNode(x).value in nodes)
    && (forall n | n in nodes :: exists x :: x in items && ParseNode(x) == Some(n))
  }

  /** One item with more than 256 labels is enough: no listing that was served it succeeds. */
  lemma OverlabelledItemFailsListing(nodes: seq<NodeSnapshot>, items: seq<Json>, item: Json)
    requires item in items && IsNodeObject(item) && |LabelsOf(item)| > 256
    ensures !ExactlyNodesOf(nodes, items)
  {
    OverlabelledIsUnreadable(item);
    hide ParseNode;
  }

  /** A document that the API server issued under the version it carries, at some time up to this state. */
  predicate Issued(s: State, x: Json) {
    IsNodeObject(x) && Version(x) in s.issued && s.issued[Version(x)] == x
  }

  /** What a listing of issued documents returns is what the protocol allows the controller to have read. */
  lemma ListedWereRead(s: State, nodes: seq<NodeSnapshot>, items: seq<Json>)
    requires ExactlyNodesOf(nodes, items) && forall x | x in items :: Issued(s, x)
    ensures forall n | n in nodes :: ReadEarlier(s, n)
  {
    hide ParseNode, IsNodeObject;
    forall n | n in nodes ensures ReadEarlier(s, n) {
      var x :| x in items && ParseNode(x) == Some(n);
      assert Issued(s, x);
      ParsedNode(x, n);
    }
  }

  /** A page as the API server prints it, the last one without a continuation. */
  function PrintPage(items: seq<Json>, next: Option<string>): Json {
    var metadata := Obj(match next case Some(c) => map["continue" := Str(c)] case None => map[]);
    Obj(map["apiVersion" := Str("v1"), "kind" := Str("NodeList"), "metadata" := metadata, "items" := Arr(items)])
  }

  lemma PrintedPage(items: seq<Json>, next: Option<string>)
    ensures var page := PrintPage(items, next);
            && IsNodeList(page) && ItemsOf(page) == items
            && (IsLast(page) <==> next in {None, Some("")})
            && (next.Some? ==> NextOf(page) == Some(Str(next.value)))
  {
  }

  lemma NodeListIff(body: Json)
    ensures IsNodeList(body) <==>
            && body.Obj? && "apiVersion" in body.fields && body.fields["apiVersion"] == Str("v1")
            && "kind" in body.fields && body.fields["kind"] == Str("NodeList")
            && "items" in body.fields && body.fields["items"].Arr?
  {
  }

  // ----- merging the items

  predicate Clashes(a: NodeSnapshot, b: NodeSnapshot) { a != b && (a.uid == b.uid || a.name == b.name) }

  /** One more item. A Node that was listed before must be the same, and its text too, unless it is `reordered`. */
  function AddTo(nodes: seq<NodeSnapshot>, item: Json, maxNodes: nat,
                 reordered: bool): Result<seq<NodeSnapshot>, ListError>
  {
    match ParseNode(item)
    case None => Err(ResponseInvalid)
    case Some(node) =>
      if exists n | n in nodes :: Clashes(n, node) then Err(ResponseInvalid)
      else if node in nodes then if reordered then Err(ResponseInvalid) else Ok(nodes)
      else if |nodes| >= maxNodes then Err(NodeBoundExceeded)
      else Ok(nodes + [node])
  }

  /**
   * The Nodes of all items so far. Labels are compared as texts, so that of an equal Node may differ: `reordered`
   * tells it by the number of the item.
   */
  function Merge(items: seq<Json>, maxNodes: nat, reordered: nat -> bool): Result<seq<NodeSnapshot>, ListError> {
    if items == [] then Ok([])
    else
      var n := |items| - 1;
      match Merge(items[..n], maxNodes, reordered)
      case Err(e) => Err(e)
      case Ok(nodes) => AddTo(nodes, items[n], maxNodes, reordered(n))
  }

  lemma MergeNext(items: seq<Json>, item: Json, maxNodes: nat, reordered: nat -> bool, nodes: seq<NodeSnapshot>)
    requires Merge(items, maxNodes, reordered) == Ok(nodes)
    ensures Merge(items + [item], maxNodes, reordered) == AddTo(nodes, item, maxNodes, reordered(|items|))
  {
    assert (items + [item])[..|items|] == items;
  }

  /** A listing that has failed does not recover. */
  lemma {:induction false} MergeFails(items: seq<Json>, more: seq<Json>, maxNodes: nat, reordered: nat -> bool)
    requires Merge(items, maxNodes, reordered).Err?
    ensures Merge(items + more, maxNodes, reordered) == Merge(items, maxNodes, reordered)
  {
    if more == [] {
      assert items + more == items;
    } else {
      var n := |more| - 1;
      MergeFails(items, more[..n], maxNodes, reordered);
      assert (items + more)[..|items| + n] == items + more[..n];
    }
  }

  /** The Nodes that the items so far are read as. */
  function NodesIn(items: seq<Json>): set<NodeSnapshot> {
    set x | x in items && ParseNode(x).Some? :: ParseNode(x).value
  }

  ghost predicate AllReadable(items: seq<Json>) { forall x | x in items :: ParseNode(x).Some? }

  ghost predicate NoClash(items: seq<Json>) {
    forall m, n | m in NodesIn(items) && n in NodesIn(items) :: !Clashes(m, n)
  }

  /** No item repeats an earlier Node with its labels in another order. */
  ghost predicate SameTexts(items: seq<Json>, reordered: nat -> bool) {
    forall j: nat | j < |items| && reordered(j) ::
      forall node | ParseNode(items[j]) == Some(node) :: node !in NodesIn(items[..j])
  }

  lemma NodesInNext(items: seq<Json>, item: Json)
    ensures NodesIn(items + [item]) == match ParseNode(item) case Some(node) => NodesIn(items) + {node}
                                                            case None => NodesIn(items)
  {
    hide ParseNode;
    assert forall x :: x in items + [item] <==> x in items || x == item;
  }

  lemma SameTextsNext(items: seq<Json>, item: Json, reordered: nat -> bool)
    ensures SameTexts(items + [item], reordered) <==>
            SameTexts(items, reordered) &&
            (reordered(|items|) ==> forall node | ParseNode(item) == Some(node) :: node !in NodesIn(items))
  {
    hide ParseNode, NodesIn;
    var longer := items + [item];
    assert forall j: nat | j < |items| :: longer[j] == items[j] && longer[..j] == items[..j];
    assert longer[|items|] == item && longer[..|items|] == items;
  }

  /**
   * The items make up a list of Nodes exactly when each can be read, no two are different Nodes of one uid or name,
   * none repeats another in a new order, and there are no more different ones than allowed.
   */
  lemma {:induction false} MergeIff(items: seq<Json>, maxNodes: nat, reordered: nat -> bool)
    ensures Merge(items, maxNodes, reordered).Ok? <==>
            AllReadable(items) && NoClash(items) && SameTexts(items, reordered) && |NodesIn(items)| <= maxNodes
    ensures Merge(items, maxNodes, reordered).Ok? ==>
              var nodes := Merge(items, maxNodes, reordered).value;
              |nodes| == |NodesIn(items)| && forall n :: n in nodes <==> n in NodesIn(items)
  {
    hide ParseNode;
    if items != [] {
      var n := |items| - 1;
      var front, item := items[..n], items[n];
      assert items == front + [item];
      MergeIff(front, maxNodes, reordered);
      NodesInNext(front, item);
      SameTextsNext(front, item, reordered);
      MergeStep(front, item, maxNodes, reordered);
    } else {
      assert NodesIn(items) == {};
    }
  }

  lemma MergeStep(front: seq<Json>, item: Json, maxNodes: nat, reordered: nat -> bool)
    requires var m := Merge(front, maxNodes, reordered);
             && (m.Ok? <==> AllReadable(front) && NoClash(front) && SameTexts(front, reordered)
                            && |NodesIn(front)| <= maxNodes)
             && (m.Ok? ==> |m.value| == |NodesIn(front)| && forall n :: n in m.value <==> n in NodesIn(front))
    requires NodesIn(front + [item]) == match ParseNode(item) case Some(node) => NodesIn(front) + {node}
                                                             case None => NodesIn(front)
    requires SameTexts(front + [item], reordered) <==>
             SameTexts(front, reordered) &&
             (reordered(|front|) ==> forall node | ParseNode(item) == Some(node) :: node !in NodesIn(front))
    ensures var m := Merge(front + [item], maxNodes, reordered);
            && (m.Ok? <==>
                AllReadable(front + [item]) && NoClash(front + [item]) && SameTexts(front + [item], reordered)
                           && |NodesIn(front + [item])| <= maxNodes)
            && (m.Ok? ==> |m.value| == |NodesIn(front + [item])|
                          && forall n :: n in m.value <==> n in NodesIn(front + [item]))
  {
    hide ParseNode, NodesIn, SameTexts;
    var items := front + [item];
    assert forall x :: x in items <==> x in front || x == item;
    assert items[..|front|] == front && items[|front|] == item;
    if Merge(front, maxNodes, reordered).Err? {
      MergeFails(front, [item], maxNodes, reordered);
      hide Merge;
      assert AllReadable(items) ==> AllReadable(front);
      assert NoClash(items) ==> NoClash(front);
      assert |NodesIn(front)| <= |NodesIn(items)| by {
        SubsetSize(NodesIn(front), NodesIn(items));
      }
    } else {
      var nodes := Merge(front, maxNodes, reordered).value;
      MergeNext(front, item, maxNodes, reordered, nodes);
      hide Merge;
      assert ParseNode(item).None? ==> !AllReadable(items);
      if ParseNode(item).Some? {
        var node := ParseNode(item).value;
        assert AllReadable(items);
        var known := NodesIn(front);
        assert NoClash(items) <==> forall n | n in nodes :: !Clashes(n, node);
        assert |known + {node}| == |known| + if node in nodes then 0 else 1 by {
          if node in known {
            assert known + {node} == known;
          }
        }
      }
    }
  }

  lemma SubsetSize(a: set<NodeSnapshot>, b: set<NodeSnapshot>)
    requires a <= b
    ensures |a| <= |b|
  {
    assert b == a + (b - a);
  }

  // ----- the pages of one selector

  /** What the API server answers to each request: its number, the selector and the continuation. */
  type Server = (nat, string, Option<string>) -> Response

  /** The pages are what the server answers to the requests from number `start` on. */
  ghost predicate Served(server: Server, selector: string, start: nat, pages: seq<Page>) {
    forall i | 0 <= i < |pages| ::
      server(start + i, selector, pages[i].asked) == Response(200, Some(pages[i].body))
  }

  /** No whole listing that the server has from this request on consists of items that can be merged with these. */
  ghost predicate NoListing(server: Server, selector: string, start: nat, items: seq<Json>, maxNodes: nat,
                            reordered: nat -> bool)
  {
    forall q: seq<Page> | Complete(q) && Served(server, selector, start, q) ::
      Merge(items + AllItems(q), maxNodes, reordered).Err?
  }

  lemma NothingServed(server: Server, selector: string, start: nat)
    ensures Served(server, selector, start, [])
  {
  }

  lemma ServedNext(server: Server, selector: string, start: nat, pages: seq<Page>, page: Page)
    requires Served(server, selector, start, pages)
    requires server(start + |pages|, selector, page.asked) == Response(200, Some(page.body))
    ensures Served(server, selector, start, pages + [page])
  {
  }

  /** Every whole listing begins with the pages so far, which all have a successor. */
  lemma {:induction false} Extends(server: Server, selector: string, start: nat, pages: seq<Page>,
                                   continuation: Option<string>, seen: set<string>, q: seq<Page>, i: nat)
    requires ReadyFor(pages, continuation, seen) && Served(server, selector, start, pages) && i <= |pages|
    requires Complete(q) && Served(server, selector, start, q)
    ensures |q| > i && (forall j | 0 <= j < i :: q[j] == pages[j])
    ensures q[i].asked == if i < |pages| then pages[i].asked else continuation
  {
    hide IsNodeList;
    if i > 0 {
      var k := i - 1;
      Extends(server, selector, start, pages, continuation, seen, q, k);
      assert server(start + k, selector, q[k].asked) == Response(200, Some(q[k].body));
      assert server(start + k, selector, pages[k].asked) == Response(200, Some(pages[k].body));
      var next := if i < |pages| then pages[i].asked else continuation;
      assert NextOf(pages[k].body) == Some(Str(next.value)) && |next.value| > 0;
      assert !IsLast(q[k].body);
    }
  }

  lemma {:induction false} AllItemsSplit(pages: seq<Page>, more: seq<Page>)
    ensures AllItems(pages + more) == AllItems(pages) + AllItems(more)
  {
    hide ItemsOf;
    if more == [] {
      assert pages + more == pages;
    } else {
      var n := |more| - 1;
      AllItemsSplit(pages, more[..n]);
      assert (pages + more)[..|pages| + n] == pages + more[..n];
    }
  }

  /** The page after the pages so far: served to the next request, and with a continuation not seen before. */
  lemma NextPageOf(server: Server, selector: string, start: nat, pages: seq<Page>, continuation: Option<string>,
                   seen: set<string>, q: seq<Page>)
    requires ReadyFor(pages, continuation, seen) && Served(server, selector, start, pages)
    requires Complete(q) && Served(server, selector, start, q)
    ensures |q| > |pages| && q[..|pages|] == pages
    ensures server(start + |pages|, selector, continuation) == Response(200, Some(q[|pages|].body))
    ensures IsNodeList(q[|pages|].body) && (IsLast(q[|pages|].body) || HasNewNext(q[|pages|].body, seen))
  {
    var n := |pages|;
    Extends(server, selector, start, pages, continuation, seen, q, n);
    hide IsNodeList, NextOf, AllItems;
    if !IsLast(q[n].body) {
      NewNext(pages, continuation, seen, q);
    }
  }

  ghost predicate HasNewNext(body: Json, seen: set<string>) {
    exists c :: NextOf(body) == Some(Str(c)) && |c| <= MAX_CONTINUATION && c !in seen
  }

  lemma NewNext(pages: seq<Page>, continuation: Option<string>, seen: set<string>, q: seq<Page>)
    requires ReadyFor(pages, continuation, seen) && Complete(q) && |q| > |pages| && q[..|pages|] == pages
    requires q[|pages|].asked == continuation && !IsLast(q[|pages|].body)
    ensures HasNewNext(q[|pages|].body, seen)
  {
    hide IsNodeList, NextOf, AllItems;
    var n := |pages|;
    var c := q[n + 1].asked.value;
    assert NextOf(q[n].body) == Some(Str(c));
    assert forall i | 0 < i < n :: q[i] == pages[i];
    assert forall i | 0 < i <= n :: q[i].asked != q[n + 1].asked;
  }

  lemma ItemsAround(pages: seq<Page>, page: Page, more: seq<Page>)
    ensures AllItems(pages + [page] + more) == AllItems(pages) + ItemsOf(page.body) + AllItems(more)
  {
    AllItemsSplit(pages + [page], more);
    ItemsNext(pages, page);
    hide ItemsOf, AllItems;
  }

  lemma Around<T>(q: seq<T>, n: nat)
    requires n < |q|
    ensures q == q[..n] + [q[n]] + q[n + 1..]
  {
  }

  lemma ItemsAfter(pages: seq<Page>, q: seq<Page>)
    requires |q| > |pages| && q[..|pages|] == pages
    ensures AllItems(q) == AllItems(pages) + ItemsOf(q[|pages|].body) + AllItems(q[|pages| + 1..])
  {
    hide ItemsOf, AllItems;
    Around(q, |pages|);
    ItemsAround(pages, q[|pages|], q[|pages| + 1..]);
  }

  /** An answer after which the listing goes on or is done; `items` are those of all pages before. */
  ghost predicate CanGoOn(r: Response, seen: set<string>, items: seq<Json>, maxNodes: nat, reordered: nat -> bool) {
    && r.Response? && r.status == 200 && r.body.Some? && IsNodeList(r.body.value)
    && Merge(items + ItemsOf(r.body.value), maxNodes, reordered).Ok?
    && (IsLast(r.body.value) || HasNewNext(r.body.value, seen))
  }

  lemma GoesOn(server: Server, selector: string, start: nat, pages: seq<Page>, continuation: Option<string>,
               seen: set<string>, items: seq<Json>, maxNodes: nat, reordered: nat -> bool, q: seq<Page>)
    requires ReadyFor(pages, continuation, seen) && Served(server, selector, start, pages)
    requires Complete(q) && Served(server, selector, start, q)
    requires Merge(items + AllItems(q), maxNodes, reordered).Ok?
    ensures CanGoOn(server(start + |pages|, selector, continuation), seen, items + AllItems(pages), maxNodes, reordered)
  {
    hide ReadyFor, Served, Complete, IsNodeList, ItemsOf, IsLast, HasNewNext, AllItems, Merge;
    NextPageOf(server, selector, start, pages, continuation, seen, q);
    ItemsAfter(pages, q);
    MergesSoFar(items, AllItems(pages), ItemsOf(q[|pages|].body), AllItems(q[|pages| + 1..]), maxNodes, reordered);
  }

  lemma MergesSoFar(items: seq<Json>, had: seq<Json>, next: seq<Json>, rest: seq<Json>, maxNodes: nat,
                    reordered: nat -> bool)
    requires Merge(items + (had + next + rest), maxNodes, reordered).Ok?
    ensures Merge(items + had + next, maxNodes, reordered).Ok?
  {
    hide Merge;
    assert items + (had + next + rest) == items + had + next + rest;
    if Merge(items + had + next, maxNodes, reordered).Err? {
      MergeFails(items + had + next, rest, maxNodes, reordered);
    }
  }

  /** What the next answer must be for there to be a listing at all. */
  lemma Blocked(server: Server, selector: string, start: nat, pages: seq<Page>, continuation: Option<string>,
                seen: set<string>, items: seq<Json>, maxNodes: nat, reordered: nat -> bool)
    requires ReadyFor(pages, continuation, seen) && Served(server, selector, start, pages)
    requires !CanGoOn(server(start + |pages|, selector, continuation), seen, items + AllItems(pages), maxNodes,
                      reordered)
    ensures NoListing(server, selector, start, items, maxNodes, reordered)
  {
    hide ReadyFor, Served, Complete, CanGoOn, AllItems, Merge;
    forall q: seq<Page> | Complete(q) && Served(server, selector, start, q)
      ensures Merge(items + AllItems(q), maxNodes, reordered).Err?
    {
      if Merge(items + AllItems(q), maxNodes, reordered).Ok? {
        GoesOn(server, selector, start, pages, continuation, seen, items, maxNodes, reordered, q);
      }
    }
  }

  lemma TooManyPages(server: Server, selector: string, start: nat, pages: seq<Page>, continuation: Option<string>,
                     seen: set<string>, items: seq<Json>, maxNodes: nat, reordered: nat -> bool)
    requires ReadyFor(pages, continuation, seen) && Served(server, selector, start, pages) && |pages| == MAX_PAGES
    ensures NoListing(server, selector, start, items, maxNodes, reordered)
  {
    forall q: seq<Page> | Complete(q) && Served(server, selector, start, q) ensures false {
      Extends(server, selector, start, pages, continuation, seen, q, |pages|);
    }
  }

  /** The maps tell whether a Node clashes with one of the list. */
  lemma ClashIff(byUid: map<string, NodeSnapshot>, byName: map<string, string>, nodes: seq<NodeSnapshot>,
                 node: NodeSnapshot)
    requires Indexed(byUid, byName, nodes)
    ensures (node.name in byName && byName[node.name] != node.uid) || (node.uid in byUid && byUid[node.uid] != node)
            <==> exists n | n in nodes :: Clashes(n, node)
    ensures node in nodes ==> node.uid in byUid
  {
    if n :| n in nodes && Clashes(n, node) {
      assert byUid[n.uid] == n && byName[n.name] == n.uid;
    }
    if node.name in byName && byName[node.name] != node.uid {
      assert Clashes(byUid[byName[node.name]], node);
    } else if node.uid in byUid && byUid[node.uid] != node {
      assert Clashes(byUid[node.uid], node);
    }
  }

  lemma {:induction false} MergeErrors(items: seq<Json>, maxNodes: nat, reordered: nat -> bool)
    requires Merge(items, maxNodes, reordered).Err?
    ensures Merge(items, maxNodes, reordered).error in {ResponseInvalid, NodeBoundExceeded}
  {
    hide ParseNode;
    if items != [] && Merge(items[..|items| - 1], maxNodes, reordered).Err? {
      MergeErrors(items[..|items| - 1], maxNodes, reordered);
    }
  }

  /** Both maps index exactly the Nodes of the list. */
  ghost predicate Indexed(byUid: map<string, NodeSnapshot>, byName: map<string, string>, nodes: seq<NodeSnapshot>) {
    && (forall n | n in nodes :: n.uid in byUid && byUid[n.uid] == n && n.name in byName && byName[n.name] == n.uid)
    && (forall u | u in byUid :: byUid[u] in nodes && byUid[u].uid == u)
    && (forall m | m in byName :: byName[m] in byUid && byUid[byName[m]].name == m)
  }

  lemma IndexNew(byUid: map<string, NodeSnapshot>, byName: map<string, string>, nodes: seq<NodeSnapshot>,
                 node: NodeSnapshot)
    requires Indexed(byUid, byName, nodes) && DistinctNodes(nodes)
    requires node.uid !in byUid && node.name !in byName
    ensures Indexed(byUid[node.uid := node], byName[node.name := node.uid], nodes + [node])
    ensures DistinctNodes(nodes + [node])
  {
    assert forall n | n in nodes + [node] :: n in nodes || n == node;
    assert forall i | 0 <= i < |nodes| :: nodes[i] in nodes;
  }

  /** A name that is taken by another uid is known before the uid is looked at. */
  lemma NewNameOfNewUid(byUid: map<string, NodeSnapshot>, byName: map<string, string>, nodes: seq<NodeSnapshot>,
                        node: NodeSnapshot)
    requires Indexed(byUid, byName, nodes) && node.uid !in byUid
    requires node.name in byName ==> byName[node.name] == node.uid
    ensures node.name !in byName
  {
  }

  lemma IndexedNode(byUid: map<string, NodeSnapshot>, byName: map<string, string>, nodes: seq<NodeSnapshot>,
                    uid: string)
    requires Indexed(byUid, byName, nodes) && uid in byUid
    ensures byUid[uid] in nodes
  {
  }

  lemma NotIndexedNode(byUid: map<string, NodeSnapshot>, byName: map<string, string>, nodes: seq<NodeSnapshot>,
                       node: NodeSnapshot)
    requires Indexed(byUid, byName, nodes) && node.uid !in byUid
    ensures node !in nodes
  {
  }

  lemma ExactNext(nodes: seq<NodeSnapshot>, items: seq<Json>, item: Json, node: NodeSnapshot)
    requires ExactlyNodesOf(nodes, items) && ParseNode(item) == Some(node)
    ensures ExactlyNodesOf(if node in nodes then nodes else nodes + [node], items + [item])
  {
    hide ParseNode;
    var longer := if node in nodes then nodes else nodes + [node];
    forall n | n in longer ensures exists x :: x in items + [item] && ParseNode(x) == Some(n) {
      if n in nodes {
        var x :| x in items && ParseNode(x) == Some(n);
        assert x in items + [item];
      } else {
        assert item in items + [item];
      }
    }
  }

  /** The two maps that the page loops fill. A JavaScript `Map` keeps insertion order: `order` is it. */
  class Listing {
    const maxNodes: nat
    const server: Server
    const reordered: nat -> bool
    var nodesByUid: map<string, NodeSnapshot>
    var uidByName: map<string, string>
    var order: seq<NodeSnapshot>
    var merged: nat
    var requests: nat
    ghost var items: seq<Json>
    ghost var answer: Response

    ghost predicate Valid()
      reads this
    {
      |order| <= maxNodes && DistinctNodes(order) && ExactlyNodesOf(order, items) && merged == |items|
        && Indexed(nodesByUid, uidByName, order) && Merge(items, maxNodes, reordered) == Ok(order)
    }

    constructor (maxNodes: nat, server: Server, reordered: nat -> bool)
      ensures Valid() && this.maxNodes == maxNodes && this.server == server && this.reordered == reordered
      ensures items == [] && requests == 0
    {
      this.maxNodes, this.server, this.reordered := maxNodes, server, reordered;
      nodesByUid, uidByName, order, merged, requests, items, answer := map[], map[], [], 0, 0, [], NoResponse;
    }

    method AddItem(item: Json) returns (error: Option<ListError>)
      requires Valid()
      modifies this
      ensures error.None? ==> Valid() && items == old(items) + [item]
      ensures error.Some? ==> Merge(old(items) + [item], maxNodes, reordered) == Err(error.value)
      ensures requests == old(requests) && answer == old(answer)
    {
      hide ParseNode, Indexed, DistinctNodes, ExactlyNodesOf, Merge;
      MergeNext(items, item, maxNodes, reordered, order);
      var parsed := ParseNode(item);
      if parsed.None? {
        return Some(ResponseInvalid);
      }
      var node := parsed.value;
      ExactNext(order, items, item, node);
      ClashIff(nodesByUid, uidByName, order, node);
      if (node.name in uidByName && uidByName[node.name] != node.uid)
         || (node.uid in nodesByUid && nodesByUid[node.uid] != node)
      {
        return Some(ResponseInvalid);
      }
      if node.uid in nodesByUid {
        IndexedNode(nodesByUid, uidByName, order, node.uid);
        if reordered(merged) {
          return Some(ResponseInvalid);
        }
        items, merged := items + [item], merged + 1;
        return None;
      }
      error := Insert(item, node);
    }

    method Insert(item: Json, node: NodeSnapshot) returns (error: Option<ListError>)
      requires Valid() && ParseNode(item) == Some(node) && node.uid !in nodesByUid
      requires node.name in uidByName ==> uidByName[node.name] == node.uid
      modifies this
      ensures error.None? ==> Valid() && items == old(items) + [item]
      ensures error.Some? ==> Merge(old(items) + [item], maxNodes, reordered) == Err(error.value)
      ensures requests == old(requests) && answer == old(answer)
    {
      hide ParseNode, Indexed, DistinctNodes, ExactlyNodesOf, Merge;
      MergeNext(items, item, maxNodes, reordered, order);
      ClashIff(nodesByUid, uidByName, order, node);
      NewNameOfNewUid(nodesByUid, uidByName, order, node);
      NotIndexedNode(nodesByUid, uidByName, order, node);
      ExactNext(order, items, item, node);
      IndexNew(nodesByUid, uidByName, order, node);
      uidByName := uidByName[node.name := node.uid];
      nodesByUid := nodesByUid[node.uid := node];
      order := order + [node];
      if |order| > maxNodes {
        return Some(NodeBoundExceeded);
      }
      items, merged := items + [item], merged + 1;
      error := None;
    }

    method AddItems(newItems: seq<Json>) returns (error: Option<ListError>)
      requires Valid()
      modifies this
      ensures error.None? ==> Valid() && items == old(items) + newItems
      ensures error.Some? ==> Merge(old(items) + newItems, maxNodes, reordered) == Err(error.value)
      ensures requests == old(requests) && answer == old(answer)
    {
      hide ParseNode, Indexed, DistinctNodes, ExactlyNodesOf, Merge;
      for i := 0 to |newItems|
        invariant Valid() && items == old(items) + newItems[..i] && requests == old(requests)
                  && answer == old(answer)
      {
        ghost var before := items;
        error := AddItem(newItems[i]);
        if error.Some? {
          MergeFails(before + [newItems[i]], newItems[i + 1..], maxNodes, reordered);
          assert old(items) + newItems == before + [newItems[i]] + newItems[i + 1..];
          return;
        }
        assert newItems[..i + 1] == newItems[..i] + [newItems[i]];
      }
      error := None;
    }

    /** One GET. */
    method Get(selector: string, continuation: Option<string>) returns (response: Response)
      modifies this`requests, this`answer
      ensures requests == old(requests) + 1 && response == server(old(requests), selector, continuation) == answer
    {
      response := server(requests, selector, continuation);
      requests, answer := requests + 1, response;
    }

    /**
     * `collect`: every page of one selector, at most twelve. It fails only when no twelve pages or fewer, served from
     * here on, would be a whole listing of items that can be merged.
     */
    method Collect(selector: string) returns (error: Option<ListError>, ghost pages: seq<Page>)
      requires Valid()
      modifies this
      ensures requests <= old(requests) + MAX_PAGES
      ensures error.None? ==> Valid() && items == old(items) + AllItems(pages) && Complete(pages)
      ensures error.None? ==> Served(server, selector, old(requests), pages) && requests == old(requests) + |pages|
      ensures error.Some? ==> NoListing(server, selector, old(requests), old(items), maxNodes, reordered)
      ensures requests > old(requests)
      ensures error == Some(TransportFailed) <==> answer.NoResponse? || answer.status !in {200, 401, 403}
      ensures error == Some(Unauthorized) <==> answer.Response? && answer.status in {401, 403}
      ensures error in {Some(ResponseInvalid), Some(NodeBoundExceeded)} && answer.body.Some?
              && IsNodeList(answer.body.value) ==>
                Merge(old(items) + AllItems(pages) + ItemsOf(answer.body.value), maxNodes, reordered)
                  == Err(error.value)
      ensures error == Some(PaginationInvalid) ==> Valid() && items == old(items) + AllItems(pages)
    {
      pages := [];
      var seen: set<string> := {};
      var continuation: Option<string> := None;
      ghost var start, had := requests, items;
      hide Indexed, DistinctNodes, ExactlyNodesOf, IsNodeList, NextOf, ItemsOf, AllItems, ReadyFor, Complete, Merge,
           Served, NoListing;
      NoPages();
      NothingServed(server, selector, start);
      for page := 0 to MAX_PAGES
        invariant Valid() && items == old(items) + AllItems(pages) && |pages| == page
                  && requests == old(requests) + page
        invariant ReadyFor(pages, continuation, seen) && Served(server, selector, start, pages)
        invariant page > 0 ==> answer.Response? && answer.status == 200
      {
        var response := Get(selector, continuation);
        if !CanGoOn(response, seen, items, maxNodes, reordered) {
          Blocked(server, selector, start, pages, continuation, seen, had, maxNodes, reordered);
        }
        if response.NoResponse? {
          return Some(TransportFailed), pages;
        }
        if response.status == 401 || response.status == 403 {
          return Some(Unauthorized), pages;
        }
        if response.status != 200 {
          return Some(TransportFailed), pages;
        }
        if response.body.None? || !IsNodeList(response.body.value) {
          return Some(ResponseInvalid), pages;
        }
        var body := response.body.value;
        error := AddItems(ItemsOf(body));
        if error.Some? {
          MergeErrors(had + AllItems(pages) + ItemsOf(body), maxNodes, reordered);
          return;
        }
        ghost var before := pages;
        pages := pages + [Page(continuation, body)];
        ItemsNext(before, Page(continuation, body));
        ServedNext(server, selector, start, before, Page(continuation, body));
        var next := NextOf(body);
        if next == None || next == Some(Str("")) {
          LastPage(before, continuation, seen, body);
          return None, pages;
        }
        if !next.value.Str? || |next.value.s| > MAX_CONTINUATION || next.value.s in seen {
          return Some(PaginationInvalid), pages;
        }
        MorePages(before, continuation, seen, body, next.value.s);
        seen := seen + {next.value.s};
        continuation := Some(next.value.s);
      }
      TooManyPages(server, selector, start, pages, continuation, seen, had, maxNodes, reordered);
      error := Some(PaginationInvalid);
    }

    /** Both selectors: the candidates of the node group and the Nodes that carry the label. */
    method ListCandidateNodes(key: string, value: string, nodeGroupName: string)
      returns (result: Result<seq<NodeSnapshot>, ListError>, ghost first: seq<Page>, ghost second: seq<Page>)
      requires Valid() && items == [] && requests == 0
      modifies this
      ensures requests <= 24
      ensures result.Ok? ==> IsSelectorKey(key) && IsLabelText(value) && IsLabelText(nodeGroupName)
      ensures result.Ok? ==>
                && Served(server, "eks.amazonaws.com/nodegroup=" + nodeGroupName, 0, first)
                && Served(server, key + "=" + value, |first|, second)
                && Merge(AllItems(first) + AllItems(second), maxNodes, reordered) == Ok(result.value)
      ensures !IsSelectorKey(key) || !IsLabelText(value) || !IsLabelText(nodeGroupName) ==>
                result == Err(ResponseInvalid) && requests == 0
      ensures IsSelectorKey(key) && IsLabelText(value) && IsLabelText(nodeGroupName) ==>
                (result.Ok? <==> IsListable(server, "eks.amazonaws.com/nodegroup=" + nodeGroupName, key + "=" + value,
                                            maxNodes, reordered))
      ensures result.Ok? ==> Complete(first) && Complete(second)
      ensures result.Ok? ==> ExactlyNodesOf(result.value, AllItems(first) + AllItems(second))
      ensures result.Ok? ==> DistinctNodes(result.value) && |result.value| <= maxNodes
    {
      hide Indexed, DistinctNodes, ExactlyNodesOf, Complete, IsSelectorKey, IsLabelText, Served, NoListing, Merge;
      first, second := [], [];
      if !IsSelectorKey(key) || !IsLabelText(value) || !IsLabelText(nodeGroupName) {
        return Err(ResponseInvalid), first, second;
      }
      var error: Option<ListError>;
      var group, labelled := "eks.amazonaws.com/nodegroup=" + nodeGroupName, key + "=" + value;
      error, first := Collect(group);
      if error.Some? {
        NoFirstListing(server, group, labelled, maxNodes, reordered);
        return Err(error.value), first, second;
      }
      assert items == AllItems(first);
      error, second := Collect(labelled);
      if error.Some? {
        NoSecondListing(server, group, labelled, maxNodes, reordered, first);
        return Err(error.value), first, second;
      }
      assert items == AllItems(first) + AllItems(second);
      Listable(server, group, labelled, maxNodes, reordered, first, second);
      result := Ok(order);
    }
  }

  /** The server has two whole listings, one after the other, whose items can be merged. */
  ghost predicate IsListable(server: Server, group: string, labelled: string, maxNodes: nat, reordered: nat -> bool) {
    exists first: seq<Page>, second: seq<Page> ::
      && Complete(first) && Served(server, group, 0, first)
      && Complete(second) && Served(server, labelled, |first|, second)
      && Merge(AllItems(first) + AllItems(second), maxNodes, reordered).Ok?
  }

  lemma Listable(server: Server, group: string, labelled: string, maxNodes: nat, reordered: nat -> bool,
                 first: seq<Page>, second: seq<Page>)
    requires Complete(first) && Served(server, group, 0, first)
    requires Complete(second) && Served(server, labelled, |first|, second)
    requires Merge(AllItems(first) + AllItems(second), maxNodes, reordered).Ok?
    ensures IsListable(server, group, labelled, maxNodes, reordered)
  {
  }

  lemma NoFirstListing(server: Server, group: string, labelled: string, maxNodes: nat, reordered: nat -> bool)
    requires NoListing(server, group, 0, [], maxNodes, reordered)
    ensures !IsListable(server, group, labelled, maxNodes, reordered)
  {
    hide Complete, Served, AllItems, Merge;
    forall first: seq<Page>, second: seq<Page> | Complete(first) && Served(server, group, 0, first)
      ensures Merge(AllItems(first) + AllItems(second), maxNodes, reordered).Err?
    {
      assert [] + AllItems(first) == AllItems(first);
      MergeFails(AllItems(first), AllItems(second), maxNodes, reordered);
    }
  }

  lemma NoSecondListing(server: Server, group: string, labelled: string, maxNodes: nat, reordered: nat -> bool,
                        first: seq<Page>)
    requires Complete(first) && Served(server, group, 0, first)
    requires NoListing(server, labelled, |first|, AllItems(first), maxNodes, reordered)
    ensures !IsListable(server, group, labelled, maxNodes, reordered)
  {
    hide Complete, Served, AllItems, Merge;
    forall other: seq<Page>, second: seq<Page>
      | Complete(other) && Served(server, group, 0, other) && Complete(second)
        && Served(server, labelled, |other|, second)
      ensures Merge(AllItems(other) + AllItems(second), maxNodes, reordered).Err?
    {
      OneListing(server, group, 0, first, other, |first|);
      OneListing(server, group, 0, other, first, |other|);
      assert other == first;
    }
  }

  /** The server has at most one whole listing from a request on. */
  lemma {:induction false} OneListing(server: Server, selector: string, start: nat, p: seq<Page>, q: seq<Page>, i: nat)
    requires Complete(p) && Served(server, selector, start, p) && Complete(q) && Served(server, selector, start, q)
    requires i <= |p|
    ensures |q| >= i && q[..i] == p[..i]
  {
    hide IsNodeList;
    if i > 0 {
      var k := i - 1;
      OneListing(server, selector, start, p, q, k);
      if k > 0 {
        assert q[k - 1] == q[..k][k - 1] == p[..k][k - 1] == p[k - 1];
        assert NextOf(p[k - 1].body) == Some(Str(p[k].asked.value)) && |p[k].asked.value| > 0;
        assert |q| > k && q[k].asked == p[k].asked;
      }
      assert server(start + k, selector, p[k].asked) == Response(200, Some(p[k].body));
      assert server(start + k, selector, q[k].asked) == Response(200, Some(q[k].body));
      assert q[..i] == q[..k] + [q[k]] && p[..i] == p[..k] + [p[k]];
    }
  }

  /** The pages so far, all with a successor, and the continuation the next page is asked with. */
  ghost predicate ReadyFor(pages: seq<Page>, continuation: Option<string>, seen: set<string>) {
    && Chained(pages) && (forall i | 0 <= i < |pages| :: IsNodeList(pages[i].body))
    && (forall i | 0 < i < |pages| :: pages[i].asked.value in seen)
    && (forall c | c in seen :: continuation == Some(c) || exists i | 0 < i < |pages| :: pages[i].asked == Some(c))
    && if pages == [] then continuation == None
       else
         && continuation.Some? && 0 < |continuation.value| <= MAX_CONTINUATION && continuation.value in seen
         && NextOf(pages[|pages| - 1].body) == Some(Str(continuation.value))
         && (forall i | 0 < i < |pages| :: pages[i].asked != continuation)
  }

  lemma NextPage(pages: seq<Page>, continuation: Option<string>, seen: set<string>, body: Json)
    requires ReadyFor(pages, continuation, seen) && IsNodeList(body)
    ensures var longer := pages + [Page(continuation, body)];
            && Chained(longer) && (forall i | 0 <= i < |longer| :: IsNodeList(longer[i].body))
            && (forall i | 0 < i < |longer| :: longer[i].asked.value in seen)
  {
    hide IsNodeList, NextOf;
  }

  lemma NoPages()
    ensures ReadyFor([], None, {}) && AllItems([]) == []
  {
  }

  lemma ItemsNext(pages: seq<Page>, page: Page)
    ensures AllItems(pages + [page]) == AllItems(pages) + ItemsOf(page.body)
  {
    assert (pages + [page])[..|pages|] == pages;
  }

  lemma LastPage(pages: seq<Page>, continuation: Option<string>, seen: set<string>, body: Json)
    requires ReadyFor(pages, continuation, seen) && IsNodeList(body) && IsLast(body) && |pages| < MAX_PAGES
    ensures Complete(pages + [Page(continuation, body)])
  {
    NextPage(pages, continuation, seen, body);
    hide IsNodeList, IsLast, Chained;
  }

  lemma MorePages(pages: seq<Page>, continuation: Option<string>, seen: set<string>, body: Json, next: string)
    requires ReadyFor(pages, continuation, seen) && IsNodeList(body)
    requires NextOf(body) == Some(Str(next)) && 0 < |next| <= MAX_CONTINUATION && next !in seen
    ensures ReadyFor(pages + [Page(continuation, body)], Some(next), seen + {next})
  {
    NextPage(pages, continuation, seen, body);
    hide IsNodeList, NextOf;
    var longer := pages + [Page(continuation, body)];
    assert forall i | 0 < i < |longer| :: longer[i].asked.value in seen;
    assert longer[|pages|].asked == continuation;
    forall c | c in seen ensures exists i | 0 < i < |longer| :: longer[i].asked == Some(c) {
      if i :| 0 < i < |pages| && pages[i].asked == Some(c) {
        assert longer[i] == pages[i];
      }
    }
  }
}

/** The fleet as a graph: the task board, the live leases and the tab list joined into nodes and edges. */
module Fleet {
  import opened Text
  import opened Claims

  /** A node's identity: its kind and the name it prints after the kind. */
  datatype NodeId = Host(name: string) | Agent(name: string) | Task(name: string) {

    /** The id as the graph spells it. */
    function Render(): string {
      match this
      case Host(n) => "host:" + n
      case Agent(n) => "agent:" + n
      case Task(n) => "task:" + n
    }
  }

  datatype EdgeKind = Peer | RunsOn | Home | Announced | Bid | WorksOn

  datatype Node = Node(id: NodeId, text: string, status: Option<string>, uuid: Option<string>)

  datatype Edge = Edge(from: NodeId, to: NodeId, kind: EdgeKind, text: Option<string>,
                       leased: Option<bool>, expiresInMs: Option<nat>)

  datatype Graph = Graph(nodes: seq<Node>, edges: seq<Edge>)

  datatype AgentTab = AgentTab(name: string, uuid: string, state: Option<string>)

  datatype TaskView = TaskView(id: string, title: string, announcedBy: Option<string>, home: Option<string>,
                               bids: seq<(string, int)>, awardedTo: Option<string>, done: Option<bool>) {

    /** Lifecycle, derived from the folded entries. */
    function State(): string {
      match done
      case Some(true) => "done"
      case Some(false) => "failed"
      case None => if awardedTo.Some? then "awarded" else if bids == [] then "open" else "bidding"
    }

    function ClaimKey(): string {
      "task:" + id
    }
  }

  function IntText(n: int): string {
    if n < 0 then "-" + Decimal(-n) else Decimal(n)
  }

  function HostNode(name: string, status: string): Node {
    Node(Host(name), name, Some(status), None)
  }

  function TabNode(t: AgentTab): Node {
    Node(Agent(t.name), t.name, t.state, Some(t.uuid))
  }

  function ElsewhereNode(name: string): Node {
    Node(Agent(name), name, Some("elsewhere"), None)
  }

  function TaskNode(t: TaskView): Node {
    Node(Task(t.id), if t.title == "" then t.id else t.title, Some(t.State()), None)
  }

  function PlainEdge(from: NodeId, to: NodeId, kind: EdgeKind): Edge {
    Edge(from, to, kind, None, None, None)
  }

  function BidEdge(task: string, bid: (string, int)): Edge {
    Edge(Agent(bid.0), Task(task), Bid, Some(IntText(bid.1)), None, None)
  }

  function WorksOnEdge(t: TaskView, who: string, live: map<string, Claim>, now: nat): Edge {
    var claim := if t.ClaimKey() in live then Some(live[t.ClaimKey()]) else None;
    Edge(Agent(who), Task(t.id), WorksOn, None,
         Some(claim.Some? && claim.value.holder == who),
         if claim.Some? then Some(claim.value.RemainingMs(now)) else None)
  }

  /** Collecting pairs into a map: the last one for a key wins. */
  function ByKey(claims: seq<Claim>): map<string, Claim> {
    if claims == [] then map[] else ByKey(claims[..|claims| - 1])[claims[|claims| - 1].key := claims[|claims| - 1]]
  }

  // ------------------------------------------------------------ what the graph should say

  function PeerNodes(peers: seq<string>): seq<Node> {
    if peers == [] then [] else PeerNodes(peers[..|peers| - 1]) + [HostNode(peers[|peers| - 1], "peer")]
  }

  function PeerEdges(me: string, peers: seq<string>): seq<Edge> {
    if peers == [] then []
    else PeerEdges(me, peers[..|peers| - 1]) + [PlainEdge(Host(me), Host(peers[|peers| - 1]), Peer)]
  }

  function TabNodes(tabs: seq<AgentTab>): seq<Node> {
    if tabs == [] then [] else TabNodes(tabs[..|tabs| - 1]) + [TabNode(tabs[|tabs| - 1])]
  }

  function TabEdges(me: string, tabs: seq<AgentTab>): seq<Edge> {
    if tabs == [] then []
    else TabEdges(me, tabs[..|tabs| - 1]) + [PlainEdge(Agent(tabs[|tabs| - 1].name), Host(me), RunsOn)]
  }

  function BidNodes(bids: seq<(string, int)>): seq<Node> {
    if bids == [] then [] else BidNodes(bids[..|bids| - 1]) + [ElsewhereNode(bids[|bids| - 1].0)]
  }

  function BidEdges(task: string, bids: seq<(string, int)>): seq<Edge> {
    if bids == [] then []
    else BidEdges(task, bids[..|bids| - 1]) + [BidEdge(task, bids[|bids| - 1])]
  }

  function HomeNodes(t: TaskView): seq<Node> {
    if t.home.Some? then [HostNode(t.home.value, "peer")] else []
  }

  function HomeEdges(t: TaskView): seq<Edge> {
    if t.home.Some? then [PlainEdge(Task(t.id), Host(t.home.value), Home)] else []
  }

  function AgentNodes(who: Option<string>): seq<Node> {
    if who.Some? then [ElsewhereNode(who.value)] else []
  }

  function AnnouncedEdges(t: TaskView): seq<Edge> {
    if t.announcedBy.Some? then [PlainEdge(Agent(t.announcedBy.value), Task(t.id), Announced)] else []
  }

  function AwardEdges(t: TaskView, live: map<string, Claim>, now: nat): seq<Edge> {
    if t.awardedTo.Some? then [WorksOnEdge(t, t.awardedTo.value, live, now)] else []
  }

  function TaskNodes(t: TaskView): seq<Node> {
    [TaskNode(t)] + HomeNodes(t) + AgentNodes(t.announcedBy) + BidNodes(t.bids) + AgentNodes(t.awardedTo)
  }

  function TaskEdges(t: TaskView, live: map<string, Claim>, now: nat): seq<Edge> {
    HomeEdges(t) + AnnouncedEdges(t) + BidEdges(t.id, t.bids) + AwardEdges(t, live, now)
  }

  function BoardNodes(board: seq<TaskView>): seq<Node> {
    if board == [] then [] else BoardNodes(board[..|board| - 1]) + TaskNodes(board[|board| - 1])
  }

  function BoardEdges(board: seq<TaskView>, live: map<string, Claim>, now: nat): seq<Edge> {
    if board == [] then []
    else BoardEdges(board[..|board| - 1], live, now) + TaskEdges(board[|board| - 1], live, now)
  }

  /** Every node anyone asked for, in order, duplicates included. */
  function Offered(board: seq<TaskView>, tabs: seq<AgentTab>, me: string, peers: seq<string>): seq<Node> {
    [HostNode(me, "self")] + PeerNodes(peers) + TabNodes(tabs) + BoardNodes(board)
  }

  function AllEdges(board: seq<TaskView>, claims: seq<Claim>, tabs: seq<AgentTab>, me: string, peers: seq<string>,
                    now: nat): seq<Edge>
  {
    PeerEdges(me, peers) + TabEdges(me, tabs) + BoardEdges(board, ByKey(claims), now)
  }

  function Ids(nodes: seq<Node>): set<NodeId> {
    if nodes == [] then {} else Ids(nodes[..|nodes| - 1]) + {nodes[|nodes| - 1].id}
  }

  /** The first node offered under each id. */
  function FirstById(offered: seq<Node>): seq<Node> {
    if offered == [] then []
    else
      var kept := FirstById(offered[..|offered| - 1]);
      var last := offered[|offered| - 1];
      if last.id in Ids(kept) then kept else kept + [last]
  }

  // ------------------------------------------------------------ the builder

  /** The graph under construction, and the ids it already has. */
  class Builder {
    var nodes: seq<Node>
    var edges: seq<Edge>
    var have: set<NodeId>
    ghost var offered: seq<Node>

    ghost predicate Valid()
      reads this
    {
      nodes == FirstById(offered) && have == Ids(nodes)
    }

    constructor ()
      ensures Valid() && offered == [] && edges == []
    {
      nodes, edges, have, offered := [], [], {}, [];
    }

    method PushNode(n: Node)
      requires Valid()
      modifies this
      ensures Valid() && offered == old(offered) + [n] && edges == old(edges)
    {
      offered := offered + [n];
      assert offered[..|offered| - 1] == old(offered);
      if n.id !in have {
        have := have + {n.id};
        nodes := nodes + [n];
        IdsSnoc(old(nodes), n);
      }
    }

    method PushEdge(e: Edge)
      requires Valid()
      modifies this
      ensures Valid() && offered == old(offered) && edges == old(edges) + [e]
    {
      edges := edges + [e];
    }

    /** A node and an edge at once, on top of what this pass has added so far. */
    method PushBoth(n: Node, e: Edge, ghost nodes0: seq<Node>, ghost added: seq<Node>,
                    ghost edges0: seq<Edge>, ghost addedEdges: seq<Edge>)
      requires Valid() && offered == nodes0 + added && edges == edges0 + addedEdges
      modifies this
      ensures Valid() && offered == nodes0 + (added + [n]) && edges == edges0 + (addedEdges + [e])
    {
      Assoc(nodes0, added, [n]);
      Assoc(edges0, addedEdges, [e]);
      PushNode(n);
      PushEdge(e);
    }

    method AddPeers(me: string, peers: seq<string>)
      requires Valid()
      modifies this
      ensures Valid() && offered == old(offered) + PeerNodes(peers) && edges == old(edges) + PeerEdges(me, peers)
    {
      for i := 0 to |peers|
        invariant Valid()
        invariant offered == old(offered) + PeerNodes(peers[..i]) && edges == old(edges) + PeerEdges(me, peers[..i])
      {
        PeersNext(me, peers, i);
        PushBoth(HostNode(peers[i], "peer"), PlainEdge(Host(me), Host(peers[i]), Peer),
                 old(offered), PeerNodes(peers[..i]), old(edges), PeerEdges(me, peers[..i]));
      }
      assert peers[..|peers|] == peers;
    }

    method AddTabs(me: string, tabs: seq<AgentTab>)
      requires Valid()
      modifies this
      ensures Valid() && offered == old(offered) + TabNodes(tabs) && edges == old(edges) + TabEdges(me, tabs)
    {
      for i := 0 to |tabs|
        invariant Valid()
        invariant offered == old(offered) + TabNodes(tabs[..i]) && edges == old(edges) + TabEdges(me, tabs[..i])
      {
        TabsNext(me, tabs, i);
        PushBoth(TabNode(tabs[i]), PlainEdge(Agent(tabs[i].name), Host(me), RunsOn),
                 old(offered), TabNodes(tabs[..i]), old(edges), TabEdges(me, tabs[..i]));
      }
      assert tabs[..|tabs|] == tabs;
    }

    method AddBids(task: string, bids: seq<(string, int)>)
      requires Valid()
      modifies this
      ensures Valid() && offered == old(offered) + BidNodes(bids) && edges == old(edges) + BidEdges(task, bids)
    {
      for i := 0 to |bids|
        invariant Valid()
        invariant offered == old(offered) + BidNodes(bids[..i]) && edges == old(edges) + BidEdges(task, bids[..i])
      {
        BidsNext(task, bids, i);
        PushBoth(ElsewhereNode(bids[i].0), BidEdge(task, bids[i]),
                 old(offered), BidNodes(bids[..i]), old(edges), BidEdges(task, bids[..i]));
      }
      assert bids[..|bids|] == bids;
    }

    method AddHome(t: TaskView)
      requires Valid()
      modifies this
      ensures Valid() && offered == old(offered) + HomeNodes(t) && edges == old(edges) + HomeEdges(t)
    {
      if t.home.Some? {
        PushNode(HostNode(t.home.value, "peer"));
        PushEdge(PlainEdge(Task(t.id), Host(t.home.value), Home));
      }
    }

    method AddAnnouncer(t: TaskView)
      requires Valid()
      modifies this
      ensures Valid() && offered == old(offered) + AgentNodes(t.announcedBy) && edges == old(edges) + AnnouncedEdges(t)
    {
      if t.announcedBy.Some? {
        PushNode(ElsewhereNode(t.announcedBy.value));
        PushEdge(PlainEdge(Agent(t.announcedBy.value), Task(t.id), Announced));
      }
    }

    method AddAward(t: TaskView, live: map<string, Claim>, now: nat)
      requires Valid()
      modifies this
      ensures Valid() && offered == old(offered) + AgentNodes(t.awardedTo)
      ensures edges == old(edges) + AwardEdges(t, live, now)
    {
      if t.awardedTo.Some? {
        PushNode(ElsewhereNode(t.awardedTo.value));
        PushEdge(WorksOnEdge(t, t.awardedTo.value, live, now));
      }
    }

    method AddTask(t: TaskView, live: map<string, Claim>, now: nat)
      requires Valid()
      modifies this
      ensures Valid() && offered == old(offered) + TaskNodes(t) && edges == old(edges) + TaskEdges(t, live, now)
    {
      PushNode(TaskNode(t));
      AddHome(t);
      AddAnnouncer(t);
      AddBids(t.id, t.bids);
      AddAward(t, live, now);
      Assoc5(old(offered), [TaskNode(t)], HomeNodes(t), AgentNodes(t.announcedBy), BidNodes(t.bids),
             AgentNodes(t.awardedTo));
      Assoc5(old(edges), [], HomeEdges(t), AnnouncedEdges(t), BidEdges(t.id, t.bids), AwardEdges(t, live, now));
    }

    method AddBoard(board: seq<TaskView>, live: map<string, Claim>, now: nat)
      requires Valid()
      modifies this
      ensures Valid() && offered == old(offered) + BoardNodes(board)
      ensures edges == old(edges) + BoardEdges(board, live, now)
    {
      for i := 0 to |board|
        invariant Valid()
        invariant offered == old(offered) + BoardNodes(board[..i])
        invariant edges == old(edges) + BoardEdges(board[..i], live, now)
      {
        BoardNext(board, i, live, now);
        Assoc(old(offered), BoardNodes(board[..i]), TaskNodes(board[i]));
        Assoc(old(edges), BoardEdges(board[..i], live, now), TaskEdges(board[i], live, now));
        AddTask(board[i], live, now);
      }
      assert board[..|board|] == board;
    }
  }

  lemma PeersNext(me: string, peers: seq<string>, i: nat)
    requires i < |peers|
    ensures PeerNodes(peers[..i + 1]) == PeerNodes(peers[..i]) + [HostNode(peers[i], "peer")]
    ensures PeerEdges(me, peers[..i + 1]) == PeerEdges(me, peers[..i]) + [PlainEdge(Host(me), Host(peers[i]), Peer)]
  {
    assert peers[..i + 1][..i] == peers[..i];
  }

  lemma TabsNext(me: string, tabs: seq<AgentTab>, i: nat)
    requires i < |tabs|
    ensures TabNodes(tabs[..i + 1]) == TabNodes(tabs[..i]) + [TabNode(tabs[i])]
    ensures TabEdges(me, tabs[..i + 1])
         == TabEdges(me, tabs[..i]) + [PlainEdge(Agent(tabs[i].name), Host(me), RunsOn)]
  {
    assert tabs[..i + 1][..i] == tabs[..i];
  }

  lemma BidsNext(task: string, bids: seq<(string, int)>, i: nat)
    requires i < |bids|
    ensures BidNodes(bids[..i + 1]) == BidNodes(bids[..i]) + [ElsewhereNode(bids[i].0)]
    ensures BidEdges(task, bids[..i + 1]) == BidEdges(task, bids[..i]) + [BidEdge(task, bids[i])]
  {
    assert bids[..i + 1][..i] == bids[..i];
  }

  lemma BoardNext(board: seq<TaskView>, i: nat, live: map<string, Claim>, now: nat)
    requires i < |board|
    ensures BoardNodes(board[..i + 1]) == BoardNodes(board[..i]) + TaskNodes(board[i])
    ensures BoardEdges(board[..i + 1], live, now) == BoardEdges(board[..i], live, now) + TaskEdges(board[i], live, now)
  {
    assert board[..i + 1][..i] == board[..i];
  }

  lemma Assoc5<T>(s: seq<T>, a: seq<T>, b: seq<T>, c: seq<T>, d: seq<T>, e: seq<T>)
    ensures s + a + b + c + d + e == s + (a + b + c + d + e)
    ensures a == [] ==> s + a == s && a + b == b
  {
    Assoc(s, a, b);
    Assoc(s, a + b, c);
    Assoc(s, a + b + c, d);
    Assoc(s, a + b + c + d, e);
  }

  method Collect(claims: seq<Claim>) returns (live: map<string, Claim>)
    ensures live == ByKey(claims)
  {
    live := map[];
    for i := 0 to |claims|
      invariant live == ByKey(claims[..i])
    {
      assert claims[..i + 1][..i] == claims[..i];
      live := live[claims[i].key := claims[i]];
    }
    assert claims[..|claims|] == claims;
  }

  method Build(board: seq<TaskView>, claims: seq<Claim>, tabs: seq<AgentTab>, me: string, peers: seq<string>, now: nat)
    returns (g: Graph)
    ensures g.nodes == FirstById(Offered(board, tabs, me, peers))
    ensures g.edges == AllEdges(board, claims, tabs, me, peers, now)
  {
    var b := new Builder();
    b.PushNode(HostNode(me, "self"));
    assert b.offered == [HostNode(me, "self")];
    b.AddPeers(me, peers);
    assert b.edges == PeerEdges(me, peers);
    b.AddTabs(me, tabs);
    var live := Collect(claims);
    b.AddBoard(board, live, now);
    g := Graph(b.nodes, b.edges);
  }

  // ------------------------------------------------------------ well-formedness

  lemma IdsSnoc(nodes: seq<Node>, n: Node)
    ensures Ids(nodes + [n]) == Ids(nodes) + {n.id}
  {
    assert (nodes + [n])[..|nodes|] == nodes;
  }

  lemma {:induction false} IdsAppend(a: seq<Node>, b: seq<Node>)
    ensures Ids(a + b) == Ids(a) + Ids(b)
  {
    if b == [] {
      assert a + b == a;
    } else {
      assert (a + b)[..|a + b| - 1] == a + b[..|b| - 1];
      IdsAppend(a, b[..|b| - 1]);
    }
  }

  lemma {:induction false} IdsMember(nodes: seq<Node>)
    ensures forall i :: 0 <= i < |nodes| ==> nodes[i].id in Ids(nodes)
    ensures forall x :: x in Ids(nodes) ==> exists i :: 0 <= i < |nodes| && nodes[i].id == x
  {
    if nodes != [] {
      var before := nodes[..|nodes| - 1];
      IdsMember(before);
      forall x | x in Ids(nodes) ensures exists i :: 0 <= i < |nodes| && nodes[i].id == x {
        if x in Ids(before) {
          var i :| 0 <= i < |before| && before[i].id == x;
          assert nodes[i].id == x;
        } else {
          assert nodes[|nodes| - 1].id == x;
        }
      }
    }
  }

  ghost predicate DistinctIds(nodes: seq<Node>) {
    forall i, j :: 0 <= i < j < |nodes| ==> nodes[i].id != nodes[j].id
  }

  lemma DistinctSnoc(nodes: seq<Node>, n: Node)
    requires DistinctIds(nodes) && n.id !in Ids(nodes)
    ensures DistinctIds(nodes + [n])
  {
    IdsMember(nodes);
  }

  /** Dropping repeats keeps exactly the ids that were offered, each once. */
  lemma {:induction false} FirstByIdKeepsIds(offered: seq<Node>)
    ensures DistinctIds(FirstById(offered)) && Ids(FirstById(offered)) == Ids(offered)
  {
    if offered != [] {
      var before, last := offered[..|offered| - 1], offered[|offered| - 1];
      FirstByIdKeepsIds(before);
      IdsSnoc(FirstById(before), last);
      if last.id !in Ids(FirstById(before)) { DistinctSnoc(FirstById(before), last); }
    }
  }

  ghost predicate EdgesWithin(edges: seq<Edge>, ids: set<NodeId>) {
    forall i :: 0 <= i < |edges| ==> edges[i].from in ids && edges[i].to in ids
  }

  lemma EdgesWithinAppend(a: seq<Edge>, b: seq<Edge>, ids: set<NodeId>, more: set<NodeId>)
    requires EdgesWithin(a, ids) && EdgesWithin(b, more)
    ensures EdgesWithin(a + b, ids + more)
  {
  }

  lemma {:induction false} PeerEdgesWithin(me: string, peers: seq<string>)
    ensures EdgesWithin(PeerEdges(me, peers), {Host(me)} + Ids(PeerNodes(peers)))
  {
    if peers != [] {
      var before, last := peers[..|peers| - 1], peers[|peers| - 1];
      PeerEdgesWithin(me, before);
      IdsSnoc(PeerNodes(before), HostNode(last, "peer"));
    }
  }

  lemma {:induction false} TabEdgesWithin(me: string, tabs: seq<AgentTab>)
    ensures EdgesWithin(TabEdges(me, tabs), {Host(me)} + Ids(TabNodes(tabs)))
  {
    if tabs != [] {
      var before, last := tabs[..|tabs| - 1], tabs[|tabs| - 1];
      TabEdgesWithin(me, before);
      IdsSnoc(TabNodes(before), TabNode(last));
    }
  }

  lemma {:induction false} BidEdgesWithin(task: string, bids: seq<(string, int)>)
    ensures EdgesWithin(BidEdges(task, bids), {Task(task)} + Ids(BidNodes(bids)))
  {
    if bids != [] {
      var before, last := bids[..|bids| - 1], bids[|bids| - 1];
      BidEdgesWithin(task, before);
      IdsSnoc(BidNodes(before), ElsewhereNode(last.0));
    }
  }

  lemma TaskIds(t: TaskView)
    ensures Ids(TaskNodes(t)) == Ids([TaskNode(t)]) + Ids(HomeNodes(t)) + Ids(AgentNodes(t.announcedBy))
                                 + Ids(BidNodes(t.bids)) + Ids(AgentNodes(t.awardedTo))
  {
    var a, b, c := [TaskNode(t)], HomeNodes(t), AgentNodes(t.announcedBy);
    var d, e := BidNodes(t.bids), AgentNodes(t.awardedTo);
    IdsAppend(a + b + c + d, e);
    IdsAppend(a + b + c, d);
    IdsAppend(a + b, c);
    IdsAppend(a, b);
  }

  lemma IdsOne(n: Node)
    ensures Ids([n]) == {n.id}
  {
    IdsSnoc([], n);
    assert [] + [n] == [n];
  }

  lemma EdgesWithinMore(edges: seq<Edge>, ids: set<NodeId>, more: set<NodeId>)
    requires EdgesWithin(edges, ids) && ids <= more
    ensures EdgesWithin(edges, more)
  {
  }

  lemma HomeEdgesWithin(t: TaskView)
    ensures EdgesWithin(HomeEdges(t), {Task(t.id)} + Ids(HomeNodes(t)))
  {
    if t.home.Some? { IdsOne(HostNode(t.home.value, "peer")); }
  }

  lemma AnnouncedEdgesWithin(t: TaskView)
    ensures EdgesWithin(AnnouncedEdges(t), {Task(t.id)} + Ids(AgentNodes(t.announcedBy)))
  {
    if t.announcedBy.Some? { IdsOne(ElsewhereNode(t.announcedBy.value)); }
  }

  lemma AwardEdgesWithin(t: TaskView, live: map<string, Claim>, now: nat)
    ensures EdgesWithin(AwardEdges(t, live, now), {Task(t.id)} + Ids(AgentNodes(t.awardedTo)))
  {
    if t.awardedTo.Some? { IdsOne(ElsewhereNode(t.awardedTo.value)); }
  }

  lemma TaskEdgesWithin(t: TaskView, live: map<string, Claim>, now: nat)
    ensures EdgesWithin(TaskEdges(t, live, now), Ids(TaskNodes(t)))
  {
    var ids := Ids(TaskNodes(t));
    var self := {Task(t.id)};
    TaskIds(t);
    IdsOne(TaskNode(t));
    var a, b, c, d := HomeEdges(t), AnnouncedEdges(t), BidEdges(t.id, t.bids), AwardEdges(t, live, now);
    HomeEdgesWithin(t);
    EdgesWithinMore(a, self + Ids(HomeNodes(t)), ids);
    AnnouncedEdgesWithin(t);
    EdgesWithinMore(b, self + Ids(AgentNodes(t.announcedBy)), ids);
    BidEdgesWithin(t.id, t.bids);
    EdgesWithinMore(c, self + Ids(BidNodes(t.bids)), ids);
    AwardEdgesWithin(t, live, now);
    EdgesWithinMore(d, self + Ids(AgentNodes(t.awardedTo)), ids);
    EdgesWithinAll(a, b, c, d, ids);
  }

  lemma EdgesWithinAll(a: seq<Edge>, b: seq<Edge>, c: seq<Edge>, d: seq<Edge>, ids: set<NodeId>)
    requires EdgesWithin(a, ids) && EdgesWithin(b, ids) && EdgesWithin(c, ids) && EdgesWithin(d, ids)
    ensures EdgesWithin(a + b + c + d, ids)
  {
    assert ids + ids == ids;
    EdgesWithinAppend(a, b, ids, ids);
    EdgesWithinAppend(a + b, c, ids, ids);
    EdgesWithinAppend(a + b + c, d, ids, ids);
  }

  lemma {:induction false} BoardEdgesWithin(board: seq<TaskView>, live: map<string, Claim>, now: nat)
    ensures EdgesWithin(BoardEdges(board, live, now), Ids(BoardNodes(board)))
  {
    if board != [] {
      var before, last := board[..|board| - 1], board[|board| - 1];
      BoardEdgesWithin(before, live, now);
      TaskEdgesWithin(last, live, now);
      IdsAppend(BoardNodes(before), TaskNodes(last));
      EdgesWithinAppend(BoardEdges(before, live, now), TaskEdges(last, live, now),
                        Ids(BoardNodes(before)), Ids(TaskNodes(last)));
    }
  }

  lemma OfferedIds(board: seq<TaskView>, tabs: seq<AgentTab>, me: string, peers: seq<string>)
    ensures Ids(Offered(board, tabs, me, peers))
         == {Host(me)} + Ids(PeerNodes(peers)) + Ids(TabNodes(tabs)) + Ids(BoardNodes(board))
  {
    var self := [HostNode(me, "self")];
    IdsAppend(self + PeerNodes(peers) + TabNodes(tabs), BoardNodes(board));
    IdsAppend(self + PeerNodes(peers), TabNodes(tabs));
    IdsAppend(self, PeerNodes(peers));
    IdsOne(HostNode(me, "self"));
  }

  lemma AllEdgesWithin(board: seq<TaskView>, claims: seq<Claim>, tabs: seq<AgentTab>, me: string,
                       peers: seq<string>, now: nat)
    ensures EdgesWithin(AllEdges(board, claims, tabs, me, peers, now),
                        {Host(me)} + Ids(PeerNodes(peers)) + ({Host(me)} + Ids(TabNodes(tabs)))
                        + Ids(BoardNodes(board)))
  {
    var p, t := {Host(me)} + Ids(PeerNodes(peers)), {Host(me)} + Ids(TabNodes(tabs));
    PeerEdgesWithin(me, peers);
    TabEdgesWithin(me, tabs);
    EdgesWithinAppend(PeerEdges(me, peers), TabEdges(me, tabs), p, t);
    BoardEdgesWithin(board, ByKey(claims), now);
    EdgesWithinAppend(PeerEdges(me, peers) + TabEdges(me, tabs), BoardEdges(board, ByKey(claims), now),
                      p + t, Ids(BoardNodes(board)));
  }

  /** For every board, lease list, tab list and peer list: node ids are distinct and every edge joins two nodes. */
  lemma GraphWellFormed(board: seq<TaskView>, claims: seq<Claim>, tabs: seq<AgentTab>, me: string,
                        peers: seq<string>, now: nat)
    ensures var nodes := FirstById(Offered(board, tabs, me, peers));
            DistinctIds(nodes) && EdgesWithin(AllEdges(board, claims, tabs, me, peers, now), Ids(nodes))
  {
    FirstByIdKeepsIds(Offered(board, tabs, me, peers));
    OfferedIds(board, tabs, me, peers);
    AllEdgesWithin(board, claims, tabs, me, peers, now);
    var ids := {Host(me)} + Ids(PeerNodes(peers)) + ({Host(me)} + Ids(TabNodes(tabs))) + Ids(BoardNodes(board));
    EdgesWithinMore(AllEdges(board, claims, tabs, me, peers, now), ids, Ids(Offered(board, tabs, me, peers)));
  }

  /** The printed ids tell hosts, agents and tasks apart, and name one thing each. */
  lemma RenderInjective(a: NodeId, b: NodeId)
    requires a.Render() == b.Render()
    ensures a == b
  {
    assert a.Render()[0] == b.Render()[0];
    var cut := if a.Agent? then 6 else 5;
    assert a.Render()[cut..] == a.name && b.Render()[cut..] == b.name;
  }

  /** The node kept for an id is the first one offered under it. */
  lemma {:induction false} FirstOfferedWins(offered: seq<Node>, i: nat)
    requires i < |offered| && forall j :: 0 <= j < i ==> offered[j].id != offered[i].id
    ensures offered[i] in FirstById(offered)
  {
    var before := offered[..|offered| - 1];
    if i < |before| {
      FirstOfferedWins(before, i);
    } else {
      FirstByIdKeepsIds(before);
      IdsMember(before);
    }
  }

  /** An agent with a tab here is drawn from its first tab, whatever the board says about it. */
  lemma RunningAgentsKeepTheirTab(board: seq<TaskView>, tabs: seq<AgentTab>, me: string, peers: seq<string>, i: nat)
    requires i < |tabs| && forall j :: 0 <= j < i ==> tabs[j].name != tabs[i].name
    ensures TabNode(tabs[i]) in FirstById(Offered(board, tabs, me, peers))
  {
    var hosts := [HostNode(me, "self")] + PeerNodes(peers);
    var offered := Offered(board, tabs, me, peers);
    TabNodesAt(tabs);
    PeersAreHosts(peers);
    var k := |hosts| + i;
    assert offered[k] == TabNodes(tabs)[i];
    forall j | 0 <= j < k ensures offered[j].id != offered[k].id {
      if j < |hosts| {
        assert offered[j] == hosts[j] && hosts[j].id.Host? by {
          assert j > 0 ==> hosts[j] == PeerNodes(peers)[j - 1];
        }
      } else {
        assert offered[j] == TabNodes(tabs)[j - |hosts|] == TabNode(tabs[j - |hosts|]);
      }
    }
    FirstOfferedWins(offered, k);
  }

  lemma {:induction false} TabNodesAt(tabs: seq<AgentTab>)
    ensures |TabNodes(tabs)| == |tabs| && forall i :: 0 <= i < |tabs| ==> TabNodes(tabs)[i] == TabNode(tabs[i])
  {
    if tabs != [] { TabNodesAt(tabs[..|tabs| - 1]); }
  }

  lemma {:induction false} PeersAreHosts(peers: seq<string>)
    ensures forall i :: 0 <= i < |PeerNodes(peers)| ==> PeerNodes(peers)[i].id.Host?
  {
    if peers != [] { PeersAreHosts(peers[..|peers| - 1]); }
  }

  // ------------------------------------------------------------ agreement with the registry

  lemma {:induction false} ByKeyOfDistinct(s: seq<Claim>)
    requires forall i, j :: 0 <= i < j < |s| ==> s[i].key != s[j].key
    ensures forall i :: 0 <= i < |s| ==> s[i].key in ByKey(s) && ByKey(s)[s[i].key] == s[i]
    ensures forall k :: k in ByKey(s) ==> ByKey(s)[k] in s && ByKey(s)[k].key == k
  {
    if s != [] { ByKeyOfDistinct(s[..|s| - 1]); }
  }

  /** Looking a key up in the listing of active leases is asking the registry for its live lease. */
  lemma ListingIsLookup(t: Table, now: nat, key: string)
    requires t.WellFormed()
    ensures var live := ByKey(InOrder(t.Live(now)));
            GetStep(t, key, now) == if key in live then Some(live[key]) else None
  {
    var m := t.Live(now);
    InOrderLists(m);
    var s := InOrder(m);
    ByKeyOfDistinct(s);
    if key in m {
      var i :| 0 <= i < |s| && s[i] == m[key];
    }
  }

  ghost predicate IsWorksOn(e: Edge, task: TaskView, t: Table, now: nat) {
    && task.awardedTo.Some?
    && var lease := GetStep(t, task.ClaimKey(), now);
       e == Edge(Agent(task.awardedTo.value), Task(task.id), WorksOn, None,
                 Some(lease.Some? && lease.value.holder == task.awardedTo.value),
                 if lease.Some? then Some(lease.value.RemainingMs(now)) else None)
  }

  lemma {:induction false} BidKinds(task: string, bids: seq<(string, int)>)
    ensures forall e :: e in BidEdges(task, bids) ==> e.kind == EdgeKind.Bid
  {
    if bids != [] { BidKinds(task, bids[..|bids| - 1]); }
  }

  /** `e` is the edge `task`'s award gives, if it has one. */
  ghost predicate IsAward(e: Edge, task: TaskView, live: map<string, Claim>, now: nat) {
    task.awardedTo.Some? && e == WorksOnEdge(task, task.awardedTo.value, live, now)
  }

  lemma AwardMatches(task: TaskView, t: Table, now: nat, e: Edge)
    requires t.WellFormed()
    ensures IsWorksOn(e, task, t, now) <==> IsAward(e, task, ByKey(InOrder(t.Live(now))), now)
  {
    ListingIsLookup(t, now, task.ClaimKey());
  }

  lemma TaskWorksOn(task: TaskView, live: map<string, Claim>, now: nat, e: Edge)
    ensures e in TaskEdges(task, live, now) && e.kind == WorksOn <==> IsAward(e, task, live, now)
  {
    BidKinds(task.id, task.bids);
    var rest := HomeEdges(task) + AnnouncedEdges(task) + BidEdges(task.id, task.bids);
    assert e in TaskEdges(task, live, now) <==> e in rest || e in AwardEdges(task, live, now);
  }

  /** Some award on the board gives `e`. */
  ghost predicate SomeAward(e: Edge, board: seq<TaskView>, live: map<string, Claim>, now: nat) {
    board != [] && (SomeAward(e, board[..|board| - 1], live, now) || IsAward(e, board[|board| - 1], live, now))
  }

  lemma {:induction false} SomeAwardMeans(e: Edge, board: seq<TaskView>, live: map<string, Claim>, now: nat)
    ensures SomeAward(e, board, live, now) <==> exists task :: task in board && IsAward(e, task, live, now)
  {
    if board != [] {
      var before, last := board[..|board| - 1], board[|board| - 1];
      SomeAwardMeans(e, before, live, now);
      assert board == before + [last];
    }
  }

  lemma {:induction false} BoardWorksOn(board: seq<TaskView>, live: map<string, Claim>, now: nat, e: Edge)
    ensures e in BoardEdges(board, live, now) && e.kind == WorksOn <==> SomeAward(e, board, live, now)
  {
    if board != [] {
      var before, last := board[..|board| - 1], board[|board| - 1];
      BoardWorksOn(before, live, now, e);
      TaskWorksOn(last, live, now, e);
      InAppend(e, BoardEdges(before, live, now), TaskEdges(last, live, now));
    }
  }

  lemma InAppend<T>(x: T, a: seq<T>, b: seq<T>)
    ensures x in a + b <==> x in a || x in b
  {
  }

  lemma {:induction false} PeerKinds(me: string, peers: seq<string>)
    ensures forall e :: e in PeerEdges(me, peers) ==> e.kind == Peer
  {
    if peers != [] { PeerKinds(me, peers[..|peers| - 1]); }
  }

  lemma {:induction false} TabKinds(me: string, tabs: seq<AgentTab>)
    ensures forall e :: e in TabEdges(me, tabs) ==> e.kind == RunsOn
  {
    if tabs != [] { TabKinds(me, tabs[..|tabs| - 1]); }
  }

  /**
    Agreement: fed the active leases, the graph's `works_on` edges are one per award, marked leased exactly
    when the registry's live holder of the task's key is the awarded agent, with that lease's remaining time.
    */
  lemma WorksOnAgreesWithRegistry(board: seq<TaskView>, tabs: seq<AgentTab>, me: string, peers: seq<string>,
                                  t: Table, now: nat, e: Edge)
    requires t.WellFormed()
    ensures e in AllEdges(board, InOrder(t.Live(now)), tabs, me, peers, now) && e.kind == WorksOn <==>
            exists task :: task in board && IsWorksOn(e, task, t, now)
  {
    var live := ByKey(InOrder(t.Live(now)));
    BoardWorksOn(board, live, now, e);
    SomeAwardMeans(e, board, live, now);
    forall task | task in board ensures IsWorksOn(e, task, t, now) <==> IsAward(e, task, live, now) {
      AwardMatches(task, t, now, e);
    }
    PeerKinds(me, peers);
    TabKinds(me, tabs);
    InAppend(e, PeerEdges(me, peers) + TabEdges(me, tabs), BoardEdges(board, live, now));
    InAppend(e, PeerEdges(me, peers), TabEdges(me, tabs));
  }
}

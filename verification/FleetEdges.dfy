/** What each edge and node of the fleet graph says, spelled out from the board, the tabs, the peers and the leases. */
module FleetEdges {
  import opened Text
  import opened Claims
  import opened Fleet

  // ------------------------------------------------------------ edges, spelled out

  ghost predicate IsPeer(e: Edge, me: string, peer: string) {
    e == Edge(Host(me), Host(peer), Peer, None, None, None)
  }

  ghost predicate IsRunsOn(e: Edge, me: string, tab: AgentTab) {
    e == Edge(Agent(tab.name), Host(me), RunsOn, None, None, None)
  }

  ghost predicate IsHome(e: Edge, task: TaskView) {
    task.home.Some? && e == Edge(Task(task.id), Host(task.home.value), Home, None, None, None)
  }

  ghost predicate IsAnnounced(e: Edge, task: TaskView) {
    task.announcedBy.Some? && e == Edge(Agent(task.announcedBy.value), Task(task.id), Announced, None, None, None)
  }

  /** A bid's edge runs from the bidder to the task and prints the amount, with a minus sign when it is negative. */
  ghost predicate IsBid(e: Edge, task: TaskView, bid: (string, int)) {
    var (who, amount) := bid;
    var text := if amount < 0 then "-" + Decimal(-amount) else Decimal(amount);
    e == Edge(Agent(who), Task(task.id), EdgeKind.Bid, Some(text), None, None)
  }

  ghost predicate IsSomeBid(e: Edge, task: TaskView) {
    exists bid :: bid in task.bids && IsBid(e, task, bid)
  }

  /** An award's edge, by the lease the registry stores under `task:` and the task's id. */
  ghost predicate IsWork(e: Edge, task: TaskView, t: Table, now: nat) {
    var key := "task:" + task.id;
    && task.awardedTo.Some?
    && var live := key in t.claims && t.claims[key].expiresMs > now;
       e == Edge(Agent(task.awardedTo.value), Task(task.id), WorksOn, None,
                 Some(live && t.claims[key].holder == task.awardedTo.value),
                 if live then Some(t.claims[key].expiresMs - now) else None)
  }

  // ------------------------------------------------------------ each list of edges

  lemma InSnoc<T>(xs: seq<T>)
    requires xs != []
    ensures forall x :: x in xs <==> x in xs[..|xs| - 1] || x == xs[|xs| - 1]
  {
    assert xs == xs[..|xs| - 1] + [xs[|xs| - 1]];
  }

  lemma {:induction false} PeerEdgeIff(e: Edge, me: string, peers: seq<string>)
    ensures e in PeerEdges(me, peers) <==> exists p :: p in peers && IsPeer(e, me, p)
  {
    if peers != [] {
      var before, last := peers[..|peers| - 1], peers[|peers| - 1];
      PeerEdgeIff(e, me, before);
      InSnoc(peers);
      InAppend(e, PeerEdges(me, before), [PlainEdge(Host(me), Host(last), Peer)]);
      assert IsPeer(e, me, last) <==> e in [PlainEdge(Host(me), Host(last), Peer)];
    }
  }

  lemma {:induction false} TabEdgeIff(e: Edge, me: string, tabs: seq<AgentTab>)
    ensures e in TabEdges(me, tabs) <==> exists tab :: tab in tabs && IsRunsOn(e, me, tab)
  {
    if tabs != [] {
      var before, last := tabs[..|tabs| - 1], tabs[|tabs| - 1];
      TabEdgeIff(e, me, before);
      InSnoc(tabs);
      InAppend(e, TabEdges(me, before), [PlainEdge(Agent(last.name), Host(me), RunsOn)]);
      assert IsRunsOn(e, me, last) <==> e in [PlainEdge(Agent(last.name), Host(me), RunsOn)];
    }
  }

  lemma {:induction false} BidEdgeIff(e: Edge, task: TaskView, bids: seq<(string, int)>)
    ensures e in BidEdges(task.id, bids) <==> exists bid :: bid in bids && IsBid(e, task, bid)
  {
    if bids != [] {
      var before, last := bids[..|bids| - 1], bids[|bids| - 1];
      BidEdgeIff(e, task, before);
      InSnoc(bids);
      InAppend(e, BidEdges(task.id, before), [BidEdge(task.id, last)]);
      assert IsBid(e, task, last) <==> e in [BidEdge(task.id, last)];
    }
  }

  lemma LeaseOfTask(e: Edge, task: TaskView, t: Table, now: nat)
    ensures IsWorksOn(e, task, t, now) <==> IsWork(e, task, t, now)
  {
    assert task.ClaimKey() == "task:" + task.id;
  }

  lemma WorkIff(e: Edge, task: TaskView, t: Table, now: nat)
    requires t.WellFormed()
    ensures e in AwardEdges(task, ByKey(InOrder(t.Live(now))), now) <==> IsWork(e, task, t, now)
  {
    AwardMatches(task, t, now, e);
    LeaseOfTask(e, task, t, now);
  }

  /** The edges one task gives. */
  ghost predicate OfTask(e: Edge, task: TaskView, t: Table, now: nat) {
    IsHome(e, task) || IsAnnounced(e, task) || IsSomeBid(e, task) || IsWork(e, task, t, now)
  }

  lemma TaskEdgeIff(e: Edge, task: TaskView, t: Table, now: nat)
    requires t.WellFormed()
    ensures e in TaskEdges(task, ByKey(InOrder(t.Live(now))), now) <==> OfTask(e, task, t, now)
  {
    var a, b, c := HomeEdges(task), AnnouncedEdges(task), BidEdges(task.id, task.bids);
    var d := AwardEdges(task, ByKey(InOrder(t.Live(now))), now);
    InAppend(e, a + b + c, d);
    InAppend(e, a + b, c);
    InAppend(e, a, b);
    BidEdgeIff(e, task, task.bids);
    WorkIff(e, task, t, now);
    assert e in a <==> IsHome(e, task);
    assert e in b <==> IsAnnounced(e, task);
  }

  lemma {:induction false} BoardEdgeIff(e: Edge, board: seq<TaskView>, t: Table, now: nat)
    requires t.WellFormed()
    ensures e in BoardEdges(board, ByKey(InOrder(t.Live(now))), now) <==>
            exists task :: task in board && OfTask(e, task, t, now)
  {
    if board != [] {
      var before, last := board[..|board| - 1], board[|board| - 1];
      var live := ByKey(InOrder(t.Live(now)));
      BoardEdgeIff(e, before, t, now);
      TaskEdgeIff(e, last, t, now);
      InAppend(e, BoardEdges(before, live, now), TaskEdges(last, live, now));
      InSnoc(board);
    }
  }

  // ------------------------------------------------------------ the graph's edges

  /** The edges of the graph, fed the registry's active leases. */
  ghost function EdgesOf(board: seq<TaskView>, tabs: seq<AgentTab>, me: string, peers: seq<string>, t: Table,
                         now: nat): seq<Edge>
  {
    AllEdges(board, InOrder(t.Live(now)), tabs, me, peers, now)
  }

  lemma EdgeIff(e: Edge, board: seq<TaskView>, tabs: seq<AgentTab>, me: string, peers: seq<string>, t: Table, now: nat)
    requires t.WellFormed()
    ensures e in EdgesOf(board, tabs, me, peers, t, now) <==>
            || (exists p :: p in peers && IsPeer(e, me, p)) || (exists tab :: tab in tabs && IsRunsOn(e, me, tab))
            || exists task :: task in board && OfTask(e, task, t, now)
  {
    var a, b := PeerEdges(me, peers), TabEdges(me, tabs);
    InAppend(e, a + b, BoardEdges(board, ByKey(InOrder(t.Live(now))), now));
    InAppend(e, a, b);
    PeerEdgeIff(e, me, peers);
    TabEdgeIff(e, me, tabs);
    BoardEdgeIff(e, board, t, now);
  }

  /**
    Every edge of the graph, kind by kind and in both directions: this host to each peer, each agent's tab to this host,
    each task to its home, each announcer and each bidder to the task, each agent awarded a task to that task.
    */
  lemma EdgesByKind(e: Edge, board: seq<TaskView>, tabs: seq<AgentTab>, me: string, peers: seq<string>, t: Table,
                    now: nat)
    requires t.WellFormed()
    ensures e in EdgesOf(board, tabs, me, peers, t, now) <==>
      match e.kind
      case Peer => exists p :: p in peers && IsPeer(e, me, p)
      case RunsOn => exists tab :: tab in tabs && IsRunsOn(e, me, tab)
      case Home => exists task :: task in board && IsHome(e, task)
      case Announced => exists task :: task in board && IsAnnounced(e, task)
      case Bid => exists task :: task in board && IsSomeBid(e, task)
      case WorksOn => exists task :: task in board && IsWork(e, task, t, now)
  {
    EdgeIff(e, board, tabs, me, peers, t, now);
    forall task ensures OfTask(e, task, t, now) <==>
      match e.kind
      case Home => IsHome(e, task)
      case Announced => IsAnnounced(e, task)
      case Bid => IsSomeBid(e, task)
      case WorksOn => IsWork(e, task, t, now)
      case _ => false
    {
    }
  }

  /** How many edges a board gives. */
  function BoardCount(board: seq<TaskView>): nat {
    if board == [] then 0
    else
      var t := board[|board| - 1];
      BoardCount(board[..|board| - 1]) + |t.bids| + (if t.home.Some? then 1 else 0)
      + (if t.announcedBy.Some? then 1 else 0) + (if t.awardedTo.Some? then 1 else 0)
  }

  lemma {:induction false} ListCounts(me: string, peers: seq<string>, tabs: seq<AgentTab>)
    ensures |PeerEdges(me, peers)| == |peers| && |TabEdges(me, tabs)| == |tabs|
    decreases |peers| + |tabs|
  {
    if peers != [] { ListCounts(me, peers[..|peers| - 1], tabs); }
    if tabs != [] { ListCounts(me, peers, tabs[..|tabs| - 1]); }
  }

  lemma {:induction false} BidCounts(task: string, bids: seq<(string, int)>)
    ensures |BidEdges(task, bids)| == |bids|
  {
    if bids != [] { BidCounts(task, bids[..|bids| - 1]); }
  }

  lemma {:induction false} BoardCounts(board: seq<TaskView>, live: map<string, Claim>, now: nat)
    ensures |BoardEdges(board, live, now)| == BoardCount(board)
  {
    if board != [] {
      var t := board[|board| - 1];
      BoardCounts(board[..|board| - 1], live, now);
      BidCounts(t.id, t.bids);
    }
  }

  /** No edge comes from nothing and none is given twice: there are as many as peers, tabs and entries of the board. */
  lemma EdgesCounted(board: seq<TaskView>, claims: seq<Claim>, tabs: seq<AgentTab>, me: string, peers: seq<string>,
                     now: nat)
    ensures |AllEdges(board, claims, tabs, me, peers, now)| == |peers| + |tabs| + BoardCount(board)
  {
    ListCounts(me, peers, tabs);
    BoardCounts(board, ByKey(claims), now);
  }

  // ------------------------------------------------------------ nodes, spelled out

  /** A task's lifecycle as its node shows it. */
  ghost predicate IsTaskNode(n: Node, task: TaskView) {
    && n == Node(Task(task.id), if task.title == "" then task.id else task.title, n.status, None)
    && (task.done == Some(true) ==> n.status == Some("done"))
    && (task.done == Some(false) ==> n.status == Some("failed"))
    && (task.done == None && task.awardedTo.Some? ==> n.status == Some("awarded"))
    && (task.done == None && task.awardedTo.None? && task.bids != [] ==> n.status == Some("bidding"))
    && (task.done == None && task.awardedTo.None? && task.bids == [] ==> n.status == Some("open"))
  }

  ghost predicate Names(task: TaskView, agent: string) {
    task.announcedBy == Some(agent) || task.awardedTo == Some(agent) || exists bid :: bid in task.bids && bid.0 == agent
  }

  ghost predicate IsHostNode(n: Node, name: string, status: string) {
    n == Node(Host(name), name, Some(status), None)
  }

  ghost predicate IsTabNode(n: Node, tab: AgentTab) {
    n == Node(Agent(tab.name), tab.name, tab.state, Some(tab.uuid))
  }

  /** Known from the board alone. */
  ghost predicate IsElsewhere(n: Node, task: TaskView) {
    n.id.Agent? && Names(task, n.id.name) && n == Node(n.id, n.id.name, Some("elsewhere"), None)
  }

  ghost predicate NodeOfTask(n: Node, task: TaskView) {
    IsTaskNode(n, task) || (task.home.Some? && IsHostNode(n, task.home.value, "peer")) || IsElsewhere(n, task)
  }

  lemma {:induction false} PeerNodeIff(n: Node, peers: seq<string>)
    ensures n in PeerNodes(peers) <==> exists p :: p in peers && IsHostNode(n, p, "peer")
  {
    if peers != [] {
      var before, last := peers[..|peers| - 1], peers[|peers| - 1];
      PeerNodeIff(n, before);
      InSnoc(peers);
      InAppend(n, PeerNodes(before), [HostNode(last, "peer")]);
      assert IsHostNode(n, last, "peer") <==> n in [HostNode(last, "peer")];
    }
  }

  lemma {:induction false} TabNodeIff(n: Node, tabs: seq<AgentTab>)
    ensures n in TabNodes(tabs) <==> exists tab :: tab in tabs && IsTabNode(n, tab)
  {
    if tabs != [] {
      var before, last := tabs[..|tabs| - 1], tabs[|tabs| - 1];
      TabNodeIff(n, before);
      InSnoc(tabs);
      InAppend(n, TabNodes(before), [TabNode(last)]);
      assert IsTabNode(n, last) <==> n in [TabNode(last)];
    }
  }

  lemma {:induction false} BidNodeIff(n: Node, bids: seq<(string, int)>)
    ensures n in BidNodes(bids) <==>
            && n.id.Agent? && n == Node(n.id, n.id.name, Some("elsewhere"), None)
            && exists b :: b in bids && b.0 == n.id.name
  {
    if bids != [] {
      var before, last := bids[..|bids| - 1], bids[|bids| - 1];
      BidNodeIff(n, before);
      InSnoc(bids);
      InAppend(n, BidNodes(before), [ElsewhereNode(last.0)]);
    }
  }

  lemma TaskNodeIff(n: Node, task: TaskView)
    ensures n in TaskNodes(task) <==> NodeOfTask(n, task)
  {
    var a, b, c, d := [TaskNode(task)], HomeNodes(task), AgentNodes(task.announcedBy), BidNodes(task.bids);
    var e := AgentNodes(task.awardedTo);
    InAppend(n, a + b + c + d, e);
    InAppend(n, a + b + c, d);
    InAppend(n, a + b, c);
    InAppend(n, a, b);
    BidNodeIff(n, task.bids);
    assert n in a <==> IsTaskNode(n, task);
  }

  lemma {:induction false} BoardNodeIff(n: Node, board: seq<TaskView>)
    ensures n in BoardNodes(board) <==> exists task :: task in board && NodeOfTask(n, task)
  {
    if board != [] {
      var before, last := board[..|board| - 1], board[|board| - 1];
      BoardNodeIff(n, before);
      TaskNodeIff(n, last);
      InAppend(n, BoardNodes(before), TaskNodes(last));
      InSnoc(board);
    }
  }

  /** Every node offered to the graph, spelled out; of those with one id the first is kept (`FirstOfferedWins`). */
  lemma OfferedIff(n: Node, board: seq<TaskView>, tabs: seq<AgentTab>, me: string, peers: seq<string>)
    ensures n in Offered(board, tabs, me, peers) <==>
            || IsHostNode(n, me, "self") || (exists p :: p in peers && IsHostNode(n, p, "peer"))
            || (exists tab :: tab in tabs && IsTabNode(n, tab)) || exists task :: task in board && NodeOfTask(n, task)
  {
    var self := [HostNode(me, "self")];
    InAppend(n, self + PeerNodes(peers) + TabNodes(tabs), BoardNodes(board));
    InAppend(n, self + PeerNodes(peers), TabNodes(tabs));
    InAppend(n, self, PeerNodes(peers));
    PeerNodeIff(n, peers);
    TabNodeIff(n, tabs);
    BoardNodeIff(n, board);
  }
}

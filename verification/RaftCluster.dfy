/**
 A whole Raft group as a transition system. Each step is one section of code that holds one peer's
 mutex. The network only remembers: a message that was sent may be delivered at any later time, in
 any order, more than once or never. Elections may fire at any time.
 */
module RaftCluster {
  import opened Sequences
  import opened RaftNode

  datatype Message =
    | VoteRequest(from: NodeId, dest: NodeId, vote: VoteArgs)
    | VoteResponse(from: NodeId, dest: NodeId, vote: VoteArgs, voteReply: VoteReply)
    | AppendRequest(from: NodeId, dest: NodeId, append: AppendArgs)
    | AppendResponse(from: NodeId, dest: NodeId, append: AppendArgs, appendReply: AppendReply)

  datatype Cluster = Cluster(peers: seq<NodeId>, nodes: map<NodeId, Node>, net: set<Message>)

  datatype Step =
    | Timeout(node: NodeId)
    | Deliver(msg: Message)
    | SendAppend(node: NodeId, peer: NodeId)
    | Propose(node: NodeId, command: Command)
    | Apply(node: NodeId)

  /** The peer whose mutex the step holds. */
  function Actor(step: Step): NodeId {
    if step.Deliver? then step.msg.dest else step.node
  }

  function Start(peers: seq<NodeId>): Cluster {
    Cluster(peers, map p | p in peers :: FRESH, {})
  }

  /**
   When the section runs past its own guards. A vote reply of the running election is counted by the
   one goroutine that asked for it, so its sender must still be awaited.
   */
  predicate Enabled(c: Cluster, step: Step) {
    && Actor(step) in c.nodes
    && var n := c.nodes[Actor(step)];
       match step
       case Timeout(_) => true
       case Deliver(m) =>
         && m in c.net
         && (m.VoteResponse? && n.role == Candidate && n.currentTerm == m.vote.term ==> m.from in n.awaiting)
       case SendAppend(me, peer) => n.role == Leader && peer in c.peers && peer != me
       case Propose(_, _) => true
       case Apply(_) => true
  }

  /** Every slice access the section makes is in bounds, so the section does not panic. */
  predicate InBounds(c: Cluster, step: Step)
    requires Enabled(c, step)
  {
    var n := c.nodes[Actor(step)];
    && |n.log| > 0
    && match step
       case Deliver(m) =>
         m.AppendResponse? && Current(n, m.append, m.appendReply) && !m.appendReply.success ==>
           Backtrack(n.log, m.appendReply) >= 0
       case SendAppend(_, peer) => At(n.nextIndex, peer) <= |n.log|
       case Apply(_) => n.commitIndex < |n.log|
       case _ => true
  }

  /** The actor's state after the step. */
  function React(c: Cluster, step: Step): Node
    requires Enabled(c, step) && InBounds(c, step)
  {
    var me := Actor(step);
    var n := c.nodes[me];
    match step
    case Timeout(_) => StartElection(n, me, c.peers)
    case Deliver(VoteRequest(_, _, args)) => HandleVote(n, args).0
    case Deliver(VoteResponse(from, _, args, reply)) => HandleVoteReply(n, me, c.peers, from, args.term, reply)
    case Deliver(AppendRequest(_, _, args)) => HandleAppend(n, args).0
    case Deliver(AppendResponse(from, _, args, reply)) => HandleAppendReply(n, me, c.peers, from, args, reply)
    case SendAppend(_, _) => n
    case Propose(_, command) => ClientStart(n, me, command)
    case Apply(_) => ApplyCommitted(n)
  }

  /** What the step puts on the network. */
  function Sent(c: Cluster, step: Step): set<Message>
    requires Enabled(c, step) && InBounds(c, step)
  {
    var me := Actor(step);
    var n := c.nodes[me];
    match step
    case Timeout(_) =>
      var request := VoteRequestOf(React(c, step), me);
      set p | p in c.peers && p != me :: VoteRequest(me, p, request)
    case Deliver(VoteRequest(from, _, args)) => {VoteResponse(me, from, args, HandleVote(n, args).1)}
    case Deliver(AppendRequest(from, _, args)) => {AppendResponse(me, from, args, HandleAppend(n, args).1)}
    case SendAppend(_, peer) => {AppendRequest(me, peer, BuildAppend(n, me, peer))}
    case _ => {}
  }

  function Exec(c: Cluster, step: Step): Cluster {
    if Enabled(c, step) && InBounds(c, step) then
      Cluster(c.peers, c.nodes[Actor(step) := React(c, step)], c.net + Sent(c, step))
    else c
  }

  /** The group after a run. Every theorem about Raft here quantifies over all peers and all runs. */
  function Run(peers: seq<NodeId>, steps: seq<Step>): Cluster {
    if steps == [] then Start(peers)
    else Exec(Run(peers, steps[..|steps| - 1]), steps[|steps| - 1])
  }

  lemma PeersKept(peers: seq<NodeId>, steps: seq<Step>)
    ensures Run(peers, steps).peers == peers
    ensures Run(peers, steps).nodes.Keys == Elements(peers)
  {
  }
}

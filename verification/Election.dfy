/** Leader election: what one node does with votes, and a cluster of any size whose packets may be
    lost or overtake each other and whose nodes may crash and restart at any time. */
module Election {
  datatype Role = Follower | Candidate | Leader

  const NOBODY: int := -1

  /** The part of a node that takes part in elections. */
  datatype Ballot = Ballot(role: Role, term: nat, votedFor: int, voteCount: nat)

  const FreshBallot: Ballot := Ballot(Follower, 0, NOBODY, 0)

  function BecomeFollower(b: Ballot, term: nat): Ballot {
    b.(role := Follower, term := term, votedFor := NOBODY)
  }

  function BecomeCandidate(b: Ballot, id: int): Ballot {
    Ballot(Candidate, b.term + 1, id, 1)
  }

  function BecomeLeader(b: Ballot): Ballot {
    b.(role := Leader, voteCount := 0, votedFor := NOBODY)
  }

  datatype VoteReply = VoteReply(ballot: Ballot, term: nat, granted: bool)

  /** upToDate: the candidate's log is at least as new as the voter's. */
  function OnVoteRequest(b: Ballot, from: int, term: nat, upToDate: bool): VoteReply {
    if term < b.term then VoteReply(b, b.term, false)
    else
      var c := if term > b.term then BecomeFollower(b, term) else b;
      if (c.votedFor != NOBODY && c.votedFor != from) || !upToDate then VoteReply(c, c.term, false)
      else VoteReply(c.(votedFor := from), c.term, true)
  }

  /** nodes: how many nodes the cluster has. */
  function OnVoteResponse(b: Ballot, term: nat, granted: bool, nodes: nat): Ballot {
    if b.role != Candidate || term < b.term then b
    else if term > b.term then BecomeFollower(b, term)
    else if !granted then b
    else if b.voteCount + 1 > nodes / 2 then BecomeLeader(b.(voteCount := b.voteCount + 1))
    else b.(voteCount := b.voteCount + 1)
  }

  /** After a restart a node has only what it last persisted: its term and its vote. */
  function Restart(b: Ballot): Ballot {
    Ballot(Follower, b.term, b.votedFor, 0)
  }

  // ---- the cluster ----

  /** A vote request, and its response, which carries the voter's own term. */
  datatype Packet =
    | Request(candidate: nat, voter: nat, asked: nat)
    | Response(candidate: nat, voter: nat, asked: nat, term: nat, granted: bool)

  /** What has happened so far. before and after: whom a node voted for in a term, before and after
      it won that term itself; first: the first winner of a term; counted: whose votes a candidate
      has counted. */
  datatype History = History(before: map<(nat, nat), nat>, after: map<(nat, nat), nat>, won: set<(nat, nat)>,
                             first: map<nat, nat>, quorum: map<nat, set<nat>>, counted: seq<set<nat>>)

  datatype Cluster = Cluster(nodes: seq<Ballot>, packets: set<Packet>, past: History)

  datatype Action =
    | Timeout(node: nat)
    | DeliverRequest(packet: Packet, upToDate: bool)
    | DeliverResponse(packet: Packet)
    | HigherTerm(node: nat, term: nat)
    | Lose(packet: Packet)
    | Crash(node: nat)

  ghost function Start(n: nat): Cluster {
    Cluster(seq(n, _ => FreshBallot), {}, History(map[], map[], {}, map[], map[], seq(n, _ => {})))
  }

  predicate Enabled(c: Cluster, a: Action) {
    match a
    case Timeout(n) => n < |c.nodes| && c.nodes[n].role != Leader
    case DeliverRequest(p, _) => p in c.packets && p.Request? && p.voter < |c.nodes|
    case DeliverResponse(p) => p in c.packets && p.Response? && p.candidate < |c.nodes|
    case HigherTerm(n, t) => n < |c.nodes| && t > c.nodes[n].term
    case Lose(p) => p in c.packets
    case Crash(n) => n < |c.nodes|
  }

  function Granted(h: History, v: nat, d: nat, term: nat): History {
    if (v, term) in h.won then h.(after := h.after[(v, term) := d]) else h.(before := h.before[(v, term) := d])
  }

  function Won(h: History, n: nat, term: nat, votes: set<nat>): History {
    if term in h.first then h.(won := h.won + {(n, term)})
    else h.(won := h.won + {(n, term)}, first := h.first[term := n], quorum := h.quorum[term := votes])
  }

  function CountedBy(h: History, n: nat): set<nat> {
    if n < |h.counted| then h.counted[n] else {}
  }

  function Count(h: History, n: nat, votes: set<nat>): History {
    if n < |h.counted| then h.(counted := h.counted[n := votes]) else h
  }

  ghost function Apply(c: Cluster, a: Action): Cluster
    requires Enabled(c, a)
  {
    var h := c.past;
    match a
    case Timeout(n) =>
      var b := BecomeCandidate(c.nodes[n], n);
      var asks := set v | 0 <= v < |c.nodes| && v != n :: Request(n, v, b.term);
      Cluster(c.nodes[n := b], c.packets + asks, Count(Granted(h, n, n, b.term), n, {n}))
    case DeliverRequest(p, upToDate) =>
      var reply := OnVoteRequest(c.nodes[p.voter], p.candidate, p.asked, upToDate);
      var back := Response(p.candidate, p.voter, p.asked, reply.term, reply.granted);
      Cluster(c.nodes[p.voter := reply.ballot], c.packets - {p} + {back},
              if reply.granted then Granted(h, p.voter, p.candidate, reply.term) else h)
    case DeliverResponse(p) =>
      var n, was := p.candidate, c.nodes[p.candidate];
      var b := OnVoteResponse(was, p.term, p.granted, |c.nodes|);
      var counts := was.role == Candidate && p.term == was.term && p.granted;
      var votes := if counts then CountedBy(h, n) + {p.voter} else CountedBy(h, n);
      var h1 := Count(h, n, votes);
      Cluster(c.nodes[n := b], c.packets - {p},
              if was.role == Candidate && b.role == Leader then Won(h1, n, b.term, votes) else h1)
    case HigherTerm(n, t) => c.(nodes := c.nodes[n := BecomeFollower(c.nodes[n], t)])
    case Lose(p) => c.(packets := c.packets - {p})
    case Crash(n) => c.(nodes := c.nodes[n := Restart(c.nodes[n])])
  }

  // ---- the invariant ----

  /** Node v voted for d in a term. */
  ghost predicate Voted(h: History, v: nat, d: nat, term: nat) {
    ((v, term) in h.before && h.before[(v, term)] == d) || ((v, term) in h.after && h.after[(v, term)] == d)
  }

  /** What a node's ballot says about its votes. */
  ghost predicate BallotOk(h: History, v: nat, b: Ballot) {
    && (forall t :: (v, t) in h.before || (v, t) in h.after || (v, t) in h.won ==> t <= b.term)
    && ((v, b.term) in h.before && (v, b.term) !in h.won ==> b.votedFor == h.before[(v, b.term)])
    && ((v, b.term) in h.won ==> b.role != Candidate)
    && ((v, b.term) in h.after ==> b.votedFor == h.after[(v, b.term)])
    && (b.votedFor == NOBODY || b.votedFor >= 0)
  }

  /** Winners voted for themselves first, and only winners have voted after a win. */
  ghost predicate WinnersOk(h: History) {
    && (forall v, t :: (v, t) in h.won ==> (v, t) in h.before && h.before[(v, t)] == v)
    && (forall v, t :: (v, t) in h.after ==> (v, t) in h.won)
  }

  ghost predicate CountedOk(h: History, n: nat, b: Ballot, votes: set<nat>, nodes: nat) {
    b.role == Candidate ==>
      && |votes| == b.voteCount && (n, b.term) in h.before && h.before[(n, b.term)] == n
      && forall v :: v in votes ==> v < nodes && Voted(h, v, n, b.term)
  }

  /** Packets belong to a candidacy that has begun, and a vote is counted at most once. */
  ghost predicate PacketOk(c: Cluster, p: Packet) {
    && p.candidate < |c.nodes| == |c.past.counted| && p.voter < |c.nodes| && p.asked <= c.nodes[p.candidate].term
    && p.candidate != p.voter
    && (c.nodes[p.candidate].role == Candidate && c.nodes[p.candidate].term == p.asked ==>
      p.voter !in c.past.counted[p.candidate])
    && (p.Response? && p.granted ==> p.term == p.asked && Voted(c.past, p.voter, p.candidate, p.asked))
    && (p.Request? ==> forall t, g :: Response(p.candidate, p.voter, p.asked, t, g) !in c.packets)
  }

  /** The first winner of a term won with votes cast before any win; every other winner has the
      first winner's vote, cast after its win. */
  ghost predicate TermOk(h: History, t: nat, nodes: nat) {
    && t in h.first && t in h.quorum && (h.first[t], t) in h.won
    && |h.quorum[t]| > nodes / 2
    && (forall v :: v in h.quorum[t] ==> v < nodes && (v, t) in h.before && h.before[(v, t)] == h.first[t])
    && (forall n :: (n, t) in h.won && n != h.first[t] ==> (h.first[t], t) in h.after && h.after[(h.first[t], t)] == n)
  }

  ghost predicate TermsOk(h: History, nodes: nat) {
    && (forall t :: t in h.first ==> TermOk(h, t, nodes))
    && (forall n, t :: (n, t) in h.won ==> t in h.first)
  }

  ghost predicate BallotsOk(c: Cluster) {
    && |c.past.counted| == |c.nodes|
    && (forall v :: 0 <= v < |c.nodes| ==> BallotOk(c.past, v, c.nodes[v]))
    && (forall v :: 0 <= v < |c.nodes| ==> CountedOk(c.past, v, c.nodes[v], c.past.counted[v], |c.nodes|))
  }

  predicate SameAnswer(p: Packet, q: Packet) {
    p.Response? && q.Response? && p.candidate == q.candidate && p.voter == q.voter && p.asked == q.asked
  }

  ghost predicate PacketsOk(c: Cluster) {
    && (forall p :: p in c.packets ==> PacketOk(c, p))
    && (forall p, q :: p in c.packets && q in c.packets && SameAnswer(p, q) ==> p == q)
  }

  ghost predicate Inv(c: Cluster) {
    BallotsOk(c) && PacketsOk(c) && WinnersOk(c.past) && TermsOk(c.past, |c.nodes|)
  }

  lemma StartInv(n: nat)
    ensures Inv(Start(n))
  {}

  // ---- histories only grow ----

  ghost predicate Extends(h: History, h': History) {
    && (forall k :: k in h.before ==> k in h'.before && h'.before[k] == h.before[k])
    && (forall k :: k in h.after ==> k in h'.after && h'.after[k] == h.after[k])
    && h.won <= h'.won
  }

  lemma VotedExtends(h: History, h': History)
    requires Extends(h, h')
    ensures forall v, d, t :: Voted(h, v, d, t) ==> Voted(h', v, d, t)
  {}

  /** A vote for d in term t does not contradict an earlier one. */
  ghost predicate MayVote(h: History, v: nat, d: nat, t: nat) {
    && ((v, t) in h.before && (v, t) !in h.won ==> h.before[(v, t)] == d)
    && ((v, t) in h.after ==> h.after[(v, t)] == d)
  }

  lemma GrantedExtends(h: History, v: nat, d: nat, t: nat)
    requires MayVote(h, v, d, t)
    ensures Extends(h, Granted(h, v, d, t)) && Voted(Granted(h, v, d, t), v, d, t)
  {}

  lemma GrantedWinners(h: History, v: nat, d: nat, t: nat)
    requires WinnersOk(h)
    ensures WinnersOk(Granted(h, v, d, t))
  {}

  lemma TermExtends(h: History, h': History, t: nat, nodes: nat)
    requires TermOk(h, t, nodes) && Extends(h, h') && h'.won == h.won && h'.first == h.first && h'.quorum == h.quorum
    ensures TermOk(h', t, nodes)
  {}

  lemma TermsExtend(h: History, h': History, nodes: nat)
    requires TermsOk(h, nodes) && Extends(h, h') && h'.won == h.won && h'.first == h.first && h'.quorum == h.quorum
    ensures TermsOk(h', nodes)
  {
    hide TermOk, Extends;
    forall t | t in h'.first ensures TermOk(h', t, nodes) {
      TermExtends(h, h', t, nodes);
    }
  }

  /** Nothing happened to node v's own votes. */
  ghost predicate SameVotes(h: History, h': History, v: nat) {
    && (forall t :: (v, t) in h'.before <==> (v, t) in h.before)
    && (forall t :: (v, t) in h.before ==> h'.before[(v, t)] == h.before[(v, t)])
    && (forall t :: (v, t) in h'.after <==> (v, t) in h.after)
    && (forall t :: (v, t) in h.after ==> h'.after[(v, t)] == h.after[(v, t)])
    && (forall t :: (v, t) in h'.won <==> (v, t) in h.won)
  }

  lemma BallotFrame(h: History, h': History, v: nat, b: Ballot)
    requires BallotOk(h, v, b) && SameVotes(h, h', v)
    ensures BallotOk(h', v, b)
  {}

  lemma CountedFrame(h: History, h': History, v: nat, b: Ballot, votes: set<nat>, nodes: nat)
    requires CountedOk(h, v, b, votes, nodes) && Extends(h, h')
    ensures CountedOk(h', v, b, votes, nodes)
  {
    VotedExtends(h, h');
    hide Voted;
  }

  /** A step that changes node n only. */
  lemma BallotsStep(c: Cluster, n: nat, b: Ballot, votes: set<nat>, packets: set<Packet>, h: History)
    requires BallotsOk(c) && n < |c.nodes| && Extends(c.past, h) && h.counted == c.past.counted[n := votes]
    requires forall v :: 0 <= v < |c.nodes| && v != n ==> SameVotes(c.past, h, v)
    requires BallotOk(h, n, b) && CountedOk(h, n, b, votes, |c.nodes|)
    ensures BallotsOk(Cluster(c.nodes[n := b], packets, h))
  {
    hide BallotOk, CountedOk, SameVotes, Extends;
    forall v: nat | v < |c.nodes| && v != n
      ensures BallotOk(h, v, c.nodes[v]) && CountedOk(h, v, c.nodes[v], c.past.counted[v], |c.nodes|)
    {
      BallotFrame(c.past, h, v, c.nodes[v]);
      CountedFrame(c.past, h, v, c.nodes[v], c.past.counted[v], |c.nodes|);
    }
  }

  /** A packet that stays under way while node n changes. */
  lemma PacketFrame(c: Cluster, p: Packet, n: nat, b: Ballot, votes: set<nat>, packets: set<Packet>, h: History)
    requires PacketOk(c, p) && n < |c.nodes| && Extends(c.past, h) && h.counted == c.past.counted[n := votes]
    requires b.term >= c.nodes[n].term
    requires p.candidate == n && b.role == Candidate && b.term == p.asked ==>
      c.nodes[n].role == Candidate && c.nodes[n].term == p.asked && (p.voter in votes ==> p.voter in c.past.counted[n])
    requires p.Request? ==> forall t, g :: Response(p.candidate, p.voter, p.asked, t, g) in packets ==>
      Response(p.candidate, p.voter, p.asked, t, g) in c.packets
    ensures PacketOk(Cluster(c.nodes[n := b], packets, h), p)
  {
    VotedExtends(c.past, h);
    hide Voted, Extends;
  }

  // ---- each step keeps the invariant ----

  lemma NewTermFree(c: Cluster, n: nat, t: nat)
    requires BallotsOk(c) && n < |c.nodes| && t > c.nodes[n].term
    ensures (n, t) !in c.past.before && (n, t) !in c.past.after && (n, t) !in c.past.won
  {
    hide CountedOk;
    assert BallotOk(c.past, n, c.nodes[n]);
  }

  /** Steps that only change the role or move to a later term without a vote. */
  lemma QuietStep(c: Cluster, n: nat, b: Ballot, packets: set<Packet>)
    requires Inv(c) && n < |c.nodes| && packets <= c.packets && b.role != Candidate
    requires b.term >= c.nodes[n].term
    requires b.votedFor == (if b.term > c.nodes[n].term then NOBODY else c.nodes[n].votedFor)
    ensures Inv(Cluster(c.nodes[n := b], packets, c.past))
  {
    var votes := c.past.counted[n];
    assert c.past.counted[n := votes] == c.past.counted;
    assert BallotOk(c.past, n, c.nodes[n]);
    assert BallotOk(c.past, n, b);
    hide BallotOk, TermsOk, WinnersOk, SameAnswer;
    SameVotesSelf(c.past);
    hide SameVotes, Extends;
    BallotsStep(c, n, b, votes, packets, c.past);
    forall p | p in packets ensures PacketOk(Cluster(c.nodes[n := b], packets, c.past), p) {
      PacketFrame(c, p, n, b, votes, packets, c.past);
    }
  }

  lemma SameVotesSelf(h: History)
    ensures Extends(h, h) && forall v :: SameVotes(h, h, v)
  {}

  lemma LoseKeeps(c: Cluster, p: Packet)
    requires Inv(c) && Enabled(c, Lose(p))
    ensures Inv(Apply(c, Lose(p)))
  {
    hide BallotOk, CountedOk, TermsOk, WinnersOk, Voted, SameAnswer;
  }

  lemma TimeoutKeeps(c: Cluster, n: nat)
    requires Inv(c) && Enabled(c, Timeout(n))
    ensures Inv(Apply(c, Timeout(n)))
  {
    var h, b := c.past, BecomeCandidate(c.nodes[n], n);
    var asks := set v | 0 <= v < |c.nodes| && v != n :: Request(n, v, b.term);
    var h' := Granted(h, n, n, b.term).(counted := h.counted[n := {n}]);
    NewTermFree(c, n, b.term);
    GrantedExtends(h, n, n, b.term);
    GrantedWinners(h, n, n, b.term);
    CandidateBallot(c, n);
    hide TermsOk, WinnersOk, BallotOk, CountedOk;
    TermsExtend(h, h', |c.nodes|);
    SameWinners(Granted(h, n, n, b.term), h');
    BallotsStep(c, n, b, {n}, c.packets + asks, h');
    TimeoutPackets(c, n, h');
  }

  lemma SameWinners(h: History, h': History)
    requires WinnersOk(h) && h'.before == h.before && h'.after == h.after && h'.won == h.won
    ensures WinnersOk(h')
  {}

  lemma CandidateBallot(c: Cluster, n: nat)
    requires BallotsOk(c) && n < |c.nodes|
    ensures var b := BecomeCandidate(c.nodes[n], n);
            var h' := Granted(c.past, n, n, b.term).(counted := c.past.counted[n := {n}]);
            && BallotOk(h', n, b) && CountedOk(h', n, b, {n}, |c.nodes|)
            && forall v :: v != n ==> SameVotes(c.past, h', v)
  {
    NewTermFree(c, n, c.nodes[n].term + 1);
    assert BallotOk(c.past, n, c.nodes[n]);
    hide CountedOk;
    var h' := Granted(c.past, n, n, c.nodes[n].term + 1);
    assert Voted(h', n, n, c.nodes[n].term + 1);
    assert |{n}| == 1;
    CountsSelf(h'.(counted := c.past.counted[n := {n}]), n, BecomeCandidate(c.nodes[n], n), |c.nodes|);
  }

  lemma CountsSelf(h: History, n: nat, b: Ballot, nodes: nat)
    requires b.voteCount == 1 && (n, b.term) in h.before && h.before[(n, b.term)] == n && n < nodes
    ensures CountedOk(h, n, b, {n}, nodes)
  {}

  lemma TimeoutPackets(c: Cluster, n: nat, h': History)
    requires BallotsOk(c) && PacketsOk(c) && n < |c.nodes| && Extends(c.past, h')
    requires h'.counted == c.past.counted[n := {n}]
    ensures var b := BecomeCandidate(c.nodes[n], n);
            var asks := set v | 0 <= v < |c.nodes| && v != n :: Request(n, v, b.term);
            PacketsOk(Cluster(c.nodes[n := b], c.packets + asks, h'))
  {
    var b := BecomeCandidate(c.nodes[n], n);
    var asks := set v | 0 <= v < |c.nodes| && v != n :: Request(n, v, b.term);
    var c' := Cluster(c.nodes[n := b], c.packets + asks, h');
    hide BallotOk, CountedOk, Extends;
    forall p | p in c'.packets ensures PacketOk(c', p) {
      if p in c.packets {
        assert PacketOk(c, p);
        PacketFrame(c, p, n, b, {n}, c'.packets, h');
      } else {
        NoAnswerYet(c, p);
      }
    }
  }

  lemma NoAnswerYet(c: Cluster, p: Packet)
    requires PacketsOk(c) && p.Request? && p.candidate < |c.nodes| && p.asked > c.nodes[p.candidate].term
    ensures forall t, g :: Response(p.candidate, p.voter, p.asked, t, g) !in c.packets
  {
    forall t, g ensures Response(p.candidate, p.voter, p.asked, t, g) !in c.packets {
      assert Response(p.candidate, p.voter, p.asked, t, g) in c.packets ==>
        PacketOk(c, Response(p.candidate, p.voter, p.asked, t, g));
    }
  }

  // ---- a request is answered ----

  lemma VoteAllowed(c: Cluster, p: Packet, upToDate: bool)
    requires Inv(c) && Enabled(c, DeliverRequest(p, upToDate))
    ensures var reply := OnVoteRequest(c.nodes[p.voter], p.candidate, p.asked, upToDate);
            && reply.ballot.term >= c.nodes[p.voter].term
            && (reply.granted ==> reply.term == p.asked == reply.ballot.term && reply.ballot.votedFor == p.candidate
                                  && reply.ballot.role != Candidate
                                  && MayVote(c.past, p.voter, p.candidate, p.asked))
  {
    var v := p.voter;
    assert BallotOk(c.past, v, c.nodes[v]);
    assert PacketOk(c, p);
    assert CountedOk(c.past, v, c.nodes[v], c.past.counted[v], |c.nodes|);
    hide BallotsOk, PacketsOk, TermsOk;
  }

  lemma VoterBallot(h: History, v: nat, b: Ballot, d: nat, t: nat, upToDate: bool)
    requires BallotOk(h, v, b) && WinnersOk(h)
    requires var r := OnVoteRequest(b, d, t, upToDate); r.granted ==> MayVote(h, v, d, t) && r.ballot.role != Candidate
    ensures var r := OnVoteRequest(b, d, t, upToDate);
            BallotOk(if r.granted then Granted(h, v, d, t) else h, v, r.ballot)
  {}

  lemma VoterCounted(h: History, v: nat, b: Ballot, votes: set<nat>, d: nat, t: nat, upToDate: bool, nodes: nat)
    requires CountedOk(h, v, b, votes, nodes)
    requires OnVoteRequest(b, d, t, upToDate).granted ==> OnVoteRequest(b, d, t, upToDate).ballot.role != Candidate
    ensures CountedOk(h, v, OnVoteRequest(b, d, t, upToDate).ballot, votes, nodes)
  {}

  lemma GrantedOthers(h: History, v: nat, d: nat, t: nat)
    ensures forall u :: u != v ==> SameVotes(h, Granted(h, v, d, t), u)
  {}

  lemma RequestKeeps(c: Cluster, p: Packet, upToDate: bool)
    requires Inv(c) && Enabled(c, DeliverRequest(p, upToDate))
    ensures Inv(Apply(c, DeliverRequest(p, upToDate)))
  {
    var v, h, b := p.voter, c.past, c.nodes[p.voter];
    var reply := OnVoteRequest(b, p.candidate, p.asked, upToDate);
    var h' := if reply.granted then Granted(h, v, p.candidate, p.asked) else h;
    VoteAllowed(c, p, upToDate);
    assert BallotOk(h, v, b) && CountedOk(h, v, b, h.counted[v], |c.nodes|);
    VoterBallot(h, v, b, p.candidate, p.asked, upToDate);
    VoterCounted(h, v, b, h.counted[v], p.candidate, p.asked, upToDate, |c.nodes|);
    SameVotesSelf(h);
    if reply.granted {
      GrantedExtends(h, v, p.candidate, p.asked);
      GrantedWinners(h, v, p.candidate, p.asked);
      GrantedOthers(h, v, p.candidate, p.asked);
    }
    hide TermsOk, WinnersOk, BallotOk, CountedOk, SameVotes, Extends, OnVoteRequest, MayVote;
    TermsExtend(h, h', |c.nodes|);
    CountedFrame(h, h', v, reply.ballot, h.counted[v], |c.nodes|);
    var back := Response(p.candidate, v, p.asked, reply.term, reply.granted);
    assert h.counted[v := h.counted[v]] == h.counted;
    BallotsStep(c, v, reply.ballot, h.counted[v], c.packets - {p} + {back}, h');
    RequestPackets(c, p, reply, h');
  }

  lemma RequestPackets(c: Cluster, p: Packet, reply: VoteReply, h': History)
    requires BallotsOk(c) && PacketsOk(c) && p in c.packets && p.Request? && p.voter < |c.nodes|
    requires Extends(c.past, h') && h'.counted == c.past.counted && reply.ballot.term >= c.nodes[p.voter].term
    requires reply.ballot.role == Candidate ==>
      reply.ballot.term == c.nodes[p.voter].term && c.nodes[p.voter].role == Candidate
    requires reply.granted ==> reply.term == p.asked && Voted(h', p.voter, p.candidate, p.asked)
    ensures var back := Response(p.candidate, p.voter, p.asked, reply.term, reply.granted);
            PacketsOk(Cluster(c.nodes[p.voter := reply.ballot], c.packets - {p} + {back}, h'))
  {
    var back := Response(p.candidate, p.voter, p.asked, reply.term, reply.granted);
    var v, votes, packets := p.voter, c.past.counted[p.voter], c.packets - {p} + {back};
    var c' := Cluster(c.nodes[v := reply.ballot], packets, h');
    assert c.past.counted[v := votes] == c.past.counted;
    assert PacketOk(c, p);
    hide BallotOk, CountedOk, Extends, Voted;
    forall q | q in packets ensures PacketOk(c', q) {
      if q in c.packets {
        assert PacketOk(c, q);
        assert q.Request? ==> q.candidate != back.candidate || q.voter != back.voter || q.asked != back.asked;
        PacketFrame(c, q, v, reply.ballot, votes, packets, h');
      }
    }
    forall q, r | q in packets && r in packets && SameAnswer(q, r) ensures q == r {
      if q != r && (q == back || r == back) {
        AnsweredOnce(c, p, if q == back then r else q);
      }
    }
  }

  lemma AnsweredOnce(c: Cluster, p: Packet, q: Packet)
    requires p in c.packets && q in c.packets && PacketOk(c, p) && p.Request? && q.Response?
    ensures !(q.candidate == p.candidate && q.voter == p.voter && q.asked == p.asked)
  {
    assert q == Response(q.candidate, q.voter, q.asked, q.term, q.granted);
  }

  // ---- a response is counted ----

  ghost function Below(n: nat): (r: set<nat>)
    ensures |r| == n && forall v: nat :: v in r <==> v < n
  {
    if n == 0 then {} else Below(n - 1) + {n - 1}
  }

  lemma SubsetSize(a: set<nat>, b: set<nat>)
    requires a <= b
    ensures |a| <= |b|
  {
    assert |b - a| == |b| - |a|;
  }

  /** Two majorities of the same nodes have a node in common. */
  lemma MajoritiesMeet(a: set<nat>, b: set<nat>, n: nat) returns (v: nat)
    requires |a| > n / 2 && |b| > n / 2
    requires (forall x :: x in a ==> x < n) && (forall x :: x in b ==> x < n)
    ensures v in a && v in b
  {
    assert |a + b| == |a| + |b| - |a * b|;
    assert a + b <= Below(n);
    SubsetSize(a + b, Below(n));
    assert |a * b| > 0;
    v :| v in a * b;
  }

  /** All votes for the first winner were cast before any win. */
  lemma FirstWin(h: History, n: nat, t: nat, votes: set<nat>, nodes: nat)
    requires WinnersOk(h) && TermsOk(h, nodes) && t !in h.first && |votes| > nodes / 2
    requires forall v :: v in votes ==> v < nodes && Voted(h, v, n, t)
    ensures TermOk(Won(h, n, t, votes), t, nodes)
  {
    assert forall v :: (v, t) !in h.won;
    assert forall v :: (v, t) !in h.after;
  }

  /** A later winner shares a voter with the first one: the first winner itself, voting again. */
  lemma NextWin(h: History, n: nat, t: nat, votes: set<nat>, nodes: nat)
    requires WinnersOk(h) && TermsOk(h, nodes) && t in h.first && (n, t) !in h.won && |votes| > nodes / 2
    requires forall v :: v in votes ==> v < nodes && Voted(h, v, n, t)
    ensures TermOk(Won(h, n, t, votes), t, nodes)
  {
    assert TermOk(h, t, nodes);
    var v := MajoritiesMeet(h.quorum[t], votes, nodes);
    assert Voted(h, v, n, t);
    assert (v, t) in h.after && h.after[(v, t)] == n;
    assert v == h.first[t];
  }

  lemma WonOtherTerm(h: History, n: nat, t: nat, votes: set<nat>, u: nat, nodes: nat)
    requires TermOk(h, u, nodes) && u != t
    ensures TermOk(Won(h, n, t, votes), u, nodes)
  {}

  lemma WonTerms(h: History, n: nat, t: nat, votes: set<nat>, nodes: nat)
    requires WinnersOk(h) && TermsOk(h, nodes) && (n, t) !in h.won && |votes| > nodes / 2
    requires forall v :: v in votes ==> v < nodes && Voted(h, v, n, t)
    ensures TermsOk(Won(h, n, t, votes), nodes)
  {
    var h' := Won(h, n, t, votes);
    if t in h.first {
      NextWin(h, n, t, votes, nodes);
    } else {
      FirstWin(h, n, t, votes, nodes);
    }
    hide TermOk, WinnersOk, Voted;
    forall u | u in h'.first ensures TermOk(h', u, nodes) {
      if u != t {
        WonOtherTerm(h, n, t, votes, u, nodes);
      }
    }
  }

  lemma WonBallot(h: History, n: nat, b: Ballot, votes: set<nat>)
    requires BallotOk(h, n, b) && WinnersOk(h) && b.role == Candidate && (n, b.term) in h.before
    requires h.before[(n, b.term)] == n
    ensures var h', l := Won(h, n, b.term, votes), BecomeLeader(b);
            && BallotOk(h', n, l) && WinnersOk(h') && Extends(h, h')
            && (n, b.term) !in h.won && forall v :: v != n ==> SameVotes(h, h', v)
  {}

  /** One more vote for a candidate that is still below the majority. */
  lemma CountedMore(h: History, n: nat, b: Ballot, votes: set<nat>, v: nat, nodes: nat)
    requires CountedOk(h, n, b, votes, nodes) && b.role == Candidate && v !in votes && v < nodes
    requires Voted(h, v, n, b.term)
    ensures CountedOk(h, n, b.(voteCount := b.voteCount + 1), votes + {v}, nodes)
  {
    hide Voted;
  }

  lemma VoteCounts(c: Cluster, p: Packet)
    requires Inv(c) && Enabled(c, DeliverResponse(p))
    requires c.nodes[p.candidate].role == Candidate && p.term == c.nodes[p.candidate].term && p.granted
    ensures var n := p.candidate;
            && p.asked == p.term && p.voter < |c.nodes| && p.voter !in c.past.counted[n]
            && Voted(c.past, p.voter, n, p.term)
            && CountedOk(c.past, n, c.nodes[n], c.past.counted[n], |c.nodes|) && BallotOk(c.past, n, c.nodes[n])
  {
    assert PacketOk(c, p);
    hide TermsOk, WinnersOk, BallotOk, CountedOk, Voted;
  }

  lemma ResponsePackets(c: Cluster, p: Packet, b: Ballot, votes: set<nat>, h: History)
    requires PacketsOk(c) && p in c.packets && p.Response? && p.candidate < |c.nodes| == |c.past.counted|
    requires Extends(c.past, h) && h.counted == c.past.counted[p.candidate := votes]
    requires b.term == c.nodes[p.candidate].term && (b.role == Candidate ==> c.nodes[p.candidate].role == Candidate)
    requires votes == c.past.counted[p.candidate] + {p.voter} && p.asked == b.term
    ensures PacketsOk(Cluster(c.nodes[p.candidate := b], c.packets - {p}, h))
  {
    var n, packets := p.candidate, c.packets - {p};
    var c' := Cluster(c.nodes[n := b], packets, h);
    assert PacketOk(c, p);
    hide Extends, Voted;
    forall q | q in packets ensures PacketOk(c', q) {
      assert PacketOk(c, q) && !SameAnswer(p, q);
      if q.Request? {
        AnsweredOnce(c, q, p);
      }
      PacketFrame(c, q, n, b, votes, packets, h);
    }
  }

  lemma CountKeeps(c: Cluster, p: Packet)
    requires Inv(c) && Enabled(c, DeliverResponse(p))
    requires c.nodes[p.candidate].role == Candidate && p.term == c.nodes[p.candidate].term && p.granted
    ensures Inv(Apply(c, DeliverResponse(p)))
  {
    var n, h := p.candidate, c.past;
    var b, votes := c.nodes[n], h.counted[n] + {p.voter};
    var h1 := h.(counted := h.counted[n := votes]);
    VoteCounts(c, p);
    var more := b.(voteCount := b.voteCount + 1);
    CountedMore(h, n, b, h.counted[n], p.voter, |c.nodes|);
    CountedHistory(h, h1, n, b, more, votes, |c.nodes|);
    hide BallotOk, CountedOk, WinnersOk, TermsOk, Extends, SameVotes;
    if more.voteCount > |c.nodes| / 2 {
      CandidateCounts(h1, n, more, votes, |c.nodes|);
      WonBallot(h1, n, more, votes);
      WonTerms(h1, n, b.term, votes, |c.nodes|);
      var h' := Won(h1, n, b.term, votes);
      LeaderCounted(h', n, more, votes, |c.nodes|);
      ExtendsTransitive(h, h1, h');
      BallotsStep(c, n, BecomeLeader(more), votes, c.packets - {p}, h');
      ResponsePackets(c, p, BecomeLeader(more), votes, h');
    } else {
      BallotsStep(c, n, more, votes, c.packets - {p}, h1);
      ResponsePackets(c, p, more, votes, h1);
    }
  }

  lemma CandidateCounts(h: History, n: nat, b: Ballot, votes: set<nat>, nodes: nat)
    requires CountedOk(h, n, b, votes, nodes) && b.role == Candidate
    ensures |votes| == b.voteCount && (n, b.term) in h.before && h.before[(n, b.term)] == n
    ensures forall v :: v in votes ==> v < nodes && Voted(h, v, n, b.term)
  {
    hide Voted;
  }

  lemma CountedHistory(h: History, h1: History, n: nat, b: Ballot, more: Ballot, votes: set<nat>, nodes: nat)
    requires h1 == h.(counted := h1.counted) && BallotOk(h, n, b) && CountedOk(h, n, more, votes, nodes)
    requires WinnersOk(h) && TermsOk(h, nodes) && more == b.(voteCount := more.voteCount)
    ensures Extends(h, h1) && (forall v :: SameVotes(h, h1, v)) && WinnersOk(h1) && TermsOk(h1, nodes)
    ensures BallotOk(h1, n, more) && CountedOk(h1, n, more, votes, nodes)
  {
    SameWinners(h, h1);
    TermsExtend(h, h1, nodes);
    CountedFrame(h, h1, n, more, votes, nodes);
    hide TermsOk, WinnersOk, CountedOk;
  }

  lemma LeaderCounted(h: History, n: nat, b: Ballot, votes: set<nat>, nodes: nat)
    ensures CountedOk(h, n, BecomeLeader(b), votes, nodes)
  {}

  lemma ExtendsTransitive(h: History, h1: History, h2: History)
    requires Extends(h, h1) && (forall v :: SameVotes(h, h1, v)) && Extends(h1, h2)
    ensures Extends(h, h2)
    ensures forall v :: SameVotes(h1, h2, v) ==> SameVotes(h, h2, v)
  {
    forall v | SameVotes(h1, h2, v) ensures SameVotes(h, h2, v) {
      assert SameVotes(h, h1, v);
    }
  }

  lemma ResponseKeeps(c: Cluster, p: Packet)
    requires Inv(c) && Enabled(c, DeliverResponse(p))
    ensures Inv(Apply(c, DeliverResponse(p)))
  {
    var n, h := p.candidate, c.past;
    var was := c.nodes[n];
    if was.role == Candidate && p.term == was.term && p.granted {
      CountKeeps(c, p);
    } else {
      assert h.(counted := h.counted[n := h.counted[n]]) == h by { assert h.counted[n := h.counted[n]] == h.counted; }
      assert c.nodes[n := was] == c.nodes;
      hide Inv;
      if was.role == Candidate && p.term > was.term {
        QuietStep(c, n, BecomeFollower(was, p.term), c.packets - {p});
      } else {
        LoseKeeps(c, p);
      }
    }
  }

  lemma StepKeepsInv(c: Cluster, a: Action)
    requires Inv(c) && Enabled(c, a)
    ensures Inv(Apply(c, a))
  {
    hide Inv, OnVoteRequest, OnVoteResponse;
    match a
    case Timeout(n) => TimeoutKeeps(c, n);
    case DeliverRequest(p, upToDate) => RequestKeeps(c, p, upToDate);
    case DeliverResponse(p) => ResponseKeeps(c, p);
    case HigherTerm(n, t) => QuietStep(c, n, BecomeFollower(c.nodes[n], t), c.packets);
    case Lose(p) => LoseKeeps(c, p);
    case Crash(n) => QuietStep(c, n, Restart(c.nodes[n]), c.packets);
  }

  // ---- runs ----

  /** Any run of a cluster of n nodes. */
  ghost predicate IsRun(states: seq<Cluster>, actions: seq<Action>, n: nat) {
    && |states| == |actions| + 1 && states[0] == Start(n)
    && forall i :: 0 <= i < |actions| ==>
      Enabled(states[i], actions[i]) && states[i + 1] == Apply(states[i], actions[i])
  }

  lemma {:induction false} RunsKeepInv(states: seq<Cluster>, actions: seq<Action>, n: nat, i: nat)
    requires IsRun(states, actions, n) && i < |states|
    ensures Inv(states[i]) && |states[i].nodes| == n
  {
    hide Inv;
    if i == 0 {
      StartInv(n);
    } else {
      RunsKeepInv(states, actions, n, i - 1);
      StepKeepsInv(states[i - 1], actions[i - 1]);
      hide OnVoteRequest, OnVoteResponse;
    }
  }

  /** No node's term ever falls. */
  lemma {:induction false} TermsNeverFall(states: seq<Cluster>, actions: seq<Action>, n: nat, i: nat, j: nat, v: nat)
    requires IsRun(states, actions, n) && i <= j < |states| && v < n
    ensures |states[i].nodes| == |states[j].nodes| == n && states[i].nodes[v].term <= states[j].nodes[v].term
  {
    RunsKeepInv(states, actions, n, i);
    RunsKeepInv(states, actions, n, j);
    if i < j {
      TermsNeverFall(states, actions, n, i, j - 1, v);
      hide Inv;
    }
  }

  /** In every run, if two nodes have won the same term, one of them had the other's vote, cast
      after the other's own win; so no term ever has three winners. */
  lemma TwoWinners(states: seq<Cluster>, actions: seq<Action>, n: nat, i: nat, a: nat, b: nat, t: nat)
    requires IsRun(states, actions, n) && i < |states| && a != b
    requires var h := states[i].past; (a, t) in h.won && (b, t) in h.won
    ensures var h := states[i].past;
            || ((a, t) in h.after && h.after[(a, t)] == b)
            || ((b, t) in h.after && h.after[(b, t)] == a)
    ensures forall d :: (d, t) in states[i].past.won ==> d == a || d == b
  {
    RunsKeepInv(states, actions, n, i);
    assert TermOk(states[i].past, t, n);
    hide BallotsOk, PacketsOk, IsRun;
  }

  /** A response makes its candidate the leader of term t. */
  predicate Wins(c: Cluster, a: Action, t: nat) {
    && Enabled(c, a) && a.DeliverResponse?
    && var was := c.nodes[a.packet.candidate];
       && was.role == Candidate && was.term == t
       && OnVoteResponse(was, a.packet.term, a.packet.granted, |c.nodes|).role == Leader
  }

  /** Whose votes the winner has counted. */
  function Voters(c: Cluster, p: Packet): set<nat> {
    CountedBy(c.past, p.candidate) + {p.voter}
  }

  /** A win with the vote of a node that has won the term itself. */
  ghost predicate SecondWin(c: Cluster, a: Action, t: nat) {
    Wins(c, a, t) && exists v :: v in Voters(c, a.packet) && (v, t) in c.past.won
  }

  lemma WinningVotes(c: Cluster, a: Action, t: nat)
    requires Inv(c) && Wins(c, a, t)
    ensures var n, votes := a.packet.candidate, Voters(c, a.packet);
            && (n, t) !in c.past.won && |votes| > |c.nodes| / 2
            && forall v :: v in votes ==> v < |c.nodes| && Voted(c.past, v, n, t)
  {
    var p := a.packet;
    VoteCounts(c, p);
    CountedMore(c.past, p.candidate, c.nodes[p.candidate], c.past.counted[p.candidate], p.voter, |c.nodes|);
    hide Inv, Voted;
  }

  lemma ShareWinner(h: History, n: nat, t: nat, votes: set<nat>, nodes: nat) returns (v: nat)
    requires WinnersOk(h) && TermsOk(h, nodes) && t in h.first && (n, t) !in h.won && |votes| > nodes / 2
    requires forall v :: v in votes ==> v < nodes && Voted(h, v, n, t)
    ensures v in votes && (v, t) in h.won
  {
    assert TermOk(h, t, nodes);
    v := MajoritiesMeet(h.quorum[t], votes, nodes);
    assert Voted(h, v, n, t);
  }

  /** A win is the second one of its term exactly if it counts the vote of a node that has won it. */
  lemma SecondWinIff(c: Cluster, a: Action, t: nat)
    requires Inv(c) && Wins(c, a, t)
    ensures (exists f :: (f, t) in c.past.won) <==> SecondWin(c, a, t)
  {
    if f :| (f, t) in c.past.won {
      WinningVotes(c, a, t);
      var v := ShareWinner(c.past, a.packet.candidate, t, Voters(c, a.packet), |c.nodes|);
      hide Inv, Wins, Voters, Voted;
    }
  }

  lemma WonStep(c: Cluster, a: Action, t: nat, n: nat)
    requires Enabled(c, a)
    ensures (n, t) in Apply(c, a).past.won <==> (n, t) in c.past.won || (Wins(c, a, t) && n == a.packet.candidate)
  {
    hide OnVoteRequest;
  }

  ghost predicate TwoWon(h: History, t: nat) {
    exists a, b :: a != b && (a, t) in h.won && (b, t) in h.won
  }

  lemma TwoWonStep(c: Cluster, a: Action, t: nat)
    requires Inv(c) && Enabled(c, a)
    ensures TwoWon(Apply(c, a).past, t) <==> TwoWon(c.past, t) || SecondWin(c, a, t)
  {
    forall n
      ensures (n, t) in Apply(c, a).past.won <==> (n, t) in c.past.won || (Wins(c, a, t) && n == a.packet.candidate)
    {
      WonStep(c, a, t, n);
    }
    if Wins(c, a, t) {
      SecondWinIff(c, a, t);
      WinningVotes(c, a, t);
    }
    hide Inv, Apply, Enabled, Wins, Voters, Voted;
  }

  /** Over every run: a term has at most one winner exactly if no win in it counted the vote of a
      node that had won it before. */
  lemma {:induction false} OneLeader(states: seq<Cluster>, actions: seq<Action>, n: nat, i: nat, t: nat)
    requires IsRun(states, actions, n) && i < |states|
    ensures (forall a, b :: (a, t) in states[i].past.won && (b, t) in states[i].past.won ==> a == b) <==>
      forall k :: 0 <= k < i ==> !SecondWin(states[k], actions[k], t)
  {
    TwoWonIff(states, actions, n, i, t);
    hide SecondWin, IsRun;
  }

  lemma {:induction false} TwoWonIff(states: seq<Cluster>, actions: seq<Action>, n: nat, i: nat, t: nat)
    requires IsRun(states, actions, n) && i < |states|
    ensures TwoWon(states[i].past, t) <==> exists k :: 0 <= k < i && SecondWin(states[k], actions[k], t)
  {
    hide TwoWon, SecondWin, Enabled, Apply, Inv;
    if i == 0 {
      NobodyWon(n, t);
    } else {
      TwoWonIff(states, actions, n, i - 1, t);
      RunsKeepInv(states, actions, n, i - 1);
      assert Enabled(states[i - 1], actions[i - 1]);
      TwoWonStep(states[i - 1], actions[i - 1], t);
      hide IsRun;
      assert (exists k :: 0 <= k < i && SecondWin(states[k], actions[k], t)) <==>
        (exists k :: 0 <= k < i - 1 && SecondWin(states[k], actions[k], t)) ||
          SecondWin(states[i - 1], actions[i - 1], t);
    }
  }

  lemma NobodyWon(n: nat, t: nat)
    ensures !TwoWon(Start(n).past, t)
  {}

  /** So a term has at most one winner in every run where no winner votes again in its term. */
  lemma OneLeaderIfQuiet(states: seq<Cluster>, actions: seq<Action>, n: nat, i: nat)
    requires IsRun(states, actions, n) && i < |states|
    requires forall v, t :: (v, t) in states[i].past.won ==> (v, t) !in states[i].past.after
    ensures forall a, b, t :: (a, t) in states[i].past.won && (b, t) in states[i].past.won ==> a == b
  {
    hide IsRun;
    forall a, b, t | (a, t) in states[i].past.won && (b, t) in states[i].past.won ensures a == b {
      if a != b {
        TwoWinners(states, actions, n, i, a, b, t);
      }
    }
  }

  ghost predicate LeadersWon(c: Cluster) {
    forall v :: 0 <= v < |c.nodes| && c.nodes[v].role == Leader ==> (v, c.nodes[v].term) in c.past.won
  }

  lemma StepLeadersWon(c: Cluster, a: Action)
    requires Enabled(c, a) && LeadersWon(c)
    ensures LeadersWon(Apply(c, a))
  {}

  lemma {:induction false} RunLeadersWon(states: seq<Cluster>, actions: seq<Action>, n: nat, i: nat)
    requires IsRun(states, actions, n) && i < |states|
    ensures LeadersWon(states[i])
  {
    hide LeadersWon, Enabled, Apply;
    if i == 0 {
      NoLeaderYet(n);
    } else {
      RunLeadersWon(states, actions, n, i - 1);
      StepLeadersWon(states[i - 1], actions[i - 1]);
    }
  }

  lemma NoLeaderYet(n: nat)
    ensures LeadersWon(Start(n))
  {}

  /** Two nodes lead in the same term only if one of them voted for the other after winning. */
  lemma TwoLeaders(states: seq<Cluster>, actions: seq<Action>, n: nat, i: nat, a: nat, b: nat)
    requires IsRun(states, actions, n) && i < |states| && a < |states[i].nodes| && b < |states[i].nodes| && a != b
    requires var c := states[i];
             c.nodes[a].role == Leader && c.nodes[b].role == Leader && c.nodes[a].term == c.nodes[b].term
    ensures var h, t := states[i].past, states[i].nodes[a].term;
            || ((a, t) in h.after && h.after[(a, t)] == b)
            || ((b, t) in h.after && h.after[(b, t)] == a)
  {
    RunLeadersWon(states, actions, n, i);
    var t := states[i].nodes[a].term;
    assert (a, t) in states[i].past.won && (b, t) in states[i].past.won;
    hide IsRun, LeadersWon;
    TwoWinners(states, actions, n, i, a, b, t);
  }

  // ---- it does happen ----

  /** Three nodes: 0 and 2 stand for term 1, node 1 votes for 0, 0 wins and forgets its own vote,
      and so 0 votes for 2, which wins as well. */
  lemma TwoLeadersHappen() returns (states: seq<Cluster>, actions: seq<Action>)
    ensures IsRun(states, actions, 3) && |states| == 7
    ensures |states[6].nodes| == 3
    ensures states[6].nodes[0].role == Leader && states[6].nodes[2].role == Leader
    ensures states[6].nodes[0].term == 1 && states[6].nodes[2].term == 1
  {
    var s1, s2 := TwoStand();
    var s3, s4 := FirstLeads(s2);
    var s5, s6 := SecondLeads(s4);
    var a0, a1, a2 := Timeout(0), Timeout(2), DeliverRequest(Request(0, 1, 1), true);
    var a3, a4, a5 := DeliverResponse(Response(0, 1, 1, 1, true)), DeliverRequest(Request(2, 0, 1), true),
      DeliverResponse(Response(2, 0, 1, 1, true));
    hide Start, Enabled, Apply;
    states, actions := [Start(3), s1, s2, s3, s4, s5, s6], [a0, a1, a2, a3, a4, a5];
  }

  lemma TwoStand() returns (s1: Cluster, s2: Cluster)
    ensures var s0 := Start(3);
            && Enabled(s0, Timeout(0)) && s1 == Apply(s0, Timeout(0)) 
            && Enabled(s1, Timeout(2)) && s2 == Apply(s1, Timeout(2))
    ensures s2.nodes == [Ballot(Candidate, 1, 0, 1), FreshBallot, Ballot(Candidate, 1, 2, 1)]
    ensures Request(0, 1, 1) in s2.packets && Request(2, 0, 1) in s2.packets
  {
    s1 := Apply(Start(3), Timeout(0));
    assert Request(0, 1, 1) in s1.packets;
    s2 := Apply(s1, Timeout(2));
  }

  lemma FirstLeads(s2: Cluster) returns (s3: Cluster, s4: Cluster)
    requires s2.nodes == [Ballot(Candidate, 1, 0, 1), FreshBallot, Ballot(Candidate, 1, 2, 1)]
    requires Request(0, 1, 1) in s2.packets && Request(2, 0, 1) in s2.packets
    ensures var a2, a3 := DeliverRequest(Request(0, 1, 1), true), DeliverResponse(Response(0, 1, 1, 1, true));
            && Enabled(s2, a2) && s3 == Apply(s2, a2) && Enabled(s3, a3) && s4 == Apply(s3, a3)
    ensures s4.nodes == [Ballot(Leader, 1, NOBODY, 0), Ballot(Follower, 1, 0, 0), Ballot(Candidate, 1, 2, 1)]
    ensures Request(2, 0, 1) in s4.packets
  {
    s3 := Apply(s2, DeliverRequest(Request(0, 1, 1), true));
    assert s3.nodes == [Ballot(Candidate, 1, 0, 1), Ballot(Follower, 1, 0, 0), Ballot(Candidate, 1, 2, 1)];
    s4 := Apply(s3, DeliverResponse(Response(0, 1, 1, 1, true)));
    hide Granted, Won, Count, CountedBy;
  }

  lemma SecondLeads(s4: Cluster) returns (s5: Cluster, s6: Cluster)
    requires s4.nodes == [Ballot(Leader, 1, NOBODY, 0), Ballot(Follower, 1, 0, 0), Ballot(Candidate, 1, 2, 1)]
    requires Request(2, 0, 1) in s4.packets
    ensures var a4, a5 := DeliverRequest(Request(2, 0, 1), true), DeliverResponse(Response(2, 0, 1, 1, true));
            && Enabled(s4, a4) && s5 == Apply(s4, a4) && Enabled(s5, a5) && s6 == Apply(s5, a5)
    ensures s6.nodes == [Ballot(Leader, 1, 2, 0), Ballot(Follower, 1, 0, 0), Ballot(Leader, 1, NOBODY, 0)]
  {
    s5 := Apply(s4, DeliverRequest(Request(2, 0, 1), true));
    assert s5.nodes == [Ballot(Leader, 1, 2, 0), Ballot(Follower, 1, 0, 0), Ballot(Candidate, 1, 2, 1)];
    s6 := Apply(s5, DeliverResponse(Response(2, 0, 1, 1, true)));
    hide Granted, Won, Count, CountedBy;
  }
}

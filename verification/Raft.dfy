/** The Raft role state machine (src/raft/core/raft_state.cpp) and the elections a cluster of such nodes can hold
    (section 5.2 of the Raft paper). */
module Rafts {
  import opened Common
  import opened Bytes

  const TERM_LIMIT: nat := 0x1_0000_0000_0000_0000

  type Term = t: nat | t < TERM_LIMIT

  datatype Role = Follower | Candidate | Leader

  /** What a node knows. No vote and no known leader are the empty string. */
  datatype Node = Node(role: Role, term: Term, vote: Str, leader: Str, self: Str)

  function Start(self: Str): Node {
    Node(Follower, 0, [], [], self)
  }

  function ToCandidate(n: Node): Result<Node> {
    if n.role == Leader then Err(InvalidArgument)
    else Ok(n.(role := Candidate, term := (n.term + 1) % TERM_LIMIT, vote := n.self, leader := []))
  }

  function ToLeader(n: Node): Result<Node> {
    if n.role != Candidate then Err(InvalidArgument) else Ok(n.(role := Leader, leader := n.self))
  }

  function SteppedDown(n: Node, term: Term, leader: Str): Result<Node> {
    if term < n.term then Err(InvalidArgument)
    else Ok(n.(role := Follower, term := term, leader := leader, vote := if term > n.term then [] else n.vote))
  }

  function Voted(n: Node, candidate: Str): Result<Node> {
    if n.vote == [] || n.vote == candidate then Ok(n.(vote := candidate)) else Err(AlreadyExists)
  }

  class RaftState {
    var role: Role
    var currentTerm: Term
    var votedFor: Str
    var leaderId: Str
    const selfId: Str

    ghost function Now(): Node
      reads this
    {
      Node(role, currentTerm, votedFor, leaderId, selfId)
    }

    constructor (selfId: Str)
      ensures Now() == Start(selfId)
    {
      role, currentTerm, votedFor, leaderId := Follower, 0, [], [];
      this.selfId := selfId;
    }

    method TransitionToCandidate() returns (r: Result<()>)
      modifies this
      ensures old(role) == Leader ==> r == Err(InvalidArgument) && Now() == old(Now())
      ensures old(role) != Leader ==>
        r == Ok(()) && Now() == Node(Candidate, (old(currentTerm) + 1) % TERM_LIMIT, selfId, [], selfId)
      ensures (r.Ok? <==> ToCandidate(old(Now())).Ok?)
          && Now() == if r.Ok? then ToCandidate(old(Now())).value else old(Now())
    {
      if role == Leader {
        return Err(InvalidArgument);
      }
      role := Candidate;
      currentTerm := (currentTerm + 1) % TERM_LIMIT;
      votedFor := selfId;
      leaderId := [];
      return Ok(());
    }

    method TransitionToLeader() returns (r: Result<()>)
      modifies this
      ensures old(role) != Candidate ==> r == Err(InvalidArgument) && Now() == old(Now())
      ensures old(role) == Candidate ==> r == Ok(()) && Now() == old(Now()).(role := Leader, leader := selfId)
      ensures (r.Ok? <==> ToLeader(old(Now())).Ok?)
          && Now() == if r.Ok? then ToLeader(old(Now())).value else old(Now())
    {
      if role != Candidate {
        return Err(InvalidArgument);
      }
      role := Leader;
      leaderId := selfId;
      return Ok(());
    }

    method StepDown(newTerm: Term, knownLeader: Str) returns (r: Result<()>)
      modifies this
      ensures newTerm < old(currentTerm) ==> r == Err(InvalidArgument) && Now() == old(Now())
      ensures newTerm == old(currentTerm) ==>
        r == Ok(()) && Now() == old(Now()).(role := Follower, leader := knownLeader)
      ensures newTerm > old(currentTerm) ==> r == Ok(()) && Now() == Node(Follower, newTerm, [], knownLeader, selfId)
      ensures (r.Ok? <==> SteppedDown(old(Now()), newTerm, knownLeader).Ok?)
          && Now() == if r.Ok? then SteppedDown(old(Now()), newTerm, knownLeader).value else old(Now())
    {
      if newTerm < currentTerm {
        return Err(InvalidArgument);
      }
      if newTerm > currentTerm {
        votedFor := [];
      }
      role := Follower;
      currentTerm := newTerm;
      leaderId := knownLeader;
      return Ok(());
    }

    method GrantVote(candidate: Str) returns (r: Result<()>)
      modifies this
      ensures old(votedFor) in {[], candidate} ==> r == Ok(()) && Now() == old(Now()).(vote := candidate)
      ensures old(votedFor) !in {[], candidate} ==> r == Err(AlreadyExists) && Now() == old(Now())
      ensures (r.Ok? <==> Voted(old(Now()), candidate).Ok?)
          && Now() == if r.Ok? then Voted(old(Now()), candidate).value else old(Now())
    {
      if votedFor == [] || votedFor == candidate {
        votedFor := candidate;
        return Ok(());
      }
      return Err(AlreadyExists);
    }

    method LoadState(term: Term, vote: Str)
      modifies this
      ensures Now() == old(Now()).(term := term, vote := vote)
    {
      currentTerm, votedFor := term, vote;
    }
  }

  /** After a vote, a second vote for another candidate is granted in the same term exactly if the first was for the
      empty name. */
  lemma SecondVoteExactly(n: Node, first: Str, second: Str)
    requires Voted(n, first).Ok? && second != first
    ensures Voted(Voted(n, first).value, second).Ok? <==> first == []
  {
  }

  /** Stepping down to a later term frees the vote for any candidate; to the same term, it leaves the vote as it was;
      to an earlier one, it is refused. */
  lemma StepDownVotesExactly(n: Node, term: Term, leader: Str, candidate: Str)
    ensures var r := SteppedDown(n, term, leader);
      && (r.Ok? <==> term >= n.term)
      && (term > n.term ==> Voted(r.value, candidate).Ok?)
      && (term == n.term ==> (Voted(r.value, candidate).Ok? <==> Voted(n, candidate).Ok?))
  {
  }

  /** A campaign opens a new term with a vote for the node itself, so in that term it can vote for no other. */
  lemma CampaignVotesExactly(n: Node, candidate: Str)
    requires n.self != [] && n.term + 1 < TERM_LIMIT
    ensures var r := ToCandidate(n);
      && (r.Ok? <==> n.role != Leader)
      && (r.Ok? ==> r.value.term == n.term + 1 && (Voted(r.value, candidate).Ok? <==> candidate == n.self))
  {
  }

  // ---- a cluster ----

  datatype Step =
    | Campaign(node: nat)
    | Win(node: nat)
    | Concede(node: nat, term: Term, leader: Str)
    | Grant(node: nat, candidate: Str)
    | Restart(node: nat)

  /** A vote that was cast, and an election that was won. */
  datatype Ballot = Ballot(voter: nat, term: nat, candidate: Str)
  datatype Victory = Victory(term: nat, leader: Str)

  datatype Cluster = Cluster(nodes: seq<Node>, votes: set<Ballot>, wins: set<Victory>)

  function Update(c: Cluster, i: nat, r: Result<Node>): Cluster
    requires i < |c.nodes|
  {
    if r.Ok? then c.(nodes := c.nodes[i := r.value]) else c
  }

  /** One step of one node. A refused operation changes nothing; a restart reloads the last term and vote. */
  function Act(c: Cluster, s: Step): Cluster
    requires s.node < |c.nodes|
  {
    var n := c.nodes[s.node];
    match s
    case Campaign(i) =>
      if ToCandidate(n).Err? then c
      else Update(c, i, ToCandidate(n)).(votes := c.votes + {Ballot(i, ToCandidate(n).value.term, n.self)})
    case Win(i) =>
      if ToLeader(n).Err? then c
      else Update(c, i, ToLeader(n)).(wins := c.wins + {Victory(n.term, n.self)})
    case Concede(i, term, leader) => Update(c, i, SteppedDown(n, term, leader))
    case Grant(i, candidate) =>
      if Voted(n, candidate).Err? then c
      else Update(c, i, Voted(n, candidate)).(votes := c.votes + {Ballot(i, n.term, candidate)})
    case Restart(i) => c.(nodes := c.nodes[i := Start(n.self).(term := n.term, vote := n.vote)])
  }

  /** Those who voted for a candidate in a term. */
  ghost function Voters(c: Cluster, term: nat, candidate: Str): set<nat> {
    set b | b in c.votes && b.term == term && b.candidate == candidate :: b.voter
  }

  /** What the callers of a node see to: votes are for named candidates, terms do not wrap around, and a candidate
      takes the lead only with the votes of a majority. */
  ghost predicate Allowed(c: Cluster, s: Step) {
    && s.node < |c.nodes|
    && (s.Campaign? ==> c.nodes[s.node].term + 1 < TERM_LIMIT)
    && (s.Grant? ==> s.candidate != [])
    && (s.Win? ==> 2 * |Voters(c, c.nodes[s.node].term, c.nodes[s.node].self)| > |c.nodes|)
  }

  function Boot(ids: seq<Str>): Cluster {
    Cluster(seq(|ids|, i requires 0 <= i < |ids| => Start(ids[i])), {}, {})
  }

  ghost predicate StepsTo(c: Cluster, s: Step, c': Cluster) {
    Allowed(c, s) && c' == Act(c, s)
  }

  /** A run of a fresh cluster, with the state before and after every step. */
  ghost predicate IsRun(ids: seq<Str>, run: seq<Step>, states: seq<Cluster>) {
    |states| == |run| + 1 && states[0] == Boot(ids) && forall i ::
      0 <= i < |run| ==> StepsTo(states[i], run[i], states[i + 1])
  }

  ghost predicate Named(ids: seq<Str>) {
    (forall i :: 0 <= i < |ids| ==> ids[i] != []) && forall i, j :: 0 <= i < j < |ids| ==> ids[i] != ids[j]
  }

  /** The invariant: a vote in a node's current term is the one it remembers, no vote is from the future, every win
      had a majority, and every role matches what the node did to get it. */
  ghost predicate Inv(ids: seq<Str>, c: Cluster) {
    && |c.nodes| == |ids| && (forall i :: 0 <= i < |ids| ==> c.nodes[i].self == ids[i])
    && (forall b :: b in c.votes ==> VoteOk(c, b))
    && OneVotePerTerm(c)
    && (forall w :: w in c.wins ==> 2 * |Voters(c, w.term, w.leader)| > |ids|)
    && (forall i :: 0 <= i < |ids| ==> RoleOk(c, c.nodes[i]))
  }

  /** A candidate voted for itself and knows no leader; a leader voted for itself, won its term and knows it leads. */
  ghost predicate RoleOk(c: Cluster, n: Node) {
    && (n.role != Follower ==> n.vote == n.self)
    && (n.role == Candidate ==> n.leader == [])
    && (n.role == Leader ==> n.leader == n.self && Victory(n.term, n.self) in c.wins)
  }

  ghost predicate VoteOk(c: Cluster, b: Ballot) {
    && b.voter < |c.nodes| && b.term <= c.nodes[b.voter].term && b.candidate != []
    && (b.term == c.nodes[b.voter].term ==> b.candidate == c.nodes[b.voter].vote)
  }

  ghost predicate OneVotePerTerm(c: Cluster) {
    forall a, b :: a in c.votes && b in c.votes && a.voter == b.voter && a.term == b.term ==> a.candidate == b.candidate
  }

  lemma VotersGrow(c: Cluster, c': Cluster, term: nat, candidate: Str)
    requires c.votes <= c'.votes
    ensures |Voters(c, term, candidate)| <= |Voters(c', term, candidate)|
  {
    Subset(Voters(c, term, candidate), Voters(c', term, candidate));
  }

  lemma {:induction false} Subset(a: set<nat>, b: set<nat>)
    requires a <= b
    ensures |a| <= |b|
    decreases b
  {
    if b != {} {
      var x :| x in b;
      if x in a {
        Subset(a - {x}, b - {x});
      } else {
        Subset(a, b - {x});
      }
    }
  }

  lemma ActKeepsInv(ids: seq<Str>, c: Cluster, s: Step)
    requires Named(ids) && Inv(ids, c) && Allowed(c, s)
    ensures Inv(ids, Act(c, s))
  {
    hide Voters, Act, VoteOk, OneVotePerTerm, RoleOk;
    var c' := Act(c, s);
    ActKeepsVotes(ids, c, s);
    ActKeepsRoles(ids, c, s);
    forall w | w in c'.wins ensures 2 * |Voters(c', w.term, w.leader)| > |ids| {
      VotersGrow(c, c', w.term, w.leader);
      ActWins(c, s, w);
    }
  }

  lemma ActKeepsRoles(ids: seq<Str>, c: Cluster, s: Step)
    requires Named(ids) && Inv(ids, c) && Allowed(c, s)
    ensures var c' := Act(c, s); |c'.nodes| == |ids| && forall i :: 0 <= i < |ids| ==> RoleOk(c', c'.nodes[i])
  {
    hide Voters, VoteOk, OneVotePerTerm;
    var c' := Act(c, s);
    assert ids[s.node] != [];
    forall i | 0 <= i < |ids| ensures RoleOk(c', c'.nodes[i]) {
      assert RoleOk(c, c.nodes[i]);
    }
  }

  lemma ActWins(c: Cluster, s: Step, w: Victory)
    requires Allowed(c, s) && w in Act(c, s).wins
    ensures w in c.wins || 2 * |Voters(c, w.term, w.leader)| > |c.nodes|
  {
    hide Voters;
  }

  lemma ActKeepsVotes(ids: seq<Str>, c: Cluster, s: Step)
    requires Named(ids) && Inv(ids, c) && Allowed(c, s)
    ensures var c' := Act(c, s); c.votes <= c'.votes && OneVotePerTerm(c') && forall b ::
      b in c'.votes ==> VoteOk(c', b)
    ensures var c' := Act(c, s); |c'.nodes| == |ids| && forall i :: 0 <= i < |ids| ==> c'.nodes[i].self == ids[i]
  {
    hide Voters;
    var c' := Act(c, s);
    assert ids[s.node] != [];
    forall b | b in c'.votes ensures VoteOk(c', b) {
      assert b in c.votes ==> VoteOk(c, b);
    }
    forall a, b | a in c'.votes && b in c'.votes && a.voter == b.voter
        && a.term == b.term ensures a.candidate == b.candidate {
      assert VoteOk(c', a) && VoteOk(c', b);
      assert a in c.votes && b in c.votes ==> a.candidate == b.candidate;
    }
  }

  lemma {:induction false} RunsKeepInv(ids: seq<Str>, run: seq<Step>, states: seq<Cluster>, n: nat)
    requires Named(ids) && IsRun(ids, run, states) && n <= |run|
    ensures Inv(ids, states[n])
  {
    hide Inv, Allowed, Act, Boot;
    if n == 0 {
      BootInv(ids);
    } else {
      RunsKeepInv(ids, run, states, n - 1);
      assert StepsTo(states[n - 1], run[n - 1], states[n - 1 + 1]);
      ActKeepsInv(ids, states[n - 1], run[n - 1]);
    }
  }

  lemma BootInv(ids: seq<Str>)
    ensures Inv(ids, Boot(ids))
  {
  }

  /** In every run each node votes for at most one candidate per term. */
  lemma VotesAreUnique(ids: seq<Str>, run: seq<Step>, states: seq<Cluster>, n: nat, a: Ballot, b: Ballot)
    requires Named(ids) && IsRun(ids, run, states) && n <= |run|
    requires var c := states[n]; a in c.votes && b in c.votes && a.voter == b.voter && a.term == b.term
    ensures a.candidate == b.candidate
  {
    hide IsRun;
    RunsKeepInv(ids, run, states, n);
  }

  /** Two majorities share a voter. */
  lemma {:induction false} MajoritiesMeet(a: set<nat>, b: set<nat>, n: nat)
    requires (forall x :: x in a ==> x < n) && (forall x :: x in b ==> x < n) && |a| + |b| > n
    ensures a * b != {}
  {
    if a * b == {} {
      assert |a + b| == |a| + |b|;
      Below(a + b, n);
    }
  }

  lemma {:induction false} Below(s: set<nat>, n: nat)
    requires forall x :: x in s ==> x < n
    ensures |s| <= n
  {
    if n == 0 {
      assert s == {};
    } else {
      Below(s - {n - 1}, n - 1);
    }
  }

  /** In every run each term has at most one leader. */
  lemma OneLeaderPerTerm(ids: seq<Str>, run: seq<Step>, states: seq<Cluster>, n: nat, a: Victory, b: Victory)
    requires Named(ids) && IsRun(ids, run, states) && n <= |run|
    requires var c := states[n]; a in c.wins && b in c.wins && a.term == b.term
    ensures a.leader == b.leader
  {
    RunsKeepInv(ids, run, states, n);
    var c := states[n];
    var va, vb := Voters(c, a.term, a.leader), Voters(c, b.term, b.leader);
    assert forall x :: x in va + vb ==> x < |ids| by {
      assert forall v :: v in c.votes ==> VoteOk(c, v);
    }
    MajoritiesMeet(va, vb, |ids|);
    var x :| x in va * vb;
    assert Ballot(x, a.term, a.leader) in c.votes && Ballot(x, b.term, b.leader) in c.votes;
  }

  /** So at no point of a run do two nodes lead in the same term. */
  lemma LeadersDiffer(ids: seq<Str>, run: seq<Step>, states: seq<Cluster>, n: nat, i: nat, j: nat)
    requires Named(ids) && IsRun(ids, run, states) && n <= |run| && i < |states[n].nodes| && j < |states[n].nodes|
    requires states[n].nodes[i].role == Leader && states[n].nodes[j].role == Leader
        && states[n].nodes[i].term == states[n].nodes[j].term
    ensures i == j
  {
    hide Voters, VoteOk, OneVotePerTerm;
    RunsKeepInv(ids, run, states, n);
    var c := states[n];
    assert RoleOk(c, c.nodes[i]) && RoleOk(c, c.nodes[j]);
    OneLeaderPerTerm(ids, run, states, n, Victory(c.nodes[i].term, c.nodes[i].self),
        Victory(c.nodes[j].term, c.nodes[j].self));
  }

  /** Terms never fall, across restarts too. */
  lemma {:induction false} TermsNeverFall(ids: seq<Str>, run: seq<Step>, states: seq<Cluster>, m: nat, n: nat, i: nat)
    requires Named(ids) && IsRun(ids, run, states) && m <= n <= |run| && i < |ids|
    ensures |states[m].nodes| == |states[n].nodes| == |ids| && states[m].nodes[i].term <= states[n].nodes[i].term
    decreases n
  {
    hide Inv, Voters;
    RunsKeepInv(ids, run, states, n);
    SameSize(ids, states[n]);
    if m < n {
      TermsNeverFall(ids, run, states, m, n - 1, i);
      assert StepsTo(states[n - 1], run[n - 1], states[n - 1 + 1]);
    }
  }

  // ---- elections can be held ----

  /** Steps that lead on from a state. */
  ghost predicate Leads(c: Cluster, steps: seq<Step>, states: seq<Cluster>) {
    |states| == |steps| + 1 && states[0] == c && forall i ::
      0 <= i < |steps| ==> StepsTo(states[i], steps[i], states[i + 1])
  }

  /** From any state of any run, a node that concedes to a term it has not reached can grant any named candidate its
      vote there. */
  lemma FreshTermVotes(ids: seq<Str>, run: seq<Step>, states: seq<Cluster>, n: nat, i: nat, term: Term, leader: Str,
      candidate: Str)
    requires Named(ids) && IsRun(ids, run, states) && n <= |run| && candidate != []
    requires i < |states[n].nodes| && term > states[n].nodes[i].term
    ensures var c := states[n];
      var c1 := Act(c, Concede(i, term, leader)); var c2 := Act(c1, Grant(i, candidate));
      && Leads(c, [Concede(i, term, leader), Grant(i, candidate)], [c, c1, c2])
      && c2.votes == c.votes + {Ballot(i, term, candidate)} && Ballot(i, term, candidate) !in c.votes
      && c2.nodes[i].vote == candidate && c2.nodes[i].term == term
  {
    var c := states[n];
    hide Voters, OneVotePerTerm, RoleOk, IsRun;
    RunsKeepInv(ids, run, states, n);
    assert Ballot(i, term, candidate) in c.votes ==> VoteOk(c, Ballot(i, term, candidate));
  }

  /** Node `i` stands in `term`, the first `k` nodes voted for it there, and no other node has reached the term. */
  ghost predicate Gathering(ids: seq<Str>, c: Cluster, i: nat, term: Term, k: nat) {
    && Named(ids) && Inv(ids, c) && i < |ids| && k <= |ids|
    && c.nodes[i].role == Candidate && c.nodes[i].term == term && Ballot(i, term, ids[i]) in c.votes
    && (forall j :: 0 <= j < k ==> Ballot(j, term, ids[i]) in c.votes)
    && (forall j :: k <= j < |ids| && j != i ==> c.nodes[j].term < term)
  }

  /** The next node concedes to the term and votes. */
  lemma GatherOne(ids: seq<Str>, c: Cluster, i: nat, term: Term, k: nat)
      returns (steps: seq<Step>, states: seq<Cluster>)
    requires Gathering(ids, c, i, term, k) && k < |ids|
    ensures Leads(c, steps, states) && Gathering(ids, states[|steps|], i, term, k + 1)
  {
    hide Voters, OneVotePerTerm, RoleOk, Inv, VoteOk;
    SameSize(ids, c);
    if k == i {
      steps, states := [], [c];
    } else {
      var concede, grant := Concede(k, term, []), Grant(k, ids[i]);
      var c1 := Act(c, concede);
      ActKeepsInv(ids, c, concede);
      var c2 := Act(c1, grant);
      ActKeepsInv(ids, c1, grant);
      steps, states := [concede, grant], [c, c1, c2];
    }
  }

  lemma {:induction false} LeadsOn(c: Cluster, steps: seq<Step>, states: seq<Cluster>, steps': seq<Step>,
      states': seq<Cluster>)
    requires Leads(c, steps, states) && Leads(states[|steps|], steps', states')
    ensures Leads(c, steps + steps', states + states'[1..])
    ensures (states + states'[1..])[|steps + steps'|] == states'[|steps'|]
  {
    hide StepsTo;
    var all, alls := steps + steps', states + states'[1..];
    forall i | 0 <= i < |all| ensures StepsTo(alls[i], all[i], alls[i + 1]) {
      if i >= |steps| {
        assert StepsTo(states'[i - |steps|], steps'[i - |steps|], states'[i - |steps| + 1]);
      }
    }
  }

  lemma {:induction false} GatherAll(ids: seq<Str>, c: Cluster, i: nat, term: Term, k: nat)
      returns (steps: seq<Step>, states: seq<Cluster>)
    requires Gathering(ids, c, i, term, k)
    ensures Leads(c, steps, states) && Gathering(ids, states[|steps|], i, term, |ids|)
    decreases |ids| - k
  {
    hide Gathering, StepsTo;
    GatheringBound(ids, c, i, term, k);
    if k == |ids| {
      steps, states := [], [c];
    } else {
      var first, seen := GatherOne(ids, c, i, term, k);
      var rest, seen' := GatherAll(ids, seen[|first|], i, term, k + 1);
      LeadsOn(c, first, seen, rest, seen');
      steps, states := first + rest, seen + seen'[1..];
    }
  }

  lemma GatheringBound(ids: seq<Str>, c: Cluster, i: nat, term: Term, k: nat)
    requires Gathering(ids, c, i, term, k)
    ensures k <= |ids|
  {
  }

  /** With every vote the candidate may take the lead. */
  lemma GatheredWins(ids: seq<Str>, c: Cluster, i: nat, term: Term)
    requires Gathering(ids, c, i, term, |ids|)
    ensures Allowed(c, Win(i)) && Act(c, Win(i)).nodes[i].role == Leader && Act(c, Win(i)).nodes[i].term == term
    ensures Victory(term, ids[i]) in Act(c, Win(i)).wins
  {
    var all := Voters(c, term, ids[i]);
    var everyone := UpTo(|ids|);
    assert everyone <= all by {
      forall j | j in everyone ensures j in all {
        assert Ballot(j, term, ids[i]) in c.votes;
      }
    }
    Subset(everyone, all);
  }

  function UpTo(n: nat): (s: set<nat>)
    ensures |s| == n && forall x: nat :: x in s <==> x < n
  {
    if n == 0 then {} else UpTo(n - 1) + {n - 1}
  }

  /** From any state of any run, any node can be elected in any term that no node has reached. */
  lemma ElectionCanBeWon(ids: seq<Str>, run: seq<Step>, states: seq<Cluster>, n: nat, i: nat, term: Term)
      returns (steps: seq<Step>, after: seq<Cluster>)
    requires Named(ids) && IsRun(ids, run, states) && n <= |run| && i < |ids|
    requires forall j :: 0 <= j < |states[n].nodes| ==> states[n].nodes[j].term < term
    ensures Leads(states[n], steps, after)
    ensures var c := after[|steps|];
      && |c.nodes| == |ids| && c.nodes[i].role == Leader && c.nodes[i].term == term
      && Victory(term, ids[i]) in c.wins
  {
    var c := states[n];
    hide IsRun, Gathering, Inv;
    RunsKeepInv(ids, run, states, n);
    var c2 := Stands(ids, c, i, term);
    var gathered, seen := GatherAll(ids, c2, i, term, 0);
    var ready := seen[|gathered|];
    GatheredWins(ids, ready, i, term);
    var won := Act(ready, Win(i));
    WonSize(ids, ready, i, term);
    var c1 := Act(c, Concede(i, term - 1, []));
    hide Act, Allowed;
    LeadsOn(c, [Concede(i, term - 1, []), Campaign(i)], [c, c1, c2], gathered, seen);
    steps, after := [Concede(i, term - 1, []), Campaign(i)] + gathered, [c, c1, c2] + seen[1..];
    LeadsOn(c, steps, after, [Win(i)], [ready, won]);
    steps, after := steps + [Win(i)], after + [ready, won][1..];
  }

  /** The candidate comes up to the term before, and campaigns. */
  lemma Stands(ids: seq<Str>, c: Cluster, i: nat, term: Term) returns (c2: Cluster)
    requires Named(ids) && Inv(ids, c) && i < |ids|
    requires forall j :: 0 <= j < |c.nodes| ==> c.nodes[j].term < term
    ensures term > 0 && |c.nodes| == |ids|
    ensures var c1 := Act(c, Concede(i, term - 1, []));
      Leads(c, [Concede(i, term - 1, []), Campaign(i)], [c, c1, c2]) && Gathering(ids, c2, i, term, 0)
  {
    hide Voters, OneVotePerTerm, RoleOk, Inv, VoteOk;
    SameSize(ids, c);
    assert c.nodes[i].self == ids[i] by {
      SelvesAre(ids, c, i);
    }
    var c1 := Act(c, Concede(i, term - 1, []));
    ActKeepsInv(ids, c, Concede(i, term - 1, []));
    c2 := Act(c1, Campaign(i));
    ActKeepsInv(ids, c1, Campaign(i));
  }

  lemma SelvesAre(ids: seq<Str>, c: Cluster, i: nat)
    requires Inv(ids, c) && i < |ids|
    ensures |c.nodes| == |ids| && c.nodes[i].self == ids[i]
  {
  }

  lemma WonSize(ids: seq<Str>, c: Cluster, i: nat, term: Term)
    requires Gathering(ids, c, i, term, |ids|)
    ensures i < |c.nodes| && |Act(c, Win(i)).nodes| == |ids|
  {
    hide Voters;
  }

  lemma SameSize(ids: seq<Str>, c: Cluster)
    requires Inv(ids, c)
    ensures |c.nodes| == |ids|
  {
  }
}

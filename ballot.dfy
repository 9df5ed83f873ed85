/**
 * The Ballot contract's state and the effect of each of its calls, as values.
 *
 * Every public call of the contract is a function from the state before the
 * call (plus the caller's account and the call's arguments) to either the
 * state after it or the error that aborted it. An aborted call leaves no
 * trace: the host rolls back every write of a call that panics, so an `Err`
 * carries no state at all.
 */
module Ballot {

  type AccountId = string

  datatype Option<T> = None | Some(value: T)

  /** A registered account. `weight` grows when others delegate to it. */
  datatype Voter = Voter(weight: nat, voted: bool, delegate: Option<AccountId>, vote: Option<nat>)

  datatype Proposal = Proposal(name: string, voteCount: nat)

  datatype State = State(chairPerson: AccountId, voters: map<AccountId, Voter>, proposals: seq<Proposal>)

  /** One kind per `assert!`, `panic!` or failing `unwrap()` of the contract. */
  datatype Error =
    | Unauthorized          // only the chairperson grants rights
    | AlreadyVoted          // the account has voted or delegated already
    | NotRegistered         // the caller has no voter record
    | NoVotingRight         // the caller's weight is 0
    | SelfDelegation        // delegating to oneself
    | DelegateUnknown       // the delegate has no voter record
    | DelegateCannotVote    // the delegate's weight is 0
    | DelegationLoop        // the delegate delegated to the caller
    | DelegateVoteMissing   // the delegate voted by delegation, so it has no proposal
    | ProposalMissing       // the proposal index is out of range

  datatype Result<T> = Ok(value: T) | Err(error: Error)

  /** The record a newly registered account gets. */
  const NewVoter := Voter(1, false, None, None)

  /** `after` has the same accounts as `before`, and those outside `touched` keep their record. */
  predicate VotersAgreeExcept(before: map<AccountId, Voter>, after: map<AccountId, Voter>, touched: set<AccountId>)
  {
    after.Keys == before.Keys &&
    forall a :: a in before && a !in touched ==> after[a] == before[a]
  }

  /** `after` has as many proposals as `before`, and all but the one at `index` are the same. */
  predicate ProposalsAgreeExcept(before: seq<Proposal>, after: seq<Proposal>, index: nat)
  {
    |after| == |before| &&
    forall j :: 0 <= j < |before| && j != index ==> after[j] == before[j]
  }

  /** One zero-count proposal per name, in the order of the names. */
  function FreshProposals(names: seq<string>): (ps: seq<Proposal>)
    ensures |ps| == |names|
    ensures forall i :: 0 <= i < |names| ==> ps[i] == Proposal(names[i], 0)
  {
    if names == [] then []
    else FreshProposals(names[..|names| - 1]) + [Proposal(names[|names| - 1], 0)]
  }

  /** The state `new` builds: the caller chairs and is the only voter. */
  function New(caller: AccountId, names: seq<string>): (s: State)
    ensures s.chairPerson == caller
    ensures s.voters.Keys == {caller} && s.voters[caller] == Voter(1, false, None, None)
    ensures |s.proposals| == |names|
    ensures forall i :: 0 <= i < |names| ==> s.proposals[i].name == names[i] && s.proposals[i].voteCount == 0
  {
    State(caller, map[caller := NewVoter], FreshProposals(names))
  }

  /**
   * `give_right_to_vote`. Re-granting to a registered account that has not
   * voted changes nothing: the contract sets the weight on a copy it never
   * stores back.
   */
  function GiveRightToVote(s: State, caller: AccountId, voter: AccountId): (r: Result<State>)
    ensures caller != s.chairPerson ==> r == Err(Unauthorized)
    ensures caller == s.chairPerson && voter in s.voters && s.voters[voter].voted ==> r == Err(AlreadyVoted)
    ensures r.Ok? <==> caller == s.chairPerson && (voter in s.voters ==> !s.voters[voter].voted)
    ensures r.Ok? && voter in s.voters ==> r.value == s
    ensures r.Ok? && voter !in s.voters ==>
      r.value.chairPerson == s.chairPerson && r.value.proposals == s.proposals &&
      r.value.voters.Keys == s.voters.Keys + {voter} &&
      r.value.voters[voter] == Voter(1, false, None, None) &&
      forall a :: a in s.voters ==> r.value.voters[a] == s.voters[a]
  {
    if caller != s.chairPerson then Err(Unauthorized)
    else if voter in s.voters then
      if s.voters[voter].voted then Err(AlreadyVoted) else Ok(s)
    else Ok(s.(voters := s.voters[voter := NewVoter]))
  }

  /**
   * `delegate`: the caller hands its weight to `to`. Only `to`'s own
   * `delegate` is compared with the caller; no chain is followed. When `to`
   * has voted, the weight goes to the tally of the proposal `to` voted for,
   * which exists only when `to` voted directly.
   */
  function Delegate(s: State, sender: AccountId, to: AccountId): (r: Result<State>)
    ensures sender !in s.voters ==> r == Err(NotRegistered)
    ensures sender in s.voters && s.voters[sender].weight == 0 ==> r == Err(NoVotingRight)
    ensures sender in s.voters && s.voters[sender].weight != 0 && s.voters[sender].voted ==> r == Err(AlreadyVoted)
    ensures sender in s.voters && to == sender ==> r.Err?
    ensures to !in s.voters ==> r.Err?
    ensures to in s.voters && s.voters[to].weight == 0 ==> r.Err?
    ensures to in s.voters && s.voters[to].delegate == Some(sender) ==> r.Err?
    ensures to in s.voters && s.voters[to].voted && s.voters[to].vote.None? ==> r.Err?
    ensures sender in s.voters && s.voters[sender].weight != 0 && !s.voters[sender].voted ==>
      (to == sender ==> r == Err(SelfDelegation)) &&
      (to != sender && to !in s.voters ==> r == Err(DelegateUnknown)) &&
      (to != sender && to in s.voters ==>
        var d := s.voters[to];
        (d.weight == 0 ==> r == Err(DelegateCannotVote)) &&
        (d.weight != 0 && d.delegate == Some(sender) ==> r == Err(DelegationLoop)) &&
        (d.weight != 0 && d.delegate != Some(sender) && d.voted && d.vote.None? ==> r == Err(DelegateVoteMissing)) &&
        (d.weight != 0 && d.delegate != Some(sender) && d.voted && d.vote.Some? && d.vote.value >= |s.proposals| ==>
           r == Err(ProposalMissing)))
    ensures r.Ok? ==>
      sender in s.voters && to in s.voters && to != sender &&
      var v, d, after := s.voters[sender], s.voters[to], r.value;
      v.weight != 0 && !v.voted && d.weight != 0 && d.delegate != Some(sender) &&
      after.chairPerson == s.chairPerson &&
      VotersAgreeExcept(s.voters, after.voters, {sender, to}) &&
      after.voters[sender] == Voter(v.weight, true, Some(to), v.vote) &&
      if d.voted then
        d.vote.Some? && d.vote.value < |s.proposals| &&
        after.voters[to] == d &&
        ProposalsAgreeExcept(s.proposals, after.proposals, d.vote.value) &&
        after.proposals[d.vote.value] ==
          Proposal(s.proposals[d.vote.value].name, s.proposals[d.vote.value].voteCount + v.weight)
      else
        after.voters[to] == Voter(d.weight + v.weight, d.voted, d.delegate, d.vote) &&
        after.proposals == s.proposals
  {
    if sender !in s.voters then Err(NotRegistered)
    else
      var v := s.voters[sender];
      if v.weight == 0 then Err(NoVotingRight)
      else if v.voted then Err(AlreadyVoted)
      else if to == sender then Err(SelfDelegation)
      else if to !in s.voters then Err(DelegateUnknown)
      else
        var d := s.voters[to];
        if d.weight == 0 then Err(DelegateCannotVote)
        else if d.delegate == Some(sender) then Err(DelegationLoop)
        else
          var voters := s.voters[sender := v.(voted := true, delegate := Some(to))];
          if d.voted then
            if d.vote.None? then Err(DelegateVoteMissing)
            else if d.vote.value >= |s.proposals| then Err(ProposalMissing)
            else
              var p := s.proposals[d.vote.value];
              Ok(State(s.chairPerson, voters, s.proposals[d.vote.value := p.(voteCount := p.voteCount + v.weight)]))
          else
            Ok(State(s.chairPerson, voters[to := d.(weight := d.weight + v.weight)], s.proposals))
  }

  /** `vote`: the caller's weight goes to the tally of proposal `index`. */
  function Vote(s: State, sender: AccountId, index: nat): (r: Result<State>)
    ensures sender !in s.voters ==> r == Err(NotRegistered)
    ensures sender in s.voters && s.voters[sender].weight == 0 ==> r == Err(NoVotingRight)
    ensures sender in s.voters && s.voters[sender].weight != 0 && s.voters[sender].voted ==> r == Err(AlreadyVoted)
    ensures r.Ok? <==>
      sender in s.voters && s.voters[sender].weight != 0 && !s.voters[sender].voted && index < |s.proposals|
    ensures r.Err? && sender in s.voters && s.voters[sender].weight != 0 && !s.voters[sender].voted ==>
      r.error == ProposalMissing
    ensures r.Ok? ==>
      var v, after := s.voters[sender], r.value;
      after.chairPerson == s.chairPerson &&
      VotersAgreeExcept(s.voters, after.voters, {sender}) &&
      after.voters[sender] == Voter(v.weight, true, v.delegate, Some(index)) &&
      ProposalsAgreeExcept(s.proposals, after.proposals, index) &&
      after.proposals[index] == Proposal(s.proposals[index].name, s.proposals[index].voteCount + v.weight)
  {
    if sender !in s.voters then Err(NotRegistered)
    else
      var v := s.voters[sender];
      if v.weight == 0 then Err(NoVotingRight)
      else if v.voted then Err(AlreadyVoted)
      else if index >= |s.proposals| then Err(ProposalMissing)
      else
        var p := s.proposals[index];
        Ok(State(s.chairPerson, s.voters[sender := v.(voted := true, vote := Some(index))],
                 s.proposals[index := p.(voteCount := p.voteCount + v.weight)]))
  }

  /** One call to the contract, with the account that makes it. */
  datatype Call =
    | GiveRight(caller: AccountId, voter: AccountId)
    | DelegateTo(caller: AccountId, to: AccountId)
    | VoteFor(caller: AccountId, index: nat)

  function Apply(s: State, c: Call): Result<State>
  {
    match c
    case GiveRight(caller, voter) => GiveRightToVote(s, caller, voter)
    case DelegateTo(caller, to) => Delegate(s, caller, to)
    case VoteFor(caller, index) => Vote(s, caller, index)
  }

  /**
   * The state after the host has run the calls one after another; a call
   * that fails leaves the state as it found it.
   */
  function Run(s: State, calls: seq<Call>): (after: State)
    ensures after.chairPerson == s.chairPerson
    ensures |after.proposals| == |s.proposals|
    ensures s.voters.Keys <= after.voters.Keys
    decreases |calls|
  {
    if calls == [] then s
    else
      var next := match Apply(s, calls[0]) case Ok(t) => t case Err(_) => s;
      Run(next, calls[1..])
  }

  /**
   * `winner` is what `winning_proposal` returns for `ps`: the first index
   * holding the largest tally when that tally is above 0, and None when
   * every tally is 0 (in particular when there are no proposals).
   */
  predicate Winning(ps: seq<Proposal>, winner: Option<nat>)
  {
    match winner
    case None => forall j :: 0 <= j < |ps| ==> ps[j].voteCount == 0
    case Some(i) =>
      i < |ps| && ps[i].voteCount > 0 &&
      (forall j :: 0 <= j < |ps| ==> ps[j].voteCount <= ps[i].voteCount) &&
      (forall j :: 0 <= j < i ==> ps[j].voteCount < ps[i].voteCount)
  }

  /** At most one answer satisfies `Winning`. */
  lemma WinningUnique(ps: seq<Proposal>, w1: Option<nat>, w2: Option<nat>)
    requires Winning(ps, w1) && Winning(ps, w2)
    ensures w1 == w2
  {
  }

  /** A record as every reachable state holds it, against `n` proposals. */
  predicate VoterValid(v: Voter, n: nat)
  {
    v.weight >= 1 &&
    if v.voted then
      (v.delegate.Some? != v.vote.Some?) && (v.vote.Some? ==> v.vote.value < n)
    else
      v.delegate.None? && v.vote.None?
  }

  /**
   * The invariant every reachable state keeps: the chairperson is registered,
   * every record is well formed, and every delegate is a registered account.
   */
  predicate Valid(s: State)
  {
    s.chairPerson in s.voters &&
    (forall a :: a in s.voters ==> VoterValid(s.voters[a], |s.proposals|)) &&
    (forall a :: a in s.voters && s.voters[a].delegate.Some? ==> s.voters[a].delegate.value in s.voters)
  }

  lemma NewValid(caller: AccountId, names: seq<string>)
    ensures Valid(New(caller, names))
  {
  }

  lemma GiveRightToVotePreservesValid(s: State, caller: AccountId, voter: AccountId)
    requires Valid(s)
    ensures GiveRightToVote(s, caller, voter).Ok? ==> Valid(GiveRightToVote(s, caller, voter).value)
  {
  }

  lemma DelegatePreservesValid(s: State, sender: AccountId, to: AccountId)
    requires Valid(s)
    ensures Delegate(s, sender, to).Ok? ==> Valid(Delegate(s, sender, to).value)
  {
  }

  lemma VotePreservesValid(s: State, sender: AccountId, index: nat)
    requires Valid(s)
    ensures Vote(s, sender, index).Ok? ==> Valid(Vote(s, sender, index).value)
  {
  }

  /**
   * In a valid state `delegate` succeeds exactly when the caller is registered
   * and has not voted, the target is another registered account, and the
   * target, if it has voted, voted directly. The weight and loop checks never
   * fire on their own there.
   */
  lemma DelegateSucceedsIff(s: State, sender: AccountId, to: AccountId)
    requires Valid(s)
    ensures Delegate(s, sender, to).Ok? <==>
      sender in s.voters && !s.voters[sender].voted && to != sender && to in s.voters &&
      (s.voters[to].voted ==> s.voters[to].vote.Some?)
  {
  }

  /**
   * Delegating to an account that has itself delegated always aborts: its
   * `vote` is empty, so unwrapping it panics. The chain is never followed.
   */
  lemma DelegateToDelegatorAborts(s: State, sender: AccountId, to: AccountId)
    requires Valid(s)
    requires sender in s.voters && !s.voters[sender].voted && to != sender
    requires to in s.voters && s.voters[to].voted && s.voters[to].delegate.Some?
    ensures Delegate(s, sender, to) == Err(if s.voters[to].delegate.value == sender then DelegationLoop else DelegateVoteMissing)
  {
  }

  /** Granting twice is the same as granting once. */
  lemma GiveRightToVoteIdempotent(s: State, caller: AccountId, voter: AccountId)
    requires GiveRightToVote(s, caller, voter).Ok?
    ensures GiveRightToVote(GiveRightToVote(s, caller, voter).value, caller, voter) == GiveRightToVote(s, caller, voter)
  {
  }

  /**
   * The repository's `winner_name` test: the chairperson alone votes for the
   * third of three proposals, which then wins.
   */
  lemma VoteThenWinnerScenario(chair: AccountId)
    ensures
      var s := New(chair, ["Eduction", "Industry", "Finance"]);
      var r := Vote(s, chair, 2);
      r.Ok? && r.value.voters[chair].vote == Some(2) &&
      r.value.proposals[2].voteCount == 1 && Winning(r.value.proposals, Some(2)) &&
      r.value.proposals[2].name == "Finance"
  {
  }

  /**
   * The repository's `give_right_to_vote` and `delegate` tests: Alice gets a
   * fresh record, and the chairperson's delegation to her names her as its
   * delegate and adds the chairperson's unit to her weight.
   */
  lemma GrantThenDelegateScenario(chair: AccountId, alice: AccountId)
    requires chair != alice
    ensures
      var s1 := GiveRightToVote(New(chair, ["Eduction", "Industry", "Finance"]), chair, alice);
      s1.Ok? && s1.value.voters[alice] == Voter(1, false, None, None) &&
      var s2 := Delegate(s1.value, chair, alice);
      s2.Ok? && s2.value.voters[chair].delegate == Some(alice) && s2.value.voters[chair].voted &&
      s2.value.voters[alice].weight == 2
  {
  }

  /**
   * Bob delegates to Alice, then Alice delegates to the chairperson: Alice's
   * weight, which already holds Bob's, moves on, so the chairperson ends with
   * all three units.
   */
  lemma ChainInOrderScenario(chair: AccountId, alice: AccountId, bob: AccountId)
    requires chair != alice && chair != bob && alice != bob
    ensures
      var s0 := New(chair, ["A", "B", "C"]);
      var s1 := GiveRightToVote(s0, chair, alice);
      s1.Ok? &&
      var s2 := GiveRightToVote(s1.value, chair, bob);
      s2.Ok? &&
      var s3 := Delegate(s2.value, bob, alice);
      s3.Ok? && s3.value.voters[alice].weight == 2 &&
      var s4 := Delegate(s3.value, alice, chair);
      s4.Ok? && s4.value.voters[chair].weight == 3 &&
      var s5 := Vote(s4.value, chair, 1);
      s5.Ok? && s5.value.proposals[1].voteCount == 3 && Winning(s5.value.proposals, Some(1))
  {
  }

  /**
   * Alice delegates to the chairperson first; Bob's later delegation to Alice
   * aborts instead of reaching the chairperson.
   */
  lemma ChainOutOfOrderScenario(chair: AccountId, alice: AccountId, bob: AccountId)
    requires chair != alice && chair != bob && alice != bob
    ensures
      var s0 := New(chair, ["A", "B", "C"]);
      var s1 := GiveRightToVote(s0, chair, alice);
      s1.Ok? &&
      var s2 := GiveRightToVote(s1.value, chair, bob);
      s2.Ok? &&
      var s3 := Delegate(s2.value, alice, chair);
      s3.Ok? && s3.value.voters[chair].weight == 2 &&
      Delegate(s3.value, bob, alice) == Err(DelegateVoteMissing)
  {
  }
}

/**
 * The Ballot contract as an object whose fields each call updates in place:
 * read a record, change the local copy, write it back. The caller's account,
 * which the host supplies to every call, is an explicit parameter.
 */
module BallotContract {
  import opened Ballot

  datatype Outcome = Pass | Fail(error: Error)

  /**
   * A call that `r` says succeeds passed and left `after`; a call that `r`
   * says fails reports that error and left the state as it was `before`.
   */
  predicate Committed(r: Result<State>, before: State, outcome: Outcome, after: State)
  {
    match r
    case Ok(s) => outcome == Pass && after == s
    case Err(e) => outcome == Fail(e) && after == before
  }

  class Contract {
    var chairPerson: AccountId
    var voters: map<AccountId, Voter>
    var proposals: seq<Proposal>

    function Snapshot(): State
      reads this
    {
      State(chairPerson, voters, proposals)
    }

    /** `new`: the caller becomes chairperson and the only voter; one proposal per name. */
    constructor (caller: AccountId, names: seq<string>)
      ensures Snapshot() == New(caller, names)
    {
      var ps: seq<Proposal> := [];
      for i := 0 to |names|
        invariant |ps| == i
        invariant forall j :: 0 <= j < i ==> ps[j] == Proposal(names[j], 0)
      {
        ps := ps + [Proposal(names[i], 0)];
      }
      chairPerson := caller;
      voters := map[caller := Voter(1, false, None, None)];
      proposals := ps;
    }

    method GiveRightToVote(caller: AccountId, voter: AccountId) returns (outcome: Outcome)
      modifies this
      ensures Committed(Ballot.GiveRightToVote(old(Snapshot()), caller, voter), old(Snapshot()), outcome, Snapshot())
    {
      if chairPerson != caller {
        return Fail(Unauthorized);
      }
      if voter in voters {
        var val := voters[voter];
        if val.voted {
          return Fail(AlreadyVoted);
        }
        // The weight is set on a copy that is never stored back.
        var copy := voters[voter];
        copy := copy.(weight := 1);
      } else {
        voters := voters[voter := Voter(1, false, None, None)];
      }
      return Pass;
    }

    method Delegate(caller: AccountId, to: AccountId) returns (outcome: Outcome)
      modifies this
      ensures Committed(Ballot.Delegate(old(Snapshot()), caller, to), old(Snapshot()), outcome, Snapshot())
    {
      if caller !in voters {
        return Fail(NotRegistered);
      }
      var senderVoter := voters[caller];
      if senderVoter.weight == 0 {
        return Fail(NoVotingRight);
      }
      if senderVoter.voted {
        return Fail(AlreadyVoted);
      }
      if to == caller {
        return Fail(SelfDelegation);
      }
      if to !in voters {
        return Fail(DelegateUnknown);
      }
      var delegateVoter := voters[to];
      if delegateVoter.weight == 0 {
        return Fail(DelegateCannotVote);
      }
      if delegateVoter.delegate == Some(caller) {
        return Fail(DelegationLoop);
      }
      // The sender's record is written before the delegate's proposal is
      // looked up; a panic after this point makes the host discard it.
      var saved := voters;
      var sender := voters[caller];
      sender := sender.(voted := true, delegate := Some(to));
      voters := voters[caller := sender];
      if delegateVoter.voted {
        if delegateVoter.vote.None? {
          voters := saved;
          return Fail(DelegateVoteMissing);
        }
        var index := delegateVoter.vote.value;
        if index >= |proposals| {
          voters := saved;
          return Fail(ProposalMissing);
        }
        var proposal := proposals[index];
        proposal := proposal.(voteCount := proposal.voteCount + senderVoter.weight);
        proposals := proposals[index := proposal];
      } else {
        var target := voters[to];
        target := target.(weight := target.weight + senderVoter.weight);
        voters := voters[to := target];
      }
      return Pass;
    }

    method Vote(caller: AccountId, index: nat) returns (outcome: Outcome)
      modifies this
      ensures Committed(Ballot.Vote(old(Snapshot()), caller, index), old(Snapshot()), outcome, Snapshot())
    {
      if caller !in voters {
        return Fail(NotRegistered);
      }
      var senderVoter := voters[caller];
      if senderVoter.weight == 0 {
        return Fail(NoVotingRight);
      }
      if senderVoter.voted {
        return Fail(AlreadyVoted);
      }
      var sender := voters[caller];
      sender := sender.(voted := true, vote := Some(index));
      if index >= |proposals| {
        return Fail(ProposalMissing);
      }
      var proposal := proposals[index];
      proposal := proposal.(voteCount := proposal.voteCount + senderVoter.weight);
      voters := voters[caller := sender];
      proposals := proposals[index := proposal];
      return Pass;
    }

    /** `winning_proposal`: scan the tallies, moving on only to a strictly larger one. */
    method WinningProposal() returns (winner: Option<nat>)
      ensures Winning(proposals, winner)
    {
      var winningIndex: Option<nat> := None;
      var winningCount: nat := 0;
      for i := 0 to |proposals|
        invariant winningIndex.None? ==> winningCount == 0
        invariant winningIndex.Some? ==>
          winningIndex.value < i && proposals[winningIndex.value].voteCount == winningCount > 0
        invariant forall j :: 0 <= j < i ==> proposals[j].voteCount <= winningCount
        invariant winningIndex.Some? ==>
          forall j :: 0 <= j < winningIndex.value ==> proposals[j].voteCount < winningCount
      {
        if proposals[i].voteCount > winningCount {
          winningCount := proposals[i].voteCount;
          winningIndex := Some(i);
        }
      }
      return winningIndex;
    }

    /** `winner_name`: the name of the winning proposal, if there is one. */
    method WinnerName() returns (name: Option<string>)
      ensures name.None? <==> Winning(proposals, None)
      ensures name.Some? ==> exists i: nat :: Winning(proposals, Some(i)) && name.value == proposals[i].name
    {
      var result := WinningProposal();
      if result.Some? {
        return Some(proposals[result.value].name);
      }
      return None;
    }
  }
}

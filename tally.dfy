/**
 * Where the contract's voting weight sits. A unit of weight is either still
 * held by a voter who has neither voted nor delegated, or already counted in
 * some proposal's tally. `vote` and `delegate` only move weight between
 * these places; `give_right_to_vote` creates one unit per new account.
 */
module Tally {
  import opened Ballot

  /** The weight a voter still holds: none once it has voted or delegated. */
  function Held(v: Voter): nat
  {
    if v.voted then 0 else v.weight
  }

  /** The weight held by the voters of `voters` whose accounts are in `accounts`. */
  ghost function HeldBy(voters: map<AccountId, Voter>, accounts: set<AccountId>): nat
    requires accounts <= voters.Keys
    decreases accounts
  {
    if accounts == {} then 0
    else
      var a :| a in accounts;
      Held(voters[a]) + HeldBy(voters, accounts - {a})
  }

  ghost function UnvotedWeight(voters: map<AccountId, Voter>): nat
  {
    HeldBy(voters, voters.Keys)
  }

  /** The sum of all proposals' tallies. */
  function TallySum(ps: seq<Proposal>): nat
  {
    if ps == [] then 0 else ps[0].voteCount + TallySum(ps[1..])
  }

  /** All weight in the contract: held by voters or counted for proposals. */
  ghost function TotalWeight(s: State): nat
  {
    UnvotedWeight(s.voters) + TallySum(s.proposals)
  }

  /** Every registered account has brought exactly one unit of weight. */
  ghost predicate Conserved(s: State)
  {
    TotalWeight(s) == |s.voters|
  }

  /** Any account of the set can be taken out first. */
  lemma {:induction false} HeldByPick(voters: map<AccountId, Voter>, accounts: set<AccountId>, a: AccountId)
    requires accounts <= voters.Keys && a in accounts
    ensures HeldBy(voters, accounts) == Held(voters[a]) + HeldBy(voters, accounts - {a})
    decreases accounts
  {
    var b :| b in accounts && HeldBy(voters, accounts) == Held(voters[b]) + HeldBy(voters, accounts - {b});
    if a != b {
      HeldByPick(voters, accounts - {b}, a);
      HeldByPick(voters, accounts - {a}, b);
      assert accounts - {b} - {a} == accounts - {a} - {b};
    }
  }

  /** The sum only depends on the weight each counted voter holds. */
  lemma {:induction false} HeldByFrame(m1: map<AccountId, Voter>, m2: map<AccountId, Voter>, accounts: set<AccountId>)
    requires accounts <= m1.Keys && accounts <= m2.Keys
    requires forall a :: a in accounts ==> Held(m1[a]) == Held(m2[a])
    ensures HeldBy(m1, accounts) == HeldBy(m2, accounts)
    decreases accounts
  {
    if accounts != {} {
      var a :| a in accounts;
      HeldByPick(m1, accounts, a);
      HeldByPick(m2, accounts, a);
      HeldByFrame(m1, m2, accounts - {a});
    }
  }

  /** Replacing one record changes the held weight by the difference of the two records. */
  lemma ReplaceVoter(voters: map<AccountId, Voter>, a: AccountId, v: Voter)
    requires a in voters
    ensures UnvotedWeight(voters[a := v]) + Held(voters[a]) == UnvotedWeight(voters) + Held(v)
  {
    var after := voters[a := v];
    assert after.Keys == voters.Keys;
    HeldByPick(voters, voters.Keys, a);
    HeldByPick(after, after.Keys, a);
    HeldByFrame(voters, after, voters.Keys - {a});
  }

  /** Registering a new account adds the weight of its record. */
  lemma InsertVoter(voters: map<AccountId, Voter>, a: AccountId, v: Voter)
    requires a !in voters
    ensures UnvotedWeight(voters[a := v]) == UnvotedWeight(voters) + Held(v)
    ensures |voters[a := v]| == |voters| + 1
  {
    var after := voters[a := v];
    assert after.Keys == voters.Keys + {a};
    assert after.Keys - {a} == voters.Keys;
    HeldByPick(after, after.Keys, a);
    HeldByFrame(voters, after, voters.Keys);
  }

  /** Replacing one proposal changes the sum of tallies by the difference of the two tallies. */
  lemma {:induction false} ReplaceProposal(ps: seq<Proposal>, i: nat, p: Proposal)
    requires i < |ps|
    ensures TallySum(ps[i := p]) + ps[i].voteCount == TallySum(ps) + p.voteCount
  {
    if i > 0 {
      ReplaceProposal(ps[1..], i - 1, p);
      assert ps[i := p][1..] == ps[1..][i - 1 := p];
    }
  }

  /** Tallies that are all 0 sum to 0. */
  lemma {:induction false} ZeroTallies(ps: seq<Proposal>)
    requires forall j :: 0 <= j < |ps| ==> ps[j].voteCount == 0
    ensures TallySum(ps) == 0
  {
    if ps != [] {
      ZeroTallies(ps[1..]);
    }
  }

  /** A new contract holds exactly the chairperson's unit. */
  lemma NewConserved(caller: AccountId, names: seq<string>)
    ensures Conserved(New(caller, names))
    ensures TotalWeight(New(caller, names)) == 1
  {
    var s := New(caller, names);
    InsertVoter(map[], caller, NewVoter);
    assert s.voters == map[caller := NewVoter];
    ZeroTallies(s.proposals);
  }

  /** Granting a right creates one unit of weight for a new account and nothing otherwise. */
  lemma GiveRightToVoteConserves(s: State, caller: AccountId, voter: AccountId)
    requires GiveRightToVote(s, caller, voter).Ok?
    ensures TotalWeight(GiveRightToVote(s, caller, voter).value) ==
      TotalWeight(s) + (if voter in s.voters then 0 else 1)
    ensures Conserved(s) ==> Conserved(GiveRightToVote(s, caller, voter).value)
  {
    if voter !in s.voters {
      InsertVoter(s.voters, voter, NewVoter);
      assert GiveRightToVote(s, caller, voter).value.voters == s.voters[voter := NewVoter];
    }
  }

  /** A vote moves the voter's weight into one tally. */
  lemma VoteConserves(s: State, sender: AccountId, index: nat)
    requires Vote(s, sender, index).Ok?
    ensures TotalWeight(Vote(s, sender, index).value) == TotalWeight(s)
    ensures |Vote(s, sender, index).value.voters| == |s.voters|
  {
    var after := Vote(s, sender, index).value;
    var v := s.voters[sender];
    var v' := v.(voted := true, vote := Some(index));
    assert after.voters == s.voters[sender := v'];
    ReplaceVoter(s.voters, sender, v');
    assert after.proposals == s.proposals[index := after.proposals[index]];
    ReplaceProposal(s.proposals, index, after.proposals[index]);
  }

  /**
   * A delegation moves the sender's weight either into the tally the
   * delegate voted for or onto the delegate, who has not voted yet.
   */
  lemma DelegateConserves(s: State, sender: AccountId, to: AccountId)
    requires Delegate(s, sender, to).Ok?
    ensures TotalWeight(Delegate(s, sender, to).value) == TotalWeight(s)
    ensures |Delegate(s, sender, to).value.voters| == |s.voters|
  {
    var after := Delegate(s, sender, to).value;
    var v, d := s.voters[sender], s.voters[to];
    var v' := v.(voted := true, delegate := Some(to));
    var voters := s.voters[sender := v'];
    ReplaceVoter(s.voters, sender, v');
    if d.voted {
      assert after.voters == voters;
      var i := d.vote.value;
      assert after.proposals == s.proposals[i := after.proposals[i]];
      ReplaceProposal(s.proposals, i, after.proposals[i]);
    } else {
      var d' := d.(weight := d.weight + v.weight);
      assert after.voters == voters[to := d'];
      ReplaceVoter(voters, to, d');
      assert after.voters.Keys == s.voters.Keys;
    }
  }

  lemma VotePreservesConserved(s: State, sender: AccountId, index: nat)
    requires Conserved(s) && Vote(s, sender, index).Ok?
    ensures Conserved(Vote(s, sender, index).value)
  {
    VoteConserves(s, sender, index);
  }

  lemma DelegatePreservesConserved(s: State, sender: AccountId, to: AccountId)
    requires Conserved(s) && Delegate(s, sender, to).Ok?
    ensures Conserved(Delegate(s, sender, to).value)
  {
    DelegateConserves(s, sender, to);
  }

  /** Every call keeps both invariants, whether it succeeds or fails. */
  lemma {:induction false} RunKeepsInvariants(s: State, calls: seq<Call>)
    requires Valid(s) && Conserved(s)
    ensures Valid(Run(s, calls)) && Conserved(Run(s, calls))
    decreases |calls|
  {
    if calls != [] {
      var r := Apply(s, calls[0]);
      if r.Ok? {
        match calls[0] {
          case GiveRight(caller, voter) =>
            GiveRightToVotePreservesValid(s, caller, voter);
            GiveRightToVoteConserves(s, caller, voter);
          case DelegateTo(caller, to) =>
            DelegatePreservesValid(s, caller, to);
            DelegatePreservesConserved(s, caller, to);
          case VoteFor(caller, index) =>
            VotePreservesValid(s, caller, index);
            VotePreservesConserved(s, caller, index);
        }
        RunKeepsInvariants(r.value, calls[1..]);
      } else {
        RunKeepsInvariants(s, calls[1..]);
      }
    }
  }

  /** A single tally never exceeds the sum of all tallies. */
  lemma {:induction false} TallyAtMostSum(ps: seq<Proposal>, j: nat)
    requires j < |ps|
    ensures ps[j].voteCount <= TallySum(ps)
  {
    if j > 0 {
      TallyAtMostSum(ps[1..], j - 1);
    }
  }

  /**
   * In every state the contract can reach, the invariants hold, and no
   * proposal has more votes than there are registered accounts.
   */
  lemma ReachableStates(caller: AccountId, names: seq<string>, calls: seq<Call>)
    ensures var s := Run(New(caller, names), calls);
      Valid(s) && Conserved(s) &&
      forall j :: 0 <= j < |s.proposals| ==> s.proposals[j].voteCount <= |s.voters|
  {
    NewValid(caller, names);
    NewConserved(caller, names);
    var s := Run(New(caller, names), calls);
    RunKeepsInvariants(New(caller, names), calls);
    forall j | 0 <= j < |s.proposals|
      ensures s.proposals[j].voteCount <= |s.voters|
    {
      TallyAtMostSum(s.proposals, j);
    }
  }
}

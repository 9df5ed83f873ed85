# Ballot

A model of the NEAR smart contract `Ballot` (a port of the classic weighted,
delegated voting contract). A chairperson gives accounts the right to vote;
each registered account either votes for one of a fixed list of proposals or
delegates its weight to another account; anyone can ask for the winning
proposal.

The project has three modules:

- `Ballot` (`ballot.dfy`): the contract's records (`Voter`, `Proposal`), its
  state (chairperson, a map from account to voter, the list of proposals) and
  one function per public call. Each function maps the state before the call
  to the state after it, or to the error that aborted it. Every `assert!`,
  `panic!` and failing `unwrap()` of the contract is an `Error` value. The
  module also holds the validity invariant of reachable states, `Run` (a
  sequence of calls as the host applies them), and scenario lemmas taken from
  the repository's tests.
- `Tally` (`tally.dfy`): where the voting weight sits. Weight is either held
  by a voter who has neither voted nor delegated, or counted in a proposal's
  tally. `vote` and `delegate` only move weight. `give_right_to_vote` adds one
  unit per new account. So in every reachable state the held weight plus all
  tallies equals the number of registered accounts.
- `BallotContract` (`ballot_contract.dfy`): the contract as a class whose
  fields the calls update in place, by reading a record, changing the copy and
  writing it back. Each method's postcondition ties its outcome and the new
  state to the matching `Ballot` function. `WinningProposal` is the contract's
  scanning loop, proved against the `Winning` specification.

The caller's account (`env::predecessor_account_id()`) is an explicit
parameter of every call. A call that panics is rolled back by the host. So a
failed call leaves the state unchanged, even though `delegate` writes the
caller's record before it looks up the delegate's proposal. The class method
restores the saved map on that path.

The model follows the code as written, including three behaviours that differ
from the Solidity `Ballot` example this contract ports, which walks delegation
chains and sets the weight when it grants a right:

- `delegate` follows no delegation chain. It compares only the target's own
  `delegate` with the caller, and it stores the target itself as the caller's
  delegate. Delegating to an account that has itself delegated always aborts,
  because that account has no `vote` to unwrap (`DelegateToDelegatorAborts`,
  `ChainOutOfOrderScenario`). Weight still reaches the end of a chain when the
  delegations happen in chain order (`ChainInOrderScenario`).
- Re-granting the right to an account that is registered and has not voted
  changes nothing: the weight is set on a copy that is never stored back.
  This is what keeps the weight conservation invariant true.
- The contract has no separate "no right to vote" answer for a missing caller
  record: the `unwrap()` panics. The model calls that error `NotRegistered`.

## Model

| member | source | states |
|---|---|---|
| `Ballot.FreshProposals` | contract/src/lib.rs:74-80 | one proposal per name, in order, named after it, with a zero tally |
| `Ballot.New` | contract/src/lib.rs:60-89 | the caller chairs; the only voter is the caller with weight 1, not voted, no delegate, no vote; proposal i is names[i] with 0 votes |
| `Ballot.GiveRightToVote` | contract/src/lib.rs:94-113 | fails with Unauthorized unless the caller chairs, and with AlreadyVoted for a target that has voted; otherwise an unknown target is added as a fresh voter and a known one is left exactly as it was |
| `Ballot.Delegate` | contract/src/lib.rs:119-164 | each guard (caller missing, weight 0, already voted, self, target missing, target weight 0, target delegated to the caller, target's vote missing or out of range) gives its own error; on success the caller is marked voted with delegate `to`, and the caller's weight goes to the tally of `to`'s proposal if `to` voted, else onto `to`'s weight; nothing else changes |
| `Ballot.Vote` | contract/src/lib.rs:168-181 | succeeds iff the caller is registered with nonzero weight, has not voted, and the index is in range; then the caller is marked voted for that index, that proposal's tally grows by the caller's weight, and nothing else changes |
| `Ballot.WinningUnique` | contract/src/lib.rs:200-210 | the winning-proposal specification allows at most one answer |
| `Ballot.NewValid` | contract/src/lib.rs:60-89 | a new contract satisfies the validity invariant |
| `Ballot.GiveRightToVotePreservesValid` | contract/src/lib.rs:94-113 | granting a right keeps the validity invariant |
| `Ballot.DelegatePreservesValid` | contract/src/lib.rs:119-164 | delegating keeps the validity invariant: a voted record has exactly one of delegate or vote, votes index existing proposals, delegates are registered, weights are at least 1 |
| `Ballot.VotePreservesValid` | contract/src/lib.rs:168-181 | voting keeps the validity invariant |
| `Ballot.DelegateSucceedsIff` | contract/src/lib.rs:121-162 | in a valid state, delegating succeeds exactly when the caller is registered and has not voted, the target is another registered account, and a target that has voted voted directly |
| `Ballot.DelegateToDelegatorAborts` | contract/src/lib.rs:136-150 | delegating to an account that delegated always fails: with DelegationLoop if it delegated to the caller, otherwise when its empty vote is unwrapped |
| `Ballot.GiveRightToVoteIdempotent` | contract/src/lib.rs:100-113 | granting the right twice gives the same result as granting it once |
| `Ballot.VoteThenWinnerScenario` | contract/src/test.rs:88-97 | after the chairperson votes for the third of three proposals, that proposal has one vote and is the winner, "Finance" |
| `Ballot.GrantThenDelegateScenario` | contract/src/test.rs:33-65 | a granted account gets a fresh record; the chairperson's delegation to it marks the chairperson voted with that delegate and gives the delegate weight 2 |
| `Ballot.ChainInOrderScenario` | contract/src/lib.rs:149-160 | bob delegates to alice, then alice to the chairperson: the chairperson holds 3 units, and its vote puts 3 on a proposal, which wins |
| `Ballot.ChainOutOfOrderScenario` | contract/src/lib.rs:143-150 | alice delegates to the chairperson first; bob's later delegation to alice aborts with the missing-vote error |
| `Tally.NewConserved` | contract/src/lib.rs:60-89 | a new contract holds exactly one unit of weight, the chairperson's |
| `Tally.GiveRightToVoteConserves` | contract/src/lib.rs:100-113 | granting adds one unit for a new account and none for a known one, so held weight plus tallies stays equal to the number of voters |
| `Tally.VoteConserves` | contract/src/lib.rs:174-181 | a vote moves the caller's weight into a tally: held weight plus tallies is unchanged, and so is the number of voters |
| `Tally.DelegateConserves` | contract/src/lib.rs:143-160 | a delegation moves the caller's weight into a tally or onto an unvoted delegate: held weight plus tallies is unchanged |
| `Tally.VotePreservesConserved` | contract/src/lib.rs:168-181 | voting keeps held weight plus tallies equal to the number of voters |
| `Tally.DelegatePreservesConserved` | contract/src/lib.rs:119-164 | delegating keeps held weight plus tallies equal to the number of voters |
| `Tally.RunKeepsInvariants` | contract/src/lib.rs:94-184 | any sequence of calls, failed ones included, keeps both the validity and the conservation invariant |
| `Tally.ReachableStates` | contract/src/lib.rs:60-184 | every state reached from `new` by any calls is valid and conserves weight, and no proposal has more votes than there are registered accounts |
| `BallotContract.Contract.constructor` | contract/src/lib.rs:60-89 | the loop that pushes one proposal per name builds exactly the state `Ballot.New` describes |
| `BallotContract.Contract.GiveRightToVote` | contract/src/lib.rs:94-115 | the in-place grant has the outcome and new state `Ballot.GiveRightToVote` gives; on failure the fields are unchanged |
| `BallotContract.Contract.Delegate` | contract/src/lib.rs:119-164 | the in-place delegation, with the caller's record written before the proposal lookup and restored on a later panic, has the outcome and new state `Ballot.Delegate` gives |
| `BallotContract.Contract.Vote` | contract/src/lib.rs:168-184 | the in-place vote has the outcome and new state `Ballot.Vote` gives; on failure the fields are unchanged |
| `BallotContract.Contract.WinningProposal` | contract/src/lib.rs:200-210 | the scan returns the lowest index holding the largest tally when that tally is above 0, and None when every tally is 0 or there are no proposals |
| `BallotContract.Contract.WinnerName` | contract/src/lib.rs:189-196 | None exactly when every tally is 0; otherwise the name of the winning proposal |

## Left out

- The initialisation guard (`env::state_exists`, contract/src/lib.rs:61): the constructor always builds a fresh contract, so the "Already initialized" failure is not modelled.
- The host: `log!` messages, `#[payable]` deposits, the `#[init]` and `#[private]` markers, and the `Default` implementation with its fixed `test.near` chairperson.
- Persistence: Borsh serialisation, `StorageKey`, and the storage behind `UnorderedMap` and `Vector`. The model uses a Dafny `map` and `seq`.
- Account ids are plain strings. NEAR's account-id validation is not part of this model.
- Ballot.Delegate: weights and tallies are unbounded naturals, so the u64 overflow of `+=` (a panic or a wrap, depending on the build profile, which is not visible) is not modelled.
- Ballot.Vote: same as above for the tally `+=`; the proposal index is a natural rather than a u64.
- Concurrency: the host runs calls one at a time, which `Ballot.Run` takes as given.

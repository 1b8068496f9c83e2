/** The policy leaves no freedom: a playlist has exactly one sequence. */
module SequencingDeterminism {
  import opened Collections
  import opened PriorityHeap
  import opened PlaylistGroups
  import opened SequencingPolicy
  import opened SequencingTheorems

  lemma SamePlace(list: Playlist, live: set<nat>, previous: Option<nat>, p: Proposal, q: Proposal)
    requires IsProposal(list, live, previous, p) && IsProposal(list, live, previous, q)
    requires p.artist == q.artist && p.album == q.album
    ensures p == q
  {
  }

  /** A proposal of one frontier occurs in every other one. */
  lemma FindProposal(list: Playlist, live: set<nat>, previous: Option<nat>, ps: seq<Proposal>, qs: seq<Proposal>, k: nat) returns (j: nat)
    requires IsFrontier(list, live, previous, ps) && IsFrontier(list, live, previous, qs)
    requires k < |ps|
    ensures j < |qs| && qs[j] == ps[k]
  {
    hide InFrontier, Precedes, IsProposal;
    assert InFrontier(list.rows, live, ps[k].artist, ps[k].album);
    j :| 0 <= j < |qs| && qs[j].artist == ps[k].artist && qs[j].album == ps[k].album;
    SamePlace(list, live, previous, qs[j], ps[k]);
  }

  lemma FrontierDescends(list: Playlist, live: set<nat>, previous: Option<nat>, ps: seq<Proposal>, j: nat, k: nat)
    requires IsFrontier(list, live, previous, ps) && j < k < |ps|
    ensures Precedes(list.rows, live, ps[j], ps[k]) && !Precedes(list.rows, live, ps[k], ps[j]) && ps[j] != ps[k]
  {
    hide InFrontier, IsProposal, GroupRank;
  }

  lemma {:induction false} FrontierPrefix(list: Playlist, live: set<nat>, previous: Option<nat>, ps: seq<Proposal>, qs: seq<Proposal>, k: nat)
    requires IsFrontier(list, live, previous, ps) && IsFrontier(list, live, previous, qs)
    requires k <= |ps|
    ensures k <= |qs| && ps[..k] == qs[..k]
  {
    hide IsFrontier, Precedes;
    if k > 0 {
      FrontierPrefix(list, live, previous, ps, qs, k - 1);
      assert forall i | 0 <= i < k - 1 :: ps[i] == ps[..k - 1][i] == qs[..k - 1][i] == qs[i];
      var j := FindProposal(list, live, previous, ps, qs, k - 1);
      if j < k - 1 {
        FrontierDescends(list, live, previous, ps, j, k - 1);
        assert false;
      }
      if j > k - 1 {
        var i := FindProposal(list, live, previous, qs, ps, k - 1);
        FrontierDescends(list, live, previous, qs, k - 1, j);
        if i < k - 1 {
          FrontierDescends(list, live, previous, qs, i, k - 1);
        } else if i > k - 1 {
          FrontierDescends(list, live, previous, ps, k - 1, i);
        }
        assert false;
      }
    }
  }

  /** The bounded frontier, in order, is determined by the live rows. */
  lemma FrontierUnique(list: Playlist, live: set<nat>, previous: Option<nat>, ps: seq<Proposal>, qs: seq<Proposal>)
    requires IsFrontier(list, live, previous, ps) && IsFrontier(list, live, previous, qs)
    ensures ps == qs
  {
    hide IsFrontier;
    FrontierPrefix(list, live, previous, ps, qs, |ps|);
    FrontierPrefix(list, live, previous, qs, ps, |qs|);
  }

  lemma StepUnique(list: Playlist, live: set<nat>, previous: Option<nat>, row: nat, row': nat)
    requires Step(list, live, previous, row) && Step(list, live, previous, row')
    ensures row == row'
  {
    hide IsFrontier, Decide;
    var ps: seq<Proposal> :| |ps| > 0 && IsFrontier(list, live, previous, ps) && row == Decide(list, live, previous, ps).row;
    var qs: seq<Proposal> :| |qs| > 0 && IsFrontier(list, live, previous, qs) && row' == Decide(list, live, previous, qs).row;
    FrontierUnique(list, live, previous, ps, qs);
  }

  lemma {:induction false} SamePrefix(list: Playlist, order: seq<nat>, order': seq<nat>, k: nat)
    requires FollowsPolicy(list, order) && FollowsPolicy(list, order') && k <= |order| && k <= |order'|
    ensures order[..k] == order'[..k]
  {
    hide FollowsPolicy, Step, Remaining;
    if k > 0 {
      SamePrefix(list, order, order', k - 1);
      StepAt(list, order, k - 1);
      StepAt(list, order', k - 1);
      StepUnique(list, Remaining(list, order[..k - 1]), Last(order[..k - 1]), order[k - 1], order'[k - 1]);
    }
  }

  /** Sequencing is deterministic: whatever follows the policy is the sequence. */
  lemma SequenceUnique(list: Playlist, order: seq<nat>, order': seq<nat>)
    requires IsSequence(list, order) && IsSequence(list, order')
    ensures order == order'
  {
    hide FollowsPolicy, Step;
    SamePrefix(list, order, order', |order|);
    assert order[..|order|] == order && order'[..|order'|] == order';
  }
}

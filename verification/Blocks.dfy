/** Whole blocks of any extrinsics, from any state whose tree is right, lagging or level. */
module Blocks {
  import opened Bytes
  import opened Merkle
  import opened Hosts
  import opened Pallet
  import opened RoundRobin
  import opened TreeInvariant

  /** Storage after the start of the next block and then `xs`. */
  ghost function Executed(host: Host, cfg: Config, s: State, xs: Block): State {
    if xs == [] then Initialize(s) else Dispatch(host, cfg, Executed(host, cfg, s, xs[..|xs| - 1]), xs[|xs| - 1])
  }

  /** `t` is the storage after one more block of some extrinsics. */
  ghost predicate BlockStep(host: Host, cfg: Config, s: State, t: State) {
    exists xs: Block :: t == Finalize(host.blake, cfg, Executed(host, cfg, s, xs))
  }

  lemma FollowsTransitive(a: State, b: State, c: State)
    requires Follows(a, b) && Follows(b, c) && Lag(a) >= 0
    ensures Follows(a, c)
  {
    ExtendsTransitive(a, b, c);
  }

  lemma {:induction false} ExecutedFollows(host: Host, cfg: Config, s: State, xs: Block)
    requires TreeInv(host.blake, cfg, s)
    ensures TreeInv(host.blake, cfg, Executed(host, cfg, s, xs)) && Follows(Initialize(s), Executed(host, cfg, s, xs))
  {
    if xs == [] {
      InitializeKeepsTree(host.blake, cfg, s);
    } else {
      var u := Executed(host, cfg, s, xs[..|xs| - 1]);
      ExecutedFollows(host, cfg, s, xs[..|xs| - 1]);
      DispatchKeepsTree(host, cfg, u, xs[|xs| - 1]);
      FollowsTransitive(Initialize(s), u, Executed(host, cfg, s, xs));
    }
  }

  /** What catch-up leaves alone. */
  lemma {:induction false} CatchupFrame(h: Hash, s: State, budget: nat)
    ensures var t := Catchup(h, s, budget);
            && t.outputs == s.outputs && t.nextOutputIndex == s.nextOutputIndex && t.admitted == s.admitted
            && t.cursor == s.cursor && t.now == s.now && t.treeSlots >= s.treeSlots
    decreases budget
  {
    if budget > 0 && s.treeSlots < s.nextOutputIndex {
      CatchupFrame(h, GrowEmpty(h, s), budget - 1);
    }
  }

  /** What the end of a block leaves alone, and where its cursor and admissions come from. */
  lemma FinalizeFrame(h: Hash, cfg: Config, s: State)
    ensures var a, t := AdmitMature(h, cfg, s), Finalize(h, cfg, s);
            && t.outputs == s.outputs && t.nextOutputIndex == s.nextOutputIndex && t.now == s.now
            && t.admitted == a.admitted && t.cursor == a.cursor && t.treeSlots >= a.treeSlots == s.treeSlots
  {
    var filled := FillIsBudgeted(h, cfg, s);
    CatchupFrame(h, AdmitMature(h, cfg, s), CATCHUP_MAX);
  }

  /** One block: the tree stays right, and a lag of `l` with `n` new outputs becomes max(0, l + n − 64). */
  lemma BlockKeepsTree(host: Host, cfg: Config, s: State, t: State)
    requires TreeInv(host.blake, cfg, s) && BlockStep(host, cfg, s, t)
    ensures TreeInv(host.blake, cfg, t) && s.nextOutputIndex <= t.nextOutputIndex
    ensures Lag(t) == if Lag(s) == 0 then 0 else Max(0, Lag(s) + (t.nextOutputIndex - s.nextOutputIndex) - CATCHUP_MAX)
  {
    var xs: Block :| t == Finalize(host.blake, cfg, Executed(host, cfg, s, xs));
    ExecutedFollows(host, cfg, s, xs);
    EndKeepsTree(host.blake, cfg, s, Executed(host, cfg, s, xs), t);
  }

  lemma EndKeepsTree(h: Hash, cfg: Config, s: State, u: State, t: State)
    requires TreeInv(h, cfg, u) && Follows(Initialize(s), u) && t == Finalize(h, cfg, u) && Lag(s) >= 0
    ensures TreeInv(h, cfg, t) && s.nextOutputIndex <= t.nextOutputIndex
    ensures Lag(t) == if Lag(s) == 0 then 0 else Max(0, Lag(s) + (t.nextOutputIndex - s.nextOutputIndex) - CATCHUP_MAX)
  {
    FinalizeKeepsTree(h, cfg, u);
    FinalizeFrame(h, cfg, u);
  }

  /** Successive blocks, each adding at most `g` outputs. */
  ghost predicate Chain(host: Host, cfg: Config, states: seq<State>, g: nat) {
    forall j :: 0 <= j < |states| - 1 ==>
      BlockStep(host, cfg, states[j], states[j + 1]) && states[j + 1].nextOutputIndex <= states[j].nextOutputIndex + g
  }

  /** `k` blocks after `start` the lag has shrunk by at least 64 − g a block, and by exactly 64 if g is 0. */
  ghost predicate PaidOff(start: State, s: State, g: nat, k: nat) {
    && 0 <= Lag(s) <= Max(0, Lag(start) - (CATCHUP_MAX - g) * k)
    && (g == 0 ==> Lag(s) == Max(0, Lag(start) - CATCHUP_MAX * k))
  }

  lemma PaidOffStep(host: Host, cfg: Config, start: State, s: State, t: State, g: nat, k: nat)
    requires TreeInv(host.blake, cfg, s) && BlockStep(host, cfg, s, t)
    requires t.nextOutputIndex <= s.nextOutputIndex + g && g <= CATCHUP_MAX && PaidOff(start, s, g, k)
    ensures TreeInv(host.blake, cfg, t) && PaidOff(start, t, g, k + 1)
  {
    BlockKeepsTree(host, cfg, s, t);
    LessLag(start, s, t, g, k);
  }

  lemma LessLag(start: State, s: State, t: State, g: nat, k: nat)
    requires s.nextOutputIndex <= t.nextOutputIndex <= s.nextOutputIndex + g && g <= CATCHUP_MAX && PaidOff(start, s, g, k)
    requires Lag(t) == if Lag(s) == 0 then 0 else Max(0, Lag(s) + (t.nextOutputIndex - s.nextOutputIndex) - CATCHUP_MAX)
    ensures PaidOff(start, t, g, k + 1)
  {
    PayOff(Lag(start), Lag(s), Lag(t), t.nextOutputIndex - s.nextOutputIndex, g, k);
  }

  lemma PayOff(start: int, lag: int, next: int, added: nat, g: nat, k: nat)
    requires added <= g <= CATCHUP_MAX && 0 <= lag <= Max(0, start - (CATCHUP_MAX - g) * k)
    requires g == 0 ==> lag == Max(0, start - CATCHUP_MAX * k)
    requires next == if lag == 0 then 0 else Max(0, lag + added - CATCHUP_MAX)
    ensures 0 <= next <= Max(0, start - (CATCHUP_MAX - g) * (k + 1))
    ensures g == 0 ==> next == Max(0, start - CATCHUP_MAX * (k + 1))
  {
    assert (CATCHUP_MAX - g) * (k + 1) == (CATCHUP_MAX - g) * k + (CATCHUP_MAX - g);
  }

  /** From any lagging state, blocks of any extrinsics adding at most g outputs each pay the lag off by
    * at least 64 − g slots a block; blocks adding none pay off exactly 64.
    */
  lemma {:induction false} LagIsPaidOff(host: Host, cfg: Config, states: seq<State>, g: nat, k: nat)
    requires k < |states| && TreeInv(host.blake, cfg, states[0]) && g <= CATCHUP_MAX && Chain(host, cfg, states, g)
    ensures TreeInv(host.blake, cfg, states[k]) && PaidOff(states[0], states[k], g, k)
  {
    if k > 0 {
      LagIsPaidOff(host, cfg, states, g, k - 1);
      var s, t := states[k - 1], states[k - 1 + 1];
      assert BlockStep(host, cfg, s, t) && t.nextOutputIndex <= s.nextOutputIndex + g;
      PaidOffStep(host, cfg, states[0], s, t, g, k - 1);
    }
  }
}

/** The round-robin cursor starves nobody: every mature slot's turn comes. */
module Fairness {
  import opened Merkle
  import opened Hosts
  import opened Pallet
  import opened RoundRobin
  import opened TreeInvariant
  import opened Blocks

  /** How many slots the cursor is before slot `i`, going round. */
  function Distance(cursor: nat, i: nat, slots: nat): nat
    requires cursor < slots && i < slots
  {
    if i >= cursor then i - cursor else i + slots - cursor
  }

  /** Slot `i` was admitted, or the scan used its whole budget and came that much closer to it. */
  ghost predicate Closer(before: Fill, after: Fill, i: nat, slots: nat, budget: nat)
    requires before.cursor < slots && i < slots
  {
    i in after.admitted ||
    (after.cursor < slots && Distance(after.cursor, i, slots) + budget <= Distance(before.cursor, i, slots))
  }

  lemma OneStepCloser(cursor: nat, i: nat, slots: nat)
    requires cursor < slots && i < slots && cursor != i
    ensures NextSlot(cursor, slots) < slots
    ensures Distance(NextSlot(cursor, slots), i, slots) == Distance(cursor, i, slots) - 1
  {
  }

  /** A scan that could reach `i` within its lap admits it or gets closer by its budget. */
  lemma {:induction false} ScanGetsCloser(h: Hash, cfg: Config, s: State, f: Fill, lap: nat, budget: nat, i: nat)
    requires f.cursor < s.treeSlots && i < s.treeSlots && Distance(f.cursor, i, s.treeSlots) < lap
    requires Admissible(cfg, s, f.admitted, i)
    ensures Closer(f, Scan(h, cfg, s, f, lap, budget), i, s.treeSlots, budget)
    decreases lap
  {
    if budget > 0 {
      if f.cursor == i {
        ScanWritesLeaves(h, cfg, s, Advance(s, Admit(h, s, f)), lap - 1, budget - 1, i);
      } else {
        OneStepCloser(f.cursor, i, s.treeSlots);
        if Admissible(cfg, s, f.admitted, f.cursor) {
          ScanGetsCloser(h, cfg, s, Advance(s, Admit(h, s, f)), lap - 1, budget - 1, i);
        } else {
          ScanGetsCloser(h, cfg, s, Advance(s, f), lap - 1, budget, i);
        }
      }
    }
  }

  /** What is left before slot `i` is reached in state `s`. */
  function Waiting(s: State, i: nat): nat
    requires i < s.treeSlots
  {
    Distance(s.cursor % s.treeSlots, i, s.treeSlots)
  }

  /** Slot `i` is admitted, or waits at most `limit`. */
  ghost predicate Served(s: State, i: nat, limit: int) {
    i in s.admitted || (i < s.treeSlots && Waiting(s, i) <= limit)
  }

  lemma SmallRemainder(cursor: nat, slots: nat)
    requires cursor < slots
    ensures cursor % slots == cursor
  {
  }

  lemma FillGetsCloser(h: Hash, cfg: Config, s: State, i: nat)
    requires i < s.treeSlots && Admissible(cfg, s, s.admitted, i)
    ensures Served(AdmitMature(h, cfg, s), i, Waiting(s, i) - ADMIT_MAX)
  {
    var f := Fill(s.digests, s.admitted, s.cursor % s.treeSlots);
    ScanGetsCloser(h, cfg, s, f, s.treeSlots, ADMIT_MAX, i);
    var after := Scan(h, cfg, s, f, s.treeSlots, ADMIT_MAX);
    if i !in after.admitted {
      SmallRemainder(after.cursor, s.treeSlots);
    }
  }

  /** The cursor points into the tree; of an empty tree it is 0. */
  ghost predicate CursorInTree(s: State) {
    s.cursor < s.treeSlots || s.cursor == 0
  }

  lemma {:induction false} ScanKeepsCursor(h: Hash, cfg: Config, s: State, f: Fill, lap: nat, budget: nat)
    requires f.cursor < s.treeSlots
    ensures Scan(h, cfg, s, f, lap, budget).cursor < s.treeSlots
    decreases lap
  {
    if lap != 0 && budget != 0 {
      if Admissible(cfg, s, f.admitted, f.cursor) {
        ScanKeepsCursor(h, cfg, s, Advance(s, Admit(h, s, f)), lap - 1, budget - 1);
      } else {
        ScanKeepsCursor(h, cfg, s, Advance(s, f), lap - 1, budget);
      }
    }
  }

  /** Every end of block leaves the cursor in the tree. */
  lemma FinalizeKeepsCursor(h: Hash, cfg: Config, s: State)
    ensures CursorInTree(Finalize(h, cfg, s))
  {
    FinalizeFrame(h, cfg, s);
    if s.treeSlots > 0 {
      ScanKeepsCursor(h, cfg, s, Fill(s.digests, s.admitted, s.cursor % s.treeSlots), s.treeSlots, ADMIT_MAX);
    }
  }

  /** New slots are added behind the last one: they delay a slot by at most their number. */
  lemma GrowthDelays(cursor: nat, i: nat, slots: nat, more: nat)
    requires cursor < slots && i < slots && slots <= more
    ensures Distance(cursor, i, more) <= Distance(cursor, i, slots) + (more - slots)
  {
  }

  lemma WaitingGrows(s: State, t: State, i: nat)
    requires i < s.treeSlots <= t.treeSlots && t.cursor == s.cursor < s.treeSlots
    ensures Waiting(t, i) <= Waiting(s, i) + (t.treeSlots - s.treeSlots)
  {
    SmallRemainder(s.cursor, s.treeSlots);
    SmallRemainder(s.cursor, t.treeSlots);
    GrowthDelays(s.cursor, i, s.treeSlots, t.treeSlots);
  }

  /** The end of a block serves slot `i`, less what the tree grew by. */
  lemma FinalizeServes(h: Hash, cfg: Config, s: State, i: nat)
    requires i < s.treeSlots && s.cursor < s.treeSlots && Admissible(cfg, s, s.admitted, i)
    ensures var t := Finalize(h, cfg, s); Served(t, i, Waiting(s, i) + (t.treeSlots - s.treeSlots) - ADMIT_MAX)
  {
    var a, t := AdmitMature(h, cfg, s), Finalize(h, cfg, s);
    FillGetsCloser(h, cfg, s, i);
    FinalizeFrame(h, cfg, s);
    ScanKeepsCursor(h, cfg, s, Fill(s.digests, s.admitted, s.cursor % s.treeSlots), s.treeSlots, ADMIT_MAX);
    if i !in a.admitted {
      WaitingGrows(a, t, i);
    }
  }

  /** One block of any extrinsics brings a mature slot 64 places closer, less what the tree grew by. */
  lemma BlockServes(host: Host, cfg: Config, s: State, t: State, i: nat)
    requires TreeInv(host.blake, cfg, s) && BlockStep(host, cfg, s, t) && CursorInTree(s)
    requires i < s.treeSlots && i in s.outputs && Mature(cfg, s.outputs[i], s.now)
    ensures CursorInTree(t) && s.treeSlots <= t.treeSlots
    ensures i in t.outputs && Mature(cfg, t.outputs[i], t.now)
    ensures i in s.admitted ==> i in t.admitted
    ensures i !in s.admitted ==> Served(t, i, Waiting(s, i) + (t.treeSlots - s.treeSlots) - ADMIT_MAX)
  {
    var xs: Block :| t == Finalize(host.blake, cfg, Executed(host, cfg, s, xs));
    var u := Executed(host, cfg, s, xs);
    ExecutedFollows(host, cfg, s, xs);
    var filled := FillIsBudgeted(host.blake, cfg, u);
    FinalizeFrame(host.blake, cfg, u);
    FinalizeKeepsCursor(host.blake, cfg, u);
    if i !in s.admitted {
      WaitingGrows(s, u, i);
      FinalizeServes(host.blake, cfg, u, i);
    }
  }

  /** Successive blocks in which the tree grows by at most `g` slots each. */
  ghost predicate Growing(host: Host, cfg: Config, states: seq<State>, g: nat) {
    forall j :: 0 <= j < |states| - 1 ==>
      BlockStep(host, cfg, states[j], states[j + 1]) && states[j + 1].treeSlots <= states[j].treeSlots + g
  }

  /** After `k` blocks slot `i` has been served 64 − g slots a block. */
  ghost predicate Progress(h: Hash, cfg: Config, start: State, s: State, i: nat, g: nat, k: nat)
    requires i < start.treeSlots
  {
    && TreeInv(h, cfg, s) && CursorInTree(s) && i < s.treeSlots && i in s.outputs && Mature(cfg, s.outputs[i], s.now)
    && Served(s, i, Waiting(start, i) - (ADMIT_MAX - g) * k)
  }

  lemma ProgressStep(host: Host, cfg: Config, start: State, s: State, t: State, i: nat, g: nat, k: nat)
    requires i < start.treeSlots && Progress(host.blake, cfg, start, s, i, g, k)
    requires BlockStep(host, cfg, s, t) && t.treeSlots <= s.treeSlots + g
    ensures Progress(host.blake, cfg, start, t, i, g, k + 1)
  {
    BlockKeepsTree(host, cfg, s, t);
    BlockServes(host, cfg, s, t, i);
    assert (ADMIT_MAX - g) * (k + 1) == (ADMIT_MAX - g) * k + (ADMIT_MAX - g);
  }

  lemma {:induction false} BlocksProgress(host: Host, cfg: Config, states: seq<State>, i: nat, g: nat, k: nat)
    requires k < |states| && TreeInv(host.blake, cfg, states[0]) && CursorInTree(states[0]) && Growing(host, cfg, states, g)
    requires i < states[0].treeSlots && i in states[0].outputs && Mature(cfg, states[0].outputs[i], states[0].now)
    ensures Progress(host.blake, cfg, states[0], states[k], i, g, k)
  {
    if k > 0 {
      BlocksProgress(host, cfg, states, i, g, k - 1);
      assert BlockStep(host, cfg, states[k - 1], states[k - 1 + 1]) && states[k - 1 + 1].treeSlots <= states[k - 1].treeSlots + g;
      ProgressStep(host, cfg, states[0], states[k - 1], states[k], i, g, k - 1);
    }
  }

  /** No starvation: over blocks of any extrinsics in which the tree grows by at most g < 64 slots, a
    * mature slot is admitted after k blocks as soon as (64 − g)·k exceeds the slots the cursor still
    * has to visit before it, however many other slots mature meanwhile; (64 − g)·k at least the tree's
    * size always suffices.
    */
  lemma MatureSlotIsAdmitted(host: Host, cfg: Config, states: seq<State>, i: nat, g: nat, k: nat)
    requires k < |states| && TreeInv(host.blake, cfg, states[0]) && CursorInTree(states[0]) && Growing(host, cfg, states, g)
    requires i < states[0].treeSlots && i in states[0].outputs && Mature(cfg, states[0].outputs[i], states[0].now)
    ensures (ADMIT_MAX - g) * k > Waiting(states[0], i) ==> i in states[k].admitted
    ensures (ADMIT_MAX - g) * k >= states[0].treeSlots ==> i in states[k].admitted
  {
    BlocksProgress(host, cfg, states, i, g, k);
  }

  // ---- in every run -------------------------------------------------------

  lemma {:induction false} DuringIsExecuted(host: Host, cfg: Config, past: seq<Block>, xs: Block)
    ensures During(host, cfg, past, xs) == Executed(host, cfg, EndOf(host, cfg, past), xs)
  {
    if xs != [] {
      DuringIsExecuted(host, cfg, past, xs[..|xs| - 1]);
    }
  }

  lemma EndKeepsCursor(host: Host, cfg: Config, past: seq<Block>)
    ensures CursorInTree(EndOf(host, cfg, past))
  {
    if past != [] {
      FinalizeKeepsCursor(host.blake, cfg, During(host, cfg, past[..|past| - 1], past[|past| - 1]));
    }
  }

  /** In every reachable state the cursor points into the tree. */
  lemma RunKeepsCursor(host: Host, cfg: Config, past: seq<Block>, xs: Block)
    ensures CursorInTree(During(host, cfg, past, xs))
  {
    var end := EndOf(host, cfg, past);
    EndKeepsCursor(host, cfg, past);
    RunKeepsTree(host, cfg, past, []);
    DuringIsExecuted(host, cfg, past, xs);
    ExecutedFollows(host, cfg, end, xs);
  }

  /** The ends of the blocks of a run, from block `n` to block `n + k`. */
  ghost function EndsFrom(host: Host, cfg: Config, past: seq<Block>, n: nat, k: nat): (states: seq<State>)
    requires |past| == n + k
    ensures |states| == k + 1
  {
    seq(k + 1, j requires 0 <= j <= k => EndOf(host, cfg, past[..n + j]))
  }

  lemma NextEnd(host: Host, cfg: Config, past: seq<Block>, n: nat)
    requires n < |past|
    ensures BlockStep(host, cfg, EndOf(host, cfg, past[..n]), EndOf(host, cfg, past[..n + 1]))
  {
    var before := past[..n];
    assert past[..n + 1][..n] == before && past[..n + 1][n] == past[n];
    DuringIsExecuted(host, cfg, before, past[n]);
  }

  /** No block of the run after block `n` adds more than `g` slots. */
  ghost predicate GrowsSlowly(host: Host, cfg: Config, past: seq<Block>, n: nat, g: nat) {
    forall m: nat :: n <= m < |past| ==> EndOf(host, cfg, past[..m + 1]).treeSlots <= EndOf(host, cfg, past[..m]).treeSlots + g
  }

  lemma EndsStep(host: Host, cfg: Config, past: seq<Block>, n: nat, k: nat, g: nat, j: nat, m: nat)
    requires |past| == n + k && GrowsSlowly(host, cfg, past, n, g) && j < k && m == n + j
    ensures var states := EndsFrom(host, cfg, past, n, k);
            BlockStep(host, cfg, states[j], states[j + 1]) && states[j + 1].treeSlots <= states[j].treeSlots + g
  {
    NextEnd(host, cfg, past, m);
    assert n + (j + 1) == m + 1;
  }

  lemma EndsGrow(host: Host, cfg: Config, past: seq<Block>, n: nat, k: nat, g: nat)
    requires |past| == n + k && GrowsSlowly(host, cfg, past, n, g)
    ensures Growing(host, cfg, EndsFrom(host, cfg, past, n, k), g)
  {
    var states := EndsFrom(host, cfg, past, n, k);
    forall j | 0 <= j < |states| - 1
      ensures BlockStep(host, cfg, states[j], states[j + 1]) && states[j + 1].treeSlots <= states[j].treeSlots + g
    {
      EndsStep(host, cfg, past, n, k, g, j, n + j);
    }
  }

  lemma EndAt(host: Host, cfg: Config, past: seq<Block>, n: nat, k: nat, j: nat, m: nat)
    requires |past| == n + k && j <= k && m == n + j
    ensures EndsFrom(host, cfg, past, n, k)[j] == EndOf(host, cfg, past[..m])
  {
  }

  lemma WholeRun(past: seq<Block>)
    ensures past[..|past|] == past
  {
  }

  /** In every run: a slot of `s`, the end of block `n`, that is mature there is admitted `k` blocks
    * later if (64 − g)·k is at least the tree's size and no block in between adds more than g slots.
    */
  lemma RunAdmitsMature(host: Host, cfg: Config, past: seq<Block>, n: nat, k: nat, s: State, i: nat, g: nat)
    requires |past| == n + k && GrowsSlowly(host, cfg, past, n, g) && s == EndOf(host, cfg, past[..n])
    requires i < s.treeSlots && i in s.outputs && Mature(cfg, s.outputs[i], s.now)
    ensures (ADMIT_MAX - g) * k >= s.treeSlots ==> i in EndOf(host, cfg, past).admitted
  {
    EndAt(host, cfg, past, n, k, 0, n);
    EndAt(host, cfg, past, n, k, k, |past|);
    WholeRun(past);
    RunKeepsTree(host, cfg, past[..n], []);
    EndKeepsCursor(host, cfg, past[..n]);
    EndsGrow(host, cfg, past, n, k, g);
    MatureSlotIsAdmitted(host, cfg, EndsFrom(host, cfg, past, n, k), i, g, k);
  }
}

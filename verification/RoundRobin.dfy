/** The budgeted round-robin fill refines the simple one: admit every mature slot. */
module RoundRobin {
  import opened Bytes
  import opened Merkle
  import opened Pallet
  import Fcmp

  /** The slots visited in `lap` steps from `i`. */
  ghost function Window(i: nat, lap: nat, slots: nat): set<nat>
    decreases lap
  {
    if lap == 0 then {} else {i} + Window(NextSlot(i, slots), lap - 1, slots)
  }

  /** Within one lap the window is a cyclic interval: no slot is visited twice. */
  lemma {:induction false} WindowIsCyclicInterval(i: nat, lap: nat, slots: nat)
    requires i < slots && lap <= slots
    ensures forall j :: j in Window(i, lap, slots) <==> (i <= j < i + lap && j < slots) || 0 <= j < i + lap - slots
    ensures |Window(i, lap, slots)| == lap
    decreases lap
  {
    if lap > 0 {
      WindowIsCyclicInterval(NextSlot(i, slots), lap - 1, slots);
      assert i !in Window(NextSlot(i, slots), lap - 1, slots);
    }
  }

  lemma NotRevisited(i: nat, lap: nat, slots: nat)
    requires i < slots && 0 < lap <= slots
    ensures i !in Window(NextSlot(i, slots), lap - 1, slots)
  {
    WindowIsCyclicInterval(NextSlot(i, slots), lap - 1, slots);
  }

  predicate InTree(s: State, i: nat) {
    i < s.treeSlots
  }

  ghost function AllSlots(s: State): set<nat> {
    set i: nat | 0 <= i < s.treeSlots && InTree(s, i)
  }

  /** The slots a simple scan would admit. */
  ghost function Backlog(cfg: Config, s: State): set<nat> {
    Due(cfg, s, s.admitted, AllSlots(s))
  }

  /** Among `slots`, those the scan may admit. */
  ghost function Due(cfg: Config, s: State, admitted: set<nat>, slots: set<nat>): set<nat> {
    set i | i in slots && Admissible(cfg, s, admitted, i)
  }

  /** Distinct due slots were filled, as many as the budget allows. */
  ghost predicate Fills(cfg: Config, s: State, before: set<nat>, after: set<nat>, window: set<nat>, budget: nat, filled: set<nat>) {
    && after == before + filled
    && filled <= Due(cfg, s, before, window)
    && |filled| == Min(budget, |Due(cfg, s, before, window)|)
  }

  lemma SkipSlot(cfg: Config, s: State, before: set<nat>, i: nat, after: set<nat>, rest: set<nat>, budget: nat)
    requires !Admissible(cfg, s, before, i) && FillsSome(cfg, s, before, after, rest, budget)
    ensures FillsSome(cfg, s, before, after, {i} + rest, budget)
  {
    var filled :| Fills(cfg, s, before, after, rest, budget, filled);
    assert Due(cfg, s, before, {i} + rest) == Due(cfg, s, before, rest);
    assert Fills(cfg, s, before, after, {i} + rest, budget, filled);
  }

  /** An admissible slot is one more due slot. */
  lemma DueGrows(cfg: Config, s: State, before: set<nat>, i: nat, rest: set<nat>)
    requires Admissible(cfg, s, before, i) && i !in rest
    ensures i !in Due(cfg, s, before + {i}, rest)
    ensures Due(cfg, s, before, {i} + rest) == Due(cfg, s, before + {i}, rest) + {i}
    ensures |Due(cfg, s, before, {i} + rest)| == |Due(cfg, s, before + {i}, rest)| + 1
  {
    assert Due(cfg, s, before, {i} + rest) == Due(cfg, s, before + {i}, rest) + {i};
  }

  lemma FillSlot(cfg: Config, s: State, before: set<nat>, i: nat, after: set<nat>, rest: set<nat>, budget: nat)
    requires Admissible(cfg, s, before, i) && i !in rest && budget > 0
    requires FillsSome(cfg, s, before + {i}, after, rest, budget - 1)
    ensures FillsSome(cfg, s, before, after, {i} + rest, budget)
  {
    var filled :| Fills(cfg, s, before + {i}, after, rest, budget - 1, filled);
    DueGrows(cfg, s, before, i, rest);
    assert i !in filled && |filled + {i}| == |filled| + 1;
    assert after == before + (filled + {i});
    assert Fills(cfg, s, before, after, {i} + rest, budget, filled + {i});
  }

  lemma NothingFilled(cfg: Config, s: State, before: set<nat>, window: set<nat>, budget: nat)
    requires budget == 0 || window == {}
    ensures FillsSome(cfg, s, before, before, window, budget)
  {
    assert window == {} ==> Due(cfg, s, before, window) == {};
    assert Fills(cfg, s, before, before, window, budget, {});
  }

  /** The scan from `f` fills distinct due slots of its window, as many as the budget allows. */
  ghost predicate ScanFilled(h: Hash, cfg: Config, s: State, f: Fill, lap: nat, budget: nat) {
    FillsSome(cfg, s, f.admitted, Scan(h, cfg, s, f, lap, budget).admitted, Window(f.cursor, lap, s.treeSlots), budget)
  }

  ghost predicate FillsSome(cfg: Config, s: State, before: set<nat>, after: set<nat>, window: set<nat>, budget: nat) {
    exists filled :: Fills(cfg, s, before, after, window, budget, filled)
  }

  lemma ScanStops(h: Hash, cfg: Config, s: State, f: Fill, lap: nat, budget: nat)
    requires lap == 0 || budget == 0
    ensures ScanFilled(h, cfg, s, f, lap, budget)
  {
    NothingFilled(cfg, s, f.admitted, Window(f.cursor, lap, s.treeSlots), budget);
  }

  lemma ScanStepFill(h: Hash, cfg: Config, s: State, f: Fill, lap: nat, budget: nat)
    requires 0 < lap <= s.treeSlots && budget > 0 && f.cursor < s.treeSlots
    requires Admissible(cfg, s, f.admitted, f.cursor)
    requires ScanFilled(h, cfg, s, Advance(s, Admit(h, s, f)), lap - 1, budget - 1)
    ensures ScanFilled(h, cfg, s, f, lap, budget)
  {
    var rest := Window(NextSlot(f.cursor, s.treeSlots), lap - 1, s.treeSlots);
    var after := Scan(h, cfg, s, f, lap, budget).admitted;
    NotRevisited(f.cursor, lap, s.treeSlots);
    FillSlot(cfg, s, f.admitted, f.cursor, after, rest, budget);
  }

  lemma ScanStepSkip(h: Hash, cfg: Config, s: State, f: Fill, lap: nat, budget: nat)
    requires lap > 0 && budget > 0 && !Admissible(cfg, s, f.admitted, f.cursor)
    requires ScanFilled(h, cfg, s, Advance(s, f), lap - 1, budget)
    ensures ScanFilled(h, cfg, s, f, lap, budget)
  {
    var rest := Window(NextSlot(f.cursor, s.treeSlots), lap - 1, s.treeSlots);
    var after := Scan(h, cfg, s, f, lap, budget).admitted;
    SkipSlot(cfg, s, f.admitted, f.cursor, after, rest, budget);
  }

  lemma {:induction false} ScanFills(h: Hash, cfg: Config, s: State, f: Fill, lap: nat, budget: nat)
    requires f.cursor < s.treeSlots && lap <= s.treeSlots
    ensures ScanFilled(h, cfg, s, f, lap, budget)
    decreases lap
  {
    if lap == 0 || budget == 0 {
      ScanStops(h, cfg, s, f, lap, budget);
    } else if Admissible(cfg, s, f.admitted, f.cursor) {
      ScanFills(h, cfg, s, Advance(s, Admit(h, s, f)), lap - 1, budget - 1);
      ScanStepFill(h, cfg, s, f, lap, budget);
    } else {
      ScanFills(h, cfg, s, Advance(s, f), lap - 1, budget);
      ScanStepSkip(h, cfg, s, f, lap, budget);
    }
  }

  /** The digest of slot `j` in `after`: its leaf if it was filled meanwhile, else as `before`. */
  ghost predicate DigestFollows(h: Hash, s: State, before: Fill, after: Fill, j: nat) {
    if j in after.admitted && j !in before.admitted then
      j in s.outputs && j in after.digests && after.digests[j] == SlotLeafHash(h, s, j)
    else
      (j in after.digests <==> j in before.digests) && (j in before.digests ==> after.digests[j] == before.digests[j])
  }

  /** A scan writes the leaf of every slot it admits, and no other digest. */
  lemma {:induction false} ScanWritesLeaves(h: Hash, cfg: Config, s: State, f: Fill, lap: nat, budget: nat, j: nat)
    ensures f.admitted <= Scan(h, cfg, s, f, lap, budget).admitted
    ensures DigestFollows(h, s, f, Scan(h, cfg, s, f, lap, budget), j)
    decreases lap
  {
    if lap != 0 && budget != 0 {
      if Admissible(cfg, s, f.admitted, f.cursor) {
        ScanWritesLeaves(h, cfg, s, Advance(s, Admit(h, s, f)), lap - 1, budget - 1, j);
      } else {
        ScanWritesLeaves(h, cfg, s, Advance(s, f), lap - 1, budget, j);
      }
    }
  }

  ghost function FillOf(s: State): Fill {
    Fill(s.digests, s.admitted, s.cursor)
  }

  /** Only the leaf digests, the admitted set and the cursor may differ. */
  ghost predicate SameButFill(s: State, t: State) {
    t == s.(digests := t.digests, admitted := t.admitted, cursor := t.cursor)
  }

  /** One block's fill admits exactly min(64, backlog) slots, each mature and not yet admitted. */
  lemma FillIsBudgeted(h: Hash, cfg: Config, s: State) returns (filled: set<nat>)
    ensures SameButFill(s, AdmitMature(h, cfg, s))
    ensures AdmitMature(h, cfg, s).admitted == s.admitted + filled
    ensures filled <= Backlog(cfg, s) && |filled| == Min(64, |Backlog(cfg, s)|)
  {
    var n := s.treeSlots;
    if n == 0 {
      filled := {};
      assert Backlog(cfg, s) == {};
    } else {
      var i := s.cursor % n;
      WindowIsCyclicInterval(i, n, n);
      assert Window(i, n, n) == AllSlots(s);
      var f := Fill(s.digests, s.admitted, i);
      ScanFills(h, cfg, s, f, n, ADMIT_MAX);
      filled :| Fills(cfg, s, s.admitted, Scan(h, cfg, s, f, n, ADMIT_MAX).admitted, AllSlots(s), ADMIT_MAX, filled);
    }
  }

  /** It writes the leaf digest of each slot it admits, and touches no other digest. */
  lemma FillWritesLeaves(h: Hash, cfg: Config, s: State, j: nat)
    ensures DigestFollows(h, s, FillOf(s), FillOf(AdmitMature(h, cfg, s)), j)
  {
    if s.treeSlots > 0 {
      ScanWritesLeaves(h, cfg, s, Fill(s.digests, s.admitted, s.cursor % s.treeSlots), s.treeSlots, ADMIT_MAX, j);
    }
  }

  /** The simple scan: admit every mature slot and write its leaf. */
  ghost function SimpleFill(h: Hash, cfg: Config, s: State): State {
    s.(digests := map i | i in s.digests.Keys + Backlog(cfg, s) ::
                    if i in Backlog(cfg, s) then SlotLeafHash(h, s, i) else s.digests[i],
       admitted := s.admitted + Backlog(cfg, s))
  }

  lemma FillAdmitsBacklog(h: Hash, cfg: Config, s: State)
    requires |Backlog(cfg, s)| <= ADMIT_MAX
    ensures SameButFill(s, AdmitMature(h, cfg, s)) && AdmitMature(h, cfg, s).admitted == s.admitted + Backlog(cfg, s)
  {
    var filled := FillIsBudgeted(h, cfg, s);
    Fcmp.SubsetOfSameSize(filled, Backlog(cfg, s));
  }

  predicate SameEntry(a: map<nat, Bytes32>, b: map<nat, Bytes32>, j: nat) {
    (j in a <==> j in b) && (j in a && j in b ==> a[j] == b[j])
  }

  lemma SameEntries(a: map<nat, Bytes32>, b: map<nat, Bytes32>)
    requires forall j: nat :: SameEntry(a, b, j)
    ensures a == b
  {
    assert forall j :: j in a <==> j in b by {
      forall j: nat ensures j in a <==> j in b {
        assert SameEntry(a, b, j);
      }
    }
    forall j | j in a ensures a[j] == b[j] {
      assert SameEntry(a, b, j);
    }
  }

  /** While the backlog fits the budget, the fill is the simple scan; only the cursor may differ. */
  lemma FillRefinesSimpleScan(h: Hash, cfg: Config, s: State)
    requires |Backlog(cfg, s)| <= ADMIT_MAX
    ensures AdmitMature(h, cfg, s) == SimpleFill(h, cfg, s).(cursor := AdmitMature(h, cfg, s).cursor)
  {
    FillAdmitsBacklog(h, cfg, s);
    forall j: nat
      ensures SameEntry(AdmitMature(h, cfg, s).digests, SimpleFill(h, cfg, s).digests, j)
    {
      FillWritesLeaves(h, cfg, s, j);
    }
    SameEntries(AdmitMature(h, cfg, s).digests, SimpleFill(h, cfg, s).digests);
  }

  lemma SimpleIgnoresCursor(h: Hash, cfg: Config, s: State, t: State)
    requires t == s.(cursor := t.cursor)
    ensures Backlog(cfg, t) == Backlog(cfg, s)
    ensures SimpleFill(h, cfg, t) == SimpleFill(h, cfg, s).(cursor := t.cursor)
  {
    assert Backlog(cfg, t) == Backlog(cfg, s);
    forall i | i in Backlog(cfg, s)
      ensures SlotLeafHash(h, t, i) == SlotLeafHash(h, s, i)
    {
    }
    assert SimpleFill(h, cfg, t).digests == SimpleFill(h, cfg, s).digests;
  }

  /** So two states that differ only in their cursor are filled alike. */
  lemma FillIgnoresCursor(h: Hash, cfg: Config, s: State, t: State)
    requires t == s.(cursor := t.cursor) && |Backlog(cfg, s)| <= ADMIT_MAX
    ensures AdmitMature(h, cfg, t) == AdmitMature(h, cfg, s).(cursor := AdmitMature(h, cfg, t).cursor)
  {
    SimpleIgnoresCursor(h, cfg, s, t);
    FillRefinesSimpleScan(h, cfg, s);
    FillRefinesSimpleScan(h, cfg, t);
  }
}

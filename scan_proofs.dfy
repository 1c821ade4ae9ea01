/**
 * The proofs that the scan of `describe_local_pattern` (module
 * LocalSlots) keeps its invariant from step to step and ends with every
 * window atom labelled.
 */
module LocalScanProofs {
  import opened Wrappers
  import opened Bonds
  import opened LocalConfig
  import opened LocalSlots

  /** Once every window atom is scanned, filling the empty slots gives the final labelling. */
  lemma ScanEnd(vs: map<int, BondRef>, b: BondRef, lay: Layout, s: Result<ScanState>, p: int)
    requires ScanOk(vs, b, lay, s, p) && lay.hi1 < p && lay.hi0 < p
    ensures LabelledOutcome(vs, b, lay, s)
  {
    if s.Success? {
      var st := s.value;
      forall x | InWin(lay, x)
        ensures Fits(lay, Filled(st.A, lay.lo0), Filled(st.B, lay.lo1))
        ensures Slot(lay, Filled(st.A, lay.lo0), Filled(st.B, lay.lo1), x) == Final(vs, b, lay, st.lab, x)
        ensures x in vs ==> Expected(vs, b, lay, st.lab, x) != ""
      {
        EndSlot(vs, b, lay, st, p, x);
      }
      EndLabels(vs, b, lay, st, p);
    }
  }

  /** A decided slot or an atom without a bond: the step changes nothing. */
  lemma StepSkipKeeps(vs: map<int, BondRef>, b: BondRef, lay: Layout, st: ScanState, i: int, second: bool)
    requires ScanInv(vs, b, lay, st, i) && InWin(lay, i)
    requires Slot(lay, st.A, st.B, i) != "" || i !in vs
    ensures ScanOk(vs, b, lay, Step(vs, lay, st, i, second), i + 1)
  {
    assert Step(vs, lay, st, i, second) == Success(st);
    ScanSkip(vs, b, lay, st, i);
  }

  /** A bond leaving the windows. */
  lemma StepRemoteKeeps(vs: map<int, BondRef>, b: BondRef, lay: Layout, st: ScanState, i: int, second: bool)
    requires Attached(vs, b) && ScanInv(vs, b, lay, st, i) && InWin(lay, i)
    requires Slot(lay, st.A, st.B, i) == "" && i in vs && !InWin(lay, vs[i].Other(i))
    ensures ScanOk(vs, b, lay, Step(vs, lay, st, i, second), i + 1)
  {
    assert Step(vs, lay, st, i, second) == Success(RemoteNext(vs, lay, st, i));
    ScanRemote(vs, b, lay, st, i);
  }

  /** The step at a bond inside the windows whose far end is still free and a letter is left. */
  lemma StepLocalValue(vs: map<int, BondRef>, lay: Layout, st: ScanState, i: int, second: bool)
    requires Fits(lay, st.A, st.B) && InWin(lay, i) && Slot(lay, st.A, st.B, i) == "" && i in vs
    requires InWin(lay, vs[i].Other(i)) && i != vs[i].Other(i) && Slot(lay, st.A, st.B, vs[i].Other(i)) == ""
    requires !(second && InL(lay, vs[i].Other(i))) && Counter(st, i % 3 == 1) < 26
    ensures Step(vs, lay, st, i, second)
         == Success(LocalNext(vs, lay, st, i, LabelText(vs[i], (i % 3 == 1, Counter(st, i % 3 == 1)))))
  {
    var upper := i % 3 == 1;
    var text := LabelText(vs[i], (upper, Counter(st, upper)));
    assert Draw(upper, Counter(st, upper)) == Success(Letter(upper, Counter(st, upper)));
    var r1 := SetSlot(lay, st.A, st.B, i, text);
    assert Slot(lay, r1.0, r1.1, vs[i].Other(i)) == "";
  }

  /** A bond inside the windows: a fresh letter at both ends, or StopIteration. */
  lemma StepLocalKeeps(vs: map<int, BondRef>, b: BondRef, lay: Layout, st: ScanState, i: int, second: bool)
    requires Attached(vs, b) && ScanInv(vs, b, lay, st, i) && InWin(lay, i) && (second ==> InR(lay, i))
    requires Slot(lay, st.A, st.B, i) == "" && i in vs && InWin(lay, vs[i].Other(i))
    ensures ScanOk(vs, b, lay, Step(vs, lay, st, i, second), i + 1)
  {
    ScanFresh(vs, b, lay, st, i);
    assert !(second && InL(lay, vs[i].Other(i)));
    if Counter(st, i % 3 == 1) < 26 {
      ScanLocal(vs, b, lay, st, i);
      StepLocalValue(vs, lay, st, i, second);
    } else {
      assert Step(vs, lay, st, i, second) == Failure(StopIteration);
    }
  }

  /** For one of the protein's own bonds a step keeps the scan invariant, or runs out of letters. */
  lemma StepKeeps(vs: map<int, BondRef>, b: BondRef, lay: Layout, st: ScanState, i: int, second: bool)
    requires Attached(vs, b) && ScanInv(vs, b, lay, st, i)
    requires InWin(lay, i) && (second ==> InR(lay, i))
    ensures ScanOk(vs, b, lay, Step(vs, lay, st, i, second), i + 1)
  {
    if Slot(lay, st.A, st.B, i) != "" || i !in vs {
      StepSkipKeeps(vs, b, lay, st, i, second);
    } else if InWin(lay, vs[i].Other(i)) {
      StepLocalKeeps(vs, b, lay, st, i, second);
    } else {
      StepRemoteKeeps(vs, b, lay, st, i, second);
    }
  }

  /** A scan that stopped only for want of letters, or reached `p` in a state satisfying `inv`. */
  ghost predicate OkBy(inv: (ScanState, int) -> bool, s: Result<ScanState>, p: int) {
    s == Failure(StopIteration) || (s.Success? && inv(s.value, p))
  }

  /** Induction over a scan loop: an invariant every step keeps (or that stops it for want of letters) holds at its end. */
  lemma {:induction false} ScanKeepsBy(vs: map<int, BondRef>, lay: Layout, st: ScanState, i: int, second: bool,
                                       inv: (ScanState, int) -> bool)
    requires Fits(lay, st.A, st.B) && ScanFrom(lay, second) <= i <= ScanTo(lay, second) + 1 && inv(st, i)
    requires forall s: ScanState, p: int {:trigger inv(s, p)} ::
      ScanFrom(lay, second) <= p <= ScanTo(lay, second) && Fits(lay, s.A, s.B) && inv(s, p) ==>
      OkBy(inv, Step(vs, lay, s, p, second), p + 1)
    ensures OkBy(inv, Scan(vs, lay, st, i, second), ScanTo(lay, second) + 1)
    decreases ScanTo(lay, second) - i + 1
  {
    if i <= ScanTo(lay, second) {
      var s := Step(vs, lay, st, i, second);
      assert OkBy(inv, s, i + 1);
      if s.Success? {
        assert Scan(vs, lay, st, i, second) == Scan(vs, lay, s.value, i + 1, second);
        ScanKeepsBy(vs, lay, s.value, i + 1, second, inv);
      }
    } else {
      assert i == ScanTo(lay, second) + 1;
    }
  }

  /** For one of the protein's own bonds a whole scan keeps the invariant, or runs out of letters. */
  lemma ScanKeeps(vs: map<int, BondRef>, b: BondRef, lay: Layout, st: ScanState, i: int, second: bool)
    requires Attached(vs, b) && ScanInv(vs, b, lay, st, i)
    requires ScanFrom(lay, second) <= i <= ScanTo(lay, second) + 1
    ensures ScanOk(vs, b, lay, Scan(vs, lay, st, i, second), ScanTo(lay, second) + 1)
  {
    var inv := (s: ScanState, p: int) => ScanInv(vs, b, lay, s, p);
    forall s: ScanState, p: int | ScanFrom(lay, second) <= p <= ScanTo(lay, second) && Fits(lay, s.A, s.B) && inv(s, p)
      ensures OkBy(inv, Step(vs, lay, s, p, second), p + 1)
    {
      StepKeeps(vs, b, lay, s, p, second);
    }
    ScanKeepsBy(vs, lay, st, i, second, inv);
  }

  /** The first scan loop, from the lists holding just the central string. */
  lemma FirstScan(w: int, vs: map<int, BondRef>, b: BondRef)
    requires Attached(vs, b) && w >= 0
    ensures var lay := Windowed(w, b);
      ScanOk(vs, b, lay, Scan(vs, lay, Initial(w, b), lay.lo0, false), lay.hi0 + 1)
  {
    var lay := Windowed(w, b);
    var st := Initial(w, b);
    WindowSizes(w, Lesser(b.Donor(), b.Accptr()), Greater(b.Donor(), b.Accptr()));
    forall x | InWin(lay, x) ensures Slot(lay, st.A, st.B, x) == if Focal(b, x) then CentralSlot(b) else "" {
    }
    ScanStart(vs, b, lay, st);
    ScanKeeps(vs, b, lay, st, lay.lo0, false);
  }

  /** The second scan loop, over the right window, after the first one succeeded. */
  lemma SecondScan(vs: map<int, BondRef>, b: BondRef, lay: Layout, st: ScanState)
    requires Attached(vs, b) && ScanInv(vs, b, lay, st, lay.hi0 + 1) && lay.two
    ensures ScanOk(vs, b, lay, Scan(vs, lay, st, lay.lo1, true), lay.hi1 + 1)
  {
    ScanGap(vs, b, lay, st, lay.hi0 + 1, lay.lo1);
    ScanKeeps(vs, b, lay, st, lay.lo1, true);
  }

  /**
   * For one of the protein's own bonds the scans raise nothing but
   * StopIteration, and afterwards, with the empty slots filled, every
   * window atom holds its final slot, every bonded atom is described and
   * the labels are distinct.
   */
  lemma LocalScanLabelled(w: int, vs: map<int, BondRef>, b: BondRef)
    requires Attached(vs, b) && w >= 0
    ensures LabelledOutcome(vs, b, Windowed(w, b), LocalScan(w, vs, b))
  {
    var lay := Windowed(w, b);
    FirstScan(w, vs, b);
    var s1 := Scan(vs, lay, Initial(w, b), lay.lo0, false);
    if s1.Failure? {
      assert s1 == Failure(StopIteration);
    } else if lay.two {
      SecondScan(vs, b, lay, s1.value);
      ScanEnd(vs, b, lay, Scan(vs, lay, s1.value, lay.lo1, true), lay.hi1 + 1);
    } else {
      ScanEnd(vs, b, lay, s1, lay.hi0 + 1);
    }
  }
}

/**
 * The slot labelling of `describe_local_pattern` (find_local_patterns.py)
 * as pure definitions: where the window(s) lie, which string each atom's
 * slot ends up holding, and the invariant of the scan that fills them.
 * Atoms are addressed by their protein index; a slot that the source holds
 * as `None` is the empty string here (every slot it fills is non-empty).
 */
module LocalSlots {
  import opened Wrappers
  import opened Bonds
  import opened LocalConfig

  /**
   * The atom ranges `[lo0, hi0]` and `[lo1, hi1]` of the left and right
   * windows; with a single window the right range is empty.
   */
  datatype Layout = Layout(lo0: int, hi0: int, two: bool, lo1: int, hi1: int)

  /**
   * `window_size` atoms on either side of each end: one window when the
   * two overlap or touch, otherwise two windows of `2w+1` atoms.
   */
  function Windows(w: int, left: int, right: int): (lay: Layout)
    ensures !lay.two ==> lay.lo0 == left - w && lay.hi0 == right + w && lay.lo1 == lay.hi0 + 1 && lay.hi1 == lay.hi0
    ensures lay.two ==> lay.lo0 == left - w && lay.hi0 == left + w && lay.lo1 == right - w && lay.hi1 == right + w
    ensures lay.two ==> lay.hi0 + 1 < lay.lo1
  {
    if left + w + 1 >= right - w then Layout(left - w, right + w, false, right + w + 1, right + w)
    else Layout(left - w, left + w, true, right - w, right + w)
  }

  /** The window construction: the sizes of the one window or the two windows. */
  lemma WindowSizes(w: int, left: int, right: int)
    requires 0 <= w && left < right
    ensures var lay := Windows(w, left, right);
      (!lay.two <==> right - left <= 2 * w + 1)
      && (!lay.two ==> lay.hi0 - lay.lo0 + 1 == right - left + 2 * w + 1)
      && (lay.two ==> lay.hi0 - lay.lo0 + 1 == 2 * w + 1 && lay.hi1 - lay.lo1 + 1 == 2 * w + 1)
      && InWin(lay, left) && InWin(lay, right) && (lay.two ==> InL(lay, left) && InR(lay, right))
  {
  }

  predicate InL(lay: Layout, x: int) {
    lay.lo0 <= x <= lay.hi0
  }

  predicate InR(lay: Layout, x: int) {
    lay.lo1 <= x <= lay.hi1
  }

  predicate InWin(lay: Layout, x: int) {
    InL(lay, x) || InR(lay, x)
  }

  /** The slot lists `A` (left) and `B` (right) cover the layout's ranges, left before right. */
  predicate Fits(lay: Layout, A: seq<string>, B: seq<string>) {
    && lay.lo0 <= lay.hi0 + 1 && lay.hi0 < lay.lo1 && lay.lo1 <= lay.hi1 + 1
    && |A| == lay.hi0 - lay.lo0 + 1 && |B| == lay.hi1 - lay.lo1 + 1
    && (!lay.two ==> B == [])
  }

  /** The slot of atom `x`: `spec[x - segleft]` of the window holding it. */
  function Slot(lay: Layout, A: seq<string>, B: seq<string>, x: int): string
    requires Fits(lay, A, B) && InWin(lay, x)
  {
    if InL(lay, x) then A[x - lay.lo0] else B[x - lay.lo1]
  }

  /** The lists after writing `c` into the slot of atom `x`. */
  function SetSlot(lay: Layout, A: seq<string>, B: seq<string>, x: int, c: string): (r: (seq<string>, seq<string>))
    requires Fits(lay, A, B) && InWin(lay, x)
    ensures Fits(lay, r.0, r.1)
    ensures forall y :: InWin(lay, y) ==> Slot(lay, r.0, r.1, y) == if y == x then c else Slot(lay, A, B, y)
  {
    if InL(lay, x) then (A[x - lay.lo0 := c], B) else (A, B[x - lay.lo1 := c])
  }

  /** An end of the central bond. */
  predicate Focal(b: BondRef, x: int) {
    x == b.Donor() || x == b.Accptr()
  }

  /** The first letter of the H-bond alphabet for an H-bond, of the T-bond alphabet otherwise. */
  function CentralLetter(b: BondRef): char {
    Letter(b.TBond?, 0)
  }

  function TwistMark(bond: BondRef): string {
    if bond.IsTwisted() then [Twist] else []
  }

  /** `central_str` */
  function CentralSlot(b: BondRef): string {
    [CentralLetter(b)] + TwistMark(b)
  }

  function Lesser(x: int, y: int): int {
    if x < y then x else y
  }

  function Greater(x: int, y: int): int {
    if x < y then y else x
  }

  /** The central bond is one of the protein's own: it sits at its ends. */
  ghost predicate Attached(vs: map<int, BondRef>, b: BondRef) {
    OneBondPerIndex(vs) && b.Donor() in vs && vs[b.Donor()] == b
  }

  /** The letter handed to a local bond: its alphabet (upper-case or not) and its draw number. */
  type Label = (bool, nat)

  type Labels = map<BondRef, Label>

  function LabelText(bond: BondRef, l: Label): string
    requires l.1 < 26
  {
    [Letter(l.0, l.1)] + TwistMark(bond)
  }

  /**
   * What the scan writes into the slot of atom `x`, or "" where it writes
   * nothing: the central string at the focal atoms, `R+`/`R-` for a bond
   * leaving the windows, and the bond's letter (upper-case when its first
   * end in scan order is a C-alpha) for a bond inside them.
   */
  function Expected(vs: map<int, BondRef>, b: BondRef, lay: Layout, lab: Labels, x: int): string {
    if Focal(b, x) then CentralSlot(b)
    else if x !in vs then ""
    else
      var y := vs[x].Other(x);
      if !InWin(lay, y) then RemoteSlot(x, y)
      else if vs[x] in lab && lab[vs[x]].1 < 26 && lab[vs[x]].0 == (Lesser(x, y) % 3 == 1) then LabelText(vs[x], lab[vs[x]])
      else ""
  }

  /** The final slot: what the scan wrote, or the isolated letter of the atom. */
  function Final(vs: map<int, BondRef>, b: BondRef, lay: Layout, lab: Labels, x: int): string {
    var e := Expected(vs, b, lay, lab, x);
    if e != "" then e else IsolatedSlot(x)
  }

  // ----- the scan invariant -----

  /** Every written slot holds what the scan writes there. */
  ghost predicate SlotsAgree(vs: map<int, BondRef>, b: BondRef, lay: Layout, A: seq<string>, B: seq<string>, lab: Labels)
    requires Fits(lay, A, B)
  {
    forall x :: InWin(lay, x) && Slot(lay, A, B, x) != "" ==> Slot(lay, A, B, x) == Expected(vs, b, lay, lab, x)
  }

  /** Both focal slots are written. */
  ghost predicate FocalSet(b: BondRef, lay: Layout, A: seq<string>, B: seq<string>)
    requires Fits(lay, A, B)
  {
    InWin(lay, b.Donor()) && InWin(lay, b.Accptr())
    && Slot(lay, A, B, b.Donor()) != "" && Slot(lay, A, B, b.Accptr()) != ""
  }

  /** Every bonded atom before `p` has its slot written. */
  ghost predicate Done(vs: map<int, BondRef>, lay: Layout, A: seq<string>, B: seq<string>, p: int)
    requires Fits(lay, A, B)
  {
    forall x :: InWin(lay, x) && x < p && x in vs ==> Slot(lay, A, B, x) != ""
  }

  /** A written slot at or after `p` is focal or the far end of a bond met before `p`. */
  ghost predicate Ahead(vs: map<int, BondRef>, b: BondRef, lay: Layout, A: seq<string>, B: seq<string>, p: int)
    requires Fits(lay, A, B)
  {
    forall x :: InWin(lay, x) && p <= x && Slot(lay, A, B, x) != "" && !Focal(b, x) ==>
      x in vs && InWin(lay, vs[x].Other(x)) && vs[x].Other(x) < p
  }

  /** Both ends of a bond inside the windows are written, or neither is. */
  ghost predicate Paired(vs: map<int, BondRef>, lay: Layout, A: seq<string>, B: seq<string>)
    requires Fits(lay, A, B)
  {
    forall x, y {:trigger Slot(lay, A, B, x), Slot(lay, A, B, y)} ::
      InWin(lay, x) && InWin(lay, y) && x in vs && y == vs[x].Other(x) ==>
      (Slot(lay, A, B, x) != "" <==> Slot(lay, A, B, y) != "")
  }

  /** Labels are distinct draws, below the generators' counters, after the central letter. */
  ghost predicate Fresh(b: BondRef, lab: Labels, hd: nat, td: nat) {
    && hd <= 26 && td <= 26
    && (b.HBond? ==> hd >= 1) && (b.TBond? ==> td >= 1)
    && (forall k :: k in lab ==> lab[k].1 < (if lab[k].0 then td else hd))
    && (forall k :: k in lab ==> (lab[k].0 == b.TBond? ==> lab[k].1 >= 1))
    && (forall k1, k2 :: k1 in lab && k2 in lab && lab[k1] == lab[k2] ==> k1 == k2)
  }

  /** The slot lists, the labels handed out so far and the two generators' counts. */
  datatype ScanState = ScanState(A: seq<string>, B: seq<string>, lab: Labels, hd: nat, td: nat)

  /** The invariant of the scan loops, with every atom before `p` processed. */
  ghost predicate ScanInv(vs: map<int, BondRef>, b: BondRef, lay: Layout, st: ScanState, p: int) {
    && Fits(lay, st.A, st.B)
    && SlotsAgree(vs, b, lay, st.A, st.B, st.lab)
    && FocalSet(b, lay, st.A, st.B)
    && Done(vs, lay, st.A, st.B, p)
    && Ahead(vs, b, lay, st.A, st.B, p)
    && Paired(vs, lay, st.A, st.B)
    && Fresh(b, st.lab, st.hd, st.td)
  }

  /** The facts `OneBondPerIndex` gives about the far end of the bond at `i`. */
  lemma FarEnd(vs: map<int, BondRef>, i: int)
    requires OneBondPerIndex(vs) && i in vs
    ensures var j := vs[i].Other(i);
      j != i && j in vs && vs[j] == vs[i] && vs[j].Other(j) == i && vs[i].OtherEnd(i) == Some(j)
  {
  }

  /** The only atoms holding a bond are its two ends. */
  lemma SameBondEnds(vs: map<int, BondRef>, i: int, x: int)
    requires OneBondPerIndex(vs) && i in vs && x in vs && vs[x] == vs[i]
    ensures x == i || x == vs[i].Other(i)
  {
  }

  /** The central bond's focal atoms hold it, and a bonded atom holding it is focal. */
  lemma FocalBond(vs: map<int, BondRef>, b: BondRef, x: int)
    requires Attached(vs, b) && x in vs
    ensures Focal(b, x) ==> vs[x] == b
    ensures vs[x] == b ==> Focal(b, x)
    ensures b.Accptr() in vs && vs[b.Accptr()] == b
  {
  }

  /** The state after the central string is written at both focal atoms. */
  lemma ScanStart(vs: map<int, BondRef>, b: BondRef, lay: Layout, st: ScanState)
    requires Attached(vs, b) && Fits(lay, st.A, st.B)
    requires InWin(lay, b.Donor()) && InWin(lay, b.Accptr())
    requires forall x :: InWin(lay, x) ==> Slot(lay, st.A, st.B, x) == if Focal(b, x) then CentralSlot(b) else ""
    requires st.lab == map[] && st.hd == (if b.HBond? then 1 else 0) && st.td == (if b.TBond? then 1 else 0)
    ensures ScanInv(vs, b, lay, st, lay.lo0)
  {
    forall x | InWin(lay, x) && x in vs && InWin(lay, vs[x].Other(x))
      ensures Slot(lay, st.A, st.B, x) != "" <==> Slot(lay, st.A, st.B, vs[x].Other(x)) != ""
    {
      FocalBond(vs, b, x);
      FarEnd(vs, x);
      FocalBond(vs, b, vs[x].Other(x));
    }
  }

  /** An atom whose slot is written, or that holds no bond, is passed over. */
  lemma ScanSkip(vs: map<int, BondRef>, b: BondRef, lay: Layout, st: ScanState, p: int)
    requires ScanInv(vs, b, lay, st, p) && InWin(lay, p)
    requires Slot(lay, st.A, st.B, p) != "" || p !in vs
    ensures ScanInv(vs, b, lay, st, p + 1)
  {
    forall x | InWin(lay, x) && p + 1 <= x && Slot(lay, st.A, st.B, x) != "" && !Focal(b, x)
      ensures x in vs && InWin(lay, vs[x].Other(x)) && vs[x].Other(x) < p + 1
    {
    }
  }

  /** Between the windows there is nothing to scan. */
  lemma ScanGap(vs: map<int, BondRef>, b: BondRef, lay: Layout, st: ScanState, p: int, q: int)
    requires ScanInv(vs, b, lay, st, p) && p <= q
    requires forall x :: p <= x < q ==> !InWin(lay, x)
    ensures ScanInv(vs, b, lay, st, q)
  {
    forall x | InWin(lay, x) && q <= x && Slot(lay, st.A, st.B, x) != "" && !Focal(b, x)
      ensures x in vs && InWin(lay, vs[x].Other(x)) && vs[x].Other(x) < q
    {
    }
  }

  /**
   * The atom `p` about to receive a slot: not focal, its far end (when
   * inside the windows) lies after it and is still empty. This is why the
   * source's `is None` assertions hold and its "bond back into the left
   * window" branch is never reached.
   */
  lemma ScanFresh(vs: map<int, BondRef>, b: BondRef, lay: Layout, st: ScanState, p: int)
    requires Attached(vs, b) && ScanInv(vs, b, lay, st, p)
    requires InWin(lay, p) && Slot(lay, st.A, st.B, p) == "" && p in vs
    ensures !Focal(b, p) && !Focal(b, vs[p].Other(p))
    ensures InWin(lay, vs[p].Other(p)) ==> p < vs[p].Other(p) && Slot(lay, st.A, st.B, vs[p].Other(p)) == ""
  {
    var j := vs[p].Other(p);
    FarEnd(vs, p);
    FocalBond(vs, b, p);
    FocalBond(vs, b, j);
  }

  /** The state after `R+`/`R-` is written for the bond at `i`. */
  function RemoteNext(vs: map<int, BondRef>, lay: Layout, st: ScanState, i: int): (r: ScanState)
    requires Fits(lay, st.A, st.B) && InWin(lay, i) && i in vs
    ensures Fits(lay, r.A, r.B)
  {
    var r1 := SetSlot(lay, st.A, st.B, i, RemoteSlot(i, vs[i].Other(i)));
    ScanState(r1.0, r1.1, st.lab, st.hd, st.td)
  }

  /** A bond leaving the windows: its slot becomes `R+` or `R-`. */
  lemma ScanRemote(vs: map<int, BondRef>, b: BondRef, lay: Layout, st: ScanState, p: int)
    requires Attached(vs, b) && ScanInv(vs, b, lay, st, p)
    requires InWin(lay, p) && Slot(lay, st.A, st.B, p) == "" && p in vs && !InWin(lay, vs[p].Other(p))
    ensures ScanInv(vs, b, lay, RemoteNext(vs, lay, st, p), p + 1)
  {
    ScanFresh(vs, b, lay, st, p);
    var j := vs[p].Other(p);
    var r := RemoteNext(vs, lay, st, p);
    forall x | InWin(lay, x) && x in vs && InWin(lay, vs[x].Other(x))
      ensures Slot(lay, r.A, r.B, x) != "" <==> Slot(lay, r.A, r.B, vs[x].Other(x)) != ""
    {
      FarEnd(vs, x);
      if vs[x].Other(x) == p {
        FarEnd(vs, p);
      }
    }
  }

  /** The number of letters the generator for the atom kind `upper` has handed out. */
  function Counter(st: ScanState, upper: bool): nat {
    if upper then st.td else st.hd
  }

  /**
   * The state after the letter `text` of the bond at `i` is written at both
   * ends, recorded as draw `Counter` of the generator for `i`'s atom kind.
   */
  function LocalNext(vs: map<int, BondRef>, lay: Layout, st: ScanState, i: int, text: string): (r: ScanState)
    requires Fits(lay, st.A, st.B) && InWin(lay, i) && i in vs && InWin(lay, vs[i].Other(i))
    ensures Fits(lay, r.A, r.B)
  {
    var upper := i % 3 == 1;
    var r1 := SetSlot(lay, st.A, st.B, i, text);
    var r2 := SetSlot(lay, r1.0, r1.1, vs[i].Other(i), text);
    ScanState(r2.0, r2.1, st.lab[vs[i] := (upper, Counter(st, upper))],
              if upper then st.hd else st.hd + 1, if upper then st.td + 1 else st.td)
  }

  /** The slot lists after the letter of a local bond is written at both of its ends `p` and `j`. */
  ghost predicate WrittenPair(lay: Layout, A: seq<string>, B: seq<string>, A2: seq<string>, B2: seq<string>,
                              p: int, j: int, text: string)
    requires Fits(lay, A, B) && Fits(lay, A2, B2)
  {
    forall y :: InWin(lay, y) ==> Slot(lay, A2, B2, y) == if y == p || y == j then text else Slot(lay, A, B, y)
  }

  /** The facts about the local bond at `p` that every part of the step needs. */
  ghost predicate LocalPre(vs: map<int, BondRef>, b: BondRef, lay: Layout, A: seq<string>, B: seq<string>, p: int)
    requires Fits(lay, A, B)
  {
    && Attached(vs, b) && p in vs && InWin(lay, p) && InWin(lay, vs[p].Other(p))
    && p < vs[p].Other(p) && !Focal(b, p) && !Focal(b, vs[p].Other(p))
    && Slot(lay, A, B, p) == "" && Slot(lay, A, B, vs[p].Other(p)) == ""
  }

  lemma LocalAgree(vs: map<int, BondRef>, b: BondRef, lay: Layout, A: seq<string>, B: seq<string>,
                   A2: seq<string>, B2: seq<string>, lab: Labels, p: int, l: Label)
    requires Fits(lay, A, B) && Fits(lay, A2, B2) && LocalPre(vs, b, lay, A, B, p)
    requires SlotsAgree(vs, b, lay, A, B, lab)
    requires l.1 < 26 && l.0 == (p % 3 == 1)
    requires WrittenPair(lay, A, B, A2, B2, p, vs[p].Other(p), LabelText(vs[p], l))
    ensures SlotsAgree(vs, b, lay, A2, B2, lab[vs[p] := l])
  {
    var j := vs[p].Other(p);
    FarEnd(vs, p);
    forall x | InWin(lay, x) && Slot(lay, A2, B2, x) != ""
      ensures Slot(lay, A2, B2, x) == Expected(vs, b, lay, lab[vs[p] := l], x)
    {
      if x == p || x == j {
        assert Lesser(x, vs[x].Other(x)) == p;
      } else {
        assert Slot(lay, A, B, x) == Expected(vs, b, lay, lab, x);
        if x in vs && vs[x] == vs[p] {
          SameBondEnds(vs, p, x);
        }
      }
    }
  }

  lemma LocalPaired(vs: map<int, BondRef>, b: BondRef, lay: Layout, A: seq<string>, B: seq<string>,
                    A2: seq<string>, B2: seq<string>, p: int, text: string)
    requires Fits(lay, A, B) && Fits(lay, A2, B2) && LocalPre(vs, b, lay, A, B, p)
    requires Paired(vs, lay, A, B) && text != ""
    requires WrittenPair(lay, A, B, A2, B2, p, vs[p].Other(p), text)
    ensures Paired(vs, lay, A2, B2)
  {
    var j := vs[p].Other(p);
    FarEnd(vs, p);
    forall x | InWin(lay, x) && x in vs && InWin(lay, vs[x].Other(x))
      ensures Slot(lay, A2, B2, x) != "" <==> Slot(lay, A2, B2, vs[x].Other(x)) != ""
    {
      FarEnd(vs, x);
      var y := vs[x].Other(x);
      if x == p || x == j || y == p || y == j {
        SameBondEnds(vs, p, x);
        SameBondEnds(vs, p, y);
      }
    }
  }

  lemma LocalAhead(vs: map<int, BondRef>, b: BondRef, lay: Layout, A: seq<string>, B: seq<string>,
                   A2: seq<string>, B2: seq<string>, p: int, text: string)
    requires Fits(lay, A, B) && Fits(lay, A2, B2) && LocalPre(vs, b, lay, A, B, p)
    requires Done(vs, lay, A, B, p) && Ahead(vs, b, lay, A, B, p) && text != ""
    requires WrittenPair(lay, A, B, A2, B2, p, vs[p].Other(p), text)
    ensures Done(vs, lay, A2, B2, p + 1) && Ahead(vs, b, lay, A2, B2, p + 1)
  {
    FarEnd(vs, p);
  }

  lemma LocalFresh(b: BondRef, lab: Labels, hd: nat, td: nat, bond: BondRef, upper: bool)
    requires Fresh(b, lab, hd, td) && (if upper then td else hd) < 26
    ensures var l: Label := (upper, if upper then td else hd);
      Fresh(b, lab[bond := l], if upper then hd else hd + 1, if upper then td + 1 else td)
  {
  }

  /**
   * A bond inside the windows: one fresh letter, from the generator chosen
   * by the first end's atom kind, at both ends.
   */
  lemma ScanLocal(vs: map<int, BondRef>, b: BondRef, lay: Layout, st: ScanState, p: int)
    requires Attached(vs, b) && ScanInv(vs, b, lay, st, p)
    requires InWin(lay, p) && Slot(lay, st.A, st.B, p) == "" && p in vs && InWin(lay, vs[p].Other(p))
    requires Counter(st, p % 3 == 1) < 26
    ensures ScanInv(vs, b, lay, LocalNext(vs, lay, st, p, LabelText(vs[p], (p % 3 == 1, Counter(st, p % 3 == 1)))), p + 1)
  {
    ScanFresh(vs, b, lay, st, p);
    FarEnd(vs, p);
    var j := vs[p].Other(p);
    var l: Label := (p % 3 == 1, Counter(st, p % 3 == 1));
    var text := LabelText(vs[p], l);
    var r1 := SetSlot(lay, st.A, st.B, p, text);
    var r2 := SetSlot(lay, r1.0, r1.1, j, text);
    assert LocalPre(vs, b, lay, st.A, st.B, p);
    assert WrittenPair(lay, st.A, st.B, r2.0, r2.1, p, j, text);
    LocalAgree(vs, b, lay, st.A, st.B, r2.0, r2.1, st.lab, p, l);
    LocalPaired(vs, b, lay, st.A, st.B, r2.0, r2.1, p, text);
    LocalAhead(vs, b, lay, st.A, st.B, r2.0, r2.1, p, text);
    LocalFresh(b, st.lab, st.hd, st.td, vs[p], p % 3 == 1);
  }

  // ----- the end of the scan -----

  /** Every bonded atom of the windows received its slot. */
  ghost predicate Complete(vs: map<int, BondRef>, b: BondRef, lay: Layout, lab: Labels) {
    forall x :: InWin(lay, x) && x in vs ==> Expected(vs, b, lay, lab, x) != ""
  }

  /** `spec[i] = isolated_char[(i + seg) % 3]` for every slot still `None`. */
  function Filled(s: seq<string>, lo: int): (r: seq<string>)
    ensures |r| == |s|
  {
    seq(|s|, k requires 0 <= k < |s| => if s[k] == "" then IsolatedSlot(lo + k) else s[k])
  }

  /** Every slot of the windows holds its final string. */
  ghost predicate Labelled(vs: map<int, BondRef>, b: BondRef, lay: Layout, lab: Labels, A: seq<string>, B: seq<string>)
    requires Fits(lay, A, B)
  {
    forall x :: InWin(lay, x) ==> Slot(lay, A, B, x) == Final(vs, b, lay, lab, x)
  }

  /** Distinct labels, each a real draw, none the central letter. */
  ghost predicate LabelsDistinct(b: BondRef, lab: Labels) {
    && (forall k :: k in lab ==> lab[k].1 < 26 && (lab[k].0 == b.TBond? ==> lab[k].1 >= 1))
    && (forall k1, k2 :: k1 in lab && k2 in lab && lab[k1] == lab[k2] ==> k1 == k2)
  }

  lemma FilledAt(s: seq<string>, lo: int, k: int)
    requires 0 <= k < |s|
    ensures Filled(s, lo)[k] == if s[k] == "" then IsolatedSlot(lo + k) else s[k]
  {
  }
  /** After the scan an atom's slot is empty exactly when the scan writes nothing there. */
  lemma EndFacts(vs: map<int, BondRef>, b: BondRef, lay: Layout, st: ScanState, p: int, x: int)
    requires ScanInv(vs, b, lay, st, p) && lay.hi1 < p && lay.hi0 < p && InWin(lay, x)
    ensures Slot(lay, st.A, st.B, x) == "" ==> Expected(vs, b, lay, st.lab, x) == ""
    ensures Slot(lay, st.A, st.B, x) != "" ==> Slot(lay, st.A, st.B, x) == Expected(vs, b, lay, st.lab, x)
    ensures x in vs ==> Expected(vs, b, lay, st.lab, x) != ""
  {
  }

  /** After the scan, filling the empty slots gives atom `x` its final slot; a bonded atom is described. */
  lemma EndSlot(vs: map<int, BondRef>, b: BondRef, lay: Layout, st: ScanState, p: int, x: int)
    requires ScanInv(vs, b, lay, st, p) && lay.hi1 < p && lay.hi0 < p && InWin(lay, x)
    ensures Fits(lay, Filled(st.A, lay.lo0), Filled(st.B, lay.lo1))
    ensures Slot(lay, Filled(st.A, lay.lo0), Filled(st.B, lay.lo1), x) == Final(vs, b, lay, st.lab, x)
    ensures x in vs ==> Expected(vs, b, lay, st.lab, x) != ""
  {
    EndFacts(vs, b, lay, st, p, x);
    if InL(lay, x) {
      FilledAt(st.A, lay.lo0, x - lay.lo0);
    } else {
      FilledAt(st.B, lay.lo1, x - lay.lo1);
    }
  }

  /** The labels of a scan state are distinct real draws. */
  lemma EndLabels(vs: map<int, BondRef>, b: BondRef, lay: Layout, st: ScanState, p: int)
    requires ScanInv(vs, b, lay, st, p)
    ensures LabelsDistinct(b, st.lab)
  {
  }

  // ----- the scan as a function of the state -----

  /** The first and last atom of the window a scan covers: the right one when `second`. */
  function ScanFrom(lay: Layout, second: bool): int {
    if second then lay.lo1 else lay.lo0
  }

  function ScanTo(lay: Layout, second: bool): int {
    if second then lay.hi1 else lay.hi0
  }

  /**
   * One iteration of a scan loop at atom `i`: a decided slot or an atom
   * without a bond is passed over; a bond leaving the windows writes
   * `R+`/`R-`; a bond inside them draws a letter (StopIteration once the
   * generator is spent) and writes it at both ends. In the right window's
   * scan a bond back into the left window is `assert(0)`; with two windows
   * the far slot must still be empty.
   */
  function Step(vs: map<int, BondRef>, lay: Layout, st: ScanState, i: int, second: bool): (r: Result<ScanState>)
    requires Fits(lay, st.A, st.B) && InWin(lay, i)
    ensures r.Success? ==> Fits(lay, r.value.A, r.value.B)
  {
    if Slot(lay, st.A, st.B, i) != "" || i !in vs then Success(st)
    else
      var j := vs[i].Other(i);
      if InWin(lay, j) then
        if second && InL(lay, j) then Failure(AssertionError)
        else
          var upper := i % 3 == 1;
          var c := Draw(upper, Counter(st, upper));
          if c.Failure? then Failure(c.error)
          else
            var text := [c.value] + TwistMark(vs[i]);
            var r1 := SetSlot(lay, st.A, st.B, i, text);
            if lay.two && Slot(lay, r1.0, r1.1, j) != "" then Failure(AssertionError)
            else Success(LocalNext(vs, lay, st, i, text))
      else Success(RemoteNext(vs, lay, st, i))
  }

  /** The scan loop from atom `i` to the end of its window. */
  function Scan(vs: map<int, BondRef>, lay: Layout, st: ScanState, i: int, second: bool): (r: Result<ScanState>)
    requires Fits(lay, st.A, st.B) && ScanFrom(lay, second) <= i
    ensures r.Success? ==> Fits(lay, r.value.A, r.value.B)
    decreases ScanTo(lay, second) - i + 1
  {
    if i > ScanTo(lay, second) then Success(st)
    else
      var s := Step(vs, lay, st, i, second);
      if s.Failure? then s else Scan(vs, lay, s.value, i + 1, second)
  }

  /** A scan that stopped only for want of letters, or reached `p` with the invariant intact. */
  ghost predicate ScanOk(vs: map<int, BondRef>, b: BondRef, lay: Layout, s: Result<ScanState>, p: int) {
    s == Failure(StopIteration) || (s.Success? && ScanInv(vs, b, lay, s.value, p))
  }

  // ----- the whole labelling -----

  /** The layout for `bond` with window size `w`. */
  function Windowed(w: int, b: BondRef): Layout {
    Windows(w, Lesser(b.Donor(), b.Accptr()), Greater(b.Donor(), b.Accptr()))
  }

  /** The lists of `None` with the central string at both focal atoms, and the central letter drawn. */
  function Initial(w: int, b: BondRef): (st: ScanState)
    requires w >= 0
    ensures Fits(Windowed(w, b), st.A, st.B)
  {
    var lay := Windowed(w, b);
    var A := seq(lay.hi0 - lay.lo0 + 1, _ => "");
    var B := seq(if lay.two then lay.hi1 - lay.lo1 + 1 else 0, _ => "");
    var r1 := SetSlot(lay, A, B, Lesser(b.Donor(), b.Accptr()), CentralSlot(b));
    var r2 := SetSlot(lay, r1.0, r1.1, Greater(b.Donor(), b.Accptr()), CentralSlot(b));
    ScanState(r2.0, r2.1, map[], if b.HBond? then 1 else 0, if b.TBond? then 1 else 0)
  }

  /** Both scan loops: the (left) window, then the right one if there are two. */
  function LocalScan(w: int, vs: map<int, BondRef>, b: BondRef): (r: Result<ScanState>)
    requires w >= 0
    ensures r.Success? ==> Fits(Windowed(w, b), r.value.A, r.value.B)
  {
    var lay := Windowed(w, b);
    var s1 := Scan(vs, lay, Initial(w, b), lay.lo0, false);
    if s1.Failure? || !lay.two then s1 else Scan(vs, lay, s1.value, lay.lo1, true)
  }

  /** The scan state's outcome: only StopIteration, or the final labelling. */
  ghost predicate LabelledOutcome(vs: map<int, BondRef>, b: BondRef, lay: Layout, s: Result<ScanState>) {
    s == Failure(StopIteration)
    || (&& s.Success? && Fits(lay, s.value.A, s.value.B)
        && Labelled(vs, b, lay, s.value.lab, Filled(s.value.A, lay.lo0), Filled(s.value.B, lay.lo1))
        && Complete(vs, b, lay, s.value.lab) && LabelsDistinct(b, s.value.lab))
  }
}

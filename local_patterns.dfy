/**
 * `describe_local_pattern` (find_local_patterns.py): the slot lists of the
 * atoms around one bond, filled by scanning the window(s) over the
 * protein's bond map and then normalised. The definitions the scan is
 * proved against are in module LocalSlots.
 */
module LocalPatterns {
  import opened Wrappers
  import opened Bonds
  import opened Proteins
  import opened LocalConfig
  import opened LocalSlots
  import Normalize

  /** `spec[x - segleft] = c` in whichever window holds atom `x`. */
  method Put(lay: Layout, L: array<string>, R: array<string>, x: int, c: string)
    requires L != R && Fits(lay, L[..], R[..]) && InWin(lay, x)
    modifies L, R
    ensures (L[..], R[..]) == SetSlot(lay, old(L[..]), old(R[..]), x, c)
  {
    if InL(lay, x) {
      L[x - lay.lo0] := c;
    } else {
      R[x - lay.lo1] := c;
    }
  }

  /** The outcome of a loop (or of one iteration) in terms of the scan state `s` it should produce. */
  ghost predicate Agrees(r: Result<(nat, nat)>, s: Result<ScanState>, A: seq<string>, B: seq<string>, lab: Labels) {
    && (r.Failure? <==> s.Failure?)
    && (r.Failure? ==> r.error == s.error)
    && (r.Success? ==> s.value == ScanState(A, B, lab, r.value.0, r.value.1))
  }

  /** The body of a scan loop at atom `i`: what `Step` describes. */
  method ScanAt(prot: Protein, lay: Layout, L: array<string>, R: array<string>, i: int,
                second: bool, hd: nat, td: nat, ghost lab0: Labels)
    returns (r: Result<(nat, nat)>, ghost lab: Labels)
    requires OneBondPerIndex(prot.vertices)
    requires L != R && Fits(lay, L[..], R[..]) && InWin(lay, i)
    modifies L, R
    ensures Fits(lay, L[..], R[..])
    ensures Agrees(r, Step(prot.vertices, lay, ScanState(old(L[..]), old(R[..]), lab0, hd, td), i, second), L[..], R[..], lab)
  {
    ghost var vs := prot.vertices;
    ghost var st := ScanState(L[..], R[..], lab0, hd, td);
    lab := lab0;
    // The slot is already decided.
    if Slot(lay, L[..], R[..], i) != "" {
      return Success((hd, td)), lab;
    }
    var upper := i % 3 == 1;
    var bond := prot.GetBond(i);
    if bond.None? {
      return Success((hd, td)), lab;
    }
    var bd := bond.value;
    var j := bd.Other(i);
    // `assert(i != j)`: no bond of the map is a loop.
    assert i != j;
    if InWin(lay, j) {
      if second && InL(lay, j) {
        // `assert(0)`: a bond back into the left window.
        return Failure(AssertionError), lab;
      }
      var c := Draw(upper, if upper then td else hd);
      if c.Failure? {
        return Failure(c.error), lab;
      }
      var text := [c.value] + (if bd.IsTwisted() then [Twist] else []);
      Put(lay, L, R, i, text);
      // `assert(spec[j - seg] is None)`, which the one-window loop omits.
      if lay.two && Slot(lay, L[..], R[..], j) != "" {
        return Failure(AssertionError), lab;
      }
      Put(lay, L, R, j, text);
      lab := lab[bd := (upper, if upper then td else hd)];
      r := if upper then Success((hd, td + 1)) else Success((hd + 1, td));
      assert ScanState(L[..], R[..], lab, r.value.0, r.value.1) == LocalNext(vs, lay, st, i, text);
    } else {
      Put(lay, L, R, i, RemoteSlot(i, j));
      r := Success((hd, td));
    }
  }

  /**
   * One `for i in range(...)` loop of `describe_local_pattern`, over the
   * (left) window, or over the right one when `second`; `hd`/`td` count
   * the letters the lower- and upper-case generators have handed out, and
   * come back updated. The loop does what `Scan` describes.
   */
  method ScanWindow(prot: Protein, lay: Layout, L: array<string>, R: array<string>,
                    second: bool, hd0: nat, td0: nat, ghost lab0: Labels)
    returns (r: Result<(nat, nat)>, ghost lab: Labels)
    requires OneBondPerIndex(prot.vertices)
    requires L != R && Fits(lay, L[..], R[..])
    modifies L, R
    ensures Agrees(r, Scan(prot.vertices, lay, ScanState(old(L[..]), old(R[..]), lab0, hd0, td0), ScanFrom(lay, second), second),
                   L[..], R[..], lab)
  {
    ghost var vs := prot.vertices;
    ghost var whole := Scan(vs, lay, ScanState(L[..], R[..], lab0, hd0, td0), ScanFrom(lay, second), second);
    var lo, hi := ScanFrom(lay, second), ScanTo(lay, second);
    var hd, td := hd0, td0;
    lab := lab0;
    var i := lo;
    while i <= hi
      invariant lo <= i && (i <= hi + 1 || i == lo)
      invariant Fits(lay, L[..], R[..])
      invariant Scan(vs, lay, ScanState(L[..], R[..], lab, hd, td), i, second) == whole
      decreases hi - i
    {
      ghost var st := ScanState(L[..], R[..], lab, hd, td);
      var step;
      step, lab := ScanAt(prot, lay, L, R, i, second, hd, td, lab);
      if step.Failure? {
        return step, lab;
      }
      hd, td := step.value.0, step.value.1;
      i := i + 1;
    }
    r := Success((hd, td));
  }

  /** The loop giving every slot still `None` its atom's isolated letter. */
  method FillIsolated(s: array<string>, lo: int)
    modifies s
    ensures s[..] == Filled(old(s[..]), lo)
  {
    ghost var s0 := s[..];
    var i := 0;
    while i < s.Length
      invariant 0 <= i <= s.Length
      invariant forall k :: 0 <= k < i ==> s[k] == Filled(s0, lo)[k]
      invariant forall k :: i <= k < s.Length ==> s[k] == s0[k]
    {
      if s[i] == "" {
        s[i] := IsolatedSlot(lo + i);
      }
      i := i + 1;
    }
  }

  /**
   * What `describe_local_pattern` returns: a negative window size makes
   * the lists empty, so the first assignment raises IndexError; otherwise
   * the scans, the isolated letters and `normalized_toptype`.
   */
  function LocalPattern(cfg: Config, vs: map<int, BondRef>, b: BondRef): Result<string> {
    if cfg.windowSize < 0 then Failure(AssignIndexError)
    else
      var lay := Windowed(cfg.windowSize, b);
      var s := LocalScan(cfg.windowSize, vs, b);
      if s.Failure? then Failure(s.error)
      else Normalize.TopType(cfg, CentralLetter(b), Filled(s.value.A, lay.lo0), lay.lo0,
                             if lay.two then Some(Filled(s.value.B, lay.lo1)) else None, lay.lo1)
  }

  /** The lists of `None` for the windows, with the central string at both focal atoms. */
  method NewWindows(w: int, b: BondRef) returns (L: array<string>, R: array<string>)
    requires w >= 0
    ensures fresh(L) && fresh(R) && L != R
    ensures (L[..], R[..]) == (Initial(w, b).A, Initial(w, b).B)
  {
    var left, right := Lesser(b.Donor(), b.Accptr()), Greater(b.Donor(), b.Accptr());
    var lay := Windows(w, left, right);
    var centralStr := [CentralLetter(b)] + (if b.IsTwisted() then [Twist] else []);
    L := new string[lay.hi0 - lay.lo0 + 1](_ => "");
    R := new string[if lay.two then lay.hi1 - lay.lo1 + 1 else 0](_ => "");
    assert L[..] == seq(L.Length, _ => "") && R[..] == seq(R.Length, _ => "");
    Put(lay, L, R, left, centralStr);
    Put(lay, L, R, right, centralStr);
  }

  /** `describe_local_pattern(prot, bond)`, on arrays as the source has its lists. */
  method DescribeLocalPattern(cfg: Config, prot: Protein, b: BondRef) returns (r: Result<string>)
    requires prot.Valid()
    ensures r == LocalPattern(cfg, prot.vertices, b)
  {
    var donor, accptr := b.Donor(), b.Accptr();
    var left := Lesser(donor, accptr);
    var right := Greater(donor, accptr);
    var w := cfg.windowSize;
    // `central_char`: the first letter of the generator of the bond's kind.
    var hd: nat, td: nat := if b.HBond? then 1 else 0, if b.TBond? then 1 else 0;
    var central := CentralLetter(b);
    var lay := Windows(w, left, right);
    if w < 0 {
      // `[None] * (2 * window_size + 1)` is empty.
      return Failure(AssignIndexError);
    }
    var L, R := NewWindows(w, b);
    assert ScanState(L[..], R[..], map[], hd, td) == Initial(w, b);
    var s, lab := ScanWindow(prot, lay, L, R, false, hd, td, map[]);
    if s.Failure? {
      return Failure(s.error);
    }
    if lay.two {
      hd, td := s.value.0, s.value.1;
      s, lab := ScanWindow(prot, lay, L, R, true, hd, td, lab);
      if s.Failure? {
        return Failure(s.error);
      }
    }
    FillIsolated(L, lay.lo0);
    FillIsolated(R, lay.lo1);
    r := Normalize.NormalizedTopType(cfg, central, L, lay.lo0, if lay.two then R else null, lay.lo1);
  }
}

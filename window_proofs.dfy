/**
 * The loop of `describe_pattern_window` keeps `WinInv`: every slot it has
 * written already holds its final string (or a C-alpha `X` that the later
 * end of its bond will overwrite), and each drawn letter marks the two ends
 * of one bond. At the end every slot is `Settled`.
 */
module WindowProofs {
  import opened Wrappers
  import opened Bonds
  import opened LocalConfig
  import opened WindowSlots

  /** The far end of a bond of the map carries the same bond, and its far end is back where we started. */
  lemma PartnerBack(vs: map<int, BondRef>, base: int, k: int)
    requires OneBondPerIndex(vs) && base + k in vs
    ensures base + Partner(vs, base, k) in vs && vs[base + Partner(vs, base, k)] == vs[base + k]
    ensures Partner(vs, base, Partner(vs, base, k)) == k && Partner(vs, base, k) != k
  {
    var x := base + k;
    assert vs[x].IsEnd(x) && vs[x].Donor() != vs[x].Accptr();
  }

  /** Whether slot `k` is settled or pending depends only on it and its partner's slot. */
  lemma SettledFrame(vs: map<int, BondRef>, base: int, s: seq<string>, s2: seq<string>, k: int)
    requires |s2| == |s| && 0 <= k < |s| && s2[k] == s[k]
    requires LocalAt(vs, base, |s|, k) ==> s2[Partner(vs, base, k)] == s[Partner(vs, base, k)]
    ensures Settled(vs, base, s2, k) == Settled(vs, base, s, k)
    ensures Pending(vs, base, s2, k) == Pending(vs, base, s, k)
  {
  }

  /** The loop starts with the invariant. */
  lemma StartInv(vs: map<int, BondRef>, base: int, size: nat)
    ensures WinInv(vs, base, Blank(size), 0)
  {
  }

  /** A slot with a bond inside the window that is not held by a letter has its partner's slot not yet lettered either. */
  lemma UnletteredPartner(vs: map<int, BondRef>, base: int, st: WinState, i: int, k: int)
    requires OneBondPerIndex(vs) && WinInv(vs, base, st, i)
    requires 0 <= k < |st.s| && LocalAt(vs, base, |st.s|, k) && !IsLetterSlot(st.s[k])
    requires !(CAlpha(k) && CAlpha(Partner(vs, base, k)))
    ensures !IsLetterSlot(st.s[Partner(vs, base, k)])
  {
    var y := Partner(vs, base, k);
    PartnerBack(vs, base, k);
    assert st.s[y] != "" ==> Settled(vs, base, st.s, y) || Pending(vs, base, st.s, y);
  }

  lemma StepSkip(vs: map<int, BondRef>, base: int, st: WinState, i: nat)
    requires WinInv(vs, base, st, i) && i < |st.s| && st.s[i] != ""
    ensures WinStep(vs, base, st, i) == Success(st) && WinInv(vs, base, st, i + 1)
  {
  }

  /** Writing a non-letter slot at `i` whose partner, if any, has no letter. */
  lemma PlainWrite(vs: map<int, BondRef>, base: int, st: WinState, i: nat, x: string)
    requires OneBondPerIndex(vs) && WinInv(vs, base, st, i) && i < |st.s| && st.s[i] == ""
    requires x != "" && !IsLetterSlot(x)
    requires Settled(vs, base, st.s[i := x], i) || Pending(vs, base, st.s[i := x], i)
    requires LocalAt(vs, base, |st.s|, i) ==> CAlpha(i)
    ensures WinInv(vs, base, WinState(st.s[i := x], st.drawn), i + 1)
  {
    var s2 := st.s[i := x];
    forall k | 0 <= k < |s2| && s2[k] != "" && k != i
      ensures Settled(vs, base, s2, k) || Pending(vs, base, s2, k)
    {
      if LocalAt(vs, base, |st.s|, k) && Partner(vs, base, k) == i {
        // Then `i` is a C-alpha slot, still empty: `k` is neither lettered nor pending.
        PartnerBack(vs, base, k);
        assert !Pending(vs, base, st.s, k);
      } else {
        SettledFrame(vs, base, st.s, s2, k);
      }
    }
    assert LettersPaired(vs, base, s2) by {
      forall a, c | 0 <= a < |s2| && 0 <= c < |s2| && IsLetterSlot(s2[a]) && s2[c] == s2[a]
        ensures c == a || (base + a in vs && c == Partner(vs, base, a))
      {
        assert a != i && c != i;
        assert st.s[a] == s2[a] && st.s[c] == s2[c];
      }
    }
  }

  lemma StepCAlpha(vs: map<int, BondRef>, base: int, st: WinState, i: nat)
    requires OneBondPerIndex(vs) && WinInv(vs, base, st, i) && i < |st.s| && st.s[i] == "" && CAlpha(i)
    ensures WinStep(vs, base, st, i) == Success(WinState(st.s[i := [IsolatedC]], st.drawn))
    ensures WinInv(vs, base, WinState(st.s[i := [IsolatedC]], st.drawn), i + 1)
  {
    var s2 := st.s[i := [IsolatedC]];
    if LocalAt(vs, base, |st.s|, i) && !CAlpha(Partner(vs, base, i)) {
      var y := Partner(vs, base, i);
      PartnerBack(vs, base, i);
      assert st.s[y] == "" by {
        assert st.s[y] != "" ==> Settled(vs, base, st.s, y) || Pending(vs, base, st.s, y);
      }
      assert Pending(vs, base, s2, i);
    } else if base + i in vs && !LocalAt(vs, base, |st.s|, i) {
      assert Settled(vs, base, s2, i);
    }
    PlainWrite(vs, base, st, i, [IsolatedC]);
  }

  lemma StepIsolated(vs: map<int, BondRef>, base: int, st: WinState, i: nat)
    requires OneBondPerIndex(vs) && WinInv(vs, base, st, i) && i < |st.s| && st.s[i] == ""
    requires !CAlpha(i) && base + i !in vs
    ensures WinStep(vs, base, st, i) == Success(WinState(st.s[i := IsolatedSlot(i)], st.drawn))
    ensures WinInv(vs, base, WinState(st.s[i := IsolatedSlot(i)], st.drawn), i + 1)
  {
    PlainWrite(vs, base, st, i, IsolatedSlot(i));
  }

  lemma StepFar(vs: map<int, BondRef>, base: int, st: WinState, i: nat)
    requires OneBondPerIndex(vs) && WinInv(vs, base, st, i) && i < |st.s| && st.s[i] == ""
    requires !CAlpha(i) && base + i in vs && !LocalAt(vs, base, |st.s|, i)
    ensures WinStep(vs, base, st, i) == Success(WinState(st.s[i := FarSlot(vs, base, i)], st.drawn))
    ensures WinInv(vs, base, WinState(st.s[i := FarSlot(vs, base, i)], st.drawn), i + 1)
  {
    PlainWrite(vs, base, st, i, FarSlot(vs, base, i));
  }

  /** Two slots other than the ends of the bond at `i` have partners other than those ends. */
  lemma PartnerAvoids(vs: map<int, BondRef>, base: int, i: int, k: int)
    requires OneBondPerIndex(vs) && base + i in vs && base + k in vs
    requires k != i && k != Partner(vs, base, i)
    ensures Partner(vs, base, k) != i && Partner(vs, base, k) != Partner(vs, base, i)
  {
    PartnerBack(vs, base, i);
    PartnerBack(vs, base, k);
  }

  /** A bond inside the window: the next letter goes to both of its ends. */
  lemma StepLocal(vs: map<int, BondRef>, base: int, st: WinState, i: nat)
    requires OneBondPerIndex(vs) && WinInv(vs, base, st, i) && i < |st.s| && st.s[i] == ""
    requires !CAlpha(i) && LocalAt(vs, base, |st.s|, i) && st.drawn < 26
    ensures var l := [Letter(false, st.drawn)];
      WinStep(vs, base, st, i) == Success(WinState(st.s[i := l][Partner(vs, base, i) := l], st.drawn + 1))
    ensures var l := [Letter(false, st.drawn)];
      WinInv(vs, base, WinState(st.s[i := l][Partner(vs, base, i) := l], st.drawn + 1), i + 1)
  {
    var l := [Letter(false, st.drawn)];
    var y := Partner(vs, base, i);
    var s2 := st.s[i := l][y := l];
    PartnerBack(vs, base, i);
    UnletteredPartner(vs, base, st, i, i);
    assert LetterIndex(l) == st.drawn;
    assert Settled(vs, base, s2, i) && Settled(vs, base, s2, y);
    forall k | 0 <= k < |s2| && s2[k] != "" && k != i && k != y
      ensures Settled(vs, base, s2, k) || Pending(vs, base, s2, k)
    {
      if base + k in vs {
        PartnerAvoids(vs, base, i, k);
      }
      SettledFrame(vs, base, st.s, s2, k);
    }
    assert LettersPaired(vs, base, s2) by {
      forall a, c | 0 <= a < |s2| && 0 <= c < |s2| && IsLetterSlot(s2[a]) && s2[c] == s2[a]
        ensures c == a || (base + a in vs && c == Partner(vs, base, a))
      {
        if s2[a] == l {
          assert a == i || a == y;
          assert c == i || c == y;
        } else {
          assert a != i && a != y && c != i && c != y;
          assert st.s[a] == s2[a] && st.s[c] == s2[c];
        }
      }
    }
  }

  /** One iteration keeps the invariant, and can only fail for want of letters. */
  lemma WinStepKeeps(vs: map<int, BondRef>, base: int, st: WinState, i: nat)
    requires OneBondPerIndex(vs) && WinInv(vs, base, st, i) && i < |st.s|
    ensures var r := WinStep(vs, base, st, i);
      && (r.Failure? ==> r.error == StopIteration)
      && (r.Success? ==> WinInv(vs, base, r.value, i + 1))
  {
    if st.s[i] != "" {
      StepSkip(vs, base, st, i);
    } else if CAlpha(i) {
      StepCAlpha(vs, base, st, i);
    } else if base + i !in vs {
      StepIsolated(vs, base, st, i);
    } else if LocalAt(vs, base, |st.s|, i) {
      if st.drawn < 26 {
        StepLocal(vs, base, st, i);
      } else {
        assert WinStep(vs, base, st, i) == Failure(StopIteration);
      }
    } else {
      StepFar(vs, base, st, i);
    }
  }

  lemma {:induction false} WinScanKeeps(vs: map<int, BondRef>, base: int, st: WinState, i: nat)
    requires OneBondPerIndex(vs) && WinInv(vs, base, st, i)
    ensures var r := WinScan(vs, base, st, i);
      && (r.Failure? ==> r.error == StopIteration)
      && (r.Success? ==> WinInv(vs, base, r.value, |st.s|))
    decreases |st.s| - i
  {
    if i < |st.s| {
      WinStepKeeps(vs, base, st, i);
      var r := WinStep(vs, base, st, i);
      if r.Success? {
        WinScanKeeps(vs, base, r.value, i + 1);
      }
    }
  }

  /**
   * The loop over a window of `size` slots fails only with StopIteration;
   * otherwise every slot is written and settled, and each letter marks the
   * two ends of one bond of the window.
   */
  lemma WindowLabelled(vs: map<int, BondRef>, base: int, size: nat)
    requires OneBondPerIndex(vs)
    ensures var r := WinScan(vs, base, Blank(size), 0);
      && (r.Failure? ==> r.error == StopIteration)
      && (r.Success? ==> && |r.value.s| == size
                         && (forall k :: 0 <= k < size ==> r.value.s[k] != "" && Settled(vs, base, r.value.s, k))
                         && LettersPaired(vs, base, r.value.s))
  {
    StartInv(vs, base, size);
    WinScanKeeps(vs, base, Blank(size), 0);
    var r := WinScan(vs, base, Blank(size), 0);
    if r.Success? {
      forall k | 0 <= k < size ensures Settled(vs, base, r.value.s, k) {
        if LocalAt(vs, base, size, k) {
          assert r.value.s[Partner(vs, base, k)] != "";
        }
      }
    }
  }
}

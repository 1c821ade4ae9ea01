/**
 * The slot labelling of `describe_pattern_window` (find_local_patterns.py)
 * as pure definitions: one loop over the `3 * length` atoms of a window of
 * residues gives each atom a slot, and once the loop is done every slot
 * says whether its atom is bonded, and to what. Slot `k` is protein atom
 * `base + k`; a slot the source still holds as `None` is the empty string.
 */
module WindowSlots {
  import opened Wrappers
  import opened Bonds
  import opened LocalConfig

  /** The slot list and the number of letters the generator has handed out. */
  datatype WinState = WinState(s: seq<string>, drawn: nat)

  /** `[None] * size` with no letter drawn yet. */
  function Blank(size: nat): (st: WinState)
    ensures |st.s| == size && st.drawn == 0
    ensures forall k :: 0 <= k < size ==> st.s[k] == ""
  {
    WinState(seq(size, _ => ""), 0)
  }

  predicate CAlpha(k: int) {
    k % 3 == 1
  }

  /** The window slot of the far end of the bond at slot `k`. */
  function Partner(vs: map<int, BondRef>, base: int, k: int): int
    requires base + k in vs
  {
    vs[base + k].Other(base + k) - base
  }

  /** The bond at slot `k` has its far end inside the window of `size` slots. */
  predicate LocalAt(vs: map<int, BondRef>, base: int, size: int, k: int) {
    base + k in vs && 0 <= Partner(vs, base, k) < size
  }

  /** `"%c%c" % (remote_char[i % 3], "+" if 3*start + i < j else "-")` */
  function FarSlot(vs: map<int, BondRef>, base: int, k: int): string
    requires base + k in vs
  {
    RemoteSlot(base + k, vs[base + k].Other(base + k))
  }

  /**
   * One iteration of the loop at slot `i`: a slot already written is
   * skipped; a C-alpha slot is `X` without a look at its bonds; an atom
   * without a bond gets its isolated letter; a bond inside the window gets
   * the next lower-case letter at both ends (StopIteration once all 26
   * are gone); any other bond gets `R+` or `R-`.
   */
  function WinStep(vs: map<int, BondRef>, base: int, st: WinState, i: nat): (r: Result<WinState>)
    requires i < |st.s|
    ensures r.Success? ==> |r.value.s| == |st.s|
  {
    if st.s[i] != "" then Success(st)
    else if CAlpha(i) then Success(WinState(st.s[i := [IsolatedC]], st.drawn))
    else if base + i !in vs then Success(WinState(st.s[i := IsolatedSlot(i)], st.drawn))
    else if LocalAt(vs, base, |st.s|, i) then
      var c := Draw(false, st.drawn);
      if c.Failure? then Failure(c.error)
      else Success(WinState(st.s[i := [c.value]][Partner(vs, base, i) := [c.value]], st.drawn + 1))
    else Success(WinState(st.s[i := FarSlot(vs, base, i)], st.drawn))
  }

  /** The loop from slot `i` to the end of the window. */
  function WinScan(vs: map<int, BondRef>, base: int, st: WinState, i: nat): (r: Result<WinState>)
    requires i <= |st.s|
    ensures r.Success? ==> |r.value.s| == |st.s|
    decreases |st.s| - i
  {
    if i == |st.s| then Success(st)
    else
      var r := WinStep(vs, base, st, i);
      if r.Failure? then r else WinScan(vs, base, r.value, i + 1)
  }

  // ----- what the slots hold -----

  /** A slot holding one letter of the lower-case generator. */
  predicate IsLetterSlot(x: string) {
    |x| == 1 && IsLower(x[0])
  }

  /** The draw number of a letter slot. */
  function LetterIndex(x: string): int
    requires |x| == 1
  {
    x[0] as int - 'a' as int
  }

  /**
   * The final slot `k`: an atom without a bond has its isolated letter; a
   * C-alpha atom is `X` unless its bond reaches a non-C-alpha atom of the
   * window; a bond leaving the window is `R+`/`R-`; a bond inside it shows
   * the same letter at both ends.
   */
  ghost predicate Settled(vs: map<int, BondRef>, base: int, s: seq<string>, k: int)
    requires 0 <= k < |s|
  {
    if base + k !in vs then s[k] == IsolatedSlot(k)
    else if !LocalAt(vs, base, |s|, k) then s[k] == if CAlpha(k) then [IsolatedC] else FarSlot(vs, base, k)
    else if CAlpha(k) && CAlpha(Partner(vs, base, k)) then s[k] == [IsolatedC]
    else IsLetterSlot(s[k]) && s[Partner(vs, base, k)] == s[k]
  }

  /** A C-alpha slot given its `X` before the later end of its bond writes the bond's letter over it. */
  ghost predicate Pending(vs: map<int, BondRef>, base: int, s: seq<string>, k: int)
    requires 0 <= k < |s|
  {
    && CAlpha(k) && s[k] == [IsolatedC] && LocalAt(vs, base, |s|, k)
    && !CAlpha(Partner(vs, base, k)) && s[Partner(vs, base, k)] == ""
  }

  /** A letter appears at the two ends of one bond and nowhere else. */
  ghost predicate LettersPaired(vs: map<int, BondRef>, base: int, s: seq<string>) {
    forall a, c {:trigger s[a], s[c]} :: 0 <= a < |s| && 0 <= c < |s| && IsLetterSlot(s[a]) && s[c] == s[a] ==>
      c == a || (base + a in vs && c == Partner(vs, base, a))
  }

  /** The invariant of the loop with every slot before `i` processed. */
  ghost predicate WinInv(vs: map<int, BondRef>, base: int, st: WinState, i: int) {
    && 0 <= i <= |st.s| && st.drawn <= 26
    && (forall k :: 0 <= k < i ==> st.s[k] != "")
    && (forall k :: 0 <= k < |st.s| && st.s[k] != "" ==> Settled(vs, base, st.s, k) || Pending(vs, base, st.s, k))
    && (forall k :: 0 <= k < |st.s| && IsLetterSlot(st.s[k]) ==> LetterIndex(st.s[k]) < st.drawn)
    && LettersPaired(vs, base, st.s)
  }
}

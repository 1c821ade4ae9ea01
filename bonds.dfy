/**
 * The bonds of the backbone graph (cdp.py, classes Hbond and Tbond and the
 * vertex map of Protein): atom indices, the one bond attached at each index,
 * and the invariant that every insertion keeps.
 *
 * Atom index convention: residue r owns the atoms 3r (N), 3r+1 (C-alpha)
 * and 3r+2 (the carbonyl C, written "O" in the source).
 */
module Bonds {
  import opened Wrappers
  import Text

  /** `mod3_to_atom`: the kind of backbone atom at an index. */
  datatype Atom = N | Ca | O

  function AtomOf(idx: int): (a: Atom)
    ensures a == N <==> idx % 3 == 0
    ensures a == Ca <==> idx % 3 == 1
    ensures a == O <==> idx % 3 == 2
  {
    if idx % 3 == 0 then N else if idx % 3 == 1 then Ca else O
  }

  /** `atom_to_mod3`. */
  function AtomMod3(a: Atom): (m: nat)
    ensures m < 3
    ensures AtomOf(m) == a
  {
    match a
    case N => 0
    case Ca => 1
    case O => 2
  }

  /** The H-bond loader's donor column to atom index (`src_fn`). */
  function DonorIndex(residue: int): (idx: int)
    ensures AtomOf(idx) == N && idx / 3 == residue
  {
    3 * residue
  }

  /** The H-bond loader's acceptor column to atom index (`dst_fn`). */
  function AcceptorIndex(residue: int): (idx: int)
    ensures AtomOf(idx) == O && idx / 3 == residue
  {
    3 * residue + 2
  }

  /** The T-bond loader's residue column to atom index (`atom_fn`). */
  function CalphaIndex(residue: int): (idx: int)
    ensures AtomOf(idx) == Ca && idx / 3 == residue
  {
    3 * residue + 1
  }

  /**
   * `Hbond.length_class`: "L" for a bond length of 7 or more in absolute
   * value, otherwise the length itself, printed.
   */
  function LengthClass(length: int): (r: string)
    ensures r == "L" <==> (length >= 7 || length <= -7)
    ensures r != "L" ==> Text.ParseInt(r) == Some(length)
  {
    if length >= 7 || length <= -7 then "L"
    else
      Text.ParseIntToString(length);
      Text.IntToString(length)
  }

  /** A hydrogen bond from a donor atom to an acceptor atom. */
  class Hbond {
    const linenumber: int
    const donor: int
    const accptr: int
    const length: int
    const cluster: Option<string>
    const flags: Option<string>
    const residues: string
    /** `is_twisted()`: the rotation matrix's entry (2, 2) is negative; false without a matrix. */
    const twisted: bool
    var colors: seq<string>

    constructor (linenumber: int, donor: int, accptr: int, length: int, cluster: Option<string>,
                 flags: Option<string>, residues: Option<string>, twisted: bool)
      ensures this.linenumber == linenumber && this.donor == donor && this.accptr == accptr
      ensures this.length == length && this.cluster == cluster && this.flags == flags
      ensures this.residues == (if residues.Some? then residues.value else "XXXX")
      ensures this.twisted == twisted && colors == []
    {
      this.linenumber := linenumber;
      this.donor := donor;
      this.accptr := accptr;
      this.length := length;
      this.cluster := cluster;
      this.flags := flags;
      this.residues := if residues.Some? then residues.value else "XXXX";
      this.twisted := twisted;
      colors := [];
    }

    method AddColor(s: string)
      modifies this`colors
      ensures colors == old(colors) + [s]
    {
      colors := colors + [s];
    }

    /** `nature_cluster`: the cluster label, or "?" when unknown. */
    function NatureCluster(): (r: string)
      ensures cluster.None? ==> r == "?"
      ensures cluster.Some? ==> r == cluster.value
    {
      if cluster.Some? then cluster.value else "?"
    }
  }

  /** A tertiary interaction between two C-alpha atoms, stored with left <= right. */
  class Tbond {
    const linenumber: int
    const left: int
    const right: int
    const dVdw: Option<int>

    constructor (linenumber: int, i: int, j: int, dVdw: Option<int>)
      ensures this.linenumber == linenumber && this.dVdw == dVdw
      ensures left <= right
      ensures (left == i && right == j) || (left == j && right == i)
    {
      this.linenumber := linenumber;
      this.left := if i > j then j else i;
      this.right := if i > j then i else j;
      this.dVdw := dVdw;
    }
  }

  /**
   * What `Protein.vertices` maps an index to: an Hbond or a Tbond object.
   * Equality of two BondRefs is identity of the objects they hold.
   */
  datatype BondRef = HBond(h: Hbond) | TBond(t: Tbond) {
    /** `bond.donor`; for a Tbond the left end. */
    function Donor(): int {
      if HBond? then h.donor else t.left
    }

    /** `bond.accptr`; for a Tbond the right end. */
    function Accptr(): int {
      if HBond? then h.accptr else t.right
    }

    function LineNumber(): int {
      if HBond? then h.linenumber else t.linenumber
    }

    /** `is_twisted()`; always false for a Tbond. */
    function IsTwisted(): bool {
      HBond? && h.twisted
    }

    predicate IsEnd(idx: int) {
      idx == Donor() || idx == Accptr()
    }

    /**
     * `other_end(idx)`: the opposite end of the bond, and the exception
     * (None) for an index that is not an end.
     */
    function OtherEnd(idx: int): (r: Option<int>)
      ensures r.Some? <==> IsEnd(idx)
      ensures r.Some? ==> IsEnd(r.value)
      ensures r.Some? && Donor() != Accptr() ==> r.value != idx
    {
      if idx == Donor() then Some(Accptr())
      else if idx == Accptr() then Some(Donor())
      else None
    }

    /** The opposite end, for an index known to be an end. */
    function Other(idx: int): int {
      if idx == Donor() then Accptr() else Donor()
    }
  }

  /** `other_end` swaps the two ends of a bond. */
  lemma OtherEndSwaps(b: BondRef, idx: int)
    requires b.IsEnd(idx) && b.Donor() != b.Accptr()
    ensures b.OtherEnd(idx) == Some(b.Other(idx))
    ensures b.OtherEnd(b.Other(idx)) == Some(idx)
  {
  }

  /**
   * The invariant of `Protein.vertices`: every index is an end of the one
   * bond stored there, the bond is not a loop, and its other end holds the
   * very same bond.
   */
  ghost predicate OneBondPerIndex(vs: map<int, BondRef>) {
    forall i :: i in vs ==>
      && vs[i].IsEnd(i)
      && vs[i].Donor() != vs[i].Accptr()
      && vs[i].Donor() in vs && vs[vs[i].Donor()] == vs[i]
      && vs[i].Accptr() in vs && vs[vs[i].Accptr()] == vs[i]
  }

  /** The insertion rule of `add_Hbond`/`add_tert`: both ends free and distinct. */
  predicate Admits(occupied: set<int>, i: int, j: int) {
    i !in occupied && j !in occupied && i != j
  }

  /** Every index lies within the recorded bounds. */
  ghost predicate Bounded(vs: map<int, BondRef>, lo: int, hi: int) {
    forall i :: i in vs ==> lo <= i <= hi
  }

  /**
   * The bond lists hold exactly the bonds of the vertex map, each once,
   * every listed bond attached at its donor (left) end.
   */
  ghost predicate Listed(vs: map<int, BondRef>, hbonds: seq<Hbond>, tbonds: seq<Tbond>) {
    && (forall h :: h in hbonds ==> h.donor in vs && vs[h.donor] == HBond(h))
    && (forall t :: t in tbonds ==> t.left in vs && vs[t.left] == TBond(t))
    && (forall i :: i in vs && vs[i].HBond? ==> vs[i].h in hbonds)
    && (forall i :: i in vs && vs[i].TBond? ==> vs[i].t in tbonds)
    && (forall h :: h in hbonds ==> multiset(hbonds)[h] == 1)
    && (forall t :: t in tbonds ==> multiset(tbonds)[t] == 1)
  }

  /** `vs'` keeps every entry of `vs`. */
  ghost predicate Extends(vs': map<int, BondRef>, vs: map<int, BondRef>) {
    forall x :: x in vs ==> x in vs' && vs'[x] == vs[x]
  }

  /** Attaching a new bond at two free, distinct indices keeps the vertex invariant. */
  lemma InsertKeepsOneBond(vs: map<int, BondRef>, b: BondRef, i: int, j: int)
    requires OneBondPerIndex(vs) && Admits(vs.Keys, i, j)
    requires (b.Donor() == i && b.Accptr() == j) || (b.Donor() == j && b.Accptr() == i)
    ensures OneBondPerIndex(vs[i := b][j := b]) && Extends(vs[i := b][j := b], vs)
  {
    var vs' := vs[i := b][j := b];
    forall x | x in vs' ensures vs'[x].IsEnd(x) && vs'[x].Donor() != vs'[x].Accptr()
      && vs'[x].Donor() in vs' && vs'[vs'[x].Donor()] == vs'[x]
      && vs'[x].Accptr() in vs' && vs'[vs'[x].Accptr()] == vs'[x]
    {
      if x != i && x != j {
        assert vs'[x] == vs[x];
        assert vs[x].Donor() in vs && vs[x].Accptr() in vs;
      }
    }
  }

  lemma InsertKeepsBounded(vs: map<int, BondRef>, lo: int, hi: int, b: BondRef, i: int, j: int)
    requires Bounded(vs, lo, hi)
    ensures Bounded(vs[i := b][j := b], Min3(i, j, lo), Max3(i, j, hi))
  {
  }

  lemma InsertHbondKeepsListed(vs: map<int, BondRef>, hbonds: seq<Hbond>, tbonds: seq<Tbond>,
                               h: Hbond, i: int, j: int)
    requires Listed(vs, hbonds, tbonds) && i !in vs && j !in vs
    requires h.donor == i && h !in hbonds
    ensures Listed(vs[i := HBond(h)][j := HBond(h)], hbonds + [h], tbonds)
  {
    var vs' := vs[i := HBond(h)][j := HBond(h)];
    var hb' := hbonds + [h];
    forall g | g in hb' ensures g.donor in vs' && vs'[g.donor] == HBond(g) && multiset(hb')[g] == 1 {
      if g != h {
        assert g in hbonds;
      }
    }
    forall x | x in vs' && vs'[x].HBond? ensures vs'[x].h in hb' {
      if x != i && x != j {
        assert vs'[x] == vs[x];
      }
    }
  }

  lemma InsertTbondKeepsListed(vs: map<int, BondRef>, hbonds: seq<Hbond>, tbonds: seq<Tbond>,
                               t: Tbond, i: int, j: int)
    requires Listed(vs, hbonds, tbonds) && i !in vs && j !in vs
    requires (t.left == i || t.left == j) && t !in tbonds
    ensures Listed(vs[i := TBond(t)][j := TBond(t)], hbonds, tbonds + [t])
  {
    var vs' := vs[i := TBond(t)][j := TBond(t)];
    var tb' := tbonds + [t];
    forall u | u in tb' ensures u.left in vs' && vs'[u.left] == TBond(u) && multiset(tb')[u] == 1 {
      if u != t {
        assert u in tbonds;
      }
    }
    forall x | x in vs' && vs'[x].TBond? ensures vs'[x].t in tb' {
      if x != i && x != j {
        assert vs'[x] == vs[x];
      }
    }
  }

  /** The invariant of a protein's bond state. */
  ghost predicate ValidState(vs: map<int, BondRef>, lo: int, hi: int, hbonds: seq<Hbond>, tbonds: seq<Tbond>) {
    OneBondPerIndex(vs) && Bounded(vs, lo, hi) && Listed(vs, hbonds, tbonds)
  }

  /** `add_Hbond`'s success path keeps the invariant. */
  lemma InsertHbondValid(vs: map<int, BondRef>, lo: int, hi: int, hbonds: seq<Hbond>, tbonds: seq<Tbond>,
                         h: Hbond, i: int, j: int)
    requires ValidState(vs, lo, hi, hbonds, tbonds) && Admits(vs.Keys, i, j)
    requires h.donor == i && h.accptr == j && h !in hbonds
    ensures ValidState(vs[i := HBond(h)][j := HBond(h)], Min3(i, j, lo), Max3(i, j, hi), hbonds + [h], tbonds)
  {
    InsertKeepsOneBond(vs, HBond(h), i, j);
    InsertHbondKeepsListed(vs, hbonds, tbonds, h, i, j);
    InsertKeepsBounded(vs, lo, hi, HBond(h), i, j);
  }

  /** `add_tert`'s success path keeps the invariant. */
  lemma InsertTbondValid(vs: map<int, BondRef>, lo: int, hi: int, hbonds: seq<Hbond>, tbonds: seq<Tbond>,
                         t: Tbond, i: int, j: int)
    requires ValidState(vs, lo, hi, hbonds, tbonds) && Admits(vs.Keys, i, j)
    requires ((t.left == i && t.right == j) || (t.left == j && t.right == i)) && t !in tbonds
    ensures ValidState(vs[i := TBond(t)][j := TBond(t)], Min3(i, j, lo), Max3(i, j, hi), hbonds, tbonds + [t])
  {
    InsertKeepsOneBond(vs, TBond(t), i, j);
    InsertTbondKeepsListed(vs, hbonds, tbonds, t, i, j);
    InsertKeepsBounded(vs, lo, hi, TBond(t), i, j);
  }

  /** Reordering the bond lists (as the loaders' final sorts do) keeps them listed. */
  lemma ReorderKeepsListed(vs: map<int, BondRef>, hbonds: seq<Hbond>, tbonds: seq<Tbond>,
                           hbonds': seq<Hbond>, tbonds': seq<Tbond>)
    requires Listed(vs, hbonds, tbonds)
    requires multiset(hbonds') == multiset(hbonds) && multiset(tbonds') == multiset(tbonds)
    ensures Listed(vs, hbonds', tbonds')
  {
    forall h | h in hbonds' ensures h in hbonds {
      assert h in multiset(hbonds');
    }
    forall h | h in hbonds ensures h in hbonds' {
      assert h in multiset(hbonds);
    }
    forall t | t in tbonds' ensures t in tbonds {
      assert t in multiset(tbonds');
    }
    forall t | t in tbonds ensures t in tbonds' {
      assert t in multiset(tbonds);
    }
  }

  function Min3(a: int, b: int, c: int): (m: int)
    ensures m <= a && m <= b && m <= c && (m == a || m == b || m == c)
  {
    if a <= b && a <= c then a else if b <= c then b else c
  }

  function Max3(a: int, b: int, c: int): (m: int)
    ensures m >= a && m >= b && m >= c && (m == a || m == b || m == c)
  {
    if a >= b && a >= c then a else if b >= c then b else c
  }

}

/**
 * One protein (cdp.py, class Protein): the residue and secondary-structure
 * tables, the checked insertion of bonds, and the first-wins loaders.
 */
module Proteins {
  import opened Wrappers
  import opened Sorting
  import opened Bonds

  /** `add_residue`'s normalisation: "?" becomes "X", anything outside "@".."Z" becomes "@". */
  function NormalizeResidue(r: char): (c: char)
    ensures '@' <= c <= 'Z'
    ensures r == '?' ==> c == 'X'
    ensures r != '?' && '@' <= r <= 'Z' ==> c == r
  {
    var r := if r == '?' then 'X' else r;
    if '@' <= r <= 'Z' then r else '@'
  }

  /** `add_residue`'s update of the residue table, whose rules `MergeResidueRules` states. */
  function MergeResidue(res: map<int, char>, idx: int, r: char): (m: map<int, char>)
    ensures ResidueLetters(res) ==> ResidueLetters(m)
  {
    var c := NormalizeResidue(r);
    if idx !in res then res[idx := c]
    else if res[idx] == c then res
    else if (res[idx] == '@' || res[idx] == 'X') && c != '@' then res[idx := c]
    else res
  }

  /**
   * `add_residue`'s merge rules: a new index takes the letter; an unknown
   * letter ("@" or "X") is overwritten by anything but "@"; a known letter
   * is never replaced (the conflict is only reported); a letter that
   * normalises to "@" never replaces a recorded one; no other entry moves.
   */
  lemma MergeResidueRules(res: map<int, char>, idx: int, r: char)
    ensures var m := MergeResidue(res, idx, r);
      && m.Keys == res.Keys + {idx}
      && (forall k :: k in res && k != idx ==> m[k] == res[k])
      && (idx !in res ==> m[idx] == NormalizeResidue(r))
      && (idx in res && res[idx] != '@' && res[idx] != 'X' ==> m[idx] == res[idx])
      && (idx in res && (res[idx] == '@' || res[idx] == 'X') && NormalizeResidue(r) != '@' ==>
            m[idx] == NormalizeResidue(r))
      && (idx in res && NormalizeResidue(r) == '@' ==> m[idx] == res[idx])
  {
  }

  /** Every recorded residue letter lies in "@".."Z". */
  predicate ResidueLetters(res: map<int, char>) {
    forall k :: k in res ==> '@' <= res[k] <= 'Z'
  }

  /** Merging the same letter twice changes nothing the second time. */
  lemma MergeResidueIdempotent(res: map<int, char>, idx: int, r: char)
    ensures MergeResidue(MergeResidue(res, idx, r), idx, r) == MergeResidue(res, idx, r)
  {
  }

  /** The four residue letters `add_Hbond` records around the donor N and acceptor O. */
  /** `add_residue` applied to each (residue, letter) pair in turn. */
  function MergeAll(res: map<int, char>, updates: seq<(int, char)>): (m: map<int, char>)
    decreases |updates|
    ensures ResidueLetters(res) ==> ResidueLetters(m)
  {
    if updates == [] then res else MergeAll(MergeResidue(res, updates[0].0, updates[0].1), updates[1..])
  }

  /**
   * The residues `add_Hbond` records with its four letters: the one before
   * and the one holding the donor N, the one holding and the one after the
   * acceptor O.
   */
  function HbondUpdates(i: int, j: int, letters: string): seq<(int, char)>
    requires |letters| >= 4
  {
    [((i - 2) / 3, letters[0]), ((i + 1) / 3, letters[1]), ((j - 1) / 3, letters[2]), ((j + 2) / 3, letters[3])]
  }

  function HbondResidues(res: map<int, char>, i: int, j: int, letters: string): map<int, char>
    requires |letters| >= 4
  {
    MergeAll(res, HbondUpdates(i, j, letters))
  }

  /** `add_ssclass_annotation`'s normalisation: "?" and "*" become "-". */
  function NormalizeSsclass(s: char): (c: char)
    ensures c != '?' && c != '*'
    ensures s != '?' && s != '*' ==> c == s
  {
    if s == '?' || s == '*' then '-' else s
  }

  /** The indices occupied after the first `k` insertion attempts of `ends`, first wins. */
  function Occupied(occupied: set<int>, ends: seq<(int, int)>, k: nat): (r: set<int>)
    requires k <= |ends|
    ensures occupied <= r
  {
    if k == 0 then occupied
    else
      var prev := Occupied(occupied, ends, k - 1);
      if Admits(prev, ends[k - 1].0, ends[k - 1].1) then prev + {ends[k - 1].0, ends[k - 1].1}
      else prev
  }

  /** Whether the `k`-th insertion attempt is kept. */
  predicate Kept(occupied: set<int>, ends: seq<(int, int)>, k: nat)
    requires k < |ends|
  {
    Admits(Occupied(occupied, ends, k), ends[k].0, ends[k].1)
  }

  /** Exactly the given indices and the ends of kept attempts are occupied. */
  lemma {:induction false} OccupiedIsKeptEnds(occupied: set<int>, ends: seq<(int, int)>, k: nat, x: int)
    requires k <= |ends|
    ensures x in Occupied(occupied, ends, k) <==>
            x in occupied || exists m :: 0 <= m < k && Kept(occupied, ends, m) && (x == ends[m].0 || x == ends[m].1)
  {
    if k > 0 {
      OccupiedIsKeptEnds(occupied, ends, k - 1, x);
    }
  }

  /**
   * First wins: an attempt is dropped only when it is a loop or one of its
   * ends was given beforehand or belongs to an earlier kept attempt.
   */
  lemma DroppedCollides(occupied: set<int>, ends: seq<(int, int)>, k: nat)
    requires k < |ends| && !Kept(occupied, ends, k)
    ensures || ends[k].0 == ends[k].1
            || ends[k].0 in occupied || ends[k].1 in occupied
            || exists m :: 0 <= m < k && Kept(occupied, ends, m) &&
                 (ends[m].0 in {ends[k].0, ends[k].1} || ends[m].1 in {ends[k].0, ends[k].1})
  {
    OccupiedIsKeptEnds(occupied, ends, k, ends[k].0);
    OccupiedIsKeptEnds(occupied, ends, k, ends[k].1);
  }

  /** No two kept attempts share an index. */
  lemma KeptDisjoint(occupied: set<int>, ends: seq<(int, int)>, m: nat, k: nat)
    requires m < k < |ends| && Kept(occupied, ends, m) && Kept(occupied, ends, k)
    ensures ends[k].0 !in {ends[m].0, ends[m].1} && ends[k].1 !in {ends[m].0, ends[m].1}
  {
    OccupiedIsKeptEnds(occupied, ends, k, ends[k].0);
    OccupiedIsKeptEnds(occupied, ends, k, ends[k].1);
  }

  /**
   * `minidx` after the first `k` insertion attempts, starting from `lo`:
   * each kept attempt lowers it to `min(i, j, minidx)`.
   */
  function KeptMin(occupied: set<int>, ends: seq<(int, int)>, k: nat, lo: int): int
    requires k <= |ends|
  {
    if k == 0 then lo
    else
      var prev := KeptMin(occupied, ends, k - 1, lo);
      if Kept(occupied, ends, k - 1) then Min3(ends[k - 1].0, ends[k - 1].1, prev) else prev
  }

  /** `maxidx` after the first `k` insertion attempts, starting from `hi`. */
  function KeptMax(occupied: set<int>, ends: seq<(int, int)>, k: nat, hi: int): int
    requires k <= |ends|
  {
    if k == 0 then hi
    else
      var prev := KeptMax(occupied, ends, k - 1, hi);
      if Kept(occupied, ends, k - 1) then Max3(ends[k - 1].0, ends[k - 1].1, prev) else prev
  }

  /**
   * The bounds are the least and the greatest of the starting value and the
   * ends of the kept attempts.
   */
  lemma {:induction false} KeptBounds(occupied: set<int>, ends: seq<(int, int)>, k: nat, lo: int, hi: int)
    requires k <= |ends|
    ensures KeptMin(occupied, ends, k, lo) <= lo && KeptMax(occupied, ends, k, hi) >= hi
    ensures forall m :: 0 <= m < k && Kept(occupied, ends, m) ==>
      KeptMin(occupied, ends, k, lo) <= Min3(ends[m].0, ends[m].1, lo) &&
      KeptMax(occupied, ends, k, hi) >= Max3(ends[m].0, ends[m].1, hi)
    ensures KeptMin(occupied, ends, k, lo) == lo ||
      exists m :: 0 <= m < k && Kept(occupied, ends, m) && KeptMin(occupied, ends, k, lo) in {ends[m].0, ends[m].1}
    ensures KeptMax(occupied, ends, k, hi) == hi ||
      exists m :: 0 <= m < k && Kept(occupied, ends, m) && KeptMax(occupied, ends, k, hi) in {ends[m].0, ends[m].1}
  {
    if k > 0 {
      KeptBounds(occupied, ends, k - 1, lo, hi);
    }
  }

  /** A parsed line of an H-bond table (the columns `from_file` reads). */
  datatype HRow = HRow(linenumber: int, donorResidue: int, acceptorResidue: int, length: int,
                       cluster: string, energy: int, flags: string, residues: string, twisted: bool)

  /** A parsed line of a tertiary-interaction table. */
  datatype TRow = TRow(linenumber: int, leftResidue: int, rightResidue: int, flags: string, vdw: int)

  /** The regex `__[US][US]$`: intra-chain and unique or strong. */
  predicate HFlagsAccepted(flags: string) {
    |flags| >= 4 && flags[|flags| - 4] == '_' && flags[|flags| - 3] == '_'
    && (flags[|flags| - 2] == 'U' || flags[|flags| - 2] == 'S')
    && (flags[|flags| - 1] == 'U' || flags[|flags| - 1] == 'S')
  }

  /** The regex `^..__..$` on a whitespace-free field: intra-chain. */
  predicate TFlagsAccepted(flags: string) {
    |flags| == 6 && flags[2] == '_' && flags[3] == '_'
  }

  function ReplaceQuestionMarks(s: string): (r: string)
    ensures |r| == |s|
    ensures forall k :: 0 <= k < |s| ==> r[k] == (if s[k] == '?' then 'X' else s[k])
  {
    if s == [] then [] else [if s[0] == '?' then 'X' else s[0]] + ReplaceQuestionMarks(s[1..])
  }

  /** The sort keys of the loaders: energy, van der Waals distance, line number. */
  function EnergyKey(x: HRow): int { x.energy }
  function VdwKey(x: TRow): int { x.vdw }
  function HbondLineKey(h: Hbond): int { h.linenumber }
  function TbondLineKey(t: Tbond): int { t.linenumber }

  /** An H-bond row `from_file` keeps: its flags pass and it has four residue letters. */
  predicate HRowAccepted(x: HRow) {
    HFlagsAccepted(x.flags) && |x.residues| >= 4
  }

  /** A kept H-bond row as `from_file` records it, with "?" read as "X". */
  function CleanHRow(x: HRow): HRow {
    x.(residues := ReplaceQuestionMarks(x.residues))
  }

  /**
   * The H-bond rows `from_file` keeps, with their residue columns, in file order:
   * exactly the cleaned accepted rows (file order is `SelectHRowsAppend`).
   */
  function SelectHRows(rows: seq<HRow>): (r: seq<HRow>)
    ensures forall x :: x in r ==> HFlagsAccepted(x.flags) && |x.residues| >= 4
    ensures forall x :: x in r ==> exists y :: y in rows && HRowAccepted(y) && x == CleanHRow(y)
    ensures forall y :: y in rows && HRowAccepted(y) ==> CleanHRow(y) in r
    ensures |r| <= |rows|
  {
    if rows == [] then []
    else
      assert forall y :: y in rows[1..] ==> y in rows;
      if HRowAccepted(rows[0]) then [CleanHRow(rows[0])] + SelectHRows(rows[1..])
      else SelectHRows(rows[1..])
  }

  /** A T-bond row `add_tertiary_interactions` keeps: ordered ends and intra-chain flags. */
  predicate TRowAccepted(x: TRow) {
    TFlagsAccepted(x.flags) && x.leftResidue <= x.rightResidue
  }

  /**
   * The T-bond rows `add_tertiary_interactions` keeps, in file order: exactly
   * the accepted rows (file order is `SelectTRowsAppend`).
   */
  function SelectTRows(rows: seq<TRow>): (r: seq<TRow>)
    ensures forall x :: x in r ==> TFlagsAccepted(x.flags) && x.leftResidue <= x.rightResidue
    ensures forall x :: x in r ==> x in rows
    ensures forall x :: x in rows && TRowAccepted(x) ==> x in r
  {
    if rows == [] then []
    else if TFlagsAccepted(rows[0].flags) && rows[0].leftResidue <= rows[0].rightResidue then
      [rows[0]] + SelectTRows(rows[1..])
    else SelectTRows(rows[1..])
  }

  /** Selection distributes over concatenation, so the kept rows stay in file order. */
  lemma {:induction false} SelectHRowsAppend(a: seq<HRow>, b: seq<HRow>)
    ensures SelectHRows(a + b) == SelectHRows(a) + SelectHRows(b)
    ensures SelectHRows([]) == []
  {
    if a == [] {
      assert a + b == b;
    } else {
      assert (a + b)[0] == a[0];
      assert (a + b)[1..] == a[1..] + b;
      SelectHRowsAppend(a[1..], b);
    }
  }

  /** A single row is kept exactly when it is accepted. */
  lemma SelectHRowsOne(y: HRow)
    ensures SelectHRows([y]) == if HRowAccepted(y) then [CleanHRow(y)] else []
  {
    assert [y][1..] == [];
  }

  /** The same for the T-bond rows. */
  lemma {:induction false} SelectTRowsAppend(a: seq<TRow>, b: seq<TRow>)
    ensures SelectTRows(a + b) == SelectTRows(a) + SelectTRows(b)
    ensures SelectTRows([]) == []
  {
    if a == [] {
      assert a + b == b;
    } else {
      assert (a + b)[0] == a[0];
      assert (a + b)[1..] == a[1..] + b;
      SelectTRowsAppend(a[1..], b);
    }
  }

  /** A single row is kept exactly when it is accepted. */
  lemma SelectTRowsOne(y: TRow)
    ensures SelectTRows([y]) == if TRowAccepted(y) then [y] else []
  {
    assert [y][1..] == [];
  }

  /** The order in which `from_file` offers its rows: by energy, stable. */
  function HOrder(rows: seq<HRow>): seq<HRow> {
    SortByKey(SelectHRows(rows), EnergyKey)
  }

  /** Every record offered by the H-bond loader carries four residue letters. */
  lemma HOrderLetters(rows: seq<HRow>)
    ensures forall m :: 0 <= m < |HOrder(rows)| ==> |HOrder(rows)[m].residues| >= 4
  {
    var recs := HOrder(rows);
    forall m | 0 <= m < |recs| ensures |recs[m].residues| >= 4 {
      assert recs[m] in multiset(recs);
      assert recs[m] in SelectHRows(rows);
    }
  }

  /** The order in which `add_tertiary_interactions` offers its rows: by VDW distance, stable. */
  function TOrder(rows: seq<TRow>): seq<TRow> {
    SortByKey(SelectTRows(rows), VdwKey)
  }

  /** Every record offered by the T-bond loader names its residues in increasing order. */
  lemma TOrderOrdered(rows: seq<TRow>)
    ensures forall m :: 0 <= m < |TOrder(rows)| ==> TOrder(rows)[m].leftResidue <= TOrder(rows)[m].rightResidue
  {
    var recs := TOrder(rows);
    forall m | 0 <= m < |recs| ensures recs[m].leftResidue <= recs[m].rightResidue {
      assert recs[m] in multiset(recs);
      assert recs[m] in SelectTRows(rows);
    }
  }

  function HEnds(recs: seq<HRow>): (r: seq<(int, int)>)
    ensures |r| == |recs|
    ensures forall k :: 0 <= k < |recs| ==>
      r[k] == (DonorIndex(recs[k].donorResidue), AcceptorIndex(recs[k].acceptorResidue))
  {
    if recs == [] then []
    else [(DonorIndex(recs[0].donorResidue), AcceptorIndex(recs[0].acceptorResidue))] + HEnds(recs[1..])
  }

  function TEnds(recs: seq<TRow>): (r: seq<(int, int)>)
    ensures |r| == |recs|
    ensures forall k :: 0 <= k < |recs| ==>
      r[k] == (CalphaIndex(recs[k].leftResidue), CalphaIndex(recs[k].rightResidue))
  {
    if recs == [] then []
    else [(CalphaIndex(recs[0].leftResidue), CalphaIndex(recs[0].rightResidue))] + TEnds(recs[1..])
  }

  /** The residue table after the kept ones among the first `k` records are inserted. */
  function LoadedResidues(res: map<int, char>, occupied: set<int>, recs: seq<HRow>, ends: seq<(int, int)>, k: nat)
    : map<int, char>
    requires k <= |recs| == |ends|
    requires forall m :: 0 <= m < |recs| ==> |recs[m].residues| >= 4
  {
    if k == 0 then res
    else
      var prev := LoadedResidues(res, occupied, recs, ends, k - 1);
      if Kept(occupied, ends, k - 1) then HbondResidues(prev, ends[k - 1].0, ends[k - 1].1, recs[k - 1].residues)
      else prev
  }

  /** The record `rec` is stored as an Hbond between the ends `e`. */
  ghost predicate HoldsHbond(vs: map<int, BondRef>, e: (int, int), rec: HRow) {
    && e.0 in vs && e.1 in vs && vs[e.0] == vs[e.1] && vs[e.0].HBond?
    && vs[e.0].h.linenumber == rec.linenumber
    && vs[e.0].h.donor == e.0 && vs[e.0].h.accptr == e.1
    && vs[e.0].h.length == rec.length && vs[e.0].h.cluster == Some(rec.cluster)
    && vs[e.0].h.flags == Some(rec.flags) && vs[e.0].h.residues == rec.residues
    && vs[e.0].h.twisted == rec.twisted
  }

  /** The record `rec` is stored as a Tbond between the ends `e`. */
  ghost predicate HoldsTbond(vs: map<int, BondRef>, e: (int, int), rec: TRow) {
    && e.0 in vs && e.1 in vs && vs[e.0] == vs[e.1] && vs[e.0].TBond?
    && vs[e.0].t.linenumber == rec.linenumber
    && vs[e.0].t.left == e.0 && vs[e.0].t.right == e.1
    && vs[e.0].t.dVdw == Some(rec.vdw)
  }

  /**
   * The vertex map `vs` and residue table `res` after the first `n` of the
   * records `recs` were offered, first wins, to a protein whose vertex map
   * was `vs0` and residue table `res0`: exactly the ends of the given and of
   * the kept records are occupied, nothing given moved, each kept record is
   * stored, and its residue letters are merged in.
   */
  ghost predicate HLoaded(vs: map<int, BondRef>, res: map<int, char>, occ0: set<int>, vs0: map<int, BondRef>,
                          res0: map<int, char>, recs: seq<HRow>, ends: seq<(int, int)>, n: nat)
  {
    && n <= |recs| == |ends| && (forall m :: 0 <= m < |recs| ==> |recs[m].residues| >= 4)
    && vs.Keys == Occupied(occ0, ends, n) && Extends(vs, vs0)
    && (forall k :: 0 <= k < n && Kept(occ0, ends, k) ==> HoldsHbond(vs, ends[k], recs[k]))
    && res == LoadedResidues(res0, occ0, recs, ends, n)
  }

  /** Nothing has been offered yet. */
  lemma HLoadedStart(vs: map<int, BondRef>, res: map<int, char>, recs: seq<HRow>, ends: seq<(int, int)>)
    requires |recs| == |ends| && forall m :: 0 <= m < |recs| ==> |recs[m].residues| >= 4
    ensures HLoaded(vs, res, vs.Keys, vs, res, recs, ends, 0)
  {
  }

  /** The vertex map `vs` after the first `n` of the records `recs` were offered, first wins. */
  ghost predicate TLoaded(vs: map<int, BondRef>, occ0: set<int>, vs0: map<int, BondRef>,
                          recs: seq<TRow>, ends: seq<(int, int)>, n: nat)
  {
    && n <= |recs| == |ends|
    && vs.Keys == Occupied(occ0, ends, n) && Extends(vs, vs0)
    && (forall k :: 0 <= k < n && Kept(occ0, ends, k) ==> HoldsTbond(vs, ends[k], recs[k]))
  }

  lemma HbondStep(occ0: set<int>, vs0: map<int, BondRef>, res0: map<int, char>, recs: seq<HRow>,
                  ends: seq<(int, int)>, n: nat, before: map<int, BondRef>, resBefore: map<int, char>,
                  b: Option<BondRef>, after: map<int, BondRef>, resAfter: map<int, char>)
    requires HLoaded(before, resBefore, occ0, vs0, res0, recs, ends, n) && n < |recs|
    requires !Kept(occ0, ends, n) ==> after == before && resAfter == resBefore
    requires Kept(occ0, ends, n) ==>
      && b.Some? && b.value.HBond?
      && after == before[ends[n].0 := b.value][ends[n].1 := b.value]
      && b.value.h.linenumber == recs[n].linenumber
      && b.value.h.donor == ends[n].0 && b.value.h.accptr == ends[n].1
      && b.value.h.length == recs[n].length && b.value.h.cluster == Some(recs[n].cluster)
      && b.value.h.flags == Some(recs[n].flags) && b.value.h.residues == recs[n].residues
      && b.value.h.twisted == recs[n].twisted
      && resAfter == HbondResidues(resBefore, ends[n].0, ends[n].1, recs[n].residues)
    ensures HLoaded(after, resAfter, occ0, vs0, res0, recs, ends, n + 1)
  {
    if Kept(occ0, ends, n) {
      assert after.Keys == before.Keys + {ends[n].0, ends[n].1};
      assert Extends(after, before);
    }
    forall k | 0 <= k < n + 1 && Kept(occ0, ends, k) ensures HoldsHbond(after, ends[k], recs[k]) {
      if k < n {
        assert HoldsHbond(before, ends[k], recs[k]);
      }
    }
  }

  lemma TbondStep(occ0: set<int>, vs0: map<int, BondRef>, recs: seq<TRow>, ends: seq<(int, int)>, n: nat,
                  before: map<int, BondRef>, b: Option<BondRef>, after: map<int, BondRef>)
    requires TLoaded(before, occ0, vs0, recs, ends, n) && n < |recs|
    requires !Kept(occ0, ends, n) ==> after == before
    requires Kept(occ0, ends, n) ==>
      && b.Some? && b.value.TBond?
      && after == before[ends[n].0 := b.value][ends[n].1 := b.value]
      && b.value.t.linenumber == recs[n].linenumber && b.value.t.dVdw == Some(recs[n].vdw)
      && b.value.t.left == ends[n].0 && b.value.t.right == ends[n].1
    ensures TLoaded(after, occ0, vs0, recs, ends, n + 1)
  {
    if Kept(occ0, ends, n) {
      assert after.Keys == before.Keys + {ends[n].0, ends[n].1};
      assert Extends(after, before);
    }
    forall k | 0 <= k < n + 1 && Kept(occ0, ends, k) ensures HoldsTbond(after, ends[k], recs[k]) {
      if k < n {
        assert HoldsTbond(before, ends[k], recs[k]);
      }
    }
  }

  class Protein {
    const name: string
    /** The one bond attached at each atom index. */
    var vertices: map<int, BondRef>
    /** Residue letters, by residue number. */
    var residues: map<int, char>
    /** Secondary-structure classes, by residue number. */
    var ssclass: map<int, char>
    var hbonds: seq<Hbond>
    var tbonds: seq<Tbond>
    var minIdx: int
    var maxIdx: int

    ghost predicate Valid()
      reads this
    {
      ValidState(vertices, minIdx, maxIdx, hbonds, tbonds)
    }

    constructor (name: string)
      ensures Valid()
      ensures this.name == name && vertices == map[] && residues == map[] && ssclass == map[]
      ensures hbonds == [] && tbonds == [] && minIdx == 0x10_0000 && maxIdx == -1
    {
      this.name := name;
      vertices := map[];
      residues := map[];
      ssclass := map[];
      hbonds := [];
      tbonds := [];
      minIdx := 0x10_0000;
      maxIdx := -1;
    }

    method AddResidue(idx: int, r: char)
      modifies this`residues
      ensures residues == MergeResidue(old(residues), idx, r)
    {
      var c := r;
      if c == '?' {
        c := 'X';
      }
      if !('@' <= c <= 'Z') {
        c := '@';
      }
      if idx !in residues {
        residues := residues[idx := c];
        return;
      }
      if residues[idx] == c {
        return;
      }
      if (residues[idx] == '@' || residues[idx] == 'X') && c != '@' {
        residues := residues[idx := c];
        return;
      }
      // The source reports the conflict on stderr and keeps the old letter.
    }

    method AddSsclassAnnotation(idx: int, s: char)
      modifies this`ssclass
      ensures ssclass == old(ssclass)[idx := NormalizeSsclass(s)]
    {
      var c := s;
      if c == '?' || c == '*' {
        c := '-';
      }
      ssclass := ssclass[idx := c];
    }

    /** `get_residue`: the letter of residue `idx`, "X" when unknown. */
    function GetResidue(idx: int): (r: char)
      reads this
      ensures idx in residues ==> r == residues[idx]
      ensures idx !in residues ==> r == 'X'
    {
      if idx in residues then residues[idx] else 'X'
    }

    /** `get_residues`: the letters of the residues start .. start+length-1. */
    function GetResidues(start: int, length: int): (r: string)
      reads this
      decreases length
      ensures |r| == (if length < 0 then 0 else length)
      ensures forall k :: 0 <= k < |r| ==> r[k] == GetResidue(start + k)
    {
      if length <= 0 then "" else [GetResidue(start)] + GetResidues(start + 1, length - 1)
    }

    /** `get_ssclass`: the class of residue `idx`, "-" when unknown. */
    function GetSsclass(idx: int): (r: char)
      reads this
      ensures idx in ssclass ==> r == ssclass[idx]
      ensures idx !in ssclass ==> r == '-'
    {
      if idx in ssclass then ssclass[idx] else '-'
    }

    function GetSsclasses(start: int, length: int): (r: string)
      reads this
      decreases length
      ensures |r| == (if length < 0 then 0 else length)
      ensures forall k :: 0 <= k < |r| ==> r[k] == GetSsclass(start + k)
    {
      if length <= 0 then "" else [GetSsclass(start)] + GetSsclasses(start + 1, length - 1)
    }

    /** The residue letters `add_Hbond` records: two around the donor N, two around the acceptor O. */
    method AddHbondResidues(i: int, j: int, letters: string)
      requires |letters| >= 4
      modifies this`residues
      ensures residues == HbondResidues(old(residues), i, j, letters)
    {
      ghost var u := HbondUpdates(i, j, letters);
      ghost var r0 := residues;
      AddResidue((i - 2) / 3, letters[0]);
      ghost var r1 := residues;
      AddResidue((i + 1) / 3, letters[1]);
      ghost var r2 := residues;
      AddResidue((j - 1) / 3, letters[2]);
      ghost var r3 := residues;
      AddResidue((j + 2) / 3, letters[3]);
      assert MergeAll(r3, u[3..]) == residues by {
        assert u[3..][1..] == [];
      }
      assert MergeAll(r2, u[2..]) == residues by {
        assert u[2..][1..] == u[3..];
      }
      assert MergeAll(r1, u[1..]) == residues by {
        assert u[1..][1..] == u[2..];
      }
    }

    /**
     * `add_Hbond`: rejects an occupied end or a loop and then changes
     * nothing; otherwise attaches one new Hbond at both ends.
     */
    method AddHbond(linenumber: int, i: int, j: int, length: int, cluster: Option<string>,
                    flags: Option<string>, letters: Option<string>, twisted: bool)
      returns (r: Result<Hbond>)
      requires Valid()
      requires letters.Some? ==> |letters.value| >= 4
      modifies this`vertices, this`hbonds, this`residues, this`minIdx, this`maxIdx
      ensures Valid()
      ensures r.Failure? <==> !Admits(old(vertices).Keys, i, j)
      ensures r.Failure? ==> vertices == old(vertices) && hbonds == old(hbonds) && residues == old(residues)
                             && minIdx == old(minIdx) && maxIdx == old(maxIdx)
      ensures r.Success? ==>
        && fresh(r.value)
        && r.value.linenumber == linenumber && r.value.donor == i && r.value.accptr == j
        && r.value.length == length && r.value.cluster == cluster && r.value.flags == flags
        && r.value.twisted == twisted && r.value.colors == []
        && r.value.residues == (if letters.Some? then letters.value else "XXXX")
        && vertices == old(vertices)[i := HBond(r.value)][j := HBond(r.value)]
        && hbonds == old(hbonds) + [r.value]
        && residues == (if letters.Some? then HbondResidues(old(residues), i, j, letters.value) else old(residues))
        && minIdx == Min3(i, j, old(minIdx)) && maxIdx == Max3(i, j, old(maxIdx))
    {
      if i in vertices {
        return Failure("vertex " + Text.IntToString(i) + " already has chord incident");
      }
      if j in vertices {
        return Failure("vertex " + Text.IntToString(j) + " already has chord incident");
      }
      if i == j {
        return Failure("cannot add chord from " + Text.IntToString(i) + " to itself");
      }
      if letters.Some? {
        AddHbondResidues(i, j, letters.value);
      }
      var hb := new Hbond(linenumber, i, j, length, cluster, flags, letters, twisted);
      AttachHbond(hb);
      return Success(hb);
    }

    /**
     * `add_tert`: the same insertion rule as `add_Hbond`, and then the
     * assertion that both ends are C-alpha atoms.
     */
    method AddTert(linenumber: int, i: int, j: int, dVdw: Option<int>) returns (r: Result<Tbond>)
      requires Valid()
      modifies this`vertices, this`tbonds, this`minIdx, this`maxIdx
      ensures Valid()
      ensures r.Failure? <==> !Admits(old(vertices).Keys, i, j) || AtomOf(i) != Ca || AtomOf(j) != Ca
      ensures r.Failure? ==> vertices == old(vertices) && tbonds == old(tbonds)
                             && minIdx == old(minIdx) && maxIdx == old(maxIdx)
      ensures r.Success? ==>
        && fresh(r.value)
        && r.value.linenumber == linenumber && r.value.dVdw == dVdw
        && r.value.left == (if i > j then j else i) && r.value.right == (if i > j then i else j)
        && vertices == old(vertices)[i := TBond(r.value)][j := TBond(r.value)]
        && tbonds == old(tbonds) + [r.value]
        && minIdx == Min3(i, j, old(minIdx)) && maxIdx == Max3(i, j, old(maxIdx))
    {
      if i in vertices {
        return Failure("vertex " + Text.IntToString(i) + " already has a tertiary interaction");
      }
      if j in vertices {
        return Failure("vertex " + Text.IntToString(j) + " already has a tertiary interaction");
      }
      if i == j {
        return Failure("cannot add Tbond from " + Text.IntToString(i) + " to itself");
      }
      if i % 3 != 1 || j % 3 != 1 {
        return Failure("AssertionError");
      }
      var tb := new Tbond(linenumber, i, j, dVdw);
      AttachTbond(tb, i, j);
      return Success(tb);
    }

    /** Attaches a new Hbond at its two free ends and lists it. */
    method AttachHbond(hb: Hbond)
      requires Valid() && Admits(vertices.Keys, hb.donor, hb.accptr) && hb !in hbonds
      modifies this`vertices, this`hbonds, this`minIdx, this`maxIdx
      ensures Valid()
      ensures vertices == old(vertices)[hb.donor := HBond(hb)][hb.accptr := HBond(hb)]
      ensures hbonds == old(hbonds) + [hb]
      ensures minIdx == Min3(hb.donor, hb.accptr, old(minIdx)) && maxIdx == Max3(hb.donor, hb.accptr, old(maxIdx))
    {
      var i, j := hb.donor, hb.accptr;
      InsertHbondValid(vertices, minIdx, maxIdx, hbonds, tbonds, hb, i, j);
      vertices, hbonds, minIdx, maxIdx :=
        vertices[i := HBond(hb)][j := HBond(hb)], hbonds + [hb], Min3(i, j, minIdx), Max3(i, j, maxIdx);
    }

    /** Attaches a new Tbond at its two free ends `i` and `j` and lists it. */
    method AttachTbond(tb: Tbond, i: int, j: int)
      requires Valid() && Admits(vertices.Keys, i, j) && tb !in tbonds
      requires (tb.left == i && tb.right == j) || (tb.left == j && tb.right == i)
      modifies this`vertices, this`tbonds, this`minIdx, this`maxIdx
      ensures Valid()
      ensures vertices == old(vertices)[i := TBond(tb)][j := TBond(tb)]
      ensures tbonds == old(tbonds) + [tb]
      ensures minIdx == Min3(i, j, old(minIdx)) && maxIdx == Max3(i, j, old(maxIdx))
    {
      InsertTbondValid(vertices, minIdx, maxIdx, hbonds, tbonds, tb, i, j);
      vertices, tbonds, minIdx, maxIdx :=
        vertices[i := TBond(tb)][j := TBond(tb)], tbonds + [tb], Min3(i, j, minIdx), Max3(i, j, maxIdx);
    }

    /** `get_Hbond`: the bond at a non-C-alpha index; the assertion fails on a C-alpha. */
    function GetHbond(idx: int): (r: Result<Option<BondRef>>)
      reads this
      ensures r.Failure? <==> AtomOf(idx) == Ca
      ensures r.Success? ==> (r.value.Some? <==> idx in vertices)
      ensures r.Success? && idx in vertices ==> r.value.value == vertices[idx]
    {
      if idx % 3 == 1 then Failure("AssertionError")
      else if idx in vertices then Success(Some(vertices[idx]))
      else Success(None)
    }

    /** `get_Tbond`: the bond at a C-alpha index; the assertion fails elsewhere. */
    function GetTbond(idx: int): (r: Result<Option<BondRef>>)
      reads this
      ensures r.Failure? <==> AtomOf(idx) != Ca
      ensures r.Success? ==> (r.value.Some? <==> idx in vertices)
      ensures r.Success? && idx in vertices ==> r.value.value == vertices[idx]
    {
      if idx % 3 != 1 then Failure("AssertionError")
      else if idx in vertices then Success(Some(vertices[idx]))
      else Success(None)
    }

    /** `get_bond`: dispatches on the atom kind, so it never fails. */
    function GetBond(idx: int): (r: Option<BondRef>)
      reads this
      ensures r.Some? <==> idx in vertices
      ensures r.Some? ==> r.value == vertices[idx]
      ensures AtomOf(idx) == Ca ==> GetTbond(idx) == Success(r)
      ensures AtomOf(idx) != Ca ==> GetHbond(idx) == Success(r)
    {
      if idx % 3 == 1 then GetTbond(idx).value else GetHbond(idx).value
    }

    /**
     * The insertion part of `from_file`: the accepted rows are sorted by
     * energy (stable), offered in that order with rejected insertions
     * swallowed, and the bond list is then sorted by line number.
     */
    method LoadHbonds(rows: seq<HRow>)
      requires Valid()
      modifies this`vertices, this`hbonds, this`residues, this`minIdx, this`maxIdx
      ensures Valid()
      ensures HLoaded(vertices, residues, old(vertices).Keys, old(vertices), old(residues),
                      HOrder(rows), HEnds(HOrder(rows)), |HOrder(rows)|)
      ensures forall a, b :: 0 <= a < b < |hbonds| ==> hbonds[a].linenumber <= hbonds[b].linenumber
      ensures minIdx == KeptMin(old(vertices).Keys, HEnds(HOrder(rows)), |HOrder(rows)|, old(minIdx))
      ensures maxIdx == KeptMax(old(vertices).Keys, HEnds(HOrder(rows)), |HOrder(rows)|, old(maxIdx))
    {
      var recs := HOrder(rows);
      HOrderLetters(rows);
      InsertHbonds(recs);
      var sorted := SortByKey(hbonds, HbondLineKey);
      ReorderKeepsListed(vertices, hbonds, tbonds, sorted, tbonds);
      hbonds := sorted;
    }

    /** Offers the records in order, each through `add_Hbond`. */
    method InsertHbonds(recs: seq<HRow>)
      requires Valid()
      requires forall m :: 0 <= m < |recs| ==> |recs[m].residues| >= 4
      modifies this`vertices, this`hbonds, this`residues, this`minIdx, this`maxIdx
      ensures Valid()
      ensures HLoaded(vertices, residues, old(vertices).Keys, old(vertices), old(residues), recs, HEnds(recs), |recs|)
      ensures minIdx == KeptMin(old(vertices).Keys, HEnds(recs), |recs|, old(minIdx))
      ensures maxIdx == KeptMax(old(vertices).Keys, HEnds(recs), |recs|, old(maxIdx))
    {
      var ends := HEnds(recs);
      ghost var occ0, vs0, res0 := vertices.Keys, vertices, residues;
      var n := 0;
      HLoadedStart(vertices, residues, recs, ends);
      while n < |recs|
        invariant 0 <= n <= |recs|
        invariant Valid() && HLoaded(vertices, residues, occ0, vs0, res0, recs, ends, n)
        invariant minIdx == KeptMin(occ0, ends, n, old(minIdx)) && maxIdx == KeptMax(occ0, ends, n, old(maxIdx))
      {
        InsertHRecord(occ0, vs0, res0, recs, ends, n);
        n := n + 1;
      }
    }

    /** One iteration of the H-bond insertion loop. */
    method InsertHRecord(ghost occ0: set<int>, ghost vs0: map<int, BondRef>, ghost res0: map<int, char>,
                         recs: seq<HRow>, ends: seq<(int, int)>, n: nat)
      requires Valid() && HLoaded(vertices, residues, occ0, vs0, res0, recs, ends, n) && n < |recs|
      modifies this`vertices, this`hbonds, this`residues, this`minIdx, this`maxIdx
      ensures Valid() && HLoaded(vertices, residues, occ0, vs0, res0, recs, ends, n + 1)
      ensures minIdx == if Kept(occ0, ends, n) then Min3(ends[n].0, ends[n].1, old(minIdx)) else old(minIdx)
      ensures maxIdx == if Kept(occ0, ends, n) then Max3(ends[n].0, ends[n].1, old(maxIdx)) else old(maxIdx)
    {
      var rec := recs[n];
      var i, j := ends[n].0, ends[n].1;
      ghost var before, resBefore := vertices, residues;
      KeptStep(occ0, ends, n, vertices.Keys, i, j);
      var r := AddHbond(rec.linenumber, i, j, rec.length, Some(rec.cluster), Some(rec.flags),
                        Some(rec.residues), rec.twisted);
      ghost var b := if r.Success? then Some(HBond(r.value)) else None;
      HbondStep(occ0, vs0, res0, recs, ends, n, before, resBefore, b, vertices, residues);
    }

    /**
     * The insertion part of `add_tertiary_interactions`: rows sorted by van
     * der Waals distance (stable), offered first-wins, the list then sorted
     * by line number.
     */
    method LoadTbonds(rows: seq<TRow>)
      requires Valid()
      modifies this`vertices, this`tbonds, this`minIdx, this`maxIdx
      ensures Valid()
      ensures TLoaded(vertices, old(vertices).Keys, old(vertices), TOrder(rows), TEnds(TOrder(rows)), |TOrder(rows)|)
      ensures forall a, b :: 0 <= a < b < |tbonds| ==> tbonds[a].linenumber <= tbonds[b].linenumber
      ensures minIdx == KeptMin(old(vertices).Keys, TEnds(TOrder(rows)), |TOrder(rows)|, old(minIdx))
      ensures maxIdx == KeptMax(old(vertices).Keys, TEnds(TOrder(rows)), |TOrder(rows)|, old(maxIdx))
    {
      var recs := TOrder(rows);
      TOrderOrdered(rows);
      InsertTbonds(recs);
      var sorted := SortByKey(tbonds, TbondLineKey);
      ReorderKeepsListed(vertices, hbonds, tbonds, hbonds, sorted);
      tbonds := sorted;
    }

    /** Offers the records in order, each through `add_tert`. */
    method InsertTbonds(recs: seq<TRow>)
      requires Valid()
      requires forall m :: 0 <= m < |recs| ==> recs[m].leftResidue <= recs[m].rightResidue
      modifies this`vertices, this`tbonds, this`minIdx, this`maxIdx
      ensures Valid()
      ensures TLoaded(vertices, old(vertices).Keys, old(vertices), recs, TEnds(recs), |recs|)
      ensures minIdx == KeptMin(old(vertices).Keys, TEnds(recs), |recs|, old(minIdx))
      ensures maxIdx == KeptMax(old(vertices).Keys, TEnds(recs), |recs|, old(maxIdx))
    {
      var ends := TEnds(recs);
      ghost var occ0, vs0 := vertices.Keys, vertices;
      var n := 0;
      assert TLoaded(vertices, occ0, vs0, recs, ends, 0);
      while n < |recs|
        invariant 0 <= n <= |recs|
        invariant Valid() && TLoaded(vertices, occ0, vs0, recs, ends, n)
        invariant minIdx == KeptMin(occ0, ends, n, old(minIdx)) && maxIdx == KeptMax(occ0, ends, n, old(maxIdx))
      {
        InsertTRecord(occ0, vs0, recs, ends, n);
        n := n + 1;
      }
    }

    /** One iteration of the T-bond insertion loop. */
    method InsertTRecord(ghost occ0: set<int>, ghost vs0: map<int, BondRef>, recs: seq<TRow>,
                         ends: seq<(int, int)>, n: nat)
      requires Valid() && TLoaded(vertices, occ0, vs0, recs, ends, n) && n < |recs|
      requires recs[n].leftResidue <= recs[n].rightResidue
      requires ends[n] == (CalphaIndex(recs[n].leftResidue), CalphaIndex(recs[n].rightResidue))
      modifies this`vertices, this`tbonds, this`minIdx, this`maxIdx
      ensures Valid() && TLoaded(vertices, occ0, vs0, recs, ends, n + 1)
      ensures minIdx == if Kept(occ0, ends, n) then Min3(ends[n].0, ends[n].1, old(minIdx)) else old(minIdx)
      ensures maxIdx == if Kept(occ0, ends, n) then Max3(ends[n].0, ends[n].1, old(maxIdx)) else old(maxIdx)
    {
      var rec := recs[n];
      var i, j := ends[n].0, ends[n].1;
      ghost var before := vertices;
      KeptStep(occ0, ends, n, vertices.Keys, i, j);
      var r := AddTert(rec.linenumber, i, j, Some(rec.vdw));
      ghost var b := if r.Success? then Some(TBond(r.value)) else None;
      TbondStep(occ0, vs0, recs, ends, n, before, b, vertices);
    }
  }

  /** One step of `Occupied`, named for the loaders' loop. */
  lemma KeptStep(occupied: set<int>, ends: seq<(int, int)>, n: nat, keys: set<int>, i: int, j: int)
    requires n < |ends| && ends[n] == (i, j) && keys == Occupied(occupied, ends, n)
    ensures Kept(occupied, ends, n) <==> Admits(keys, i, j)
    ensures Occupied(occupied, ends, n + 1) == if Admits(keys, i, j) then keys + {i, j} else keys
  {
  }
}

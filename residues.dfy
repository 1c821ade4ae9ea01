/**
 * Residue schemes (find_local_patterns.py): a scheme groups "similar"
 * residue letters and names each group by its first member;
 * `simplify_residues` rewrites a residue string under the selected scheme.
 */
module Residues {
  import opened Wrappers
  import opened LocalConfig

  /** Some group of `groups` holds `c`. */
  predicate Grouped(groups: seq<string>, c: char) {
    exists k :: 0 <= k < |groups| && c in groups[k]
  }

  /** `c` occurs in group `k` and in no later group. */
  predicate LastGroup(groups: seq<string>, c: char, k: int) {
    0 <= k < |groups| && c in groups[k] && forall m :: k < m < |groups| ==> c !in groups[m]
  }

  /** The map a group contributes: each of its letters to its first letter. */
  function GroupMap(g: string): (m: map<char, char>)
    ensures forall c :: c in m <==> c in g
  {
    map c | c in g :: g[0]
  }

  /** The dictionary `create_residue_scheme(*groups)` returns. */
  function SchemeOf(groups: seq<string>): map<char, char> {
    if groups == [] then map[]
    else SchemeOf(groups[..|groups| - 1]) + GroupMap(groups[|groups| - 1])
  }

  /**
   * A scheme maps exactly the grouped letters, each to the first member of
   * the last group that holds it: a later group overrides an earlier one.
   */
  lemma {:induction false} SchemeOfLastGroup(groups: seq<string>, c: char)
    ensures c in SchemeOf(groups) <==> Grouped(groups, c)
    ensures forall k :: LastGroup(groups, c, k) ==> c in SchemeOf(groups) && SchemeOf(groups)[c] == groups[k][0]
  {
    if groups != [] {
      var n := |groups| - 1;
      var init := groups[..n];
      SchemeOfLastGroup(init, c);
      if Grouped(groups, c) && c !in groups[n] {
        var k :| 0 <= k < |groups| && c in groups[k];
        assert c in init[k];
      }
      if Grouped(init, c) {
        var k :| 0 <= k < |init| && c in init[k];
        assert c in groups[k];
      }
      forall k | LastGroup(groups, c, k) ensures SchemeOf(groups)[c] == groups[k][0] {
        if k < n {
          assert LastGroup(init, c, k);
        }
      }
    }
  }

  /** Groups no two of which share a letter. */
  predicate DisjointGroups(groups: seq<string>) {
    forall k, m, c :: 0 <= k < m < |groups| && c in groups[k] ==> c !in groups[m]
  }

  /** With disjoint groups every letter maps to the first member of its own group. */
  lemma GroupFirst(groups: seq<string>, k: int, c: char)
    requires DisjointGroups(groups) && 0 <= k < |groups| && c in groups[k]
    ensures c in SchemeOf(groups) && SchemeOf(groups)[c] == groups[k][0]
  {
    assert LastGroup(groups, c, k);
    SchemeOfLastGroup(groups, c);
  }

  /** `create_residue_scheme`: the two nested loops filling the dictionary. */
  method CreateResidueScheme(groups: seq<string>) returns (scheme: map<char, char>)
    ensures scheme == SchemeOf(groups)
  {
    scheme := map[];
    var n := 0;
    while n < |groups|
      invariant 0 <= n <= |groups|
      invariant scheme == SchemeOf(groups[..n])
    {
      var x := groups[n];
      var k := 0;
      while k < |x|
        invariant 0 <= k <= |x|
        invariant scheme == SchemeOf(groups[..n]) + map c | c in x[..k] :: x[0]
      {
        assert x[..k + 1] == x[..k] + [x[k]];
        scheme := scheme[x[k] := x[0]];
        k := k + 1;
      }
      assert x[..k] == x;
      assert groups[..n + 1][..n] == groups[..n];
      n := n + 1;
    }
    assert groups[..n] == groups;
  }

  /** The groups of the five schemes of `residue_schemes`. */
  const Scheme0: seq<string> := ["XLVIFMAGSCEKRDTYNQHWP"]
  const Scheme1: seq<string> := ["L", "A", "V", "I", "E", "G", "K", "R", "S", "D", "T", "F", "Y", "N", "Q", "P", "H", "M", "W", "C", "X"]
  const Scheme2: seq<string> := ["LVIFM", "AGSC", "EKRDTYNQHW", "P", "X"]
  const Scheme3: seq<string> := ["LVIFM", "AGSC", "EKRDTYNQHWP", "X"]
  const Scheme4: seq<string> := ["LVIFMAGSC", "EKRDTYNQHWP", "X"]
  const SchemeGroups: seq<seq<string>> := [Scheme0, Scheme1, Scheme2, Scheme3, Scheme4]

  /** Python's `residue_schemes[k]`: negative indices count from the end. */
  function SchemeAt(k: int): (r: Option<map<char, char>>)
    ensures r.Some? <==> -|SchemeGroups| <= k < |SchemeGroups|
  {
    if 0 <= k < |SchemeGroups| then Some(SchemeOf(SchemeGroups[k]))
    else if -|SchemeGroups| <= k < 0 then Some(SchemeOf(SchemeGroups[k + |SchemeGroups|]))
    else None
  }

  /** `"".join(d[c] for c in s)`: the first letter without an entry raises KeyError. */
  function Translate(d: map<char, char>, s: string): (r: Result<string>)
    ensures r.Success? <==> forall k :: 0 <= k < |s| ==> s[k] in d
    ensures r.Success? ==> |r.value| == |s| && forall k :: 0 <= k < |s| ==> r.value[k] == d[s[k]]
    ensures r.Failure? ==> r.error == KeyError
  {
    if s == [] then Success("")
    else if s[0] !in d then Failure(KeyError)
    else
      var rest := Translate(d, s[1..]);
      if rest.Failure? then rest
      else
        assert forall k :: 1 <= k < |s| ==> s[k] == s[1..][k - 1];
        Success([d[s[0]]] + rest.value)
  }

  /** `simplify_residues`: the residue string under the configured scheme. */
  function SimplifyResidues(cfg: Config, s: string): (r: Result<string>)
    ensures SchemeAt(cfg.residueScheme).None? ==> r == Failure(IndexError)
    ensures SchemeAt(cfg.residueScheme).Some? ==> r == Translate(SchemeAt(cfg.residueScheme).value, s)
  {
    var d := SchemeAt(cfg.residueScheme);
    if d.None? then Failure(IndexError) else Translate(d.value, s)
  }

  /** The letters scheme 0 knows. */
  const AllResidues := "XLVIFMAGSCEKRDTYNQHWP"

  /**
   * Scheme 0 sends every one of the 21 letters to X, so simplifying under it
   * turns every residue string over those letters into a run of X of the
   * same length.
   */
  lemma SchemeZeroAllX(cfg: Config, s: string)
    requires cfg.residueScheme == 0
    requires forall k :: 0 <= k < |s| ==> s[k] in AllResidues
    ensures SimplifyResidues(cfg, s) == Success(seq(|s|, _ => 'X'))
  {
    var d := SchemeOf(SchemeGroups[0]);
    assert SchemeGroups[0] == [AllResidues];
    forall k | 0 <= k < |s| ensures s[k] in d && d[s[k]] == 'X' {
      GroupFirst(SchemeGroups[0], 0, s[k]);
    }
    var r := SimplifyResidues(cfg, s);
    assert r.value == seq(|s|, _ => 'X');
  }

  lemma Scheme0Disjoint() ensures DisjointGroups(Scheme0) {}
  lemma Scheme1Disjoint() ensures DisjointGroups(Scheme1) {}
  lemma Scheme2Disjoint() ensures DisjointGroups(Scheme2) {}
  lemma Scheme3Disjoint() ensures DisjointGroups(Scheme3) {}
  lemma Scheme4Disjoint() ensures DisjointGroups(Scheme4) {}

  /** The groups of every scheme are disjoint. */
  lemma SchemesDisjoint(k: int)
    requires 0 <= k < |SchemeGroups|
    ensures DisjointGroups(SchemeGroups[k])
  {
    if k == 0 { Scheme0Disjoint(); }
    else if k == 1 { Scheme1Disjoint(); }
    else if k == 2 { Scheme2Disjoint(); }
    else if k == 3 { Scheme3Disjoint(); }
    else { Scheme4Disjoint(); }
  }

  /**
   * Under scheme `k` every letter of a group is rewritten to the first
   * letter of that group, and the result has the input's length.
   */
  lemma SimplifyByGroup(cfg: Config, s: string, g: int)
    requires 0 <= cfg.residueScheme < |SchemeGroups|
    requires 0 <= g < |SchemeGroups[cfg.residueScheme]|
    requires forall k :: 0 <= k < |s| ==> s[k] in SchemeGroups[cfg.residueScheme][g]
    ensures SimplifyResidues(cfg, s).Success?
    ensures |SimplifyResidues(cfg, s).value| == |s|
    ensures forall k :: 0 <= k < |s| ==> SimplifyResidues(cfg, s).value[k] == SchemeGroups[cfg.residueScheme][g][0]
  {
    var gs := SchemeGroups[cfg.residueScheme];
    SchemesDisjoint(cfg.residueScheme);
    forall k | 0 <= k < |s| ensures s[k] in SchemeOf(gs) && SchemeOf(gs)[s[k]] == gs[g][0] {
      GroupFirst(gs, g, s[k]);
    }
  }
}

/**
 * The matcher of cdp.py (`CDP.check_match` and `CDP.find_matches`): placing
 * the segments of a chord-diagram pattern on the backbone of a protein.
 *
 * A placement gives each segment an optional offset, an atom index of the
 * protein; vertex j of segment i then sits at atom `offset_i + j`. The
 * matcher starts from one placed segment and lets every chord place the
 * segment at its other end, at the far end of the protein bond found.
 */
module Matcher {
  import opened Wrappers
  import opened Patterns
  import Bonds
  import Proteins
  import Spans
  import Colouring

  // The exceptions of the matcher, as the messages Python gives.
  const NoEnd := "cannot determine other_end without knowing one end..."
  const NoSegment := "IndexError: list index out of range"
  const Unplaced := "TypeError: unsupported operand type(s) for +: 'NoneType' and 'int'"

  /** `offsets`: the atom index of each segment, None while unplaced. */
  type Offsets = seq<Option<int>>

  predicate Placed(o: Offsets, i: int) {
    0 <= i < |o| && o[i].Some?
  }

  /** One offset slot per segment. */
  predicate Fits(p: Pattern, o: Offsets) {
    |o| == |p.segments|
  }

  /** `o'` keeps every offset already given in `o` (offsets are only ever filled in). */
  predicate Grows(o: Offsets, o': Offsets) {
    |o'| == |o| && forall i :: 0 <= i < |o| && o[i].Some? ==> o'[i] == o[i]
  }

  /** Every segment is placed. */
  predicate Complete(o: Offsets) {
    forall i :: 0 <= i < |o| ==> o[i].Some?
  }

  /** Neighbouring placed segments are placed in increasing order (strict mode). */
  predicate Ordered(o: Offsets) {
    forall k :: 0 <= k < |o| - 1 ==> PairOrdered(o, k)
  }

  /** Segments k and k + 1, when both placed, are placed in increasing order. */
  predicate PairOrdered(o: Offsets, k: nat)
    requires k + 1 < |o|
  {
    o[k].Some? && o[k + 1].Some? ==> o[k].value < o[k + 1].value
  }

  /** `w = hb.other_end(v)`: the pattern vertex at the other end of the chord of `v`. */
  function Partner(p: Pattern, l: Label, v: Pos): Option<Pos> {
    if l in p.hbonds then OtherEnd(p.hbonds[l], v) else None
  }

  /**
   * The part of the test at vertex j of segment i that depends on that
   * vertex's own atom x alone: an isolated vertex sits on a non-C-alpha atom
   * without bond; a `+`/`-` vertex on a non-C-alpha atom whose bond goes
   * up/down; a chord vertex on a non-C-alpha atom with a bond, and its chord
   * has a partner vertex in an existing segment.
   */
  predicate LocalOk(p: Pattern, vs: map<int, Bonds.BondRef>, o: Offsets, i: nat, j: nat)
    requires Fits(p, o) && Placed(o, i) && j < |p.segments[i].vertices|
  {
    var x := o[i].value + j;
    match p.segments[i].vertices[j]
    case Wildcard => true
    case Isolated => x % 3 != 1 && x !in vs
    case Up => x % 3 != 1 && x in vs && vs[x].Other(x) > x
    case Down => x % 3 != 1 && x in vs && vs[x].Other(x) < x
    case Chord(l) => x % 3 != 1 && x in vs && Partner(p, l, Pos(i, j)).Some? && Partner(p, l, Pos(i, j)).value.seg < |o|
  }

  /** The partner vertex of the chord vertex j of segment i. */
  function PartnerOf(p: Pattern, vs: map<int, Bonds.BondRef>, o: Offsets, i: nat, j: nat): Pos
    requires Fits(p, o) && Placed(o, i) && j < |p.segments[i].vertices|
    requires p.segments[i].vertices[j].Chord? && LocalOk(p, vs, o, i, j)
  {
    Partner(p, p.segments[i].vertices[j].bond, Pos(i, j)).value
  }

  /**
   * The test `check_match` passes at vertex j of segment i: LocalOk, and for
   * a chord vertex, its partner's segment is placed and the partner's atom
   * holds the very bond found at this vertex.
   */
  predicate VertexHolds(p: Pattern, vs: map<int, Bonds.BondRef>, o: Offsets, i: nat, j: nat)
    requires Fits(p, o) && Placed(o, i) && j < |p.segments[i].vertices|
  {
    && LocalOk(p, vs, o, i, j)
    && (p.segments[i].vertices[j].Chord? ==>
          var w := PartnerOf(p, vs, o, i, j);
          var x := o[i].value + j;
          Placed(o, w.seg) && o[w.seg].value + w.idx in vs && vs[o[w.seg].value + w.idx] == vs[x])
  }

  predicate SegmentHolds(p: Pattern, vs: map<int, Bonds.BondRef>, o: Offsets, i: nat)
    requires Fits(p, o) && Placed(o, i)
  {
    forall j :: 0 <= j < |p.segments[i].vertices| ==> VertexHolds(p, vs, o, i, j)
  }

  /** Every placed segment passes its test. */
  predicate Matched(p: Pattern, vs: map<int, Bonds.BondRef>, o: Offsets) {
    Fits(p, o) && forall i :: 0 <= i < |o| && Placed(o, i) ==> SegmentHolds(p, vs, o, i)
  }

  /**
   * The placement a match stands for: LocalOk, and for a chord vertex, its
   * partner lies exactly at the other end of the protein bond, on a
   * non-C-alpha atom.
   */
  predicate VertexMapped(p: Pattern, vs: map<int, Bonds.BondRef>, o: Offsets, i: nat, j: nat)
    requires Fits(p, o) && Placed(o, i) && j < |p.segments[i].vertices|
  {
    && LocalOk(p, vs, o, i, j)
    && (p.segments[i].vertices[j].Chord? ==>
          var w := PartnerOf(p, vs, o, i, j);
          var x := o[i].value + j;
          Placed(o, w.seg) && o[w.seg].value + w.idx == vs[x].Other(x) && (o[w.seg].value + w.idx) % 3 != 1)
  }

  /**
   * A full placement extending `o0` in which every vertex is mapped, in
   * increasing segment order in strict mode.
   */
  predicate Solution(p: Pattern, vs: map<int, Bonds.BondRef>, o0: Offsets, o: Offsets, strict: bool) {
    && Fits(p, o) && Grows(o0, o) && Complete(o) && (strict ==> Ordered(o))
    && forall i, j :: 0 <= i < |o| && 0 <= j < |p.segments[i].vertices| ==> VertexMapped(p, vs, o, i, j)
  }

  /** The number of unplaced segments. */
  function NoneCount(o: Offsets): (n: nat)
    ensures n <= |o|
  {
    if o == [] then 0 else NoneCount(o[..|o| - 1]) + (if o[|o| - 1].None? then 1 else 0)
  }

  /** Placing an unplaced segment leaves one fewer unplaced. */
  lemma {:induction false} NoneCountPlace(o: Offsets, k: nat, at: int)
    requires k < |o| && o[k].None?
    ensures NoneCount(o[k := Some(at)]) == NoneCount(o) - 1
  {
    var o' := o[k := Some(at)];
    assert o'[..|o'| - 1] == if k == |o| - 1 then o[..|o| - 1] else o[..|o| - 1][k := Some(at)];
    if k < |o| - 1 {
      NoneCountPlace(o[..|o| - 1], k, at);
    }
  }

  /** A bond in a valid vertex map: its other end holds the same bond. */
  lemma BondAt(vs: map<int, Bonds.BondRef>, x: int)
    requires Bonds.OneBondPerIndex(vs) && x in vs
    ensures vs[x].IsEnd(x) && vs[x].OtherEnd(x) == Some(vs[x].Other(x))
    ensures vs[x].Other(x) != x && vs[x].Other(x) in vs && vs[vs[x].Other(x)] == vs[x]
  {
  }

  lemma HoldsGrows(p: Pattern, vs: map<int, Bonds.BondRef>, o: Offsets, o': Offsets, i: nat, j: nat)
    requires Fits(p, o) && Placed(o, i) && j < |p.segments[i].vertices| && Grows(o, o')
    requires VertexHolds(p, vs, o, i, j)
    ensures Fits(p, o') && Placed(o', i) && VertexHolds(p, vs, o', i, j)
  {
  }

  /** A segment that passed stays passed while further segments are placed. */
  lemma SegmentHoldsGrows(p: Pattern, vs: map<int, Bonds.BondRef>, o: Offsets, o': Offsets, i: nat)
    requires Fits(p, o) && Placed(o, i) && Grows(o, o') && SegmentHolds(p, vs, o, i)
    ensures Fits(p, o') && Placed(o', i) && SegmentHolds(p, vs, o', i)
  {
    forall j | 0 <= j < |p.segments[i].vertices| ensures VertexHolds(p, vs, o', i, j) {
      HoldsGrows(p, vs, o, o', i, j);
    }
  }

  /** What a solution agreeing with the current offsets says about vertex j of segment i. */
  lemma SolutionAt(p: Pattern, vs: map<int, Bonds.BondRef>, o0: Offsets, o: Offsets, strict: bool,
                   cur: Offsets, i: nat, j: nat)
    requires Solution(p, vs, o0, o, strict) && Grows(cur, o) && Placed(cur, i)
    requires j < |p.segments[i].vertices|
    ensures Fits(p, cur) && o[i] == cur[i] && VertexMapped(p, vs, o, i, j) && LocalOk(p, vs, cur, i, j)
  {
  }

  /** A vertex failing its local test rules out every solution the current offsets allow. */
  lemma RefuteLocal(p: Pattern, vs: map<int, Bonds.BondRef>, o0: Offsets, strict: bool, cur: Offsets, i: nat, j: nat)
    requires Fits(p, cur) && Placed(cur, i) && j < |p.segments[i].vertices|
    requires forall o :: Solution(p, vs, o0, o, strict) ==> Grows(cur, o)
    requires !LocalOk(p, vs, cur, i, j)
    ensures forall o :: !Solution(p, vs, o0, o, strict)
  {
    forall o | Solution(p, vs, o0, o, strict) ensures false {
      SolutionAt(p, vs, o0, o, strict, cur, i, j);
    }
  }

  /** In a solution, the partner of a chord vertex sits at the other end of the bond found. */
  lemma SolutionChord(p: Pattern, vs: map<int, Bonds.BondRef>, o0: Offsets, o: Offsets, strict: bool,
                      cur: Offsets, i: nat, j: nat)
    requires Solution(p, vs, o0, o, strict) && Grows(cur, o) && Placed(cur, i)
    requires j < |p.segments[i].vertices| && p.segments[i].vertices[j].Chord?
    ensures Fits(p, cur) && LocalOk(p, vs, cur, i, j)
    ensures var w := PartnerOf(p, vs, cur, i, j);
            var x := cur[i].value + j;
            o[w.seg].Some? && o[w.seg].value + w.idx == vs[x].Other(x) && (o[w.seg].value + w.idx) % 3 != 1
  {
    SolutionAt(p, vs, o0, o, strict, cur, i, j);
  }

  /** Strict mode: placing the partner's segment out of order with a placed neighbour rules out every solution. */
  lemma RefuteNeighbour(p: Pattern, vs: map<int, Bonds.BondRef>, o0: Offsets, strict: bool, cur: Offsets,
                        i: nat, j: nat, k: nat, m: nat, at: int)
    requires Fits(p, cur) && Placed(cur, i) && j < |p.segments[i].vertices| && p.segments[i].vertices[j].Chord?
    requires LocalOk(p, vs, cur, i, j) && PartnerOf(p, vs, cur, i, j) == Pos(k, m)
    requires at == vs[cur[i].value + j].Other(cur[i].value + j) - m && cur[k].None? && strict
    requires (k >= 1 && cur[k - 1].Some? && at <= cur[k - 1].value) || (k + 1 < |cur| && cur[k + 1].Some? && at >= cur[k + 1].value)
    requires forall o :: Solution(p, vs, o0, o, strict) ==> Grows(cur, o)
    ensures forall o :: !Solution(p, vs, o0, o, strict)
  {
    forall o | Solution(p, vs, o0, o, strict) ensures false {
      SolutionChord(p, vs, o0, o, strict, cur, i, j);
      OrderedAt(cur, o, k, at);
    }
  }

  /** In ordered offsets extending `cur`, a segment placed at `at` lies strictly between its placed neighbours in `cur`. */
  lemma OrderedAt(cur: Offsets, o: Offsets, k: nat, at: int)
    requires Ordered(o) && Grows(cur, o) && k < |o| && o[k] == Some(at)
    ensures k >= 1 && cur[k - 1].Some? ==> cur[k - 1].value < at
    ensures k + 1 < |o| && cur[k + 1].Some? ==> at < cur[k + 1].value
  {
    if k >= 1 {
      assert PairOrdered(o, k - 1);
    }
    if k + 1 < |o| {
      assert PairOrdered(o, k);
    }
  }

  /** A partner atom that does not hold the bond found rules out every solution. */
  lemma RefuteOtherBond(p: Pattern, vs: map<int, Bonds.BondRef>, o0: Offsets, strict: bool, cur: Offsets,
                        i: nat, j: nat, k: nat, m: nat)
    requires Bonds.OneBondPerIndex(vs)
    requires Fits(p, cur) && Placed(cur, i) && j < |p.segments[i].vertices| && p.segments[i].vertices[j].Chord?
    requires LocalOk(p, vs, cur, i, j) && PartnerOf(p, vs, cur, i, j) == Pos(k, m) && Placed(cur, k)
    requires var y := cur[k].value + m; y % 3 == 1 || y !in vs || vs[y] != vs[cur[i].value + j]
    requires forall o :: Solution(p, vs, o0, o, strict) ==> Grows(cur, o)
    ensures forall o :: !Solution(p, vs, o0, o, strict)
  {
    forall o | Solution(p, vs, o0, o, strict) ensures false {
      SolutionChord(p, vs, o0, o, strict, cur, i, j);
    }
  }

  /** Placing the partner's segment at the other end of the bond found agrees with every solution. */
  lemma PlaceAgrees(p: Pattern, vs: map<int, Bonds.BondRef>, o0: Offsets, strict: bool, cur: Offsets,
                    i: nat, j: nat, k: nat, m: nat, at: int)
    requires Fits(p, cur) && Placed(cur, i) && j < |p.segments[i].vertices| && p.segments[i].vertices[j].Chord?
    requires LocalOk(p, vs, cur, i, j) && PartnerOf(p, vs, cur, i, j) == Pos(k, m)
    requires at == vs[cur[i].value + j].Other(cur[i].value + j) - m && cur[k].None?
    requires forall o :: Solution(p, vs, o0, o, strict) ==> Grows(cur, o)
    ensures forall o :: Solution(p, vs, o0, o, strict) ==> Grows(cur[k := Some(at)], o)
  {
    forall o | Solution(p, vs, o0, o, strict) ensures Grows(cur[k := Some(at)], o) {
      SolutionChord(p, vs, o0, o, strict, cur, i, j);
    }
  }

  /** After that placement the chord vertex passes its test. */
  lemma PlaceHolds(p: Pattern, vs: map<int, Bonds.BondRef>, cur: Offsets, i: nat, j: nat, k: nat, m: nat, at: int)
    requires Bonds.OneBondPerIndex(vs)
    requires Fits(p, cur) && Placed(cur, i) && j < |p.segments[i].vertices| && p.segments[i].vertices[j].Chord?
    requires LocalOk(p, vs, cur, i, j) && PartnerOf(p, vs, cur, i, j) == Pos(k, m)
    requires at == vs[cur[i].value + j].Other(cur[i].value + j) - m && cur[k].None?
    ensures VertexHolds(p, vs, cur[k := Some(at)], i, j)
  {
    BondAt(vs, cur[i].value + j);
    var o' := cur[k := Some(at)];
    assert o'[i] == cur[i];
    assert LocalOk(p, vs, o', i, j);
  }

  /** A partner atom already placed and holding the same bond: the chord vertex passes. */
  lemma PlacedHolds(p: Pattern, vs: map<int, Bonds.BondRef>, cur: Offsets, i: nat, j: nat, k: nat, m: nat)
    requires Fits(p, cur) && Placed(cur, i) && j < |p.segments[i].vertices| && p.segments[i].vertices[j].Chord?
    requires LocalOk(p, vs, cur, i, j) && PartnerOf(p, vs, cur, i, j) == Pos(k, m) && Placed(cur, k)
    requires var y := cur[k].value + m; y in vs && vs[y] == vs[cur[i].value + j]
    ensures VertexHolds(p, vs, cur, i, j)
  {
  }

  /** Placing segment k between its placed neighbours keeps the order. */
  lemma OrderedPlace(o: Offsets, k: nat, at: int)
    requires Ordered(o) && k < |o| && o[k].None?
    requires k >= 1 && o[k - 1].Some? ==> o[k - 1].value < at
    requires k + 1 < |o| && o[k + 1].Some? ==> at < o[k + 1].value
    ensures Ordered(o[k := Some(at)])
  {
    var o' := o[k := Some(at)];
    forall t | 0 <= t < |o'| - 1 ensures PairOrdered(o', t) {
      assert PairOrdered(o, t);
    }
  }

  /**
   * The body of the vertex loop of `check_match`, for vertex j of the popped
   * segment i: True when the vertex passes (possibly placing the segment at
   * the other end of its chord and pushing it), False when it fails, a
   * Failure where the source raises.
   */
  method CheckVertex(p: Pattern, prot: Proteins.Protein, offsets: array<Option<int>>, stack: seq<nat>,
                     i: nat, j: nat, strict: bool, ghost o0: Offsets)
    returns (r: Result<bool>, stack': seq<nat>)
    requires Bonds.OneBondPerIndex(prot.vertices)
    requires offsets.Length == |p.segments| && Placed(offsets[..], i) && j < |p.segments[i].vertices|
    requires forall s :: s in stack ==> Placed(offsets[..], s)
    requires strict ==> Ordered(offsets[..])
    requires forall o :: Solution(p, prot.vertices, o0, o, strict) ==> Grows(offsets[..], o)
    modifies offsets
    ensures Grows(old(offsets[..]), offsets[..])
    ensures strict ==> Ordered(offsets[..])
    ensures |stack| <= |stack'| && stack'[..|stack|] == stack
    ensures forall s :: s in stack' ==> Placed(offsets[..], s)
    ensures forall s :: Placed(offsets[..], s) && !Placed(old(offsets[..]), s) ==> s in stack'
    ensures 2 * NoneCount(offsets[..]) + |stack'| <= 2 * NoneCount(old(offsets[..])) + |stack|
    ensures r == Success(true) ==> VertexHolds(p, prot.vertices, offsets[..], i, j)
    ensures forall o :: Solution(p, prot.vertices, o0, o, strict) ==> r == Success(true) && Grows(offsets[..], o)
  {
    stack' := stack;
    ghost var vs := prot.vertices;
    ghost var cur := offsets[..];
    var x := offsets[i].value + j;
    var v := p.segments[i].vertices[j];
    if v.Wildcard? {
      return Success(true), stack';
    }
    var c := prot.GetHbond(x);
    if c.Failure? {
      RefuteLocal(p, vs, o0, strict, cur, i, j);
      return Failure(c.error), stack';
    }
    if v.Isolated? {
      if c.value.Some? {
        RefuteLocal(p, vs, o0, strict, cur, i, j);
        return Success(false), stack';
      }
      return Success(true), stack';
    }
    if c.value.None? {
      RefuteLocal(p, vs, o0, strict, cur, i, j);
      return Success(false), stack';
    }
    var bond := c.value.value;
    BondAt(vs, x);
    var other := bond.Other(x);
    if v.Up? || v.Down? {
      if (v.Up? && other <= x) || (v.Down? && other >= x) {
        RefuteLocal(p, vs, o0, strict, cur, i, j);
        return Success(false), stack';
      }
      return Success(true), stack';
    }
    var w := Partner(p, v.bond, Pos(i, j));
    if w.None? {
      RefuteLocal(p, vs, o0, strict, cur, i, j);
      return Failure(NoEnd), stack';
    }
    if w.value.seg >= offsets.Length {
      RefuteLocal(p, vs, o0, strict, cur, i, j);
      return Failure(NoSegment), stack';
    }
    r, stack' := CheckChord(p, prot, offsets, stack, i, j, strict, o0, w.value.seg, w.value.idx, bond, other);
  }

  /**
   * The chord case of the vertex loop: the partner's segment k is placed so
   * that its vertex m lands on the other end of the bond (after the strict
   * neighbour test) and pushed, or, when already placed, must hold the very
   * same bond.
   */
  method CheckChord(p: Pattern, prot: Proteins.Protein, offsets: array<Option<int>>, stack: seq<nat>,
                    i: nat, j: nat, strict: bool, ghost o0: Offsets, k: nat, m: nat, bond: Bonds.BondRef, other: int)
    returns (r: Result<bool>, stack': seq<nat>)
    requires Bonds.OneBondPerIndex(prot.vertices)
    requires offsets.Length == |p.segments| && Placed(offsets[..], i) && j < |p.segments[i].vertices|
    requires p.segments[i].vertices[j].Chord? && LocalOk(p, prot.vertices, offsets[..], i, j)
    requires PartnerOf(p, prot.vertices, offsets[..], i, j) == Pos(k, m)
    requires bond == prot.vertices[offsets[i].value + j] && other == bond.Other(offsets[i].value + j)
    requires forall s :: s in stack ==> Placed(offsets[..], s)
    requires strict ==> Ordered(offsets[..])
    requires forall o :: Solution(p, prot.vertices, o0, o, strict) ==> Grows(offsets[..], o)
    modifies offsets
    ensures Grows(old(offsets[..]), offsets[..])
    ensures strict ==> Ordered(offsets[..])
    ensures |stack| <= |stack'| && stack'[..|stack|] == stack
    ensures forall s :: s in stack' ==> Placed(offsets[..], s)
    ensures forall s :: Placed(offsets[..], s) && !Placed(old(offsets[..]), s) ==> s in stack'
    ensures 2 * NoneCount(offsets[..]) + |stack'| <= 2 * NoneCount(old(offsets[..])) + |stack|
    ensures r == Success(true) ==> VertexHolds(p, prot.vertices, offsets[..], i, j)
    ensures forall o :: Solution(p, prot.vertices, o0, o, strict) ==> r == Success(true) && Grows(offsets[..], o)
  {
    stack' := stack;
    ghost var vs := prot.vertices;
    ghost var cur := offsets[..];
    if offsets[k].None? {
      var at := other - m;
      if strict && ((k >= 1 && offsets[k - 1].Some? && at <= offsets[k - 1].value)
                    || (k + 1 < offsets.Length && offsets[k + 1].Some? && at >= offsets[k + 1].value)) {
        RefuteNeighbour(p, vs, o0, strict, cur, i, j, k, m, at);
        return Success(false), stack';
      }
      if strict {
        OrderedPlace(cur, k, at);
      }
      NoneCountPlace(cur, k, at);
      PlaceAgrees(p, vs, o0, strict, cur, i, j, k, m, at);
      PlaceHolds(p, vs, cur, i, j, k, m, at);
      offsets[k] := Some(at);
      assert offsets[..] == cur[k := Some(at)];
      stack' := stack + [k];
      return Success(true), stack';
    }
    var cc := prot.GetHbond(offsets[k].value + m);
    if cc.Failure? || cc.value != Some(bond) {
      RefuteOtherBond(p, vs, o0, strict, cur, i, j, k, m);
      return if cc.Failure? then Failure(cc.error) else Success(false), stack';
    }
    PlacedHolds(p, vs, cur, i, j, k, m);
    return Success(true), stack';
  }
  lemma GrowsTrans(a: Offsets, b: Offsets, c: Offsets)
    requires Grows(a, b) && Grows(b, c)
    ensures Grows(a, c)
  {
  }

  /**
   * `check_match`: while the stack `segs_to_process` is non-empty, pop a
   * segment and test its vertices in order, placing and pushing the
   * segments its chords reach. True once the stack is empty.
   *
   * Sound: on True every placed segment passes its test. Complete: every
   * solution extending the given offsets makes it return True, agreeing with
   * the offsets it places.
   */
  method CheckMatch(p: Pattern, prot: Proteins.Protein, offsets: array<Option<int>>, segsToProcess: seq<nat>,
                    strict: bool)
    returns (r: Result<bool>)
    requires prot.Valid()
    requires offsets.Length == |p.segments|
    requires forall s :: s in segsToProcess ==> Placed(offsets[..], s)
    requires forall s :: 0 <= s < offsets.Length && Placed(offsets[..], s) && s !in segsToProcess
               ==> SegmentHolds(p, prot.vertices, offsets[..], s)
    requires strict ==> Ordered(offsets[..])
    modifies offsets
    ensures Grows(old(offsets[..]), offsets[..])
    ensures strict ==> Ordered(offsets[..])
    ensures r == Success(true) ==> Matched(p, prot.vertices, offsets[..])
    ensures forall o :: Solution(p, prot.vertices, old(offsets[..]), o, strict) ==>
              r == Success(true) && Grows(offsets[..], o)
  {
    ghost var o0 := offsets[..];
    ghost var vs := prot.vertices;
    assert Bonds.OneBondPerIndex(vs);
    var stack := segsToProcess;
    while stack != []
      invariant forall s :: s in stack ==> Placed(offsets[..], s)
      invariant forall s :: 0 <= s < offsets.Length && Placed(offsets[..], s) && s !in stack
                  ==> SegmentHolds(p, vs, offsets[..], s)
      invariant Grows(o0, offsets[..])
      invariant strict ==> Ordered(offsets[..])
      invariant forall o :: Solution(p, vs, o0, o, strict) ==> Grows(offsets[..], o)
      decreases 2 * NoneCount(offsets[..]) + |stack|
    {
      ghost var measure := 2 * NoneCount(offsets[..]) + |stack|;
      ghost var pushed := stack;
      var i := stack[|stack| - 1];
      assert i in pushed && Placed(offsets[..], i);
      stack := stack[..|stack| - 1];
      assert pushed == stack + [i];
      var seg := p.segments[i];
      var j := 0;
      while j < |seg.vertices|
        invariant 0 <= j <= |seg.vertices|
        invariant Placed(offsets[..], i)
        invariant forall jj :: 0 <= jj < j ==> VertexHolds(p, vs, offsets[..], i, jj)
        invariant forall s :: s in stack ==> Placed(offsets[..], s)
        invariant forall s :: 0 <= s < offsets.Length && Placed(offsets[..], s) && s !in stack && s != i
                    ==> SegmentHolds(p, vs, offsets[..], s)
        invariant Grows(o0, offsets[..])
        invariant strict ==> Ordered(offsets[..])
        invariant forall o :: Solution(p, vs, o0, o, strict) ==> Grows(offsets[..], o)
        invariant 2 * NoneCount(offsets[..]) + |stack| < measure
      {
        ghost var prev := offsets[..];
        var ok;
        ok, stack := CheckVertex(p, prot, offsets, stack, i, j, strict, o0);
        GrowsTrans(o0, prev, offsets[..]);
        if ok != Success(true) {
          return ok;
        }
        forall jj | 0 <= jj < j ensures VertexHolds(p, vs, offsets[..], i, jj) {
          HoldsGrows(p, vs, prev, offsets[..], i, jj);
        }
        forall s | 0 <= s < offsets.Length && Placed(offsets[..], s) && s !in stack && s != i
          ensures SegmentHolds(p, vs, offsets[..], s)
        {
          SegmentHoldsGrows(p, vs, prev, offsets[..], s);
        }
        j := j + 1;
      }
    }
    return Success(true);
  }
  // ----- find_matches -----

  /** A full placement as offsets. */
  function Somes(o: seq<int>): (r: Offsets)
    ensures |r| == |o| && Complete(r)
    ensures forall k :: 0 <= k < |o| ==> r[k] == Some(o[k])
  {
    seq(|o|, k requires 0 <= k < |o| => Some(o[k]))
  }

  lemma SomesInjective(a: seq<int>, b: seq<int>)
    requires Somes(a) == Somes(b)
    ensures a == b
  {
    assert |a| == |b|;
    forall k | 0 <= k < |a| ensures a[k] == b[k] {
      assert Somes(a)[k] == Somes(b)[k];
    }
  }

  /** The offsets a seed starts from: segment 0 at `f`, the rest unplaced. */
  function SeedOffsets(f: int, n: nat): (r: Offsets)
    requires n >= 1
    ensures |r| == n && r[0] == Some(f)
    ensures forall k :: 1 <= k < n ==> r[k].None?
  {
    [Some(f)] + seq(n - 1, k => None)
  }

  /** The first seed: the largest multiple of 3 not above `minidx`, plus segment 0's atom kind. */
  function FirstSeed(p: Pattern, minIdx: int): int
    requires |p.segments| > 0
  {
    (minIdx / 3) * 3 + Bonds.AtomMod3(p.segments[0].first)
  }

  /** The seeds `range(FirstSeed, maxidx, 3)`. */
  predicate IsSeed(p: Pattern, minIdx: int, maxIdx: int, f: int) {
    |p.segments| > 0 && FirstSeed(p, minIdx) <= f < maxIdx && (f - FirstSeed(p, minIdx)) % 3 == 0
  }

  /** Every seed has the atom kind of segment 0's first vertex and lies at most two atoms below `minidx`. */
  lemma SeedAtom(p: Pattern, minIdx: int, maxIdx: int, f: int)
    requires IsSeed(p, minIdx, maxIdx, f)
    ensures Bonds.AtomOf(f) == p.segments[0].first
    ensures minIdx - 2 <= f < maxIdx
  {
    var a := Bonds.AtomMod3(p.segments[0].first);
    var b := FirstSeed(p, minIdx);
    assert b % 3 == a && minIdx - 2 <= b;
    assert f % 3 == a;
  }

  /** The spans `(x, x + len(segment))` of a full placement, in segment order. */
  function SpansOf(p: Pattern, o: seq<int>): (r: seq<Spans.Span>)
    requires |o| == |p.segments|
    ensures |r| == |o| && Spans.Proper(r)
    ensures forall k :: 0 <= k < |o| ==> r[k].0 == o[k] && r[k].1 == o[k] + |p.segments[k].vertices|
  {
    seq(|o|, k requires 0 <= k < |o| => (o[k], o[k] + |p.segments[k].vertices|))
  }

  /** The overlap test: the spans in segment order (strict) or sorted (otherwise) follow one another. */
  predicate SpansPass(p: Pattern, o: seq<int>, strict: bool)
    requires |o| == |p.segments|
  {
    Spans.Consecutive(if strict then SpansOf(p, o) else Spans.Sort(SpansOf(p, o)))
  }

  /**
   * A placement passing the overlap test has pairwise disjoint spans; in
   * non-strict mode the test accepts exactly those.
   */
  lemma SpansPassDisjoint(p: Pattern, o: seq<int>, strict: bool)
    requires |o| == |p.segments|
    ensures SpansPass(p, o, strict) ==> Spans.PairwiseDisjoint(SpansOf(p, o))
    ensures !strict ==> (SpansPass(p, o, strict) <==> Spans.PairwiseDisjoint(SpansOf(p, o)))
  {
    if strict {
      if SpansPass(p, o, strict) {
        Spans.ConsecutiveDisjoint(SpansOf(p, o));
      }
    } else {
      Spans.SortedTestIsDisjointness(SpansOf(p, o));
    }
  }

  /** What a seed reports: a full placement from that seed that passed `check_match` and the overlap test. */
  predicate IsReport(p: Pattern, vs: map<int, Bonds.BondRef>, minIdx: int, maxIdx: int, strict: bool, o: seq<int>) {
    && |o| == |p.segments| && |o| > 0 && IsSeed(p, minIdx, maxIdx, o[0])
    && Matched(p, vs, Somes(o)) && (strict ==> Ordered(Somes(o))) && SpansPass(p, o, strict)
  }

  /**
   * The offsets as atom indices, as the spans need them; an unplaced
   * segment raises (Python's `None + int`).
   */
  method Collect(offsets: array<Option<int>>) returns (r: Result<seq<int>>)
    ensures r.Success? ==> Somes(r.value) == offsets[..]
    ensures r.Failure? ==> r.error == Unplaced && !Complete(offsets[..])
  {
    var o: seq<int> := [];
    var k := 0;
    while k < offsets.Length
      invariant 0 <= k <= offsets.Length && |o| == k
      invariant forall t :: 0 <= t < k ==> offsets[t] == Some(o[t])
    {
      if offsets[k].None? {
        assert !Placed(offsets[..], k);
        return Failure(Unplaced);
      }
      o := o + [offsets[k].value];
      k := k + 1;
    }
    assert Somes(o) == offsets[..];
    return Success(o);
  }

  /** A full placement that every solution extends is the only solution. */
  lemma OnlySolution(p: Pattern, vs: map<int, Bonds.BondRef>, f: int, a: Offsets, o: seq<int>, strict: bool)
    requires |p.segments| > 0 && Somes(o) == a
    requires forall o' :: Solution(p, vs, SeedOffsets(f, |p.segments|), o', strict) ==> Grows(a, o')
    ensures forall o' :: |o'| == |p.segments| && Solution(p, vs, SeedOffsets(f, |p.segments|), Somes(o'), strict)
              ==> o' == o
  {
    forall o' | |o'| == |p.segments| && Solution(p, vs, SeedOffsets(f, |p.segments|), Somes(o'), strict)
      ensures o' == o
    {
      assert Grows(a, Somes(o'));
      assert Somes(o') == Somes(o);
      SomesInjective(o', o);
    }
  }

  /**
   * One iteration of the seed loop of `find_matches`: fresh offsets with
   * segment 0 at `f`, `check_match` from the stack [0], then the overlap
   * test. None when the seed does not match; a Failure where the source
   * raises (an unplaced segment reaching `x + len(...)` raises TypeError).
   */
  method MatchAt(p: Pattern, prot: Proteins.Protein, f: int, strict: bool) returns (r: Result<Option<seq<int>>>)
    requires prot.Valid() && |p.segments| > 0
    ensures r.Success? ==> SeedOutcome(p, prot.vertices, f, strict, r.value)
  {
    var n := |p.segments|;
    var offsets := new Option<int>[n](k => None);
    offsets[0] := Some(f);
    assert offsets[..] == SeedOffsets(f, n);
    var ok := CheckMatch(p, prot, offsets, [0], strict);
    if ok.Failure? {
      return Failure(ok.error);
    }
    if !ok.value {
      return Success(None);
    }
    var c := Collect(offsets);
    if c.Failure? {
      return Failure(c.error);
    }
    var o := c.value;
    OnlySolution(p, prot.vertices, f, offsets[..], o, strict);
    var spans := SpansOf(p, o);
    if !strict {
      spans := Spans.Sort(spans);
    }
    if Spans.Consecutive(spans) {
      return Success(Some(o));
    }
    return Success(None);
  }

  /**
   * What one seed `f` yields: a report `m` is a full placement with segment
   * 0 at `f` that matches and passes the overlap test, and every solution
   * from `f` that passes the overlap test is that report.
   */
  ghost predicate SeedOutcome(p: Pattern, vs: map<int, Bonds.BondRef>, f: int, strict: bool, m: Option<seq<int>>) {
    && |p.segments| > 0
    && (m.Some? ==>
          var o := m.value;
          && |o| == |p.segments| && o[0] == f
          && Matched(p, vs, Somes(o)) && (strict ==> Ordered(Somes(o))) && SpansPass(p, o, strict))
    && (forall o :: (|o| == |p.segments| && Solution(p, vs, SeedOffsets(f, |p.segments|), Somes(o), strict)
                     && SpansPass(p, o, strict)) ==> m == Some(o))
  }

  /** Reports in increasing seed order. */
  predicate SeedOrdered(reports: seq<seq<int>>) {
    forall a, b :: 0 <= a < b < |reports| ==> |reports[a]| > 0 && |reports[b]| > 0 && reports[a][0] < reports[b][0]
  }

  /** Every solution from a seed below `f` that passes the overlap test is among the reports. */
  ghost predicate CoversBelow(p: Pattern, vs: map<int, Bonds.BondRef>, minIdx: int, maxIdx: int, strict: bool,
                        reports: seq<seq<int>>, f: int) {
    forall g, o :: IsSeed(p, minIdx, maxIdx, g) && g < f && |o| == |p.segments|
      && Solution(p, vs, SeedOffsets(g, |p.segments|), Somes(o), strict) && SpansPass(p, o, strict)
      ==> o in reports
  }

  /** The seed loop's counter runs through the seeds. */
  lemma SeedCounter(p: Pattern, minIdx: int, maxIdx: int, first: int, f: int)
    requires |p.segments| > 0 && first == FirstSeed(p, minIdx) && first <= f < maxIdx && (f - first) % 3 == 0
    ensures IsSeed(p, minIdx, maxIdx, f) && (f + 3 - first) % 3 == 0
  {
  }

  /** Seeds are three apart. */
  lemma SeedBelow(p: Pattern, minIdx: int, maxIdx: int, f: int, g: int)
    requires |p.segments| > 0 && (f - FirstSeed(p, minIdx)) % 3 == 0
    requires IsSeed(p, minIdx, maxIdx, g) && g < f + 3 && g != f
    ensures g < f
  {
  }

  /** The reports after a seed: its match, if any, appended. */
  function Appended(reports: seq<seq<int>>, m: Option<seq<int>>): (r: seq<seq<int>>)
    ensures forall o :: o in r <==> o in reports || m == Some(o)
  {
    if m.Some? then reports + [m.value] else reports
  }

  /** A match from seed `f` extends the reports of the seeds below, keeping them valid and in seed order. */
  lemma AppendReport(p: Pattern, vs: map<int, Bonds.BondRef>, minIdx: int, maxIdx: int, strict: bool,
                     reports: seq<seq<int>>, f: int, next: int, m: Option<seq<int>>)
    requires forall o :: o in reports ==> IsReport(p, vs, minIdx, maxIdx, strict, o) && o[0] < f
    requires SeedOrdered(reports) && f < next
    requires m.Some? ==> IsReport(p, vs, minIdx, maxIdx, strict, m.value) && m.value[0] == f
    ensures forall o :: o in Appended(reports, m) ==> IsReport(p, vs, minIdx, maxIdx, strict, o) && o[0] < next
    ensures SeedOrdered(Appended(reports, m))
  {
    if m.Some? {
      var r := Appended(reports, m);
      forall a, b | 0 <= a < b < |r| ensures |r[a]| > 0 && |r[b]| > 0 && r[a][0] < r[b][0] {
        assert r[a] in reports;
        if b < |reports| {
          assert r[b] == reports[b];
        }
      }
    }
  }

  /** The seed loop's invariant carries over one seed `f`. */
  lemma SeedStep(p: Pattern, vs: map<int, Bonds.BondRef>, minIdx: int, maxIdx: int, strict: bool,
                 reports: seq<seq<int>>, f: int, m: Option<seq<int>>)
    requires |p.segments| > 0 && (f - FirstSeed(p, minIdx)) % 3 == 0
    requires CoversBelow(p, vs, minIdx, maxIdx, strict, reports, f)
    requires forall o :: (|o| == |p.segments| && Solution(p, vs, SeedOffsets(f, |p.segments|), Somes(o), strict)
                          && SpansPass(p, o, strict)) ==> m == Some(o)
    ensures CoversBelow(p, vs, minIdx, maxIdx, strict, Appended(reports, m), f + 3)
  {
    var reports' := Appended(reports, m);
    forall g, o | IsSeed(p, minIdx, maxIdx, g) && g < f + 3 && |o| == |p.segments|
                  && Solution(p, vs, SeedOffsets(g, |p.segments|), Somes(o), strict) && SpansPass(p, o, strict)
      ensures o in reports'
    {
      if g != f {
        SeedBelow(p, minIdx, maxIdx, f, g);
      }
    }
  }

  /**
   * The invariant of the seed loop before seed `f`: the reports so far are
   * reports of seeds below `f`, in seed order, and cover every solution
   * from those seeds that passes the overlap test.
   */
  ghost predicate SeedInv(p: Pattern, vs: map<int, Bonds.BondRef>, minIdx: int, maxIdx: int, strict: bool,
                          first: int, reports: seq<seq<int>>, f: int) {
    && |p.segments| > 0 && first == FirstSeed(p, minIdx) && first <= f && (f - first) % 3 == 0
    && (forall o :: o in reports ==> IsReport(p, vs, minIdx, maxIdx, strict, o) && o[0] < f)
    && SeedOrdered(reports)
    && CoversBelow(p, vs, minIdx, maxIdx, strict, reports, f)
  }

  /** Once the counter passes the last seed, the invariant covers every seed. */
  lemma SeedsDone(p: Pattern, vs: map<int, Bonds.BondRef>, minIdx: int, maxIdx: int, strict: bool,
                  first: int, reports: seq<seq<int>>, f: int)
    requires SeedInv(p, vs, minIdx, maxIdx, strict, first, reports, f) && maxIdx <= f
    ensures forall o :: o in reports ==> IsReport(p, vs, minIdx, maxIdx, strict, o)
    ensures SeedOrdered(reports)
    ensures CoversBelow(p, vs, minIdx, maxIdx, strict, reports, maxIdx)
  {
  }

  /** The seed `f`, with what `MatchAt` promises about its outcome `m`, carries the invariant to the next seed. */
  lemma SeedAdvance(p: Pattern, vs: map<int, Bonds.BondRef>, minIdx: int, maxIdx: int, strict: bool,
                    first: int, reports: seq<seq<int>>, f: int, m: Option<seq<int>>)
    requires SeedInv(p, vs, minIdx, maxIdx, strict, first, reports, f) && f < maxIdx
    requires SeedOutcome(p, vs, f, strict, m)
    ensures SeedInv(p, vs, minIdx, maxIdx, strict, first, Appended(reports, m), f + 3)
  {
    SeedCounter(p, minIdx, maxIdx, first, f);
    SeedStep(p, vs, minIdx, maxIdx, strict, reports, f, m);
    AppendReport(p, vs, minIdx, maxIdx, strict, reports, f, f + 3, m);
  }

}

/**
 * The colouring step of `find_matches` (cdp.py, with `color_bonds`): for
 * every bond constraint of a reported match, the protein bond found at the
 * constraint's donor vertex records the colour "<pattern name>:<label>".
 *
 * Python iterates over the constraint dictionary in an order the model does
 * not fix: the order is chosen freely and returned as a ghost value, and the
 * colours are stated in terms of it.
 */
module Colouring {
  import opened Wrappers
  import opened Patterns
  import Bonds
  import Proteins

  // The exceptions of the colouring step, as the messages Python gives.
  const NoDonor := "AttributeError: 'NoneType' object has no attribute 'vidx'"
  const NoSegment := "IndexError: list index out of range"
  const OnCalpha := "AssertionError"
  const NoBond := "AttributeError: 'NoneType' object has no attribute 'add_color'"
  const NotHbond := "AttributeError: Tbond instance has no attribute 'add_color'"
  const NotText := "TypeError: cannot concatenate 'str' and non-str objects"

  /** One `add_color` call: the bond that records the colour, and the colour. */
  datatype Paint = Paint(bond: Bonds.Hbond, colour: string)

  /**
   * The `add_color` call for constraint `l` of the full placement `o`, or the
   * exception the source raises on the way: an unset donor, a segment index
   * out of range, the assertion of `get_Hbond` on a C-alpha atom, no bond or
   * a Tbond at the atom (no `add_color`), a label that is not a string.
   */
  function PaintStep(p: Pattern, vs: map<int, Bonds.BondRef>, o: seq<int>, l: Label): (r: Result<Paint>)
    requires l in p.hbonds
  {
    var c := p.hbonds[l];
    if c.donor.None? then Failure(NoDonor)
    else if c.donor.value.seg >= |o| then Failure(NoSegment)
    else
      var x := o[c.donor.value.seg] + c.donor.value.idx;
      if x % 3 == 1 then Failure(OnCalpha)
      else if x !in vs then Failure(NoBond)
      else if vs[x].TBond? then Failure(NotHbond)
      else if !l.Str? then Failure(NotText)
      else Success(Paint(vs[x].h, p.name + ":" + l.s))
  }

  /** The calls for the labels `ls` in that order; the first exception ends them. */
  function Paints(p: Pattern, vs: map<int, Bonds.BondRef>, o: seq<int>, ls: seq<Label>): (r: Result<seq<Paint>>)
    requires forall l :: l in ls ==> l in p.hbonds
    ensures r.Success? <==> forall k :: 0 <= k < |ls| ==> PaintStep(p, vs, o, ls[k]).Success?
    ensures r.Success? ==> |r.value| == |ls| && forall k :: 0 <= k < |ls| ==> r.value[k] == PaintStep(p, vs, o, ls[k]).value
  {
    if ls == [] then Success([])
    else
      var rest := Paints(p, vs, o, ls[..|ls| - 1]);
      var step := PaintStep(p, vs, o, ls[|ls| - 1]);
      if rest.Failure? then rest
      else if step.Failure? then Failure(step.error)
      else Success(rest.value + [step.value])
  }

  /** The colours `h` receives from the calls `ps`, in call order. */
  function ColoursFor(h: Bonds.Hbond, ps: seq<Paint>): (r: seq<string>)
    ensures |r| <= |ps|
    ensures forall s :: s in r ==> exists k :: 0 <= k < |ps| && ps[k] == Paint(h, s)
  {
    if ps == [] then []
    else ColoursFor(h, ps[..|ps| - 1]) + (if ps[|ps| - 1].bond == h then [ps[|ps| - 1].colour] else [])
  }

  lemma {:induction false} ColoursForAppend(h: Bonds.Hbond, a: seq<Paint>, b: seq<Paint>)
    ensures ColoursFor(h, a + b) == ColoursFor(h, a) + ColoursFor(h, b)
    decreases |b|
  {
    if b == [] {
      assert a + b == a;
    } else {
      assert (a + b)[..|a + b| - 1] == a + b[..|b| - 1];
      assert (a + b)[|a + b| - 1] == b[|b| - 1];
      ColoursForAppend(h, a, b[..|b| - 1]);
    }
  }

  /** One more call appends its colour to the bond it names, and to no other. */
  lemma ColoursForSnoc(h: Bonds.Hbond, ps: seq<Paint>, x: Paint)
    ensures ColoursFor(h, ps + [x]) == ColoursFor(h, ps) + (if x.bond == h then [x.colour] else [])
  {
    assert (ps + [x])[..|ps|] == ps;
  }

  /** The calls for one more label: the earlier calls, then its own. */
  lemma PaintsSnoc(p: Pattern, vs: map<int, Bonds.BondRef>, o: seq<int>, ls: seq<Label>, l: Label)
    requires forall l' :: l' in ls ==> l' in p.hbonds
    requires l in p.hbonds && Paints(p, vs, o, ls).Success?
    ensures PaintStep(p, vs, o, l).Success? ==>
      Paints(p, vs, o, ls + [l]) == Success(Paints(p, vs, o, ls).value + [PaintStep(p, vs, o, l).value])
    ensures PaintStep(p, vs, o, l).Failure? ==> Paints(p, vs, o, ls + [l]) == Failure(PaintStep(p, vs, o, l).error)
  {
    assert (ls + [l])[..|ls|] == ls;
  }

  /** A bond no call names receives no colour. */
  lemma {:induction false} ColoursForAbsent(h: Bonds.Hbond, ps: seq<Paint>)
    requires forall k :: 0 <= k < |ps| ==> ps[k].bond != h
    ensures ColoursFor(h, ps) == []
  {
    if ps != [] {
      ColoursForAbsent(h, ps[..|ps| - 1]);
    }
  }

  /** `order` lists the labels of `p` once each. */
  ghost predicate Enumerates(order: seq<Label>, p: Pattern) {
    && (forall l :: l in order <==> l in p.hbonds)
    && (forall a, b :: 0 <= a < b < |order| ==> order[a] != order[b])
  }

  /**
   * A constraint whose donor is the chord vertex of its own label, matched
   * at a protein H-bond: the colour is the pattern's name and the label, and
   * it goes to the very bond found at the chord's two ends.
   */
  lemma PaintOnChord(p: Pattern, vs: map<int, Bonds.BondRef>, o: seq<int>, l: Label,
                     w: Pos, y: int)
    requires l in p.hbonds && p.hbonds[l].donor == Some(w) && w.seg < |o|
    requires Bonds.OneBondPerIndex(vs)
    requires var x := o[w.seg] + w.idx; x % 3 != 1 && x in vs && y in vs && vs[y] == vs[x]
    ensures var x := o[w.seg] + w.idx;
      && (PaintStep(p, vs, o, l).Success? <==> vs[x].HBond? && l.Str?)
      && (PaintStep(p, vs, o, l).Success? ==>
            var b := PaintStep(p, vs, o, l).value.bond;
            && PaintStep(p, vs, o, l).value.colour == p.name + ":" + l.s
            && vs[x] == Bonds.HBond(b) && vs[y] == Bonds.HBond(b)
            && (x == b.donor || x == b.accptr))
  {
  }

  /** The bond a call names is one of the protein's listed H-bonds. */
  lemma PaintedListed(p: Pattern, vs: map<int, Bonds.BondRef>, o: seq<int>, l: Label,
                      hbonds: seq<Bonds.Hbond>, tbonds: seq<Bonds.Tbond>)
    requires Bonds.Listed(vs, hbonds, tbonds) && l in p.hbonds && PaintStep(p, vs, o, l).Success?
    ensures PaintStep(p, vs, o, l).value.bond in hbonds
  {
    var c := p.hbonds[l];
    var x := o[c.donor.value.seg] + c.donor.value.idx;
    assert x in vs && vs[x].HBond?;
  }

  /** The colour bond `h` gains from a call, if any. */
  function Gained(h: Bonds.Hbond, call: Option<Paint>): seq<string> {
    if call.Some? && call.value.bond == h then [call.value.colour] else []
  }

  /** Colouring one more match in the order `order`, making the calls `cs`, extends the record of colourings. */
  lemma ColouredSnoc(p: Pattern, vs: map<int, Bonds.BondRef>, os: seq<seq<int>>,
                     orders: seq<seq<Label>>, calls: seq<seq<Paint>>, o: seq<int>, order: seq<Label>, cs: seq<Paint>)
    requires ColouredAll(p, vs, os, orders, calls)
    requires Enumerates(order, p) && Paints(p, vs, o, order) == Success(cs)
    ensures ColouredAll(p, vs, os + [o], orders + [order], calls + [cs])
  {
  }

  /** Each match `os[k]` was coloured in the label order `orders[k]`, making the calls `calls[k]`. */
  ghost predicate ColouredAll(p: Pattern, vs: map<int, Bonds.BondRef>, os: seq<seq<int>>,
                              orders: seq<seq<Label>>, calls: seq<seq<Paint>>) {
    && |orders| == |calls| == |os|
    && forall k :: 0 <= k < |os| ==> Enumerates(orders[k], p) && Paints(p, vs, os[k], orders[k]) == Success(calls[k])
  }

  /** The calls of several matches, one after the other. */
  function Flatten(xs: seq<seq<Paint>>): seq<Paint> {
    if xs == [] then [] else Flatten(xs[..|xs| - 1]) + xs[|xs| - 1]
  }

  lemma FlattenSnoc(xs: seq<seq<Paint>>, x: seq<Paint>)
    ensures Flatten(xs + [x]) == Flatten(xs) + x
  {
    assert (xs + [x])[..|xs|] == xs;
  }

  /** Colouring one more match appends its calls' colours. */
  lemma MatchColours(h: Bonds.Hbond, c0: seq<string>, c1: seq<string>, c2: seq<string>,
                     prev: seq<seq<Paint>>, calls: seq<Paint>)
    requires c1 == c0 + ColoursFor(h, Flatten(prev)) && c2 == c1 + ColoursFor(h, calls)
    ensures c2 == c0 + ColoursFor(h, Flatten(prev + [calls]))
  {
    FlattenSnoc(prev, calls);
    ColoursForAppend(h, Flatten(prev), calls);
    assert c2 == c0 + (ColoursFor(h, Flatten(prev)) + ColoursFor(h, calls));
  }

  /** `prot.get_Hbond(idx).add_color(name + ":" + label)` for constraint `l` of the match `o`. */
  method ColourOne(p: Pattern, prot: Proteins.Protein, o: seq<int>, l: Label) returns (r: Result<()>)
    requires prot.Valid() && l in p.hbonds
    modifies set h | h in prot.hbonds
    ensures r.Success? <==> PaintStep(p, prot.vertices, o, l).Success?
    ensures r.Failure? ==> r.error == PaintStep(p, prot.vertices, o, l).error
    ensures forall h :: h in prot.hbonds ==>
              h.colors == old(h.colors) + Gained(h, if r.Success? then Some(PaintStep(p, prot.vertices, o, l).value) else None)
  {
    var step := PaintStep(p, prot.vertices, o, l);
    if step.Failure? {
      return Failure(step.error);
    }
    PaintedListed(p, prot.vertices, o, l, prot.hbonds, prot.tbonds);
    step.value.bond.AddColor(step.value.colour);
    return Success(());
  }

  /**
   * The labels still to colour, `rest`, and those coloured so far, in
   * `order`, share out the pattern's labels, each coloured once.
   */
  ghost predicate Drawn(p: Pattern, rest: set<Label>, order: seq<Label>) {
    && (forall l :: l in p.hbonds <==> l in rest || l in order)
    && (forall l :: l in order ==> l !in rest)
    && (forall a, b :: 0 <= a < b < |order| ==> order[a] != order[b])
  }

  lemma DrawNext(p: Pattern, rest: set<Label>, order: seq<Label>, l: Label)
    requires Drawn(p, rest, order) && l in rest
    ensures Drawn(p, rest - {l}, order + [l])
    ensures l in p.hbonds && forall l' :: l' in order ==> l' in p.hbonds
  {
  }

  lemma DrawnAll(p: Pattern, order: seq<Label>)
    requires Drawn(p, {}, order)
    ensures Enumerates(order, p)
  {
  }

  /** Partway through the loop: the labels in `order` are coloured, with the calls `calls`. */
  ghost predicate Partway(p: Pattern, vs: map<int, Bonds.BondRef>, o: seq<int>,
                          rest: set<Label>, order: seq<Label>, calls: seq<Paint>) {
    Drawn(p, rest, order) && Paints(p, vs, o, order) == Success(calls)
  }

  /**
   * One turn of the colouring loop: constraint `l`, taken from `rest`, is
   * coloured on top of the calls made so far, which on success gain the new
   * call.
   */
  method ColourNext(p: Pattern, prot: Proteins.Protein, o: seq<int>, l: Label, ghost c0: map<Bonds.Hbond, seq<string>>,
                    ghost rest: set<Label>, ghost order: seq<Label>, ghost calls: seq<Paint>)
    returns (r: Result<()>, ghost next: seq<Paint>)
    requires prot.Valid() && l in rest && Partway(p, prot.vertices, o, rest, order, calls)
    requires forall h :: h in prot.hbonds ==> h in c0 && h.colors == c0[h] + ColoursFor(h, calls)
    modifies set h | h in prot.hbonds
    ensures forall l' :: l' in order + [l] ==> l' in p.hbonds
    ensures r.Success? ==> Partway(p, prot.vertices, o, rest - {l}, order + [l], next)
    ensures r.Failure? ==> Paints(p, prot.vertices, o, order + [l]) == Failure(r.error) && next == calls
    ensures forall h :: h in prot.hbonds ==> h.colors == c0[h] + ColoursFor(h, next)
  {
    DrawNext(p, rest, order, l);
    PaintsSnoc(p, prot.vertices, o, order, l);
    r := ColourOne(p, prot, o, l);
    if r.Failure? {
      next := calls;
      return;
    }
    ghost var call := PaintStep(p, prot.vertices, o, l).value;
    next := calls + [call];
    forall h | h in prot.hbonds ensures h.colors == c0[h] + ColoursFor(h, next) {
      ColoursForSnoc(h, calls, call);
    }
  }

  /**
   * The colouring loop for one match: `add_color` once per constraint, in
   * an order the dictionary chooses (`order`), making the calls `calls`.
   * On success the order lists every label once; on an exception it ends
   * with the failing label, after the calls for the labels before it. Each
   * of the protein's H-bonds appends exactly the colours of the calls
   * naming it.
   */
  method ColourMatch(p: Pattern, prot: Proteins.Protein, o: seq<int>)
    returns (r: Result<()>, ghost order: seq<Label>, ghost calls: seq<Paint>)
    requires prot.Valid()
    modifies set h | h in prot.hbonds
    ensures forall l :: l in order ==> l in p.hbonds
    ensures r.Success? ==> Enumerates(order, p) && Paints(p, prot.vertices, o, order) == Success(calls)
    ensures r.Failure? ==> |order| > 0 && Paints(p, prot.vertices, o, order) == Failure(r.error)
    ensures r.Failure? ==> Paints(p, prot.vertices, o, order[..|order| - 1]) == Success(calls)
    ensures forall h :: h in prot.hbonds ==> h.colors == old(h.colors) + ColoursFor(h, calls)
  {
    ghost var vs := prot.vertices;
    ghost var c0 := map h | h in prot.hbonds :: h.colors;
    calls := [];
    var rest := p.hbonds.Keys;
    order := [];
    while rest != {}
      invariant Partway(p, vs, o, rest, order, calls)
      invariant forall h :: h in prot.hbonds ==> h.colors == c0[h] + ColoursFor(h, calls)
      decreases |rest|
    {
      var l :| l in rest;
      var step;
      ghost var done := order;
      step, calls := ColourNext(p, prot, o, l, c0, rest, order, calls);
      rest := rest - {l};
      order := order + [l];
      if step.Failure? {
        assert order[..|order| - 1] == done;
        return Failure(step.error), order, calls;
      }
    }
    DrawnAll(p, order);
    assert forall l :: l in order ==> l in p.hbonds;
    return Success(()), order, calls;
  }
}

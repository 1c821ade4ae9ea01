/**
 * The seed loop of `find_matches` (cdp.py), with the optional colouring of
 * each report.
 */
module Finder {
  import opened Wrappers
  import opened Patterns
  import opened Matcher
  import Bonds
  import Proteins
  import Colouring

  /**
   * One seed of `find_matches`: `MatchAt`, then, for a report with
   * `colorBonds`, its colouring (in the label order `order`, making the
   * calls `calls`). A colouring exception ends the seed with that Failure.
   */
  method ReportAt(p: Pattern, prot: Proteins.Protein, f: int, strict: bool, colorBonds: bool)
    returns (r: Result<Option<seq<int>>>, ghost order: seq<Label>, ghost calls: seq<Colouring.Paint>)
    requires prot.Valid() && |p.segments| > 0
    modifies set h | h in prot.hbonds
    ensures r.Success? ==> SeedOutcome(p, prot.vertices, f, strict, r.value)
    ensures r.Success? && r.value.Some? && colorBonds ==>
      Colouring.Enumerates(order, p) && Colouring.Paints(p, prot.vertices, r.value.value, order) == Success(calls)
    ensures r.Success? && !(r.value.Some? && colorBonds) ==> calls == []
    ensures !colorBonds ==> calls == []
    ensures forall h :: h in prot.hbonds ==> h.colors == old(h.colors) + Colouring.ColoursFor(h, calls)
  {
    order, calls := [], [];
    r := MatchAt(p, prot, f, strict);
    if r.Success? && r.value.Some? && colorBonds {
      r, order, calls := ColourReport(p, prot, r.value.value);
    }
  }

  /** The colouring of one report `o`: `o` again, or the exception the colouring raised. */
  method ColourReport(p: Pattern, prot: Proteins.Protein, o: seq<int>)
    returns (r: Result<Option<seq<int>>>, ghost order: seq<Label>, ghost calls: seq<Colouring.Paint>)
    requires prot.Valid()
    modifies set h | h in prot.hbonds
    ensures unchanged(prot)
    ensures r.Success? ==> r.value == Some(o)
    ensures r.Success? ==> Colouring.Enumerates(order, p) && Colouring.Paints(p, prot.vertices, o, order) == Success(calls)
    ensures forall h :: h in prot.hbonds ==> h.colors == old(h.colors) + Colouring.ColoursFor(h, calls)
  {
    var c;
    c, order, calls := Colouring.ColourMatch(p, prot, o);
    r := if c.Success? then Success(Some(o)) else Failure(c.error);
  }

  /**
   * `find_matches`: the placements reported by the seeds
   * `range(FirstSeed, maxidx, 3)`, in seed order; in strict mode by default
   * the pattern's own `strict`.
   *
   * Every report is a full placement matching from its seed; every
   * solution from a seed that passes the overlap test is reported. With
   * `colorBonds`, each report is coloured as it is found (`ColourMatch`, in
   * the label order `orders[k]`, making the calls `calls[k]`); every
   * H-bond of the protein appends exactly the colours of those calls.
   */
  method FindMatches(p: Pattern, prot: Proteins.Protein, strict: Option<bool>, colorBonds: bool)
    returns (r: Result<seq<seq<int>>>, ghost orders: seq<seq<Label>>, ghost calls: seq<seq<Colouring.Paint>>)
    requires prot.Valid()
    modifies set h | h in prot.hbonds
    ensures |p.segments| == 0 ==> r == Success([])
    ensures r.Success? ==> forall o :: o in r.value ==>
              IsReport(p, prot.vertices, prot.minIdx, prot.maxIdx, ModeOf(p, strict), o)
    ensures r.Success? ==> SeedOrdered(r.value)
    ensures r.Success? ==> CoversBelow(p, prot.vertices, prot.minIdx, prot.maxIdx, ModeOf(p, strict), r.value, prot.maxIdx)
    ensures !colorBonds ==> calls == []
    ensures colorBonds && r.Success? ==> Colouring.ColouredAll(p, prot.vertices, r.value, orders, calls)
    ensures forall h :: h in prot.hbonds ==> h.colors == old(h.colors) + Colouring.ColoursFor(h, Colouring.Flatten(calls))
  {
    orders, calls := [], [];
    var s := ModeOf(p, strict);
    if |p.segments| == 0 {
      return Success([]), orders, calls;
    }
    ghost var c0 := map h | h in prot.hbonds :: h.colors;
    var first := (prot.minIdx / 3) * 3 + Bonds.AtomMod3(p.segments[0].first);
    var f;
    r, f, orders, calls := SeedLoop(p, prot, s, colorBonds, first, c0);
    if r.Success? {
      SeedsDone(p, prot.vertices, prot.minIdx, prot.maxIdx, s, first, r.value, f);
    }
  }

  /** The loop over the seeds from `first`, stopping at the first Failure; `c0` holds the colours before it. */
  method SeedLoop(p: Pattern, prot: Proteins.Protein, s: bool, colorBonds: bool, first: int,
                  ghost c0: map<Bonds.Hbond, seq<string>>)
    returns (r: Result<seq<seq<int>>>, f: int, ghost orders: seq<seq<Label>>, ghost calls: seq<seq<Colouring.Paint>>)
    requires prot.Valid() && |p.segments| > 0 && first == FirstSeed(p, prot.minIdx)
    requires forall h :: h in prot.hbonds ==> h in c0 && h.colors == c0[h]
    modifies set h | h in prot.hbonds
    ensures unchanged(prot)
    ensures r.Success? ==> f >= prot.maxIdx && Progress(p, prot.vertices, prot.minIdx, prot.maxIdx, s, first, r.value, f, colorBonds, orders, calls)
    ensures !colorBonds ==> calls == []
    ensures forall h :: h in prot.hbonds ==> h in c0 && h.colors == c0[h] + Colouring.ColoursFor(h, Colouring.Flatten(calls))
  {
    orders, calls := [], [];
    ghost var vs := prot.vertices;
    ghost var lo := prot.minIdx;
    var hi := prot.maxIdx;
    f := first;
    var reports: seq<seq<int>> := [];
    while f < hi
      invariant Progress(p, vs, lo, hi, s, first, reports, f, colorBonds, orders, calls)
      invariant forall h :: h in prot.hbonds ==> h in c0 && h.colors == c0[h] + Colouring.ColoursFor(h, Colouring.Flatten(calls))
      decreases hi - f
    {
      var next;
      next, orders, calls := NextSeed(p, prot, s, colorBonds, vs, lo, hi, first, f, reports, orders, calls, c0);
      if next.Failure? {
        return Failure(next.error), f, orders, calls;
      }
      reports := next.value;
      f := f + 3;
    }
    return Success(reports), f, orders, calls;
  }

  /**
   * The seed loop's invariant before seed `f`: the reports so far cover the
   * earlier seeds, and with `colorBonds` each of them has been coloured.
   */
  ghost predicate Progress(p: Pattern, vs: map<int, Bonds.BondRef>, lo: int, hi: int, s: bool, first: int,
                           reports: seq<seq<int>>, f: int, colorBonds: bool,
                           orders: seq<seq<Label>>, calls: seq<seq<Colouring.Paint>>) {
    && SeedInv(p, vs, lo, hi, s, first, reports, f)
    && (!colorBonds ==> calls == [])
    && (colorBonds ==> Colouring.ColouredAll(p, vs, reports, orders, calls))
  }

  /**
   * The body of the seed loop at seed `f`: the reports, label orders and
   * colouring calls so far, and `c0`, the colours before the loop, go in;
   * those after seed `f` come out, keeping the loop's invariant.
   */
  method NextSeed(p: Pattern, prot: Proteins.Protein, s: bool, colorBonds: bool, ghost vs: map<int, Bonds.BondRef>, ghost lo: int, hi: int,
                  first: int, f: int, reports: seq<seq<int>>, ghost orders: seq<seq<Label>>,
                  ghost calls: seq<seq<Colouring.Paint>>, ghost c0: map<Bonds.Hbond, seq<string>>)
    returns (r: Result<seq<seq<int>>>, ghost orders': seq<seq<Label>>, ghost calls': seq<seq<Colouring.Paint>>)
    requires prot.Valid() && vs == prot.vertices && lo == prot.minIdx && hi == prot.maxIdx && f < hi
    requires Progress(p, vs, lo, hi, s, first, reports, f, colorBonds, orders, calls)
    requires forall h :: h in prot.hbonds ==> h in c0 && h.colors == c0[h] + Colouring.ColoursFor(h, Colouring.Flatten(calls))
    modifies set h | h in prot.hbonds
    ensures unchanged(prot)
    ensures !colorBonds ==> calls' == []
    ensures r.Success? ==> Progress(p, vs, lo, hi, s, first, r.value, f + 3, colorBonds, orders', calls')
    ensures forall h :: h in prot.hbonds ==> h in c0 && h.colors == c0[h] + Colouring.ColoursFor(h, Colouring.Flatten(calls'))
  {
    orders', calls' := orders, calls;
    var m, order, cs := ReportAt(p, prot, f, s, colorBonds);
    if colorBonds && (m.Failure? || m.value.Some?) {
      forall h | h in prot.hbonds
        ensures h in c0 && h.colors == c0[h] + Colouring.ColoursFor(h, Colouring.Flatten(calls + [cs]))
      {
        Colouring.MatchColours(h, c0[h], old(h.colors), h.colors, calls, cs);
      }
      if m.Success? {
        Colouring.ColouredSnoc(p, vs, reports, orders, calls, m.value.value, order, cs);
      }
      orders', calls' := orders + [order], calls + [cs];
    }
    if m.Failure? {
      return Failure(m.error), orders', calls';
    }
    SeedAdvance(p, vs, lo, hi, s, first, reports, f, m.value);
    return Success(Appended(reports, m.value)), orders', calls';
  }

  /** `strict` defaults to the pattern's own. */
  function ModeOf(p: Pattern, strict: Option<bool>): bool {
    if strict.Some? then strict.value else p.strict
  }
}

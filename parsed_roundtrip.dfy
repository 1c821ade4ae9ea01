/**
 * Which patterns the constructor of CDP produces print and read back. Every
 * parsed pattern has its bond ends at chord vertices of the right atoms and
 * only `*`, `i` and chord vertices; what the parser does not rule out are
 * labels that are no word, empty distance sets and SO3 classes that are no
 * set item. Without those, a parsed pattern is printable, so
 * `PrintParse` applies to it.
 */
module ParsedRoundTrip {
  import opened Wrappers
  import Text
  import KeyVal
  import Bonds
  import opened Patterns
  import opened PatternRoundTrip

  // ----- the dictionary of `parse_keyval` -----

  /** A set value lists at least one member, none twice. */
  predicate ItemsGood(v: KeyVal.Value) {
    v.Items? ==> |v.items| >= 1 && KeyVal.NoRepeats(v.items)
  }

  lemma ItemSetGood(body: string)
    ensures ItemsGood(KeyVal.Items(KeyVal.ItemSet(body)))
  {
    var ps := Text.StripAll(Text.Split(body, ','));
    assert ps[0] in ps;
    KeyVal.DistinctNoRepeats(ps);
  }

  predicate DictGood(d: KeyVal.Dict) {
    forall k :: k in d ==> ItemsGood(d[k])
  }

  lemma DictGoodUpdate(d: KeyVal.Dict, k: string, v: KeyVal.Value)
    requires DictGood(d) && ItemsGood(v)
    ensures DictGood(d[k := v])
  {
  }

  /** Every set that `parse_keyval` produces lists at least one member, none twice. */
  lemma {:induction false} ParseItemsGood(s: string, d: KeyVal.Dict)
    requires DictGood(d) && KeyVal.Parse(s, d).Success?
    ensures DictGood(KeyVal.Parse(s, d).value)
    decreases |s|
  {
    var t := KeyVal.DropSeparators(s);
    if t == [] {
    } else if KeyVal.MatchIn(t).Some? {
      var m := KeyVal.MatchIn(t).value;
      MatchInItems(t);
      DictGoodUpdate(d, m.0, m.1);
      assert KeyVal.Parse(s, d) == KeyVal.Parse(m.2, d[m.0 := m.1]);
      ParseItemsGood(m.2, d[m.0 := m.1]);
    } else if KeyVal.MatchEq(t).Some? {
      var m := KeyVal.MatchEq(t).value;
      DictGoodUpdate(d, m.0, m.1);
      assert KeyVal.Parse(s, d) == KeyVal.Parse(m.2, d[m.0 := m.1]);
      ParseItemsGood(m.2, d[m.0 := m.1]);
    } else {
      var m := KeyVal.MatchWord(t).value;
      var d' := KeyVal.AddBare(d, m.0);
      if "label" in d {
        DictGoodUpdate(d, m.0, KeyVal.Flag);
      } else {
        DictGoodUpdate(d, "label", KeyVal.Str(m.0));
      }
      assert KeyVal.Parse(s, d) == KeyVal.Parse(m.1, d');
      ParseItemsGood(m.1, d');
    }
  }

  lemma MatchInItems(t: string)
    requires KeyVal.MatchIn(t).Some?
    ensures ItemsGood(KeyVal.MatchIn(t).value.1)
  {
    var w := KeyVal.Span(t, Text.IsWordChar);
    var u := t[w..][KeyVal.Span(t[w..], Text.IsSpace)..];
    var v := u[2..];
    var y := v[KeyVal.Span(v, Text.IsSpace)..][1..];
    ItemSetGood(y[..KeyVal.Span(y, KeyVal.NotBrace)]);
  }

  // ----- the properties of a bond -----

  /** What the parser guarantees of a bond's properties: a non-empty set of distinct SO3 classes, increasing distances. */
  predicate PropsOk(c: Constraint) {
    && (c.so3class.Some? ==> |c.so3class.value| >= 1 && KeyVal.NoRepeats(c.so3class.value))
    && (c.dist.Some? ==> Increasing(c.dist.value))
  }

  /** `set_properties` keeps the ends and gives properties of that kind. */
  lemma SetPropertiesOk(c: Constraint, kv: KeyVal.Dict)
    requires PropsOk(c) && DictGood(kv) && SetProperties(c, kv).Success?
    ensures PropsOk(SetProperties(c, kv).value)
    ensures SetProperties(c, kv).value.donor == c.donor && SetProperties(c, kv).value.accptr == c.accptr
  {
    var c1 := if "SO3class" in kv then SetSO3class(c, kv["SO3class"]) else Success(c);
    assert c1.Success? && PropsOk(c1.value);
  }

  // ----- the vertices read so far -----

  /**
   * Vertex `q` has been read, when the complete segments are `segs` and the
   * segment being read has the vertices `pre` so far.
   */
  predicate InP(segs: seq<Segment>, pre: seq<Vertex>, q: Pos) {
    (q.seg < |segs| && q.idx < |segs[q.seg].vertices|) || (q.seg == |segs| && q.idx < |pre|)
  }

  /** The vertex read at `q` and its atom kind; `first` is the first atom of the segment being read. */
  function VAt(segs: seq<Segment>, first: Bonds.Atom, pre: seq<Vertex>, q: Pos): (Vertex, Bonds.Atom)
    requires InP(segs, pre, q)
  {
    if q.seg < |segs| then (segs[q.seg].vertices[q.idx], VertexAtom(segs[q.seg].first, q.idx))
    else (pre[q.idx], VertexAtom(first, q.idx))
  }

  /** A set end of bond `l` is a vertex already read, a chord of `l` at an atom of kind `atom`. */
  predicate EndOk(segs: seq<Segment>, first: Bonds.Atom, pre: seq<Vertex>, e: Option<Pos>, l: Label, atom: Bonds.Atom) {
    e.Some? ==> InP(segs, pre, e.value) && VAt(segs, first, pre, e.value) == (Chord(l), atom)
  }

  /** A vertex read is `*`, `i`, or a chord at one end of its bond. */
  predicate VertexOk(h: map<Label, Constraint>, q: Pos, v: Vertex) {
    match v
    case Wildcard => true
    case Isolated => true
    case Chord(l) => l in h && (h[l].donor == Some(q) || h[l].accptr == Some(q))
    case _ => false
  }

  /** The bond map and the vertices read so far agree. */
  ghost predicate Inv(h: map<Label, Constraint>, segs: seq<Segment>, first: Bonds.Atom, pre: seq<Vertex>) {
    && (forall l :: l in h ==>
          && EndOk(segs, first, pre, h[l].donor, l, Bonds.N)
          && EndOk(segs, first, pre, h[l].accptr, l, Bonds.O)
          && PropsOk(h[l]))
    && (forall q :: InP(segs, pre, q) ==> VertexOk(h, q, VAt(segs, first, pre, q).0))
  }

  /** Reading one more vertex adds exactly its position. */
  lemma ExtendPre(segs: seq<Segment>, first: Bonds.Atom, pre: seq<Vertex>, v: Vertex)
    ensures forall x :: InP(segs, pre + [v], x) <==> InP(segs, pre, x) || x == Pos(|segs|, |pre|)
    ensures forall x :: InP(segs, pre, x) ==> VAt(segs, first, pre + [v], x) == VAt(segs, first, pre, x)
    ensures !InP(segs, pre, Pos(|segs|, |pre|))
    ensures InP(segs, pre + [v], Pos(|segs|, |pre|))
    ensures VAt(segs, first, pre + [v], Pos(|segs|, |pre|)) == (v, VertexAtom(first, |pre|))
  {
  }

  /** A vertex `*` or `i` leaves the bonds as they are. */
  lemma PlainStep(h: map<Label, Constraint>, segs: seq<Segment>, first: Bonds.Atom, pre: seq<Vertex>, v: Vertex)
    requires Inv(h, segs, first, pre) && (v == Wildcard || v == Isolated)
    ensures Inv(h, segs, first, pre + [v])
  {
    ExtendPre(segs, first, pre, v);
  }

  /** A chord vertex of bond `lab` at `Pos(|segs|, |pre|)`, becoming the end `c2` has there. */
  lemma ChordStep(h: map<Label, Constraint>, segs: seq<Segment>, first: Bonds.Atom, pre: seq<Vertex>,
                  lab: Label, c2: Constraint)
    requires Inv(h, segs, first, pre) && PropsOk(c2)
    requires var q := Pos(|segs|, |pre|); var atom := VertexAtom(first, |pre|);
      var c := if lab in h then h[lab] else Unset;
      && (atom == Bonds.N ==> c.donor.None? && c2.donor == Some(q) && c2.accptr == c.accptr)
      && (atom == Bonds.O ==> c.accptr.None? && c2.accptr == Some(q) && c2.donor == c.donor)
      && atom != Bonds.Ca
    ensures Inv(h[lab := c2], segs, first, pre + [Chord(lab)])
  {
    var q := Pos(|segs|, |pre|);
    var pre' := pre + [Chord(lab)];
    var h' := h[lab := c2];
    ExtendPre(segs, first, pre, Chord(lab));
    forall l | l in h'
      ensures EndOk(segs, first, pre', h'[l].donor, l, Bonds.N)
      ensures EndOk(segs, first, pre', h'[l].accptr, l, Bonds.O)
    {
      if l != lab {
        assert EndOk(segs, first, pre, h[l].donor, l, Bonds.N);
        assert EndOk(segs, first, pre, h[l].accptr, l, Bonds.O);
      } else if lab in h {
        assert EndOk(segs, first, pre, h[l].donor, l, Bonds.N);
        assert EndOk(segs, first, pre, h[l].accptr, l, Bonds.O);
      }
    }
    forall x | InP(segs, pre', x) ensures VertexOk(h', x, VAt(segs, first, pre', x).0) {
      if x != q {
        assert VertexOk(h, x, VAt(segs, first, pre, x).0);
      }
    }
  }

  /** Reading vertex `Pos(|segs|, |pre|)` keeps the bonds and the vertices read in agreement. */
  lemma VertexInv(spec: string, segs: seq<Segment>, first: Bonds.Atom, pre: seq<Vertex>, h: map<Label, Constraint>)
    requires Inv(h, segs, first, pre)
    requires ParseVertex(spec, Pos(|segs|, |pre|), VertexAtom(first, |pre|), h).Success?
    ensures var r := ParseVertex(spec, Pos(|segs|, |pre|), VertexAtom(first, |pre|), h).value;
      Inv(r.1, segs, first, pre + [r.0])
  {
    var q := Pos(|segs|, |pre|);
    var atom := VertexAtom(first, |pre|);
    var t := Text.Strip(spec);
    if t == "*" || t == "i" {
      PlainStep(h, segs, first, pre, if t == "*" then Wildcard else Isolated);
    } else {
      var body := MatchChord(t).value;
      var kv := KeyVal.ParseSpec(body).value;
      ParseItemsGood(Text.Strip(body), map[]);
      var lab := kv["label"];
      var c := if lab in h then h[lab] else Unset;
      var c1 := SetEndpoint(c, q, atom).value;
      SetEndpointFrames(c, q, atom);
      assert DictGood(kv - {"label"});
      SetPropertiesOk(c1, kv - {"label"});
      var c2 := SetProperties(c1, kv - {"label"}).value;
      ChordStep(h, segs, first, pre, lab, c2);
    }
  }

  /** Reading the vertices numbered `|pre|` onwards of segment `|segs|`. */
  lemma {:induction false} VerticesInv(vspecs: seq<string>, segs: seq<Segment>, first: Bonds.Atom, pre: seq<Vertex>,
                                       h: map<Label, Constraint>)
    requires Inv(h, segs, first, pre)
    requires ParseVertices(vspecs, |segs|, first, |pre|, h).Success?
    ensures var r := ParseVertices(vspecs, |segs|, first, |pre|, h).value;
      Inv(r.1, segs, first, pre + r.0)
    decreases |vspecs| - |pre|
  {
    var i := |pre|;
    if i >= |vspecs| {
      assert pre + [] == pre;
    } else {
      var v := ParseVertex(vspecs[i], Pos(|segs|, i), VertexAtom(first, i), h);
      VertexInv(vspecs[i], segs, first, pre, h);
      var pre' := pre + [v.value.0];
      VerticesInv(vspecs, segs, first, pre', v.value.1);
      var rest := ParseVertices(vspecs, |segs|, first, i + 1, v.value.1);
      VerticesUnfold(vspecs, |segs|, first, i, h);
      InvRegroup(rest.value.1, segs, first, pre, v.value.0, rest.value.0);
    }
  }

  lemma InvRegroup(h: map<Label, Constraint>, segs: seq<Segment>, first: Bonds.Atom, pre: seq<Vertex>, v: Vertex, rest: seq<Vertex>)
    requires Inv(h, segs, first, pre + [v] + rest)
    ensures Inv(h, segs, first, pre + ([v] + rest))
  {
    assert pre + [v] + rest == pre + ([v] + rest);
  }

  lemma VerticesUnfold(vspecs: seq<string>, sidx: nat, first: Bonds.Atom, i: nat, h: map<Label, Constraint>)
    requires i < |vspecs| && ParseVertices(vspecs, sidx, first, i, h).Success?
    ensures var v := ParseVertex(vspecs[i], Pos(sidx, i), VertexAtom(first, i), h);
      && v.Success? && ParseVertices(vspecs, sidx, first, i + 1, v.value.1).Success?
      && ParseVertices(vspecs, sidx, first, i, h)
         == Success(([v.value.0] + ParseVertices(vspecs, sidx, first, i + 1, v.value.1).value.0,
                     ParseVertices(vspecs, sidx, first, i + 1, v.value.1).value.1))
  {
  }

  /** A segment read completely joins the complete ones. */
  lemma CloseSegment(h: map<Label, Constraint>, segs: seq<Segment>, first: Bonds.Atom, vs: seq<Vertex>, first': Bonds.Atom)
    requires Inv(h, segs, first, vs)
    ensures Inv(h, segs + [Segment(first, vs)], first', [])
  {
    var segs' := segs + [Segment(first, vs)];
    assert forall x :: InP(segs', [], x) <==> InP(segs, vs, x);
    assert forall x :: InP(segs, vs, x) ==> VAt(segs', first', [], x) == VAt(segs, first, vs, x);
  }

  /** Between segments the first atom of the next one plays no part. */
  lemma NewSegment(h: map<Label, Constraint>, segs: seq<Segment>, first: Bonds.Atom, first': Bonds.Atom)
    requires Inv(h, segs, first, [])
    ensures Inv(h, segs, first', [])
  {
    assert forall x :: InP(segs, [], x) ==> VAt(segs, first', [], x) == VAt(segs, first, [], x);
  }

  /** Reading segment number `|segs|`. */
  lemma SegmentInv(spec: string, segs: seq<Segment>, first: Bonds.Atom, h: map<Label, Constraint>)
    requires Inv(h, segs, first, [])
    requires ParseSegment(spec, |segs|, h).Success?
    ensures var r := ParseSegment(spec, |segs|, h).value;
      Inv(r.1, segs + [r.0], first, [])
  {
    var t := Text.Strip(spec);
    var a := AtomOfLetter(t[0]).value;
    NewSegment(h, segs, first, a);
    var vspecs := VertexSpecs(SegmentBody(t));
    VerticesInv(vspecs, segs, a, [], h);
    var r := ParseVertices(vspecs, |segs|, a, 0, h).value;
    assert [] + r.0 == r.0;
    CloseSegment(r.1, segs, a, r.0, first);
  }

  /** Reading the segments numbered `|segs|` onwards. */
  lemma {:induction false} SegmentsInv(specs: seq<string>, segs: seq<Segment>, first: Bonds.Atom, h: map<Label, Constraint>)
    requires Inv(h, segs, first, [])
    requires ParseSegments(specs, |segs|, h).Success?
    ensures var r := ParseSegments(specs, |segs|, h).value;
      Inv(r.1, segs + r.0, first, [])
    decreases |specs| - |segs|
  {
    var i := |segs|;
    if i >= |specs| {
      assert segs + [] == segs;
    } else {
      var s := ParseSegment(specs[i], i, h).value;
      SegmentInv(specs[i], segs, first, h);
      SegmentsInv(specs, segs + [s.0], first, s.1);
      var rest := ParseSegments(specs, i + 1, s.1).value;
      SegmentsUnfold(specs, i, h);
      SegsRegroup(rest.1, segs, first, s.0, rest.0);
    }
  }

  lemma SegmentsUnfold(specs: seq<string>, i: nat, h: map<Label, Constraint>)
    requires i < |specs| && ParseSegments(specs, i, h).Success?
    ensures var s := ParseSegment(specs[i], i, h);
      && s.Success? && ParseSegments(specs, i + 1, s.value.1).Success?
      && ParseSegments(specs, i, h)
         == Success(([s.value.0] + ParseSegments(specs, i + 1, s.value.1).value.0,
                     ParseSegments(specs, i + 1, s.value.1).value.1))
  {
  }

  lemma SegsRegroup(h: map<Label, Constraint>, segs: seq<Segment>, first: Bonds.Atom, s: Segment, rest: seq<Segment>)
    requires Inv(h, segs + [s] + rest, first, [])
    ensures Inv(h, segs + ([s] + rest), first, [])
  {
    assert segs + [s] + rest == segs + ([s] + rest);
  }

  // ----- parsed patterns -----

  /**
   * What printing needs beyond what the parser guarantees: every label is a
   * word, every distance set is non-empty, and every SO3 class is a set item.
   */
  ghost predicate PlainBonds(h: map<Label, Constraint>) {
    forall l :: l in h ==>
      && l.Str? && Text.IsWord(l.s)
      && (h[l].dist.Some? ==> |h[l].dist.value| >= 1)
      && (h[l].so3class.Some? ==> forall k :: 0 <= k < |h[l].so3class.value| ==> GoodItem(h[l].so3class.value[k]))
  }

  /** The vertices read are those of the pattern. */
  lemma ReadAreValid(p: Pattern, q: Pos)
    ensures InP(p.segments, [], q) <==> ValidPos(p, q)
    ensures InP(p.segments, [], q) ==> VAt(p.segments, Bonds.N, [], q) == (VertexAt(p, q), AtomAt(p, q))
  {
  }

  /**
   * A pattern the constructor of CDP returns is printable exactly when its
   * labels are words, its distance sets non-empty and its SO3 classes set
   * items: the bond ends, the vertex kinds, the distinct SO3 classes and the
   * increasing distances always are as printing needs them.
   */
  lemma ParsedPrintable(name: string, spec: string, strict: Option<bool>)
    requires ParsePattern(name, spec, strict).Success?
    ensures var p := ParsePattern(name, spec, strict).value;
      Printable(p) <==> PlainBonds(p.hbonds)
  {
    var p := ParsePattern(name, spec, strict).value;
    var r := ParseSegments(SegmentSpecs(spec), 0, map[]).value;
    assert Inv(map[], [], Bonds.N, []);
    SegmentsInv(SegmentSpecs(spec), [], Bonds.N, map[]);
    assert [] + r.0 == p.segments;
    assert Inv(p.hbonds, p.segments, Bonds.N, []);
    if PlainBonds(p.hbonds) {
      forall l | l in p.hbonds ensures GoodBond(p, l) {
        var c := p.hbonds[l];
        assert IsSpecified(c);
        ReadAreValid(p, c.donor.value);
        ReadAreValid(p, c.accptr.value);
        assert EndOk(p.segments, Bonds.N, [], c.donor, l, Bonds.N);
        assert EndOk(p.segments, Bonds.N, [], c.accptr, l, Bonds.O);
        assert PropsOk(c);
      }
      forall q | ValidPos(p, q) ensures GoodVertex(p, q) {
        ReadAreValid(p, q);
        assert VertexOk(p.hbonds, q, VAt(p.segments, Bonds.N, [], q).0);
      }
    }
  }

  /**
   * Hence the round trip for parsed patterns: one whose labels are words,
   * whose distance sets are non-empty and whose SO3 classes are set items
   * prints, on one line or on several, and reads back as itself.
   */
  lemma ParsedReprints(name: string, spec: string, strict: Option<bool>, oneline: bool)
    requires ParsePattern(name, spec, strict).Success?
    requires PlainBonds(ParsePattern(name, spec, strict).value.hbonds)
    ensures var p := ParsePattern(name, spec, strict).value;
      && PatternString(p, oneline).Success?
      && ParsePattern(p.name, PatternString(p, oneline).value, Some(p.strict)) == Success(p)
  {
    ParsedPrintable(name, spec, strict);
    PrintParse(ParsePattern(name, spec, strict).value, oneline);
  }

  // ----- an empty set of distances -----

  /** `scalar_to_intset("a...b")` for one-digit bounds with b below a: the empty set. */
  lemma EmptyRange(a: char, b: char)
    requires Text.IsDigit(a) && Text.IsDigit(b) && b < a
    ensures ScalarToIntSet([a] + "..." + [b]) == Success(Some([]))
  {
    var s := [a] + "..." + [b];
    assert KeyVal.Span(s[1..], Text.IsDigit) == 0;
    assert SignedLen(s) == 1;
    assert s[1..4] == "...";
    assert s[..1] == [a] && s[4..] == [b];
    OneDigit(a);
    OneDigit(b);
    StepsDown(Text.ParseInt([a]).value, Text.ParseInt([b]).value);
  }

  lemma OneDigit(a: char)
    requires Text.IsDigit(a)
    ensures Text.ParseInt([a]) == Some(a as int - '0' as int)
  {
    var n := a as int - '0' as int;
    Text.ParseIntToString(n);
    assert Text.NatToString(n) == [a];
  }

  lemma StepsDown(lo: int, hi: int)
    requires hi < lo
    ensures Steps(lo, hi, 1) == []
  {
  }

  /** A constraint with no distance allowed prints its distances as `, dist in {}`. */
  lemma EmptySetText(c: Constraint)
    requires c.dist == Some([])
    ensures DistText(c) == ", dist in {}"
  {
    assert Text.Join(IntStrings([]), ", ") == "";
  }

  /** `parse_keyval` reads `dist in {}` as the set holding the empty string. */
  lemma EmptySetParse(d: KeyVal.Dict)
    ensures KeyVal.Parse(", dist in {}", d) == Success(d["dist" := KeyVal.Items([""])])
  {
    assert KeyVal.ItemSet("") == [""] by {
      assert Text.Split("", ',') == [""];
      assert Text.StripAll([""]) == [Text.Strip("")];
      Text.StripId("");
    }
    KeysAreWords();
    var x := "dist" + (" " + ("in" + (" " + ("{" + ("" + ("}" + []))))));
    assert ", dist in {}" == ", " + x;
    KeyVal.SeparatorsSkipped(", ", x, d);
    KeyVal.ParseInItem("dist", " ", " ", "", [], d);
    KeyVal.ParseEnd([], d["dist" := KeyVal.Items(KeyVal.ItemSet(""))]);
  }

  /** `self.dist |= scalar_to_intset("")` raises: the empty string is no scalar. */
  lemma EmptyPieceRefused(c: Constraint)
    ensures SetDist(c, KeyVal.Items([""])) == Failure(NoneUnion)
  {
    assert SignedLen("") == 0;
    assert ScalarToIntSet("") == Success(None);
    assert [""][1..] == [];
  }

  /**
   * As written, an empty set of distances does not survive printing: the
   * parser accepts the empty range `5...3`, a constraint with no distance
   * prints as `dist in {}`, that text reads back as the set holding the
   * empty string, and `scalar_to_intset("")` is None, so `|=` raises.
   */
  lemma EmptyDistUnreadable(c: Constraint, c': Constraint, d: KeyVal.Dict)
    requires c.dist == Some([])
    ensures ScalarToIntSet("5...3") == Success(Some([]))
    ensures DistText(c) == ", dist in {}"
    ensures KeyVal.Parse(", dist in {}", d) == Success(d["dist" := KeyVal.Items([""])])
    ensures SetDist(c', KeyVal.Items([""])) == Failure(NoneUnion)
  {
    EmptyRange('5', '3');
    assert ['5'] + "..." + ['3'] == "5...3";
    EmptySetText(c);
    EmptySetParse(d);
    EmptyPieceRefused(c');
  }

  /**
   * The printing of distances as intended: an empty set prints as the
   * empty range `1...0`, which the parser reads back as the empty set.
   */
  const EmptyRangeText := ['1'] + "..." + ['0']

  function DistTextIntended(c: Constraint): string {
    if c.dist == Some([]) then ", dist = " + EmptyRangeText else DistText(c)
  }

  /** `parse_keyval` reads `, dist = t` as the text `t`, for a stripped `t` without a comma. */
  lemma ParseDistEqText(t: string, d: KeyVal.Dict)
    requires Text.IsStripped(t) && forall i :: 0 <= i < |t| ==> KeyVal.NotComma(t[i])
    ensures KeyVal.Parse(", dist = " + t, d) == Success(d["dist" := KeyVal.Str(t)])
  {
    var value := " " + t;
    forall i | 0 <= i < |value| ensures KeyVal.NotComma(value[i]) {
      if i > 0 {
        assert value[i] == t[i - 1];
      }
    }
    var x := "dist" + (" " + ("=" + (value + [])));
    assert ", dist = " + t == ", " + x;
    KeysAreWords();
    KeyVal.SeparatorsSkipped(", ", x, d);
    KeyVal.ParseEqItem("dist", " ", value, [], d);
    assert value == " " + t + "";
    Text.StripPadded(" ", t, "");
    KeyVal.ParseEnd([], d["dist" := KeyVal.Str(t)]);
  }

  /** A descending one-digit range, printed as the distances, reads back as the empty set. */
  lemma DescendingReadsBack(c2: Constraint, a: char, b: char)
    requires Text.IsDigit(a) && Text.IsDigit(b) && b < a
    ensures var t := [a] + "..." + [b];
      && KeyVal.Parse(", dist = " + t, map[]) == Success(map["dist" := KeyVal.Str(t)])
      && SetProperties(c2, map["dist" := KeyVal.Str(t)]) == Success(c2.(dist := Some([])))
  {
    var t := [a] + "..." + [b];
    assert forall i :: 0 <= i < |t| ==> KeyVal.NotComma(t[i]) by {
      assert forall i :: 1 <= i < 4 ==> t[i] == '.';
    }
    assert Text.IsStripped(t);
    ParseDistEqText(t, map[]);
    EmptyRange(a, b);
  }

  lemma NonEmptyReadsBack(c2: Constraint, dist: Option<seq<int>>)
    requires dist.Some? ==> |dist.value| >= 1 && Increasing(dist.value)
    ensures KeyVal.Parse(DistText(Constraint(None, None, None, dist)), map[]) == Success(DistDict(map[], dist))
    ensures SetProperties(c2, DistDict(map[], dist)) == Success(c2.(dist := if dist.Some? then dist else c2.dist))
  {
    var c := Constraint(None, None, None, dist);
    ParseDistPart(c, map[]);
    assert PropertiesDict(map[], c.(so3class := None)) == DistDict(map[], dist);
    SetDistPrinted(c2, dist, map[]);
  }

  /** The empty set, printed as intended, reads back as the empty set. */
  lemma EmptyIntendedReadsBack(c2: Constraint)
    ensures var t := DistTextIntended(Constraint(None, None, None, Some([])));
      && KeyVal.Parse(t, map[]).Success?
      && SetProperties(c2, KeyVal.Parse(t, map[]).value) == Success(c2.(dist := Some([])))
  {
    DescendingReadsBack(c2, '1', '0');
  }

  /** Every set of distances, the empty one included, prints as intended and reads back as itself. */
  lemma DistIntendedReadsBack(c2: Constraint, dist: Option<seq<int>>)
    requires dist.Some? ==> Increasing(dist.value)
    ensures var t := DistTextIntended(Constraint(None, None, None, dist));
      && KeyVal.Parse(t, map[]).Success?
      && SetProperties(c2, KeyVal.Parse(t, map[]).value) == Success(c2.(dist := if dist.Some? then dist else c2.dist))
  {
    if dist == Some([]) {
      EmptyIntendedReadsBack(c2);
    } else {
      NonEmptyReadsBack(c2, dist);
    }
  }
}

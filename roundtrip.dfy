/**
 * `CDP.as_string` is documented as producing a text that the constructor
 * accepts. This module states which patterns print, and proves that the
 * printed text of such a pattern, on one line or on several, parses back
 * to the same pattern.
 */
module PatternRoundTrip {
  import opened Wrappers
  import Text
  import KeyVal
  import Bonds
  import opened Patterns

  // ----- printable patterns -----

  predicate ValidPos(p: Pattern, q: Pos) {
    q.seg < |p.segments| && q.idx < |p.segments[q.seg].vertices|
  }

  function VertexAt(p: Pattern, q: Pos): Vertex
    requires ValidPos(p, q)
  {
    p.segments[q.seg].vertices[q.idx]
  }

  function AtomAt(p: Pattern, q: Pos): Bonds.Atom
    requires ValidPos(p, q)
  {
    VertexAtom(p.segments[q.seg].first, q.idx)
  }

  /** Text that cannot close a vertex, a segment or a line early. */
  predicate SafeText(x: string) {
    '(' !in x && ')' !in x && ';' !in x && '\n' !in x && '\r' !in x
  }

  /** An SO3 class that prints inside a set display and reads back as itself. */
  predicate GoodItem(x: string) {
    KeyVal.IsItem(x) && SafeText(x)
  }

  /**
   * Properties that print as text the parser reads back: at least one SO3
   * class, none repeated, and a non-empty set of distances.
   */
  predicate GoodProperties(c: Constraint) {
    && (c.so3class.Some? ==>
          && |c.so3class.value| >= 1 && KeyVal.NoRepeats(c.so3class.value)
          && forall k :: 0 <= k < |c.so3class.value| ==> GoodItem(c.so3class.value[k]))
    && (c.dist.Some? ==> |c.dist.value| >= 1 && Increasing(c.dist.value))
  }

  /**
   * A bond whose label is a word and whose two ends are chords with that
   * label, the donor at an N vertex and the acceptor at an O vertex.
   */
  predicate GoodBond(p: Pattern, l: Label)
    requires l in p.hbonds
  {
    var c := p.hbonds[l];
    && l.Str? && Text.IsWord(l.s)
    && IsSpecified(c) && GoodProperties(c)
    && ValidPos(p, c.donor.value) && VertexAt(p, c.donor.value) == Chord(l)
    && AtomAt(p, c.donor.value) == Bonds.N
    && ValidPos(p, c.accptr.value) && VertexAt(p, c.accptr.value) == Chord(l)
    && AtomAt(p, c.accptr.value) == Bonds.O
  }

  /** A vertex the parser can produce: `*`, `i`, or one end of a bond of the pattern. */
  predicate GoodVertex(p: Pattern, q: Pos)
    requires ValidPos(p, q)
  {
    match VertexAt(p, q)
    case Wildcard => true
    case Isolated => true
    case Chord(l) => l in p.hbonds && (p.hbonds[l].donor == Some(q) || p.hbonds[l].accptr == Some(q))
    case _ => false
  }

  ghost predicate Printable(p: Pattern) {
    && (forall l :: l in p.hbonds ==> GoodBond(p, l))
    && (forall q :: ValidPos(p, q) ==> GoodVertex(p, q))
  }

  // ----- the parser's view of the bonds while it reads -----

  /** `a` comes before `q` in reading order. */
  predicate Before(a: Pos, q: Pos) {
    a.seg < q.seg || (a.seg == q.seg && a.idx < q.idx)
  }

  predicate SeenAt(e: Option<Pos>, q: Pos) {
    e.Some? && Before(e.value, q)
  }

  /** What the parser knows of a bond once it has read the vertices before `q`. */
  function Seen(c: Constraint, q: Pos): Constraint {
    Constraint(if SeenAt(c.donor, q) then c.donor else None,
               if SeenAt(c.accptr, q) then c.accptr else None,
               if SeenAt(c.donor, q) then c.so3class else None,
               if SeenAt(c.donor, q) then c.dist else None)
  }

  /** The H-bond map after the vertices before `q`: the bonds with an end read so far. */
  function SeenMap(h: map<Label, Constraint>, q: Pos): map<Label, Constraint> {
    map l | l in h && (SeenAt(h[l].donor, q) || SeenAt(h[l].accptr, q)) :: Seen(h[l], q)
  }

  /** The bond of label `l` as the parser holds it before `q`, or a fresh one. */
  function Current(hb: map<Label, Constraint>, l: Label): Constraint {
    if l in hb then hb[l] else Unset
  }

  lemma CurrentSeen(h: map<Label, Constraint>, l: Label, q: Pos)
    requires l in h
    ensures Current(SeenMap(h, q), l) == Seen(h[l], q)
  {
  }

  /** Reading a vertex that is no end of any bond changes nothing. */
  lemma SeenMapSkip(h: map<Label, Constraint>, q: Pos)
    requires forall l :: l in h ==> h[l].donor != Some(q) && h[l].accptr != Some(q)
    ensures SeenMap(h, Pos(q.seg, q.idx + 1)) == SeenMap(h, q)
  {
    var next := Pos(q.seg, q.idx + 1);
    forall l | l in h
      ensures SeenAt(h[l].donor, next) == SeenAt(h[l].donor, q)
      ensures SeenAt(h[l].accptr, next) == SeenAt(h[l].accptr, q)
    {
    }
  }

  /** The ends of the other bonds lie elsewhere than a chord of bond `l`. */
  lemma OtherBondsAvoid(p: Pattern, q: Pos, l: Label, l': Label)
    requires Printable(p) && ValidPos(p, q) && VertexAt(p, q) == Chord(l)
    requires l' in p.hbonds && l' != l
    ensures p.hbonds[l'].donor != Some(q) && p.hbonds[l'].accptr != Some(q)
  {
    assert GoodBond(p, l');
  }

  /** Moving past a vertex that is not the end `e` does not change whether `e` was read. */
  lemma SeenAtNext(e: Option<Pos>, q: Pos)
    requires e != Some(q)
    ensures SeenAt(e, Pos(q.seg, q.idx + 1)) == SeenAt(e, q)
  {
  }

  /** Reading an end of bond `l` changes the entry of `l` only. */
  lemma SeenMapChord(h: map<Label, Constraint>, q: Pos, l: Label)
    requires l in h && (h[l].donor == Some(q) || h[l].accptr == Some(q))
    requires forall l' :: l' in h && l' != l ==> h[l'].donor != Some(q) && h[l'].accptr != Some(q)
    ensures SeenMap(h, Pos(q.seg, q.idx + 1)) == SeenMap(h, q)[l := Seen(h[l], Pos(q.seg, q.idx + 1))]
  {
    var next := Pos(q.seg, q.idx + 1);
    var a := SeenMap(h, next);
    var b := SeenMap(h, q)[l := Seen(h[l], next)];
    assert l in a;
    forall l' | l' in h && l' != l
      ensures (l' in a <==> l' in b) && (l' in a ==> a[l'] == b[l'])
    {
      SeenAtNext(h[l'].donor, q);
      SeenAtNext(h[l'].accptr, q);
    }
    assert a.Keys == b.Keys;
  }

  lemma SeenAtSegmentEnd(e: Option<Pos>, s: nat, n: nat)
    requires e.Some? && e.value.seg == s ==> e.value.idx < n
    ensures SeenAt(e, Pos(s, n)) == SeenAt(e, Pos(s + 1, 0))
  {
  }

  /** After the last vertex of segment `s` the parser stands at the start of segment `s + 1`. */
  lemma SeenMapSegmentEnd(p: Pattern, s: nat)
    requires Printable(p) && s < |p.segments|
    ensures SeenMap(p.hbonds, Pos(s, |p.segments[s].vertices|)) == SeenMap(p.hbonds, Pos(s + 1, 0))
  {
    var h := p.hbonds;
    var n := |p.segments[s].vertices|;
    forall l | l in h
      ensures SeenAt(h[l].donor, Pos(s, n)) == SeenAt(h[l].donor, Pos(s + 1, 0))
      ensures SeenAt(h[l].accptr, Pos(s, n)) == SeenAt(h[l].accptr, Pos(s + 1, 0))
    {
      assert GoodBond(p, l);
      SeenAtSegmentEnd(h[l].donor, s, n);
      SeenAtSegmentEnd(h[l].accptr, s, n);
    }
  }

  lemma SeenMapStart(h: map<Label, Constraint>)
    ensures SeenMap(h, Pos(0, 0)) == map[]
  {
  }

  /** After the last segment the parser holds every bond, complete. */
  lemma SeenMapAll(p: Pattern)
    requires Printable(p)
    ensures SeenMap(p.hbonds, Pos(|p.segments|, 0)) == p.hbonds
  {
    var h := p.hbonds;
    var e := Pos(|p.segments|, 0);
    forall l | l in h ensures SeenAt(h[l].donor, e) && SeenAt(h[l].accptr, e) && Seen(h[l], e) == h[l] {
      assert GoodBond(p, l);
    }
  }

  // ----- the text of a bond's properties -----

  /** The dictionary `parse_keyval` builds from printed properties, on top of `d`. */
  function PropertiesDict(d: KeyVal.Dict, c: Constraint): KeyVal.Dict {
    var d1 := if c.so3class.Some? then d["SO3class" := KeyVal.Items(c.so3class.value)] else d;
    if c.dist.None? then d1
    else if |c.dist.value| == 1 then d1["dist" := KeyVal.Str(Text.IntToString(c.dist.value[0]))]
    else d1["dist" := KeyVal.Items(IntStrings(c.dist.value))]
  }

  lemma SafeJoin(ps: seq<string>, sep: string)
    requires SafeText(sep)
    requires forall k :: 0 <= k < |ps| ==> SafeText(ps[k])
    ensures SafeText(Text.Join(ps, sep))
  {
    Text.JoinWithout(ps, sep, '(');
    Text.JoinWithout(ps, sep, ')');
    Text.JoinWithout(ps, sep, ';');
    Text.JoinWithout(ps, sep, '\n');
    Text.JoinWithout(ps, sep, '\r');
  }

  /** `str(n)`: a sign and digits, so no separator, brace, dot or blank. */
  lemma IntTextFacts(n: int)
    ensures SafeText(Text.IntToString(n)) && KeyVal.IsItem(Text.IntToString(n))
    ensures '.' !in Text.IntToString(n) && ' ' !in Text.IntToString(n)
    ensures Text.IsDigit(Text.IntToString(n)[|Text.IntToString(n)| - 1])
    ensures Text.IntToString(n)[0] == '-' || Text.IsDigit(Text.IntToString(n)[0])
  {
    var s := Text.IntToString(n);
    var m := if n < 0 then -n else n;
    var digits := Text.NatToString(m);
    assert s == digits || s == "-" + digits;
    forall c | c in "(); \n\r.,{}" ensures c !in digits {
      Text.DigitsAvoid(digits, c);
    }
  }

  lemma IntStringsItems(d: seq<int>)
    ensures forall k :: 0 <= k < |d| ==> KeyVal.IsItem(IntStrings(d)[k]) && SafeText(IntStrings(d)[k])
  {
    forall k | 0 <= k < |d| ensures KeyVal.IsItem(IntStrings(d)[k]) && SafeText(IntStrings(d)[k]) {
      IntTextFacts(d[k]);
    }
  }

  /** Distinct integers print as distinct strings. */
  lemma IntStringsNoRepeats(d: seq<int>)
    requires Increasing(d)
    ensures KeyVal.NoRepeats(IntStrings(d))
  {
    forall i, j | 0 <= i < j < |d| ensures IntStrings(d)[i] != IntStrings(d)[j] {
      Text.ParseIntToString(d[i]);
      Text.ParseIntToString(d[j]);
    }
  }

  /** `scalar_to_intset(str(n))` is `{n}`. */
  lemma ScalarOfInt(n: int)
    ensures ScalarToIntSet(Text.IntToString(n)) == Success(Some([n]))
  {
    var s := Text.IntToString(n);
    IntTextFacts(n);
    Text.ParseIntToString(n);
  }

  lemma MergeSingleton(x: int, b: seq<int>)
    requires Increasing(b) && (b == [] || x < b[0])
    ensures Merge([x], b) == [x] + b
  {
    if b != [] {
      assert [x][1..] == [];
    }
  }

  /** The union of the one-member sets of an increasing list of integers is that list. */
  lemma {:induction false} DistOfIntStrings(d: seq<int>)
    requires Increasing(d)
    ensures DistUnion(IntStrings(d)) == Success(d)
  {
    if d != [] {
      ScalarOfInt(d[0]);
      assert IntStrings(d)[1..] == IntStrings(d[1..]);
      assert Increasing(d[1..]);
      DistOfIntStrings(d[1..]);
      MergeSingleton(d[0], d[1..]);
      assert [d[0]] + d[1..] == d;
    }
  }

  lemma SafeConcat(a: string, b: string)
    requires SafeText(a) && SafeText(b)
    ensures SafeText(a + b)
  {
  }

  lemma SafeSo3Literal()
    ensures SafeText(", SO3class in {")
  {
  }

  lemma SafeDistLiterals()
    ensures SafeText(", dist = ") && SafeText(", dist in {")
  {
  }

  lemma SafeShortLiterals()
    ensures SafeText("}") && SafeText(", ")
  {
  }

  /** The printed SO3 classes keep clear of `();` and line breaks and end with a brace. */
  lemma So3TextFacts(items: seq<string>)
    requires forall k :: 0 <= k < |items| ==> GoodItem(items[k])
    ensures SafeText(", SO3class in {" + Text.Join(items, ", ") + "}")
  {
    SafeSo3Literal();
    SafeShortLiterals();
    SafeJoin(items, ", ");
    SafeConcat(", SO3class in {", Text.Join(items, ", "));
    SafeConcat(", SO3class in {" + Text.Join(items, ", "), "}");
  }

  lemma DistTextFacts(ds: seq<int>)
    requires |ds| >= 1
    ensures var t := DistText(Unset.(dist := Some(ds)));
      SafeText(t) && t[0] == ',' && !Text.IsSpace(t[|t| - 1])
  {
    SafeDistLiterals();
    SafeShortLiterals();
    if |ds| == 1 {
      IntTextFacts(ds[0]);
      SafeConcat(", dist = ", Text.IntToString(ds[0]));
    } else {
      IntStringsItems(ds);
      SafeJoin(IntStrings(ds), ", ");
      SafeConcat(", dist in {", Text.Join(IntStrings(ds), ", "));
      SafeConcat(", dist in {" + Text.Join(IntStrings(ds), ", "), "}");
    }
  }

  /** The printed properties start with a comma and end with a non-blank, and keep clear of `();`. */
  lemma PropertiesFacts(c: Constraint)
    requires GoodProperties(c)
    ensures SafeText(PropertiesText(c))
    ensures PropertiesText(c) != [] ==> PropertiesText(c)[0] == ','
    ensures PropertiesText(c) != [] ==> !Text.IsSpace(PropertiesText(c)[|PropertiesText(c)| - 1])
  {
    var so3 := if c.so3class.Some? then ", SO3class in {" + Text.Join(c.so3class.value, ", ") + "}" else "";
    var dist := DistText(c);
    assert PropertiesText(c) == so3 + dist;
    if c.so3class.Some? {
      So3TextFacts(c.so3class.value);
    }
    if c.dist.Some? {
      DistTextFacts(c.dist.value);
      assert dist == DistText(Unset.(dist := c.dist));
    }
    SafeConcat(so3, dist);
    if dist != [] {
      assert (so3 + dist)[|so3 + dist| - 1] == dist[|dist| - 1];
    } else {
      assert so3 + dist == so3;
    }
  }

  /** The two property keys the printer writes are words. */
  lemma KeysAreWords()
    ensures Text.IsWord("dist") && !KeyVal.IsSeparator("dist"[0])
    ensures Text.IsWord("SO3class") && !KeyVal.IsSeparator("SO3class"[0])
  {
    var a := "dist";
    forall k | 0 <= k < |a| ensures Text.IsWordChar(a[k]) {
      assert 'a' <= a[k] <= 'z';
    }
    var b := "SO3class";
    forall k | 0 <= k < |b| ensures Text.IsWordChar(b[k]) {
      if k == 1 {
        assert b[k] == 'O';
      } else if k == 2 {
        assert b[k] == '3';
      } else if k > 2 {
        assert 'a' <= b[k] <= 'z';
      }
    }
  }

  lemma SetText(key: string, body: string, rest: string)
    ensures ", " + key + " in {" + body + "}" + rest
         == ", " + (key + (" " + ("in" + (" " + ("{" + (body + ("}" + rest)))))))
  {
  }

  lemma DistSetText(j: string)
    ensures ", " + "dist" + " in {" + j + "}" + [] == ", dist in {" + j + "}"
  {
    assert ", " + "dist" + " in {" == ", dist in {";
  }

  lemma So3SetText(j: string, dist: string)
    ensures ", " + "SO3class" + " in {" + j + "}" + dist == ", SO3class in {" + j + "}" + dist
  {
    assert ", " + "SO3class" + " in {" == ", SO3class in {";
  }

  /** `, key in {a, b, ...}` adds the set to the dictionary. */
  lemma ParseSetPart(key: string, items: seq<string>, rest: string, d: KeyVal.Dict)
    requires Text.IsWord(key) && !KeyVal.IsSeparator(key[0])
    requires |items| >= 1 && KeyVal.NoRepeats(items)
    requires forall k :: 0 <= k < |items| ==> KeyVal.IsItem(items[k])
    ensures KeyVal.Parse(", " + key + " in {" + Text.Join(items, ", ") + "}" + rest, d)
         == KeyVal.Parse(rest, d[key := KeyVal.Items(items)])
  {
    var body := Text.Join(items, ", ");
    KeyVal.ItemSetOfJoin(items);
    var x := key + (" " + ("in" + (" " + ("{" + (body + ("}" + rest))))));
    SetText(key, body, rest);
    KeyVal.SeparatorsSkipped(", ", x, d);
    KeyVal.ParseInItem(key, " ", " ", body, rest, d);
  }

  /** `, dist = n` sets the distance to the text of `n`. */
  lemma ParseDistEq(n: int, d: KeyVal.Dict)
    ensures KeyVal.Parse(", dist = " + Text.IntToString(n), d)
         == Success(d["dist" := KeyVal.Str(Text.IntToString(n))])
  {
    var s := Text.IntToString(n);
    IntTextFacts(n);
    var value := " " + s;
    forall i | 0 <= i < |value| ensures KeyVal.NotComma(value[i]) {
      assert value[i] in value;
    }
    var x := "dist" + (" " + ("=" + (value + [])));
    assert ", dist = " + s == ", " + x;
    KeysAreWords();
    KeyVal.SeparatorsSkipped(", ", x, d);
    KeyVal.ParseEqItem("dist", " ", value, [], d);
    assert value == " " + s + "";
    Text.StripPadded(" ", s, "");
    KeyVal.ParseEnd([], d["dist" := KeyVal.Str(s)]);
  }

  /** `, dist in {a, b, ...}` for two or more distances. */
  lemma ParseDistSet(ds: seq<int>, d: KeyVal.Dict)
    requires |ds| >= 2 && Increasing(ds)
    ensures KeyVal.Parse(", dist in {" + Text.Join(IntStrings(ds), ", ") + "}", d)
         == Success(d["dist" := KeyVal.Items(IntStrings(ds))])
  {
    var j := Text.Join(IntStrings(ds), ", ");
    IntStringsItems(ds);
    IntStringsNoRepeats(ds);
    KeysAreWords();
    ParseSetPart("dist", IntStrings(ds), [], d);
    DistSetText(j);
    KeyVal.ParseEnd([], d["dist" := KeyVal.Items(IntStrings(ds))]);
  }

  /** The printed distances read back as the dictionary entry `PropertiesDict` records. */
  lemma ParseDistPart(c: Constraint, d: KeyVal.Dict)
    requires GoodProperties(c)
    ensures KeyVal.Parse(DistText(c), d) == Success(PropertiesDict(d, c.(so3class := None)))
  {
    if c.dist.None? {
      KeyVal.ParseEnd([], d);
    } else if |c.dist.value| == 1 {
      ParseDistEq(c.dist.value[0], d);
    } else {
      ParseDistSet(c.dist.value, d);
    }
  }

  /** The dictionary of a constraint with an SO3 class, in two steps. */
  lemma So3DictSplit(c: Constraint, d: KeyVal.Dict)
    requires c.so3class.Some?
    ensures PropertiesDict(d, c) == PropertiesDict(d["SO3class" := KeyVal.Items(c.so3class.value)], c.(so3class := None))
  {
  }

  /** `, SO3class in {...}` followed by the distance part. */
  lemma ParseSo3Part(c: Constraint, d: KeyVal.Dict)
    requires GoodProperties(c) && c.so3class.Some?
    ensures KeyVal.Parse(", SO3class in {" + Text.Join(c.so3class.value, ", ") + "}" + DistText(c), d)
         == Success(PropertiesDict(d, c))
  {
    var items := c.so3class.value;
    var j := Text.Join(items, ", ");
    var dist := DistText(c);
    KeysAreWords();
    ParseSetPart("SO3class", items, dist, d);
    So3SetText(j, dist);
    ParseDistPart(c, d["SO3class" := KeyVal.Items(items)]);
    So3DictSplit(c, d);
  }

  /** The printed properties read back as `PropertiesDict`. */
  lemma ParsePropertiesText(c: Constraint, d: KeyVal.Dict)
    requires GoodProperties(c)
    ensures KeyVal.Parse(PropertiesText(c), d) == Success(PropertiesDict(d, c))
  {
    var dist := DistText(c);
    if c.so3class.Some? {
      assert PropertiesText(c) == ", SO3class in {" + Text.Join(c.so3class.value, ", ") + "}" + dist;
      ParseSo3Part(c, d);
    } else {
      assert PropertiesText(c) == dist;
      ParseDistPart(c, d);
    }
  }

  /** The donor's `Hb(...)` text reads back as its label and its properties. */
  lemma ParseProperties(w: string, c: Constraint)
    requires Text.IsWord(w) && GoodProperties(c)
    ensures KeyVal.ParseSpec(w + PropertiesText(c)) == Success(PropertiesDict(map["label" := KeyVal.Str(w)], c))
  {
    var props := PropertiesText(c);
    PropertiesFacts(c);
    var body := w + props;
    assert Text.IsStripped(body) by {
      if props != [] {
        assert body[|body| - 1] == props[|props| - 1];
      }
    }
    Text.StripId(body);
    KeyVal.ParseBareItem(w, props, map[]);
    ParsePropertiesText(c, map["label" := KeyVal.Str(w)]);
  }

  /** Setting the printed properties on a bond that has none yet gives it the original ones. */
  lemma SetPrintedProperties(c1: Constraint, c: Constraint)
    requires GoodProperties(c)
    ensures SetProperties(c1, PropertiesDict(map[], c)) == Success(c1.(so3class := if c.so3class.Some? then c.so3class else c1.so3class,
                                                                      dist := if c.dist.Some? then c.dist else c1.dist))
  {
    var c2 := c1.(so3class := if c.so3class.Some? then c.so3class else c1.so3class);
    var d1 := if c.so3class.Some? then map["SO3class" := KeyVal.Items(c.so3class.value)] else map[];
    SetDistPrinted(c2, c.dist, d1);
    assert PropertiesDict(map[], c) == DistDict(d1, c.dist);
  }

  /** The dictionary `d` with the printed distances added. */
  function DistDict(d: KeyVal.Dict, dist: Option<seq<int>>): KeyVal.Dict {
    if dist.None? then d
    else if |dist.value| == 1 then d["dist" := KeyVal.Str(Text.IntToString(dist.value[0]))]
    else d["dist" := KeyVal.Items(IntStrings(dist.value))]
  }

  /** Setting the properties read from the printed SO3 class and distances. */
  lemma SetDistPrinted(c2: Constraint, dist: Option<seq<int>>, d1: KeyVal.Dict)
    requires dist.Some? ==> |dist.value| >= 1 && Increasing(dist.value)
    requires "dist" !in d1
    requires "SO3class" in d1 ==> d1["SO3class"].Items? && c2.so3class == Some(d1["SO3class"].items)
    ensures SetProperties(c2, DistDict(d1, dist)) == Success(c2.(dist := if dist.Some? then dist else c2.dist))
  {
    var c1 := if "SO3class" in d1 then SetSO3class(c2, d1["SO3class"]) else Success(c2);
    assert c1 == Success(c2);
    if dist.None? {
      assert DistDict(d1, dist) == d1;
    } else if |dist.value| == 1 {
      SetDistOne(c2, dist.value[0]);
      assert [dist.value[0]] == dist.value;
    } else {
      SetDistMany(c2, dist.value);
    }
  }

  lemma SetDistOne(c: Constraint, n: int)
    ensures SetDist(c, KeyVal.Str(Text.IntToString(n))) == Success(c.(dist := Some([n])))
  {
    ScalarOfInt(n);
  }

  lemma SetDistMany(c: Constraint, ds: seq<int>)
    requires |ds| >= 1 && Increasing(ds)
    ensures SetDist(c, KeyVal.Items(IntStrings(ds))) == Success(c.(dist := Some(ds)))
  {
    DistOfIntStrings(ds);
  }

  // ----- vertices -----

  /** `re.match("Hb\s*\(([^()]+)\)", "Hb(" + body + ")")` finds the body. */
  lemma MatchChordOf(body: string)
    requires body != [] && '(' !in body && ')' !in body
    ensures MatchChord("Hb(" + body + ")") == Some(body)
  {
    var s := "Hb(" + body + ")";
    var t := s[2..];
    assert t == "(" + body + ")";
    assert KeyVal.Span(t, Text.IsSpace) == 0;
    var v := t[1..];
    assert v == body + ")";
    forall i | 0 <= i < |body| ensures NotParen(body[i]) {
      assert body[i] in body;
    }
    KeyVal.SpanOf(body, ")", NotParen);
    assert v[..|body|] == body;
  }

  /** The printed text of a vertex: no blank at either end and no `;` or line break. */
  predicate VertexTextOk(x: string) {
    x != [] && Text.IsStripped(x) && ';' !in x && '\n' !in x && '\r' !in x
  }

  lemma ChordTextOk(body: string)
    requires '(' !in body && ')' !in body && ';' !in body && '\n' !in body && '\r' !in body
    ensures VertexTextOk("Hb(" + body + ")")
    ensures Text.Strip("Hb(" + body + ")") == "Hb(" + body + ")"
  {
    var t := "Hb(" + body + ")";
    assert t[0] == 'H' && t[|t| - 1] == ')';
    Text.StripId(t);
  }

  /** `ParseVertex` on a chord whose every step succeeds. */
  lemma ParseVertexChord(spec: string, body: string, kv: KeyVal.Dict, pos: Pos, atom: Bonds.Atom,
                         hb: map<Label, Constraint>, w: string, c1: Constraint, c2: Constraint)
    requires Text.Strip(spec) == spec && |spec| >= 2
    requires MatchChord(spec) == Some(body)
    requires KeyVal.ParseSpec(body) == Success(kv)
    requires "label" in kv && kv["label"] == KeyVal.Str(w)
    requires SetEndpoint(Current(hb, KeyVal.Str(w)), pos, atom) == Success(c1)
    requires SetProperties(c1, kv - {"label"}) == Success(c2)
    ensures ParseVertex(spec, pos, atom, hb) == Success((Chord(KeyVal.Str(w)), hb[KeyVal.Str(w) := c2]))
  {
    assert spec != "*" && spec != "i";
  }

  lemma WordAvoids(w: string)
    requires Text.IsWord(w)
    ensures '(' !in w && ')' !in w && ';' !in w && '\n' !in w && '\r' !in w
  {
    forall i | 0 <= i < |w| ensures Text.IsWordChar(w[i]) {
    }
  }

  /** A bare word parses to the dictionary holding only its label. */
  lemma ParseLabelOnly(w: string)
    requires Text.IsWord(w)
    ensures KeyVal.ParseSpec(w) == Success(map["label" := KeyVal.Str(w)])
  {
    assert Text.IsStripped(w);
    Text.StripId(w);
    KeyVal.ParseBareItem(w, [], map[]);
    assert w + [] == w;
    KeyVal.ParseEnd([], map["label" := KeyVal.Str(w)]);
  }

  lemma Regroup(x: string, a: string, b: string, y: string)
    ensures x + a + b + y == x + (a + b) + y
  {
  }

  /** The label and the properties of a donor's dictionary. */
  lemma PropertiesDictLabel(w: string, c: Constraint)
    ensures var kv := PropertiesDict(map["label" := KeyVal.Str(w)], c);
      "label" in kv && kv["label"] == KeyVal.Str(w) && kv - {"label"} == PropertiesDict(map[], c)
  {
    var kv := PropertiesDict(map["label" := KeyVal.Str(w)], c);
    var e := PropertiesDict(map[], c);
    assert "label" != "SO3class" && "label" != "dist";
    assert forall k :: k in kv - {"label"} <==> k in e;
    assert forall k :: k in e ==> (kv - {"label"})[k] == e[k];
  }

  /** The acceptor end `Hb(w)` reads back as the chord and records the acceptor. */
  lemma ParseAcceptorText(w: string, q: Pos, hb: map<Label, Constraint>)
    requires Text.IsWord(w)
    requires Current(hb, KeyVal.Str(w)).accptr.None?
    ensures ParseVertex("Hb(" + w + ")", q, Bonds.O, hb)
         == Success((Chord(KeyVal.Str(w)), hb[KeyVal.Str(w) := Current(hb, KeyVal.Str(w)).(accptr := Some(q))]))
  {
    var t := "Hb(" + w + ")";
    WordAvoids(w);
    ChordTextOk(w);
    MatchChordOf(w);
    ParseLabelOnly(w);
    var kv := map["label" := KeyVal.Str(w)];
    assert kv - {"label"} == map[];
    var c1 := Current(hb, KeyVal.Str(w)).(accptr := Some(q));
    assert SetProperties(c1, map[]) == Success(c1);
    ParseVertexChord(t, w, kv, q, Bonds.O, hb, w, c1, c1);
  }

  /** The donor end reads back as the chord and records the donor and the properties. */
  lemma ParseDonorText(w: string, c: Constraint, q: Pos, hb: map<Label, Constraint>)
    requires Text.IsWord(w) && GoodProperties(c)
    requires var c0 := Current(hb, KeyVal.Str(w)); c0.donor.None? && c0.so3class.None? && c0.dist.None?
    ensures ParseVertex("Hb(" + w + PropertiesText(c) + ")", q, Bonds.N, hb)
         == Success((Chord(KeyVal.Str(w)),
                     hb[KeyVal.Str(w) := Current(hb, KeyVal.Str(w)).(donor := Some(q), so3class := c.so3class, dist := c.dist)]))
  {
    var body := w + PropertiesText(c);
    PropertiesFacts(c);
    WordAvoids(w);
    var t := "Hb(" + body + ")";
    Regroup("Hb(", w, PropertiesText(c), ")");
    ChordTextOk(body);
    MatchChordOf(body);
    ParseProperties(w, c);
    var c0 := Current(hb, KeyVal.Str(w));
    var kv := PropertiesDict(map["label" := KeyVal.Str(w)], c);
    PropertiesDictLabel(w, c);
    var c1 := c0.(donor := Some(q));
    SetPrintedProperties(c1, c);
    ParseVertexChord(t, body, kv, q, Bonds.N, hb, w, c1, c1.(so3class := c.so3class, dist := c.dist));
  }

  /** The text `VertexString` prints for a vertex of a printable pattern. */
  lemma PrintVertex(p: Pattern, q: Pos)
    requires Printable(p) && ValidPos(p, q)
    ensures VertexString(p.hbonds, VertexAt(p, q), q).Success?
    ensures VertexTextOk(VertexString(p.hbonds, VertexAt(p, q), q).value)
  {
    assert GoodVertex(p, q);
    match VertexAt(p, q)
    case Wildcard =>
    case Isolated =>
    case Chord(l) =>
      assert GoodBond(p, l);
      PrintChord(l.s, p.hbonds[l], p.hbonds[l].donor == Some(q));
  }

  /** The printed end of a bond with a word label and properties that print safely. */
  lemma PrintChord(w: string, c: Constraint, full: bool)
    requires Text.IsWord(w) && GoodProperties(c)
    ensures HbondString(KeyVal.Str(w), c, full).Success?
    ensures VertexTextOk(HbondString(KeyVal.Str(w), c, full).value)
  {
    WordAvoids(w);
    PropertiesFacts(c);
    var props := if full then PropertiesText(c) else "";
    assert HbondString(KeyVal.Str(w), c, full) == Success("Hb(" + w + props + ")");
    Regroup("Hb(", w, props, ")");
    ChordTextOk(w + props);
  }

  /** Reading the donor end of bond `l` at `q`. */
  lemma DonorStep(h: map<Label, Constraint>, q: Pos, l: Label, w: string)
    requires l in h && l == KeyVal.Str(w) && Text.IsWord(w) && GoodProperties(h[l])
    requires h[l].donor == Some(q) && h[l].accptr != Some(q)
    requires forall l' :: l' in h && l' != l ==> h[l'].donor != Some(q) && h[l'].accptr != Some(q)
    ensures ParseVertex("Hb(" + w + PropertiesText(h[l]) + ")", q, Bonds.N, SeenMap(h, q))
         == Success((Chord(l), SeenMap(h, Pos(q.seg, q.idx + 1))))
  {
    var next := Pos(q.seg, q.idx + 1);
    var c := h[l];
    CurrentSeen(h, l, q);
    SeenMapChord(h, q, l);
    SeenAtNext(c.accptr, q);
    var c0 := Current(SeenMap(h, q), l);
    ParseDonorText(w, c, q, SeenMap(h, q));
    assert Seen(c, next) == c0.(donor := Some(q), so3class := c.so3class, dist := c.dist);
  }

  /** Reading the acceptor end of bond `l` at `q`. */
  lemma AcceptorStep(h: map<Label, Constraint>, q: Pos, l: Label, w: string)
    requires l in h && l == KeyVal.Str(w) && Text.IsWord(w)
    requires h[l].accptr == Some(q) && h[l].donor != Some(q)
    requires forall l' :: l' in h && l' != l ==> h[l'].donor != Some(q) && h[l'].accptr != Some(q)
    ensures ParseVertex("Hb(" + w + ")", q, Bonds.O, SeenMap(h, q))
         == Success((Chord(l), SeenMap(h, Pos(q.seg, q.idx + 1))))
  {
    var next := Pos(q.seg, q.idx + 1);
    var c := h[l];
    CurrentSeen(h, l, q);
    SeenMapChord(h, q, l);
    SeenAtNext(c.donor, q);
    var c0 := Current(SeenMap(h, q), l);
    ParseAcceptorText(w, q, SeenMap(h, q));
    assert Seen(c, next) == c0.(accptr := Some(q));
  }

  /** Reading the printed vertex at `q` gives the vertex and moves the parser past `q`. */
  lemma ParseVertexStep(p: Pattern, q: Pos)
    requires Printable(p) && ValidPos(p, q)
    ensures VertexString(p.hbonds, VertexAt(p, q), q).Success?
    ensures ParseVertex(VertexString(p.hbonds, VertexAt(p, q), q).value, q, AtomAt(p, q), SeenMap(p.hbonds, q))
         == Success((VertexAt(p, q), SeenMap(p.hbonds, Pos(q.seg, q.idx + 1))))
  {
    var h := p.hbonds;
    PrintVertex(p, q);
    assert GoodVertex(p, q);
    match VertexAt(p, q)
    case Wildcard =>
      forall l | l in h ensures h[l].donor != Some(q) && h[l].accptr != Some(q) {
        assert GoodBond(p, l);
      }
      SeenMapSkip(h, q);
    case Isolated =>
      forall l | l in h ensures h[l].donor != Some(q) && h[l].accptr != Some(q) {
        assert GoodBond(p, l);
      }
      SeenMapSkip(h, q);
    case Chord(l) =>
      assert GoodBond(p, l);
      forall l' | l' in h && l' != l ensures h[l'].donor != Some(q) && h[l'].accptr != Some(q) {
        OtherBondsAvoid(p, q, l, l');
      }
      ChordStep(h, q, l, AtomAt(p, q));
  }

  /** Reading either end of bond `l` at `q`. */
  lemma ChordStep(h: map<Label, Constraint>, q: Pos, l: Label, atom: Bonds.Atom)
    requires l in h && l.Str? && Text.IsWord(l.s) && GoodProperties(h[l])
    requires h[l].donor == Some(q) || h[l].accptr == Some(q)
    requires h[l].donor != h[l].accptr
    requires atom == if h[l].donor == Some(q) then Bonds.N else Bonds.O
    requires forall l' :: l' in h && l' != l ==> h[l'].donor != Some(q) && h[l'].accptr != Some(q)
    ensures HbondString(l, h[l], h[l].donor == Some(q)).Success?
    ensures ParseVertex(HbondString(l, h[l], h[l].donor == Some(q)).value, q, atom, SeenMap(h, q))
         == Success((Chord(l), SeenMap(h, Pos(q.seg, q.idx + 1))))
  {
    var c := h[l];
    var w := l.s;
    if c.donor == Some(q) {
      assert HbondString(l, c, true) == Success("Hb(" + w + PropertiesText(c) + ")");
      DonorStep(h, q, l, w);
    } else {
      assert "Hb(" + w + "" == "Hb(" + w;
      assert HbondString(l, c, false) == Success("Hb(" + w + ")");
      AcceptorStep(h, q, l, w);
    }
  }

  // ----- reading a list of specifications -----

  /** The suffix from 0 is the whole sequence. */
  lemma WholeSlice<T>(s: seq<T>)
    ensures s[0..] == s
  {
  }

  /** A suffix is its first element before the next suffix. */
  lemma ConsSlice<T>(s: seq<T>, i: nat)
    requires i < |s|
    ensures [s[i]] + s[i + 1..] == s[i..]
  {
  }

  /**
   * When vertex text `j` reads as `vs[j]` and moves the map from `st[j]` to
   * `st[j + 1]`, the texts from `i` on read as `vs[i..]`.
   */
  lemma {:induction false} VerticesChain(texts: seq<string>, s: nat, first: Bonds.Atom, vs: seq<Vertex>,
                                        st: seq<map<Label, Constraint>>, i: nat)
    requires i <= |texts| == |vs| && |st| == |texts| + 1
    requires forall j {:trigger texts[j]} :: 0 <= j < |texts| ==>
      ParseVertex(texts[j], Pos(s, j), VertexAtom(first, j), st[j]) == Success((vs[j], st[j + 1]))
    ensures ParseVertices(texts, s, first, i, st[i]) == Success((vs[i..], st[|texts|]))
    decreases |texts| - i
  {
    if i < |texts| {
      VerticesChain(texts, s, first, vs, st, i + 1);
      ConsSlice(vs, i);
    } else {
      assert vs[i..] == [];
    }
  }

  /** Specification `j` reads as segment `j`, taking the parser's map from `st[j]` to `st[j + 1]`. */
  ghost predicate SegmentSteps(specs: seq<string>, segs: seq<Segment>, st: seq<map<Label, Constraint>>) {
    && |specs| == |segs| && |st| == |specs| + 1
    && forall j {:trigger specs[j]} :: 0 <= j < |specs| ==>
         ParseSegment(specs[j], j, st[j]) == Success((segs[j], st[j + 1]))
  }

  /** The same for segment specifications and `ParseSegments`. */
  lemma {:induction false} SegmentsChain(specs: seq<string>, segs: seq<Segment>, st: seq<map<Label, Constraint>>, i: nat)
    requires SegmentSteps(specs, segs, st) && i <= |specs|
    ensures ParseSegments(specs, i, st[i]) == Success((segs[i..], st[|specs|]))
    decreases |specs| - i
  {
    if i < |specs| {
      SegmentsChain(specs, segs, st, i + 1);
      assert ParseSegment(specs[i], i, st[i]) == Success((segs[i], st[i + 1]));
      ConsSlice(segs, i);
    } else {
      assert segs[i..] == [];
    }
  }

  /** The printed vertex texts of segment `s` read back as its vertices, the map before text `j` being `SeenMap(h, Pos(s, j))`. */
  lemma ReadPrintedVertices(p: Pattern, s: nat, texts: seq<string>, st: seq<map<Label, Constraint>>)
    requires Printable(p) && s < |p.segments|
    requires |texts| == |p.segments[s].vertices| && |st| == |texts| + 1
    requires forall j :: 0 <= j < |texts| ==>
      VertexString(p.hbonds, p.segments[s].vertices[j], Pos(s, j)) == Success(texts[j])
    requires forall j :: 0 <= j <= |texts| ==> st[j] == SeenMap(p.hbonds, Pos(s, j))
    ensures ParseVertices(texts, s, p.segments[s].first, 0, st[0]) == Success((p.segments[s].vertices, st[|texts|]))
  {
    var first := p.segments[s].first;
    var vs := p.segments[s].vertices;
    forall j | 0 <= j < |texts|
      ensures ParseVertex(texts[j], Pos(s, j), VertexAtom(first, j), st[j]) == Success((vs[j], st[j + 1]))
    {
      VertexReadsAt(p, s, j, texts[j], st[j], st[j + 1]);
    }
    VerticesChain(texts, s, first, vs, st, 0);
    WholeSlice(vs);
  }

  // ----- segments -----

  /** `";;".join`-free text: the replacement of `;;` leaves it alone. */
  lemma {:induction false} ReplaceSemisPlain(a: string)
    requires ';' !in a
    ensures ReplaceSemis(a) == a
  {
    if a != [] {
      ReplaceSemisPlain(a[1..]);
      assert [a[0]] + a[1..] == a;
    }
  }

  /** The replacement works piecewise when the first part does not end with `;`. */
  lemma {:induction false} ReplaceSemisAppend(a: string, b: string)
    requires a == [] || a[|a| - 1] != ';'
    ensures ReplaceSemis(a + b) == ReplaceSemis(a) + ReplaceSemis(b)
  {
    var s := a + b;
    if a == [] {
      assert s == b;
    } else if |a| >= 2 && a[0] == ';' && a[1] == ';' {
      assert s[0] == ';' && s[1] == ';';
      assert s[2..] == a[2..] + b;
      ReplaceSemisAppend(a[2..], b);
      assert ReplaceSemis(s) == "\n" + ReplaceSemis(a[2..] + b);
      assert ReplaceSemis(a) == "\n" + ReplaceSemis(a[2..]);
      assert ReplaceSemis(s) == ReplaceSemis(a) + ReplaceSemis(b);
    } else {
      assert s[0] == a[0];
      assert !(|s| >= 2 && s[0] == ';' && s[1] == ';') by {
        if |a| >= 2 {
          assert s[1] == a[1];
        }
      }
      assert s[1..] == a[1..] + b;
      ReplaceSemisAppend(a[1..], b);
      assert ReplaceSemis(s) == [a[0]] + ReplaceSemis(a[1..] + b);
      assert ReplaceSemis(a) == [a[0]] + ReplaceSemis(a[1..]);
      assert ReplaceSemis(s) == ReplaceSemis(a) + ReplaceSemis(b);
    }
  }

  /** A character other than `;` is copied. */
  lemma ReplaceSemisCopy(c: char, rest: string)
    requires c != ';'
    ensures ReplaceSemis([c] + rest) == [c] + ReplaceSemis(rest)
  {
    assert ([c] + rest)[1..] == rest;
  }

  /** A `;` followed by a blank is copied with it. */
  lemma ReplaceSemisSemiBlank(rest: string)
    ensures ReplaceSemis("; " + rest) == "; " + ReplaceSemis(rest)
  {
    var s := "; " + rest;
    assert s[1] == ' ';
    assert s[1..] == [' '] + rest;
    ReplaceSemisCopy(' ', rest);
  }

  /** `"; ".join(ps)` has no `;;` to replace. */
  lemma {:induction false} ReplaceSemisJoinSemi(ps: seq<string>)
    requires forall k :: 0 <= k < |ps| ==> ';' !in ps[k]
    ensures ReplaceSemis(Text.Join(ps, "; ")) == Text.Join(ps, "; ")
  {
    if |ps| == 1 {
      ReplaceSemisPlain(ps[0]);
    } else if |ps| > 1 {
      var rest := Text.Join(ps[1..], "; ");
      ReplaceSemisJoinSemi(ps[1..]);
      ReplaceSemisPlain(ps[0]);
      assert Text.Join(ps, "; ") == ps[0] + ("; " + rest);
      assert ps[0] == [] || ps[0][|ps[0]| - 1] != ';' by {
        if ps[0] != [] {
          assert ps[0][|ps[0]| - 1] in ps[0];
        }
      }
      ReplaceSemisAppend(ps[0], "; " + rest);
      ReplaceSemisSemiBlank(rest);
    }
  }

  /** A line of the printed pattern: what the constructor's replacement and `splitlines` leave whole. */
  predicate LineOk(y: string) {
    && y != [] && !Text.IsSpace(y[0]) && y[|y| - 1] != ';'
    && '\n' !in y && '\r' !in y && ReplaceSemis(y) == y
  }

  /** A printed segment: a good line, also once trailing blanks are removed. */
  predicate SegTextOk(x: string) {
    LineOk(x) && LineOk(Text.StripRight(x))
  }

  /** The printed vertices of segment `s`, each a good vertex text that reads back as its vertex. */
  lemma PrintVertices(p: Pattern, s: nat) returns (texts: seq<string>)
    requires Printable(p) && s < |p.segments|
    ensures VertexStrings(p.hbonds, p.segments[s].vertices, s, 0) == Success(texts)
    ensures |texts| == |p.segments[s].vertices|
    ensures forall j :: 0 <= j < |texts| ==> VertexTextOk(texts[j])
    ensures forall j :: 0 <= j < |texts| ==>
      VertexString(p.hbonds, p.segments[s].vertices[j], Pos(s, j)) == Success(texts[j])
  {
    var vs := p.segments[s].vertices;
    forall j | 0 <= j < |vs|
      ensures VertexString(p.hbonds, vs[j], Pos(s, j)).Success?
      ensures VertexTextOk(VertexString(p.hbonds, vs[j], Pos(s, j)).value)
    {
      PrintedVertexReads(p, s, j);
    }
    texts := VertexStrings(p.hbonds, vs, s, 0).value;
    VertexTextsOf(p.hbonds, vs, s, texts);
  }

  /** The vertex `j` of segment `s` prints as a good vertex text that reads back as the vertex. */
  lemma PrintedVertexReads(p: Pattern, s: nat, j: nat)
    requires Printable(p) && s < |p.segments| && j < |p.segments[s].vertices|
    ensures var v := p.segments[s].vertices[j];
      && VertexString(p.hbonds, v, Pos(s, j)).Success?
      && VertexTextOk(VertexString(p.hbonds, v, Pos(s, j)).value)
      && ParseVertex(VertexString(p.hbonds, v, Pos(s, j)).value, Pos(s, j),
                     VertexAtom(p.segments[s].first, j), SeenMap(p.hbonds, Pos(s, j)))
         == Success((v, SeenMap(p.hbonds, Pos(s, j + 1))))
  {
    var q := Pos(s, j);
    assert ValidPos(p, q);
    assert VertexAt(p, q) == p.segments[s].vertices[j];
    assert AtomAt(p, q) == VertexAtom(p.segments[s].first, j);
    assert Pos(q.seg, q.idx + 1) == Pos(s, j + 1);
    PrintVertex(p, q);
    ParseVertexStep(p, q);
  }

  /** `PrintedVertexReads` for the reader of segment `s`, with the text and the maps named. */
  lemma VertexReadsAt(p: Pattern, s: nat, j: nat, text: string, m: map<Label, Constraint>, m': map<Label, Constraint>)
    requires Printable(p) && s < |p.segments| && j < |p.segments[s].vertices|
    requires VertexString(p.hbonds, p.segments[s].vertices[j], Pos(s, j)) == Success(text)
    requires m == SeenMap(p.hbonds, Pos(s, j)) && m' == SeenMap(p.hbonds, Pos(s, j + 1))
    ensures ParseVertex(text, Pos(s, j), VertexAtom(p.segments[s].first, j), m) == Success((p.segments[s].vertices[j], m'))
  {
    PrintedVertexReads(p, s, j);
  }

  /** The printed vertex texts are, one by one, the vertices' `VertexString`s. */
  lemma VertexTextsOf(h: map<Label, Constraint>, vs: seq<Vertex>, s: nat, texts: seq<string>)
    requires VertexStrings(h, vs, s, 0) == Success(texts)
    ensures |texts| == |vs|
    ensures forall j :: 0 <= j < |vs| ==> VertexString(h, vs[j], Pos(s, j)) == Success(texts[j])
  {
    forall j | 0 <= j < |vs| ensures VertexString(h, vs[j], Pos(s, j)) == Success(texts[j]) {
      assert j - 0 == j;
    }
  }

  /** Reading the printed segment `s` gives the segment and moves the parser to segment `s + 1`. */
  lemma ParseSegmentStep(p: Pattern, s: nat)
    requires Printable(p) && s < |p.segments|
    ensures SegmentString(p.hbonds, p.segments[s], s).Success?
    ensures SegTextOk(SegmentString(p.hbonds, p.segments[s], s).value)
    ensures ParseSegment(SegmentString(p.hbonds, p.segments[s], s).value, s, SeenMap(p.hbonds, Pos(s, 0)))
         == Success((p.segments[s], SeenMap(p.hbonds, Pos(s + 1, 0))))
  {
    var seg := p.segments[s];
    var texts := PrintVertices(p, s);
    var L := LetterOfAtom(seg.first);
    var text := [L] + ": " + Text.Join(texts, "; ");
    assert SegmentString(p.hbonds, seg, s) == Success(text);
    var st := seq(|texts| + 1, j requires 0 <= j => SeenMap(p.hbonds, Pos(s, j)));
    ReadPrintedVertices(p, s, texts, st);
    WholeSlice(seg.vertices);
    SeenMapSegmentEnd(p, s);
    SegmentTextParse(L, texts);
    ParseSegmentOf(text, s, seg, texts, SeenMap(p.hbonds, Pos(s, 0)), SeenMap(p.hbonds, Pos(s + 1, 0)));
  }

  /** `ParseSegment` on a segment text whose body lists the vertex texts. */
  lemma ParseSegmentOf(text: string, s: nat, seg: Segment, texts: seq<string>,
                       hb: map<Label, Constraint>, hb1: map<Label, Constraint>)
    requires var t := Text.Strip(text);
      |t| >= 2 && t[0] == LetterOfAtom(seg.first) && t[1] == ':' && VertexSpecs(SegmentBody(t)) == texts
    requires ParseVertices(texts, s, seg.first, 0, hb) == Success((seg.vertices[0..], hb1))
    ensures ParseSegment(text, s, hb) == Success((seg, hb1))
  {
    WholeSlice(seg.vertices);
  }

  /** The segment text `L: v0; v1; ...` of printed vertices. */
  lemma SegmentTextParse(L: char, texts: seq<string>)
    requires AtomOfLetter(L).Some?
    requires forall j :: 0 <= j < |texts| ==> VertexTextOk(texts[j])
    ensures SegTextOk([L] + ": " + Text.Join(texts, "; "))
    ensures var t := Text.Strip([L] + ": " + Text.Join(texts, "; "));
      |t| >= 2 && t[0] == L && t[1] == ':' && VertexSpecs(SegmentBody(t)) == texts
  {
    SegmentLineOk(L, texts);
    if texts == [] {
      SegmentTextEmpty(L);
    } else {
      SegmentTextVertices(L, texts);
    }
  }

  /** The printed segment is one good line, also without its trailing blanks. */
  lemma SegmentLineOk(L: char, texts: seq<string>)
    requires AtomOfLetter(L).Some?
    requires forall j :: 0 <= j < |texts| ==> VertexTextOk(texts[j])
    ensures SegTextOk([L] + ": " + Text.Join(texts, "; "))
  {
    if texts == [] {
      SegmentHeaderOk(L);
    } else {
      JoinedVerticesFacts(texts);
      HeaderLineOk(L, Text.Join(texts, "; "));
    }
  }

  /** A segment body: one non-empty line ending in a non-blank other than `;`, with no `;;`. */
  predicate BodyOk(body: string) {
    && body != [] && body[|body| - 1] != ';' && !Text.IsSpace(body[|body| - 1])
    && '\n' !in body && '\r' !in body && ReplaceSemis(body) == body
  }

  /** The vertex texts joined by `; ` form one line that ends in a non-blank other than `;`. */
  lemma JoinedVerticesFacts(texts: seq<string>)
    requires texts != [] && forall j :: 0 <= j < |texts| ==> VertexTextOk(texts[j])
    ensures BodyOk(Text.Join(texts, "; "))
  {
    JoinedVerticesLines(texts);
    ReplaceSemisJoinSemi(texts);
    JoinedVerticesLast(texts);
  }

  lemma JoinedVerticesLines(texts: seq<string>)
    requires forall j :: 0 <= j < |texts| ==> VertexTextOk(texts[j])
    ensures '\n' !in Text.Join(texts, "; ") && '\r' !in Text.Join(texts, "; ")
  {
    Text.JoinWithout(texts, "; ", '\n');
    Text.JoinWithout(texts, "; ", '\r');
  }

  lemma JoinedVerticesLast(texts: seq<string>)
    requires texts != [] && VertexTextOk(texts[|texts| - 1])
    ensures var body := Text.Join(texts, "; ");
      body != [] && body[|body| - 1] != ';' && !Text.IsSpace(body[|body| - 1])
  {
    Text.JoinLast(texts, "; ");
    LastOfVertexText(texts[|texts| - 1]);
  }

  lemma LastOfVertexText(x: string)
    requires VertexTextOk(x)
    ensures x[|x| - 1] != ';' && !Text.IsSpace(x[|x| - 1])
  {
    assert x[|x| - 1] in x;
  }

  /** `L: ` and `L:` are good lines. */
  lemma SegmentHeaderOk(L: char)
    requires AtomOfLetter(L).Some?
    ensures SegTextOk([L] + ": " + Text.Join([], "; "))
  {
    var text := [L] + ": " + Text.Join([], "; ");
    assert text == [L, ':', ' '];
    ReplaceSemisPlain([L, ':', ' ']);
    assert Text.StripRight(text) == Text.StripRight([L, ':']);
    ReplaceSemisPlain([L, ':']);
  }

  /** `L: body` is a good line for a body that is one and ends in a non-blank. */
  lemma HeaderLineOk(L: char, body: string)
    requires AtomOfLetter(L).Some?
    requires BodyOk(body)
    ensures SegTextOk([L] + ": " + body)
  {
    var h := [L] + ": ";
    var text := h + body;
    ReplaceSemisHeader(L, body);
    assert h == [L, ':', ' '];
    assert text[0] == L && text[|text| - 1] == body[|body| - 1];
    LetterFacts(L);
    NotInConcat(h, body, '\n');
    NotInConcat(h, body, '\r');
    Text.StripRightId(text);
  }

  lemma ReplaceSemisHeader(L: char, body: string)
    requires AtomOfLetter(L).Some? && ReplaceSemis(body) == body
    ensures ReplaceSemis([L] + ": " + body) == [L] + ": " + body
  {
    var h := [L] + ": ";
    LetterFacts(L);
    assert h == [L, ':', ' '];
    ReplaceSemisPlain(h);
    ReplaceSemisAppend(h, body);
  }

  /** An atom letter is none of the characters the printer treats specially. */
  lemma LetterFacts(L: char)
    requires AtomOfLetter(L).Some?
    ensures !Text.IsSpace(L) && L != ';' && L != '\n' && L != '\r'
  {
  }

  lemma NotInConcat(a: string, b: string, c: char)
    requires c !in a && c !in b
    ensures c !in a + b
  {
  }

  /** A segment without vertices: `L: ` has an empty body. */
  lemma SegmentTextEmpty(L: char)
    requires AtomOfLetter(L).Some?
    ensures var t := Text.Strip([L] + ": " + Text.Join([], "; "));
      |t| >= 2 && t[0] == L && t[1] == ':' && VertexSpecs(SegmentBody(t)) == []
  {
    var text := [L] + ": " + Text.Join([], "; ");
    assert text == [L, ':', ' '];
    assert Text.StripRight(text) == Text.StripRight([L, ':']);
    assert Text.Strip(text) == [L, ':'];
    assert SegmentBody([L, ':']) == [];
    assert Text.Split([], ';') == [""];
    assert Text.Strip("") == "";
  }

  /** The body after `L: ` holds exactly the printed vertices. */
  lemma SegmentTextVertices(L: char, texts: seq<string>)
    requires AtomOfLetter(L).Some? && texts != []
    requires forall j :: 0 <= j < |texts| ==> VertexTextOk(texts[j])
    ensures var t := Text.Strip([L] + ": " + Text.Join(texts, "; "));
      |t| >= 2 && t[0] == L && t[1] == ':' && VertexSpecs(SegmentBody(t)) == texts
  {
    var body := Text.Join(texts, "; ");
    var text := [L] + ": " + body;
    Text.JoinHead(texts, "; ");
    Text.JoinLast(texts, "; ");
    Text.JoinWithout(texts, "; ", '\n');
    assert body[|body| - 1] in texts[|texts| - 1];
    assert !Text.IsSpace(text[0]) && text[|text| - 1] == body[|body| - 1];
    Text.StripId(text);
    SegmentBodyOf(L, body);
    Text.StripId(body);
    Text.SplitJoinSpaced(texts, ';');
    assert [';', ' '] == "; ";
    NonEmptyId(texts);
  }

  /** The body of `L: body` is `body` when it has no line break. */
  lemma SegmentBodyOf(L: char, body: string)
    requires body != [] && !Text.IsSpace(body[0]) && '\n' !in body
    ensures SegmentBody([L] + ": " + body) == body
  {
    var text := [L] + ": " + body;
    var u := text[2..];
    assert u == " " + body;
    KeyVal.SpanOf(" ", body, Text.IsSpace);
    assert u[1..] == body;
    forall i | 0 <= i < |body| ensures NotNewline(body[i]) {
      assert body[i] in body;
    }
    KeyVal.SpanOf(body, [], NotNewline);
    assert body + [] == body;
  }

  lemma {:induction false} NonEmptyId(ps: seq<string>)
    requires forall k :: 0 <= k < |ps| ==> ps[k] != []
    ensures NonEmpty(ps) == ps
  {
    if ps != [] {
      NonEmptyId(ps[1..]);
      assert [ps[0]] + ps[1..] == ps;
    }
  }

  // ----- patterns -----

  /** The maps the parser holds before segments 0 to `n`. */
  function SegmentMaps(h: map<Label, Constraint>, n: nat): (st: seq<map<Label, Constraint>>)
    ensures |st| == n + 1 && forall j :: 0 <= j <= n ==> st[j] == SeenMap(h, Pos(j, 0))
  {
    seq(n + 1, j requires 0 <= j => SeenMap(h, Pos(j, 0)))
  }

  /** `texts` are the printed segments of the printable pattern `p`. */
  ghost predicate PrintedAs(p: Pattern, texts: seq<string>) {
    && Printable(p) && |texts| == |p.segments|
    && forall j :: 0 <= j < |texts| ==> SegmentString(p.hbonds, p.segments[j], j) == Success(texts[j])
  }

  /** The stripped segment texts of `p` read back as its segments, from the empty map to the whole of `p.hbonds`. */
  lemma ReadPrintedSegments(p: Pattern, texts: seq<string>)
    requires PrintedAs(p, texts)
    ensures ParseSegments(Text.StripAll(texts), 0, SeenMap(p.hbonds, Pos(0, 0)))
         == Success((p.segments[0..], SeenMap(p.hbonds, Pos(|p.segments|, 0))))
  {
    var st := SegmentMaps(p.hbonds, |texts|);
    ReadEachSegment(p, texts, st);
    SegmentsChain(Text.StripAll(texts), p.segments, st, 0);
    WholeSlice(p.segments);
  }

  /** Each stripped segment text reads back as its segment. */
  lemma ReadEachSegment(p: Pattern, texts: seq<string>, st: seq<map<Label, Constraint>>)
    requires PrintedAs(p, texts) && |st| == |texts| + 1
    requires forall j :: 0 <= j <= |texts| ==> st[j] == SeenMap(p.hbonds, Pos(j, 0))
    ensures SegmentSteps(Text.StripAll(texts), p.segments, st)
  {
    var specs := Text.StripAll(texts);
    forall j | 0 <= j < |texts|
      ensures ParseSegment(specs[j], j, st[j]) == Success((p.segments[j], st[j + 1]))
    {
      ReadPrintedSegment(p, texts, j);
    }
  }

  lemma ReadPrintedSegment(p: Pattern, texts: seq<string>, j: nat)
    requires PrintedAs(p, texts) && j < |texts|
    ensures ParseSegment(Text.Strip(texts[j]), j, SeenMap(p.hbonds, Pos(j, 0)))
         == Success((p.segments[j], SeenMap(p.hbonds, Pos(j + 1, 0))))
  {
    ParseSegmentStep(p, j);
    Text.StripTwice(texts[j]);
  }

  /** Newline-separated lines are left alone by the replacement of `;;`. */
  lemma {:induction false} ReplaceSemisJoinLines(ps: seq<string>)
    requires forall k :: 0 <= k < |ps| ==> LineOk(ps[k])
    ensures ReplaceSemis(Text.Join(ps, "\n")) == Text.Join(ps, "\n")
  {
    if |ps| > 1 {
      var rest := Text.Join(ps[1..], "\n");
      ReplaceSemisJoinLines(ps[1..]);
      assert ps[0] + "\n" + rest == ps[0] + ("\n" + rest);
      ReplaceSemisAppend(ps[0], "\n" + rest);
      assert ("\n" + rest)[1..] == rest;
    }
  }

  /** `;; ` becomes a line break and a blank. */
  lemma ReplaceSemisDoubleSemi(rest: string)
    ensures ReplaceSemis(";; " + rest) == "\n " + ReplaceSemis(rest)
  {
    var s := ";; " + rest;
    assert s[2..] == [' '] + rest;
    ReplaceSemisCopy(' ', rest);
  }

  /** Joining on `sep` after a first line: the first line, `sep`, and the join of the rest. */
  lemma JoinStep(ps: seq<string>, sep: string)
    requires |ps| > 1
    ensures Text.Join(ps, sep) == ps[0] + (sep + Text.Join(ps[1..], sep))
  {
  }

  /** `;; `-separated lines become lines that start with a blank. */
  lemma {:induction false} ReplaceSemisJoinOneline(ps: seq<string>)
    requires forall k :: 0 <= k < |ps| ==> LineOk(ps[k])
    ensures ReplaceSemis(Text.Join(ps, ";; ")) == Text.Join(ps, "\n ")
  {
    if |ps| == 1 {
      assert LineOk(ps[0]);
    } else if |ps| > 1 {
      var rest := Text.Join(ps[1..], ";; ");
      ReplaceSemisJoinOneline(ps[1..]);
      JoinStep(ps, ";; ");
      JoinStep(ps, "\n ");
      assert LineOk(ps[0]);
      ReplaceSemisAppend(ps[0], ";; " + rest);
      ReplaceSemisDoubleSemi(rest);
    }
  }

  lemma {:induction false} NewlinesPlain(a: string)
    requires '\r' !in a
    ensures Newlines(a) == a
  {
    if a != [] {
      NewlinesPlain(a[1..]);
      assert [a[0]] + a[1..] == a;
    }
  }

  /** A printed segment strips to something non-empty, also once trailing blanks are removed. */
  lemma StripAllLast(ps: seq<string>)
    requires |ps| >= 1
    requires forall k :: 0 <= k < |ps| ==> ps[k] != [] && !Text.IsSpace(ps[k][0])
    ensures Text.StripAll(ps[..|ps| - 1] + [Text.StripRight(ps[|ps| - 1])]) == Text.StripAll(ps)
    ensures forall k :: 0 <= k < |ps| ==> Text.Strip(ps[k]) != []
  {
    var n := |ps|;
    var ls := ps[..n - 1] + [Text.StripRight(ps[n - 1])];
    Text.StripStripRight(ps[n - 1]);
    var l := Text.StripAll(ls);
    var r := Text.StripAll(ps);
    forall k | 0 <= k < n ensures l[k] == r[k] {
      if k < n - 1 {
        assert ls[k] == ps[k];
      }
    }
    forall k | 0 <= k < n ensures Text.Strip(ps[k]) != [] {
      Text.StripLeftId(ps[k]);
      Text.StripRightKeepsFirst(ps[k]);
    }
  }

  /** Reading good lines joined by `;; `: the replacement and `splitlines` give the lines back. */
  lemma LinesOneline(ls: seq<string>)
    requires |ls| >= 1 && forall k :: 0 <= k < |ls| ==> LineOk(ls[k])
    ensures Text.StripAll(SplitLines(ReplaceSemis(Text.Join(ls, ";; ")))) == Text.StripAll(ls)
  {
    forall k | 0 <= k < |ls| ensures '\n' !in ls[k] && '\r' !in ls[k] {
      assert LineOk(ls[k]);
    }
    Text.JoinWithout(ls, "\n ", '\r');
    ReplaceSemisJoinOneline(ls);
    NewlinesPlain(Text.Join(ls, "\n "));
    assert ['\n', ' '] == "\n ";
    Text.SplitJoinPieces(ls, '\n');
    Text.StripSpacedPieces(ls);
  }

  /** Reading good lines joined by line breaks gives the lines back. */
  lemma LinesMultiline(ls: seq<string>)
    requires |ls| >= 1 && forall k :: 0 <= k < |ls| ==> LineOk(ls[k])
    ensures Text.StripAll(SplitLines(ReplaceSemis(Text.Join(ls, "\n")))) == Text.StripAll(ls)
  {
    forall k | 0 <= k < |ls| ensures '\n' !in ls[k] && '\r' !in ls[k] {
      assert LineOk(ls[k]);
    }
    Text.JoinWithout(ls, "\n", '\r');
    ReplaceSemisJoinLines(ls);
    NewlinesPlain(Text.Join(ls, "\n"));
    assert ['\n'] == "\n";
    Text.SplitJoin(ls, '\n');
  }

  /** Stripping the joined segment texts only strips the last one on the right. */
  lemma StripJoinedTexts(texts: seq<string>, sep: string)
    requires texts != [] && forall k :: 0 <= k < |texts| ==> SegTextOk(texts[k])
    ensures Text.Strip(Text.Join(texts, sep)) == Text.Join(texts[..|texts| - 1] + [Text.StripRight(texts[|texts| - 1])], sep)
    ensures Text.StripAll(texts[..|texts| - 1] + [Text.StripRight(texts[|texts| - 1])]) == Text.StripAll(texts)
    ensures forall k :: 0 <= k < |texts| ==> Text.Strip(texts[k]) != []
  {
    var t := Text.Join(texts, sep);
    forall k | 0 <= k < |texts| ensures texts[k] != [] && !Text.IsSpace(texts[k][0]) {
      assert SegTextOk(texts[k]);
    }
    Text.JoinHead(texts, sep);
    Text.StripLeftId(t);
    Text.StripRightJoin(texts, sep);
    StripAllLast(texts);
  }

  /** The segment texts, the last without its trailing blanks, are good lines. */
  lemma TrimmedLines(texts: seq<string>, ls: seq<string>)
    requires texts != [] && forall k :: 0 <= k < |texts| ==> SegTextOk(texts[k])
    requires ls == texts[..|texts| - 1] + [Text.StripRight(texts[|texts| - 1])]
    ensures |ls| == |texts| && forall k :: 0 <= k < |ls| ==> LineOk(ls[k])
  {
    var n := |texts|;
    forall k | 0 <= k < n ensures LineOk(ls[k]) {
      assert SegTextOk(texts[k]);
      if k < n - 1 {
        assert ls[k] == texts[k];
      } else {
        assert ls[k] == Text.StripRight(texts[k]);
      }
    }
  }

  /** The constructor's segment specifications of a printed pattern are the stripped segment texts. */
  lemma SegmentSpecsOfJoin(texts: seq<string>, oneline: bool)
    requires forall k :: 0 <= k < |texts| ==> SegTextOk(texts[k])
    ensures SegmentSpecs(Text.Join(texts, if oneline then ";; " else "\n")) == Text.StripAll(texts)
  {
    if texts == [] {
      SegmentSpecsEmpty(if oneline then ";; " else "\n");
    } else if oneline {
      SegmentSpecsOf(texts, ";; ");
    } else {
      SegmentSpecsOf(texts, "\n");
    }
  }

  lemma SegmentSpecsEmpty(sep: string)
    ensures SegmentSpecs(Text.Join([], sep)) == []
  {
    assert Text.Join([], sep) == "";
    assert SplitLines("") == [""];
    assert Text.Strip("") == "";
  }

  lemma SegmentSpecsOf(texts: seq<string>, sep: string)
    requires texts != [] && (sep == ";; " || sep == "\n")
    requires forall k :: 0 <= k < |texts| ==> SegTextOk(texts[k])
    ensures SegmentSpecs(Text.Join(texts, sep)) == Text.StripAll(texts)
  {
    var n := |texts|;
    var ls := texts[..n - 1] + [Text.StripRight(texts[n - 1])];
    TrimmedLines(texts, ls);
    StripJoinedTexts(texts, sep);
    if sep == ";; " {
      LinesOneline(ls);
    } else {
      LinesMultiline(ls);
    }
    SpecsOfLines(texts, sep, ls);
  }

  /** `SegmentSpecs` of a text that strips to lines which read back as the stripped texts. */
  lemma SpecsOfLines(texts: seq<string>, sep: string, ls: seq<string>)
    requires Text.Strip(Text.Join(texts, sep)) == Text.Join(ls, sep)
    requires Text.StripAll(SplitLines(ReplaceSemis(Text.Join(ls, sep)))) == Text.StripAll(ls)
    requires Text.StripAll(ls) == Text.StripAll(texts)
    requires forall k :: 0 <= k < |texts| ==> Text.Strip(texts[k]) != []
    ensures SegmentSpecs(Text.Join(texts, sep)) == Text.StripAll(texts)
  {
    StrippedNonEmpty(texts);
  }

  lemma StrippedNonEmpty(texts: seq<string>)
    requires forall k :: 0 <= k < |texts| ==> Text.Strip(texts[k]) != []
    ensures NonEmpty(Text.StripAll(texts)) == Text.StripAll(texts)
  {
    var r := Text.StripAll(texts);
    forall k | 0 <= k < |r| ensures r[k] != [] {
      assert r[k] == Text.Strip(texts[k]);
    }
    NonEmptyId(r);
  }

  /**
   * The round trip `CDP(name, p.as_string(oneline), p.strict)`: a printable
   * pattern prints, on one line or on several, and its text parses back to
   * the same segments, vertices and H-bonds.
   */
  lemma PrintParse(p: Pattern, oneline: bool)
    requires Printable(p)
    ensures PatternString(p, oneline).Success?
    ensures ParsePattern(p.name, PatternString(p, oneline).value, Some(p.strict)) == Success(p)
  {
    var texts := PrintSegments(p);
    var t := Text.Join(texts, if oneline then ";; " else "\n");
    assert PatternString(p, oneline) == Success(t);
    SegmentSpecsOfJoin(texts, oneline);
    ParsePrinted(p, t, texts);
  }

  /** A text whose segment specifications are the printed segments, stripped, parses back as `p`. */
  lemma ParsePrinted(p: Pattern, t: string, texts: seq<string>)
    requires PrintedAs(p, texts) && SegmentSpecs(t) == Text.StripAll(texts)
    ensures ParsePattern(p.name, t, Some(p.strict)) == Success(p)
  {
    ReadPrintedSegments(p, texts);
    SeenMapStart(p.hbonds);
    SeenMapAll(p);
    AllSpecified(p);
    ParsePatternOf(p, t, Text.StripAll(texts));
  }

  /** Every segment of a printable pattern prints as a good line. */
  lemma PrintSegments(p: Pattern) returns (texts: seq<string>)
    requires Printable(p)
    ensures SegmentStrings(p, 0) == Success(texts) && PrintedAs(p, texts)
    ensures forall j :: 0 <= j < |texts| ==> SegTextOk(texts[j])
  {
    forall j | 0 <= j < |p.segments|
      ensures SegmentString(p.hbonds, p.segments[j], j).Success?
      ensures SegTextOk(SegmentString(p.hbonds, p.segments[j], j).value)
    {
      ParseSegmentStep(p, j);
    }
    texts := SegmentStrings(p, 0).value;
  }

  /** The bonds of a printable pattern have both ends. */
  lemma AllSpecified(p: Pattern)
    requires Printable(p)
    ensures forall l :: l in p.hbonds ==> IsSpecified(p.hbonds[l])
  {
    forall l | l in p.hbonds ensures IsSpecified(p.hbonds[l]) {
      assert GoodBond(p, l);
    }
  }

  /** `ParsePattern` on a text whose segments read back as those of `p`. */
  lemma ParsePatternOf(p: Pattern, t: string, specs: seq<string>)
    requires SegmentSpecs(t) == specs
    requires ParseSegments(specs, 0, SeenMap(p.hbonds, Pos(0, 0)))
          == Success((p.segments[0..], SeenMap(p.hbonds, Pos(|p.segments|, 0))))
    requires SeenMap(p.hbonds, Pos(0, 0)) == map[]
    requires SeenMap(p.hbonds, Pos(|p.segments|, 0)) == p.hbonds
    requires forall l :: l in p.hbonds ==> IsSpecified(p.hbonds[l])
    ensures ParsePattern(p.name, t, Some(p.strict)) == Success(p)
  {
    WholeSlice(p.segments);
  }
}

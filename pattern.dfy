/**
 * The chord-diagram pattern language of cdp.py (classes CDP_Hbond,
 * CDP_Vertex, CDP_Segment and the constructor and printer of CDP).
 *
 * A pattern is a list of segments; a segment names the kind of its first
 * backbone atom and lists one predicate per vertex: `*` (anything), `i`
 * (isolated) or `Hb(label, ...)` (one end of the H-bond called `label`).
 * The H-bond objects shared by two vertices are the values of the map
 * `hbonds`, keyed by their label; a vertex is identified by its position
 * (segment number, vertex number).
 */
module Patterns {
  import opened Wrappers
  import Text
  import KeyVal
  import Bonds

  // The exceptions of the pattern parser and printer, as the messages Python gives.
  const DonorSet := "donor for H-bond already set"
  const AcceptorSet := "acceptor for H-bond already set"
  const NotEndpoint := "endpoint of a H-bond must be either an N or O backbone atom"
  const BadSo3 := "invalid argument to set_SO3class; expected set or string"
  const ZeroStep := "ValueError: range() step argument must not be zero"
  const NoneUnion := "TypeError: unsupported operand type(s) for |=: 'set' and 'NoneType'"
  const BoolIter := "TypeError: 'bool' object is not iterable"
  const BadVertex := "unable to parse vertex specification '"
  const NoLabel := "no label for H-bond"
  const Unhashable := "TypeError: unhashable type: 'set'"
  const BadSegment := "invalid segment specification '"
  const SegmentHint := "'; must begin with (N|C|O):"
  const Incomplete := "H-bond incompletely specified"
  const BoolConcat := "TypeError: cannot concatenate 'bool' and 'str' objects"
  const KeyError := "KeyError"

  /** The label of an H-bond: the str given in the pattern, or True. */
  type Label = KeyVal.Value

  /** A vertex, as its segment number and its number within the segment. */
  datatype Pos = Pos(seg: nat, idx: nat)

  /**
   * The vertex types: `*`, `i` and a chord `c`; `+` and `-` (a bond to a
   * later or an earlier atom) are understood by the matcher but never
   * produced by the parser.
   */
  datatype Vertex = Wildcard | Isolated | Up | Down | Chord(bond: Label)

  datatype Segment = Segment(first: Bonds.Atom, vertices: seq<Vertex>)

  /**
   * A CDP_Hbond: its two ends (each set once), the allowed SO3 classes and
   * the allowed signed distances. The set of distances is held as the
   * increasing list of its members.
   */
  datatype Constraint = Constraint(donor: Option<Pos>, accptr: Option<Pos>,
                                   so3class: Option<seq<string>>, dist: Option<seq<int>>)

  const Unset := Constraint(None, None, None, None)

  datatype Pattern = Pattern(name: string, strict: bool, segments: seq<Segment>,
                             hbonds: map<Label, Constraint>)

  /** `CDP.strict_default`. */
  const StrictDefault := true

  /** `CDP_Vertex.atom()`: the atom kind of vertex `i` of a segment whose first atom is `first`. */
  function VertexAtom(first: Bonds.Atom, i: nat): Bonds.Atom {
    Bonds.AtomOf(i + Bonds.AtomMod3(first))
  }

  // ----- CDP_Hbond -----

  /**
   * `set_endpoint`: an N vertex is the donor, an O vertex the acceptor, each
   * settable once; a C-alpha vertex cannot be an end.
   */
  function SetEndpoint(c: Constraint, v: Pos, atom: Bonds.Atom): Result<Constraint> {
    match atom
    case N => if c.donor.Some? then Failure(DonorSet) else Success(c.(donor := Some(v)))
    case O => if c.accptr.Some? then Failure(AcceptorSet) else Success(c.(accptr := Some(v)))
    case Ca => Failure(NotEndpoint)
  }

  /** An end can be set only once: a second vertex of the same kind is refused. */
  lemma SetEndpointOnce(c: Constraint, v: Pos, w: Pos, atom: Bonds.Atom)
    requires SetEndpoint(c, v, atom).Success?
    ensures atom != Bonds.Ca
    ensures SetEndpoint(SetEndpoint(c, v, atom).value, w, atom).Failure?
  {
  }

  /** Setting one end leaves the other end and the properties alone. */
  lemma SetEndpointFrames(c: Constraint, v: Pos, atom: Bonds.Atom)
    requires SetEndpoint(c, v, atom).Success?
    ensures var c' := SetEndpoint(c, v, atom).value;
      && c'.so3class == c.so3class && c'.dist == c.dist
      && (atom == Bonds.N ==> c'.donor == Some(v) && c'.accptr == c.accptr)
      && (atom == Bonds.O ==> c'.accptr == Some(v) && c'.donor == c.donor)
  {
  }

  /** `set_SO3class`: a str is the one allowed class, a set lists them; True is refused. */
  function SetSO3class(c: Constraint, v: Label): (r: Result<Constraint>)
    ensures r.Failure? <==> v.Flag?
    ensures v.Str? ==> r == Success(c.(so3class := Some([v.s])))
    ensures v.Items? ==> r == Success(c.(so3class := Some(v.items)))
  {
    match v
    case Str(s) => Success(c.(so3class := Some([s])))
    case Items(xs) => Success(c.(so3class := Some(xs)))
    case Flag => Failure(BadSo3)
  }

  /** The length of the prefix of `s` matching the regex `-?[0-9]+`, or 0. */
  function SignedLen(s: string): (n: nat)
    ensures n <= |s|
    ensures n > 0 ==> Text.ParseInt(s[..n]).Some?
  {
    if s != [] && s[0] == '-' then
      var d := KeyVal.Span(s[1..], Text.IsDigit);
      assert s[..1 + d][1..] == s[1..][..d];
      if d == 0 then 0 else 1 + d
    else
      var d := KeyVal.Span(s, Text.IsDigit);
      assert d > 0 ==> s[..d][0] == s[0];
      d
  }

  predicate Increasing(s: seq<int>) {
    forall i, j :: 0 <= i < j < |s| ==> s[i] < s[j]
  }

  /**
   * `range(lo, hi + 1, step)` for a positive step: lo, lo + step, ... as
   * long as the value does not exceed hi.
   */
  function Steps(lo: int, hi: int, step: nat): (r: seq<int>)
    requires step > 0
    ensures r != [] <==> lo <= hi
    ensures r != [] ==> r[0] == lo && r[|r| - 1] <= hi < r[|r| - 1] + step
    ensures forall i :: 0 <= i < |r| - 1 ==> r[i + 1] == r[i] + step
    ensures forall x :: x in r ==> lo <= x <= hi
    ensures Increasing(r)
    decreases hi - lo
  {
    if lo > hi then []
    else [lo] + Steps(lo + step, hi, step)
  }

  /** With step 1 the range holds every integer from lo to hi. */
  lemma {:induction false} StepsOne(lo: int, hi: int, x: int)
    requires lo <= x <= hi
    ensures x in Steps(lo, hi, 1)
    decreases hi - lo
  {
    if x > lo {
      StepsOne(lo + 1, hi, x);
    }
  }

  lemma ConsIncreasing(h: int, t: seq<int>)
    requires Increasing(t) && forall x :: x in t ==> h < x
    ensures Increasing([h] + t)
  {
    var r := [h] + t;
    forall i, j | 0 <= i < j < |r| ensures r[i] < r[j] {
      if i > 0 {
        assert r[i] == t[i - 1] && r[j] == t[j - 1];
      } else {
        assert r[j] == t[j - 1] && t[j - 1] in t;
      }
    }
  }

  lemma HeadLeast(s: seq<int>)
    requires Increasing(s) && s != []
    ensures forall x :: x in s[1..] ==> s[0] < x
    ensures forall x :: x in s ==> s[0] <= x
  {
  }

  /** The union of two sets given as increasing lists, as an increasing list. */
  function Merge(a: seq<int>, b: seq<int>): (r: seq<int>)
    requires Increasing(a) && Increasing(b)
    ensures Increasing(r)
    ensures forall x :: x in r <==> x in a || x in b
    decreases |a| + |b|
  {
    if a == [] then b
    else if b == [] then a
    else
      HeadLeast(a);
      HeadLeast(b);
      if a[0] < b[0] then
        var t := Merge(a[1..], b);
        ConsIncreasing(a[0], t);
        [a[0]] + t
      else if b[0] < a[0] then
        var t := Merge(a, b[1..]);
        ConsIncreasing(b[0], t);
        [b[0]] + t
      else
        var t := Merge(a[1..], b[1..]);
        ConsIncreasing(a[0], t);
        [a[0]] + t
  }

  /**
   * `scalar_to_intset` on a str: `a...b` is the closed range from a to b,
   * a plain integer is itself, `a..s..b` is every s-th integer from a up to
   * b (a step of 0 is the ValueError of `range`); anything else gives None.
   */
  function ScalarToIntSet(s: string): (r: Result<Option<seq<int>>>)
    ensures r.Success? && r.value.Some? ==> Increasing(r.value.value)
  {
    var a := SignedLen(s);
    if a > 0 && |s| >= a + 3 && s[a..a + 3] == "..." && Text.ParseInt(s[a + 3..]).Some? then
      var lo := Text.ParseInt(s[..a]).value;
      var hi := Text.ParseInt(s[a + 3..]).value;
      Success(Some(Steps(lo, hi, 1)))
    else if Text.ParseInt(s).Some? then
      Success(Some([Text.ParseInt(s).value]))
    else if a > 0 && |s| >= a + 2 && s[a..a + 2] == ".." then
      var t := s[a + 2..];
      var st := KeyVal.Span(t, Text.IsDigit);
      if st > 0 && |t| >= st + 2 && t[st..st + 2] == ".." && Text.ParseInt(t[st + 2..]).Some? then
        var lo := Text.ParseInt(s[..a]).value;
        var step := Text.DigitsValue(t[..st]);
        var hi := Text.ParseInt(t[st + 2..]).value;
        if step == 0 then Failure(ZeroStep)
        else Success(Some(Steps(lo, hi, step)))
      else Success(None)
    else Success(None)
  }

  /**
   * `self.dist |= scalar_to_intset(x)` for each member of a set; a member
   * that is no scalar gives None, and `|=` with None is a TypeError.
   */
  function DistUnion(xs: seq<string>): (r: Result<seq<int>>)
    ensures r.Success? ==> Increasing(r.value)
  {
    if xs == [] then Success([])
    else
      var head := ScalarToIntSet(xs[0]);
      if head.Failure? then Failure(head.error)
      else if head.value.None? then Failure(NoneUnion)
      else
        var rest := DistUnion(xs[1..]);
        if rest.Failure? then rest else Success(Merge(head.value.value, rest.value))
  }

  /**
   * `set_dist`: a str is one scalar (an unparsable one leaves the distance
   * unconstrained, None), a set is the union of its scalars; True is not
   * iterable.
   */
  function SetDist(c: Constraint, v: Label): Result<Constraint> {
    match v
    case Str(s) =>
      var d := ScalarToIntSet(s);
      if d.Failure? then Failure(d.error) else Success(c.(dist := d.value))
    case Items(xs) =>
      var d := DistUnion(xs);
      if d.Failure? then Failure(d.error) else Success(c.(dist := Some(d.value)))
    case Flag => Failure(BoolIter)
  }

  /** `set_properties`: the SO3 class and then the distance, when the dictionary has them. */
  function SetProperties(c: Constraint, kv: KeyVal.Dict): Result<Constraint> {
    var c1 := if "SO3class" in kv then SetSO3class(c, kv["SO3class"]) else Success(c);
    if c1.Failure? then c1
    else if "dist" in kv then SetDist(c1.value, kv["dist"])
    else c1
  }

  /** `is_specified`. */
  predicate IsSpecified(c: Constraint) {
    c.donor.Some? && c.accptr.Some?
  }

  /** `other_end(v)`: the opposite end of the bond from vertex `v`; None for a vertex that is neither end. */
  function OtherEnd(c: Constraint, v: Pos): (r: Option<Pos>)
    ensures IsSpecified(c) && c.donor != c.accptr && (c.donor == Some(v) || c.accptr == Some(v))
            ==> r.Some? && r.value != v && (c.donor == r || c.accptr == r)
  {
    if c.donor == Some(v) then c.accptr
    else if c.accptr == Some(v) then c.donor
    else None
  }

  // ----- CDP_Vertex -----

  predicate NotParen(c: char) {
    c != '(' && c != ')'
  }

  /** `re.match("Hb\s*\(([^()]+)\)", spec)`: the text between the parentheses. */
  function MatchChord(s: string): Option<string> {
    if |s| < 2 || s[..2] != "Hb" then None
    else
      var t := s[2..];
      var u := t[KeyVal.Span(t, Text.IsSpace)..];
      if u == [] || u[0] != '(' then None
      else
        var v := u[1..];
        var n := KeyVal.Span(v, NotParen);
        if n == 0 || n == |v| || v[n] != ')' then None
        else Some(v[..n])
  }

  /**
   * The constructor of CDP_Vertex: the vertex at `pos`, of atom kind `atom`,
   * and the H-bond map with this vertex recorded as an end of its bond.
   */
  function ParseVertex(spec: string, pos: Pos, atom: Bonds.Atom, hbonds: map<Label, Constraint>)
    : Result<(Vertex, map<Label, Constraint>)>
  {
    var t := Text.Strip(spec);
    if t == "*" then Success((Wildcard, hbonds))
    else if t == "i" then Success((Isolated, hbonds))
    else if MatchChord(t).None? then Failure(BadVertex + t + KeyVal.Quote)
    else
      var kv := KeyVal.ParseSpec(MatchChord(t).value);
      if kv.Failure? then Failure(kv.error)
      else if "label" !in kv.value then Failure(NoLabel)
      else
        var lab := kv.value["label"];
        if lab.Items? then Failure(Unhashable)
        else
          var c := if lab in hbonds then hbonds[lab] else Unset;
          var c1 := SetEndpoint(c, pos, atom);
          if c1.Failure? then Failure(c1.error)
          else
            var c2 := SetProperties(c1.value, kv.value - {"label"});
            if c2.Failure? then Failure(c2.error)
            else Success((Chord(lab), hbonds[lab := c2.value]))
  }

  // ----- CDP_Segment -----

  /** `atom_to_mod3`'s keys: the letters N, C and O. */
  function AtomOfLetter(c: char): Option<Bonds.Atom> {
    if c == 'N' then Some(Bonds.N)
    else if c == 'C' then Some(Bonds.Ca)
    else if c == 'O' then Some(Bonds.O)
    else None
  }

  function LetterOfAtom(a: Bonds.Atom): (c: char)
    ensures AtomOfLetter(c) == Some(a)
  {
    match a
    case N => 'N'
    case Ca => 'C'
    case O => 'O'
  }

  predicate NotNewline(c: char) {
    c != '\n'
  }

  /** `filter(None, ps)`: the non-empty pieces. */
  function NonEmpty(ps: seq<string>): (r: seq<string>)
    ensures forall k :: 0 <= k < |r| ==> r[k] != []
  {
    if ps == [] then []
    else if ps[0] == [] then NonEmpty(ps[1..])
    else [ps[0]] + NonEmpty(ps[1..])
  }

  /** The vertices numbered `i` onwards of segment `sidx`. */
  function ParseVertices(vspecs: seq<string>, sidx: nat, first: Bonds.Atom, i: nat,
                         hbonds: map<Label, Constraint>): Result<(seq<Vertex>, map<Label, Constraint>)>
    decreases |vspecs| - i
  {
    if i >= |vspecs| then Success(([], hbonds))
    else
      var v := ParseVertex(vspecs[i], Pos(sidx, i), VertexAtom(first, i), hbonds);
      if v.Failure? then Failure(v.error)
      else
        var rest := ParseVertices(vspecs, sidx, first, i + 1, v.value.1);
        if rest.Failure? then rest
        else Success(([v.value.0] + rest.value.0, rest.value.1))
  }

  /** The text after `(N|C|O):` and any whitespace, up to a newline (`.*`). */
  function SegmentBody(t: string): string
    requires |t| >= 2
  {
    var u := t[2..];
    var w := u[KeyVal.Span(u, Text.IsSpace)..];
    w[..KeyVal.Span(w, NotNewline)]
  }

  /** The vertex predicates of a segment body, split on `;`, stripped, empty ones dropped. */
  function VertexSpecs(body: string): seq<string> {
    NonEmpty(Text.StripAll(Text.Split(Text.Strip(body), ';')))
  }

  /** The constructor of CDP_Segment number `sidx`. */
  function ParseSegment(spec: string, sidx: nat, hbonds: map<Label, Constraint>)
    : Result<(Segment, map<Label, Constraint>)>
  {
    var t := Text.Strip(spec);
    if |t| < 2 || AtomOfLetter(t[0]).None? || t[1] != ':' then
      Failure(BadSegment + t + SegmentHint)
    else
      var first := AtomOfLetter(t[0]).value;
      var vs := ParseVertices(VertexSpecs(SegmentBody(t)), sidx, first, 0, hbonds);
      if vs.Failure? then Failure(vs.error)
      else Success((Segment(first, vs.value.0), vs.value.1))
  }

  // ----- CDP -----

  /** `s.replace(";;", "\n")`, scanning from the left. */
  function ReplaceSemis(s: string): (r: string)
  {
    if |s| >= 2 && s[0] == ';' && s[1] == ';' then "\n" + ReplaceSemis(s[2..])
    else if s == [] then []
    else [s[0]] + ReplaceSemis(s[1..])
  }

  /** Every carriage return made a newline. */
  function Newlines(s: string): (r: string)
    ensures |r| == |s|
  {
    if s == [] then [] else [if s[0] == '\r' then '\n' else s[0]] + Newlines(s[1..])
  }

  /**
   * `s.splitlines()` of Python 2's str, up to empty pieces, which the
   * caller discards: the pieces between line breaks `\n`, `\r` and `\r\n`.
   */
  function SplitLines(s: string): seq<string> {
    Text.Split(Newlines(s), '\n')
  }

  /** The segment specifications of a pattern text. */
  function SegmentSpecs(spec: string): seq<string> {
    NonEmpty(Text.StripAll(SplitLines(ReplaceSemis(Text.Strip(spec)))))
  }

  /** The segments numbered `i` onwards. */
  function ParseSegments(specs: seq<string>, i: nat, hbonds: map<Label, Constraint>)
    : Result<(seq<Segment>, map<Label, Constraint>)>
    decreases |specs| - i
  {
    if i >= |specs| then Success(([], hbonds))
    else
      var s := ParseSegment(specs[i], i, hbonds);
      if s.Failure? then Failure(s.error)
      else
        var rest := ParseSegments(specs, i + 1, s.value.1);
        if rest.Failure? then rest
        else Success(([s.value.0] + rest.value.0, rest.value.1))
  }

  /** Python's `strict = CDP.strict_default if strict is None else strict`. */
  function StrictOf(strict: Option<bool>): bool {
    if strict.Some? then strict.value else StrictDefault
  }

  /**
   * The constructor of CDP: every segment parsed in order, and then every
   * H-bond must have both ends.
   */
  function ParsePattern(name: string, spec: string, strict: Option<bool>): Result<Pattern> {
    var r := ParseSegments(SegmentSpecs(spec), 0, map[]);
    if r.Failure? then Failure(r.error)
    else if exists l :: l in r.value.1 && !IsSpecified(r.value.1[l]) then
      Failure(Incomplete)
    else Success(Pattern(name, StrictOf(strict), r.value.0, r.value.1))
  }

  /** Every H-bond of a parsed pattern has both ends. */
  lemma ParsedSpecified(name: string, spec: string, strict: Option<bool>)
    requires ParsePattern(name, spec, strict).Success?
    ensures forall l :: l in ParsePattern(name, spec, strict).value.hbonds ==>
      IsSpecified(ParsePattern(name, spec, strict).value.hbonds[l])
  {
  }

  // ----- printing -----

  /** `[str(x) for x in xs]`. */
  function IntStrings(xs: seq<int>): (r: seq<string>)
    ensures |r| == |xs|
    ensures forall k :: 0 <= k < |xs| ==> r[k] == Text.IntToString(xs[k])
  {
    if xs == [] then [] else [Text.IntToString(xs[0])] + IntStrings(xs[1..])
  }

  /** The part of `CDP_Hbond.as_string(full=True)` after the label. */
  function PropertiesText(c: Constraint): string {
    var so3 := if c.so3class.Some? then ", SO3class in {" + Text.Join(c.so3class.value, ", ") + "}" else "";
    so3 + DistText(c)
  }

  /** The distance part of the properties: `dist = n` for one value, a set display otherwise. */
  function DistText(c: Constraint): string {
    if c.dist.None? then ""
    else if |c.dist.value| == 1 then ", dist = " + Text.IntToString(c.dist.value[0])
    else ", dist in {" + Text.Join(IntStrings(c.dist.value), ", ") + "}"
  }

  /**
   * `CDP_Hbond.as_string(full)`: `Hb(label)`, with the properties when
   * `full`. A True label prints as "True", and adding text to it is a
   * TypeError; a set label never gets this far.
   */
  function HbondString(lab: Label, c: Constraint, full: bool): Result<string> {
    var props := if full then PropertiesText(c) else "";
    match lab
    case Str(s) => Success("Hb(" + s + props + ")")
    case Flag => if props == "" then Success("Hb(True)") else Failure(BoolConcat)
    case Items(_) => Failure(Unhashable)
  }

  /** `CDP_Vertex.as_string`: the donor end of a bond carries its properties. */
  function VertexString(hbonds: map<Label, Constraint>, v: Vertex, pos: Pos): Result<string> {
    match v
    case Wildcard => Success("*")
    case Isolated => Success("i")
    case Chord(l) =>
      if l in hbonds then HbondString(l, hbonds[l], hbonds[l].donor == Some(pos))
      else Failure(KeyError)
    case _ => Success("???")
  }

  /** The printed vertices numbered `i` onwards of segment `k`. */
  function VertexStrings(hbonds: map<Label, Constraint>, vs: seq<Vertex>, k: nat, i: nat): (r: Result<seq<string>>)
    requires i <= |vs|
    ensures r.Success? <==> forall j :: i <= j < |vs| ==> VertexString(hbonds, vs[j], Pos(k, j)).Success?
    ensures r.Success? ==> |r.value| == |vs| - i
    ensures r.Success? ==>
      forall j :: i <= j < |vs| ==> VertexString(hbonds, vs[j], Pos(k, j)) == Success(r.value[j - i])
    decreases |vs| - i
  {
    if i == |vs| then Success([])
    else
      var h := VertexString(hbonds, vs[i], Pos(k, i));
      var t := VertexStrings(hbonds, vs, k, i + 1);
      if h.Failure? then Failure(h.error)
      else if t.Failure? then t
      else Success([h.value] + t.value)
  }

  /** `CDP_Segment.as_string`. */
  function SegmentString(hbonds: map<Label, Constraint>, seg: Segment, k: nat): Result<string> {
    var vs := VertexStrings(hbonds, seg.vertices, k, 0);
    if vs.Failure? then Failure(vs.error)
    else Success([LetterOfAtom(seg.first)] + ": " + Text.Join(vs.value, "; "))
  }

  /** The printed segments numbered `k` onwards. */
  function SegmentStrings(p: Pattern, k: nat): (r: Result<seq<string>>)
    requires k <= |p.segments|
    ensures r.Success? <==> forall j :: k <= j < |p.segments| ==> SegmentString(p.hbonds, p.segments[j], j).Success?
    ensures r.Success? ==> |r.value| == |p.segments| - k
    ensures r.Success? ==>
      forall j :: k <= j < |p.segments| ==> SegmentString(p.hbonds, p.segments[j], j) == Success(r.value[j - k])
    decreases |p.segments| - k
  {
    if k == |p.segments| then Success([])
    else
      var h := SegmentString(p.hbonds, p.segments[k], k);
      var t := SegmentStrings(p, k + 1);
      if h.Failure? then Failure(h.error)
      else if t.Failure? then t
      else Success([h.value] + t.value)
  }

  /** `CDP.as_string(oneline)`: segments on separate lines, or separated by `;; `. */
  function PatternString(p: Pattern, oneline: bool): Result<string> {
    var ss := SegmentStrings(p, 0);
    if ss.Failure? then Failure(ss.error)
    else Success(Text.Join(ss.value, if oneline then ";; " else "\n"))
  }
}

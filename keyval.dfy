/**
 * `parse_keyval` of cdp.py: the key/value language inside `Hb(...)`. A
 * comma-separated list of items, each one of
 *   `key in {a, b, ...}`   the set of the stripped pieces,
 *   `key = value`          the stripped text up to the next comma,
 *   `key`                  the first such key becomes the value of "label",
 *                          later ones map to True.
 * Python's `set` is listed here as the sequence of its distinct members in
 * order of first appearance.
 */
module KeyVal {
  import opened Wrappers
  import Text

  // The exception for a remainder that is no item, as the message Python gives.
  const Unparsable := "unable to make sense of '"
  const Quote := "'"

  /** A value of the parsed dictionary: a str, a set of str, or True. */
  datatype Value = Str(s: string) | Items(items: seq<string>) | Flag

  type Dict = map<string, Value>

  predicate IsSeparator(c: char) {
    Text.IsSpace(c) || c == ','
  }

  predicate NotBrace(c: char) {
    c != '{' && c != '}'
  }

  predicate NotComma(c: char) {
    c != ','
  }

  /** The length of the longest prefix of `s` whose characters satisfy `p`. */
  function Span(s: string, p: char -> bool): (n: nat)
    ensures n <= |s|
    ensures forall k :: 0 <= k < n ==> p(s[k])
    ensures n < |s| ==> !p(s[n])
  {
    if s != [] && p(s[0]) then 1 + Span(s[1..], p) else 0
  }

  /** The span of a run followed by a character outside the class is the run. */
  lemma {:induction false} SpanOf(run: string, rest: string, p: char -> bool)
    requires forall k :: 0 <= k < |run| ==> p(run[k])
    requires rest == [] || !p(rest[0])
    ensures Span(run + rest, p) == |run|
  {
    if run == [] {
      assert run + rest == rest;
    } else {
      assert (run + rest)[1..] == run[1..] + rest;
      SpanOf(run[1..], rest, p);
    }
  }

  /** The members of a set display, listed once each in order of first appearance. */
  function Distinct(ps: seq<string>): (r: seq<string>)
    ensures forall x :: x in r <==> x in ps
  {
    if ps == [] then []
    else
      var d := Distinct(ps[..|ps| - 1]);
      var last := ps[|ps| - 1];
      assert forall x :: x in ps <==> x in ps[..|ps| - 1] || x == last;
      if last in d then d else d + [last]
  }

  predicate NoRepeats(ps: seq<string>) {
    forall i, j :: 0 <= i < j < |ps| ==> ps[i] != ps[j]
  }

  lemma {:induction false} DistinctOfDistinct(ps: seq<string>)
    requires NoRepeats(ps)
    ensures Distinct(ps) == ps
  {
    if ps != [] {
      var init := ps[..|ps| - 1];
      DistinctOfDistinct(init);
      assert ps[|ps| - 1] !in init;
      assert init + [ps[|ps| - 1]] == ps;
    }
  }

  lemma {:induction false} DistinctNoRepeats(ps: seq<string>)
    ensures NoRepeats(Distinct(ps))
  {
    if ps != [] {
      DistinctNoRepeats(ps[..|ps| - 1]);
    }
  }

  /** `set([x.strip() for x in body.split(",")])`. */
  function ItemSet(body: string): seq<string> {
    Distinct(Text.StripAll(Text.Split(body, ',')))
  }

  /**
   * `re.match("([a-zA-Z0-9_]+)\s+in\s+\{([^{}]*)\}", s)`: the key, the set
   * and the text after the closing brace.
   */
  function MatchIn(s: string): (r: Option<(string, Value, string)>)
    ensures r.Some? ==> |r.value.2| < |s|
  {
    var w := Span(s, Text.IsWordChar);
    var t := s[w..];
    var a := Span(t, Text.IsSpace);
    var u := t[a..];
    if w == 0 || a == 0 || |u| < 2 || u[..2] != "in" then None
    else
      var v := u[2..];
      var b := Span(v, Text.IsSpace);
      var x := v[b..];
      if b == 0 || x == [] || x[0] != '{' then None
      else
        var y := x[1..];
        var c := Span(y, NotBrace);
        if c == |y| || y[c] != '}' then None
        else Some((s[..w], Items(ItemSet(y[..c])), y[c + 1..]))
  }

  /**
   * `re.match("([a-zA-Z0-9_]+)\s*=\s*([^,]*)", s)`: the key, the stripped
   * value and the text from the next comma on.
   */
  function MatchEq(s: string): (r: Option<(string, Value, string)>)
    ensures r.Some? ==> |r.value.2| < |s|
  {
    var w := Span(s, Text.IsWordChar);
    var t := s[w..];
    var a := Span(t, Text.IsSpace);
    var u := t[a..];
    if w == 0 || u == [] || u[0] != '=' then None
    else
      var v := u[1..];
      var c := Span(v, NotComma);
      Some((s[..w], Str(Text.Strip(v[..c])), v[c..]))
  }

  /** `re.match("([a-zA-Z0-9_]+)", s)`: the key and the text after it. */
  function MatchWord(s: string): (r: Option<(string, string)>)
    ensures r.Some? ==> |r.value.1| < |s|
  {
    var w := Span(s, Text.IsWordChar);
    if w == 0 then None else Some((s[..w], s[w..]))
  }

  /** A bare key: the value of "label" the first time, True afterwards. */
  function AddBare(d: Dict, k: string): (r: Dict)
    ensures "label" !in d ==> r == d["label" := Str(k)]
    ensures "label" in d ==> r == d[k := Flag]
  {
    if "label" in d then d[k := Flag] else d["label" := Str(k)]
  }

  /** `re.sub("^[\s,]+", "", s)`. */
  function DropSeparators(s: string): (r: string)
    ensures |r| <= |s|
  {
    s[Span(s, IsSeparator)..]
  }

  /**
   * The loop of `parse_keyval` from the remaining text `s` and the dictionary
   * `d` built so far; Failure is the "unable to make sense" exception.
   */
  function Parse(s: string, d: Dict): Result<Dict>
    decreases |s|
  {
    var t := DropSeparators(s);
    if t == [] then Success(d)
    else if MatchIn(t).Some? then Parse(MatchIn(t).value.2, d[MatchIn(t).value.0 := MatchIn(t).value.1])
    else if MatchEq(t).Some? then Parse(MatchEq(t).value.2, d[MatchEq(t).value.0 := MatchEq(t).value.1])
    else if MatchWord(t).Some? then Parse(MatchWord(t).value.1, AddBare(d, MatchWord(t).value.0))
    else Failure(Unparsable + t + Quote)
  }

  /** What `parse_keyval(spec)` returns. */
  function ParseSpec(spec: string): Result<Dict> {
    Parse(Text.Strip(spec), map[])
  }

  /** `parse_keyval(s)`. */
  method ParseKeyval(spec: string) returns (r: Result<Dict>)
    ensures r == ParseSpec(spec)
  {
    var s := Text.Strip(spec);
    var d: Dict := map[];
    while s != []
      invariant Parse(s, d) == Parse(Text.Strip(spec), map[])
      decreases |s|
    {
      s := DropSeparators(s);
      if s == [] {
        break;
      }
      var m := MatchIn(s);
      if m.Some? {
        d := d[m.value.0 := m.value.1];
        s := m.value.2;
        continue;
      }
      m := MatchEq(s);
      if m.Some? {
        d := d[m.value.0 := m.value.1];
        s := m.value.2;
        continue;
      }
      var w := MatchWord(s);
      if w.Some? {
        d := AddBare(d, w.value.0);
        s := w.value.1;
        continue;
      }
      return Failure(Unparsable + s + Quote);
    }
    return Success(d);
  }

  /** Whitespace and commas between items are skipped. */
  lemma SeparatorsSkipped(sep: string, s: string, d: Dict)
    requires forall k :: 0 <= k < |sep| ==> IsSeparator(sep[k])
    requires s == [] || !IsSeparator(s[0])
    ensures Parse(sep + s, d) == Parse(s, d)
  {
    SpanOf(sep, s, IsSeparator);
    assert (sep + s)[|sep|..] == s;
    assert Span(s, IsSeparator) == 0;
  }

  /** Text that, after the separators, starts with a non-key character is refused. */
  lemma UnparsableRefused(s: string, d: Dict)
    requires DropSeparators(s) != [] && !Text.IsWordChar(DropSeparators(s)[0])
    ensures Parse(s, d).Failure?
  {
  }

  /** Text starting with a key character has no separators to drop. */
  lemma NoSeparators(s: string)
    requires s != [] && Text.IsWordChar(s[0])
    ensures DropSeparators(s) == s
  {
    assert Span(s, IsSeparator) == 0;
  }

  lemma MatchInOf(k: string, ws1: string, ws2: string, body: string, rest: string)
    requires Text.IsWord(k)
    requires |ws1| > 0 && forall i :: 0 <= i < |ws1| ==> Text.IsSpace(ws1[i])
    requires |ws2| > 0 && forall i :: 0 <= i < |ws2| ==> Text.IsSpace(ws2[i])
    requires NotBraces(body)
    ensures MatchIn(k + (ws1 + ("in" + (ws2 + ("{" + (body + ("}" + rest)))))))
         == Some((k, Items(ItemSet(body)), rest))
  {
    var y := body + ("}" + rest);
    var x := "{" + y;
    var v := ws2 + x;
    var u := "in" + v;
    var tail := ws1 + u;
    var s := k + tail;
    SpanOf(k, tail, Text.IsWordChar);
    assert s[..|k|] == k && s[|k|..] == tail;
    SpanOf(ws1, u, Text.IsSpace);
    assert tail[|ws1|..] == u;
    assert u[..2] == "in" && u[2..] == v;
    SpanOf(ws2, x, Text.IsSpace);
    assert v[|ws2|..] == x;
    assert x[1..] == y;
    var z := "}" + rest;
    NotBracesChars(body);
    SpanOf(body, z, NotBrace);
    assert y[..|body|] == body;
    assert y[|body|..] == z;
    assert y[|body| + 1..] == z[1..] == rest;
  }

  /** `key in {body}` maps the key to the set of stripped pieces of the body. */
  lemma ParseInItem(k: string, ws1: string, ws2: string, body: string, rest: string, d: Dict)
    requires Text.IsWord(k)
    requires |ws1| > 0 && forall i :: 0 <= i < |ws1| ==> Text.IsSpace(ws1[i])
    requires |ws2| > 0 && forall i :: 0 <= i < |ws2| ==> Text.IsSpace(ws2[i])
    requires NotBraces(body)
    ensures Parse(k + (ws1 + ("in" + (ws2 + ("{" + (body + ("}" + rest)))))), d)
         == Parse(rest, d[k := Items(ItemSet(body))])
  {
    var s := k + (ws1 + ("in" + (ws2 + ("{" + (body + ("}" + rest))))));
    MatchInOf(k, ws1, ws2, body, rest);
    NoSeparators(s);
  }

  lemma MatchEqOf(k: string, ws: string, value: string, rest: string)
    requires Text.IsWord(k)
    requires forall i :: 0 <= i < |ws| ==> Text.IsSpace(ws[i])
    requires forall i :: 0 <= i < |value| ==> NotComma(value[i])
    requires rest == [] || rest[0] == ','
    ensures MatchIn(k + (ws + ("=" + (value + rest)))).None?
    ensures MatchEq(k + (ws + ("=" + (value + rest)))) == Some((k, Str(Text.Strip(value)), rest))
  {
    var v := value + rest;
    var u := "=" + v;
    var tail := ws + u;
    var s := k + tail;
    SpanOf(k, tail, Text.IsWordChar);
    assert s[..|k|] == k && s[|k|..] == tail;
    SpanOf(ws, u, Text.IsSpace);
    assert tail[|ws|..] == u;
    assert u[0] == '=';
    assert u[1..] == v;
    NotInItem(k, ws, '=', v);
    SpanOf(value, rest, NotComma);
    assert v[..|value|] == value && v[|value|..] == rest;
  }

  /** A key whose blanks are followed by anything other than `i` is not a set item. */
  lemma NotInItem(k: string, ws: string, c: char, rest: string)
    requires Text.IsWord(k)
    requires forall i :: 0 <= i < |ws| ==> Text.IsSpace(ws[i])
    requires !Text.IsWordChar(c) && !Text.IsSpace(c)
    ensures MatchIn(k + (ws + ([c] + rest))).None?
  {
    var u := [c] + rest;
    var tail := ws + u;
    var s := k + tail;
    SpanOf(k, tail, Text.IsWordChar);
    assert s[..|k|] == k && s[|k|..] == tail;
    SpanOf(ws, u, Text.IsSpace);
    assert tail[|ws|..] == u;
    if |u| >= 2 {
      assert u[..2][0] == c;
    }
  }

  /** `key = value` maps the key to the stripped value, up to the next comma. */
  lemma ParseEqItem(k: string, ws: string, value: string, rest: string, d: Dict)
    requires Text.IsWord(k)
    requires forall i :: 0 <= i < |ws| ==> Text.IsSpace(ws[i])
    requires forall i :: 0 <= i < |value| ==> NotComma(value[i])
    requires rest == [] || rest[0] == ','
    ensures Parse(k + (ws + ("=" + (value + rest))), d) == Parse(rest, d[k := Str(Text.Strip(value))])
  {
    MatchEqOf(k, ws, value, rest);
    NoSeparators(k + (ws + ("=" + (value + rest))));
  }

  lemma MatchBareOf(k: string, rest: string)
    requires Text.IsWord(k)
    requires rest == [] || rest[0] == ','
    ensures MatchIn(k + rest).None? && MatchEq(k + rest).None?
    ensures MatchWord(k + rest) == Some((k, rest))
  {
    var s := k + rest;
    SpanOf(k, rest, Text.IsWordChar);
    assert s[..|k|] == k && s[|k|..] == rest;
    assert Span(rest, Text.IsSpace) == 0;
  }

  /** A bare key followed by a comma (or nothing) is the label, or else a flag. */
  lemma ParseBareItem(k: string, rest: string, d: Dict)
    requires Text.IsWord(k)
    requires rest == [] || rest[0] == ','
    ensures Parse(k + rest, d) == Parse(rest, AddBare(d, k))
  {
    MatchBareOf(k, rest);
    NoSeparators(k + rest);
  }

  /** Nothing but separators parses to the dictionary built so far. */
  lemma ParseEnd(s: string, d: Dict)
    requires forall k :: 0 <= k < |s| ==> IsSeparator(s[k])
    ensures Parse(s, d) == Success(d)
  {
    SpanOf(s, [], IsSeparator);
    assert s + [] == s;
  }

  /** A string that can be a member of a parsed set: stripped, with no comma or brace. */
  predicate IsItem(x: string) {
    Text.IsStripped(x) && ',' !in x && NotBraces(x)
  }

  /** Printing a set as `", ".join(items)` and parsing it back gives the same set. */
  lemma {:induction false} ItemSetOfJoin(items: seq<string>)
    requires |items| >= 1 && NoRepeats(items)
    requires forall k :: 0 <= k < |items| ==> IsItem(items[k])
    ensures ItemSet(Text.Join(items, ", ")) == items
    ensures NotBraces(Text.Join(items, ", "))
  {
    Text.SplitJoinSpaced(items, ',');
    assert [',', ' '] == ", ";
    DistinctOfDistinct(items);
    JoinNoBrace(items, ", ");
  }

  predicate NotBraces(x: string) {
    '{' !in x && '}' !in x
  }

  lemma NotBracesChars(x: string)
    requires NotBraces(x)
    ensures forall i :: 0 <= i < |x| ==> NotBrace(x[i])
  {
    forall i | 0 <= i < |x| ensures NotBrace(x[i]) {
      assert x[i] in x;
    }
  }

  lemma {:induction false} JoinNoBrace(ps: seq<string>, sep: string)
    requires NotBraces(sep)
    requires forall k :: 0 <= k < |ps| ==> NotBraces(ps[k])
    ensures NotBraces(Text.Join(ps, sep))
  {
    if |ps| > 1 {
      JoinNoBrace(ps[1..], sep);
    }
  }
}

/**
 * Text helpers used by the pattern language, the encoder and the filters:
 * Python's whitespace set, `strip`, `split`, `join`, and the integer
 * conversions `str(n)`/`"%d" % n` and `int(s)`.
 */
module Text {
  import opened Wrappers

  /** The characters Python's `str.strip()` and the regex class `\s` treat as whitespace. */
  predicate IsSpace(c: char) {
    c == ' ' || c == '\t' || c == '\n' || c == '\r' || c == '\U{000B}' || c == '\U{000C}'
  }

  predicate IsDigit(c: char) {
    '0' <= c <= '9'
  }

  /** The regex class `[a-zA-Z0-9_]`. */
  predicate IsWordChar(c: char) {
    ('a' <= c <= 'z') || ('A' <= c <= 'Z') || IsDigit(c) || c == '_'
  }

  predicate AllDigits(s: string) {
    forall k :: 0 <= k < |s| ==> IsDigit(s[k])
  }

  predicate IsWord(s: string) {
    |s| > 0 && forall k :: 0 <= k < |s| ==> IsWordChar(s[k])
  }

  /** Removes leading whitespace (Python's `s.lstrip()`). */
  function StripLeft(s: string): string {
    if s != [] && IsSpace(s[0]) then StripLeft(s[1..]) else s
  }

  /** Removes trailing whitespace (Python's `s.rstrip()`). */
  function StripRight(s: string): string {
    if s != [] && IsSpace(s[|s| - 1]) then StripRight(s[..|s| - 1]) else s
  }

  /** Python's `s.strip()`. */
  function Strip(s: string): string {
    StripRight(StripLeft(s))
  }

  /** `lstrip()` removes exactly the leading run of whitespace. */
  lemma {:induction false} StripLeftSpec(s: string)
    ensures |StripLeft(s)| <= |s| && StripLeft(s) == s[|s| - |StripLeft(s)|..]
    ensures StripLeft(s) != [] ==> !IsSpace(StripLeft(s)[0])
    ensures forall k :: 0 <= k < |s| - |StripLeft(s)| ==> IsSpace(s[k])
  {
    if s != [] && IsSpace(s[0]) {
      var t := s[1..];
      StripLeftSpec(t);
      var r := StripLeft(t);
      assert StripLeft(s) == r;
      assert t[|t| - |r|..] == s[|s| - |r|..];
      forall k | 0 <= k < |s| - |r| ensures IsSpace(s[k]) {
        if k > 0 {
          assert s[k] == t[k - 1];
        }
      }
    }
  }

  /** `rstrip()` removes exactly the trailing run of whitespace. */
  lemma {:induction false} StripRightSpec(s: string)
    ensures |StripRight(s)| <= |s| && StripRight(s) == s[..|StripRight(s)|]
    ensures StripRight(s) != [] ==> !IsSpace(StripRight(s)[|StripRight(s)| - 1])
    ensures forall k :: |StripRight(s)| <= k < |s| ==> IsSpace(s[k])
  {
    if s != [] && IsSpace(s[|s| - 1]) {
      var t := s[..|s| - 1];
      StripRightSpec(t);
      var r := StripRight(t);
      assert StripRight(s) == r;
      assert t[..|r|] == s[..|r|];
      forall k | |r| <= k < |s| ensures IsSpace(s[k]) {
        if k < |s| - 1 {
          assert s[k] == t[k];
        }
      }
    }
  }

  /** `strip()` leaves a string that neither starts nor ends with whitespace. */
  lemma StripSpec(s: string)
    ensures |Strip(s)| <= |s| && IsStripped(Strip(s))
  {
    var l := StripLeft(s);
    StripLeftSpec(s);
    StripRightSpec(l);
    var r := StripRight(l);
    if r != [] {
      assert r[0] == l[0];
    }
  }

  /** A string that `strip()` leaves alone. */
  predicate IsStripped(s: string) {
    s == [] || (!IsSpace(s[0]) && !IsSpace(s[|s| - 1]))
  }

  lemma StripLeftId(s: string)
    requires s == [] || !IsSpace(s[0])
    ensures StripLeft(s) == s
  {
  }

  lemma StripRightId(s: string)
    requires s == [] || !IsSpace(s[|s| - 1])
    ensures StripRight(s) == s
  {
  }

  lemma StripId(s: string)
    requires IsStripped(s)
    ensures Strip(s) == s
  {
    StripLeftId(s);
    StripRightId(s);
  }

  /** Any amount of whitespace around a stripped string is removed by `strip()`. */
  lemma StripPadded(pre: string, s: string, post: string)
    requires forall k :: 0 <= k < |pre| ==> IsSpace(pre[k])
    requires forall k :: 0 <= k < |post| ==> IsSpace(post[k])
    requires IsStripped(s)
    ensures Strip(pre + s + post) == s
  {
    var t := s + post;
    assert pre + s + post == pre + t;
    StripLeftSpaces(pre, t);
    if s == [] {
      assert t == post;
      AllSpaceStrip(post);
    } else {
      StripLeftId(t);
      StripRightPadded(s, post);
    }
  }

  lemma {:induction false} AllSpaceStrip(s: string)
    requires forall k :: 0 <= k < |s| ==> IsSpace(s[k])
    ensures StripLeft(s) == []
  {
    if s != [] {
      AllSpaceStrip(s[1..]);
    }
  }

  /** Leading whitespace does not change what `lstrip()` leaves. */
  lemma {:induction false} StripLeftSpaces(pre: string, t: string)
    requires forall k :: 0 <= k < |pre| ==> IsSpace(pre[k])
    ensures StripLeft(pre + t) == StripLeft(t)
  {
    if pre == [] {
      assert pre + t == t;
    } else {
      assert (pre + t)[1..] == pre[1..] + t;
      StripLeftSpaces(pre[1..], t);
    }
  }

  lemma {:induction false} StripRightPadded(s: string, post: string)
    requires forall k :: 0 <= k < |post| ==> IsSpace(post[k])
    requires IsStripped(s)
    ensures StripRight(s + post) == s
  {
    if post == [] {
      assert s + post == s;
      StripRightId(s);
    } else {
      var last := |post| - 1;
      assert (s + post)[..|s + post| - 1] == s + post[..last];
      StripRightPadded(s, post[..last]);
    }
  }

  /** Python's `s.split(c)`: the pieces between occurrences of `c`; never empty. */
  function Split(s: string, c: char): (r: seq<string>)
    ensures |r| >= 1
  {
    if s == [] then [""]
    else
      var rest := Split(s[1..], c);
      if s[0] == c then [""] + rest
      else [[s[0]] + rest[0]] + rest[1..]
  }

  /** Python's `sep.join(ps)`. */
  function Join(ps: seq<string>, sep: string): (r: string)
  {
    if ps == [] then ""
    else if |ps| == 1 then ps[0]
    else ps[0] + sep + Join(ps[1..], sep)
  }

  /** Python's `"".join(ps)`. */
  function Concat(ps: seq<string>): (r: string)
    ensures |ps| > 0 ==> r == ps[0] + Concat(ps[1..])
  {
    if ps == [] then "" else ps[0] + Concat(ps[1..])
  }

  lemma {:induction false} SplitNoSep(s: string, c: char)
    requires c !in s
    ensures Split(s, c) == [s]
  {
    if s != [] {
      SplitNoSep(s[1..], c);
      assert [s[0]] + s[1..] == s;
    }
  }

  lemma {:induction false} SplitAfter(p: string, c: char, rest: string)
    requires c !in p
    ensures Split(p + [c] + rest, c) == [p] + Split(rest, c)
  {
    if p == [] {
      assert p + [c] + rest == [c] + rest;
      assert ([c] + rest)[1..] == rest;
    } else {
      assert (p + [c] + rest)[1..] == p[1..] + [c] + rest;
      SplitAfter(p[1..], c, rest);
      assert [p[0]] + p[1..] == p;
    }
  }

  /** The last piece of a split is what follows the last separator. */
  lemma {:induction false} SplitLast(p: string, c: char, q: string)
    requires c !in q
    ensures |Split(p + [c] + q, c)| >= 2
    ensures Split(p + [c] + q, c)[|Split(p + [c] + q, c)| - 1] == q
  {
    if p == [] {
      assert p + [c] + q == [c] + q;
      assert ([c] + q)[1..] == q;
      SplitNoSep(q, c);
    } else {
      assert (p + [c] + q)[1..] == p[1..] + [c] + q;
      SplitLast(p[1..], c, q);
    }
  }

  /** Splitting a join on a single separator character gives the pieces back. */
  lemma {:induction false} SplitJoin(ps: seq<string>, c: char)
    requires |ps| >= 1
    requires forall k :: 0 <= k < |ps| ==> c !in ps[k]
    ensures Split(Join(ps, [c]), c) == ps
  {
    if |ps| == 1 {
      SplitNoSep(ps[0], c);
    } else {
      SplitJoin(ps[1..], c);
      SplitAfter(ps[0], c, Join(ps[1..], [c]));
      assert ps[0] + [c] + Join(ps[1..], [c]) == Join(ps, [c]);
      assert [ps[0]] + ps[1..] == ps;
    }
  }

  /** Each piece stripped. */
  function StripAll(ps: seq<string>): (r: seq<string>)
    ensures |r| == |ps|
    ensures forall k :: 0 <= k < |ps| ==> r[k] == Strip(ps[k])
  {
    if ps == [] then [] else [Strip(ps[0])] + StripAll(ps[1..])
  }

  /** Each piece with one blank in front. */
  function Spaced(ps: seq<string>): (r: seq<string>)
    ensures |r| == |ps|
    ensures forall k :: 0 <= k < |ps| ==> r[k] == " " + ps[k]
  {
    if ps == [] then [] else [" " + ps[0]] + Spaced(ps[1..])
  }

  lemma {:induction false} JoinSpaced(ps: seq<string>, c: char)
    requires |ps| >= 1
    ensures Join(Spaced(ps), [c]) == " " + Join(ps, [c, ' '])
  {
    if |ps| > 1 {
      JoinSpaced(ps[1..], c);
      assert Spaced(ps)[1..] == Spaced(ps[1..]);
      assert (" " + ps[0]) + [c] + (" " + Join(ps[1..], [c, ' ']))
          == " " + (ps[0] + [c, ' '] + Join(ps[1..], [c, ' ']));
    }
  }

  /** Joining on `c` followed by a blank is joining on `c` the pieces after the first padded. */
  lemma {:induction false} JoinAsPieces(ps: seq<string>, c: char)
    requires |ps| >= 1
    ensures Join([ps[0]] + Spaced(ps[1..]), [c]) == Join(ps, [c, ' '])
  {
    var pieces := [ps[0]] + Spaced(ps[1..]);
    if |ps| > 1 {
      JoinSpaced(ps[1..], c);
      assert pieces[1..] == Spaced(ps[1..]);
      assert ps[0] + [c] + (" " + Join(ps[1..], [c, ' '])) == ps[0] + [c, ' '] + Join(ps[1..], [c, ' ']);
    }
  }

  lemma {:induction false} StripPieces(ps: seq<string>)
    requires |ps| >= 1
    requires forall k :: 0 <= k < |ps| ==> IsStripped(ps[k])
    ensures StripAll([ps[0]] + Spaced(ps[1..])) == ps
  {
    var pieces := [ps[0]] + Spaced(ps[1..]);
    forall k | 0 <= k < |pieces| ensures Strip(pieces[k]) == ps[k] {
      if k == 0 {
        StripId(ps[0]);
      } else {
        assert pieces[k] == " " + ps[k] + "";
        StripPadded(" ", ps[k], "");
      }
    }
  }

  lemma {:induction false} PiecesWithout(ps: seq<string>, c: char)
    requires |ps| >= 1
    requires forall k :: 0 <= k < |ps| ==> c !in ps[k] && c != ' '
    ensures forall k :: 0 <= k < |ps| ==> c !in ([ps[0]] + Spaced(ps[1..]))[k]
  {
    var pieces := [ps[0]] + Spaced(ps[1..]);
    forall k | 0 <= k < |pieces| ensures c !in pieces[k] {
      if k > 0 {
        assert pieces[k] == " " + ps[k];
      }
    }
  }

  /**
   * Joining stripped pieces on `c` and a blank, splitting on `c` and
   * stripping the pieces gives the pieces back.
   */
  lemma {:induction false} SplitJoinSpaced(ps: seq<string>, c: char)
    requires |ps| >= 1 && c != ' '
    requires forall k :: 0 <= k < |ps| ==> c !in ps[k] && IsStripped(ps[k])
    ensures StripAll(Split(Join(ps, [c, ' ']), c)) == ps
  {
    JoinAsPieces(ps, c);
    PiecesWithout(ps, c);
    SplitJoin([ps[0]] + Spaced(ps[1..]), c);
    StripPieces(ps);
  }

  /** Splitting on `c` a join on `c` and a blank gives the pieces, those after the first padded. */
  lemma {:induction false} SplitJoinPieces(ps: seq<string>, c: char)
    requires |ps| >= 1 && c != ' '
    requires forall k :: 0 <= k < |ps| ==> c !in ps[k]
    ensures Split(Join(ps, [c, ' ']), c) == [ps[0]] + Spaced(ps[1..])
  {
    JoinAsPieces(ps, c);
    PiecesWithout(ps, c);
    SplitJoin([ps[0]] + Spaced(ps[1..]), c);
  }

  /** A blank in front of each piece after the first does not change the stripped pieces. */
  lemma {:induction false} StripSpacedPieces(ps: seq<string>)
    requires |ps| >= 1
    ensures StripAll([ps[0]] + Spaced(ps[1..])) == StripAll(ps)
  {
    var pieces := [ps[0]] + Spaced(ps[1..]);
    var l := StripAll(pieces);
    var r := StripAll(ps);
    forall k | 0 <= k < |ps| ensures l[k] == r[k] {
      if k > 0 {
        assert pieces[k] == " " + ps[k];
        StripLeftSpaces(" ", ps[k]);
      }
    }
  }

  /** A character that is in no piece and not in the separator is not in the join. */
  lemma {:induction false} JoinWithout(ps: seq<string>, sep: string, c: char)
    requires c !in sep
    requires forall k :: 0 <= k < |ps| ==> c !in ps[k]
    ensures c !in Join(ps, sep)
  {
    if |ps| > 1 {
      JoinWithout(ps[1..], sep, c);
    }
  }

  /** `rstrip()` of a string whose tail holds a non-blank only touches that tail. */
  lemma {:induction false} StripRightAppend(a: string, b: string)
    requires StripRight(b) != []
    ensures StripRight(a + b) == a + StripRight(b)
  {
    if IsSpace(b[|b| - 1]) {
      var b' := b[..|b| - 1];
      assert (a + b)[..|a + b| - 1] == a + b';
      StripRightAppend(a, b');
    }
  }

  /** `rstrip()` keeps the first character when it is not a blank. */
  lemma {:induction false} StripRightKeepsFirst(b: string)
    requires b != [] && !IsSpace(b[0])
    ensures StripRight(b) != [] && StripRight(b)[0] == b[0]
  {
    StripRightSpec(b);
  }

  /**
   * `rstrip()` of a join whose pieces start with a non-blank strips only the
   * last piece.
   */
  lemma {:induction false} StripRightJoin(ps: seq<string>, sep: string)
    requires |ps| >= 1
    requires forall k :: 0 <= k < |ps| ==> ps[k] != [] && !IsSpace(ps[k][0])
    ensures StripRight(Join(ps, sep)) == Join(ps[..|ps| - 1] + [StripRight(ps[|ps| - 1])], sep)
  {
    var n := |ps|;
    var qs := ps[..n - 1] + [StripRight(ps[n - 1])];
    if n > 1 {
      var rest := Join(ps[1..], sep);
      StripRightJoin(ps[1..], sep);
      assert rest[0] == ps[1][0] by {
        JoinHead(ps[1..], sep);
      }
      StripRightKeepsFirst(rest);
      assert Join(ps, sep) == (ps[0] + sep) + rest;
      StripRightAppend(ps[0] + sep, rest);
      assert qs[1..] == ps[1..][..n - 2] + [StripRight(ps[1..][n - 2])];
      assert qs[0] == ps[0];
    }
  }

  /** A join starts where its first piece does. */
  lemma {:induction false} JoinHead(ps: seq<string>, sep: string)
    requires |ps| >= 1 && ps[0] != []
    ensures Join(ps, sep) != [] && Join(ps, sep)[0] == ps[0][0]
  {
  }

  /** A join ends where its last piece does. */
  lemma {:induction false} JoinLast(ps: seq<string>, sep: string)
    requires |ps| >= 1 && ps[|ps| - 1] != []
    ensures Join(ps, sep) != []
    ensures Join(ps, sep)[|Join(ps, sep)| - 1] == ps[|ps| - 1][|ps[|ps| - 1]| - 1]
  {
    if |ps| > 1 {
      JoinLast(ps[1..], sep);
    }
  }

  /** A string of digits holds no other character. */
  lemma DigitsAvoid(s: string, c: char)
    requires AllDigits(s) && !IsDigit(c)
    ensures c !in s
  {
    forall k | 0 <= k < |s| ensures s[k] != c {
    }
  }

  /** Stripping after an `rstrip()` is stripping. */
  lemma {:induction false} StripStripRight(x: string)
    requires x != [] && !IsSpace(x[0])
    ensures Strip(StripRight(x)) == Strip(x)
  {
    StripLeftId(x);
    StripRightKeepsFirst(x);
    StripLeftId(StripRight(x));
    StripRightSpec(x);
    StripRightId(StripRight(x));
  }

  /** `strip()` is idempotent. */
  lemma {:induction false} StripTwice(x: string)
    ensures Strip(Strip(x)) == Strip(x)
  {
    StripSpec(x);
    StripId(Strip(x));
  }

  function DigitChar(d: nat): char
    requires d < 10
  {
    ('0' as int + d) as char
  }

  /** The decimal digits of `n`, as Python's `str(n)` writes a non-negative int. */
  function NatToString(n: nat): (r: string)
    ensures |r| > 0 && AllDigits(r)
    ensures r[0] == '0' ==> n == 0
  {
    if n < 10 then [DigitChar(n)] else NatToString(n / 10) + [DigitChar(n % 10)]
  }

  /** Python's `str(n)` and `"%d" % n`. */
  function IntToString(n: int): (r: string)
    ensures |r| > 0
    ensures n >= 0 ==> r == NatToString(n)
    ensures n < 0 ==> r == "-" + NatToString(-n)
  {
    if n < 0 then "-" + NatToString(-n) else NatToString(n)
  }

  /** The value of a string of decimal digits. */
  function DigitsValue(s: string): nat
    requires AllDigits(s)
  {
    if s == [] then 0
    else DigitsValue(s[..|s| - 1]) * 10 + (s[|s| - 1] as int - '0' as int)
  }

  /** The regex `^-?[0-9]+$` and `int(s)` on a string it matches. */
  function ParseInt(s: string): (r: Option<int>)
  {
    if |s| > 0 && s[0] == '-' && |s| > 1 && AllDigits(s[1..]) then Some(-(DigitsValue(s[1..]) as int))
    else if |s| > 0 && AllDigits(s) then Some(DigitsValue(s))
    else None
  }

  lemma {:induction false} DigitsOfNat(n: nat)
    ensures DigitsValue(NatToString(n)) == n
  {
    if n >= 10 {
      DigitsOfNat(n / 10);
      var s := NatToString(n);
      assert s[..|s| - 1] == NatToString(n / 10);
    }
  }

  /** `int(str(n)) == n`: the integer printer and parser are inverse. */
  lemma ParseIntToString(n: int)
    ensures ParseInt(IntToString(n)) == Some(n)
  {
    if n < 0 {
      DigitsOfNat(-n);
      assert IntToString(n)[1..] == NatToString(-n);
    } else {
      DigitsOfNat(n);
    }
  }

  /**
   * Python's `int(s)` on a str: surrounding whitespace, an optional sign and
   * at least one decimal digit; anything else is a ValueError (None).
   */
  function PythonInt(s: string): (r: Option<int>)
    ensures r.Some? ==> Strip(s) != []
  {
    var t := Strip(s);
    if |t| > 1 && (t[0] == '-' || t[0] == '+') && AllDigits(t[1..]) then
      Some(if t[0] == '-' then -(DigitsValue(t[1..]) as int) else DigitsValue(t[1..]))
    else if |t| > 0 && AllDigits(t) then Some(DigitsValue(t))
    else None
  }

  lemma PythonIntOfNat(n: nat)
    ensures PythonInt(NatToString(n)) == Some(n)
  {
    var s := NatToString(n);
    assert IsStripped(s);
    StripId(s);
    DigitsOfNat(n);
  }
}

/**
 * The occurrence filter of filter_bonds.py: keep exactly the lines whose
 * bond key (the stripped bond-description and residue-description columns)
 * occurs at least `minimum` times in the whole input.
 *
 * The file is given as its sequence of lines; opening, reading and writing
 * files are not modelled.
 */
module FilterBonds {
  import opened Wrappers
  import Text

  /** 0-based position of the bond-description column. */
  const BondCol := 6
  /** 0-based position of the residue-description column. */
  const ResCol := 7

  /**
   * The key `"{b}_{r}"` of a line split on tabs; None when the line has too
   * few columns for `cols[res_col]` (the IndexError).
   */
  function BondKey(line: string): Option<string> {
    var cols := Text.Split(line, '\t');
    if |cols| <= ResCol then None
    else Some(Text.Strip(cols[BondCol]) + "_" + Text.Strip(cols[ResCol]))
  }

  /** Every line has a key. */
  predicate Keyed(lines: seq<string>) {
    lines == [] || (Keyed(lines[..|lines| - 1]) && BondKey(lines[|lines| - 1]).Some?)
  }

  lemma {:induction false} KeyedAt(lines: seq<string>, i: nat)
    requires Keyed(lines) && i < |lines|
    ensures BondKey(lines[i]).Some?
  {
    if i < |lines| - 1 {
      assert lines[..|lines| - 1][i] == lines[i];
      KeyedAt(lines[..|lines| - 1], i);
    }
  }

  /** The key of a line written as tab-separated columns; None below eight columns. */
  lemma BondKeyOfColumns(cols: seq<string>)
    requires |cols| >= 1
    requires forall k :: 0 <= k < |cols| ==> '\t' !in cols[k]
    ensures |cols| <= ResCol ==> BondKey(Text.Join(cols, "\t")).None?
    ensures |cols| > ResCol ==>
      BondKey(Text.Join(cols, "\t")) == Some(Text.Strip(cols[BondCol]) + "_" + Text.Strip(cols[ResCol]))
  {
    Text.SplitJoin(cols, '\t');
  }

  /** `collections.Counter` lookup: 0 for a key never counted. */
  function Lookup(counts: map<string, nat>, k: string): nat {
    if k in counts then counts[k] else 0
  }

  /** The number of lines whose key is `k`. */
  function Count(lines: seq<string>, k: Option<string>): (n: nat)
    ensures n <= |lines|
  {
    if lines == [] then 0
    else Count(lines[..|lines| - 1], k) + (if BondKey(lines[|lines| - 1]) == k then 1 else 0)
  }

  /** The lines of `s`, in order, whose key occurs at least `minimum` times in `all`. */
  function Selected(all: seq<string>, s: seq<string>, minimum: int): (r: seq<string>)
    ensures |r| <= |s|
  {
    if s == [] then []
    else
      var init := s[..|s| - 1];
      var last := s[|s| - 1];
      Selected(all, init, minimum) + (if Count(all, BondKey(last)) >= minimum then [last] else [])
  }

  /**
   * `filter(source, dest, minimum)`: a first pass counts the keys, failing
   * on a line with too few columns before anything is written; a second
   * pass keeps the lines whose key was counted at least `minimum` times.
   */
  method Filter(lines: seq<string>, minimum: int) returns (r: Result<seq<string>>)
    ensures r.Failure? <==> !Keyed(lines)
    ensures r.Success? ==> r.value == Selected(lines, lines, minimum)
  {
    var counts := CountKeys(lines);
    if counts.Failure? {
      return Failure(counts.error);
    }
    var kept := KeepFrequent(lines, counts.value, minimum);
    return Success(kept);
  }

  /** The first pass: the `Counter` of the keys of all lines. */
  method CountKeys(lines: seq<string>) returns (r: Result<map<string, nat>>)
    ensures r.Failure? <==> !Keyed(lines)
    ensures r.Success? ==> forall k :: Lookup(r.value, k) == Count(lines, Some(k))
  {
    var counts: map<string, nat> := map[];
    var n := 0;
    while n < |lines|
      invariant 0 <= n <= |lines|
      invariant Keyed(lines[..n])
      invariant forall k :: Lookup(counts, k) == Count(lines[..n], Some(k))
    {
      var key := BondKey(lines[n]);
      if key.None? {
        assert !Keyed(lines) by {
          if Keyed(lines) {
            KeyedAt(lines, n);
          }
        }
        return Failure("IndexError: list index out of range");
      }
      counts := counts[key.value := Lookup(counts, key.value) + 1];
      assert lines[..n + 1][..n] == lines[..n];
      n := n + 1;
    }
    assert lines[..n] == lines;
    return Success(counts);
  }

  /** The second pass: the lines whose key was counted at least `minimum` times. */
  method KeepFrequent(lines: seq<string>, counts: map<string, nat>, minimum: int) returns (kept: seq<string>)
    requires Keyed(lines)
    requires forall k :: Lookup(counts, k) == Count(lines, Some(k))
    ensures kept == Selected(lines, lines, minimum)
  {
    kept := [];
    var n := 0;
    while n < |lines|
      invariant 0 <= n <= |lines|
      invariant kept == Selected(lines, lines[..n], minimum)
    {
      var line := lines[n];
      KeyedAt(lines, n);
      var key := BondKey(line).value;
      assert lines[..n + 1][..n] == lines[..n];
      if Lookup(counts, key) >= minimum {
        kept := kept + [line];
      }
      n := n + 1;
    }
    assert lines[..n] == lines;
  }

  /** A line that is present counts towards its own key. */
  lemma {:induction false} CountPresent(s: seq<string>, i: nat)
    requires i < |s|
    ensures Count(s, BondKey(s[i])) >= 1
  {
    if i < |s| - 1 {
      assert s[..|s| - 1][i] == s[i];
      CountPresent(s[..|s| - 1], i);
    }
  }

  /** A line is selected exactly when it is present and its key is frequent enough. */
  lemma {:induction false} SelectedMembers(all: seq<string>, s: seq<string>, minimum: int, x: string)
    ensures x in Selected(all, s, minimum) <==> x in s && Count(all, BondKey(x)) >= minimum
  {
    if s != [] {
      var init := s[..|s| - 1];
      SelectedMembers(all, init, minimum, x);
      assert x in s <==> x in init || x == s[|s| - 1] by {
        if x in s {
          var i :| 0 <= i < |s| && s[i] == x;
          if i < |s| - 1 {
            assert init[i] == x;
          }
        }
      }
    }
  }

  /**
   * Lines sharing a key are kept or dropped together: counting is finished
   * before the first line is copied.
   */
  lemma KeptTogether(lines: seq<string>, minimum: int, x: string, y: string)
    requires x in lines && y in lines && BondKey(x) == BondKey(y)
    ensures x in Selected(lines, lines, minimum) <==> y in Selected(lines, lines, minimum)
  {
    SelectedMembers(lines, lines, minimum, x);
    SelectedMembers(lines, lines, minimum, y);
  }

  /** When every line of `s` passes, nothing is dropped. */
  lemma {:induction false} SelectedAll(all: seq<string>, s: seq<string>, minimum: int)
    requires forall i :: 0 <= i < |s| ==> Count(all, BondKey(s[i])) >= minimum
    ensures Selected(all, s, minimum) == s
  {
    if s != [] {
      var init := s[..|s| - 1];
      SelectedAll(all, init, minimum);
      assert init + [s[|s| - 1]] == s;
    }
  }

  /** With `minimum` at most 1 every line is kept. */
  lemma KeepAllBelowTwo(lines: seq<string>, minimum: int)
    requires minimum <= 1
    ensures Selected(lines, lines, minimum) == lines
  {
    forall i | 0 <= i < |lines| ensures Count(lines, BondKey(lines[i])) >= minimum {
      CountPresent(lines, i);
    }
    SelectedAll(lines, lines, minimum);
  }

  /** The selection keeps every line of a frequent key and none of a rare one. */
  lemma {:induction false} CountSelected(all: seq<string>, s: seq<string>, minimum: int, k: Option<string>)
    ensures Count(Selected(all, s, minimum), k) == if Count(all, k) >= minimum then Count(s, k) else 0
  {
    if s != [] {
      var init := s[..|s| - 1];
      CountSelected(all, init, minimum, k);
      var last := s[|s| - 1];
      var ri := Selected(all, init, minimum);
      if Count(all, BondKey(last)) >= minimum {
        assert Selected(all, s, minimum) == ri + [last];
        CountSnoc(ri, last, k);
      } else {
        assert Selected(all, s, minimum) == ri;
      }
    }
  }

  /** Appending a line adds one to the count of its own key only. */
  lemma CountSnoc(lines: seq<string>, x: string, k: Option<string>)
    ensures Count(lines + [x], k) == Count(lines, k) + if BondKey(x) == k then 1 else 0
  {
    assert (lines + [x])[..|lines|] == lines;
  }

  /** Selecting from keyed lines gives keyed lines. */
  lemma {:induction false} SelectedKeyed(all: seq<string>, s: seq<string>, minimum: int)
    requires Keyed(s)
    ensures Keyed(Selected(all, s, minimum))
  {
    if s != [] {
      var init := s[..|s| - 1];
      SelectedKeyed(all, init, minimum);
      var r := Selected(all, s, minimum);
      var ri := Selected(all, init, minimum);
      if Count(all, BondKey(s[|s| - 1])) >= minimum {
        assert r[..|r| - 1] == ri && r[|r| - 1] == s[|s| - 1];
      } else {
        assert r == ri;
      }
    }
  }

  /**
   * Filtering the output again with the same minimum succeeds and changes
   * nothing.
   */
  lemma FilterIdempotent(lines: seq<string>, minimum: int)
    requires Keyed(lines)
    ensures Keyed(Selected(lines, lines, minimum))
    ensures Selected(Selected(lines, lines, minimum), Selected(lines, lines, minimum), minimum)
            == Selected(lines, lines, minimum)
  {
    var out := Selected(lines, lines, minimum);
    SelectedKeyed(lines, lines, minimum);
    forall i | 0 <= i < |out| ensures Count(out, BondKey(out[i])) >= minimum {
      assert out[i] in out;
      SelectedMembers(lines, lines, minimum, out[i]);
      CountSelected(lines, lines, minimum, BondKey(out[i]));
    }
    SelectedAll(out, out, minimum);
  }
}

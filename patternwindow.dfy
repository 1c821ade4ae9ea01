/**
 * `describe_pattern_window` and `cleanup_window_pattern`
 * (find_local_patterns.py): the slots of the `length` residues starting at
 * residue `start`, joined and cleaned up. The slot loop is proved against
 * `WinScan` (module WindowSlots); what its slots hold is `WindowLabelled`.
 */
module PatternWindow {
  import opened Wrappers
  import opened Bonds
  import opened Proteins
  import opened LocalConfig
  import opened WindowSlots
  import Normalize
  import Text
  import WindowProofs

  // ----- cleanup_window_pattern -----

  /** `re.sub("r[-+]?", "i", t)`: each lower-case r, with the sign right after it if any, becomes i. */
  function SubLowerR(t: string): (r: string)
    decreases |t|
  {
    if t == [] then []
    else if t[0] == 'r' then
      ['i'] + SubLowerR(if |t| > 1 && (t[1] == '+' || t[1] == '-') then t[2..] else t[1..])
    else [t[0]] + SubLowerR(t[1..])
  }

  /** `cleanup_window_pattern(s)` as the source writes it. */
  function CleanupAsWritten(cfg: Config, t: string): string {
    var u := if cfg.remoteSign then t else Normalize.StripSigns(t);
    if cfg.alwaysIncludeRemotes then u else SubLowerR(u)
  }

  /**
   * `cleanup_window_pattern(s)` as intended: unless remotes are always
   * kept, each remote slot `R`, with its sign, becomes the isolated letter,
   * as `normalized_toptype` does it.
   */
  function Cleanup(cfg: Config, t: string): string {
    var u := if cfg.remoteSign then t else Normalize.StripSigns(t);
    if cfg.alwaysIncludeRemotes then u else Normalize.SubRemote(u, IsolatedN)
  }

  /** As written, a remote slot survives the clean-up: one residue whose N bonds far outside the window. */
  lemma CleanupAsWrittenKeepsRemote()
    ensures CleanupAsWritten(Defaults, "R+XI") == "RXI"
  {
    assert Normalize.StripSigns("R+XI") == "RXI" by {
      assert Normalize.StripSigns("I") == "I";
      assert Normalize.StripSigns("XI") == "XI";
      assert Normalize.StripSigns("+XI") == "XI";
    }
    assert SubLowerR("RXI") == "RXI" by {
      assert SubLowerR("I") == "I";
      assert SubLowerR("XI") == "XI";
    }
  }

  /** As written, the eighteenth bond letter, r, is turned into the ninth, i. */
  lemma CleanupAsWrittenRenamesLetter()
    ensures CleanupAsWritten(Defaults, "rXr") == "iXi"
  {
    assert Normalize.StripSigns("rXr") == "rXr" by {
      assert Normalize.StripSigns("r") == "r";
      assert Normalize.StripSigns("Xr") == "Xr";
    }
    assert SubLowerR("rXr") == "iXi" by {
      assert SubLowerR("r") == "i";
      assert SubLowerR("Xr") == "Xi";
    }
  }

  /** A substitution of R keeps every lower-case letter, and adds none. */
  lemma {:induction false} SubRemoteKeepsLower(t: string, c: char)
    requires IsLower(c)
    ensures c in Normalize.SubRemote(t, IsolatedN) <==> c in t
    decreases |t|
  {
    if t != [] {
      var rest := if t[0] == Remote && |t| > 1 && (t[1] == '+' || t[1] == '-') then t[2..] else t[1..];
      SubRemoteKeepsLower(rest, c);
      if t[0] == Remote {
        assert Normalize.SubRemote(t, IsolatedN) == [IsolatedN] + Normalize.SubRemote(rest, IsolatedN);
        assert c in t <==> c in rest by {
          if |t| > 1 && (t[1] == '+' || t[1] == '-') {
            assert t == [t[0], t[1]] + rest;
          } else {
            assert t == [t[0]] + rest;
          }
        }
      } else {
        assert Normalize.SubRemote(t, IsolatedN) == [t[0]] + Normalize.SubRemote(rest, IsolatedN);
        assert t == [t[0]] + rest;
      }
    }
  }

  /**
   * The clean-up as intended: with `remote_sign` off no sign is left;
   * unless remotes are always kept no remote slot is left; and the bond
   * letters are exactly those of the text.
   */
  lemma CleanupFacts(cfg: Config, t: string)
    ensures !cfg.remoteSign ==> '+' !in Cleanup(cfg, t) && '-' !in Cleanup(cfg, t)
    ensures !cfg.alwaysIncludeRemotes ==> Remote !in Cleanup(cfg, t)
    ensures forall c :: IsLower(c) ==> (c in Cleanup(cfg, t) <==> c in t)
    ensures cfg.remoteSign && cfg.alwaysIncludeRemotes ==> Cleanup(cfg, t) == t
  {
    var u := if cfg.remoteSign then t else Normalize.StripSigns(t);
    if !cfg.alwaysIncludeRemotes {
      Normalize.SubRemoteRemoves(u, IsolatedN);
      forall c | IsLower(c) ensures c in Cleanup(cfg, t) <==> c in u {
        SubRemoteKeepsLower(u, c);
      }
      if !cfg.remoteSign {
        Normalize.SubRemoteKeepsSignless(u, IsolatedN);
      }
    }
  }

  /** Apart from r, i and the signs, the substitution of r keeps every character. */
  lemma {:induction false} SubLowerRKeeps(t: string, c: char)
    requires c != 'r' && c != 'i' && c != '+' && c != '-'
    ensures c in SubLowerR(t) <==> c in t
    decreases |t|
  {
    if t != [] {
      var rest := if t[0] == 'r' && |t| > 1 && (t[1] == '+' || t[1] == '-') then t[2..] else t[1..];
      SubLowerRKeeps(rest, c);
      if t[0] == 'r' {
        assert SubLowerR(t) == ['i'] + SubLowerR(rest);
        assert c in t <==> c in rest by {
          if |t| > 1 && (t[1] == '+' || t[1] == '-') {
            assert t == [t[0], t[1]] + rest;
          } else {
            assert t == [t[0]] + rest;
          }
        }
      } else {
        assert SubLowerR(t) == [t[0]] + SubLowerR(rest);
        assert t == [t[0]] + rest;
      }
    }
  }

  /** As written, the clean-up never removes a remote slot: every R of the text survives. */
  lemma CleanupAsWrittenKeepsR(cfg: Config, t: string)
    ensures Remote in t ==> Remote in CleanupAsWritten(cfg, t)
  {
    var u := if cfg.remoteSign then t else Normalize.StripSigns(t);
    SubLowerRKeeps(u, Remote);
  }

  // ----- describe_pattern_window -----

  /** The slot loop over `[None] * (3*length)` (empty for a negative length), joined. */
  function WindowJoined(vs: map<int, BondRef>, start: int, length: int): Result<string> {
    var r := WinScan(vs, 3 * start, Blank(if length > 0 then 3 * length else 0), 0);
    if r.Failure? then Failure(r.error) else Success(Text.Concat(r.value.s))
  }

  /**
   * What `describe_pattern_window(prot, start, length, trim)` returns as
   * written: the assertion `length > 2*trim`, the joined slots, then
   * `cleanup_window_pattern` as the source has it.
   */
  function PatternWindowText(cfg: Config, vs: map<int, BondRef>, start: int, length: int, trim: int): Result<string> {
    if length <= 2 * trim then Failure(AssertionError)
    else
      var r := WindowJoined(vs, start, length);
      if r.Failure? then r else Success(CleanupAsWritten(cfg, r.value))
  }

  /** The same with the clean-up as intended. */
  function IntendedWindowText(cfg: Config, vs: map<int, BondRef>, start: int, length: int, trim: int): Result<string> {
    if length <= 2 * trim then Failure(AssertionError)
    else
      var r := WindowJoined(vs, start, length);
      if r.Failure? then r else Success(Cleanup(cfg, r.value))
  }

  /**
   * The body of the slot loop at slot `i` of a window of atoms `base` up to
   * `end` (exclusive), with `drawn` letters handed out: what `WinStep` describes.
   */
  method FillSlot(prot: Protein, base: int, end: int, spec: array<string>, i: nat, drawn: nat) returns (r: Result<nat>)
    requires i < spec.Length && end == base + spec.Length
    modifies spec
    ensures var s := WinStep(prot.vertices, base, WinState(old(spec[..]), drawn), i);
      && (r.Failure? <==> s.Failure?)
      && (r.Failure? ==> r.error == s.error)
      && (r.Success? ==> s.value == WinState(spec[..], r.value))
  {
    if spec[i] != "" {
      return Success(drawn);
    }
    if i % 3 == 1 {
      spec[i] := [IsolatedC];
      return Success(drawn);
    }
    var bond := prot.GetBond(base + i);
    if bond.None? {
      spec[i] := IsolatedSlot(i);
      return Success(drawn);
    }
    var j := bond.value.Other(base + i);
    if base <= j && j < end {
      // A local bond: the next letter at both ends.
      var c := Draw(false, drawn);
      if c.Failure? {
        return Failure(c.error);
      }
      spec[i] := [c.value];
      spec[j - base] := [c.value];
      return Success(drawn + 1);
    }
    spec[i] := RemoteSlot(base + i, j);
    return Success(drawn);
  }

  /** The slot loop of `describe_pattern_window` on a fresh array, as the source has its list, and the join. */
  method JoinWindow(prot: Protein, start: int, length: int) returns (r: Result<string>)
    requires prot.Valid()
    ensures r == WindowJoined(prot.vertices, start, length)
  {
    ghost var vs := prot.vertices;
    var n := if length > 0 then 3 * length else 0;
    var base := 3 * start;
    var spec := new string[n](_ => "");
    var drawn: nat := 0;
    assert spec[..] == Blank(n).s;
    ghost var whole := WinScan(vs, base, Blank(n), 0);
    var i := 0;
    while i < n
      invariant 0 <= i <= n && spec.Length == n
      invariant WinScan(vs, base, WinState(spec[..], drawn), i) == whole
    {
      var step := FillSlot(prot, base, 3 * (start + length), spec, i, drawn);
      if step.Failure? {
        return Failure(step.error);
      }
      drawn := step.value;
      i := i + 1;
    }
    r := Success(Text.Concat(spec[..]));
  }

  /** `describe_pattern_window(prot, start, length, trim)` as written. */
  method DescribePatternWindow(cfg: Config, prot: Protein, start: int, length: int, trim: int) returns (r: Result<string>)
    requires prot.Valid()
    ensures r == PatternWindowText(cfg, prot.vertices, start, length, trim)
  {
    if !(length > 2 * trim) {
      return Failure(AssertionError);
    }
    r := JoinWindow(prot, start, length);
    if r.Success? {
      r := Success(CleanupAsWritten(cfg, r.value));
    }
  }

  /** `describe_pattern_window` with the clean-up as intended. */
  method DescribeIntendedWindow(cfg: Config, prot: Protein, start: int, length: int, trim: int) returns (r: Result<string>)
    requires prot.Valid()
    ensures r == IntendedWindowText(cfg, prot.vertices, start, length, trim)
  {
    if !(length > 2 * trim) {
      return Failure(AssertionError);
    }
    r := JoinWindow(prot, start, length);
    if r.Success? {
      r := Success(Cleanup(cfg, r.value));
    }
  }

  /** A character of one of the pieces is a character of their join. */
  lemma {:induction false} InConcat(ps: seq<string>, k: nat, c: char)
    requires k < |ps| && c in ps[k]
    ensures c in Text.Concat(ps)
  {
    if k > 0 {
      InConcat(ps[1..], k - 1, c);
    }
  }

  /** A non-C-alpha atom of the window whose bond leaves the window. */
  predicate RemoteInWindow(vs: map<int, BondRef>, start: int, length: int) {
    exists k :: 0 <= k < 3 * length && !CAlpha(k) && 3 * start + k in vs && !LocalAt(vs, 3 * start, 3 * length, k)
  }

  /** The joined slots fail only with StopIteration, and hold an R for each bond leaving the window. */
  lemma JoinedFacts(vs: map<int, BondRef>, start: int, length: int)
    requires OneBondPerIndex(vs)
    ensures var r := WindowJoined(vs, start, length);
      && (r.Failure? ==> r.error == StopIteration)
      && (r.Success? && RemoteInWindow(vs, start, length) ==> Remote in r.value)
  {
    var n := if length > 0 then 3 * length else 0;
    WindowProofs.WindowLabelled(vs, 3 * start, n);
    var s := WinScan(vs, 3 * start, Blank(n), 0);
    if s.Success? && RemoteInWindow(vs, start, length) {
      var k :| 0 <= k < 3 * length && !CAlpha(k) && 3 * start + k in vs && !LocalAt(vs, 3 * start, 3 * length, k);
      assert s.value.s[k] == FarSlot(vs, 3 * start, k);
      assert Remote in s.value.s[k];
      InConcat(s.value.s, k, Remote);
    }
  }

  /**
   * The outcomes of `describe_pattern_window` as written: AssertionError
   * exactly when `length <= 2*trim`, otherwise only StopIteration (more than
   * 26 bonds inside the window); no sign with `remote_sign` off; and an R
   * for any bond leaving the window, whatever the settings.
   */
  lemma PatternWindowOutcomes(cfg: Config, vs: map<int, BondRef>, start: int, length: int, trim: int)
    requires OneBondPerIndex(vs)
    ensures var r := PatternWindowText(cfg, vs, start, length, trim);
      && (r == Failure(AssertionError) <==> length <= 2 * trim)
      && (r.Failure? && length > 2 * trim ==> r.error == StopIteration)
      && (r.Success? && !cfg.remoteSign ==> '+' !in r.value && '-' !in r.value)
      && (r.Success? && RemoteInWindow(vs, start, length) ==> Remote in r.value)
  {
    if length > 2 * trim {
      JoinedFacts(vs, start, length);
      var j := WindowJoined(vs, start, length);
      if j.Success? {
        CleanupAsWrittenKeepsR(cfg, j.value);
        if !cfg.remoteSign && !cfg.alwaysIncludeRemotes {
          SubLowerRSignless(Normalize.StripSigns(j.value));
        }
      }
    }
  }

  /**
   * The outcomes with the clean-up as intended: the same failures; a text
   * has no R unless remotes are always kept, and no sign with `remote_sign`
   * off.
   */
  lemma IntendedWindowOutcomes(cfg: Config, vs: map<int, BondRef>, start: int, length: int, trim: int)
    requires OneBondPerIndex(vs)
    ensures var r := IntendedWindowText(cfg, vs, start, length, trim);
      && (r == Failure(AssertionError) <==> length <= 2 * trim)
      && (r.Failure? && length > 2 * trim ==> r.error == StopIteration)
      && (r.Success? && !cfg.alwaysIncludeRemotes ==> Remote !in r.value)
      && (r.Success? && !cfg.remoteSign ==> '+' !in r.value && '-' !in r.value)
  {
    if length > 2 * trim {
      JoinedFacts(vs, start, length);
      var j := WindowJoined(vs, start, length);
      if j.Success? {
        CleanupFacts(cfg, j.value);
      }
    }
  }

  // ----- the length of the window text -----

  predicate IsSign(c: char) {
    c == '+' || c == '-'
  }

  /** A slot of one character, with a sign after it if it is a remote slot. */
  predicate SignedSlot(x: string) {
    (|x| == 1 && !IsSign(x[0])) || (|x| == 2 && !IsSign(x[0]) && IsSign(x[1]))
  }

  /** Every final slot of the window loop is such a slot. */
  lemma SettledSigned(vs: map<int, BondRef>, base: int, s: seq<string>, k: int)
    requires 0 <= k < |s| && Settled(vs, base, s, k)
    ensures SignedSlot(s[k])
  {
  }

  lemma {:induction false} StripSignsAppend(a: string, b: string)
    ensures Normalize.StripSigns(a + b) == Normalize.StripSigns(a) + Normalize.StripSigns(b)
    decreases |a|
  {
    if a != [] {
      assert (a + b)[0] == a[0] && (a + b)[1..] == a[1..] + b;
      StripSignsAppend(a[1..], b);
    } else {
      assert a + b == b;
    }
  }

  /** Without signs, each slot stands for one character. */
  lemma {:induction false} StripSignedSlots(ps: seq<string>)
    requires forall k :: 0 <= k < |ps| ==> SignedSlot(ps[k])
    ensures |Normalize.StripSigns(Text.Concat(ps))| == |ps|
    decreases |ps|
  {
    if ps != [] {
      StripSignsAppend(ps[0], Text.Concat(ps[1..]));
      StripSignedSlots(ps[1..]);
      var x := ps[0];
      if |x| == 1 {
        assert Normalize.StripSigns(x[1..]) == [];
      } else {
        assert x[1..][1..] == [];
        assert Normalize.StripSigns(x[1..]) == [];
      }
    }
  }

  /** On a text without signs, the substitution of R keeps the length. */
  lemma {:induction false} SubRemoteSignlessLength(t: string, c: char)
    requires '+' !in t && '-' !in t
    ensures |Normalize.SubRemote(t, c)| == |t|
    decreases |t|
  {
    if t != [] {
      assert |t| > 1 ==> t[1] in t;
      assert forall d :: d in t[1..] ==> d in t;
      SubRemoteSignlessLength(t[1..], c);
    }
  }

  /** On a text without signs, the substitution of r keeps the length and adds no sign. */
  lemma {:induction false} SubLowerRSignless(t: string)
    requires '+' !in t && '-' !in t
    ensures |SubLowerR(t)| == |t|
    ensures '+' !in SubLowerR(t) && '-' !in SubLowerR(t)
    decreases |t|
  {
    if t != [] {
      assert |t| > 1 ==> t[1] in t;
      assert forall d :: d in t[1..] ==> d in t;
      SubLowerRSignless(t[1..]);
    }
  }

  /**
   * With `remote_sign` off, the text of a window of `length` residues has
   * exactly `3*length` characters, one per atom, both as written and as
   * intended.
   */
  lemma PatternWindowLength(cfg: Config, vs: map<int, BondRef>, start: int, length: int, trim: int)
    requires OneBondPerIndex(vs) && !cfg.remoteSign
    ensures var r := PatternWindowText(cfg, vs, start, length, trim);
      r.Success? ==> |r.value| == if length > 0 then 3 * length else 0
    ensures var r := IntendedWindowText(cfg, vs, start, length, trim);
      r.Success? ==> |r.value| == if length > 0 then 3 * length else 0
  {
    if length > 2 * trim {
      var n := if length > 0 then 3 * length else 0;
      WindowProofs.WindowLabelled(vs, 3 * start, n);
      var s := WinScan(vs, 3 * start, Blank(n), 0);
      if s.Success? {
        forall k | 0 <= k < n ensures SignedSlot(s.value.s[k]) {
          SettledSigned(vs, 3 * start, s.value.s, k);
        }
        var u := Normalize.StripSigns(Text.Concat(s.value.s));
        StripSignedSlots(s.value.s);
        if !cfg.alwaysIncludeRemotes {
          SubRemoteSignlessLength(u, IsolatedN);
          SubLowerRSignless(u);
        }
      }
    }
  }
}

/**
 * The normalisation passes find_local_patterns.py applies to the slot lists
 * of a local pattern: `handle_nearby_remotes`, `handle_nearby_twists` and
 * `normalized_toptype`. A slot list holds one string per backbone atom: a
 * letter followed by zero or more marks (`~` for a twist, `+`/`-` for the
 * direction of a remote bond). The regular expressions of the source are
 * written out as string functions.
 */
module Normalize {
  import opened Wrappers
  import opened LocalConfig
  import Text

  /** Every slot has a first character, so `s[i][0]` does not raise. */
  predicate Slotted(s: seq<string>) {
    forall i :: 0 <= i < |s| ==> s[i] != []
  }

  /** `apos`, from position `k` on: the positions of the slots that start with the central letter. */
  function FocalFrom(s: seq<string>, central: char, k: nat): (r: seq<int>)
    requires Slotted(s) && k <= |s|
    decreases |s| - k
    ensures forall a :: a in r <==> k <= a < |s| && s[a][0] == central
    ensures forall x, y :: 0 <= x < y < |r| ==> r[x] < r[y]
  {
    if k == |s| then []
    else
      var rest := FocalFrom(s, central, k + 1);
      if s[k][0] == central then
        assert forall y :: 0 <= y < |rest| ==> rest[y] in rest;
        [k] + rest
      else rest
  }

  /**
   * The list comprehension for `apos` and the assertion after it: it holds
   * one or two positions. A slot without a first character raises first.
   */
  function FocalCheck(s: seq<string>, central: char): (r: Result<seq<int>>)
    ensures r.Success? ==> Slotted(s) && r.value == FocalFrom(s, central, 0)
  {
    if !Slotted(s) then Failure(StringIndexError)
    else
      var apos := FocalFrom(s, central, 0);
      if |apos| == 1 || |apos| == 2 then Success(apos) else Failure(AssertionError)
  }

  /**
   * Slot `i` is within `d` atoms of focal slot `a`. The remote pass excludes
   * the focal slot itself; the twist pass includes it.
   */
  predicate Close(i: int, a: int, d: int, inclusive: bool) {
    if inclusive then (i <= a && a - i <= d) || (i >= a && i - a <= d)
    else (i < a && a - i <= d) || (i > a && i - a <= d)
  }

  predicate Nearby(i: int, apos: seq<int>, d: int, inclusive: bool) {
    exists a :: a in apos && Close(i, a, d, inclusive)
  }

  /** Both passes' inner `for a in apos` loop that sets `nearby`. */
  method NearFocal(i: int, apos: seq<int>, d: int, inclusive: bool) returns (nearby: bool)
    ensures nearby <==> Nearby(i, apos, d, inclusive)
  {
    nearby := false;
    var k := 0;
    while k < |apos|
      invariant 0 <= k <= |apos|
      invariant nearby <==> exists a :: a in apos[..k] && Close(i, a, d, inclusive)
    {
      var a := apos[k];
      if inclusive {
        if i <= a && a - i <= d {
          nearby := true;
        } else if i >= a && i - a <= d {
          nearby := true;
        }
      } else {
        if i < a && a - i <= d {
          nearby := true;
        } else if i > a && i - a <= d {
          nearby := true;
        }
      }
      assert apos[..k + 1] == apos[..k] + [a];
      assert nearby <==> (exists a' :: a' in apos[..k] && Close(i, a', d, inclusive)) || Close(i, a, d, inclusive);
      k := k + 1;
    }
    assert apos[..k] == apos;
  }

  // ----- handle_nearby_remotes -----

  /** Slot `i` is a remote bond too far from every focal slot to be kept. */
  predicate DropsRemote(cfg: Config, s: seq<string>, apos: seq<int>, i: int)
    requires Slotted(s) && 0 <= i < |s|
  {
    s[i][0] == Remote && !Nearby(i, apos, cfg.nearbyRemotes, false)
  }

  /** The slot list the remote pass leaves: a dropped remote becomes its atom's isolated letter. */
  function RemotesDone(cfg: Config, s: seq<string>, apos: seq<int>, leftmost: int): (r: seq<string>)
    requires Slotted(s)
  {
    seq(|s|, i requires 0 <= i < |s| => if DropsRemote(cfg, s, apos, i) then IsolatedSlot(leftmost + i) else s[i])
  }

  /** `handle_nearby_remotes` on a list that is present. */
  function Remotes(cfg: Config, central: char, s: seq<string>, leftmost: int): Result<seq<string>> {
    var apos := FocalCheck(s, central);
    if apos.Failure? then Failure(apos.error) else Success(RemotesDone(cfg, s, apos.value, leftmost))
  }

  /**
   * `handle_nearby_remotes(central_char, s, leftmost)`: nothing for a
   * missing list; otherwise the checks on `apos`, then every remote slot
   * farther than `nearby_remotes` from all focal slots is replaced in place.
   */
  method HandleNearbyRemotes(cfg: Config, central: char, s: array?<string>, leftmost: int) returns (r: Result<()>)
    modifies s
    ensures s == null ==> r.Success?
    ensures s != null ==> r.Success? == Remotes(cfg, central, old(s[..]), leftmost).Success?
    ensures s != null && r.Success? ==> s[..] == Remotes(cfg, central, old(s[..]), leftmost).value
    ensures s != null && r.Failure? ==> r.error == Remotes(cfg, central, old(s[..]), leftmost).error && s[..] == old(s[..])
  {
    if s == null {
      return Success(());
    }
    var check := FocalCheck(s[..], central);
    if check.Failure? {
      return Failure(check.error);
    }
    var apos := check.value;
    ghost var s0 := s[..];
    var i := 0;
    while i < s.Length
      invariant 0 <= i <= s.Length && |s0| == s.Length
      invariant forall k :: 0 <= k < i ==> s[k] == RemotesDone(cfg, s0, apos, leftmost)[k]
      invariant forall k :: i <= k < s.Length ==> s[k] == s0[k]
    {
      if s[i][0] == Remote {
        var nearby := NearFocal(i, apos, cfg.nearbyRemotes, false);
        if !nearby {
          s[i] := IsolatedSlot(leftmost + i);
        }
      }
      i := i + 1;
    }
    assert s[..] == RemotesDone(cfg, s0, apos, leftmost);
    r := Success(());
  }

  /**
   * The remote pass replaces exactly the remote slots farther than
   * `nearby_remotes` from every focal slot, by the isolated letter of their
   * atom, and leaves every other slot as it was.
   */
  lemma RemotesExact(cfg: Config, s: seq<string>, apos: seq<int>, leftmost: int, i: int)
    requires Slotted(s) && 0 <= i < |s|
    ensures |RemotesDone(cfg, s, apos, leftmost)| == |s|
    ensures RemotesDone(cfg, s, apos, leftmost)[i] != s[i] <==> DropsRemote(cfg, s, apos, i)
    ensures DropsRemote(cfg, s, apos, i) ==> RemotesDone(cfg, s, apos, leftmost)[i] == IsolatedSlot(leftmost + i)
  {
    if DropsRemote(cfg, s, apos, i) {
      assert IsolatedSlot(leftmost + i)[0] != Remote;
    }
  }

  /** With `nearby_remotes` at most 0 no remote slot survives the pass. */
  lemma NoRemotesAtZero(cfg: Config, s: seq<string>, apos: seq<int>, leftmost: int)
    requires Slotted(s) && cfg.nearbyRemotes <= 0
    ensures forall i :: 0 <= i < |s| ==> RemotesDone(cfg, s, apos, leftmost)[i][0] != Remote
  {
    forall i | 0 <= i < |s| ensures RemotesDone(cfg, s, apos, leftmost)[i][0] != Remote {
      if s[i][0] == Remote {
        assert !Nearby(i, apos, cfg.nearbyRemotes, false);
      }
    }
  }

  // ----- handle_nearby_twists -----

  /** `x.replace("~", "")` */
  function Untwisted(x: string): (r: string)
    ensures Twist !in r
    ensures |r| <= |x|
    ensures x != [] && x[0] != Twist ==> r != [] && r[0] == x[0] && r[1..] == Untwisted(x[1..])
    ensures Twist !in x ==> r == x
  {
    if x == [] then []
    else (if x[0] == Twist then [] else [x[0]]) + Untwisted(x[1..])
  }

  /**
   * The new value of a slot holding `~`: without the mark, and, near a focal
   * slot, with its first letter mirrored. An empty remainder raises
   * IndexError, a letter `chr` cannot mirror raises ValueError.
   */
  function TwistSlot(x: string, near: bool): Result<string> {
    var w := Untwisted(x);
    if !near then Success(w)
    else if w == [] then Failure(StringIndexError)
    else if w[0] as int > 219 then Failure(ChrRange)
    else Success([Mirror(w[0])] + w[1..])
  }

  /** One step of the twist loop: slots without `~` are left alone. */
  function TwistAt(cfg: Config, s: seq<string>, apos: seq<int>, i: int): Result<string>
    requires 0 <= i < |s|
  {
    if Twist in s[i] then TwistSlot(s[i], Nearby(i, apos, cfg.nearbyTwists, true)) else Success(s[i])
  }

  /** The slots from `k` on after the twist loop, or the first error it meets. */
  function TwistsFrom(cfg: Config, s: seq<string>, apos: seq<int>, k: nat): (r: Result<seq<string>>)
    requires k <= |s|
    decreases |s| - k
    ensures r.Success? <==> forall m :: k <= m < |s| ==> TwistAt(cfg, s, apos, m).Success?
    ensures r.Success? ==> |r.value| == |s| - k && forall m :: k <= m < |s| ==> r.value[m - k] == TwistAt(cfg, s, apos, m).value
  {
    if k == |s| then Success([])
    else
      var x := TwistAt(cfg, s, apos, k);
      if x.Failure? then Failure(x.error)
      else
        var rest := TwistsFrom(cfg, s, apos, k + 1);
        if rest.Failure? then rest else Success([x.value] + rest.value)
  }

  /** The twist loop stops with the error of the first slot that fails. */
  lemma {:induction false} TwistsFromFails(cfg: Config, s: seq<string>, apos: seq<int>, k: nat, i: nat)
    requires k <= i < |s|
    requires forall m :: k <= m < i ==> TwistAt(cfg, s, apos, m).Success?
    requires TwistAt(cfg, s, apos, i).Failure?
    ensures TwistsFrom(cfg, s, apos, k) == Failure(TwistAt(cfg, s, apos, i).error)
    decreases i - k
  {
    if k == i {
      assert TwistsFrom(cfg, s, apos, k) == Failure(TwistAt(cfg, s, apos, k).error);
    } else {
      TwistsFromFails(cfg, s, apos, k + 1, i);
      assert TwistAt(cfg, s, apos, k).Success?;
      assert TwistsFrom(cfg, s, apos, k) == TwistsFrom(cfg, s, apos, k + 1);
    }
  }

  /** `handle_nearby_twists` on a list that is present. */
  function Twists(cfg: Config, central: char, s: seq<string>): Result<seq<string>> {
    var apos := FocalCheck(s, central);
    if apos.Failure? then Failure(apos.error) else TwistsFrom(cfg, s, apos.value, 0)
  }

  /**
   * `handle_nearby_twists(central_char, s, leftmost)`: nothing for a
   * missing list; otherwise the checks on `apos`, then every slot holding
   * `~` loses the mark, and near a focal slot its letter is mirrored. On an
   * error the slots before the failing one are already rewritten.
   */
  method HandleNearbyTwists(cfg: Config, central: char, s: array?<string>, leftmost: int) returns (r: Result<()>)
    modifies s
    ensures s == null ==> r.Success?
    ensures s != null ==> r.Success? == Twists(cfg, central, old(s[..])).Success?
    ensures s != null && r.Success? ==> s[..] == Twists(cfg, central, old(s[..])).value
    ensures s != null && r.Failure? ==> r.error == Twists(cfg, central, old(s[..])).error
  {
    if s == null {
      return Success(());
    }
    var check := FocalCheck(s[..], central);
    if check.Failure? {
      return Failure(check.error);
    }
    var apos := check.value;
    ghost var s0 := s[..];
    var i := 0;
    while i < s.Length
      invariant 0 <= i <= s.Length && |s0| == s.Length
      invariant forall k :: 0 <= k < i ==> TwistAt(cfg, s0, apos, k).Success? && s[k] == TwistAt(cfg, s0, apos, k).value
      invariant forall k :: i <= k < s.Length ==> s[k] == s0[k]
    {
      if Twist in s[i] {
        var nearby := NearFocal(i, apos, cfg.nearbyTwists, true);
        var w := Untwisted(s[i]);
        if nearby {
          if w == [] {
            TwistsFromFails(cfg, s0, apos, 0, i);
            return Failure(StringIndexError);
          }
          if w[0] as int > 219 {
            TwistsFromFails(cfg, s0, apos, 0, i);
            return Failure(ChrRange);
          }
          s[i] := [Mirror(w[0])] + w[1..];
        } else {
          s[i] := w;
        }
      }
      i := i + 1;
    }
    assert s[..] == TwistsFrom(cfg, s0, apos, 0).value;
    r := Success(());
  }

  /** Marks of a slot do not start it: the twist mark follows the slot's letter. */
  predicate LetterFirst(s: seq<string>) {
    forall i :: 0 <= i < |s| && Twist in s[i] ==> s[i][0] != Twist && s[i][0] != ']'
  }

  /**
   * After the twist pass no slot holds `~`, as long as no twisted slot
   * starts with the mark itself or with `]` (whose mirror is `~`).
   */
  lemma NoTwistsLeft(cfg: Config, central: char, s: seq<string>)
    requires LetterFirst(s) && Twists(cfg, central, s).Success?
    ensures forall i :: 0 <= i < |s| ==> Twist !in Twists(cfg, central, s).value[i]
  {
    var apos := FocalCheck(s, central).value;
    var t := Twists(cfg, central, s).value;
    forall i | 0 <= i < |s| ensures Twist !in t[i] {
      assert t[i] == TwistAt(cfg, s, apos, i).value;
      if Twist in s[i] {
        var w := Untwisted(s[i]);
        if Nearby(i, apos, cfg.nearbyTwists, true) {
          assert t[i] == [Mirror(w[0])] + w[1..];
          assert Twist !in w[1..];
        }
      }
    }
  }

  /**
   * A twisted slot near a focal slot gets its letter mirrored (a by z, b by
   * y, ...) and loses the mark; one farther away only loses the mark.
   */
  lemma TwistedSlot(cfg: Config, central: char, s: seq<string>, i: int)
    requires Twists(cfg, central, s).Success? && 0 <= i < |s|
    requires Twist in s[i] && IsLower(s[i][0])
    ensures var apos := FocalCheck(s, central).value;
      Twists(cfg, central, s).value[i] ==
        if Nearby(i, apos, cfg.nearbyTwists, true) then [Mirror(s[i][0])] + Untwisted(s[i][1..])
        else Untwisted(s[i])
  {
    var apos := FocalCheck(s, central).value;
    assert Twists(cfg, central, s).value[i] == TwistAt(cfg, s, apos, i).value;
  }

  /** With `nearby_twists` negative nothing is mirrored and the pass cannot fail after its checks. */
  lemma NoMirrorWhenNegative(cfg: Config, central: char, s: seq<string>)
    requires cfg.nearbyTwists < 0 && FocalCheck(s, central).Success?
    ensures Twists(cfg, central, s).Success?
    ensures forall i :: 0 <= i < |s| ==> Twists(cfg, central, s).value[i] == Untwisted(s[i])
  {
    var apos := FocalCheck(s, central).value;
    forall m | 0 <= m < |s| ensures TwistAt(cfg, s, apos, m) == Success(Untwisted(s[m])) {
      assert !Nearby(m, apos, cfg.nearbyTwists, true);
    }
  }

  // ----- the regular expressions of normalized_toptype -----

  /** `re.sub("[-+]", "", t)` */
  function StripSigns(t: string): (r: string)
    ensures '+' !in r && '-' !in r
    ensures forall c :: c != '+' && c != '-' ==> (c in r <==> c in t)
  {
    if t == [] then []
    else (if t[0] == '+' || t[0] == '-' then [] else [t[0]]) + StripSigns(t[1..])
  }

  predicate InBK(c: char) {
    'b' <= c <= 'k'
  }

  /** `re.search("[b-k]", t)` */
  predicate HasBK(t: string) {
    exists k :: 0 <= k < |t| && InBK(t[k])
  }

  /**
   * `re.search(r"([b-k])[^:]*:.*\1", t)`: a letter b..k, the first colon
   * after it, and after that colon the same letter with no newline between.
   */
  predicate SharedLetter(t: string) {
    exists p, q, m :: 0 <= p < q < m < |t| && InBK(t[p]) && t[q] == ':' && t[m] == t[p]
      && (forall k :: p < k < q ==> t[k] != ':')
      && (forall k :: q < k < m ==> t[k] != '\n')
  }

  /** `re.sub(remote + "[-+]?", c, t)`: each R, with the sign right after it if any, becomes `c`. */
  function SubRemote(t: string, c: char): (r: string)
    decreases |t|
  {
    if t == [] then []
    else if t[0] == Remote then
      [c] + SubRemote(if |t| > 1 && (t[1] == '+' || t[1] == '-') then t[2..] else t[1..], c)
    else [t[0]] + SubRemote(t[1..], c)
  }

  lemma {:induction false} SubRemoteRemoves(t: string, c: char)
    requires c != Remote
    ensures Remote !in SubRemote(t, c)
    decreases |t|
  {
    if t != [] {
      if t[0] == Remote {
        SubRemoteRemoves(if |t| > 1 && (t[1] == '+' || t[1] == '-') then t[2..] else t[1..], c);
      } else {
        SubRemoteRemoves(t[1..], c);
      }
    }
  }

  /** A substitution of R on a text without R changes nothing. */
  lemma {:induction false} SubRemoteIdle(t: string, c: char)
    requires Remote !in t
    ensures SubRemote(t, c) == t
    decreases |t|
  {
    if t != [] {
      assert t[0] != Remote;
      SubRemoteIdle(t[1..], c);
    }
  }

  /** Whether the remote slots are dropped: a competing local bond letter b..k. */
  predicate Competing(cfg: Config, t: string, two: bool) {
    !cfg.alwaysIncludeRemotes && ((!two && HasBK(t)) || SharedLetter(t))
  }

  /** Lines 210-218 of `normalized_toptype` on the joined slot text. */
  function Finish(cfg: Config, top: string, two: bool): string {
    var t := if cfg.remoteSign then top else StripSigns(top);
    if Competing(cfg, t, two) then SubRemote(SubRemote(SubRemote(t, IsolatedN), IsolatedC), IsolatedO)
    else t
  }

  /**
   * With `remote_sign` off the text has no sign. When a competing local
   * bond is found every remote becomes I; otherwise the text is kept.
   */
  lemma FinishFacts(cfg: Config, top: string, two: bool)
    ensures var t := if cfg.remoteSign then top else StripSigns(top);
      && (!cfg.remoteSign ==> '+' !in Finish(cfg, top, two) && '-' !in Finish(cfg, top, two))
      && (Competing(cfg, t, two) ==> Remote !in Finish(cfg, top, two) && Finish(cfg, top, two) == SubRemote(t, IsolatedN))
      && (!Competing(cfg, t, two) ==> Finish(cfg, top, two) == t)
  {
    var t := if cfg.remoteSign then top else StripSigns(top);
    if Competing(cfg, t, two) {
      var u := SubRemote(t, IsolatedN);
      SubRemoteRemoves(t, IsolatedN);
      SubRemoteIdle(u, IsolatedC);
      SubRemoteIdle(u, IsolatedO);
      if !cfg.remoteSign {
        SubRemoteKeepsSignless(t, IsolatedN);
      }
    }
  }

  lemma {:induction false} SubRemoteKeepsSignless(t: string, c: char)
    requires '+' !in t && '-' !in t && c != '+' && c != '-'
    ensures '+' !in SubRemote(t, c) && '-' !in SubRemote(t, c)
    decreases |t|
  {
    if t != [] {
      assert |t| > 1 ==> t[1] in t;
      SubRemoteKeepsSignless(t[1..], c);
    }
  }

  /** The characters of two windows joined by a colon. */
  lemma JoinedAt(l: string, r: string, k: int)
    requires 0 <= k < |l| + 1 + |r|
    ensures (l + ":" + r)[k] == if k < |l| then l[k] else if k == |l| then ':' else r[k - |l| - 1]
  {
  }

  lemma SharedLetterBothSides(l: string, r: string)
    requires ':' !in l && ':' !in r && SharedLetter(l + ":" + r)
    ensures exists c :: InBK(c) && c in l && c in r
  {
    var t := l + ":" + r;
    var p, q, m :| 0 <= p < q < m < |t| && InBK(t[p]) && t[q] == ':' && t[m] == t[p]
      && (forall k :: p < k < q ==> t[k] != ':')
      && (forall k :: q < k < m ==> t[k] != '\n');
    JoinedAt(l, r, p);
    JoinedAt(l, r, q);
    JoinedAt(l, r, m);
    assert q == |l|;
    assert InBK(l[p]) && l[p] in l && r[m - |l| - 1] in r;
  }

  lemma BothSidesSharedLetter(l: string, r: string, c: char)
    requires ':' !in l && '\n' !in r && InBK(c) && c in l && c in r
    ensures SharedLetter(l + ":" + r)
  {
    var t := l + ":" + r;
    var p :| 0 <= p < |l| && l[p] == c;
    var m' :| 0 <= m' < |r| && r[m'] == c;
    var q := |l|;
    var m := |l| + 1 + m';
    JoinedAt(l, r, p);
    JoinedAt(l, r, q);
    JoinedAt(l, r, m);
    forall k | p < k < q ensures t[k] != ':' {
      JoinedAt(l, r, k);
      assert l[k] in l;
    }
    forall k | q < k < m ensures t[k] != '\n' {
      JoinedAt(l, r, k);
      assert r[k - |l| - 1] in r;
    }
  }

  /**
   * On the text of two windows joined by their single colon, the regex of
   * line 215 finds a match exactly when one letter b..k occurs on both sides.
   */
  lemma SharedLetterSides(l: string, r: string)
    requires ':' !in l && ':' !in r && '\n' !in r
    ensures SharedLetter(l + ":" + r) <==> exists c :: InBK(c) && c in l && c in r
  {
    if SharedLetter(l + ":" + r) {
      SharedLetterBothSides(l, r);
    }
    if exists c :: InBK(c) && c in l && c in r {
      var c :| InBK(c) && c in l && c in r;
      BothSidesSharedLetter(l, r, c);
    }
  }

  // ----- normalized_toptype -----

  function RemotesOpt(cfg: Config, central: char, s: Option<seq<string>>, leftmost: int): Result<Option<seq<string>>> {
    if s.None? then Success(None)
    else
      var r := Remotes(cfg, central, s.value, leftmost);
      if r.Failure? then Failure(r.error) else Success(Some(r.value))
  }

  function TwistsOpt(cfg: Config, central: char, s: Option<seq<string>>): Result<Option<seq<string>>> {
    if s.None? then Success(None)
    else
      var r := Twists(cfg, central, s.value);
      if r.Failure? then Failure(r.error) else Success(Some(r.value))
  }

  /** The slots a list holds after both passes: the remote pass, then the twist pass. */
  function Passes(cfg: Config, central: char, s: seq<string>, leftmost: int): Result<seq<string>> {
    var r := Remotes(cfg, central, s, leftmost);
    if r.Failure? then Failure(r.error) else Twists(cfg, central, r.value)
  }

  /** The joined windows: the left slots, then ":" and the right slots when there are two. */
  function Joined(sl: seq<string>, sr: Option<seq<string>>): string {
    Text.Concat(sl) + (if sr.Some? then ":" + Text.Concat(sr.value) else "")
  }

  /**
   * What `normalized_toptype(central_char, specL, specL_index, specR,
   * specR_index)` returns: the remote pass on both lists, the twist pass on
   * both, then the window size followed by the finished text.
   */
  function TopType(cfg: Config, central: char, sl: seq<string>, ll: int, sr: Option<seq<string>>, rl: int): Result<string> {
    var l1 := Remotes(cfg, central, sl, ll);
    if l1.Failure? then Failure(l1.error) else
    var r1 := RemotesOpt(cfg, central, sr, rl);
    if r1.Failure? then Failure(r1.error) else
    var l2 := Twists(cfg, central, l1.value);
    if l2.Failure? then Failure(l2.error) else
    var r2 := TwistsOpt(cfg, central, r1.value);
    if r2.Failure? then Failure(r2.error) else
    Success(Text.IntToString(cfg.windowSize) + Finish(cfg, Joined(l2.value, r2.value), sr.Some?))
  }

  /**
   * The passes in their source order, on the lists in place: the result is
   * `TopType`, and on success each list is left holding its slots after
   * both passes.
   */
  method NormalizedTopType(cfg: Config, central: char, specL: array<string>, specLIndex: int,
                           specR: array?<string>, specRIndex: int) returns (r: Result<string>)
    requires specL != specR
    modifies specL, specR
    ensures r == TopType(cfg, central, old(specL[..]), specLIndex,
                         if specR == null then None else Some(old(specR[..])), specRIndex)
    ensures r.Success? ==> Passes(cfg, central, old(specL[..]), specLIndex) == Success(specL[..])
    ensures r.Success? && specR != null ==> Passes(cfg, central, old(specR[..]), specRIndex) == Success(specR[..])
  {
    ghost var sr0: Option<seq<string>> := if specR == null then None else Some(specR[..]);
    var a := HandleNearbyRemotes(cfg, central, specL, specLIndex);
    if a.Failure? {
      return Failure(a.error);
    }
    var b := HandleNearbyRemotes(cfg, central, specR, specRIndex);
    if b.Failure? {
      return Failure(b.error);
    }
    ghost var sr1: Option<seq<string>> := if specR == null then None else Some(specR[..]);
    assert RemotesOpt(cfg, central, sr0, specRIndex) == Success(sr1);
    var c := HandleNearbyTwists(cfg, central, specL, specLIndex);
    if c.Failure? {
      return Failure(c.error);
    }
    var d := HandleNearbyTwists(cfg, central, specR, specRIndex);
    if d.Failure? {
      return Failure(d.error);
    }
    ghost var sr2: Option<seq<string>> := if specR == null then None else Some(specR[..]);
    assert TwistsOpt(cfg, central, sr1) == Success(sr2);
    var top := Text.Concat(specL[..]);
    if specR != null {
      top := top + ":" + Text.Concat(specR[..]);
    }
    assert top == Joined(specL[..], sr2);
    r := Success(Text.IntToString(cfg.windowSize) + Finish(cfg, top, specR != null));
  }
}

/**
 * The settings and symbol tables shared by the passes of
 * find_local_patterns.py. The source keeps its settings in module globals
 * that the command line overwrites; here they are one immutable record that
 * every pass takes as a parameter.
 */
module LocalConfig {
  import opened Wrappers

  datatype Config = Config(
    /** Atoms described on either side of each end of the central bond. */
    windowSize: int,
    /** Distance from a focal slot within which a remote bond is kept. */
    nearbyRemotes: int,
    /** Keep the `+`/`-` direction of remote bonds. */
    remoteSign: bool,
    /** Keep remote bonds even when a competing local bond is present. */
    alwaysIncludeRemotes: bool,
    /** Distance from a focal slot within which a twist is kept (mirrored letter). */
    nearbyTwists: int,
    /** Index into the list of residue schemes. */
    residueScheme: int)

  /** The values the module globals start with (find_local_patterns.py:20-27). */
  const Defaults := Config(3, 2, false, false, -1, 0)

  const StopIteration := "StopIteration"
  const AssertionError := "AssertionError"
  const IndexError := "IndexError: list index out of range"
  const AssignIndexError := "IndexError: list assignment index out of range"
  const StringIndexError := "IndexError: string index out of range"
  const ChrRange := "ValueError: chr() arg not in range(256)"
  const KeyError := "KeyError"

  const IsolatedN := 'I'
  const IsolatedC := 'X'
  const IsolatedO := 'I'
  /** `remote_N_char`, `remote_C_char` and `remote_O_char` are all this letter. */
  const Remote := 'R'
  const Twist := '~'

  /** `isolated_char[k % 3]`, with Python's (non-negative) remainder. */
  function IsolatedChar(k: int): char {
    if k % 3 == 0 then IsolatedN else if k % 3 == 1 then IsolatedC else IsolatedO
  }

  /** The one-letter slot of an atom without a bond. */
  function IsolatedSlot(k: int): string {
    [IsolatedChar(k)]
  }

  /** The slot of a bond from atom `x` to an atom `y` outside every window. */
  function RemoteSlot(x: int, y: int): string {
    [Remote, if x < y then '+' else '-']
  }

  /** Letter `k` of `string.ascii_uppercase` or `string.ascii_lowercase`. */
  function Letter(upper: bool, k: nat): char
    requires k < 26
  {
    ((if upper then 'A' else 'a') as int + k) as char
  }

  /**
   * `next()` on a letter generator that has handed out `n` letters: the next
   * letter, or StopIteration once all 26 are gone.
   */
  function Draw(upper: bool, n: nat): (r: Result<char>)
  {
    if n < 26 then Success(Letter(upper, n)) else Failure(StopIteration)
  }

  /** Distinct draws give distinct letters, and the two alphabets never meet. */
  lemma LettersDistinct(u1: bool, k1: nat, u2: bool, k2: nat)
    requires k1 < 26 && k2 < 26
    ensures Letter(u1, k1) == Letter(u2, k2) <==> u1 == u2 && k1 == k2
  {
  }

  predicate IsLower(c: char) {
    'a' <= c <= 'z'
  }

  /** `chr(ord("z") - (ord(c) - ord("a")))`: a by z, b by y, and so on. */
  function Mirror(c: char): char
    requires c as int <= 219
  {
    (219 - c as int) as char
  }

  /** Mirroring maps lower-case letters to lower-case letters and undoes itself. */
  lemma MirrorLower(c: char)
    requires IsLower(c)
    ensures IsLower(Mirror(c)) && Mirror(Mirror(c)) == c
    ensures c == 'a' ==> Mirror(c) == 'z'
  {
  }
}

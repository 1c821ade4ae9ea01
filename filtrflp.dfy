/**
 * abacus/filtrflp.py: the occurrence filter as run on the cluster, and the
 * cutoff it takes from the job name. The batch job's directory walk and the
 * environment lookups are not modelled; the job name is a parameter.
 */
module FiltrFlp {
  import opened Wrappers
  import Text
  import FilterBonds

  /** The cutoff used when the job name does not give one. */
  const DefaultCutoff := 4

  /**
   * The same two-pass filter as filter_bonds.py (the source carries a
   * verbatim copy of it).
   */
  method Filter(lines: seq<string>, minimum: int) returns (r: Result<seq<string>>)
    ensures r.Failure? <==> !FilterBonds.Keyed(lines)
    ensures r.Success? ==> r.value == FilterBonds.Selected(lines, lines, minimum)
  {
    r := FilterBonds.Filter(lines, minimum);
  }

  /**
   * The cutoff: the integer after the last '-' of the job name when the name
   * has a '-' and that part parses as an int, otherwise `DefaultCutoff`.
   */
  function CutoffFromJobName(jobName: string): int {
    var parts := Text.Split(jobName, '-');
    if |parts| > 1 && Text.PythonInt(parts[|parts| - 1]).Some? then Text.PythonInt(parts[|parts| - 1]).value
    else DefaultCutoff
  }

  /** A job name without '-' gives the default cutoff. */
  lemma CutoffWithoutDash(jobName: string)
    requires '-' !in jobName
    ensures CutoffFromJobName(jobName) == DefaultCutoff
  {
    Text.SplitNoSep(jobName, '-');
  }

  /**
   * A job name `prefix-last`, where `last` has no '-', gives `int(last)`, or
   * the default cutoff when `last` is not an int (the swallowed ValueError).
   */
  lemma CutoffOfLastPart(prefix: string, last: string)
    requires '-' !in last
    ensures CutoffFromJobName(prefix + "-" + last) ==
            if Text.PythonInt(last).Some? then Text.PythonInt(last).value else DefaultCutoff
  {
    Text.SplitLast(prefix, '-', last);
  }

  /** Appending `-n` to a job name selects the cutoff n. */
  lemma CutoffOfSuffix(prefix: string, n: nat)
    ensures CutoffFromJobName(prefix + "-" + Text.NatToString(n)) == n
  {
    var s := Text.NatToString(n);
    assert '-' !in s;
    CutoffOfLastPart(prefix, s);
    Text.PythonIntOfNat(n);
  }
}

/** `main`: read the arguments, select the matching processes from the
    snapshot, sort them by match index and print the table. */
module Pipeline {
  import opened Wrappers
  import opened Args
  import opened Selection
  import opened Sorting
  import opened Layout

  /** What the program writes to standard error. */
  datatype Diagnostic =
    | InvalidUnicode(pid: nat)  // "Failed to convert name of pid ...", the run goes on
    | Usage(error: EnvError)    // the error message and usage text before exiting

  /** Everything a run makes observable. */
  datatype Output = Output(stdout: seq<string>, stderr: seq<Diagnostic>, exitCode: int)

  /** One warning per snapshot entry whose name is not valid Unicode. */
  function Warnings(snapshot: seq<ProcessRecord>): (ds: seq<Diagnostic>)
    ensures |ds| + |Decodable(snapshot)| == |snapshot|
    ensures forall d :: d in ds <==>
      exists rec :: rec in snapshot && rec.name.None? && d == InvalidUnicode(rec.pid)
  {
    var pids := DecodeFailures(snapshot);
    var ds := seq(|pids|, i requires 0 <= i < |pids| => InvalidUnicode(pids[i]));
    assert forall d :: d in ds ==> exists i :: 0 <= i < |pids| && d == InvalidUnicode(pids[i]);
    assert forall pid :: pid in pids ==> InvalidUnicode(pid) in ds by {
      forall pid | pid in pids ensures InvalidUnicode(pid) in ds {
        var i :| 0 <= i < |pids| && pids[i] == pid;
        assert ds[i] == InvalidUnicode(pid);
      }
    }
    ds
  }

  /** A run of the program over an argument list and a process snapshot. A
      usage error ends it with nothing on standard output; otherwise it
      prints the table of the selected processes in an order sorted by match
      index, and exits with status 0. */
  method Run(argv: seq<string>, snapshot: seq<ProcessRecord>, format: Formatter) returns (out: Output)
    ensures ReadEnv(argv).Err? ==>
      out == Output([], [Usage(ReadEnv(argv).error)], ExitCode(ReadEnv(argv).error))
    ensures ReadEnv(argv).Ok? ==>
      var selected := Select(snapshot, ReadEnv(argv).value.0, ReadEnv(argv).value.1, format);
      out.exitCode == 0 && out.stderr == Warnings(snapshot) &&
      |out.stdout| == |selected| + 4 &&
      exists rows :: SortedPermutationOf(rows, selected) && out.stdout == Table(rows)
  {
    match ReadEnv(argv)
    case Err(e) =>
      out := Output([], [Usage(e)], ExitCode(e));
    case Ok((target, prefix)) =>
      var selected := Select(snapshot, target, prefix, format);
      var a := new Process[|selected|](i requires 0 <= i < |selected| => selected[i]);
      assert a[..] == selected;
      SortByMatchIndex(a);
      var lines := Display(a[..]);
      assert |a[..]| == |selected|;
      out := Output(lines, Warnings(snapshot), 0);
      assert SortedPermutationOf(a[..], selected);
  }
}

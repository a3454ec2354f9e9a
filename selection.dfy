/** The `filter_map` in `main`: decode each process name, keep the processes
    whose name contains the target, and turn each into a display row. */
module Selection {
  import opened Wrappers
  import opened Text
  import opened Args

  /** One entry of the process snapshot. `name` is None when the operating
      system's name is not valid Unicode. */
  datatype ProcessRecord = ProcessRecord(pid: nat, name: Option<string>, memory: nat, virtualMemory: nat)

  /** The `Process` struct: a row of the table plus its sort key. */
  datatype Process = Process(pid: string, matchIndex: nat, name: string, mem: string, virtMem: string)

  /** The memory formatter of the `mem` crate, which this model does not see. */
  type Formatter = (nat, Prefix) -> string

  /** `k` is the offset of the first occurrence of `t` in `s`. */
  ghost predicate FirstOccurrence(t: string, s: string, k: nat)
  {
    Occurs(t, s, k) && forall j: nat :: j < k ==> !Occurs(t, s, j)
  }

  /** A record is kept: its name decodes and contains the target. */
  predicate Selected(rec: ProcessRecord, target: string)
  {
    rec.name.Some? && Contains(rec.name.value, target)
  }

  /** `p` is the row built from `rec`: the pid in decimal, the decoded name,
      the byte offset of the first match, and both memory figures formatted. */
  ghost predicate Describes(p: Process, rec: ProcessRecord, target: string, prefix: Prefix, format: Formatter)
  {
    rec.name == Some(p.name) && p.pid == NatToString(rec.pid) &&
    (exists k: nat :: FirstOccurrence(target, p.name, k) && p.matchIndex == ByteLen(p.name[..k])) &&
    p.mem == format(rec.memory, prefix) && p.virtMem == format(rec.virtualMemory, prefix)
  }

  /** The closure given to `filter_map`: the `find` that yields the match
      index, then the `contains` re-check, then the row. */
  function Convert(rec: ProcessRecord, target: string, prefix: Prefix, format: Formatter): (r: Option<Process>)
    ensures r.Some? <==> Selected(rec, target)
    ensures r.Some? ==> Describes(r.value, rec, target, prefix, format)
  {
    match rec.name
    case None => None
    case Some(name) =>
      match Find(name, target)
      case None => None
      case Some(k) =>
        if !Contains(name, target) then None
        else
          var p := Process(NatToString(rec.pid), ByteLen(name[..k]), name,
                           format(rec.memory, prefix), format(rec.virtualMemory, prefix));
          assert FirstOccurrence(target, name, k);
          Some(p)
  }

  /** Once `find` has produced a match index, the `contains` check in the
      closure always passes: it never rejects a record `find` accepted. */
  lemma ContainsGuardRedundant(name: string, target: string)
    requires Find(name, target).Some?
    ensures Contains(name, target)
  {
  }

  /** `filter_map` followed by `collect`, in snapshot order. */
  function Select(records: seq<ProcessRecord>, target: string, prefix: Prefix, format: Formatter): (rows: seq<Process>)
    ensures |rows| <= |records|
    ensures forall p :: p in rows ==>
      exists rec :: rec in records && Selected(rec, target) && Describes(p, rec, target, prefix, format)
  {
    if records == [] then []
    else
      var rest := Select(records[1..], target, prefix, format);
      match Convert(records[0], target, prefix, format)
      case Some(p) => [p] + rest
      case None => rest
  }

  /** Every record whose name decodes and contains the target yields a row. */
  lemma {:induction false} SelectComplete(records: seq<ProcessRecord>, target: string, prefix: Prefix, format: Formatter, i: nat)
    requires i < |records| && Selected(records[i], target)
    ensures exists p :: p in Select(records, target, prefix, format) && Describes(p, records[i], target, prefix, format)
  {
    var p0 := Convert(records[0], target, prefix, format);
    if i == 0 {
      assert p0.value in Select(records, target, prefix, format);
    } else {
      SelectComplete(records[1..], target, prefix, format, i - 1);
      var p :| p in Select(records[1..], target, prefix, format) && Describes(p, records[1..][i - 1], target, prefix, format);
      assert p in Select(records, target, prefix, format);
    }
  }

  /** Selection keeps snapshot order: selecting from two concatenated parts
      is selecting from each part and concatenating. */
  lemma {:induction false} SelectAppend(a: seq<ProcessRecord>, b: seq<ProcessRecord>, target: string, prefix: Prefix, format: Formatter)
    ensures Select(a + b, target, prefix, format) == Select(a, target, prefix, format) + Select(b, target, prefix, format)
  {
    if a == [] {
      assert a + b == b;
    } else {
      assert (a + b)[1..] == a[1..] + b;
      SelectAppend(a[1..], b, target, prefix, format);
    }
  }

  /** The records whose names decode, in order. */
  function Decodable(records: seq<ProcessRecord>): (r: seq<ProcessRecord>)
    ensures forall rec :: rec in r <==> rec in records && rec.name.Some?
  {
    if records == [] then []
    else if records[0].name.Some? then [records[0]] + Decodable(records[1..])
    else Decodable(records[1..])
  }

  /** Undecodable records contribute nothing, and removing them changes
      nothing else. */
  lemma {:induction false} SelectIgnoresUndecodable(records: seq<ProcessRecord>, target: string, prefix: Prefix, format: Formatter)
    ensures Select(records, target, prefix, format) == Select(Decodable(records), target, prefix, format)
  {
    if records != [] {
      SelectIgnoresUndecodable(records[1..], target, prefix, format);
      if records[0].name.Some? {
        assert ([records[0]] + Decodable(records[1..]))[1..] == Decodable(records[1..]);
      }
    }
  }

  /** An empty target matches every decodable name, at offset 0. */
  lemma {:induction false} SelectEmptyTarget(records: seq<ProcessRecord>, prefix: Prefix, format: Formatter)
    ensures |Select(records, "", prefix, format)| == |Decodable(records)|
    ensures forall p :: p in Select(records, "", prefix, format) ==> p.matchIndex == 0
  {
    if records != [] {
      SelectEmptyTarget(records[1..], prefix, format);
      if records[0].name.Some? {
        FindEmpty(records[0].name.value);
      }
    }
  }

  /** The pids named in the "Invalid unicode" warnings, in snapshot order. */
  function DecodeFailures(records: seq<ProcessRecord>): (pids: seq<nat>)
    ensures |pids| + |Decodable(records)| == |records|
    ensures forall i :: 0 <= i < |pids| ==> exists rec :: rec in records && rec.name.None? && rec.pid == pids[i]
    ensures forall rec :: rec in records && rec.name.None? ==> rec.pid in pids
  {
    if records == [] then []
    else
      var rest := DecodeFailures(records[1..]);
      assert forall rec :: rec in records <==> rec == records[0] || rec in records[1..];
      assert forall rec :: rec in records[1..] ==> rec in records;
      if records[0].name.None? then
        assert records[0] in records;
        [records[0].pid] + rest
      else rest
  }

  lemma FindKeyExamples()
    ensures Find("\U{E9}\U{E9}xbash", "bash") == Some(3)
    ensures Find("aaaabash", "bash") == Some(4)
  {
    var e := "\U{E9}\U{E9}xbash";
    var a := "aaaabash";
    assert e[0..4] != "bash" by { assert e[0] != 'b'; }
    assert e[1..5] != "bash" by { assert e[1] != 'b'; }
    assert e[2..6] != "bash" by { assert e[2] != 'b'; }
    assert e[3..7] == "bash";
    assert a[0..4] != "bash" by { assert a[0] != 'b'; }
    assert a[1..5] != "bash" by { assert a[1] != 'b'; }
    assert a[2..6] != "bash" by { assert a[2] != 'b'; }
    assert a[3..7] != "bash" by { assert a[3] != 'b'; }
    assert a[4..8] == "bash";
  }

  lemma ByteLenExamples()
    ensures ByteLen("\U{E9}\U{E9}x") == 5
    ensures ByteLen("aaaa") == 4
  {
    assert "\U{E9}\U{E9}x"[1..] == "\U{E9}x";
    assert "\U{E9}x"[1..] == "x";
    assert "x"[1..] == "";
    CharsAtMostBytes("aaaa");
  }

  /** The sort key counts bytes, so across two names it need not follow the
      character position of the match: "\U{E9}\U{E9}xbash" matches at
      character 3 and gets key 5, "aaaabash" matches at character 4 and
      gets key 4, and so sorts first. */
  lemma ByteKeyAcrossNames(format: Formatter)
    ensures Convert(ProcessRecord(1, Some("\U{E9}\U{E9}xbash"), 0, 0), "bash", Decimal, format)
         == Some(Process("1", 5, "\U{E9}\U{E9}xbash", format(0, Decimal), format(0, Decimal)))
    ensures Convert(ProcessRecord(2, Some("aaaabash"), 0, 0), "bash", Decimal, format)
         == Some(Process("2", 4, "aaaabash", format(0, Decimal), format(0, Decimal)))
  {
    FindKeyExamples();
    ByteLenExamples();
    assert "\U{E9}\U{E9}xbash"[..3] == "\U{E9}\U{E9}x";
    assert "aaaabash"[..4] == "aaaa";
  }

  lemma FindBashExamples()
    ensures Find("bash", "bash") == Some(0)
    ensures Find("rebash-helper", "bash") == Some(2)
  {
    assert "bash"[0..4] == "bash";
    assert "rebash-helper"[0..4] != "bash" by { assert "rebash-helper"[0] != 'b'; }
    assert "rebash-helper"[1..5] != "bash" by { assert "rebash-helper"[1] != 'b'; }
    assert "rebash-helper"[2..6] == "bash";
  }

  lemma PidExamples()
    ensures NatToString(100) == "100" && NatToString(200) == "200"
  {
    assert NatToString(10) == "10";
    assert NatToString(20) == "20";
  }

  /** Two processes, "bash" and "rebash-helper", filtered by "bash": both are
      kept, in snapshot order, with match offsets 0 and 2. */
  lemma BashScenario(format: Formatter)
    ensures Select([ProcessRecord(100, Some("bash"), 5242880, 0), ProcessRecord(200, Some("rebash-helper"), 2048000, 0)],
                   "bash", Binary, format)
         == [Process("100", 0, "bash", format(5242880, Binary), format(0, Binary)),
             Process("200", 2, "rebash-helper", format(2048000, Binary), format(0, Binary))]
  {
    var r1 := ProcessRecord(100, Some("bash"), 5242880, 0);
    var r2 := ProcessRecord(200, Some("rebash-helper"), 2048000, 0);
    FindBashExamples();
    PidExamples();
    assert ByteLen("rebash-helper"[..2]) == 2 by {
      assert "rebash-helper"[..2] == "re";
      assert "re"[1..] == "e";
    }
    assert ByteLen("bash"[..0]) == 0 by {
      assert "bash"[..0] == "";
    }
    var p1 := Process("100", 0, "bash", format(5242880, Binary), format(0, Binary));
    var p2 := Process("200", 2, "rebash-helper", format(2048000, Binary), format(0, Binary));
    assert Convert(r1, "bash", Binary, format) == Some(p1);
    assert Convert(r2, "bash", Binary, format) == Some(p2);
    assert Select([r2], "bash", Binary, format) == [p2];
    assert [r1, r2][1..] == [r2];
  }
}

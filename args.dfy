/** `read_env`: the decision over the argument list that yields the target
    process name and the unit prefix, or a usage error that ends the program. */
module Args {
  import opened Wrappers
  import opened Text

  /** The unit system `mem::format` renders under. */
  datatype Prefix = Decimal | Binary

  /** The ways `read_env` ends the program instead of returning. */
  datatype EnvError =
    | ExpectedAtLeastOneArgument   // argc == 1
    | TooMuchArguments             // argc > 3
    | InvalidPrefix(prefix: string) // the optional argument names no known prefix
    | MissingArgument              // argc == 0: `argv.get(1).unwrap()` panics

  /** Exit status of each error: `process::exit(1)`, or 101 for a panic. */
  function ExitCode(e: EnvError): (code: int)
    ensures code != 0
    ensures code == 1 <==> !e.MissingArgument?
    ensures e.MissingArgument? ==> code == 101
  {
    if e.MissingArgument? then 101 else 1
  }

  /** `s` spells the lower-case ASCII word `word`, each letter in either case. */
  predicate SpellsIgnoringCase(s: string, word: string)
  {
    |s| == |word| &&
    forall i :: 0 <= i < |s| ==>
      s[i] == word[i] || ('a' <= word[i] <= 'z' && s[i] as int == word[i] as int - 32)
  }

  predicate AcceptedPrefix(s: string)
  {
    SpellsIgnoringCase(s, "decimal") || SpellsIgnoringCase(s, "binary")
  }

  /** The prefix named by an argument, lower-cased first. */
  function ParsePrefix(s: string): (r: Option<Prefix>)
    ensures r == Some(Decimal) <==> SpellsIgnoringCase(s, "decimal")
    ensures r == Some(Binary) <==> SpellsIgnoringCase(s, "binary")
    ensures r.None? <==> !AcceptedPrefix(s)
  {
    LowerMatchesWord(s, "decimal");
    LowerMatchesWord(s, "binary");
    match ToLowerAscii(s)
    case "decimal" => Some(Decimal)
    case "binary" => Some(Binary)
    case _ => None
  }

  /** Lower-casing `s` gives the lower-case word exactly when `s` spells it in
      any mixture of cases. */
  lemma LowerMatchesWord(s: string, word: string)
    requires forall i :: 0 <= i < |word| ==> !('A' <= word[i] <= 'Z')
    ensures ToLowerAscii(s) == word <==> SpellsIgnoringCase(s, word)
  {
    var l := ToLowerAscii(s);
    if l == word {
      forall i | 0 <= i < |s|
        ensures s[i] == word[i] || ('a' <= word[i] <= 'z' && s[i] as int == word[i] as int - 32)
      {
        assert l[i] == LowerAscii(s[i]);
      }
    }
    if SpellsIgnoringCase(s, word) {
      forall i | 0 <= i < |s| ensures l[i] == word[i] {
        assert l[i] == LowerAscii(s[i]);
      }
    }
  }

  /** `read_env` over the argument list (the program name first). */
  function ReadEnv(argv: seq<string>): (r: Result<(string, Prefix), EnvError>)
    ensures r.Ok? <==> 2 <= |argv| <= 3 && (|argv| == 3 ==> AcceptedPrefix(argv[2]))
    ensures r.Ok? ==> r.value.0 == argv[1]
    ensures r.Ok? && |argv| == 2 ==> r.value.1 == Decimal
    ensures r.Ok? && |argv| == 3 ==>
      (r.value.1 == Decimal <==> SpellsIgnoringCase(argv[2], "decimal"))
    ensures |argv| == 1 ==> r == Err(ExpectedAtLeastOneArgument)
    ensures |argv| > 3 ==> r == Err(TooMuchArguments)
    ensures |argv| == 0 ==> r == Err(MissingArgument)
    ensures |argv| == 3 && !AcceptedPrefix(argv[2]) ==> r == Err(InvalidPrefix(argv[2]))
  {
    var argc := |argv|;
    if argc == 1 then Err(ExpectedAtLeastOneArgument)
    else if argc > 3 then Err(TooMuchArguments)
    else if argc == 0 then Err(MissingArgument)
    else
      var target := argv[1];
      if argc == 2 then Ok((target, Decimal))
      else
        match ParsePrefix(argv[2])
        case Some(p) => Ok((target, p))
        case None => Err(InvalidPrefix(argv[2]))
  }

  /** The invocations the usage text shows, and an unknown prefix. */
  lemma ReadEnvExamples()
    ensures ReadEnv(["memory_usage", "my_process", "decimal"]) == Ok(("my_process", Decimal))
    ensures ReadEnv(["memory_usage", "my_process", "BiNaRy"]) == Ok(("my_process", Binary))
    ensures ReadEnv(["memory_usage", "my_process"]) == Ok(("my_process", Decimal))
    ensures ReadEnv(["memory_usage", "bash", "hex"]) == Err(InvalidPrefix("hex"))
    ensures ReadEnv(["memory_usage"]) == Err(ExpectedAtLeastOneArgument)
  {
    assert SpellsIgnoringCase("decimal", "decimal");
    assert SpellsIgnoringCase("BiNaRy", "binary");
    assert "hex"[0] != "decimal"[0] && "hex"[0] != "binary"[0];
  }
}

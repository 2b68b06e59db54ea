/** The functions of the example Python plugin script (native/plugins/python_script/example.py)
    that the host calls with a list of string arguments. */
module PythonExample {
  import opened Strings

  const MAIN_HEAD := "Hello from Python main! Received "
  const MAIN_MID := " arguments: "
  const NO_DATA := "Error: No data provided"
  const PROCESSED_HEAD := "Processed data: "

  /** `main(args)`: greets, states the number of arguments in decimal, then lists every
      argument in order, comma-separated. */
  function MainGreeting(args: seq<string>): (r: string)
    ensures CountedListing(r, MAIN_HEAD, |args|, MAIN_MID, args, ", ")
  {
    CountedListingOfFormat(MAIN_HEAD, |args|, MAIN_MID, args, ", ");
    MAIN_HEAD + NatToString(|args|) + MAIN_MID + Join(args, ", ")
  }

  /** With no arguments the greeting reports zero and lists nothing. */
  lemma GreetingNoArguments()
    ensures MainGreeting([]) == "Hello from Python main! Received 0 arguments: "
  {
    assert NatToString(0) == "0";
    assert Join([], ", ") == "";
  }

  /** `process_data(args)`: the arguments upper-cased and joined by single spaces,
      or the no-data error for an empty list. */
  function ProcessData(args: seq<string>): (r: string)
    ensures r == NO_DATA <==> args == []
  {
    if args == [] then NO_DATA
    else
      var r := PROCESSED_HEAD + Join(UpperAll(args), " ");
      assert r[0] != NO_DATA[0];
      r
  }

  /** For a non-empty list the reply is the fixed head followed by each argument
      upper-cased, in the original order, one space between neighbours. */
  lemma ProcessDataUppercasesEach(args: seq<string>)
    requires args != []
    ensures ProcessData(args)[..|PROCESSED_HEAD|] == PROCESSED_HEAD
    ensures ListsAt(ProcessData(args)[|PROCESSED_HEAD|..], UpperAll(args), " ")
    ensures forall i :: 0 <= i < |args| ==> UpperAll(args)[i] == Upper(args[i])
  {
    var r := ProcessData(args);
    assert r[..|PROCESSED_HEAD|] == PROCESSED_HEAD;
    assert r[|PROCESSED_HEAD|..] == Join(UpperAll(args), " ");
    JoinLists(UpperAll(args), " ");
    forall i | 0 <= i < |args| ensures UpperAll(args)[i] == Upper(args[i]) {
      UpperAllAt(args, i);
    }
  }
}

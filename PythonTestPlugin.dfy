/** The functions of the test Python plugin script (native/plugins/python_script/test_plugin.py). */
module PythonTestPlugin {
  import opened Strings

  const NO_DATA := "Error: No data provided"
  const TIMESTAMP := "2024-04-17"
  const TEST_HEAD := "Test function called with "
  const TEST_MID := " arguments: "

  /** The reply of `process_data`: the error string, or the dictionary it builds
      (modelled as a record; its `str()` rendering is not). */
  datatype Reply =
    | NoData(message: string)
    | Record(original: seq<string>, processed: seq<string>, length: nat, timestamp: string)

  /** `process_data(args)`: the no-data error for an empty list, otherwise a record of the
      original arguments, their upper-cased copies, their count and a fixed timestamp. */
  function ProcessData(args: seq<string>): (r: Reply)
    ensures r.NoData? <==> args == []
    ensures r.NoData? ==> r.message == NO_DATA
    ensures r.Record? ==>
      && r.original == args
      && r.length == |args| == |r.processed|
      && r.timestamp == TIMESTAMP
      && forall i :: 0 <= i < |args| ==> r.processed[i] == Upper(args[i])
  {
    if args == [] then NoData(NO_DATA)
    else
      var processed := UpperAll(args);
      assert forall i :: 0 <= i < |args| ==> processed[i] == Upper(args[i]) by {
        forall i | 0 <= i < |args| ensures processed[i] == Upper(args[i]) {
          UpperAllAt(args, i);
        }
      }
      Record(args, processed, |args|, TIMESTAMP)
  }

  /** `test_function(args)`: reports the number of arguments and lists them comma-separated. */
  function TestFunction(args: seq<string>): (r: string)
    ensures CountedListing(r, TEST_HEAD, |args|, TEST_MID, args, ", ")
  {
    CountedListingOfFormat(TEST_HEAD, |args|, TEST_MID, args, ", ");
    TEST_HEAD + NatToString(|args|) + TEST_MID + Join(args, ", ")
  }

  /** Two arguments are reported as the count 2 and the listing "x, y". */
  lemma TestFunctionTwoArguments()
    ensures TestFunction(["x", "y"]) == "Test function called with 2 arguments: x, y"
  {
  }
}

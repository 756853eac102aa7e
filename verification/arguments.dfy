/**
 * The argument vector handed to zsign, built from the action's named inputs
 * as `getZSignArguments` builds it.
 *
 * The inputs are a map from input name to value. `core.getInput` is a total
 * lookup: a name that is not in the map reads as the empty string, and the
 * empty string counts as "not given".
 */
module ZSignArguments {
  import opened Results
  import opened Text

  type Inputs = map<string, string>

  /** `core.getInput(key)`: the value supplied for `key`, or "" when there is none. */
  function GetInput(inputs: Inputs, key: string): string
  {
    if key in inputs then inputs[key] else ""
  }

  const AppPathKey := "app_path"
  const OutputPathKey := "output_path"
  const ProvKey := "prov"
  const OutputFlag := "-o"
  const ProfileFlag := "-m"
  const ProvSeparator := ','

  /** One entry of the static input-name to command-line-flag table. */
  datatype ArgSpec = ArgSpec(key: string, flag: string)

  /** The table, in declaration order; it is walked in this order. */
  const ArgTable: seq<ArgSpec> := [
    ArgSpec("pkey", "-k"),
    ArgSpec("cert", "-c"),
    ArgSpec("adhoc", "-a"),
    ArgSpec("debug", "-d"),
    ArgSpec("force", "-f"),
    ArgSpec("output", "-o"),
    ArgSpec("password", "-p"),
    ArgSpec("bundle_id", "-b"),
    ArgSpec("bundle_name", "-n"),
    ArgSpec("bundle_version", "-r"),
    ArgSpec("entitlements", "-e"),
    ArgSpec("zip_level", "-z"),
    ArgSpec("dylib", "-l"),
    ArgSpec("weak", "-w"),
    ArgSpec("temp_folder", "-t"),
    ArgSpec("sha256_only", "-2"),
    ArgSpec("quiet", "-q")
  ]

  /** Flags that are switches: given alone, never followed by their input's value. */
  const NoValueFlags: set<string> := {"-a", "-d", "-f", "-w", "-2", "-q"}

  function MissingInput(key: string): string
  {
    "Missing required input: " + key
  }

  /** What one table entry adds to the vector when its input has `value`. */
  function Contribution(spec: ArgSpec, value: string): seq<string>
  {
    if value == "" then []
    else if spec.flag in NoValueFlags then [spec.flag]
    else [spec.flag, value]
  }

  /**
   * An entry adds nothing exactly when its input is empty; otherwise its
   * flag, then the value exactly when the flag is not a switch.
   */
  lemma ContributionShape(spec: ArgSpec, value: string)
    ensures value == "" <==> Contribution(spec, value) == []
    ensures Contribution(spec, value) != [] ==> Contribution(spec, value)[0] == spec.flag
    ensures |Contribution(spec, value)| == 2 <==> value != "" && spec.flag !in NoValueFlags
    ensures |Contribution(spec, value)| == 2 ==> Contribution(spec, value)[1] == value
    ensures |Contribution(spec, value)| <= 2
  {
  }

  /** The arguments a (part of the) table contributes, entry after entry. */
  function TableArgs(inputs: Inputs, table: seq<ArgSpec>): (r: seq<string>)
    // the bound is written as a sum: the product `2 * |table|` is nonlinear and slows the solver
    ensures |r| <= |table| + |table|
  {
    if |table| == 0 then []
    else Contribution(table[0], GetInput(inputs, table[0].key)) + TableArgs(inputs, table[1..])
  }

  /** The pieces of the `prov` input: none when it is empty, else its comma-separated parts. */
  function ProvSegments(prov: string): (segments: seq<string>)
    ensures prov == "" ==> segments == []
    ensures prov != "" ==> |segments| == Count(prov, ProvSeparator) + 1
    ensures prov != "" ==> Join(segments, ProvSeparator) == prov
  {
    if prov == "" then []
    else
      JoinSplit(prov, ProvSeparator);
      Split(prov, ProvSeparator)
  }

  /**
   * One `-m` pair per segment, in segment order, carrying the trimmed
   * segment; empty segments are not skipped (see `ProfilePair`).
   */
  function ProfileArgs(segments: seq<string>): (r: seq<string>)
    ensures |r| == 2 * |segments|
  {
    if |segments| == 0 then []
    else [ProfileFlag, Trim(segments[0])] + ProfileArgs(segments[1..])
  }

  /** Pair `i` of the profile arguments is `-m` followed by segment `i`, trimmed. */
  lemma {:induction false} ProfilePair(segments: seq<string>, i: nat)
    requires i < |segments|
    ensures ProfileArgs(segments)[2 * i] == ProfileFlag
    ensures ProfileArgs(segments)[2 * i + 1] == Trim(segments[i])
    decreases i
  {
    var rest := ProfileArgs(segments[1..]);
    assert ProfileArgs(segments) == [ProfileFlag, Trim(segments[0])] + rest;
    if i > 0 {
      ProfilePair(segments[1..], i - 1);
      assert segments[1..][i - 1] == segments[i];
      assert 2 * i == 2 + 2 * (i - 1);
      assert ProfileArgs(segments)[2 * i] == rest[2 * (i - 1)];
      assert ProfileArgs(segments)[2 * i + 1] == rest[2 * (i - 1) + 1];
    }
  }

  /**
   * `getZSignArguments`: the argument vector, or the error for the first
   * missing required input. `app_path` is checked before `output_path`.
   */
  function ZSignArgs(inputs: Inputs): (r: Result<seq<string>>)
    ensures r.Err? <==> GetInput(inputs, AppPathKey) == "" || GetInput(inputs, OutputPathKey) == ""
    ensures GetInput(inputs, AppPathKey) == "" ==> r == Err(MissingInput(AppPathKey))
    ensures (GetInput(inputs, AppPathKey) != "" && GetInput(inputs, OutputPathKey) == "")
              ==> r == Err(MissingInput(OutputPathKey))
    ensures r.Ok? ==> (|r.value| >= 3 &&
              r.value[..3] == [GetInput(inputs, AppPathKey), OutputFlag, GetInput(inputs, OutputPathKey)])
  {
    var appPath := GetInput(inputs, AppPathKey);
    if appPath == "" then Err(MissingInput(AppPathKey))
    else
      var outputPath := GetInput(inputs, OutputPathKey);
      if outputPath == "" then Err(MissingInput(OutputPathKey))
      else
        Ok([appPath, OutputFlag, outputPath]
           + ProfileArgs(ProvSegments(GetInput(inputs, ProvKey)))
           + TableArgs(inputs, ArgTable))
  }

  /** Walking two parts of a table one after the other walks the whole. */
  lemma {:induction false} TableArgsAppend(inputs: Inputs, t1: seq<ArgSpec>, t2: seq<ArgSpec>)
    ensures TableArgs(inputs, t1 + t2) == TableArgs(inputs, t1) + TableArgs(inputs, t2)
    decreases |t1|
  {
    if |t1| > 0 {
      assert (t1 + t2)[1..] == t1[1..] + t2;
      TableArgsAppend(inputs, t1[1..], t2);
    } else {
      assert t1 + t2 == t2;
    }
  }

  /** Walking one more entry of a table appends that entry's contribution. */
  lemma TableArgsStep(inputs: Inputs, args: seq<string>, table: seq<ArgSpec>, j: nat)
    requires j < |table|
    ensures args + TableArgs(inputs, table[..j + 1])
         == args + TableArgs(inputs, table[..j]) + Contribution(table[j], GetInput(inputs, table[j].key))
  {
    var done := TableArgs(inputs, table[..j]);
    var piece := Contribution(table[j], GetInput(inputs, table[j].key));
    TableArgsAppend(inputs, table[..j], [table[j]]);
    assert table[..j + 1] == table[..j] + [table[j]];
    assert [table[j]][1..] == [];
    assert TableArgs(inputs, [table[j]]) == piece + [];
    assert TableArgs(inputs, table[..j + 1]) == done + piece;
    assert args + (done + piece) == args + done + piece;
  }

  /** The pairs for a longer list of segments extend those for a prefix. */
  lemma {:induction false} ProfileArgsAppend(s1: seq<string>, s2: seq<string>)
    ensures ProfileArgs(s1 + s2) == ProfileArgs(s1) + ProfileArgs(s2)
    decreases |s1|
  {
    if |s1| > 0 {
      assert (s1 + s2)[1..] == s1[1..] + s2;
      ProfileArgsAppend(s1[1..], s2);
    } else {
      assert s1 + s2 == s2;
    }
  }

  /** The loop over the `prov` pieces: one `-m` push pair per piece. */
  method PushProfiles(args: seq<string>, provPaths: seq<string>) returns (out: seq<string>)
    ensures out == args + ProfileArgs(provPaths)
  {
    out := args;
    var i := 0;
    while i < |provPaths|
      invariant 0 <= i <= |provPaths|
      invariant out == args + ProfileArgs(provPaths[..i])
    {
      ProfileArgsAppend(provPaths[..i], [provPaths[i]]);
      assert provPaths[..i + 1] == provPaths[..i] + [provPaths[i]];
      assert ProfileArgs([provPaths[i]]) == [ProfileFlag, Trim(provPaths[i])];
      out := out + [ProfileFlag, Trim(provPaths[i])];
      i := i + 1;
    }
    assert provPaths[..i] == provPaths;
  }

  /**
   * The loop over the table: an entry whose input is non-empty pushes its
   * flag, then its value unless the flag is a switch.
   */
  method PushTable(inputs: Inputs, args: seq<string>, table: seq<ArgSpec>) returns (out: seq<string>)
    ensures out == args + TableArgs(inputs, table)
  {
    out := args;
    var j := 0;
    while j < |table|
      invariant 0 <= j <= |table|
      invariant out == args + TableArgs(inputs, table[..j])
    {
      var spec := table[j];
      var value := GetInput(inputs, spec.key);
      TableArgsStep(inputs, args, table, j);
      ghost var before := out;
      ghost var piece := Contribution(spec, value);
      if value != "" {
        out := out + [spec.flag];
        if spec.flag !in NoValueFlags {
          out := out + [value];
          assert piece == [spec.flag, value];
        } else {
          assert piece == [spec.flag];
        }
      } else {
        assert piece == [];
      }
      assert out == before + piece;
      j := j + 1;
    }
    assert table[..j] == table;
  }

  /**
   * The push-by-push construction of `getZSignArguments`: required inputs,
   * then the `prov` pieces, then the table. It builds exactly the vector
   * `ZSignArgs` describes.
   */
  method GetZSignArguments(inputs: Inputs) returns (r: Result<seq<string>>)
    ensures r == ZSignArgs(inputs)
  {
    var args: seq<string> := [];
    var appPath := GetInput(inputs, AppPathKey);
    if appPath == "" {
      return Err(MissingInput(AppPathKey));
    }
    args := args + [appPath];
    var outputPath := GetInput(inputs, OutputPathKey);
    if outputPath == "" {
      return Err(MissingInput(OutputPathKey));
    }
    args := args + [OutputFlag, outputPath];
    assert args == [appPath, OutputFlag, outputPath];
    var prov := GetInput(inputs, ProvKey);
    if prov != "" {
      args := PushProfiles(args, Split(prov, ProvSeparator));
    } else {
      assert ProfileArgs(ProvSegments(prov)) == [];
    }
    ghost var withProfiles := args;
    assert withProfiles == [appPath, OutputFlag, outputPath] + ProfileArgs(ProvSegments(prov));
    args := PushTable(inputs, args, ArgTable);
    r := Ok(args);
  }
}

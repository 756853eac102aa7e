/**
 * What the zsign argument vector means. A decoder reads a vector back into
 * the invocation it requests; building and then decoding recovers exactly
 * the intended invocation. That invocation records the two paths, the
 * trimmed `prov` pieces, the values of the valued options and only the
 * presence of each switch, so inputs with equal vectors agree on it.
 * Around it: the shape of the vector (prefix, `-m` pairs, table order,
 * length) and the inputs it depends on.
 */
module ArgumentProperties {
  import opened Results
  import opened Text
  import opened ZSignArguments

  /** What zsign is told about one table entry. */
  datatype Setting = Unset | Enabled | Valued(value: string)

  /** The request one entry makes given its input: switches are presence-only. */
  function SettingOf(spec: ArgSpec, value: string): Setting
  {
    if value == "" then Unset
    else if spec.flag in NoValueFlags then Enabled
    else Valued(value)
  }

  /** The setting of every table entry, in table order: the option part of `Intended`. */
  function Settings(inputs: Inputs, table: seq<ArgSpec>): (r: seq<Setting>)
    ensures |r| == |table|
  {
    if |table| == 0 then []
    else [SettingOf(table[0], GetInput(inputs, table[0].key))] + Settings(inputs, table[1..])
  }

  /** Each `prov` piece trimmed, in order: the profile part of `Intended`, as `-m` carries it. */
  function TrimAll(segments: seq<string>): (r: seq<string>)
    ensures |r| == |segments|
  {
    if |segments| == 0 then [] else [Trim(segments[0])] + TrimAll(segments[1..])
  }

  /** A signing request: the app, the output, the profiles and one setting per table entry. */
  datatype Invocation = Invocation(appPath: string, outputPath: string,
                                   profiles: seq<string>, settings: seq<Setting>)

  /** The request the inputs describe. */
  function Intended(inputs: Inputs): Invocation
  {
    Invocation(GetInput(inputs, AppPathKey), GetInput(inputs, OutputPathKey),
               TrimAll(ProvSegments(GetInput(inputs, ProvKey))), Settings(inputs, ArgTable))
  }

  /** `flag` is the flag of some entry of `table`. */
  predicate IsFlagOf(flag: string, table: seq<ArgSpec>)
  {
    exists j :: 0 <= j < |table| && table[j].flag == flag
  }

  /** No flag is used by two entries. */
  predicate DistinctFlags(table: seq<ArgSpec>)
  {
    forall i, j :: 0 <= i < j < |table| ==> table[i].flag != table[j].flag
  }

  /** Reads leading `-m <profile>` pairs; returns the profiles and what follows them. */
  function DecodeProfiles(args: seq<string>): (seq<string>, seq<string>)
    decreases |args|
  {
    if |args| >= 2 && args[0] == ProfileFlag then
      var (profiles, rest) := DecodeProfiles(args[2..]);
      ([args[1]] + profiles, rest)
    else ([], args)
  }

  function Prepend(s: Setting, rest: Option<seq<Setting>>): Option<seq<Setting>>
  {
    match rest
    case None => None
    case Some(r) => Some([s] + r)
  }

  /** Reads the table part of a vector entry by entry; None when some argument is left over. */
  function DecodeSettings(args: seq<string>, table: seq<ArgSpec>): Option<seq<Setting>>
    decreases |table|
  {
    if |table| == 0 then (if args == [] then Some([]) else None)
    else if |args| > 0 && args[0] == table[0].flag then
      if table[0].flag in NoValueFlags then Prepend(Enabled, DecodeSettings(args[1..], table[1..]))
      else if |args| >= 2 then Prepend(Valued(args[1]), DecodeSettings(args[2..], table[1..]))
      else None
    else Prepend(Unset, DecodeSettings(args, table[1..]))
  }

  /** The request a vector makes when its flags come from `table`. */
  function DecodeWith(args: seq<string>, table: seq<ArgSpec>): Option<Invocation>
  {
    if |args| < 3 || args[1] != OutputFlag then None
    else
      var (profiles, rest) := DecodeProfiles(args[3..]);
      match DecodeSettings(rest, table)
      case None => None
      case Some(settings) => Some(Invocation(args[0], args[2], profiles, settings))
  }

  /** The request a zsign argument vector makes, if it is one the builder can produce. */
  function Decode(args: seq<string>): Option<Invocation>
  {
    DecodeWith(args, ArgTable)
  }

  /** Two-character flags whose second characters differ are distinct. */
  lemma DistinctByLetter(table: seq<ArgSpec>, letters: string)
    requires |letters| == |table|
    requires forall i :: 0 <= i < |table| ==> |table[i].flag| == 2 && table[i].flag[1] == letters[i]
    requires forall i, j :: 0 <= i < j < |letters| ==> letters[i] != letters[j]
    ensures DistinctFlags(table)
  {
    forall i, j | 0 <= i < j < |table|
      ensures table[i].flag != table[j].flag
    {
      assert table[i].flag[1] != table[j].flag[1];
    }
  }

  /** The character after the dash of each table flag, in table order. */
  const FlagLetters := "kcadfopbnrezlwt2q"

  /** Each table flag is a dash and its letter. */
  lemma ArgTableLetters()
    ensures |FlagLetters| == |ArgTable|
    ensures forall i :: 0 <= i < |ArgTable| ==> |ArgTable[i].flag| == 2 && ArgTable[i].flag[1] == FlagLetters[i]
  {
  }

  lemma FlagLettersDistinct()
    ensures forall i, j :: 0 <= i < j < |FlagLetters| ==> FlagLetters[i] != FlagLetters[j]
    ensures forall i :: 0 <= i < |FlagLetters| ==> FlagLetters[i] != 'm'
  {
  }

  /** The table's flags are distinct and none of them is the profile flag. */
  lemma ArgTableWellFormed()
    ensures DistinctFlags(ArgTable)
    ensures !IsFlagOf(ProfileFlag, ArgTable)
  {
    ArgTableLetters();
    FlagLettersDistinct();
    DistinctByLetter(ArgTable, FlagLetters);
    assert ProfileFlag[1] == 'm';
  }

  /** A table part that is not empty starts with the flag of one of its entries. */
  lemma {:induction false} TableArgsStartWithFlag(inputs: Inputs, table: seq<ArgSpec>)
    requires TableArgs(inputs, table) != []
    ensures IsFlagOf(TableArgs(inputs, table)[0], table)
    decreases |table|
  {
    if Contribution(table[0], GetInput(inputs, table[0].key)) == [] {
      TableArgsStartWithFlag(inputs, table[1..]);
      var j :| 0 <= j < |table[1..]| && table[1..][j].flag == TableArgs(inputs, table)[0];
      assert table[j + 1].flag == TableArgs(inputs, table)[0];
    } else {
      assert table[0].flag == TableArgs(inputs, table)[0];
    }
  }

  /** The rest of a table with distinct flags has distinct flags, none of them the first one's. */
  lemma DistinctFlagsTail(table: seq<ArgSpec>)
    requires |table| > 0 && DistinctFlags(table)
    ensures DistinctFlags(table[1..])
    ensures !IsFlagOf(table[0].flag, table[1..])
  {
    assert forall i :: 0 <= i < |table[1..]| ==> table[1..][i] == table[i + 1];
  }

  /** Decoding a table part gives back every entry's setting. */
  lemma {:induction false} DecodeTableArgs(inputs: Inputs, table: seq<ArgSpec>)
    requires DistinctFlags(table)
    ensures DecodeSettings(TableArgs(inputs, table), table) == Some(Settings(inputs, table))
    decreases |table|
  {
    if |table| > 0 {
      var spec := table[0];
      var value := GetInput(inputs, spec.key);
      var rest := TableArgs(inputs, table[1..]);
      var settings := Settings(inputs, table[1..]);
      DistinctFlagsTail(table);
      DecodeTableArgs(inputs, table[1..]);
      assert TableArgs(inputs, table) == Contribution(spec, value) + rest;
      assert Settings(inputs, table) == [SettingOf(spec, value)] + settings;
      if value == "" {
        if rest != [] {
          TableArgsStartWithFlag(inputs, table[1..]);
        }
        assert rest == [] || rest[0] != spec.flag;
        assert TableArgs(inputs, table) == rest;
        assert DecodeSettings(rest, table) == Prepend(Unset, DecodeSettings(rest, table[1..]));
      } else if spec.flag in NoValueFlags {
        var args := [spec.flag] + rest;
        assert args[1..] == rest;
        assert DecodeSettings(args, table) == Prepend(Enabled, DecodeSettings(rest, table[1..]));
      } else {
        var args := [spec.flag, value] + rest;
        assert args[2..] == rest;
        assert DecodeSettings(args, table) == Prepend(Valued(value), DecodeSettings(rest, table[1..]));
      }
    }
  }

  /** Decoding the `-m` pairs gives back the trimmed segments and leaves the rest. */
  lemma {:induction false} DecodeProfileArgs(segments: seq<string>, tail: seq<string>)
    requires tail == [] || tail[0] != ProfileFlag
    ensures DecodeProfiles(ProfileArgs(segments) + tail) == (TrimAll(segments), tail)
    decreases |segments|
  {
    if |segments| > 0 {
      var a := ProfileArgs(segments) + tail;
      assert a[2..] == ProfileArgs(segments[1..]) + tail;
      DecodeProfileArgs(segments[1..], tail);
    } else {
      assert ProfileArgs(segments) + tail == tail;
    }
  }

  /** Decoding a vector assembled from a well-formed table gives back each of its parts. */
  lemma DecodeAssembled(inputs: Inputs, app: string, out: string, segments: seq<string>, table: seq<ArgSpec>)
    requires DistinctFlags(table) && !IsFlagOf(ProfileFlag, table)
    ensures DecodeWith([app, OutputFlag, out] + ProfileArgs(segments) + TableArgs(inputs, table), table)
            == Some(Invocation(app, out, TrimAll(segments), Settings(inputs, table)))
  {
    var part := TableArgs(inputs, table);
    var args := [app, OutputFlag, out] + ProfileArgs(segments) + part;
    if part != [] {
      TableArgsStartWithFlag(inputs, table);
    }
    assert part == [] || part[0] != ProfileFlag;
    assert |args| >= 3 && args[0] == app && args[1] == OutputFlag && args[2] == out;
    assert args[3..] == ProfileArgs(segments) + part;
    DecodeProfileArgs(segments, part);
    DecodeTableArgs(inputs, table);
  }

  /**
   * Round trip: the vector built from the inputs decodes to exactly the
   * request the inputs describe.
   */
  lemma DecodeBuild(inputs: Inputs)
    requires ZSignArgs(inputs).Ok?
    ensures Decode(ZSignArgs(inputs).value) == Some(Intended(inputs))
  {
    ArgTableWellFormed();
    DecodeAssembled(inputs, GetInput(inputs, AppPathKey), GetInput(inputs, OutputPathKey),
                    ProvSegments(GetInput(inputs, ProvKey)), ArgTable);
  }

  /** Two input sets that produce the same vector request the same thing. */
  lemma SameVectorSameRequest(a: Inputs, b: Inputs)
    requires ZSignArgs(a).Ok? && ZSignArgs(a) == ZSignArgs(b)
    ensures Intended(a) == Intended(b)
  {
    DecodeBuild(a);
    DecodeBuild(b);
  }

  /** `a` and `b` give the same value to every input name of `table`. */
  predicate AgreeOnTable(a: Inputs, b: Inputs, table: seq<ArgSpec>)
  {
    forall j :: 0 <= j < |table| ==> GetInput(a, table[j].key) == GetInput(b, table[j].key)
  }

  lemma {:induction false} TableArgsDependOnKeys(a: Inputs, b: Inputs, table: seq<ArgSpec>)
    requires AgreeOnTable(a, b, table)
    ensures TableArgs(a, table) == TableArgs(b, table)
    decreases |table|
  {
    if |table| > 0 {
      assert GetInput(a, table[0].key) == GetInput(b, table[0].key);
      TableArgsDependOnKeys(a, b, table[1..]);
    }
  }

  /**
   * Only `app_path`, `output_path`, `prov` and the table's inputs matter:
   * inputs that agree on those give the same result, whatever else they hold.
   */
  lemma OnlyRelevantKeysMatter(a: Inputs, b: Inputs)
    requires GetInput(a, AppPathKey) == GetInput(b, AppPathKey)
    requires GetInput(a, OutputPathKey) == GetInput(b, OutputPathKey)
    requires GetInput(a, ProvKey) == GetInput(b, ProvKey)
    requires AgreeOnTable(a, b, ArgTable)
    ensures ZSignArgs(a) == ZSignArgs(b)
  {
    TableArgsDependOnKeys(a, b, ArgTable);
  }

  /** Entries whose input is empty add nothing: with one entry set, the table part is its contribution. */
  lemma {:induction false} OnlyEntrySet(inputs: Inputs, table: seq<ArgSpec>, j: nat)
    requires j < |table|
    requires forall i :: 0 <= i < |table| && i != j ==> GetInput(inputs, table[i].key) == ""
    ensures TableArgs(inputs, table) == Contribution(table[j], GetInput(inputs, table[j].key))
    decreases |table|
  {
    if j == 0 {
      NothingSet(inputs, table[1..]);
    } else {
      OnlyEntrySet(inputs, table[1..], j - 1);
    }
  }

  /** A table part whose inputs are all empty adds nothing. */
  lemma {:induction false} NothingSet(inputs: Inputs, table: seq<ArgSpec>)
    requires forall i :: 0 <= i < |table| ==> GetInput(inputs, table[i].key) == ""
    ensures TableArgs(inputs, table) == []
    decreases |table|
  {
    if |table| > 0 {
      assert GetInput(inputs, table[0].key) == "";
      NothingSet(inputs, table[1..]);
    }
  }

  /** How many arguments an entry adds: none when unset, one for a switch, two otherwise. */
  function Cost(spec: ArgSpec, value: string): nat
  {
    if value == "" then 0 else if spec.flag in NoValueFlags then 1 else 2
  }

  function TableCost(inputs: Inputs, table: seq<ArgSpec>): nat
  {
    if |table| == 0 then 0 else Cost(table[0], GetInput(inputs, table[0].key)) + TableCost(inputs, table[1..])
  }

  lemma {:induction false} TableArgsLength(inputs: Inputs, table: seq<ArgSpec>)
    ensures |TableArgs(inputs, table)| == TableCost(inputs, table)
    decreases |table|
  {
    if |table| > 0 {
      TableArgsLength(inputs, table[1..]);
    }
  }

  /** The vector has 3 + 2 * (number of prov segments) + the per-entry costs arguments. */
  lemma VectorLength(inputs: Inputs)
    requires ZSignArgs(inputs).Ok?
    ensures |ZSignArgs(inputs).value|
            == 3 + 2 * |ProvSegments(GetInput(inputs, ProvKey))| + TableCost(inputs, ArgTable)
  {
    TableArgsLength(inputs, ArgTable);
  }

  /**
   * With `prov` given, there is one `-m` pair per comma-separated segment
   * (commas + 1 of them) right after the output path, carrying the trimmed
   * segment, empty or not.
   */
  lemma ProfilePairAt(inputs: Inputs, i: nat)
    requires ZSignArgs(inputs).Ok?
    requires GetInput(inputs, ProvKey) != ""
    requires i < Count(GetInput(inputs, ProvKey), ProvSeparator) + 1
    ensures ZSignArgs(inputs).value[3 + 2 * i] == ProfileFlag
    ensures ZSignArgs(inputs).value[4 + 2 * i] == Trim(Split(GetInput(inputs, ProvKey), ProvSeparator)[i])
  {
    var segments := ProvSegments(GetInput(inputs, ProvKey));
    var args := ZSignArgs(inputs).value;
    ProfilePair(segments, i);
    assert args[3..][..2 * |segments|] == ProfileArgs(segments);
    assert args[3 + 2 * i] == args[3..][..2 * |segments|][2 * i];
    assert args[4 + 2 * i] == args[3..][..2 * |segments|][2 * i + 1];
  }

  /** Without `prov` the table part follows the output path directly. */
  lemma NoProfilesWithoutProv(inputs: Inputs)
    requires ZSignArgs(inputs).Ok?
    requires GetInput(inputs, ProvKey) == ""
    ensures ZSignArgs(inputs).value[3..] == TableArgs(inputs, ArgTable)
    ensures ZSignArgs(inputs).value[3..] == [] || ZSignArgs(inputs).value[3] != ProfileFlag
  {
    ArgTableWellFormed();
    if TableArgs(inputs, ArgTable) != [] {
      TableArgsStartWithFlag(inputs, ArgTable);
    }
  }

  /**
   * Where entry `j` of a table lands in the table part: right after what
   * entries 0..j-1 added, as its flag followed by its value, or by the
   * flag alone for a switch, which then ends the part or is followed by a
   * later entry's flag.
   */
  lemma TableEntryIn(inputs: Inputs, table: seq<ArgSpec>, j: nat)
    requires j < |table|
    requires GetInput(inputs, table[j].key) != ""
    ensures var part := TableArgs(inputs, table);
            var q := |TableArgs(inputs, table[..j])|;
            && q < |part|
            && part[q] == table[j].flag
            && (table[j].flag !in NoValueFlags ==> q + 1 < |part| && part[q + 1] == GetInput(inputs, table[j].key))
            && (table[j].flag in NoValueFlags ==> q + 1 == |part| || IsFlagOf(part[q + 1], table[j + 1..]))
  {
    var part := TableArgs(inputs, table);
    var spec := table[j];
    var before := TableArgs(inputs, table[..j]);
    var later := TableArgs(inputs, table[j + 1..]);
    assert table == table[..j] + ([spec] + table[j + 1..]);
    TableArgsAppend(inputs, table[..j], [spec] + table[j + 1..]);
    assert ([spec] + table[j + 1..])[1..] == table[j + 1..];
    var c := Contribution(spec, GetInput(inputs, spec.key));
    assert part == before + (c + later);
    assert part[|before|..] == c + later;
    if spec.flag in NoValueFlags && later != [] {
      TableArgsStartWithFlag(inputs, table[j + 1..]);
      assert part[|before| + 1] == later[0];
    }
  }

  /**
   * Table entries appear in declaration order: entry `j`, when its input is
   * given, sits right after the `-m` pairs and everything entries 0..j-1
   * added. Its flag comes first, followed by the value unless the flag is a
   * switch; a switch is followed only by the end of the vector or a later
   * entry's flag, never by its own value.
   */
  lemma TableEntryAt(inputs: Inputs, j: nat)
    requires ZSignArgs(inputs).Ok?
    requires j < |ArgTable|
    requires GetInput(inputs, ArgTable[j].key) != ""
    ensures var args := ZSignArgs(inputs).value;
            var p := 3 + 2 * |ProvSegments(GetInput(inputs, ProvKey))| + |TableArgs(inputs, ArgTable[..j])|;
            && p < |args|
            && args[p] == ArgTable[j].flag
            && (ArgTable[j].flag !in NoValueFlags ==> p + 1 < |args| && args[p + 1] == GetInput(inputs, ArgTable[j].key))
            && (ArgTable[j].flag in NoValueFlags ==> p + 1 == |args| || IsFlagOf(args[p + 1], ArgTable[j + 1..]))
  {
    var head := [GetInput(inputs, AppPathKey), OutputFlag, GetInput(inputs, OutputPathKey)]
                + ProfileArgs(ProvSegments(GetInput(inputs, ProvKey)));
    var part := TableArgs(inputs, ArgTable);
    assert ZSignArgs(inputs).value == head + part;
    TableEntryIn(inputs, ArgTable, j);
  }

  /**
   * With `app_path` and `output_path` given, no `prov` and a single table
   * input set, the vector is the required prefix and that entry's arguments.
   */
  lemma SingleEntryVector(inputs: Inputs, j: nat)
    requires GetInput(inputs, AppPathKey) != "" && GetInput(inputs, OutputPathKey) != ""
    requires GetInput(inputs, ProvKey) == ""
    requires j < |ArgTable|
    requires forall i :: 0 <= i < |ArgTable| && i != j ==> GetInput(inputs, ArgTable[i].key) == ""
    ensures ZSignArgs(inputs)
            == Ok([GetInput(inputs, AppPathKey), OutputFlag, GetInput(inputs, OutputPathKey)]
                  + Contribution(ArgTable[j], GetInput(inputs, ArgTable[j].key)))
  {
    OnlyEntrySet(inputs, ArgTable, j);
    assert ProfileArgs(ProvSegments(GetInput(inputs, ProvKey))) == [];
  }

  /** The example invocation: an app, an output and a bundle id. */
  lemma BundleIdExample(inputs: Inputs)
    requires inputs == map["app_path" := "a.ipa", "output_path" := "out.ipa", "bundle_id" := "com.x"]
    ensures ZSignArgs(inputs) == Ok(["a.ipa", "-o", "out.ipa", "-b", "com.x"])
  {
    assert forall i :: 0 <= i < |ArgTable| && i != 7 ==> GetInput(inputs, ArgTable[i].key) == "";
    SingleEntryVector(inputs, 7);
    assert ArgTable[7] == ArgSpec("bundle_id", "-b");
    assert GetInput(inputs, AppPathKey) == "a.ipa" && GetInput(inputs, OutputPathKey) == "out.ipa";
    assert Contribution(ArgTable[7], GetInput(inputs, ArgTable[7].key)) == ["-b", "com.x"];
    assert ["a.ipa", OutputFlag, "out.ipa"] + ["-b", "com.x"] == ["a.ipa", "-o", "out.ipa", "-b", "com.x"];
  }

  /** A switch is turned on by any non-empty value, "false" included. */
  lemma FalseTurnsSwitchOn(inputs: Inputs)
    requires inputs == map["app_path" := "a.ipa", "output_path" := "o.ipa", "adhoc" := "false"]
    ensures ZSignArgs(inputs) == Ok(["a.ipa", "-o", "o.ipa", "-a"])
  {
    assert forall i :: 0 <= i < |ArgTable| && i != 2 ==> GetInput(inputs, ArgTable[i].key) == "";
    SingleEntryVector(inputs, 2);
    assert ArgTable[2] == ArgSpec("adhoc", "-a");
    assert GetInput(inputs, AppPathKey) == "a.ipa" && GetInput(inputs, OutputPathKey) == "o.ipa";
    assert Contribution(ArgTable[2], GetInput(inputs, ArgTable[2].key)) == ["-a"];
    assert ["a.ipa", OutputFlag, "o.ipa"] + ["-a"] == ["a.ipa", "-o", "o.ipa", "-a"];
  }

  /** The `output` input is a second source of `-o`. */
  lemma OutputFlagTwice(inputs: Inputs)
    requires inputs == map["app_path" := "a.ipa", "output_path" := "o.ipa", "output" := "x.ipa"]
    ensures ZSignArgs(inputs) == Ok(["a.ipa", "-o", "o.ipa", "-o", "x.ipa"])
  {
    assert forall i :: 0 <= i < |ArgTable| && i != 5 ==> GetInput(inputs, ArgTable[i].key) == "";
    SingleEntryVector(inputs, 5);
    assert ArgTable[5] == ArgSpec("output", "-o");
    assert GetInput(inputs, AppPathKey) == "a.ipa" && GetInput(inputs, OutputPathKey) == "o.ipa";
    assert Contribution(ArgTable[5], GetInput(inputs, ArgTable[5].key)) == ["-o", "x.ipa"];
    assert ["a.ipa", OutputFlag, "o.ipa"] + ["-o", "x.ipa"] == ["a.ipa", "-o", "o.ipa", "-o", "x.ipa"];
  }

  /** "A,, B" has three pieces, the middle one empty: it is not dropped. */
  lemma SplitExample()
    ensures Split("A,, B", ProvSeparator) == ["A", "", " B"]
  {
    var parts := ["A", "", " B"];
    assert parts[1..] == ["", " B"] && parts[1..][1..] == [" B"];
    assert Join(parts, ',') == "A,, B";
    SplitJoin(parts, ',');
  }

  /**
   * Empty and blank `prov` segments are not skipped: such a segment still
   * gets its `-m` pair, carrying the empty string.
   */
  lemma BlankSegmentsKept(inputs: Inputs, i: nat)
    requires ZSignArgs(inputs).Ok?
    requires GetInput(inputs, ProvKey) != ""
    requires i < |Split(GetInput(inputs, ProvKey), ProvSeparator)|
    requires AllWhitespace(Split(GetInput(inputs, ProvKey), ProvSeparator)[i])
    ensures ZSignArgs(inputs).value[3 + 2 * i] == ProfileFlag
    ensures ZSignArgs(inputs).value[4 + 2 * i] == ""
  {
    var segment := Split(GetInput(inputs, ProvKey), ProvSeparator)[i];
    ProfilePairAt(inputs, i);
    assert AllWhitespace("");
    TrimUnique(segment, "", "");
    assert segment + "" + "" == segment;
  }
}

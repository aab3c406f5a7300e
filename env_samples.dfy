/**
 * The env sample half of cloudlift/deployment/deployer.py: parsing `env.<namespace>.sample`
 * files, finding the namespaces in a directory listing, spotting keys declared in more than
 * one namespace, naming secrets, and composing the map of injected secret ARNs.
 *
 * The file system is a parameter: a listing (a sequence of file names, in the order the
 * directory walk yields them) and the contents of the files in the working directory
 * (a map from file name to text).
 */
module EnvSamples {
  import opened Wrappers
  import opened Strings
  import opened Dicts
  import opened Errors

  // ---------------------------------------------------------------------------
  // read_config
  // ---------------------------------------------------------------------------

  /** `line.split('=', 1)` when it yields two parts: the text before the first `=` and the rest. */
  function SplitAssignment(line: string): (r: Option<(string, string)>)
    ensures r.Some? <==> '=' in line
    ensures r.Some? ==> r.value.0 + "=" + r.value.1 == line && '=' !in r.value.0
  {
    OccursAtChar(line, '=');
    match Find(line, "=", 0)
    case None => None
    case Some(i) =>
      assert line == line[..i] + "=" + line[i + 1..];
      Some((line[..i], line[i + 1..]))
  }

  /** What one line of an env sample file does once stripped. */
  datatype LineKind = Blank | Assignment(key: string, value: string) | Malformed

  function Classify(line: string): LineKind {
    var t := Strip(line);
    if t == [] then Blank
    else match SplitAssignment(t)
      case None => Malformed
      case Some((k, v)) => Assignment(k, v)
  }

  /**
   * A line is blank when it is all whitespace; otherwise it assigns the text before its first
   * `=` the text after it, both taken from the stripped line, or it is malformed when it has no `=`.
   */
  lemma ClassifyMeaning(line: string)
    ensures Classify(line).Blank? <==> forall i :: 0 <= i < |line| ==> IsSpace(line[i])
    ensures Classify(line).Malformed? <==> Strip(line) != [] && '=' !in Strip(line)
    ensures Classify(line).Assignment? ==>
              Classify(line).key + "=" + Classify(line).value == Strip(line) && '=' !in Classify(line).key
  {
    StripEmptyIff(line);
  }

  /** Unpacking the one part of a line without `=` into `key, value`. */
  const UnpackError := ValueError("not enough values to unpack (expected 2, got 1)")

  /** The classification of every line of a file, in order. */
  function Kinds(lines: seq<string>): (r: seq<LineKind>)
    ensures |r| == |lines|
  {
    seq(|lines|, i requires 0 <= i < |lines| => Classify(lines[i]))
  }

  /** The dictionary `read_config` holds after starting from `config` and reading lines of these kinds. */
  function ParseFrom(config: Dict<string>, kinds: seq<LineKind>): Result<Dict<string>, Exception>
    decreases |kinds|
  {
    if kinds == [] then Ok(config)
    else match kinds[0]
      case Blank => ParseFrom(config, kinds[1..])
      case Malformed => Err(UnpackError)
      case Assignment(k, v) => ParseFrom(Assign(config, k, v), kinds[1..])
  }

  /** What `read_config` returns for a file's text. */
  function ParseConfig(content: string): Result<Dict<string>, Exception> {
    ParseFrom([], Kinds(SplitLines(content)))
  }

  /** `read_config(file_content)`. */
  method ReadConfig(content: string) returns (r: Result<Dict<string>, Exception>)
    ensures r == ParseConfig(content)
  {
    var lines := SplitLines(content);
    ghost var kinds := Kinds(lines);
    var config: Dict<string> := [];
    var i := 0;
    while i < |lines|
      invariant 0 <= i <= |lines|
      invariant ParseFrom(config, kinds[i..]) == ParseFrom([], kinds)
    {
      assert kinds[i..][0] == kinds[i] == Classify(lines[i]);
      assert kinds[i..][1..] == kinds[i + 1..];
      var line := Strip(lines[i]);
      if line != [] {
        var parts := SplitAssignment(line);
        if parts.None? {
          return Err(UnpackError);
        }
        config := Assign(config, parts.value.0, parts.value.1);
      }
      i := i + 1;
    }
    return Ok(config);
  }

  predicate AssignsKey(kind: LineKind, k: string) {
    kind.Assignment? && kind.key == k
  }

  /** Parsing fails exactly when some line is neither blank nor holds a `=`, and then with the unpack error. */
  lemma {:induction false} ParseFailsIff(config: Dict<string>, kinds: seq<LineKind>)
    decreases |kinds|
    ensures ParseFrom(config, kinds).Err? <==> exists i :: 0 <= i < |kinds| && kinds[i].Malformed?
    ensures ParseFrom(config, kinds).Err? ==> ParseFrom(config, kinds).error == UnpackError
  {
    if kinds != [] {
      var c' := match kinds[0] case Assignment(k, v) => Assign(config, k, v) case _ => config;
      ParseFailsIff(c', kinds[1..]);
      assert forall i :: 1 <= i < |kinds| ==> kinds[i] == kinds[1..][i - 1];
    }
  }

  /** The value the last line that assigns `k` gives it; later lines win. */
  function LastAssigned(kinds: seq<LineKind>, k: string): Option<string>
    decreases |kinds|
  {
    if kinds == [] then None
    else
      var later := LastAssigned(kinds[1..], k);
      if later.Some? then later
      else if AssignsKey(kinds[0], k) then Some(kinds[0].value)
      else None
  }

  /** No line assigns `k` exactly when `LastAssigned` finds nothing. */
  lemma {:induction false} LastAssignedNone(kinds: seq<LineKind>, k: string)
    decreases |kinds|
    ensures LastAssigned(kinds, k).None? <==> forall i :: 0 <= i < |kinds| ==> !AssignsKey(kinds[i], k)
  {
    if kinds != [] {
      LastAssignedNone(kinds[1..], k);
      assert forall i :: 1 <= i < |kinds| ==> kinds[i] == kinds[1..][i - 1];
    }
  }

  /** A line that assigns `k` with no later line assigning `k` decides the value. */
  lemma {:induction false} LastAssignedIs(kinds: seq<LineKind>, k: string, i: nat)
    requires i < |kinds| && AssignsKey(kinds[i], k)
    requires forall j :: i < j < |kinds| ==> !AssignsKey(kinds[j], k)
    decreases |kinds|
    ensures LastAssigned(kinds, k) == Some(kinds[i].value)
  {
    assert forall j :: 0 <= j < |kinds[1..]| ==> kinds[1..][j] == kinds[j + 1];
    if i == 0 {
      LastAssignedNone(kinds[1..], k);
    } else {
      LastAssignedIs(kinds[1..], k, i - 1);
    }
  }

  /**
   * After a successful parse, the value of every key is the one its last assignment gives it,
   * and a key no line assigns keeps the value it had before; keys stay distinct.
   */
  lemma {:induction false} ParsedValue(config: Dict<string>, kinds: seq<LineKind>, k: string)
    requires ParseFrom(config, kinds).Ok?
    decreases |kinds|
    ensures Lookup(ParseFrom(config, kinds).value, k)
         == if LastAssigned(kinds, k).Some? then LastAssigned(kinds, k) else Lookup(config, k)
    ensures DistinctKeys(config) ==> DistinctKeys(ParseFrom(config, kinds).value)
  {
    if kinds != [] {
      match kinds[0]
      case Blank =>
        ParsedValue(config, kinds[1..], k);
      case Assignment(k0, v0) =>
        if DistinctKeys(config) { AssignDistinct(config, k0, v0); }
        ParsedValue(Assign(config, k0, v0), kinds[1..], k);
    }
  }

  // ---------------------------------------------------------------------------
  // Sample file names and namespaces
  // ---------------------------------------------------------------------------

  predicate IsSampleFile(f: string) {
    StartsWith(f, "env.") && EndsWith(f, ".sample")
  }

  /** `get_env_sample_file_name(namespace)`: a name that `get_exec_namespaces` picks up again. */
  function EnvSampleFileName(ns: string): (r: string)
    ensures IsSampleFile(r)
  {
    var r := if ns != "" then "env." + ns + ".sample" else "env.sample";
    assert r[..4] == "env.";
    assert r[|r| - 7..] == ".sample";
    r
  }

  /** Every sample file name is one that `get_exec_namespaces` picks up. */
  lemma SampleFileNameShape(ns: string)
    ensures IsSampleFile(EnvSampleFileName(ns))
    ensures ns != "" ==> |EnvSampleFileName(ns)| == |ns| + 11
    ensures ns != "" ==> EnvSampleFileName(ns)[4..] == ns + ".sample"
  {
    var r := EnvSampleFileName(ns);
    assert r[..4] == "env.";
    assert r[|r| - 7..] == ".sample";
    if ns != "" {
      assert r == "env." + (ns + ".sample");
    }
  }

  /** Splitting at a separator that the string starts with gives an empty first piece. */
  lemma SplitAtStart(s: string, sep: string)
    requires sep != [] && StartsWith(s, sep)
    ensures Split(s, sep) == [""] + Split(s[|sep|..], sep)
  {
    assert Find(s, sep, 0) == Some(0);
  }

  /** The namespace `get_exec_namespaces` outcomes off a sample file name. */
  function NamespaceOf(f: string): string
    requires IsSampleFile(f)
  {
    SplitAtStart(f, "env.");
    RStrip(Split(Split(f, "env.")[1], "sample")[0], '.')
  }

  /** The namespaces of the sample files of a listing, in listing order. */
  function ExecNamespaces(files: seq<string>): (r: seq<string>)
    decreases |files|
    ensures |r| <= |files|
  {
    if files == [] then []
    else
      var f := files[|files| - 1];
      ExecNamespaces(files[..|files| - 1]) + (if IsSampleFile(f) then [NamespaceOf(f)] else [])
  }

  /** `get_exec_namespaces`, on the listing of the directory. */
  method GetExecNamespaces(files: seq<string>) returns (namespaces: seq<string>)
    ensures namespaces == ExecNamespaces(files)
  {
    namespaces := [];
    for i := 0 to |files|
      invariant namespaces == ExecNamespaces(files[..i])
    {
      assert files[..i + 1][..i] == files[..i];
      if StartsWith(files[i], "env.") && EndsWith(files[i], ".sample") {
        namespaces := namespaces + [NamespaceOf(files[i])];
      }
    }
    assert files[..|files|] == files;
  }

  /** Only sample files contribute, one namespace each, so there are at most as many namespaces as files. */
  lemma {:induction false} ExecNamespacesMembers(files: seq<string>, ns: string)
    decreases |files|
    ensures |ExecNamespaces(files)| <= |files|
    ensures ns in ExecNamespaces(files) <==>
            exists i :: 0 <= i < |files| && IsSampleFile(files[i]) && NamespaceOf(files[i]) == ns
  {
    if files != [] {
      var init := files[..|files| - 1];
      ExecNamespacesMembers(init, ns);
      forall i | 0 <= i < |init| ensures init[i] == files[i] { }
    }
  }

  /** What `get_exec_namespaces` does after the leading "env.". */
  lemma NamespaceOfRest(f: string)
    requires IsSampleFile(f)
    ensures NamespaceOf(f) == RStrip(Split(Split(f[4..], "env.")[0], "sample")[0], '.')
  {
    SplitAtStart(f, "env.");
  }

  /** No "env." in `ns + ".sample"` unless `ns + "."` holds one. */
  lemma NoEnvInSuffix(ns: string)
    requires !Contains(ns + ".", "env.")
    ensures forall j: nat :: !OccursAt(ns + ".sample", "env.", j)
  {
    var s := ns + ".sample";
    forall j: nat ensures !OccursAt(s, "env.", j) {
      if j + 4 <= |ns| + 1 {
        assert (ns + ".")[j..j + 4] == s[j..j + 4];
        assert !OccursAt(ns + ".", "env.", j);
      } else if j <= |ns| + 1 {
        if j + 4 <= |s| { Mismatch(s, "env.", j, |ns| + 1 - j); }
      } else if j + 4 <= |s| {
        Mismatch(s, "env.", j, 0);
      }
    }
  }

  /** "sample" occurs in `ns + ".sample"` right after the dot and, when `ns` holds none, nowhere before. */
  lemma SampleAfterDot(ns: string)
    requires !Contains(ns, "sample")
    ensures OccursAt(ns + ".sample", "sample", |ns| + 1)
    ensures forall j: nat :: j < |ns| + 1 ==> !OccursAt(ns + ".sample", "sample", j)
  {
    var s := ns + ".sample";
    assert s[|ns| + 1..|ns| + 7] == "sample";
    forall j: nat | j < |ns| + 1 ensures !OccursAt(s, "sample", j) {
      if j + 6 <= |ns| {
        assert ns[j..j + 6] == s[j..j + 6];
        assert !OccursAt(ns, "sample", j);
      } else {
        Mismatch(s, "sample", j, |ns| - j);
      }
    }
  }

  lemma NoEnvInSample()
    ensures forall j: nat :: !OccursAt("sample", "env.", j)
  {
    forall j: nat ensures !OccursAt("sample", "env.", j) {
      if j + 4 <= 6 { Mismatch("sample", "env.", j, 0); }
    }
  }

  /** `env.sample` yields the empty namespace. */
  lemma EmptyNamespace()
    ensures IsSampleFile(EnvSampleFileName("")) && NamespaceOf(EnvSampleFileName("")) == ""
  {
    SampleFileNameShape("");
    var f := EnvSampleFileName("");
    NamespaceOfRest(f);
    var rest := f[4..];
    assert rest == "sample";
    NoEnvInSample();
    NotFound(rest, "env.", 0);
    SplitUnfound(rest, "env.");
    FoundAt(rest, "sample", 0, 0);
    SplitFirst(rest, "sample", 0);
  }

  /**
   * The namespace read off `get_env_sample_file_name(ns)` is `ns`, when `ns` holds no
   * "sample", does not end in '.', and no "env." appears in `ns` followed by a dot.
   */
  lemma NamespaceRoundTrip(ns: string)
    requires !Contains(ns + ".", "env.") && !Contains(ns, "sample") && !EndsWith(ns, ".")
    ensures IsSampleFile(EnvSampleFileName(ns)) && NamespaceOf(EnvSampleFileName(ns)) == ns
  {
    SampleFileNameShape(ns);
    if ns == "" {
      EmptyNamespace();
    } else {
      NamespaceOfRest(EnvSampleFileName(ns));
      NamespaceOfSuffix(ns);
    }
  }

  /** What `get_exec_namespaces` reads from `ns + ".sample"` for a nonempty `ns` of the round-trip's kind. */
  lemma NamespaceOfSuffix(ns: string)
    requires ns != ""
    requires !Contains(ns + ".", "env.") && !Contains(ns, "sample") && !EndsWith(ns, ".")
    ensures RStrip(Split(Split(ns + ".sample", "env.")[0], "sample")[0], '.') == ns
  {
    var rest := ns + ".sample";
    NoEnvInSuffix(ns);
    NotFound(rest, "env.", 0);
    SplitUnfound(rest, "env.");
    SampleAfterDot(ns);
    FoundAt(rest, "sample", 0, |ns| + 1);
    SplitFirst(rest, "sample", |ns| + 1);
    assert rest[..|ns| + 1] == ns + ".";
    Mismatch(ns, ".", |ns| - 1, 0);
    RStripOne(ns, '.');
  }

  /** A namespace ending in "env" loses it: the file `env.xenv.sample` yields namespace "x". */
  lemma NamespaceEndingInEnv()
    ensures IsSampleFile(EnvSampleFileName("xenv")) && NamespaceOf(EnvSampleFileName("xenv")) == "x"
  {
    SampleFileNameShape("xenv");
    NamespaceOfRest(EnvSampleFileName("xenv"));
    XenvSuffix();
  }

  lemma XenvSuffix()
    ensures RStrip(Split(Split("xenv" + ".sample", "env.")[0], "sample")[0], '.') == "x"
  {
    var rest := "xenv" + ".sample";
    Mismatch(rest, "env.", 0, 0);
    assert rest[1..5] == "env.";
    FoundAt(rest, "env.", 0, 1);
    SplitFirst(rest, "env.", 1);
    assert rest[..1] == "x";
    SplitUnfound("x", "sample");
    RStripOne("x", '.');
  }

  /** A namespace that starts with "sample" yields the empty namespace. */
  lemma NamespaceStartingWithSample(ns: string)
    requires StartsWith(ns, "sample") && !Contains(ns + ".", "env.")
    ensures IsSampleFile(EnvSampleFileName(ns)) && NamespaceOf(EnvSampleFileName(ns)) == ""
  {
    SampleFileNameShape(ns);
    var f := EnvSampleFileName(ns);
    NamespaceOfRest(f);
    var rest := f[4..];
    assert rest == ns + ".sample";
    NoEnvInSuffix(ns);
    NotFound(rest, "env.", 0);
    SplitUnfound(rest, "env.");
    assert rest[0..6] == ns[0..6];
    FoundAt(rest, "sample", 0, 0);
    SplitFirst(rest, "sample", 0);
  }

  /** For instance, the file `env.samples.sample` yields the empty namespace. */
  lemma NamespaceHoldingSample()
    ensures IsSampleFile(EnvSampleFileName("samples")) && NamespaceOf(EnvSampleFileName("samples")) == ""
  {
    var ns := "samples";
    forall j: nat ensures !OccursAt(ns + ".", "env.", j) {
      if j + 4 <= 8 { Mismatch(ns + ".", "env.", j, if j == 5 then 1 else 0); }
    }
    assert ns[0..6] == "sample";
    NamespaceStartingWithSample(ns);
  }

  // ---------------------------------------------------------------------------
  // Sample keys and duplicates
  // ---------------------------------------------------------------------------

  /**
   * `get_sample_keys`: the keys of the sample file of a namespace. The file is looked up by its
   * bare name in the working directory, not in the sample folder.
   */
  function SampleKeys(workingFiles: map<string, string>, ns: string): Result<set<string>, Exception> {
    var name := EnvSampleFileName(ns);
    if name !in workingFiles then Err(FileNotFoundError(name))
    else match ParseConfig(workingFiles[name])
      case Ok(config) => Ok(Keys(config))
      case Err(e) => Err(e)
  }

  method GetSampleKeys(workingFiles: map<string, string>, ns: string) returns (r: Result<set<string>, Exception>)
    ensures r == SampleKeys(workingFiles, ns)
  {
    var name := EnvSampleFileName(ns);
    if name !in workingFiles {
      return Err(FileNotFoundError(name));
    }
    var config := ReadConfig(workingFiles[name]);
    if config.Err? {
      return Err(config.error);
    }
    return Ok(Keys(config.value));
  }

  /** What reading the sample keys of each namespace gives, in list order. */
  function ReadAll(workingFiles: map<string, string>, nss: seq<string>): (r: seq<Result<set<string>, Exception>>)
    ensures |r| == |nss|
  {
    if nss == [] then [] else [SampleKeys(workingFiles, nss[0])] + ReadAll(workingFiles, nss[1..])
  }

  lemma {:induction false} ReadAllAt(workingFiles: map<string, string>, nss: seq<string>, k: nat)
    requires k < |nss|
    ensures ReadAll(workingFiles, nss)[k] == SampleKeys(workingFiles, nss[k])
  {
    if k > 0 {
      ReadAllAt(workingFiles, nss[1..], k - 1);
    }
  }

  /** The error of the first read, in list order, that fails. */
  function FirstError(outcomes: seq<Result<set<string>, Exception>>): (r: Option<Exception>)
    ensures r.None? <==> forall k :: 0 <= k < |outcomes| ==> outcomes[k].Ok?
  {
    if outcomes == [] then None
    else if outcomes[0].Err? then Some(outcomes[0].error)
    else
      assert forall k :: 1 <= k < |outcomes| ==> outcomes[k] == outcomes[1..][k - 1];
      FirstError(outcomes[1..])
  }

  /** The first failing read decides the error. */
  lemma {:induction false} FirstErrorAt(outcomes: seq<Result<set<string>, Exception>>, j: nat)
    requires j < |outcomes| && outcomes[j].Err?
    requires forall k :: 0 <= k < j ==> outcomes[k].Ok?
    decreases j
    ensures FirstError(outcomes) == Some(outcomes[j].error)
  {
    if j > 0 {
      assert forall k :: 0 <= k < |outcomes| - 1 ==> outcomes[1..][k] == outcomes[k + 1];
      FirstErrorAt(outcomes[1..], j - 1);
    }
  }

  /** The keys each read found, none for a failed read. */
  function KeysOf(outcomes: seq<Result<set<string>, Exception>>): (r: seq<set<string>>)
    ensures |r| == |outcomes|
  {
    seq(|outcomes|, k requires 0 <= k < |outcomes| => if outcomes[k].Ok? then outcomes[k].value else {})
  }

  /** The sample file name of each namespace, in list order. */
  function FileNames(nss: seq<string>): (r: seq<string>)
    ensures |r| == |nss|
  {
    if nss == [] then [] else [EnvSampleFileName(nss[0])] + FileNames(nss[1..])
  }

  lemma {:induction false} FileNamesAt(nss: seq<string>, k: nat)
    requires k < |nss|
    ensures FileNames(nss)[k] == EnvSampleFileName(nss[k])
  {
    if k > 0 {
      FileNamesAt(nss[1..], k - 1);
    }
  }

  /** The entry for the pair (i, j): their common keys and both file names, when keys overlap. */
  function DuplicateOf(keys: seq<set<string>>, names: seq<string>, i: nat, j: nat): seq<Duplicate>
    requires |keys| == |names| && i < |names| && j < |names|
  {
    if keys[i] !! keys[j] then [] else [Duplicate(keys[i] * keys[j], names[i], names[j])]
  }

  /**
   * The outcome of `find_duplicate_keys` given what each read gives: with fewer than two
   * namespaces nothing is read; otherwise the first failed read fails the call, and else the
   * overlapping pairs are listed.
   */
  function DuplicatesIn(outcomes: seq<Result<set<string>, Exception>>, nss: seq<string>): Result<seq<Duplicate>, Exception>
    requires |outcomes| == |nss|
  {
    if |nss| < 2 then Ok([])
    else match FirstError(outcomes)
      case Some(e) => Err(e)
      case None => Ok(RowsUpTo(KeysOf(outcomes), FileNames(nss), |nss|))
  }

  /** The duplicates of the pairs (i, i + 1) .. (i, j - 1) of row i, in loop order. */
  function RowUpTo(keys: seq<set<string>>, names: seq<string>, i: nat, j: nat): seq<Duplicate>
    requires |keys| == |names| && i < j <= |names|
    decreases j
  {
    if j == i + 1 then [] else RowUpTo(keys, names, i, j - 1) + DuplicateOf(keys, names, i, j - 1)
  }

  /** The duplicates of rows 0 .. i - 1, each row in loop order. */
  function RowsUpTo(keys: seq<set<string>>, names: seq<string>, i: nat): seq<Duplicate>
    requires |keys| == |names| && i <= |names|
  {
    if i == 0 then [] else RowsUpTo(keys, names, i - 1) + RowUpTo(keys, names, i - 1, |names|)
  }

  predicate ReadableBefore(outcomes: seq<Result<set<string>, Exception>>, n: nat)
    requires n <= |outcomes|
  {
    forall k :: 0 <= k < n ==> outcomes[k].Ok?
  }

  /**
   * How many namespaces, from the first, are known to have been read when the nested loops
   * reach the pair (i, j): all of them once the first row is done.
   */
  function ReadSoFar(i: nat, j: nat, n: nat): nat {
    if i > 0 then n else if j > 1 then j else 0
  }

  /** After a pair is read, every namespace up to the second one of it has been read. */
  lemma ReadableStep(outcomes: seq<Result<set<string>, Exception>>, i: nat, j: nat)
    requires i < j < |outcomes| && outcomes[i].Ok? && outcomes[j].Ok?
    requires ReadableBefore(outcomes, ReadSoFar(i, j, |outcomes|))
    ensures ReadableBefore(outcomes, ReadSoFar(i, j + 1, |outcomes|))
  {
  }

  /**
   * What the loops of `find_duplicate_keys` may rely on about the read of namespace k:
   * `outcomes[k]` is what reading its sample file gives, `keys[k]` the keys that read found,
   * and `names[k]` the file name.
   */
  ghost predicate ReadAt(workingFiles: map<string, string>, nss: seq<string>, outcomes: seq<Result<set<string>, Exception>>,
                         keys: seq<set<string>>, names: seq<string>, k: nat)
    requires |outcomes| == |nss| && |keys| == |nss| && |names| == |nss| && k < |nss|
  {
    && outcomes[k] == SampleKeys(workingFiles, nss[k])
    && (outcomes[k].Ok? ==> keys[k] == outcomes[k].value)
    && names[k] == EnvSampleFileName(nss[k])
  }

  ghost predicate ReadsOf(workingFiles: map<string, string>, nss: seq<string>, outcomes: seq<Result<set<string>, Exception>>,
                          keys: seq<set<string>>, names: seq<string>)
  {
    && |outcomes| == |nss| && |keys| == |nss| && |names| == |nss|
    && forall k :: 0 <= k < |nss| ==> ReadAt(workingFiles, nss, outcomes, keys, names, k)
  }

  lemma ReadsOfAll(workingFiles: map<string, string>, nss: seq<string>)
    ensures ReadsOf(workingFiles, nss, ReadAll(workingFiles, nss), KeysOf(ReadAll(workingFiles, nss)), FileNames(nss))
  {
    forall k | 0 <= k < |nss| ensures ReadAt(workingFiles, nss, ReadAll(workingFiles, nss), KeysOf(ReadAll(workingFiles, nss)), FileNames(nss), k) {
      ReadAllAt(workingFiles, nss, k);
      FileNamesAt(nss, k);
    }
  }

  /** `get_sample_keys` for namespace k, as the loops of `find_duplicate_keys` see it. */
  method ReadSample(workingFiles: map<string, string>, nss: seq<string>, k: nat,
                    ghost outcomes: seq<Result<set<string>, Exception>>, ghost keys: seq<set<string>>, ghost names: seq<string>)
    returns (r: Result<set<string>, Exception>)
    requires k < |nss| && ReadsOf(workingFiles, nss, outcomes, keys, names)
    ensures r == outcomes[k] && (r.Ok? ==> r.value == keys[k])
  {
    assert ReadAt(workingFiles, nss, outcomes, keys, names, k);
    r := GetSampleKeys(workingFiles, nss[k]);
  }

  /** `get_env_sample_file_name` for namespace k, as the loops of `find_duplicate_keys` see it. */
  method SampleFileName(nss: seq<string>, k: nat, ghost workingFiles: map<string, string>,
                        ghost outcomes: seq<Result<set<string>, Exception>>, ghost keys: seq<set<string>>, ghost names: seq<string>)
    returns (name: string)
    requires k < |nss| && ReadsOf(workingFiles, nss, outcomes, keys, names)
    ensures name == names[k]
  {
    assert ReadAt(workingFiles, nss, outcomes, keys, names, k);
    name := EnvSampleFileName(nss[k]);
  }

  /**
   * One pass of the inner loop of `find_duplicate_keys`: read both sample files (the first
   * failing read ends the call) and record the pair when their keys overlap.
   */
  method CheckPair(workingFiles: map<string, string>, nss: seq<string>, i: nat, j: nat, duplicates: seq<Duplicate>,
                   ghost outcomes: seq<Result<set<string>, Exception>>, ghost keys: seq<set<string>>, ghost names: seq<string>)
    returns (r: Result<seq<Duplicate>, Exception>)
    requires i < j < |nss| && ReadsOf(workingFiles, nss, outcomes, keys, names)
    requires ReadableBefore(outcomes, ReadSoFar(i, j, |nss|))
    ensures r.Err? ==> FirstError(outcomes) == Some(r.error)
    ensures r.Ok? ==> r.value == duplicates + DuplicateOf(keys, names, i, j)
    ensures r.Ok? ==> ReadableBefore(outcomes, ReadSoFar(i, j + 1, |nss|))
  {
    var source := ReadSample(workingFiles, nss, i, outcomes, keys, names);
    if source.Err? {
      FirstErrorAt(outcomes, i);
      return Err(source.error);
    }
    var destination := ReadSample(workingFiles, nss, j, outcomes, keys, names);
    if destination.Err? {
      FirstErrorAt(outcomes, j);
      return Err(destination.error);
    }
    ReadableStep(outcomes, i, j);
    var common := source.value * destination.value;
    if common != {} {
      var shared :| shared in common;
      assert shared in source.value && shared in destination.value;
      var first := SampleFileName(nss, i, workingFiles, outcomes, keys, names);
      var second := SampleFileName(nss, j, workingFiles, outcomes, keys, names);
      return Ok(duplicates + [Duplicate(common, first, second)]);
    }
    forall k | k in source.value ensures k !in destination.value {
      assert k in destination.value ==> k in common;
    }
    assert duplicates + [] == duplicates;
    return Ok(duplicates);
  }

  /**
   * The inner loop of `find_duplicate_keys` for row i: the pairs (i, j) for every later j.
   * A failed read ends the call with the error `find_duplicate_keys` raises.
   */
  method ScanRow(workingFiles: map<string, string>, nss: seq<string>, i: nat, duplicates: seq<Duplicate>,
                 ghost outcomes: seq<Result<set<string>, Exception>>, ghost keys: seq<set<string>>, ghost names: seq<string>)
    returns (r: Result<seq<Duplicate>, Exception>)
    requires i < |nss| && ReadsOf(workingFiles, nss, outcomes, keys, names)
    requires i > 0 && |nss| >= 2 ==> ReadableBefore(outcomes, |nss|)
    ensures r.Err? ==> |nss| >= 2 && FirstError(outcomes) == Some(r.error)
    ensures r.Ok? ==> r.value == duplicates + RowUpTo(keys, names, i, |nss|)
    ensures r.Ok? && |nss| >= 2 ==> ReadableBefore(outcomes, |nss|)
  {
    var found := duplicates;
    ghost var row := [];
    var j := i + 1;
    while j < |nss|
      invariant i + 1 <= j <= |nss|
      invariant row == RowUpTo(keys, names, i, j)
      invariant found == duplicates + row
      invariant ReadableBefore(outcomes, ReadSoFar(i, j, |nss|))
    {
      var checked := CheckPair(workingFiles, nss, i, j, found, outcomes, keys, names);
      if checked.Err? {
        return checked;
      }
      assert checked.value == duplicates + (row + DuplicateOf(keys, names, i, j));
      found := checked.value;
      row := row + DuplicateOf(keys, names, i, j);
      j := j + 1;
    }
    return Ok(found);
  }

  /** The outer loop of `find_duplicate_keys`: every row in turn. */
  method ScanRows(workingFiles: map<string, string>, nss: seq<string>,
                  ghost outcomes: seq<Result<set<string>, Exception>>, ghost keys: seq<set<string>>, ghost names: seq<string>)
    returns (r: Result<seq<Duplicate>, Exception>)
    requires ReadsOf(workingFiles, nss, outcomes, keys, names)
    ensures r.Err? ==> |nss| >= 2 && FirstError(outcomes) == Some(r.error)
    ensures r.Ok? ==> r.value == RowsUpTo(keys, names, |nss|)
    ensures r.Ok? && |nss| >= 2 ==> FirstError(outcomes) == None
  {
    var duplicates: seq<Duplicate> := [];
    var i := 0;
    while i < |nss|
      invariant 0 <= i <= |nss|
      invariant duplicates == RowsUpTo(keys, names, i)
      invariant i > 0 && |nss| >= 2 ==> ReadableBefore(outcomes, |nss|)
    {
      var row := ScanRow(workingFiles, nss, i, duplicates, outcomes, keys, names);
      if row.Err? {
        return row;
      }
      duplicates := row.value;
      i := i + 1;
    }
    return Ok(duplicates);
  }

  /** `find_duplicate_keys(directory_path, namespaces)`. */
  method FindDuplicateKeys(workingFiles: map<string, string>, nss: seq<string>) returns (r: Result<seq<Duplicate>, Exception>)
    ensures r == DuplicatesIn(ReadAll(workingFiles, nss), nss)
  {
    ReadsOfAll(workingFiles, nss);
    r := ScanRows(workingFiles, nss, ReadAll(workingFiles, nss), KeysOf(ReadAll(workingFiles, nss)), FileNames(nss));
    assert |nss| < 2 ==> RowsUpTo(KeysOf(ReadAll(workingFiles, nss)), FileNames(nss), |nss|) == [];
  }

  /** A row lists nothing exactly when namespace i shares no key with any later namespace of the row. */
  lemma {:induction false} RowEmptyIff(keys: seq<set<string>>, names: seq<string>, i: nat, j: nat)
    requires |keys| == |names| && i < j <= |names|
    decreases j
    ensures RowUpTo(keys, names, i, j) == [] <==> forall m :: i < m < j ==> keys[i] !! keys[m]
  {
    if j > i + 1 {
      RowEmptyIff(keys, names, i, j - 1);
      var before := RowUpTo(keys, names, i, j - 1);
      var last := DuplicateOf(keys, names, i, j - 1);
      assert |RowUpTo(keys, names, i, j)| == |before| + |last|;
      if forall m :: i < m < j ==> keys[i] !! keys[m] {
        assert before == [] && last == [];
      } else {
        var m :| i < m < j && !(keys[i] !! keys[m]);
        assert m < j - 1 ==> before != [];
        assert m == j - 1 ==> last != [];
      }
    }
  }

  /** Namespace a shares no key with any later namespace. */
  predicate RowApart(keys: seq<set<string>>, a: nat)
    requires a < |keys|
  {
    forall m :: a < m < |keys| ==> keys[a] !! keys[m]
  }

  /** When the rows before i list nothing, each of their namespaces is apart from the later ones. */
  lemma {:induction false} RowsEmptyApart(keys: seq<set<string>>, names: seq<string>, i: nat)
    requires |keys| == |names| && i <= |names|
    requires RowsUpTo(keys, names, i) == []
    decreases i
    ensures forall a :: 0 <= a < i ==> RowApart(keys, a)
  {
    if i > 0 {
      var before := RowsUpTo(keys, names, i - 1);
      var row := RowUpTo(keys, names, i - 1, |names|);
      assert |RowsUpTo(keys, names, i)| == |before| + |row|;
      RowsEmptyApart(keys, names, i - 1);
      RowEmptyIff(keys, names, i - 1, |names|);
      assert RowApart(keys, i - 1);
    }
  }

  /** When each namespace before i is apart from the later ones, the rows before i list nothing. */
  lemma {:induction false} ApartRowsEmpty(keys: seq<set<string>>, names: seq<string>, i: nat)
    requires |keys| == |names| && i <= |names|
    requires forall a :: 0 <= a < i ==> RowApart(keys, a)
    decreases i
    ensures RowsUpTo(keys, names, i) == []
  {
    if i > 0 {
      ApartRowsEmpty(keys, names, i - 1);
      assert RowApart(keys, i - 1);
      RowEmptyIff(keys, names, i - 1, |names|);
      var before := RowsUpTo(keys, names, i - 1);
      var row := RowUpTo(keys, names, i - 1, |names|);
      assert before == [] && row == [];
      assert RowsUpTo(keys, names, i) == before + row;
    }
  }

  /** The rows before i list nothing exactly when none of their pairs shares a key. */
  lemma RowsEmptyIff(keys: seq<set<string>>, names: seq<string>, i: nat)
    requires |keys| == |names| && i <= |names|
    ensures RowsUpTo(keys, names, i) == [] <==>
            forall a, b :: 0 <= a < i && a < b < |names| ==> keys[a] !! keys[b]
  {
    if RowsUpTo(keys, names, i) == [] {
      RowsEmptyApart(keys, names, i);
      forall a, b | 0 <= a < i && a < b < |names| ensures keys[a] !! keys[b] {
        assert RowApart(keys, a);
      }
    }
    if forall a, b :: 0 <= a < i && a < b < |names| ==> keys[a] !! keys[b] {
      ApartRowsEmpty(keys, names, i);
    }
  }

  /**
   * Given what each read gives, `find_duplicate_keys` finds nothing exactly when there are
   * fewer than two namespaces, or every read succeeds and no two of them share a key.
   */
  lemma DuplicatesInEmptyIff(outcomes: seq<Result<set<string>, Exception>>, nss: seq<string>)
    requires |outcomes| == |nss|
    ensures DuplicatesIn(outcomes, nss) == Ok([]) <==>
            |nss| < 2 ||
            ((forall k :: 0 <= k < |nss| ==> outcomes[k].Ok?) &&
             (forall a, b :: 0 <= a < b < |nss| ==> outcomes[a].value !! outcomes[b].value))
  {
    var keys := KeysOf(outcomes);
    RowsEmptyIff(keys, FileNames(nss), |nss|);
    if |nss| >= 2 && FirstError(outcomes).None? {
      assert forall k :: 0 <= k < |nss| ==> keys[k] == outcomes[k].value;
    }
  }

  /**
   * `find_duplicate_keys` finds nothing exactly when there are fewer than two namespaces, or
   * every sample file reads and no two of them declare a common key.
   */
  lemma NoDuplicatesIff(workingFiles: map<string, string>, nss: seq<string>)
    ensures DuplicatesIn(ReadAll(workingFiles, nss), nss) == Ok([]) <==>
            |nss| < 2 ||
            ((forall k :: 0 <= k < |nss| ==> SampleKeys(workingFiles, nss[k]).Ok?) &&
             (forall a, b :: 0 <= a < b < |nss| ==>
                SampleKeys(workingFiles, nss[a]).value !! SampleKeys(workingFiles, nss[b]).value))
  {
    var outcomes := ReadAll(workingFiles, nss);
    forall k | 0 <= k < |nss| ensures outcomes[k] == SampleKeys(workingFiles, nss[k]) {
      ReadAllAt(workingFiles, nss, k);
    }
    DuplicatesInEmptyIff(outcomes, nss);
  }

  // ---------------------------------------------------------------------------
  // get_secret_name, _validate_config_availability, build_config
  // ---------------------------------------------------------------------------

  /** `get_secret_name(env_name, name_space, repo_name)`. */
  function SecretName(envName: string, ns: string, repoName: string): (r: string)
    ensures StartsWith(r, repoName + "-") && EndsWith(r, "-" + envName)
  {
    var r := if ns != "" then repoName + "-" + ns + "-" + envName else repoName + "-" + envName;
    assert r[..|repoName| + 1] == repoName + "-";
    assert r[|r| - |envName| - 1..] == "-" + envName;
    r
  }

  /** Within one repository and environment, different namespaces get different secrets. */
  lemma SecretNameInjective(envName: string, ns1: string, ns2: string, repoName: string)
    requires SecretName(envName, ns1, repoName) == SecretName(envName, ns2, repoName)
    ensures ns1 == ns2
  {
    var n1 := SecretName(envName, ns1, repoName);
    var n2 := SecretName(envName, ns2, repoName);
    if ns1 != "" && ns2 != "" {
      assert n1[|repoName| + 1..|repoName| + 1 + |ns1|] == ns1;
      assert n2[|repoName| + 1..|repoName| + 1 + |ns2|] == ns2;
    }
  }

  /** `_validate_config_availability(sample_config_keys, environment_var_set)`. */
  function ValidateConfigAvailability(sampleKeys: set<string>, available: set<string>): (r: Result<(), Exception>)
    ensures r.Ok? <==> sampleKeys <= available
    ensures r.Err? ==> r.error.MissingConfigValues? && r.error.keys != {} &&
                       forall k :: k in r.error.keys <==> k in sampleKeys && k !in available
  {
    var missing := sampleKeys - available;
    if missing != {} then Err(MissingConfigValues(missing))
    else
      assert forall k :: k in sampleKeys ==> k in available by {
        forall k | k in sampleKeys ensures k in available {
          assert k !in missing;
        }
      }
      Ok(())
  }

  /** What the secrets store holds for a secret: its keys and the ARN to inject. */
  datatype SecretEntry = SecretEntry(keys: set<string>, arn: string)

  /** The secrets store, asked for a secret by name in an environment. */
  type SecretsProvider = (string, string) -> Result<SecretEntry, Exception>

  /** The key `build_config` stores a namespace's secret ARN under. */
  function InjectedKey(ns: string): string {
    "INJECTED_SECRETS_" + ns
  }

  lemma InjectedKeyInjective(ns1: string, ns2: string)
    requires ns1 != ns2
    ensures InjectedKey(ns1) != InjectedKey(ns2)
  {
    var prefix := "INJECTED_SECRETS_";
    if |ns1| == |ns2| {
      var i :| 0 <= i < |ns1| && ns1[i] != ns2[i];
      assert InjectedKey(ns1)[|prefix| + i] == ns1[i];
      assert InjectedKey(ns2)[|prefix| + i] == ns2[i];
    }
  }

  /** The secret entry the store gives for a namespace. */
  function SecretOf(provider: SecretsProvider, repoName: string, envName: string, ns: string): Result<SecretEntry, Exception> {
    provider(SecretName(envName, ns, repoName), envName)
  }

  /**
   * One pass of the loop of `build_config` for a namespace: the ARN it stores, or the error
   * of the first step that fails (reading the sample keys, fetching the secret, checking that
   * the secret holds every sample key).
   */
  function InjectedArn(workingFiles: map<string, string>, repoName: string, envName: string,
                       provider: SecretsProvider, ns: string): Result<string, Exception>
  {
    match SampleKeys(workingFiles, ns)
    case Err(e) => Err(e)
    case Ok(sample) =>
      match SecretOf(provider, repoName, envName, ns)
      case Err(e) => Err(e)
      case Ok(entry) =>
        match ValidateConfigAvailability(sample, entry.keys)
        case Err(e) => Err(e)
        case Ok(_) => Ok(entry.arn)
  }

  /**
   * A namespace is handled exactly when its sample file reads, its secret exists and the secret
   * holds every key the sample declares; the ARN stored is the secret's.
   */
  lemma InjectedArnOk(workingFiles: map<string, string>, repoName: string, envName: string,
                      provider: SecretsProvider, ns: string)
    ensures InjectedArn(workingFiles, repoName, envName, provider, ns).Ok? <==>
            && SampleKeys(workingFiles, ns).Ok?
            && SecretOf(provider, repoName, envName, ns).Ok?
            && SampleKeys(workingFiles, ns).value <= SecretOf(provider, repoName, envName, ns).value.keys
    ensures InjectedArn(workingFiles, repoName, envName, provider, ns).Ok? ==>
            InjectedArn(workingFiles, repoName, envName, provider, ns).value == SecretOf(provider, repoName, envName, ns).value.arn
  {
  }

  /** What `build_config` holds after handling the namespaces `nss`, starting from `secrets`. */
  function InjectFrom(secrets: Dict<string>, workingFiles: map<string, string>, repoName: string, envName: string,
                      provider: SecretsProvider, nss: seq<string>): Result<Dict<string>, Exception>
    decreases |nss|
  {
    if nss == [] then Ok(secrets)
    else match InjectedArn(workingFiles, repoName, envName, provider, nss[0])
      case Err(e) => Err(e)
      case Ok(arn) => InjectFrom(Assign(secrets, InjectedKey(nss[0]), arn), workingFiles, repoName, envName, provider, nss[1..])
  }

  /** What `build_config(repo_name, env_name, sample_env_folder_path)` returns, given the folder listing. */
  function BuildConfigOutcome(listing: seq<string>, workingFiles: map<string, string>, repoName: string, envName: string,
                              provider: SecretsProvider): Result<Dict<string>, Exception>
  {
    var nss := ExecNamespaces(listing);
    match DuplicatesIn(ReadAll(workingFiles, nss), nss)
    case Err(e) => Err(e)
    case Ok(duplicates) =>
      if |duplicates| != 0 then Err(DuplicateKeysFound(duplicates))
      else InjectFrom([], workingFiles, repoName, envName, provider, nss)
  }

  /** Injection from namespace i on handles namespace i first. */
  lemma InjectFromStep(secrets: Dict<string>, workingFiles: map<string, string>, repoName: string, envName: string,
                       provider: SecretsProvider, nss: seq<string>, i: nat)
    requires i < |nss|
    ensures var arn := InjectedArn(workingFiles, repoName, envName, provider, nss[i]);
            InjectFrom(secrets, workingFiles, repoName, envName, provider, nss[i..]) ==
            if arn.Err? then Err(arn.error)
            else InjectFrom(Assign(secrets, InjectedKey(nss[i]), arn.value), workingFiles, repoName, envName, provider, nss[i + 1..])
  {
    assert nss[i..][0] == nss[i] && nss[i..][1..] == nss[i + 1..];
  }

  /**
   * One turn of `build_config`'s namespace loop: read the sample's keys, fetch the namespace's
   * secret, check that it covers them, and fetch it again for its ARN.
   */
  method InjectNamespace(workingFiles: map<string, string>, repoName: string, envName: string,
                         provider: SecretsProvider, ns: string) returns (r: Result<string, Exception>)
    ensures r == InjectedArn(workingFiles, repoName, envName, provider, ns)
  {
    var sampleKeys := GetSampleKeys(workingFiles, ns);
    if sampleKeys.Err? {
      return Err(sampleKeys.error);
    }
    var secretName := SecretName(envName, ns, repoName);
    var entry := provider(secretName, envName);
    if entry.Err? {
      return Err(entry.error);
    }
    var valid := ValidateConfigAvailability(sampleKeys.value, entry.value.keys);
    if valid.Err? {
      return Err(valid.error);
    }
    var arnEntry := provider(secretName, envName);
    return Ok(arnEntry.value.arn);
  }

  /** `build_config`'s namespace loop: one `INJECTED_SECRETS_<namespace>` entry per namespace, in order. */
  method InjectAll(workingFiles: map<string, string>, repoName: string, envName: string,
                   provider: SecretsProvider, nss: seq<string>) returns (r: Result<Dict<string>, Exception>)
    ensures r == InjectFrom([], workingFiles, repoName, envName, provider, nss)
  {
    var secrets: Dict<string> := [];
    for i := 0 to |nss|
      invariant InjectFrom(secrets, workingFiles, repoName, envName, provider, nss[i..])
             == InjectFrom([], workingFiles, repoName, envName, provider, nss)
    {
      InjectFromStep(secrets, workingFiles, repoName, envName, provider, nss, i);
      var arn := InjectNamespace(workingFiles, repoName, envName, provider, nss[i]);
      if arn.Err? {
        return Err(arn.error);
      }
      secrets := Assign(secrets, InjectedKey(nss[i]), arn.value);
    }
    assert nss[|nss|..] == [];
    return Ok(secrets);
  }

  /** `build_config(repo_name, env_name, sample_env_folder_path)`. */
  method BuildConfig(listing: seq<string>, workingFiles: map<string, string>, repoName: string, envName: string,
                     provider: SecretsProvider) returns (r: Result<Dict<string>, Exception>)
    ensures r == BuildConfigOutcome(listing, workingFiles, repoName, envName, provider)
  {
    var nss := GetExecNamespaces(listing);
    var duplicates := FindDuplicateKeys(workingFiles, nss);
    if duplicates.Err? {
      return Err(duplicates.error);
    }
    if |duplicates.value| != 0 {
      return Err(DuplicateKeysFound(duplicates.value));
    }
    r := InjectAll(workingFiles, repoName, envName, provider, nss);
  }

  /**
   * When injection succeeds, every namespace is handled and its ARN is stored under
   * `INJECTED_SECRETS_<namespace>`; every other key keeps its earlier value.
   */
  lemma InjectFromOk(secrets: Dict<string>, workingFiles: map<string, string>, repoName: string,
                     envName: string, provider: SecretsProvider, nss: seq<string>)
    requires InjectFrom(secrets, workingFiles, repoName, envName, provider, nss).Ok?
    ensures var result := InjectFrom(secrets, workingFiles, repoName, envName, provider, nss).value;
            && (forall ns :: ns in nss ==>
                  && InjectedArn(workingFiles, repoName, envName, provider, ns).Ok?
                  && Lookup(result, InjectedKey(ns)) == Some(InjectedArn(workingFiles, repoName, envName, provider, ns).value))
            && (forall k :: (forall ns :: ns in nss ==> k != InjectedKey(ns)) ==> Lookup(result, k) == Lookup(secrets, k))
            && Keys(result) == Keys(secrets) + set ns | ns in nss :: InjectedKey(ns)
  {
    InjectFromArns(secrets, workingFiles, repoName, envName, provider, nss);
    InjectFromOthers(secrets, workingFiles, repoName, envName, provider, nss);
    InjectFromKeys(secrets, workingFiles, repoName, envName, provider, nss);
  }

  lemma {:induction false} InjectFromArns(secrets: Dict<string>, workingFiles: map<string, string>, repoName: string,
                                          envName: string, provider: SecretsProvider, nss: seq<string>)
    requires InjectFrom(secrets, workingFiles, repoName, envName, provider, nss).Ok?
    decreases |nss|
    ensures var result := InjectFrom(secrets, workingFiles, repoName, envName, provider, nss).value;
            forall ns :: ns in nss ==>
              && InjectedArn(workingFiles, repoName, envName, provider, ns).Ok?
              && Lookup(result, InjectedKey(ns)) == Some(InjectedArn(workingFiles, repoName, envName, provider, ns).value)
  {
    if nss != [] {
      var arn := InjectedArn(workingFiles, repoName, envName, provider, nss[0]).value;
      var next := Assign(secrets, InjectedKey(nss[0]), arn);
      InjectFromArns(next, workingFiles, repoName, envName, provider, nss[1..]);
      assert forall ns :: ns in nss <==> ns == nss[0] || ns in nss[1..];
      if nss[0] !in nss[1..] {
        InjectFromOthers(next, workingFiles, repoName, envName, provider, nss[1..]);
        forall ns | ns in nss[1..] ensures InjectedKey(nss[0]) != InjectedKey(ns) {
          InjectedKeyInjective(nss[0], ns);
        }
      }
    }
  }

  lemma {:induction false} InjectFromOthers(secrets: Dict<string>, workingFiles: map<string, string>, repoName: string,
                                            envName: string, provider: SecretsProvider, nss: seq<string>)
    requires InjectFrom(secrets, workingFiles, repoName, envName, provider, nss).Ok?
    decreases |nss|
    ensures var result := InjectFrom(secrets, workingFiles, repoName, envName, provider, nss).value;
            forall k :: (forall ns :: ns in nss ==> k != InjectedKey(ns)) ==> Lookup(result, k) == Lookup(secrets, k)
  {
    if nss != [] {
      var arn := InjectedArn(workingFiles, repoName, envName, provider, nss[0]).value;
      var next := Assign(secrets, InjectedKey(nss[0]), arn);
      InjectFromOthers(next, workingFiles, repoName, envName, provider, nss[1..]);
      assert forall ns :: ns in nss[1..] ==> ns in nss;
    }
  }

  lemma {:induction false} InjectFromKeys(secrets: Dict<string>, workingFiles: map<string, string>, repoName: string,
                                          envName: string, provider: SecretsProvider, nss: seq<string>)
    requires InjectFrom(secrets, workingFiles, repoName, envName, provider, nss).Ok?
    decreases |nss|
    ensures Keys(InjectFrom(secrets, workingFiles, repoName, envName, provider, nss).value)
         == Keys(secrets) + set ns | ns in nss :: InjectedKey(ns)
  {
    if nss != [] {
      var arn := InjectedArn(workingFiles, repoName, envName, provider, nss[0]).value;
      var next := Assign(secrets, InjectedKey(nss[0]), arn);
      InjectFromKeys(next, workingFiles, repoName, envName, provider, nss[1..]);
      AssignKeys(secrets, InjectedKey(nss[0]), arn);
      assert forall ns :: ns in nss <==> ns == nss[0] || ns in nss[1..];
      assert (set ns | ns in nss :: InjectedKey(ns)) == {InjectedKey(nss[0])} + set ns | ns in nss[1..] :: InjectedKey(ns);
    }
  }

  /**
   * When `build_config` succeeds, no two sample files share a key, and the result holds
   * exactly one `INJECTED_SECRETS_<namespace>` entry per namespace, with that namespace's ARN.
   */
  lemma BuildConfigOk(listing: seq<string>, workingFiles: map<string, string>, repoName: string, envName: string,
                      provider: SecretsProvider)
    requires BuildConfigOutcome(listing, workingFiles, repoName, envName, provider).Ok?
    ensures var nss := ExecNamespaces(listing);
            var result := BuildConfigOutcome(listing, workingFiles, repoName, envName, provider).value;
            && (forall a, b :: 0 <= a < b < |nss| ==>
                  && SampleKeys(workingFiles, nss[a]).Ok? && SampleKeys(workingFiles, nss[b]).Ok?
                  && SampleKeys(workingFiles, nss[a]).value !! SampleKeys(workingFiles, nss[b]).value)
            && (forall ns :: ns in nss ==>
                  && SampleKeys(workingFiles, ns).Ok? && SecretOf(provider, repoName, envName, ns).Ok?
                  && SampleKeys(workingFiles, ns).value <= SecretOf(provider, repoName, envName, ns).value.keys
                  && Lookup(result, InjectedKey(ns)) == Some(SecretOf(provider, repoName, envName, ns).value.arn))
            && Keys(result) == set ns | ns in nss :: InjectedKey(ns)
  {
    BuildConfigApart(listing, workingFiles, repoName, envName, provider);
    BuildConfigInjected(listing, workingFiles, repoName, envName, provider);
  }

  /** A successful `build_config` passed the duplicate check: no two sample files share a key. */
  lemma BuildConfigApart(listing: seq<string>, workingFiles: map<string, string>, repoName: string, envName: string,
                         provider: SecretsProvider)
    requires BuildConfigOutcome(listing, workingFiles, repoName, envName, provider).Ok?
    ensures var nss := ExecNamespaces(listing);
            forall a, b :: 0 <= a < b < |nss| ==>
              && SampleKeys(workingFiles, nss[a]).Ok? && SampleKeys(workingFiles, nss[b]).Ok?
              && SampleKeys(workingFiles, nss[a]).value !! SampleKeys(workingFiles, nss[b]).value
  {
    var nss := ExecNamespaces(listing);
    assert DuplicatesIn(ReadAll(workingFiles, nss), nss) == Ok([]);
    NoDuplicatesIff(workingFiles, nss);
  }

  /** A successful `build_config` holds one entry per namespace, with the ARN of its secret. */
  lemma BuildConfigInjected(listing: seq<string>, workingFiles: map<string, string>, repoName: string, envName: string,
                            provider: SecretsProvider)
    requires BuildConfigOutcome(listing, workingFiles, repoName, envName, provider).Ok?
    ensures var nss := ExecNamespaces(listing);
            var result := BuildConfigOutcome(listing, workingFiles, repoName, envName, provider).value;
            && (forall ns :: ns in nss ==>
                  && SampleKeys(workingFiles, ns).Ok? && SecretOf(provider, repoName, envName, ns).Ok?
                  && SampleKeys(workingFiles, ns).value <= SecretOf(provider, repoName, envName, ns).value.keys
                  && Lookup(result, InjectedKey(ns)) == Some(SecretOf(provider, repoName, envName, ns).value.arn))
            && Keys(result) == set ns | ns in nss :: InjectedKey(ns)
  {
    var nss := ExecNamespaces(listing);
    var result := BuildConfigOutcome(listing, workingFiles, repoName, envName, provider).value;
    assert result == InjectFrom([], workingFiles, repoName, envName, provider, nss).value;
    InjectFromOk([], workingFiles, repoName, envName, provider, nss);
    forall ns | ns in nss {
      InjectedArnOk(workingFiles, repoName, envName, provider, ns);
    }
    assert Keys<string>([]) == {};
  }
}

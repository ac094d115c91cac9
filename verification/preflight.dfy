/** The container's startup checks, and the health probe that repeats them in the same container. */
module Preflight {
  import opened Options
  import opened LibraryRoots
  import PythonText
  import EnvironmentFile

  /* ---- path text and its resolution on a filesystem without symbolic links ---- */

  predicate Absolute(text: string) {
    text != "" && text[0] == '/'
  }

  function Enter(at: Path, name: string): Path {
    if name == "" || name == "." then at
    else if name == ".." then (if at == [] then at else at[..|at| - 1])
    else at + [name]
  }

  function Walk(at: Path, parts: seq<string>): Path
    decreases |parts|
  {
    if parts == [] then at else Walk(Enter(at, parts[0]), parts[1..])
  }

  /** Path(text).resolve(strict=False) in the working directory cwd. */
  function Resolve(cwd: Path, text: string): Path {
    Walk(if Absolute(text) then [] else cwd, PythonText.Split(text, '/'))
  }

  function Posix(p: Path): string {
    "/" + Join(p)
  }

  lemma {:induction false} WalkStaysValid(at: Path, parts: seq<string>)
    requires ValidPath(at) && forall i | 0 <= i < |parts| :: '/' !in parts[i]
    ensures ValidPath(Walk(at, parts))
    decreases |parts|
  {
    if parts == [] {
    } else {
      WalkStaysValid(Enter(at, parts[0]), parts[1..]);
    }
  }

  /** A resolved path has no empty, dot or dot-dot part left, whatever the text held. */
  lemma ResolvedIsNormal(cwd: Path, text: string)
    requires ValidPath(cwd)
    ensures ValidPath(Resolve(cwd, text))
  {
    WalkStaysValid(if Absolute(text) then [] else cwd, PythonText.Split(text, '/'));
  }

  lemma {:induction false} WalkNames(at: Path, names: Path)
    requires ValidPath(names)
    ensures Walk(at, names) == at + names
    decreases |names|
  {
    if names == [] {
      assert at + names == at;
    } else {
      assert ValidName(names[0]);
      WalkNames(at + [names[0]], names[1..]);
      assert at + [names[0]] + names[1..] == at + names;
    }
  }

  /** Resolving what was resolved changes nothing, from any working directory. */
  lemma ResolveTwice(cwd: Path, p: Path)
    requires ValidPath(p)
    ensures Resolve(cwd, Posix(p)) == p
  {
    PythonText.SplitOnce("", '/', Join(p));
    assert "" + ['/'] + Join(p) == Posix(p);
    var parts := PythonText.Split(Join(p), '/');
    assert ([""] + parts)[1..] == parts;
    if p == [] {
      PythonText.SplitNone("", '/');
      assert Walk([], [""]) == Walk([], [""][1..]) == [];
    } else {
      assert forall i | 0 <= i < |p| :: ValidName(p[i]);
      PythonText.SplitJoin(p, '/');
      WalkNames([], p);
    }
  }

  lemma {:induction false} WalkConcat(at: Path, a: seq<string>, b: seq<string>)
    ensures Walk(at, a + b) == Walk(Walk(at, a), b)
    decreases |a|
  {
    if a == [] {
      assert a + b == b;
    } else {
      assert (a + b)[0] == a[0] && (a + b)[1..] == a[1..] + b;
      WalkConcat(Enter(at, a[0]), a[1..], b);
    }
  }

  function Start(cwd: Path, text: string): Path {
    if Absolute(text) then [] else cwd
  }

  /** Text is walked part by part around any of its slashes. */
  lemma SlashWalks(cwd: Path, x: string, y: string)
    ensures Resolve(cwd, x + "/" + y)
         == Walk(Walk(Start(cwd, x + "/"), PythonText.Split(x, '/')), PythonText.Split(y, '/'))
  {
    PythonText.SplitAround(x, '/', y);
    WalkConcat(Start(cwd, x + "/"), PythonText.Split(x, '/'), PythonText.Split(y, '/'));
    assert (x + "/" + y)[0] == (x + "/")[0];
  }

  /** Parts that lead nowhere can be left out. */
  lemma DetourDrops(cwd: Path, x: string, detour: string, y: string)
    requires forall at :: Walk(at, PythonText.Split(detour, '/')) == at
    ensures Resolve(cwd, x + "/" + (detour + "/" + y)) == Resolve(cwd, x + "/" + y)
  {
    SlashWalks(cwd, x, detour + "/" + y);
    SlashWalks(cwd, x, y);
    PythonText.SplitAround(detour, '/', y);
    var at := Walk(Start(cwd, x + "/"), PythonText.Split(x, '/'));
    WalkConcat(at, PythonText.Split(detour, '/'), PythonText.Split(y, '/'));
  }

  /** A repeated slash and a dot part change nothing, and a dot-dot part undoes the name before it. */
  lemma DetoursAre(cwd: Path, x: string, name: string, y: string)
    requires ValidName(name)
    ensures Resolve(cwd, x + "/" + ("" + "/" + y)) == Resolve(cwd, x + "/" + y)
    ensures Resolve(cwd, x + "/" + ("." + "/" + y)) == Resolve(cwd, x + "/" + y)
    ensures Resolve(cwd, x + "/" + (name + "/.." + "/" + y)) == Resolve(cwd, x + "/" + y)
  {
    PythonText.SplitNone("", '/');
    PythonText.SplitNone(".", '/');
    UpAndDown(name);
    forall at ensures Walk(at, [""]) == at && Walk(at, ["."]) == at {
      OnePart(at, "");
      OnePart(at, ".");
    }
    DetourDrops(cwd, x, "", y);
    DetourDrops(cwd, x, ".", y);
    DetourDrops(cwd, x, name + "/..", y);
  }

  lemma OnePart(at: Path, part: string)
    ensures Walk(at, [part]) == Enter(at, part)
  {
    assert [part][1..] == [];
  }

  lemma UpAndDown(name: string)
    requires ValidName(name)
    ensures forall at :: Walk(at, PythonText.Split(name + "/..", '/')) == at
  {
    PythonText.SplitOnce(name, '/', "..");
    PythonText.SplitNone("..", '/');
    forall at: Path ensures Walk(at, [name] + [".."]) == at {
      OnePart(at, name);
      OnePart(at + [name], "..");
      WalkConcat(at, [name], [".."]);
    }
  }

  /** Above the root is the root. */
  lemma AboveRoot(cwd: Path, y: string)
    ensures Resolve(cwd, "/" + ("../" + y)) == Resolve(cwd, "/" + y)
  {
    var parts := PythonText.Split(y, '/');
    assert "" + "/" + ("../" + y) == "/" + ("../" + y) && "" + "/" + y == "/" + y;
    SlashWalks(cwd, "", "../" + y);
    SlashWalks(cwd, "", y);
    PythonText.SplitNone("", '/');
    OnePart([], "");
    PythonText.SplitOnce("..", '/', y);
    assert ".." + ['/'] + y == "../" + y;
    OnePart([], "..");
    WalkConcat([], [".."], parts);
  }

  /** A last slash is not read. */
  lemma LastSlash(cwd: Path, x: string)
    requires x != ""
    ensures Resolve(cwd, x + "/") == Resolve(cwd, x)
  {
    SlashWalks(cwd, x, "");
    assert x + "/" + "" == x + "/";
    PythonText.SplitNone("", '/');
    OnePart(Resolve(cwd, x), "");
    assert (x + "/")[0] == x[0];
  }

  /** A relative text is read below the working directory, and an absolute one without it. */
  lemma BelowWorkingDirectory(cwd: Path, text: string)
    requires ValidPath(cwd)
    ensures !Absolute(text) ==> Resolve(cwd, text) == Resolve([], Posix(cwd) + "/" + text)
    ensures Absolute(text) ==> Resolve(cwd, text) == Resolve([], text)
  {
    SlashWalks([], Posix(cwd), text);
    ResolveTwice([], cwd);
    assert Absolute(Posix(cwd)) && Absolute(Posix(cwd) + "/");
  }

  /* ---- what the checks read ---- */

  datatype Json = Null | Bool(value: bool) | Number | Text(text: string) | List(items: seq<Json>) | Object(fields: map<string, Json>)

  function Get(j: Json, key: string): Json {
    if j.Object? && key in j.fields then j.fields[key] else Null
  }

  /** The questions asked of the filesystem; document is None for unreadable or malformed JSON. */
  datatype FileSystem = FileSystem(
    cwd: Path,
    isFile: string -> bool,
    isDir: string -> bool,
    readable: string -> bool,
    writable: string -> bool,
    document: string -> Option<Json>,
    content: string -> Option<string>)

  type Environment = map<string, string>

  predicate Within(fs: FileSystem, text: string, root: string) {
    Inside(Resolve(fs.cwd, text), Resolve(fs.cwd, root))
  }

  const FORBIDDEN: set<Path> := {
    [], ["data"], ["config"], ["etc"], ["opt"], ["proc"], ["run"], ["run", "docker.sock"], ["srv"], ["sys"],
    ["tmp"], ["usr"], ["var"], ["var", "run"], ["var", "run", "docker.sock"] }

  datatype StorageFault = EmptyRoot | Unsupported | MissingMount | Unreadable | ReadOnlyNotBoolean | NotWritable

  datatype Problem =
    | ConfigurationMissing
    | NotJson
    | NotObject
    | DataMissing
    | DataNotWritable
    | DatabaseRelative
    | DatabaseOutside
    | HistoryRelative
    | HistoryOutside
    | Storage(index: nat, fault: StorageFault)
    | SecretsMissing(names: seq<string>)

  predicate NonBlank(j: Json) {
    j.Text? && PythonText.Strip(j.text) != ""
  }

  function Lower(c: char): char {
    if 'A' <= c <= 'Z' then c - 'A' + 'a' else c
  }

  /** No character outside ASCII case-folds to a letter of "local". */
  predicate IsLocal(item: Json) {
    var kind := Get(item, "type");
    item.Object? && kind.Text? && |kind.text| == 5 && forall i | 0 <= i < 5 :: Lower(kind.text[i]) == "local"[i]
  }

  predicate TokenName(j: Json) {
    j.Text? && EnvironmentFile.ValidName(j.text)
  }

  predicate EnabledPrincipal(item: Json) {
    item.Object? && ("enabled" in item.fields ==> item.fields["enabled"] == Bool(true)) && TokenName(Get(item, "tokenEnv"))
  }

  lemma AbsoluteIff(text: string)
    ensures Absolute(text) <==> exists rest :: text == "/" + rest
  {
    if Absolute(text) {
      assert text == "/" + text[1..];
    }
  }

  /** A member of an object; of anything else, or when it is absent, null. */
  lemma GetIs(j: Json, key: string)
    ensures j.Object? && key in j.fields ==> Get(j, key) == j.fields[key]
    ensures !(j.Object? && key in j.fields) ==> Get(j, key) == Null
  {
  }

  /** Text with something other than blanks in it. */
  lemma NonBlankIff(j: Json)
    ensures NonBlank(j) <==> j.Text? && exists i :: 0 <= i < |j.text| && !PythonText.Space(j.text[i])
  {
    if j.Text? {
      var a, b := PythonText.StripParts(j.text);
      var middle := PythonText.Strip(j.text);
      if middle != "" {
        assert j.text[|a|] == middle[0];
      }
    }
  }

  /** A Storage is local when its type reads "local" in either case, letter by letter. */
  lemma IsLocalIff(item: Json)
    ensures IsLocal(item) <==>
              && item.Object? && "type" in item.fields && item.fields["type"].Text?
              && var t := item.fields["type"].text;
                 && |t| == 5 && t[0] in {'l', 'L'} && t[1] in {'o', 'O'} && t[2] in {'c', 'C'} && t[3] in {'a', 'A'} && t[4] in {'l', 'L'}
  {
    LowerIs('l', 'L');
    LowerIs('o', 'O');
    LowerIs('c', 'C');
    LowerIs('a', 'A');
  }

  lemma LowerIs(small: char, capital: char)
    requires 'a' <= small <= 'z' && capital as int + 32 == small as int
    ensures forall c: char :: Lower(c) == small <==> c == small || c == capital
  {
    forall c: char ensures Lower(c) == small <==> c == small || c == capital {
      assert (c as int) as char == c;
    }
  }

  /** A principal counts unless it is disabled, by anything but true, and names its variable by a valid name. */
  lemma PrincipalIff(item: Json)
    ensures EnabledPrincipal(item) <==>
              && item.Object? && ("enabled" !in item.fields || item.fields["enabled"] == Bool(true))
              && "tokenEnv" in item.fields && item.fields["tokenEnv"].Text?
              && EnvironmentFile.ValidName(item.fields["tokenEnv"].text)
  {
  }

  /* ---- the errors, as values ---- */

  function VolumeProblems(fs: FileSystem, j: Json, data: string, relative: Problem, outside: Problem): seq<Problem> {
    if !NonBlank(j) then []
    else if !Absolute(j.text) then [relative]
    else if !Within(fs, j.text, data) then [outside]
    else []
  }

  function StorageProblems(fs: FileSystem, item: Json, index: nat, data: string): seq<Problem> {
    if !IsLocal(item) then []
    else
      var root := Get(item, "rootPath");
      if !NonBlank(root) then [Storage(index, EmptyRoot)]
      else
        var normalized := Resolve(fs.cwd, root.text);
        if !Absolute(root.text) || normalized in FORBIDDEN || Within(fs, Posix(normalized), data) then
          [Storage(index, Unsupported)]
        else if !fs.isDir(root.text) then [Storage(index, MissingMount)]
        else
          (if fs.readable(root.text) then [] else [Storage(index, Unreadable)]) + WriteProblems(fs, item, root.text, index)
  }

  function WriteProblems(fs: FileSystem, item: Json, root: string, index: nat): seq<Problem>
    requires item.Object?
  {
    if "readOnly" in item.fields && !item.fields["readOnly"].Bool? then [Storage(index, ReadOnlyNotBoolean)]
    else if Get(item, "readOnly") != Bool(true) && !fs.writable(root) then [Storage(index, NotWritable)]
    else []
  }

  function AllStorageProblems(fs: FileSystem, items: seq<Json>, data: string): seq<Problem>
    decreases |items|
  {
    if items == [] then []
    else
      var n := |items| - 1;
      AllStorageProblems(fs, items[..n], data) + StorageProblems(fs, items[n], n, data)
  }

  function PrincipalNames(items: seq<Json>): seq<string>
    decreases |items|
  {
    if items == [] then []
    else
      var n := |items| - 1;
      PrincipalNames(items[..n]) + if EnabledPrincipal(items[n]) then [Get(items[n], "tokenEnv").text] else []
  }

  function TokenNames(document: Json): seq<string> {
    var api := Get(document, "api");
    var principals := Get(api, "principals");
    if TokenName(Get(api, "tokenEnv")) then [Get(api, "tokenEnv").text]
    else if principals.List? then PrincipalNames(principals.items)
    else []
  }

  predicate Set(environment: Environment, name: string) {
    name in environment && environment[name] != ""
  }

  function Missing(names: seq<string>, environment: Environment): seq<string>
    decreases |names|
  {
    if names == [] then []
    else
      var n := |names| - 1;
      Missing(names[..n], environment) + if Set(environment, names[n]) then [] else [names[n]]
  }

  function DocumentProblems(fs: FileSystem, document: Json, data: string, environment: Environment, command: seq<string>)
    : seq<Problem>
  {
    var storages, missing := Get(document, "storages"), Missing(TokenNames(document), environment);
    (if !fs.isDir(data) then [DataMissing] else if !fs.writable(data) then [DataNotWritable] else [])
    + VolumeProblems(fs, Get(Get(document, "persistence"), "databasePath"), data, DatabaseRelative, DatabaseOutside)
    + VolumeProblems(fs, Get(document, "historyPath"), data, HistoryRelative, HistoryOutside)
    + (if storages.List? then AllStorageProblems(fs, storages.items, data) else [])
    + (if command != [] && command[0] == "api" && missing != [] then [SecretsMissing(missing)] else [])
  }

  function Problems(fs: FileSystem, config: string, data: string, environment: Environment, command: seq<string>): seq<Problem> {
    if !fs.isFile(config) then [ConfigurationMissing]
    else if fs.document(config).None? then [NotJson]
    else if !fs.document(config).value.Object? then [NotObject]
    else DocumentProblems(fs, fs.document(config).value, data, environment, command)
  }

  /* ---- the checks as they run ---- */

  method MissingSecrets(document: Json, environment: Environment) returns (missing: seq<string>)
    ensures missing == Missing(TokenNames(document), environment)
  {
    var api := Get(document, "api");
    var names := [];
    if TokenName(Get(api, "tokenEnv")) {
      names := [Get(api, "tokenEnv").text];
    } else if Get(api, "principals").List? {
      var items := Get(api, "principals").items;
      for i := 0 to |items|
        invariant names == PrincipalNames(items[..i])
      {
        assert items[..i + 1][..i] == items[..i];
        if EnabledPrincipal(items[i]) {
          names := names + [Get(items[i], "tokenEnv").text];
        }
      }
      assert items[..|items|] == items;
    }
    missing := [];
    for i := 0 to |names|
      invariant missing == Missing(names[..i], environment)
    {
      assert names[..i + 1][..i] == names[..i];
      if !Set(environment, names[i]) {
        missing := missing + [names[i]];
      }
    }
    assert names[..|names|] == names;
  }

  lemma OneMoreStorage(fs: FileSystem, items: seq<Json>, data: string, i: nat)
    requires i < |items|
    ensures AllStorageProblems(fs, items[..i + 1], data)
         == AllStorageProblems(fs, items[..i], data) + StorageProblems(fs, items[i], i, data)
  {
    assert items[..i + 1][..i] == items[..i];
  }

  method CheckStorages(fs: FileSystem, items: seq<Json>, data: string) returns (errors: seq<Problem>)
    ensures errors == AllStorageProblems(fs, items, data)
  {
    errors := [];
    for i := 0 to |items|
      invariant errors == AllStorageProblems(fs, items[..i], data)
    {
      var item := items[i];
      ghost var before := errors;
      OneMoreStorage(fs, items, data, i);
      if !IsLocal(item) {
        continue;
      }
      var root := Get(item, "rootPath");
      if !NonBlank(root) {
        errors := errors + [Storage(i, EmptyRoot)];
        continue;
      }
      var normalized := Resolve(fs.cwd, root.text);
      if !Absolute(root.text) || normalized in FORBIDDEN || Within(fs, Posix(normalized), data) {
        errors := errors + [Storage(i, Unsupported)];
        continue;
      }
      if !fs.isDir(root.text) {
        errors := errors + [Storage(i, MissingMount)];
        continue;
      }
      if !fs.readable(root.text) {
        errors := errors + [Storage(i, Unreadable)];
      }
      if "readOnly" in item.fields && !item.fields["readOnly"].Bool? {
        errors := errors + [Storage(i, ReadOnlyNotBoolean)];
      } else if Get(item, "readOnly") != Bool(true) && !fs.writable(root.text) {
        errors := errors + [Storage(i, NotWritable)];
      }
      assert errors == before + StorageProblems(fs, item, i, data);
    }
    assert items[..|items|] == items;
  }

  method Check(fs: FileSystem, config: string, data: string, environment: Environment, command: seq<string>)
    returns (errors: seq<Problem>)
    ensures errors == Problems(fs, config, data, environment, command)
  {
    if !fs.isFile(config) {
      return [ConfigurationMissing];
    }
    if fs.document(config).None? {
      return [NotJson];
    }
    var document := fs.document(config).value;
    if !document.Object? {
      return [NotObject];
    }
    errors := [];
    if !fs.isDir(data) {
      errors := [DataMissing];
    } else if !fs.writable(data) {
      errors := [DataNotWritable];
    }
    errors := errors + VolumeProblems(fs, Get(Get(document, "persistence"), "databasePath"), data, DatabaseRelative, DatabaseOutside);
    errors := errors + VolumeProblems(fs, Get(document, "historyPath"), data, HistoryRelative, HistoryOutside);
    if Get(document, "storages").List? {
      var faults := CheckStorages(fs, Get(document, "storages").items, data);
      errors := errors + faults;
    }
    if command != [] && command[0] == "api" {
      var missing := MissingSecrets(document, environment);
      if missing != [] {
        errors := errors + [SecretsMissing(missing)];
      }
    }
  }

  /* ---- what an empty list means ---- */

  predicate OnVolume(fs: FileSystem, j: Json, data: string) {
    NonBlank(j) ==> Absolute(j.text) && Within(fs, j.text, data)
  }

  /** A Local Storage whose root may be used: an existing, accessible mount apart from the volume. */
  predicate Mounted(fs: FileSystem, item: Json, data: string) {
    var root, readOnly := Get(item, "rootPath"), Get(item, "readOnly");
    && NonBlank(root) && Absolute(root.text)
    && Resolve(fs.cwd, root.text) !in FORBIDDEN && !Within(fs, root.text, data)
    && fs.isDir(root.text) && fs.readable(root.text)
    && (item.Object? && "readOnly" in item.fields ==> readOnly.Bool?)
    && (readOnly == Bool(true) || fs.writable(root.text))
  }

  /** The secrets the API needs: its own token, or else that of every enabled principal. */
  predicate NeedsSecret(document: Json, name: string) {
    var api := Get(document, "api");
    var own, principals := Get(api, "tokenEnv"), Get(api, "principals");
    if TokenName(own) then name == own.text
    else principals.List? && exists i | 0 <= i < |principals.items| ::
      EnabledPrincipal(principals.items[i]) && Get(principals.items[i], "tokenEnv").text == name
  }

  ghost predicate Deployable(fs: FileSystem, config: string, data: string, environment: Environment, command: seq<string>) {
    && fs.isFile(config) && fs.document(config).Some? && fs.document(config).value.Object?
    && fs.isDir(data) && fs.writable(data)
    && var document := fs.document(config).value;
    && OnVolume(fs, Get(Get(document, "persistence"), "databasePath"), data)
    && OnVolume(fs, Get(document, "historyPath"), data)
    && (Get(document, "storages").List? ==>
          forall item | item in Get(document, "storages").items && IsLocal(item) :: Mounted(fs, item, data))
    && (command != [] && command[0] == "api" ==> forall name | NeedsSecret(document, name) :: Set(environment, name))
  }

  lemma {:induction false} StoragesIff(fs: FileSystem, items: seq<Json>, data: string)
    requires ValidPath(fs.cwd)
    ensures AllStorageProblems(fs, items, data) == [] <==>
              forall item | item in items && IsLocal(item) :: Mounted(fs, item, data)
    decreases |items|
  {
    if items == [] {
    } else {
      var n := |items| - 1;
      StoragesIff(fs, items[..n], data);
      StorageIff(fs, items[n], n, data);
      assert items == items[..n] + [items[n]];
    }
  }

  lemma StorageIff(fs: FileSystem, item: Json, index: nat, data: string)
    requires ValidPath(fs.cwd)
    ensures StorageProblems(fs, item, index, data) == [] <==> (IsLocal(item) ==> Mounted(fs, item, data))
  {
    var root := Get(item, "rootPath");
    if NonBlank(root) {
      ResolvedIsNormal(fs.cwd, root.text);
      ResolveTwice(fs.cwd, Resolve(fs.cwd, root.text));
    }
  }

  predicate HasFault(fs: FileSystem, item: Json, data: string, fault: StorageFault) {
    var root, readOnly := Get(item, "rootPath"), Get(item, "readOnly");
    && IsLocal(item)
    && if !NonBlank(root) then fault.EmptyRoot?
       else if !Absolute(root.text) || Resolve(fs.cwd, root.text) in FORBIDDEN || Within(fs, root.text, data) then fault.Unsupported?
       else if !fs.isDir(root.text) then fault.MissingMount?
       else match fault
            case Unreadable => !fs.readable(root.text)
            case ReadOnlyNotBoolean => "readOnly" in item.fields && !readOnly.Bool?
            case NotWritable => !fs.writable(root.text) && ("readOnly" !in item.fields || readOnly == Bool(false))
            case _ => false
  }

  /** A Storage is blamed by its place in the document, for exactly the faults it has. */
  lemma {:induction false} StorageFaultsAre(fs: FileSystem, items: seq<Json>, data: string, i: nat, fault: StorageFault)
    requires ValidPath(fs.cwd)
    ensures Storage(i, fault) in AllStorageProblems(fs, items, data) <==> i < |items| && HasFault(fs, items[i], data, fault)
    decreases |items|
  {
    if items == [] {
    } else {
      var n := |items| - 1;
      StorageFaultsAre(fs, items[..n], data, i, fault);
      OneStorageFault(fs, items[n], n, data, i, fault);
    }
  }

  lemma OneStorageFault(fs: FileSystem, item: Json, index: nat, data: string, i: nat, fault: StorageFault)
    requires ValidPath(fs.cwd)
    ensures Storage(i, fault) in StorageProblems(fs, item, index, data) <==> i == index && HasFault(fs, item, data, fault)
  {
    var root := Get(item, "rootPath");
    if NonBlank(root) {
      ResolvedIsNormal(fs.cwd, root.text);
      ResolveTwice(fs.cwd, Resolve(fs.cwd, root.text));
    }
  }

  lemma {:induction false} PrincipalNamesAre(items: seq<Json>, name: string)
    ensures name in PrincipalNames(items) <==>
              exists i | 0 <= i < |items| :: EnabledPrincipal(items[i]) && Get(items[i], "tokenEnv").text == name
    decreases |items|
  {
    if items == [] {
    } else {
      var n := |items| - 1;
      PrincipalNamesAre(items[..n], name);
      assert forall i | 0 <= i < n :: items[..n][i] == items[i];
    }
  }

  lemma TokenNamesAre(document: Json, name: string)
    ensures name in TokenNames(document) <==> NeedsSecret(document, name)
  {
    var principals := Get(Get(document, "api"), "principals");
    if principals.List? {
      PrincipalNamesAre(principals.items, name);
    }
  }

  /** The report names exactly the needed secrets that are unset or empty. */
  lemma {:induction false} MissingAre(names: seq<string>, environment: Environment, name: string)
    ensures name in Missing(names, environment) <==> name in names && !Set(environment, name)
    decreases |names|
  {
    if names == [] {
    } else {
      var n := |names| - 1;
      MissingAre(names[..n], environment, name);
      assert names == names[..n] + [names[n]];
    }
  }

  /** No error is reported exactly when the deployment is right in every respect. */
  lemma NoProblemsIff(fs: FileSystem, config: string, data: string, environment: Environment, command: seq<string>)
    requires ValidPath(fs.cwd)
    ensures Problems(fs, config, data, environment, command) == [] <==> Deployable(fs, config, data, environment, command)
  {
    if fs.isFile(config) && fs.document(config).Some? && fs.document(config).value.Object? {
      var document := fs.document(config).value;
      if Get(document, "storages").List? {
        StoragesIff(fs, Get(document, "storages").items, data);
      }
      SecretsIff(document, environment);
    }
  }

  lemma SecretsIff(document: Json, environment: Environment)
    ensures Missing(TokenNames(document), environment) == [] <==>
              forall name | NeedsSecret(document, name) :: name in environment && environment[name] != ""
  {
    var missing := Missing(TokenNames(document), environment);
    forall name ensures name in missing <==> NeedsSecret(document, name) && !Set(environment, name) {
      TokenNamesAre(document, name);
      MissingAre(TokenNames(document), environment, name);
    }
    if missing != [] {
      assert missing[0] in missing;
    }
  }

  /* ---- how far the volume and the media roots are kept apart ---- */

  predicate RootAllowed(root: Path, data: Path) {
    root !in FORBIDDEN && !Inside(root, data)
  }

  /** An allowed media root can still lie above the volume. None does exactly when every directory
      above the volume is a forbidden root, as it is for the default /data. */
  lemma ApartIff(data: Path)
    ensures (forall root: Path | RootAllowed(root, data) :: !Inside(data, root))
       <==> (forall n | 0 <= n < |data| :: data[..n] in FORBIDDEN)
  {
    if forall root: Path | RootAllowed(root, data) :: !Inside(data, root) {
      forall n | 0 <= n < |data| ensures data[..n] in FORBIDDEN {
        assert Inside(data, data[..n]) && !Inside(data[..n], data);
      }
    } else {
      var root: Path :| RootAllowed(root, data) && Inside(data, root);
      assert root == data[..|root|];
      assert |root| == |data| ==> root == data;
    }
  }

  lemma DefaultVolumeIsApart(root: Path)
    requires RootAllowed(root, ["data"])
    ensures !Inside(["data"], root) && !Inside(root, ["data"])
  {
    ApartIff(["data"]);
    assert ["data"][..0] == [];
  }

  /** A volume kept inside the media library passes: /srv/media may hold /srv/media/state. */
  lemma VolumeInsideMediaAllowed()
    ensures RootAllowed(["srv", "media"], ["srv", "media", "state"])
    ensures Inside(["srv", "media", "state"], ["srv", "media"])
  {
    assert ["srv", "media", "state"][..2] == ["srv", "media"];
    assert ["srv", "media"][1] == "media";
  }

  /* ---- the two processes ---- */

  const ENV_FILE := "MEDIAFLOW_ENV_FILE"

  function Lookup(environment: Environment, name: string, default: string): string {
    if name in environment then environment[name] else default
  }

  /** What the environment file contributes; empty when none is named. */
  function FileValues(fs: FileSystem, environment: Environment): EnvironmentFile.Parsed {
    if !Set(environment, ENV_FILE) then EnvironmentFile.Loaded(map[])
    else
      var content := fs.content(environment[ENV_FILE]);
      if content.None? then EnvironmentFile.Unreadable else EnvironmentFile.Parse(content.value)
  }

  function ProblemsIn(fs: FileSystem, environment: Environment, command: seq<string>): seq<Problem> {
    Problems(fs, Lookup(environment, "MEDIAFLOW_CONFIG", "/config/mediaflow.json"),
             Lookup(environment, "MEDIAFLOW_DATA_DIR", "/data"), environment, command)
  }

  /** os.putenv refuses a value that holds a NUL character. */
  predicate Storable(values: Environment) {
    forall name | name in values :: '\0' !in values[name]
  }

  datatype Outcome =
    | Refused
    | Reported(errors: seq<Problem>)
    | NoCommand
    | Started(executable: string, args: seq<string>, environment: Environment)

  /** The entrypoint process: it writes the file's values into its own environment, then becomes the command. */
  class Entrypoint {
    var environ: Environment

    constructor (environment: Environment)
      ensures environ == environment
    {
      environ := environment;
    }

    /** os.environ.update: one assignment after another, until one is refused. */
    method Update(values: Environment) returns (ok: bool)
      modifies this
      ensures ok <==> Storable(values)
      ensures ok ==> environ == old(environ) + values
      ensures forall name | name in environ ::
                || (name in values && environ[name] == values[name])
                || (name in old(environ) && environ[name] == old(environ)[name])
    {
      var pending := values.Keys;
      while pending != {}
        invariant pending <= values.Keys
        invariant forall name | name in values.Keys - pending :: '\0' !in values[name]
        invariant environ == old(environ) + (map name | name in values && name !in pending :: values[name])
        decreases |pending|
      {
        var name :| name in pending;
        if '\0' in values[name] {
          return false;
        }
        environ := environ[name := values[name]];
        pending := pending - {name};
      }
      assert (map name | name in values && name !in pending :: values[name]) == values;
      ok := true;
    }

    method Run(fs: FileSystem, args: seq<string>) returns (outcome: Outcome)
      modifies this
      ensures outcome == EntrypointOutcome(fs, old(environ), args)
      ensures outcome.Started? ==> environ == outcome.environment
    {
      if Set(environ, ENV_FILE) {
        var parsed := EnvironmentFile.Load(fs.content(environ[ENV_FILE]));
        if !parsed.Loaded? {
          return Refused;
        }
        var ok := Update(parsed.values);
        if !ok {
          return Refused;
        }
      } else {
        assert environ + map[] == environ;
      }
      var errors := Check(fs, Lookup(environ, "MEDIAFLOW_CONFIG", "/config/mediaflow.json"),
                          Lookup(environ, "MEDIAFLOW_DATA_DIR", "/data"), environ, args);
      if errors != [] {
        return Reported(errors);
      }
      if args == [] {
        return NoCommand;
      }
      var executable := Lookup(environ, "MEDIAFLOW_COMMAND", "mediaflow");
      outcome := Started(executable, [executable] + args, environ);
    }
  }

  function EntrypointOutcome(fs: FileSystem, environment: Environment, args: seq<string>): Outcome {
    var file := FileValues(fs, environment);
    if !file.Loaded? || !Storable(file.values) then Refused
    else
      var all := environment + file.values;
      if ProblemsIn(fs, all, args) != [] then Reported(ProblemsIn(fs, all, args))
      else if args == [] then NoCommand
      else
        var executable := Lookup(all, "MEDIAFLOW_COMMAND", "mediaflow");
        Started(executable, [executable] + args, all)
  }

  datatype Service = Api | Worker | Scheduler | NotificationWorker

  function Command(service: Service): seq<string> {
    match service
    case Api => ["api", "serve-production"]
    case Worker => ["worker", "run"]
    case Scheduler => ["scheduler", "run"]
    case NotificationWorker => ["notification-worker", "run"]
  }

  /** The probe's preflight: None when the environment file is refused, otherwise its error list. */
  method Probe(fs: FileSystem, environ: Environment, service: Service) returns (errors: Option<seq<Problem>>)
    ensures errors == ProbeErrors(fs, environ, service)
  {
    var environment := environ;
    if Set(environment, ENV_FILE) {
      var parsed := EnvironmentFile.Load(fs.content(environment[ENV_FILE]));
      if !parsed.Loaded? {
        return None;
      }
      environment := environment + parsed.values;
    } else {
      assert environ + map[] == environ;
    }
    var list := Check(fs, Lookup(environment, "MEDIAFLOW_CONFIG", "/config/mediaflow.json"),
                      Lookup(environment, "MEDIAFLOW_DATA_DIR", "/data"), environment, Command(service));
    errors := Some(list);
  }

  function ProbeErrors(fs: FileSystem, environment: Environment, service: Service): Option<seq<Problem>> {
    var file := FileValues(fs, environment);
    if !file.Loaded? then None else Some(ProblemsIn(fs, environment + file.values, Command(service)))
  }

  predicate StartsService(args: seq<string>, service: Service) {
    args != [] && args[0] == Command(service)[0]
  }

  lemma FirstWordDecides(fs: FileSystem, environment: Environment, a: seq<string>, b: seq<string>)
    requires a != [] && b != [] && a[0] == b[0]
    ensures ProblemsIn(fs, environment, a) == ProblemsIn(fs, environment, b)
  {
  }

  predicate Agree(outcome: Outcome, errors: Option<seq<Problem>>) {
    match outcome
    case Refused => errors.None?
    case Reported(list) => errors == Some(list)
    case Started(_, _, _) => errors == Some([])
    case NoCommand => false
  }

  /** For every argument list of the service the two reach the same verdict with the same errors, but
      for one kind of environment file: a value that holds a NUL character stops only the entrypoint. */
  lemma AgreementIff(fs: FileSystem, environment: Environment, args: seq<string>, service: Service)
    requires StartsService(args, service)
    ensures Agree(EntrypointOutcome(fs, environment, args), ProbeErrors(fs, environment, service)) <==>
            (FileValues(fs, environment).Loaded? ==> Storable(FileValues(fs, environment).values))
  {
    if FileValues(fs, environment).Loaded? {
      FirstWordDecides(fs, environment + FileValues(fs, environment).values, args, Command(service));
    }
  }

  /** The started service carries the file's values already; a probe run inside it reads the same
      file again and reaches the same list, unless the file itself renames the file. */
  lemma ProbeInsideService(fs: FileSystem, environment: Environment, args: seq<string>, service: Service)
    requires EntrypointOutcome(fs, environment, args).Started? && StartsService(args, service)
    requires ENV_FILE in FileValues(fs, environment).values ==>
               Lookup(environment, ENV_FILE, "") == FileValues(fs, environment).values[ENV_FILE]
    ensures ProbeErrors(fs, EntrypointOutcome(fs, environment, args).environment, service) == Some([])
  {
    var values := FileValues(fs, environment).values;
    var all := environment + values;
    assert Set(all, ENV_FILE) == Set(environment, ENV_FILE);
    assert FileValues(fs, all) == FileValues(fs, environment);
    assert all + values == all;
    FirstWordDecides(fs, all, args, Command(service));
  }
}

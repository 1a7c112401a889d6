/**
 * The legacy-script migration of `commands/migrate.js`: every named top-level
 * function declaration of a parsed script is exported from a file of its own,
 * under `src/` for the six hook names of the module API and under `src/utils/`
 * for everything else, and two index files re-export them all.
 *
 * The parser is outside the model: a run receives its result as a
 * `ParseResult`. The disk is a `FileSystem.Disk`; paths are relative to the
 * working directory.
 */
module Migrate {
  import opened Wrappers
  import opened JsStrings
  import opened FileSystem

  /** The six hooks a module's script exposes to the host application (case-sensitive). */
  const ApiFuncs: set<string> := {
    "searchResults",
    "extractDetails",
    "extractEpisodes",
    "extractStreamUrl",
    "extractChapters",
    "extractImages"
  }

  predicate IsApi(name: string) {
    name in ApiFuncs
  }

  const SrcDir: string := "src"
  const UtilDir: string := "src/utils"
  const UtilIndexPath: string := "src/utils/index.js"
  const ModuleIndexPath: string := "src/index.js"

  const AsyncMarker: string := "async function"
  const FunctionMarker: string := "function"
  const ExportMarker: string := "export "
  const UtilReexport: string := "export * from \"./utils/index.js\";"

  /** A top-level statement of the parsed script, with the offsets of its source text. */
  datatype Node =
    | FunctionDeclaration(id: Option<string>, start: nat, end: nat)
    | OtherStatement

  /** What the parser hands over: its diagnostic, or the statements of the script body in order. */
  datatype ParseResult = SyntaxError(message: string) | Program(body: seq<Node>)

  /** How a run ends: exit status 1 for the first two, 0 for the last. */
  datatype Outcome =
    | ParseFailed(message: string)
    | NoFunctionsMigrated
    | Migrated(apiCount: nat, utilCount: nat)

  /**
   * The name under which a statement is migrated: only function declarations
   * with an identifier count, and an empty name is falsy and skipped too.
   */
  function NameOf(node: Node): Option<string> {
    match node
    case FunctionDeclaration(Some(name), _, _) => if name == "" then None else Some(name)
    case _ => None
  }

  /** The file a migrated function is written to. */
  function OutPath(name: string): string {
    (if IsApi(name) then SrcDir else UtilDir) + "/" + Lower(name) + ".js"
  }

  /** An API function lands directly in `src/`, never in `src/utils/`. */
  lemma ApiPathOutsideUtils(name: string)
    requires IsApi(name)
    ensures OutPath(name) == SrcDir + "/" + Lower(name) + ".js"
    ensures !StartsWith(OutPath(name), UtilDir + "/")
  {
    assert name[0] == 's' || name[0] == 'e';
    assert OutPath(name)[4] == Lower(name)[0];
  }

  lemma ApiPathNotUtilIndex(name: string)
    requires IsApi(name)
    ensures OutPath(name) != UtilIndexPath
  {
    ApiPathOutsideUtils(name);
    assert StartsWith(UtilIndexPath, UtilDir + "/");
  }

  /**
   * The exported text of a declaration: "export " goes in front of the first
   * "async function" when the slice starts with it, otherwise in front of the
   * first "function" (if any); nothing else changes.
   */
  function Rewrite(raw: string): (exported: string)
    ensures StartsWith(raw, AsyncMarker) || StartsWith(raw, FunctionMarker) ==>
              exported == ExportMarker + raw
    ensures !StartsWith(raw, AsyncMarker) ==>
              match IndexOf(raw, FunctionMarker)
              case None => exported == raw
              case Some(i) => exported == raw[..i] + ExportMarker + raw[i..]
  {
    if StartsWith(raw, AsyncMarker) then
      PrefixIsFirstMatch(raw, AsyncMarker);
      InsertBefore(raw, AsyncMarker, 0, ExportMarker);
      assert raw[..0] == [] && raw[0..] == raw;
      ReplaceFirst(raw, AsyncMarker, ExportMarker + AsyncMarker)
    else
      match IndexOf(raw, FunctionMarker)
      case None => ReplaceFirst(raw, FunctionMarker, ExportMarker + FunctionMarker)
      case Some(i) =>
        InsertBefore(raw, FunctionMarker, i, ExportMarker);
        PrefixIsFirstMatch(raw, FunctionMarker);
        assert raw[..0] + ExportMarker + raw[0..] == ExportMarker + raw;
        ReplaceFirst(raw, FunctionMarker, ExportMarker + FunctionMarker)
  }

  lemma PrefixIsFirstMatch(s: string, pat: string)
    ensures StartsWith(s, pat) ==> IndexOf(s, pat) == Some(0)
  {
  }

  /**
   * An async declaration written with more than one space between `async` and
   * `function` does not start with "async function", so the marker goes in
   * front of `function`, after `async`.
   */
  lemma RewriteSpacedAsync(gap: string, rest: string)
    requires |gap| >= 2 && forall k :: 0 <= k < |gap| ==> gap[k] == ' '
    ensures Rewrite("async" + gap + FunctionMarker + rest) == "async" + gap + ExportMarker + FunctionMarker + rest
  {
    var raw := "async" + gap + FunctionMarker + rest;
    var i := 5 + |gap|;
    assert raw[6] == ' ';
    assert !StartsWith(raw, AsyncMarker);
    assert raw[i..i + |FunctionMarker|] == FunctionMarker;
    forall j: nat | j < i ensures !OccursAt(raw, FunctionMarker, j) {
      assert raw[j] != 'f';
    }
    assert OccursAt(raw, FunctionMarker, i);
    match IndexOf(raw, FunctionMarker)
    case Some(k) =>
      assert k == i;
      assert raw[..i] == "async" + gap;
      assert raw[i..] == FunctionMarker + rest;
  }

  /** What the extraction loop has accumulated: the two name sets in insertion order, the counter and the disk. */
  datatype Extraction = Extraction(api: seq<string>, utils: seq<string>, migrated: nat, files: map<string, string>)

  /** One pass of the loop body over one statement. */
  function Step(code: string, x: Extraction, node: Node): Extraction {
    match NameOf(node)
    case None => x
    case Some(name) =>
      if name in x.api || name in x.utils then x
      else
        var exported := Rewrite(Slice(code, node.start, node.end));
        var files := x.files[OutPath(name) := exported + "\n"];
        if IsApi(name) then Extraction(x.api + [name], x.utils, x.migrated + 1, files)
        else Extraction(x.api, x.utils + [name], x.migrated + 1, files)
  }

  /** The state after the loop has run over `body`, starting from empty sets and the disk `files0`. */
  function Extract(code: string, files0: map<string, string>, body: seq<Node>): Extraction
    decreases |body|
  {
    if |body| == 0 then Extraction([], [], 0, files0)
    else Step(code, Extract(code, files0, body[..|body| - 1]), body[|body| - 1])
  }

  /** The names of the named function declarations of `body`, in source order, repeats included. */
  function DeclNames(body: seq<Node>): seq<string>
    decreases |body|
  {
    if |body| == 0 then []
    else
      DeclNames(body[..|body| - 1]) +
      match NameOf(body[|body| - 1])
      case None => []
      case Some(name) => [name]
  }

  predicate Distinct(s: seq<string>) {
    forall i, j :: 0 <= i < j < |s| ==> s[i] != s[j]
  }

  /**
   * The registry invariant: two duplicate-free, disjoint sets whose sizes add
   * up to the counter; the API set holds exactly the declared names that are
   * hooks and the utility set exactly the others.
   */
  ghost predicate Registered(x: Extraction, names: seq<string>) {
    && Distinct(x.api)
    && Distinct(x.utils)
    && (forall n :: n in x.api ==> n !in x.utils)
    && x.migrated == |x.api| + |x.utils|
    && (forall n :: n in x.api <==> n in names && IsApi(n))
    && (forall n :: n in x.utils <==> n in names && !IsApi(n))
  }

  lemma {:induction false} ExtractRegistry(code: string, files0: map<string, string>, body: seq<Node>)
    ensures Registered(Extract(code, files0, body), DeclNames(body))
    decreases |body|
  {
    if |body| > 0 {
      ExtractRegistry(code, files0, body[..|body| - 1]);
    }
  }

  /** Each set lists its names in the order of their first declaration. */
  predicate InFirstSeenOrder(s: seq<string>, names: seq<string>) {
    forall i, j :: 0 <= i < j < |s| ==> FirstIndex(names, s[i]) < FirstIndex(names, s[j])
  }

  lemma {:induction false} ExtractOrder(code: string, files0: map<string, string>, body: seq<Node>)
    ensures InFirstSeenOrder(Extract(code, files0, body).api, DeclNames(body))
    ensures InFirstSeenOrder(Extract(code, files0, body).utils, DeclNames(body))
    decreases |body|
  {
    if |body| > 0 {
      var prefix := body[..|body| - 1];
      var xp := Extract(code, files0, prefix);
      var np := DeclNames(prefix);
      ExtractOrder(code, files0, prefix);
      ExtractRegistry(code, files0, prefix);
      match NameOf(body[|body| - 1])
      case None =>
        assert DeclNames(body) == np + [];
        assert np + [] == np;
        assert Extract(code, files0, body) == xp;
      case Some(name) =>
        assert DeclNames(body) == np + [name];
        var x := Extract(code, files0, body);
        assert x == Step(code, xp, body[|body| - 1]);
        if name in np {
          assert x == xp;
          OrderKeptByLaterNames(xp.api, np, name);
          OrderKeptByLaterNames(xp.utils, np, name);
        } else if IsApi(name) {
          assert x.api == xp.api + [name] && x.utils == xp.utils;
          OrderKeptByNewName(xp.api, np, name);
          OrderKeptByLaterNames(xp.utils, np, name);
        } else {
          assert x.api == xp.api && x.utils == xp.utils + [name];
          OrderKeptByLaterNames(xp.api, np, name);
          OrderKeptByNewName(xp.utils, np, name);
        }
    }
  }

  /** A name declared later does not reorder the names seen before it. */
  lemma OrderKeptByLaterNames(s: seq<string>, names: seq<string>, name: string)
    requires forall a :: a in s ==> a in names
    requires InFirstSeenOrder(s, names)
    ensures InFirstSeenOrder(s, names + [name])
  {
    forall a | a in names ensures FirstIndex(names + [name], a) == FirstIndex(names, a) {
      FirstIndexAppend(names, [name], a);
    }
  }

  /** A name seen for the first time comes after all names seen before it. */
  lemma OrderKeptByNewName(s: seq<string>, names: seq<string>, name: string)
    requires forall a :: a in s ==> a in names
    requires InFirstSeenOrder(s, names)
    requires name !in names
    ensures InFirstSeenOrder(s + [name], names + [name])
  {
    OrderKeptByLaterNames(s, names, name);
    FirstIndexAppendNew(names, name);
    forall i, j | 0 <= i < j < |s + [name]|
      ensures FirstIndex(names + [name], (s + [name])[i]) < FirstIndex(names + [name], (s + [name])[j])
    {
      if j == |s| {
        assert s[i] in names;
      } else {
        assert (s + [name])[i] == s[i] && (s + [name])[j] == s[j];
      }
    }
  }

  /** Statements that are not named function declarations change nothing: dropping them all gives the same run. */
  function NamedOnly(body: seq<Node>): (named: seq<Node>)
    ensures forall node :: node in named ==> NameOf(node).Some?
    decreases |body|
  {
    if |body| == 0 then []
    else if NameOf(body[|body| - 1]).Some? then NamedOnly(body[..|body| - 1]) + [body[|body| - 1]]
    else NamedOnly(body[..|body| - 1])
  }

  lemma {:induction false} SkippedStatementsChangeNothing(code: string, files0: map<string, string>, body: seq<Node>)
    ensures Extract(code, files0, NamedOnly(body)) == Extract(code, files0, body)
    ensures DeclNames(NamedOnly(body)) == DeclNames(body)
    decreases |body|
  {
    if |body| > 0 {
      var prefix := body[..|body| - 1];
      SkippedStatementsChangeNothing(code, files0, prefix);
      if NameOf(body[|body| - 1]).Some? {
        var named := NamedOnly(prefix) + [body[|body| - 1]];
        assert named[..|named| - 1] == NamedOnly(prefix);
      }
    }
  }

  /** A later declaration of a name already migrated is dropped: it changes neither the sets, the counter nor the disk. */
  lemma {:induction false} DuplicateChangesNothing(code: string, files0: map<string, string>, body: seq<Node>, node: Node)
    requires NameOf(node).Some? && NameOf(node).value in DeclNames(body)
    ensures Extract(code, files0, body + [node]) == Extract(code, files0, body)
  {
    ExtractRegistry(code, files0, body);
    assert (body + [node])[..|body|] == body;
  }

  /** Paths that no declared name maps to keep their old contents (or stay absent). */
  lemma {:induction false} ExtractLeavesOtherPaths(code: string, files0: map<string, string>, body: seq<Node>, p: string)
    requires forall n :: n in DeclNames(body) ==> OutPath(n) != p
    ensures p in Extract(code, files0, body).files <==> p in files0
    ensures p in files0 ==> Extract(code, files0, body).files[p] == files0[p]
    decreases |body|
  {
    if |body| > 0 {
      ExtractLeavesOtherPaths(code, files0, body[..|body| - 1], p);
    }
  }

  /** Every declared name has its file on disk after the loop. */
  lemma {:induction false} ExtractWritesEveryName(code: string, files0: map<string, string>, body: seq<Node>)
    ensures forall n :: n in DeclNames(body) ==> OutPath(n) in Extract(code, files0, body).files
    decreases |body|
  {
    if |body| > 0 {
      var prefix := body[..|body| - 1];
      ExtractWritesEveryName(code, files0, prefix);
      ExtractRegistry(code, files0, prefix);
    }
  }

  /** The declaration at `k` is the first one named `n` and so is migrated. */
  predicate AcceptedAt(body: seq<Node>, k: nat) {
    k < |body| && NameOf(body[k]).Some? && NameOf(body[k]).value !in DeclNames(body[..k])
  }

  /**
   * The file of a migrated declaration holds its source slice, rewritten and
   * followed by a newline, unless a later migrated declaration is written to
   * the same path (two names that differ only in case): the last write wins.
   */
  lemma {:induction false} ExtractedFileContents(code: string, files0: map<string, string>, body: seq<Node>, k: nat)
    requires AcceptedAt(body, k)
    requires forall j :: k < j < |body| && AcceptedAt(body, j) ==>
               OutPath(NameOf(body[j]).value) != OutPath(NameOf(body[k]).value)
    ensures OutPath(NameOf(body[k]).value) in Extract(code, files0, body).files
    ensures Extract(code, files0, body).files[OutPath(NameOf(body[k]).value)]
         == Rewrite(Slice(code, body[k].start, body[k].end)) + "\n"
    decreases |body|
  {
    var prefix := body[..|body| - 1];
    ExtractRegistry(code, files0, prefix);
    if |body| - 1 > k {
      assert prefix[..k] == body[..k];
      forall j | k < j < |prefix| && AcceptedAt(prefix, j)
        ensures OutPath(NameOf(prefix[j]).value) != OutPath(NameOf(prefix[k]).value)
      {
        assert prefix[..j] == body[..j];
        assert AcceptedAt(body, j);
      }
      ExtractedFileContents(code, files0, prefix, k);
      assert prefix == body[..|body| - 1];
      if AcceptedAt(body, |body| - 1) {
        assert body[..|body| - 1] == prefix;
      }
    } else {
      assert prefix == body[..k];
    }
  }

  /** The counter is zero exactly when the script declares no named function, and then nothing was written. */
  lemma {:induction false} ZeroMigrated(code: string, files0: map<string, string>, body: seq<Node>)
    ensures Extract(code, files0, body).migrated == 0 <==> DeclNames(body) == []
    ensures Extract(code, files0, body).migrated == 0 ==> Extract(code, files0, body).files == files0
  {
    var x := Extract(code, files0, body);
    ExtractRegistry(code, files0, body);
    if DeclNames(body) != [] {
      var n := DeclNames(body)[0];
      assert n in x.api || n in x.utils;
    } else {
      MembersOfEmpty(x.api, DeclNames(body));
      MembersOfEmpty(x.utils, DeclNames(body));
      forall p ensures (p in x.files <==> p in files0) && (p in files0 ==> x.files[p] == files0[p]) {
        ExtractLeavesOtherPaths(code, files0, body, p);
      }
      assert x.files.Keys == files0.Keys;
      assert forall p :: p in x.files ==> x.files[p] == files0[p];
    }
  }

  lemma MembersOfEmpty(s: seq<string>, t: seq<string>)
    requires forall n :: n in s ==> n in t
    ensures |t| == 0 ==> |s| == 0
  {
    if |s| > 0 {
      assert s[0] in t;
    }
  }

  /** `export { N } from "./n.js";` for a name N whose file is n.js. */
  function ExportLine(name: string): string {
    "export { " + name + " } from \"./" + Lower(name) + ".js\";"
  }

  function ExportLines(names: seq<string>): (lines: seq<string>)
    ensures |lines| == |names|
  {
    seq(|names|, i requires 0 <= i < |names| => ExportLine(names[i]))
  }

  /** The contents of `src/utils/index.js`. */
  function UtilIndex(utils: seq<string>): string {
    Join(ExportLines(utils), "\n") + "\n"
  }

  /** The contents of `src/index.js`: an empty string stands in for the utility line when there are no utilities. */
  function ModuleIndex(api: seq<string>, utils: seq<string>): string {
    Join(ExportLines(api) + [if |utils| > 0 then UtilReexport else ""], "\n") + "\n"
  }

  /** The disk after the index files are written. */
  function Indexed(files: map<string, string>, api: seq<string>, utils: seq<string>): map<string, string> {
    var withUtil := if |utils| > 0 then files[UtilIndexPath := UtilIndex(utils)] else files;
    withUtil[ModuleIndexPath := ModuleIndex(api, utils)]
  }

  /**
   * The index files line by line: the utility index has one export line per
   * utility, each ending in a newline; the module index has one per API
   * function, then the re-export of the utility index, or an empty line when
   * there are no utilities. No other file changes, and the utility index is
   * written only when there are utilities.
   */
  lemma IndexFiles(files: map<string, string>, api: seq<string>, utils: seq<string>)
    ensures Indexed(files, api, utils)[ModuleIndexPath]
         == Lines(ExportLines(api)) + (if |utils| > 0 then UtilReexport + "\n" else "\n")
    ensures |utils| > 0 ==> Indexed(files, api, utils)[UtilIndexPath] == Lines(ExportLines(utils))
    ensures |utils| == 0 ==> Indexed(files, api, utils) == files[ModuleIndexPath := Indexed(files, api, utils)[ModuleIndexPath]]
    ensures forall p :: p != ModuleIndexPath && p != UtilIndexPath ==>
              (p in Indexed(files, api, utils) <==> p in files)
              && (p in files ==> Indexed(files, api, utils)[p] == files[p])
  {
    var last := if |utils| > 0 then UtilReexport else "";
    JoinThenNewline(ExportLines(api) + [last]);
    LinesSnoc(ExportLines(api), last);
    if |utils| > 0 {
      JoinThenNewline(ExportLines(utils));
    }
  }

  /** With no utilities, `src/utils/index.js` is neither created nor changed by the loop. */
  lemma {:induction false} NoUtilitiesNoUtilIndex(code: string, files0: map<string, string>, body: seq<Node>)
    requires |Extract(code, files0, body).utils| == 0
    ensures UtilIndexPath in Extract(code, files0, body).files <==> UtilIndexPath in files0
    ensures UtilIndexPath in files0 ==> Extract(code, files0, body).files[UtilIndexPath] == files0[UtilIndexPath]
  {
    ExtractRegistry(code, files0, body);
    forall n | n in DeclNames(body) ensures OutPath(n) != UtilIndexPath {
      assert IsApi(n);
      ApiPathNotUtilIndex(n);
    }
    ExtractLeavesOtherPaths(code, files0, body, UtilIndexPath);
  }

  /** Creating `src/utils` recursively leaves both `src` and `src/utils` on disk. */
  lemma UtilDirAncestry()
    ensures Ancestry(UtilDir) == {SrcDir, UtilDir}
  {
    assert UtilDir[3] == '/';
    assert UtilDir[..3] == SrcDir;
    forall d | d in Ancestry(UtilDir) ensures d == SrcDir || d == UtilDir {
      if d != UtilDir {
        var i :| 0 < i < |UtilDir| && UtilDir[i] == '/' && d == UtilDir[..i];
        assert i == 3;
      }
    }
  }

  /** The extraction loop of the script over the top-level statements, writing each migrated function to `disk`. */
  method ExtractFunctions(disk: Disk, code: string, body: seq<Node>)
    returns (api: seq<string>, utils: seq<string>, migrated: nat)
    modifies disk
    ensures Extraction(api, utils, migrated, disk.files) == Extract(code, old(disk.files), body)
    ensures disk.dirs == old(disk.dirs)
  {
    api, utils, migrated := [], [], 0;
    var i := 0;
    while i < |body|
      invariant 0 <= i <= |body|
      invariant Extraction(api, utils, migrated, disk.files) == Extract(code, old(disk.files), body[..i])
      invariant disk.dirs == old(disk.dirs)
    {
      var node := body[i];
      assert body[..i + 1][..i] == body[..i];
      i := i + 1;
      if !node.FunctionDeclaration? {
        continue;
      }
      if node.id.None? || node.id.value == "" {
        continue;
      }
      var name := node.id.value;
      if name in api || name in utils {
        continue;
      }
      var raw := Slice(code, node.start, node.end);
      var exported := Rewrite(raw);
      var isApi := IsApi(name);
      disk.WriteFile(OutPath(name), exported + "\n");
      if isApi {
        api := api + [name];
      } else {
        utils := utils + [name];
      }
      migrated := migrated + 1;
    }
    assert body[..|body|] == body;
  }

  /** Writes the utility index (when there are utilities) and then the module index. */
  method WriteIndexes(disk: Disk, api: seq<string>, utils: seq<string>)
    modifies disk
    ensures disk.files == Indexed(old(disk.files), api, utils)
    ensures disk.dirs == old(disk.dirs)
  {
    if |utils| > 0 {
      disk.WriteFile(UtilIndexPath, Join(ExportLines(utils), "\n") + "\n");
    }
    var last := if |utils| > 0 then UtilReexport else "";
    disk.WriteFile(ModuleIndexPath, Join(ExportLines(api) + [last], "\n") + "\n");
  }

  /**
   * One run of the migration on a script already handed to the parser. A
   * syntax error stops the run before anything is written; otherwise
   * `src/utils` is created first, whatever follows, and a run that migrates
   * nothing stops after the loop without writing the index files.
   */
  method Migrate(disk: Disk, code: string, parsed: ParseResult) returns (outcome: Outcome)
    modifies disk
    ensures parsed.SyntaxError? ==>
              outcome == ParseFailed(parsed.message) && disk.files == old(disk.files) && disk.dirs == old(disk.dirs)
    ensures parsed.Program? ==> disk.dirs == old(disk.dirs) + Ancestry(UtilDir)
    ensures parsed.Program? ==>
              var x := Extract(code, old(disk.files), parsed.body);
              if x.migrated == 0 then outcome == NoFunctionsMigrated && disk.files == x.files
              else outcome == Migrated(|x.api|, |x.utils|) && disk.files == Indexed(x.files, x.api, x.utils)
  {
    match parsed
    case SyntaxError(message) =>
      outcome := ParseFailed(message);
    case Program(body) =>
      disk.MakeDirRecursive(UtilDir);
      var api, utils, migrated := ExtractFunctions(disk, code, body);
      if migrated == 0 {
        outcome := NoFunctionsMigrated;
        return;
      }
      WriteIndexes(disk, api, utils);
      outcome := Migrated(|api|, |utils|);
  }
}

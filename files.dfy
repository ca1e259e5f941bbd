/**
 * The file system as the installer sees it: a map from path to entry. A scenario file's
 * entry carries what YAML.load_file makes of it. Symbolic links are resolved one level
 * deep, which stands in for File.realpath; paths are taken to be already canonical.
 */
module Files {
  import opened Outcomes
  import opened Text

  type Path = string

  /** A hash key of a loaded YAML file: a Ruby symbol (`:answer_file`) or a plain string. */
  datatype Key = Sym(name: string) | StrKey(text: string)

  /** The YAML scalars the scenario files use. */
  datatype Value = Nil | Bool(b: bool) | Str(s: string) {
    /** Ruby's to_s. */
    function ToS(): string {
      match this
      case Nil => ""
      case Bool(b) => if b then "true" else "false"
      case Str(s) => s
    }

    /** Ruby truthiness: everything but nil and false. */
    predicate Truthy() {
      !Nil? && this != Bool(false)
    }
  }

  /** What YAML.load_file yields for a file: a hash, a syntax error, or some other document. */
  datatype ParseResult = Hash(fields: map<Key, Value>) | SyntaxError(message: string) | NotAHash

  datatype Entry = Directory | Regular(content: ParseResult) | Symlink(target: Path)

  type FileMap = map<Path, Entry>

  /** The file system, shared by everything that reads or writes files during a run. */
  class FileSystem {
    var entries: FileMap

    constructor (entries: FileMap)
      ensures this.entries == entries
    {
      this.entries := entries;
    }
  }

  /** The path `p` stands for after following one link; None for a missing path or a broken link (a link to a link counts as broken). */
  function Resolve(fs: FileMap, p: Path): (r: Option<Path>)
    ensures r.Some? ==> r.value in fs && !fs[r.value].Symlink?
  {
    if p !in fs then None
    else match fs[p]
      case Symlink(t) => if t in fs && !fs[t].Symlink? then Some(t) else None
      case _ => Some(p)
  }

  /** File.exist?: the path, links followed, names something. */
  predicate Exists(fs: FileMap, p: Path) {
    Resolve(fs, p).Some?
  }

  /** File.file?: the path, links followed, names a regular file. */
  predicate IsFile(fs: FileMap, p: Path) {
    Exists(fs, p) && fs[Resolve(fs, p).value].Regular?
  }

  /** File.symlink?: the path itself is a link, broken or not. */
  predicate IsSymlink(fs: FileMap, p: Path) {
    p in fs && fs[p].Symlink?
  }

  /** File.realpath of an existing path. */
  function Realpath(fs: FileMap, p: Path): (canonical: Path)
    requires Exists(fs, p)
    ensures canonical in fs && !fs[canonical].Symlink?
    ensures fs[p].Symlink? ==> canonical == fs[p].target
    ensures !fs[p].Symlink? ==> canonical == p
  {
    Resolve(fs, p).value
  }

  /** What YAML.load_file reads from a regular file. */
  function Load(fs: FileMap, p: Path): ParseResult
    requires IsFile(fs, p)
  {
    fs[Resolve(fs, p).value].content
  }

  /** The path without its trailing run of '/': the longest prefix not ending with '/'. */
  function TrimTrailingSlashes(p: Path): (trimmed: Path)
    ensures |trimmed| <= |p| && p[..|trimmed|] == trimmed
    ensures trimmed == [] || trimmed[|trimmed| - 1] != '/'
    ensures forall k :: |trimmed| <= k < |p| ==> p[k] == '/'
    decreases |p|
  {
    if |p| > 0 && p[|p| - 1] == '/' then TrimTrailingSlashes(p[..|p| - 1]) else p
  }

  /**
   * File.join of a directory and a name. A name starting with '/' replaces the
   * directory's trailing slashes; any other name gets a '/' in front of it unless the
   * directory already ends with one.
   */
  function Join(dir: Path, name: string): Path {
    if |name| > 0 && name[0] == '/' then TrimTrailingSlashes(dir) + name
    else if |dir| > 0 && dir[|dir| - 1] == '/' then dir + name
    else dir + "/" + name
  }

  /** A run of `n` slashes. */
  function Slashes(n: nat): (s: Path)
    ensures |s| == n && forall k :: 0 <= k < n ==> s[k] == '/'
  {
    seq(n, _ => '/')
  }

  /** Trimming undoes appending slashes to a path that does not end with one. */
  lemma TrimAppendedSlashes(dir: Path, n: nat)
    requires dir == [] || dir[|dir| - 1] != '/'
    ensures TrimTrailingSlashes(dir + Slashes(n)) == dir
  {
    var p := dir + Slashes(n);
    var t := TrimTrailingSlashes(p);
    assert |dir| > 0 ==> p[|dir| - 1] == dir[|dir| - 1];
    assert |t| > 0 ==> t[|t| - 1] == p[|t| - 1];
    if |t| != |dir| {
      assert false;
    }
    assert t == p[..|dir|] == dir;
  }

  /**
   * A name starting with '/' meets the directory at that one slash, however many the
   * directory ends with; a plain name meets a directory with at most one trailing slash at
   * exactly one.
   */
  lemma JoinMeetsAtOneSlash(dir: Path, n: nat, name: string)
    requires dir == [] || dir[|dir| - 1] != '/'
    requires name == [] || name[0] != '/'
    ensures Join(dir + Slashes(n), "/" + name) == dir + "/" + name
    ensures Join(dir + "/", name) == dir + "/" + name
    ensures Join(dir, name) == dir + "/" + name
  {
    TrimAppendedSlashes(dir, n);
    assert ("/" + name)[0] == '/';
    assert (dir + "/")[|dir + "/"| - 1] == '/';
  }

  /** Position of the last '/' of a path. */
  function LastSlash(p: Path): (r: Option<nat>)
    ensures r.Some? ==> r.value < |p| && p[r.value] == '/'
    ensures r.Some? ==> forall k :: r.value < k < |p| ==> p[k] != '/'
    ensures r.None? ==> forall k :: 0 <= k < |p| ==> p[k] != '/'
    decreases |p|
  {
    if |p| == 0 then None
    else if p[|p| - 1] == '/' then Some(|p| - 1)
    else LastSlash(p[..|p| - 1])
  }

  /** File.dirname (consecutive slashes are not collapsed). */
  function Dirname(p: Path): Path {
    match LastSlash(p)
    case None => "."
    case Some(0) => "/"
    case Some(i) => p[..i]
  }

  /** File.basename: the part after the last '/'. */
  function Basename(p: Path): string {
    match LastSlash(p)
    case None => p
    case Some(i) => p[i + 1..]
  }

  /** File.basename(p, ext): the base name with `ext` dropped when it ends with it and is longer. */
  function BasenameWithout(p: Path, ext: string): string {
    var base := Basename(p);
    if |base| > |ext| && EndsWith(base, ext) then base[..|base| - |ext|] else base
  }

  /** A name joined to a directory is that directory's entry: dirname undoes the join. */
  lemma {:induction false} DirnameOfJoin(dir: Path, name: string)
    requires dir != "" && (dir == "/" || dir[|dir| - 1] != '/')
    requires name != [] && '/' !in name
    ensures Dirname(Join(dir, name)) == dir
    ensures Basename(Join(dir, name)) == name
  {
    var p := Join(dir, name);
    var slash := if dir == "/" then 0 else |dir|;
    assert p[slash] == '/';
    assert forall k :: slash < k < |p| ==> p[k] == name[k - slash - 1];
    var r := LastSlash(p);
    assert r == Some(slash);
    if dir == "/" {
      assert p == "/" + name;
    } else {
      assert p[..slash] == dir;
    }
    assert p[slash + 1..] == name;
  }

  /** The stem of `dir/stem.yaml` comes back from File.basename(_, ".yaml"). */
  lemma StemOfScenarioFile(dir: Path, stem: string)
    requires dir != "" && (dir == "/" || dir[|dir| - 1] != '/')
    requires stem != [] && '/' !in stem
    ensures BasenameWithout(Join(dir, stem + ".yaml"), ".yaml") == stem
  {
    assert '/' !in ".yaml";
    assert forall c :: c in stem + ".yaml" ==> c in stem || c in ".yaml";
    DirnameOfJoin(dir, stem + ".yaml");
    var base := stem + ".yaml";
    assert base[|base| - 5..] == ".yaml";
    assert base[..|base| - 5] == stem;
  }
}

/**
 * `helpers/capitals.py`: every `.wav` recording in the subfolders of the
 * recordings folder is renamed in place with the letters `d`, `h` and `r`
 * of its file name written in upper case, so that lower-case site letters
 * become the treatment letters the count scripts read.
 */
module Capitals {
  import opened Text

  // ------------------------------------------------------------ paths

  /** The index just after the last `/` of a path, 0 when it has none. */
  function NameStart(p: string): (i: nat)
    ensures i <= |p| && '/' !in p[i..]
    ensures i > 0 ==> p[i - 1] == '/'
  {
    if '/' in p then LastIndexOf(p, '/') + 1 else 0
  }

  /** A path without its trailing `/`s. */
  function StripSlashes(p: string): (r: string)
    ensures |r| <= |p| && r == p[..|r|]
    ensures r != [] ==> r[|r| - 1] != '/'
  {
    if p != [] && p[|p| - 1] == '/' then StripSlashes(p[..|p| - 1]) else p
  }

  /** `os.path.basename`: what follows the last `/`. */
  function BaseName(p: string): (r: string) {
    p[NameStart(p)..]
  }

  /** `os.path.dirname`: what comes before the last `/`, without trailing `/`s unless it is only `/`s. */
  function DirName(p: string): (r: string) {
    var head := p[..NameStart(p)];
    if exists i | 0 <= i < |head| :: head[i] != '/' then StripSlashes(head) else head
  }

  /** `os.path.join` of two components. */
  function PathJoin(a: string, b: string): (r: string) {
    if StartsWith(b, "/") then b
    else if a == [] || a[|a| - 1] == '/' then a + b
    else a + "/" + b
  }

  /** A file name joined to a folder is read back as the folder and the name. */
  lemma JoinSplitsBack(root: string, name: string)
    requires root != [] && root[|root| - 1] != '/' && '/' !in name
    ensures BaseName(PathJoin(root, name)) == name
    ensures DirName(PathJoin(root, name)) == root
  {
    PlainJoin(root, name);
    var p := root + "/" + name;
    JoinNameStart(root, name);
    assert p[|root| + 1..] == name;
    var head := p[..|root| + 1];
    assert head == root + "/";
    assert head[|root| - 1] != '/';
    StripOne(root);
  }

  /** A folder without a trailing `/` and a plain name are joined with one `/`. */
  lemma PlainJoin(root: string, name: string)
    requires root != [] && root[|root| - 1] != '/' && '/' !in name
    ensures PathJoin(root, name) == root + "/" + name
  {
    if name != [] {
      assert name[0] != '/';
    }
  }

  /** The name of `<root>/<name>` starts after the `/` that joins them. */
  lemma JoinNameStart(root: string, name: string)
    requires '/' !in name
    ensures NameStart(root + "/" + name) == |root| + 1
  {
    var p := root + "/" + name;
    assert p[|root|] == '/';
    assert forall k | |root| < k < |p| :: p[k] == name[k - |root| - 1];
  }

  /** Stripping the one trailing `/` of `<root>/`. */
  lemma StripOne(root: string)
    requires root != [] && root[|root| - 1] != '/'
    ensures StripSlashes(root + "/") == root
  {
    assert (root + "/")[..|root|] == root;
  }

  // ------------------------------------------------------------ collecting

  /** One step of `os.walk`: a folder and the names of the files directly in it. */
  datatype WalkStep = WalkStep(root: string, files: seq<string>)

  /** The collection test: the name ends in `.wav` in any case. */
  predicate IsWav(name: string) {
    EndsWith(Lower(name), ".wav")
  }

  /** The paths of the files of one folder that `keep` accepts, in listing order. */
  function KeptPaths(root: string, files: seq<string>, keep: string -> bool): (r: seq<string>)
    ensures |r| <= |files|
  {
    if files == [] then []
    else
      var f := files[|files| - 1];
      KeptPaths(root, files[..|files| - 1], keep) + if keep(f) then [PathJoin(root, f)] else []
  }

  /** The paths kept from one folder are exactly its accepted files joined to the folder. */
  lemma {:induction false} KeptPathsMeaning(root: string, files: seq<string>, keep: string -> bool)
    ensures forall p | p in KeptPaths(root, files, keep) :: exists f | f in files :: keep(f) && p == PathJoin(root, f)
    ensures forall f | f in files && keep(f) :: PathJoin(root, f) in KeptPaths(root, files, keep)
  {
    if files != [] {
      var front := files[..|files| - 1];
      KeptPathsMeaning(root, front, keep);
      assert files == front + [files[|files| - 1]];
    }
  }

  /** The paths `keep` accepts in every folder of the walk except `exclude`, in walk order. */
  function Collected(walk: seq<WalkStep>, exclude: string, keep: string -> bool): (r: seq<string>)
  {
    if walk == [] then []
    else
      var s := walk[|walk| - 1];
      Collected(walk[..|walk| - 1], exclude, keep) + if s.root == exclude then [] else KeptPaths(s.root, s.files, keep)
  }

  /** `get_audio_files_in_subdirectories`: the `.wav` paths of every folder of the walk except `exclude`. */
  function AudioFiles(walk: seq<WalkStep>, exclude: string): (r: seq<string>) {
    Collected(walk, exclude, IsWav)
  }

  /**
   * A collected path is an accepted file of a folder other than `exclude`
   * joined to its folder, and every such file is collected.
   */
  lemma {:induction false} CollectedMeaning(walk: seq<WalkStep>, exclude: string, keep: string -> bool)
    ensures forall p | p in Collected(walk, exclude, keep) ::
              exists s, f | s in walk && f in s.files :: s.root != exclude && keep(f) && p == PathJoin(s.root, f)
    ensures forall s, f | s in walk && f in s.files && s.root != exclude && keep(f) ::
              PathJoin(s.root, f) in Collected(walk, exclude, keep)
  {
    if walk != [] {
      var front := walk[..|walk| - 1];
      var s := walk[|walk| - 1];
      CollectedMeaning(front, exclude, keep);
      KeptPathsMeaning(s.root, s.files, keep);
      assert walk == front + [s];
      forall p | p in Collected(walk, exclude, keep)
        ensures exists x, f | x in walk && f in x.files :: x.root != exclude && keep(f) && p == PathJoin(x.root, f)
      {
        if p in Collected(front, exclude, keep) {
          var x, f :| x in front && f in x.files && x.root != exclude && keep(f) && p == PathJoin(x.root, f);
          assert x in walk;
        } else {
          var f :| f in s.files && keep(f) && p == PathJoin(s.root, f);
          assert s in walk;
        }
      }
      forall x, f | x in walk && f in x.files && x.root != exclude && keep(f)
        ensures PathJoin(x.root, f) in Collected(walk, exclude, keep)
      {
        if x !in front {
          assert x == s;
        }
      }
    }
  }

  /** A collected path is a `.wav` file of a folder other than `exclude`, and every such file is collected. */
  lemma AudioFilesMeaning(walk: seq<WalkStep>, exclude: string)
    ensures forall p | p in AudioFiles(walk, exclude) ::
              exists s, f | s in walk && f in s.files :: s.root != exclude && IsWav(f) && p == PathJoin(s.root, f)
    ensures forall s, f | s in walk && f in s.files && s.root != exclude && IsWav(f) ::
              PathJoin(s.root, f) in AudioFiles(walk, exclude)
  {
    CollectedMeaning(walk, exclude, IsWav);
  }

  /** The loops of `get_audio_files_in_subdirectories`, for any file test. */
  method Collect(walk: seq<WalkStep>, exclude: string, keep: string -> bool) returns (paths: seq<string>)
    ensures paths == Collected(walk, exclude, keep)
  {
    paths := [];
    for i := 0 to |walk|
      invariant paths == Collected(walk[..i], exclude, keep)
    {
      CollectedStep(walk, i, exclude, keep);
      var s := walk[i];
      if s.root != exclude {
        paths := AppendKept(paths, s.root, s.files, keep);
      }
    }
    assert walk[..|walk|] == walk;
  }

  /** The inner loop: the accepted files of one folder appended to `paths`, in listing order. */
  method AppendKept(paths: seq<string>, root: string, files: seq<string>, keep: string -> bool) returns (out: seq<string>)
    ensures out == paths + KeptPaths(root, files, keep)
  {
    out := paths;
    for j := 0 to |files|
      invariant out == paths + KeptPaths(root, files[..j], keep)
    {
      KeptPathsStep(root, files, j, keep);
      if keep(files[j]) {
        out := out + [PathJoin(root, files[j])];
      }
    }
    assert files[..|files|] == files;
  }

  /** One more folder of the walk adds its kept paths, unless it is `exclude`. */
  lemma CollectedStep(walk: seq<WalkStep>, i: nat, exclude: string, keep: string -> bool)
    requires i < |walk|
    ensures Collected(walk[..i + 1], exclude, keep)
         == Collected(walk[..i], exclude, keep) + if walk[i].root == exclude then [] else KeptPaths(walk[i].root, walk[i].files, keep)
  {
    assert walk[..i + 1][..i] == walk[..i];
  }

  /** One more file of a folder adds its path when `keep` accepts it. */
  lemma KeptPathsStep(root: string, files: seq<string>, j: nat, keep: string -> bool)
    requires j < |files|
    ensures KeptPaths(root, files[..j + 1], keep)
         == KeptPaths(root, files[..j], keep) + if keep(files[j]) then [PathJoin(root, files[j])] else []
  {
    assert files[..j + 1][..j] == files[..j];
  }

  /** `get_audio_files_in_subdirectories`: one `append` per `.wav` file, in walk order. */
  method CollectAudioFiles(walk: seq<WalkStep>, exclude: string) returns (audio: seq<string>)
    ensures audio == AudioFiles(walk, exclude)
  {
    audio := Collect(walk, exclude, IsWav);
  }

  // ------------------------------------------------------------ renaming

  /** The name rewrite: every `d`, `h` and `r` in upper case. */
  function Capitalised(name: string): (r: string)
    ensures |r| == |name|
    ensures forall i | 0 <= i < |name| :: r[i] == if name[i] in "dhr" then UpperChar(name[i]) else name[i]
  {
    ReplaceChar(ReplaceChar(ReplaceChar(name, 'd', 'D'), 'h', 'H'), 'r', 'R')
  }

  /** No lower-case `d`, `h` or `r` is left, and rewriting again changes nothing. */
  lemma CapitalisedSettled(name: string)
    ensures 'd' !in Capitalised(name) && 'h' !in Capitalised(name) && 'r' !in Capitalised(name)
    ensures Capitalised(Capitalised(name)) == Capitalised(name)
  {
    var r := Capitalised(name);
    forall i | 0 <= i < |r|
      ensures r[i] !in "dhr"
    {
    }
  }

  /** Every occurrence is rewritten, the country prefix too: `ind_d5_…` becomes `inD_D5_…`. */
  lemma CapitalisedExample()
    ensures Capitalised("ind_d5_20211023_230000.wav") == "inD_D5_20211023_230000.wav"
  {
  }

  /** The new path: the same folder, the rewritten file name. */
  function NewPath(p: string): (r: string) {
    PathJoin(DirName(p), Capitalised(BaseName(p)))
  }

  /** A collected file is renamed within its folder. */
  lemma NewPathInPlace(root: string, name: string)
    requires root != [] && root[|root| - 1] != '/' && '/' !in name
    ensures NewPath(PathJoin(root, name)) == PathJoin(root, Capitalised(name))
    ensures DirName(NewPath(PathJoin(root, name))) == root
    ensures BaseName(NewPath(PathJoin(root, name))) == Capitalised(name)
  {
    JoinSplitsBack(root, name);
    assert '/' !in Capitalised(name);
    JoinSplitsBack(root, Capitalised(name));
  }

  /**
   * Every collected recording is renamed within its own folder, to its file
   * name with `d`, `h` and `r` in upper case, when the walk's folders are
   * written without a trailing `/` and its file names hold no `/`.
   */
  lemma AudioFileRenamedInPlace(walk: seq<WalkStep>, exclude: string, p: string)
    requires forall s | s in walk :: s.root != [] && s.root[|s.root| - 1] != '/'
    requires forall s, f | s in walk && f in s.files :: '/' !in f
    requires p in AudioFiles(walk, exclude)
    ensures DirName(NewPath(p)) == DirName(p)
    ensures BaseName(NewPath(p)) == Capitalised(BaseName(p))
  {
    AudioFilesMeaning(walk, exclude);
    var s, f :| s in walk && f in s.files && s.root != exclude && IsWav(f) && p == PathJoin(s.root, f);
    JoinSplitsBack(s.root, f);
    NewPathInPlace(s.root, f);
  }

  /** The loop of `move_files_to_directory`: one rename per collected file, in order. */
  method MoveFilesToDirectory(files: seq<string>) returns (renames: seq<(string, string)>)
    ensures |renames| == |files|
    ensures forall i | 0 <= i < |files| :: renames[i] == (files[i], NewPath(files[i]))
  {
    renames := [];
    for i := 0 to |files|
      invariant |renames| == i
      invariant forall k | 0 <= k < i :: renames[k] == (files[k], NewPath(files[k]))
    {
      var moved := (files[i], NewPath(files[i]));
      ghost var before := renames;
      renames := renames + [moved];
      assert forall k | 0 <= k < i :: renames[k] == before[k];
    }
  }
}

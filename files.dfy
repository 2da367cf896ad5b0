/** java.io.File reduced to what the model needs: a path is a string, a file
    name is the part after the last separator and the parent is the part
    before it. Paths are normalized (no trailing separator), and the empty
    path stands for the root: the parent of "/x" is "", and Join("", "x") is
    "/x" again. */
module Files {
  import opened Options
  import opened JavaStrings

  type Path = string

  const Separator: char := '/'

  /** new File(dir, name). */
  function Join(dir: Path, name: string): Path
  {
    dir + [Separator] + name
  }

  /** File.getName. */
  function NameOf(p: Path): string
  {
    p[LastIndexOf(p, Separator) + 1..]
  }

  /** File.getParent: None when the path holds no separator. */
  function ParentOf(p: Path): Option<Path>
  {
    var i := LastIndexOf(p, Separator);
    if i == -1 then None else Some(p[..i])
  }

  /** A file name never holds a separator. */
  lemma NameHasNoSeparator(p: Path)
    ensures Separator !in NameOf(p)
  {
  }

  /** Joining a directory and a plain name and splitting the result again
      gives back the directory and the name. */
  lemma {:induction false} SplitJoin(dir: Path, name: string)
    requires Separator !in name
    ensures ParentOf(Join(dir, name)) == Some(dir)
    ensures NameOf(Join(dir, name)) == name
  {
    var p := Join(dir, name);
    var i := LastIndexOf(p, Separator);
    assert p[|dir|] == Separator;
    assert i == |dir|;
    assert p[..i] == dir;
    assert p[i + 1..] == name;
  }

  /** Splitting a path that has a parent and joining the parts again gives
      back the path. */
  lemma JoinSplit(p: Path)
    requires ParentOf(p).Some?
    ensures Join(ParentOf(p).value, NameOf(p)) == p
  {
  }

}

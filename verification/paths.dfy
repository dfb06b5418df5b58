/**
 * The two Node `path` functions the uploader relies on, for POSIX paths
 * (`/` is the only separator).
 */
module Paths {
  import opened Results
  import opened Strings

  /** `path.basename`: trailing separators are ignored, then the last segment is kept. */
  function Basename(path: string): (name: string)
    ensures '/' !in name
    ensures EndsWith(DropTrailingSlashes(path), name)
    ensures name == DropTrailingSlashes(path) || EndsWith(DropTrailingSlashes(path), "/" + name)
  {
    var p := DropTrailingSlashes(path);
    match LastIndexOf(p, '/')
    case None => p
    case Some(i) =>
      assert p[i..] == "/" + p[i + 1..];
      p[i + 1..]
  }

  /**
   * The extension of a base name: from its last dot to the end, except that a
   * name without a dot, a name whose last dot is its first character (`.env`)
   * and the name `..` have none.
   */
  function ExtnameOfBase(base: string): (ext: string)
    ensures ext == "" || (ext[0] == '.' && '.' !in ext[1..] && EndsWith(base, ext) && |ext| < |base|)
  {
    match LastIndexOf(base, '.')
    case None => ""
    case Some(i) => if i == 0 || base == ".." then "" else base[i..]
  }

  /** `path.extname`: the extension of the path's last segment. */
  function Extname(path: string): (ext: string)
    ensures ext == "" || (ext[0] == '.' && '/' !in ext && EndsWith(Basename(path), ext))
  {
    ExtnameOfBase(Basename(path))
  }

  /** A file name joined under any directory is its own base name. */
  lemma BasenameOfJoin(dir: string, name: string)
    requires name != [] && '/' !in name
    ensures Basename(dir + "/" + name) == name
    ensures Basename(name) == name
  {
    var p := dir + "/" + name;
    assert p[|p| - 1] == name[|name| - 1];
    assert DropTrailingSlashes(p) == p;
    LastIndexOfSplit(dir, '/', name);
    assert p[|dir| + 1..] == name;
  }

  /** A name `stem + ext` whose `ext` is a dot followed by no further dot has extension `ext`. */
  lemma ExtnameOfStem(dir: string, stem: string, ext: string)
    requires stem != [] && '/' !in stem && '/' !in ext
    requires |ext| > 0 && ext[0] == '.' && '.' !in ext[1..]
    requires stem + ext != ".."
    ensures Extname(dir + "/" + (stem + ext)) == ext
  {
    var name := stem + ext;
    assert '/' !in name by {
      assert forall i | 0 <= i < |name| :: name[i] == (if i < |stem| then stem[i] else ext[i - |stem|]);
    }
    BasenameOfJoin(dir, name);
    ExtnameOfBaseStem(stem, ext);
  }

  lemma ExtnameOfBaseStem(stem: string, ext: string)
    requires stem != [] && |ext| > 0 && ext[0] == '.' && '.' !in ext[1..]
    requires stem + ext != ".."
    ensures ExtnameOfBase(stem + ext) == ext
  {
    var name := stem + ext;
    assert name == stem + [ext[0]] + ext[1..];
    LastIndexOfSplit(stem, '.', ext[1..]);
    assert name[|stem|..] == ext;
  }

  /** A dot-file such as `.env` has no extension. */
  lemma ExtnameOfDotFile(dir: string, rest: string)
    requires '/' !in rest && '.' !in rest
    ensures Extname(dir + "/." + rest) == ""
  {
    var name := "." + rest;
    assert dir + "/." + rest == dir + "/" + name;
    BasenameOfJoin(dir, name);
    assert name[1..] == rest;
  }

  lemma {:induction false} BasenameLower(path: string)
    ensures Basename(ToLower(path)) == ToLower(Basename(path))
  {
    var p := DropTrailingSlashes(path);
    var q := ToLower(p);
    assert DropTrailingSlashes(ToLower(path)) == q by {
      DropTrailingSlashesLower(path);
    }
    assert LastIndexOf(q, '/') == LastIndexOf(p, '/') by {
      LastIndexOfLower(p, '/');
    }
    match LastIndexOf(p, '/')
    case None =>
      assert Basename(path) == p;
      assert Basename(ToLower(path)) == q;
    case Some(i) =>
      assert q[i + 1..] == ToLower(p[i + 1..]) by {
        ToLowerSlices(p, i + 1);
      }
      assert Basename(path) == p[i + 1..];
      assert Basename(ToLower(path)) == q[i + 1..];
  }

  /** Lower-casing a path lower-cases its extension and nothing more. */
  lemma ExtnameLower(path: string)
    ensures Extname(ToLower(path)) == ToLower(Extname(path))
  {
    BasenameLower(path);
    ExtnameOfBaseLower(Basename(path));
  }

  lemma ExtnameOfBaseLower(base: string)
    ensures ExtnameOfBase(ToLower(base)) == ToLower(ExtnameOfBase(base))
  {
    LastIndexOfLower(base, '.');
    match LastIndexOf(base, '.')
    case None =>
    case Some(i) =>
      ToLowerSlices(base, i);
      if ToLower(base) == ".." {
        assert LowerChar(base[0]) == '.' && LowerChar(base[1]) == '.' by {
          assert ToLower(base)[0] == LowerChar(base[0]) && ToLower(base)[1] == LowerChar(base[1]);
        }
        assert base == "..";
      }
  }
}

/**
 * The file existence check of the path helper (the board's Python has no
 * `os.path.exists`): the path is split on `/`, every component but the last
 * must be listed in the directory walked so far, and the last one must be
 * listed in the directory reached. The file system is an input: a map from
 * directory path to the names `os.listdir` returns for it; a path that is not
 * a key is one `os.listdir` raises on.
 */
module PathHelper {
  import opened Support

  /** Directory path -> the names listed in it. */
  type FileSystem = map<string, seq<string>>

  // ------------------------------------------------------ splitting paths

  /** Python's `s.split('/')`: the pieces between separators, empty pieces included. */
  function Split(s: string): (r: seq<string>)
    ensures |r| >= 1
    ensures forall i :: 0 <= i < |r| ==> '/' !in r[i]
  {
    if |s| == 0 then [""]
    else
      var rest := Split(s[1..]);
      if s[0] == '/' then [""] + rest else [[s[0]] + rest[0]] + rest[1..]
  }

  /** Python's `'/'.join(parts)`. */
  function Join(parts: seq<string>): string
    requires |parts| >= 1
  {
    if |parts| == 1 then parts[0] else parts[0] + "/" + Join(parts[1..])
  }

  /** Splitting loses nothing: joining the pieces with `/` gives the path back. */
  lemma {:induction false} JoinSplit(s: string)
    ensures Join(Split(s)) == s
  {
    if |s| > 0 {
      var rest := Split(s[1..]);
      JoinSplit(s[1..]);
      if s[0] == '/' {
        assert ([""] + rest)[1..] == rest;
      } else {
        var r := [[s[0]] + rest[0]] + rest[1..];
        if |rest| == 1 {
          assert r == [[s[0]] + rest[0]];
        } else {
          assert r[1..] == rest[1..];
          assert Join(rest) == rest[0] + "/" + Join(rest[1..]);
        }
      }
    }
  }

  /** A path without a separator is a single piece. */
  lemma {:induction false} SplitNoSeparator(s: string)
    requires '/' !in s
    ensures Split(s) == [s]
  {
    if |s| > 0 {
      SplitNoSeparator(s[1..]);
      assert [s[0]] + s[1..] == s;
    }
  }

  // ------------------------------------------------------- walking paths

  /** The directory path after descending into `name`: bare from the root `""`, else after a `/`. */
  function Extend(dir: string, name: string): string
  {
    if dir == "" then name else dir + "/" + name
  }

  /** The directory path reached after descending through `comps`, starting at the root `""`. */
  function WalkedDir(comps: seq<string>): string
  {
    if |comps| == 0 then "" else Extend(WalkedDir(comps[..|comps| - 1]), comps[|comps| - 1])
  }

  /** Descending one more component extends the walked path by that component. */
  lemma WalkedDirStep(comps: seq<string>, i: int)
    requires 0 <= i < |comps|
    ensures WalkedDir(comps[..i + 1]) == Extend(WalkedDir(comps[..i]), comps[i])
  {
    assert comps[..i + 1][..i] == comps[..i];
  }

  /**
   * When the first component is not empty, the walked path is the
   * components joined with `/`: the walk reconstructs the relative path.
   */
  lemma {:induction false} WalkedDirIsJoin(comps: seq<string>)
    requires |comps| >= 1 && comps[0] != ""
    ensures WalkedDir(comps) == Join(comps)
  {
    if |comps| > 1 {
      var init := comps[..|comps| - 1];
      WalkedDirIsJoin(init);
      JoinSnoc(init, comps[|comps| - 1]);
      assert init + [comps[|comps| - 1]] == comps;
    }
  }

  /** Joining with one more piece appends a separator and that piece. */
  lemma {:induction false} JoinSnoc(parts: seq<string>, last: string)
    requires |parts| >= 1 && parts[0] != ""
    ensures Join(parts + [last]) == Join(parts) + "/" + last
    ensures Join(parts) != ""
  {
    if |parts| > 1 {
      JoinSnocTail(parts[1..], last);
      assert (parts + [last])[1..] == parts[1..] + [last];
    }
  }

  /** `JoinSnoc` for a tail whose first piece may be empty. */
  lemma {:induction false} JoinSnocTail(parts: seq<string>, last: string)
    requires |parts| >= 1
    ensures Join(parts + [last]) == Join(parts) + "/" + last
  {
    if |parts| > 1 {
      JoinSnocTail(parts[1..], last);
      assert (parts + [last])[1..] == parts[1..] + [last];
    }
  }

  /**
   * The reference walk from directory `dir` through `comps`: list `dir`
   * (`None` when that raises); for the last component answer whether it is
   * listed; for an earlier one descend into it when it is listed and answer
   * `false` at once when it is not.
   */
  function WalkFrom(fs: FileSystem, dir: string, comps: seq<string>): (r: Option<bool>)
    requires |comps| >= 1
    decreases |comps|
  {
    if dir !in fs then None
    else if |comps| == 1 then Some(comps[0] in fs[dir])
    else if comps[0] in fs[dir] then WalkFrom(fs, Extend(dir, comps[0]), comps[1..])
    else Some(false)
  }

  /** The directories walked after each of the first `n` prefixes of `parts`, in order. */
  function Listings(parts: seq<string>, n: nat): (ds: seq<string>)
    requires n <= |parts|
    ensures |ds| == n
  {
    if n == 0 then [] else Listings(parts, n - 1) + [WalkedDir(parts[..n - 1])]
  }

  /** Entry `j` of the listings is the directory reached after the first `j` components. */
  lemma {:induction false} ListingsAt(parts: seq<string>, n: nat, j: int)
    requires n <= |parts| && 0 <= j < n
    ensures Listings(parts, n)[j] == WalkedDir(parts[..j])
  {
    if j < n - 1 {
      ListingsAt(parts, n - 1, j);
    }
  }

  /** Every component before position `i` is listed in the directory walked up to it. */
  ghost predicate Reaches(fs: FileSystem, parts: seq<string>, i: int)
    requires 0 <= i <= |parts|
  {
    forall j :: 0 <= j < i ==> WalkedDir(parts[..j]) in fs && parts[j] in fs[WalkedDir(parts[..j])]
  }

  /** A component listed in the directory walked so far extends the reached prefix by one. */
  lemma ReachesStep(fs: FileSystem, parts: seq<string>, i: int)
    requires 0 <= i < |parts|
    requires Reaches(fs, parts, i)
    requires WalkedDir(parts[..i]) in fs && parts[i] in fs[WalkedDir(parts[..i])]
    ensures Reaches(fs, parts, i + 1)
  {
  }

  /** Walking `parts` from the root is walking the rest from wherever the first `i` components lead. */
  lemma {:induction false} WalkPrefix(fs: FileSystem, parts: seq<string>, i: int)
    requires 0 <= i < |parts|
    requires Reaches(fs, parts, i)
    ensures WalkFrom(fs, "", parts) == WalkFrom(fs, WalkedDir(parts[..i]), parts[i..])
  {
    if i > 0 {
      WalkPrefix(fs, parts, i - 1);
      var dir := WalkedDir(parts[..i - 1]);
      assert parts[i - 1..][1..] == parts[i..];
      WalkedDirStep(parts, i - 1);
    } else {
      assert parts[..0] == [] && parts[0..] == parts;
    }
  }

  // -------------------------------------------------------------- exists

  /**
   * `exists`: the answer of the reference walk from the root, or `None`
   * when a directory listing raises. `listed` are the directories listed,
   * in order: the walked path after each prefix (see `ListingsAt`), at most
   * one per component.
   */
  method Exists(fs: FileSystem, path: string) returns (r: Option<bool>, ghost listed: seq<string>)
    ensures r == WalkFrom(fs, "", Split(path))
    ensures 1 <= |listed| <= |Split(path)|
    ensures listed == Listings(Split(path), |listed|)
  {
    var pathToFileList := Split(path);
    var thisPath := "";
    listed := [];
    for i := 0 to |pathToFileList| - 1
      invariant thisPath == WalkedDir(pathToFileList[..i])
      invariant Reaches(fs, pathToFileList, i)
      invariant |listed| == i
      invariant listed == Listings(pathToFileList, i)
    {
      var ele := pathToFileList[i];
      listed := listed + [thisPath];
      if thisPath !in fs {
        WalkPrefix(fs, pathToFileList, i);
        return None, listed;
      }
      var filesInDir := fs[thisPath];
      if ele in filesInDir {
        ReachesStep(fs, pathToFileList, i);
        WalkedDirStep(pathToFileList, i);
        thisPath := Extend(thisPath, ele);
      } else {
        WalkPrefix(fs, pathToFileList, i);
        return Some(false), listed;
      }
    }
    var last := |pathToFileList| - 1;
    WalkPrefix(fs, pathToFileList, last);
    assert pathToFileList[last..] == [pathToFileList[last]];
    listed := listed + [thisPath];
    if thisPath !in fs {
      return None, listed;
    }
    var filesInDir := fs[thisPath];
    r := Some(pathToFileList[last] in filesInDir);
  }

  // ---------------------------------------------------------- properties

  /**
   * A component before the last that is missing from the listing of the
   * directory walked so far makes the answer `false`, whatever follows.
   */
  lemma MissingComponentIsFalse(fs: FileSystem, path: string, k: int)
    requires 0 <= k < |Split(path)| - 1
    requires Reaches(fs, Split(path), k)
    requires WalkedDir(Split(path)[..k]) in fs
    requires Split(path)[k] !in fs[WalkedDir(Split(path)[..k])]
    ensures WalkFrom(fs, "", Split(path)) == Some(false)
  {
    WalkPrefix(fs, Split(path), k);
  }

  /**
   * The answer is `true` exactly when every earlier component is listed
   * along the way and the last one is listed in the directory finally
   * reached.
   */
  lemma FoundIff(fs: FileSystem, path: string)
    ensures var parts := Split(path); var n := |parts|;
      WalkFrom(fs, "", parts) == Some(true) <==>
        Reaches(fs, parts, n - 1) && WalkedDir(parts[..n - 1]) in fs && parts[n - 1] in fs[WalkedDir(parts[..n - 1])]
  {
    var parts := Split(path);
    FoundFrom(fs, parts, 0);
    assert parts[..0] == [] && parts[0..] == parts;
    if Reaches(fs, parts, |parts| - 1) {
      WalkPrefix(fs, parts, |parts| - 1);
    }
  }

  /** `FoundIff` for the rest of the walk from position `i`. */
  lemma {:induction false} FoundFrom(fs: FileSystem, parts: seq<string>, i: int)
    requires 0 <= i < |parts|
    ensures var n := |parts|;
      WalkFrom(fs, WalkedDir(parts[..i]), parts[i..]) == Some(true) <==>
        (forall j :: i <= j < n - 1 ==> WalkedDir(parts[..j]) in fs && parts[j] in fs[WalkedDir(parts[..j])]) &&
        WalkedDir(parts[..n - 1]) in fs && parts[n - 1] in fs[WalkedDir(parts[..n - 1])]
    decreases |parts| - i
  {
    if i < |parts| - 1 {
      FoundFrom(fs, parts, i + 1);
      WalkedDirStep(parts, i);
      assert parts[i..][1..] == parts[i + 1..];
    }
  }

  /** A path without `/` is looked up directly in the listing of the root `""`. */
  lemma NoSeparatorAtRoot(fs: FileSystem, path: string)
    requires '/' !in path
    ensures WalkFrom(fs, "", Split(path)) == if "" in fs then Some(path in fs[""]) else None
  {
    SplitNoSeparator(path);
  }

  /**
   * A path starting with `/` begins with an empty component, which is looked
   * up in the root listing; since listings hold no empty name, such a path is
   * never found.
   */
  lemma AbsolutePathNotFound(fs: FileSystem, path: string)
    requires |path| > 0 && path[0] == '/'
    requires forall d :: d in fs ==> "" !in fs[d]
    ensures WalkFrom(fs, "", Split(path)) != Some(true)
  {
    var parts := Split(path);
    assert parts[0] == "";
  }
}

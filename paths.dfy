/** The two path helpers the watcher relies on: the trailing slash and the count of visible folder entries. */
module Paths {
  import opened Wrappers

  /** A file name as a directory listing gives it: never empty. */
  type Name = s: string | |s| > 0 witness "a"

  /**
   * `append_forward_slash_if_needed`: the path with a `/` at the end, added only
   * when missing. An empty path has no last character: `dir_path[-1]` raises an IndexError.
   */
  function AppendSlash(dir: string): (r: Result<string, Error>)
    ensures r.Err? <==> dir == []
    ensures r.Err? ==> r.error == IndexOutOfRange
    ensures r.Ok? ==> |r.value| > 0 && r.value[|r.value| - 1] == '/'
    ensures r.Ok? ==> r.value == dir || r.value == dir + "/"
  {
    if dir == [] then Err(IndexOutOfRange)
    else if dir[|dir| - 1] == '/' then Ok(dir)
    else Ok(dir + "/")
  }

  /** A path that already ends in `/` is returned as it is. */
  lemma AppendSlashKeeps(dir: string)
    requires |dir| > 0 && dir[|dir| - 1] == '/'
    ensures AppendSlash(dir) == Ok(dir)
  {
  }

  /** Otherwise exactly one `/` is added. */
  lemma AppendSlashAdds(dir: string)
    requires |dir| > 0 && dir[|dir| - 1] != '/'
    ensures AppendSlash(dir) == Ok(dir + "/")
  {
  }

  /** Appending the slash twice is appending it once. */
  lemma AppendSlashIdempotent(dir: string)
    requires AppendSlash(dir).Ok?
    ensures AppendSlash(AppendSlash(dir).value) == AppendSlash(dir)
  {
    AppendSlashKeeps(AppendSlash(dir).value);
  }

  /** The name filter of `dir_len`: a name is counted unless it starts with a dot. */
  predicate IsVisible(n: Name) {
    n[0] != '.'
  }

  /** The entries of a folder that `dir_len` counts, and that `glob(folder + "*")` lists. */
  function Visible(folder: set<Name>): (r: set<Name>)
    ensures r <= folder
    ensures forall n :: n in folder ==> (n in r <==> IsVisible(n))
  {
    set n | n in folder && IsVisible(n)
  }

  /** `dir_len(folder)`: the number of entries that are not hidden. */
  function DirLen(folder: set<Name>): (r: nat)
    ensures r <= |folder|
  {
    SubsetSize(Visible(folder), folder);
    |Visible(folder)|
  }

  lemma {:induction false} SubsetSize<T>(a: set<T>, b: set<T>)
    requires a <= b
    ensures |a| <= |b|
    decreases |b|
  {
    if a != {} {
      var x :| x in a;
      SubsetSize(a - {x}, b - {x});
    }
  }

  /** Hidden entries do not count, so a folder of hidden entries only counts as empty. */
  lemma DirLenHidden(folder: set<Name>)
    ensures DirLen(folder) == 0 <==> forall n :: n in folder ==> !IsVisible(n)
  {
    if DirLen(folder) == 0 {
      assert Visible(folder) == {};
    } else {
      var n :| n in Visible(folder);
    }
  }

  /** A new visible entry adds one to the count; a new hidden one changes nothing. */
  lemma DirLenAdd(folder: set<Name>, n: Name)
    requires n !in folder
    ensures DirLen(folder + {n}) == if IsVisible(n) then DirLen(folder) + 1 else DirLen(folder)
  {
    if IsVisible(n) {
      assert Visible(folder + {n}) == Visible(folder) + {n};
    } else {
      assert Visible(folder + {n}) == Visible(folder);
    }
  }
}

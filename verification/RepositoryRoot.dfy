/** `findRepositoryRoot`: the walk from the working directory up to the repository root. */
module RepositoryRoot {
  import opened Wrappers

  /** A path element: non-empty and without a separator. */
  predicate Element(name: string) {
    name != "" && '/' !in name
  }

  /** The absolute path with the given elements, as `filepath.Clean` would print it. */
  function Path(elements: seq<string>): string {
    if elements == [] then "/" else if |elements| == 1 then "/" + elements[0]
    else Path(elements[..|elements| - 1]) + "/" + elements[|elements| - 1]
  }

  predicate Elements(elements: seq<string>) {
    forall i | 0 <= i < |elements| :: Element(elements[i])
  }

  /** Position of the last separator, -1 if there is none. */
  function LastSeparator(path: string): (i: int)
    ensures -1 <= i < |path|
  {
    if path == "" then -1
    else if path[|path| - 1] == '/' then |path| - 1
    else LastSeparator(path[..|path| - 1])
  }

  /** `filepath.Dir` of a clean absolute path: cut after the last separator, which stays only for the root itself. */
  function Dir(path: string): string {
    var cut := path[..LastSeparator(path) + 1];
    if |cut| > 1 then cut[..|cut| - 1] else cut
  }

  lemma {:induction false} LastSeparatorOf(head: string, name: string)
    requires '/' !in name
    ensures LastSeparator(head + "/" + name) == |head|
    decreases |name|
  {
    var path := head + "/" + name;
    if name == "" {
      assert path[|path| - 1] == '/';
    } else {
      var before, last := name[..|name| - 1], name[|name| - 1];
      assert last in name && forall c | c in before :: c in name;
      LastSeparatorOf(head, before);
      assert path[|path| - 1] == last && path[..|path| - 1] == head + "/" + before;
    }
  }

  lemma DirOfChild(head: string, name: string)
    requires Element(name)
    ensures Dir(head + "/" + name) == if head == "" then "/" else head
  {
    LastSeparatorOf(head, name);
    assert (head + "/" + name)[..|head| + 1] == head + "/";
    assert (head + "/")[..|head|] == head;
  }

  lemma {:induction false} PathNonEmpty(elements: seq<string>)
    ensures |Path(elements)| >= 1
  {
  }

  /** The parent of a path drops its last element, and only the root is its own parent. */
  lemma DirDropsLast(elements: seq<string>)
    requires Elements(elements)
    ensures elements == [] ==> Dir(Path(elements)) == Path(elements)
    ensures elements != [] ==> Dir(Path(elements)) == Path(elements[..|elements| - 1]) != Path(elements)
  {
    if elements == [] {
      assert LastSeparator("/") == 0;
    } else {
      var name, parent := elements[|elements| - 1], elements[..|elements| - 1];
      assert Element(name);
      if parent == [] {
        assert "" + "/" == "/";
        DirOfChild("", name);
      } else {
        PathNonEmpty(parent);
        DirOfChild(Path(parent), name);
      }
    }
  }

  /** The ancestor with `k` elements is a repository root, and no nearer one is. */
  ghost predicate NearestRoot(elements: seq<string>, isRepositoryRoot: string -> bool, k: int) {
    && 0 <= k <= |elements| && isRepositoryRoot(Path(elements[..k]))
    && forall j | k < j <= |elements| :: !isRepositoryRoot(Path(elements[..j]))
  }

  /**
   The walk ends for every absolute clean starting directory, at the nearest ancestor-or-self that is a
   repository root; it fails exactly when no ancestor is one.
   */
  method FindRepositoryRoot(elements: seq<string>, isRepositoryRoot: string -> bool) returns (root: Option<string>)
    requires Elements(elements)
    ensures root.Some? ==> exists k :: NearestRoot(elements, isRepositoryRoot, k) && root.value == Path(elements[..k])
    ensures root.None? <==> forall j | 0 <= j <= |elements| :: !isRepositoryRoot(Path(elements[..j]))
  {
    var currentDirectory := Path(elements);
    ghost var k := |elements|;
    assert elements[..k] == elements;
    while true
      invariant 0 <= k <= |elements| && currentDirectory == Path(elements[..k])
      invariant forall j | k < j <= |elements| :: !isRepositoryRoot(Path(elements[..j]))
      decreases k
    {
      if isRepositoryRoot(currentDirectory) {
        assert NearestRoot(elements, isRepositoryRoot, k);
        return Some(currentDirectory);
      }
      DirDropsLast(elements[..k]);
      var parent := Dir(currentDirectory);
      if parent == currentDirectory {
        return None;
      }
      assert elements[..k][..k - 1] == elements[..k - 1];
      currentDirectory := parent;
      k := k - 1;
    }
  }
}

/**
 * The destination file tree as the archiver sees it: a finite map from path
 * to content.  A path that is a key exists (`os.path.exists`); its value is
 * `None` when the file exists but cannot be read, so its MD5 cannot be
 * computed.  A digest is modelled by the content it summarises, so two
 * digests are equal exactly when the contents are.
 */
module Store {
  import opened Text
  import opened Paths

  type Content = seq<bv8>

  type Tree = map<Path, Option<Content>>

  /** `get_file_md5(path)`: `None` when the file is missing or unreadable. */
  function Md5(tree: Tree, p: Path): (d: Option<Content>)
    ensures d.Some? <==> p in tree && tree[p].Some?
  {
    if p in tree then tree[p] else None
  }

  /**
   * `is_same_file(source, dest)`: both digests are computed and equal.  The
   * source's own digest is given, `None` when the source cannot be read.
   */
  predicate IsSameFile(source: Option<Content>, tree: Tree, dest: Path)
  {
    source.Some? && Md5(tree, dest).Some? && source.value == Md5(tree, dest).value
  }

  /** A same-content destination exists; an unreadable one never counts as the same. */
  lemma SameFileExists(source: Option<Content>, tree: Tree, dest: Path)
    ensures IsSameFile(source, tree, dest) ==> dest in tree
    ensures IsSameFile(source, tree, dest) <==>
            source.Some? && dest in tree && tree[dest] == Some(source.value)
  {
  }

  /** After `shutil.copy2` of readable content, source and destination are the same file. */
  lemma CopyMakesSame(c: Content, tree: Tree, dest: Path)
    ensures IsSameFile(Some(c), tree[dest := Some(c)], dest)
  {
  }

  /** A bound on the length of every path present in the tree. */
  ghost function MaxKeyLength(keys: set<Path>): (n: nat)
    ensures forall p :: p in keys ==> |p| <= n
  {
    if keys == {} then 0
    else
      var x :| x in keys;
      var m := MaxKeyLength(keys - {x});
      if |x| > m then |x| else m
  }

  /**
   * `prefix + f"{k:0{width}d}" + suffix`: the k-th member of a numbered
   * family of candidate paths such as `name_001.jpg` or `name(1).jpg`.
   */
  function Numbered(prefix: Path, k: nat, width: nat, suffix: string): (p: Path)
    ensures |p| >= |prefix| + |Digits(k)| + |suffix|
  {
    prefix + Pad(k, width) + suffix
  }

  /** From this counter on, every numbered candidate is longer than any existing path. */
  ghost function Horizon(tree: Tree): nat
  {
    Pow10(MaxKeyLength(tree.Keys))
  }

  /** Candidates beyond the horizon do not exist, so every counter search stops before it. */
  lemma {:induction false} BeyondHorizon(tree: Tree, prefix: Path, k: nat, width: nat, suffix: string)
    requires k >= Horizon(tree)
    ensures Numbered(prefix, k, width, suffix) !in tree
  {
    DigitsLength(k, MaxKeyLength(tree.Keys));
  }

  /**
   * The first counter from k on whose numbered candidate does not exist:
   * the answer of every `while os.path.exists(candidate): counter += 1`
   * loop over one family.
   */
  function FirstAbsent(tree: Tree, prefix: Path, k: nat, width: nat, suffix: string): (r: nat)
    ensures r >= k
    ensures Numbered(prefix, r, width, suffix) !in tree
    ensures forall j :: k <= j < r ==> Numbered(prefix, j, width, suffix) in tree
    decreases Horizon(tree) - k
  {
    if Numbered(prefix, k, width, suffix) !in tree then k
    else
      assert k < Horizon(tree) by {
        if k >= Horizon(tree) {
          BeyondHorizon(tree, prefix, k, width, suffix);
        }
      }
      FirstAbsent(tree, prefix, k + 1, width, suffix)
  }

  /** FirstAbsent is the least absent counter from k on. */
  lemma FirstAbsentLeast(tree: Tree, prefix: Path, k: nat, width: nat, suffix: string, j: nat)
    requires j >= k && Numbered(prefix, j, width, suffix) !in tree
    ensures FirstAbsent(tree, prefix, k, width, suffix) <= j
  {
  }

  /** A subset is no larger than its superset. */
  lemma SubsetSize(a: set<Path>, b: set<Path>)
    requires a <= b
    ensures |a| <= |b|
  {
    assert b == a + (b - a);
  }
}

/** The two POSIX path operations the launcher uses to place its temporary
    script: `os.path.join` and `os.path.dirname`. */
module Paths {

  const Sep := '/'

  /** Every character of `p` is the separator (vacuously so for the empty path). */
  predicate AllSeparators(p: string) {
    forall k | 0 <= k < |p| :: p[k] == Sep
  }

  /** `os.path.join(dir, name)` for two components: an absolute `name`
      replaces `dir`; otherwise a separator is put between them unless `dir`
      is empty or already ends in one. */
  function Join(dir: string, name: string): (p: string)
    ensures name != [] && name[0] == Sep ==> p == name
    ensures name == [] || name[0] != Sep ==>
              && |dir| + |name| <= |p| <= |dir| + 1 + |name|
              && p[..|dir|] == dir
              && p[|p| - |name|..] == name
  {
    if name != [] && name[0] == Sep then name
    else if dir == [] || dir[|dir| - 1] == Sep then dir + name
    else dir + [Sep] + name
  }

  /** The index of the last separator in `p`, or -1 when there is none. */
  function LastSep(p: string): (i: int)
    ensures -1 <= i < |p|
    ensures i >= 0 ==> p[i] == Sep
    ensures forall k | i < k < |p| :: p[k] != Sep
  {
    if p == [] then -1
    else if p[|p| - 1] == Sep then |p| - 1
    else LastSep(p[..|p| - 1])
  }

  /** `p` without its trailing separators. */
  function TrimSeparators(p: string): (r: string)
    ensures |r| <= |p| && r == p[..|r|]
    ensures r == [] || r[|r| - 1] != Sep
    ensures forall k | |r| <= k < |p| :: p[k] == Sep
  {
    if p != [] && p[|p| - 1] == Sep then TrimSeparators(p[..|p| - 1]) else p
  }

  /** `os.path.dirname(p)`: everything up to the last separator, with the
      trailing separators dropped unless nothing but separators is left. */
  function Dirname(p: string): string {
    var head := p[..LastSep(p) + 1];
    if head != [] && !AllSeparators(head) then TrimSeparators(head) else head
  }

  /** A directory as `os.path.abspath` and `os.path.dirname` produce it:
      no trailing separator unless it is nothing but separators. */
  predicate CanonicalDir(dir: string) {
    AllSeparators(dir) || dir[|dir| - 1] != Sep
  }

  /** The last separator of `pre + name` is the last one of `pre` when
      `name` has none. */
  lemma LastSepOfSuffix(pre: string, name: string)
    requires pre != [] && pre[|pre| - 1] == Sep
    requires Sep !in name
    ensures LastSep(pre + name) == |pre| - 1
  {
    var p := pre + name;
    assert p[|pre| - 1] == Sep;
  }

  /** The directory of a file joined onto a canonical directory is that
      directory again. */
  lemma DirnameJoin(dir: string, name: string)
    requires CanonicalDir(dir)
    requires name != [] && Sep !in name
    ensures Dirname(Join(dir, name)) == dir
  {
    var p := Join(dir, name);
    if dir == [] {
      assert p == name;
      assert LastSep(p) == -1;
    } else if dir[|dir| - 1] == Sep {
      assert p == dir + name;
      LastSepOfSuffix(dir, name);
      assert p[..|dir|] == dir;
    } else {
      var head := dir + [Sep];
      assert p == head + name;
      LastSepOfSuffix(head, name);
      assert p[..|dir| + 1] == head;
      assert head[|dir| - 1] != Sep;
      assert head[..|head| - 1] == dir;
    }
  }
}

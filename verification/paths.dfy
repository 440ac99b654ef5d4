/**
 * Ruby's File.join on two strings, with '/' as the only separator. This is how
 * an asset's full path is built from the public folder and the asset's name,
 * and how the mount prefix is put in front of an asset's address.
 */
module Paths {

  const Separator: char := '/'

  predicate StartsWithSeparator(p: string)
  {
    |p| > 0 && p[0] == Separator
  }

  predicate EndsWithSeparator(p: string)
  {
    |p| > 0 && p[|p| - 1] == Separator
  }

  /** Where the run of separators that ends `p` begins; |p| when `p` does not end in one. */
  function TrailingSeparatorsStart(p: string): (k: nat)
    ensures k <= |p|
    ensures forall i :: k <= i < |p| ==> p[i] == Separator
    ensures !EndsWithSeparator(p[..k])
    ensures k == |p| <==> !EndsWithSeparator(p)
  {
    if EndsWithSeparator(p) then TrailingSeparatorsStart(p[..|p| - 1]) else |p|
  }

  /**
   * File.join(dir, name): when `name` starts with a separator, the separators
   * ending `dir` are dropped; otherwise a separator is added only when `dir`
   * does not already end in one.
   */
  function Join(dir: string, name: string): string
  {
    var tail := TrailingSeparatorsStart(dir);
    if StartsWithSeparator(name) then dir[..tail] + name
    else if tail == |dir| then dir + [Separator] + name
    else dir + name
  }

  /** `p` holds no two separators in a row. */
  predicate NoDoubleSeparator(p: string)
  {
    forall i :: 0 <= i < |p| - 1 ==> !(p[i] == Separator && p[i + 1] == Separator)
  }

  /** Plain parts are joined with exactly one separator between them. */
  lemma JoinPlainParts(dir: string, name: string)
    requires !EndsWithSeparator(dir) && !StartsWithSeparator(name)
    ensures Join(dir, name) == dir + "/" + name
  {
  }

  /**
   * Separators at the seam collapse: whatever separators end `dir`, the result
   * is `dir` without them followed by `name`, so a name with one leading
   * separator meets the directory at exactly one separator.
   */
  lemma JoinCollapsesSeam(dir: string, name: string)
    requires StartsWithSeparator(name)
    ensures exists base :: !EndsWithSeparator(base) && Join(dir, name) == base + name
                          && dir[..|base|] == base && (forall i :: |base| <= i < |dir| ==> dir[i] == Separator)
  {
    var tail := TrailingSeparatorsStart(dir);
    var base := dir[..tail];
    assert dir[..|base|] == base;
  }

  /** The name always survives at the end of the joined path. */
  lemma JoinEndsWithName(dir: string, name: string)
    ensures |name| <= |Join(dir, name)|
    ensures Join(dir, name)[|Join(dir, name)| - |name|..] == name
  {
  }

  /** One trailing separator on a plain directory does not change any join. */
  lemma JoinIgnoresTrailingSeparator(dir: string, name: string)
    requires !EndsWithSeparator(dir)
    ensures Join(dir + "/", name) == Join(dir, name)
  {
    assert (dir + "/")[..|dir|] == dir;
    assert TrailingSeparatorsStart(dir + "/") == |dir|;
  }

  /** A concatenation has no doubled separator iff neither part has one and they do not meet at separators. */
  lemma NoDoubleSeparatorConcat(a: string, b: string)
    ensures NoDoubleSeparator(a + b) <==>
      NoDoubleSeparator(a) && NoDoubleSeparator(b) && !(EndsWithSeparator(a) && StartsWithSeparator(b))
  {
    var ab := a + b;
    if NoDoubleSeparator(ab) {
      forall i | 0 <= i < |a| - 1 ensures !(a[i] == Separator && a[i + 1] == Separator) {
        assert ab[i] == a[i] && ab[i + 1] == a[i + 1];
      }
      if |a| > 0 && |b| > 0 {
        assert ab[|a| - 1] == a[|a| - 1] && ab[|a|] == b[0];
      }
      forall i | 0 <= i < |b| - 1 ensures !(b[i] == Separator && b[i + 1] == Separator) {
        assert ab[|a| + i] == b[i] && ab[|a| + i + 1] == b[i + 1];
      }
    }
    if NoDoubleSeparator(a) && NoDoubleSeparator(b) && !(EndsWithSeparator(a) && StartsWithSeparator(b)) {
      forall i | 0 <= i < |ab| - 1 ensures !(ab[i] == Separator && ab[i + 1] == Separator) {
        if i + 1 < |a| {
          assert ab[i] == a[i] && ab[i + 1] == a[i + 1];
        } else if i == |a| - 1 {
          assert ab[i] == a[|a| - 1] && ab[i + 1] == b[0];
        } else {
          assert ab[i] == b[i - |a|] && ab[i + 1] == b[i - |a| + 1];
        }
      }
    }
  }

  /** Joining never creates a doubled separator that was not already in a part. */
  lemma JoinKeepsSingleSeparators(dir: string, name: string)
    requires NoDoubleSeparator(dir) && NoDoubleSeparator(name)
    ensures NoDoubleSeparator(Join(dir, name))
  {
    var tail := TrailingSeparatorsStart(dir);
    if StartsWithSeparator(name) {
      NoDoubleSeparatorConcat(dir[..tail], dir[tail..]);
      assert dir == dir[..tail] + dir[tail..];
      NoDoubleSeparatorConcat(dir[..tail], name);
    } else if tail == |dir| {
      NoDoubleSeparatorConcat(dir, "/");
      NoDoubleSeparatorConcat(dir + "/", name);
    } else {
      NoDoubleSeparatorConcat(dir, name);
    }
  }
}

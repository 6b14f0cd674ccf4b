/**
 * The NSString path operations the reload uses on directory-listing entries:
 * `pathExtension`, `deletingPathExtension`, `appendingPathComponent`, and the
 * `lowercased()` applied to an extension.
 *
 * A directory-listing entry is one path component, so it holds no '/'.
 * The extension of a name is the text after its last '.', unless that '.'
 * is the first character (".tiff" has no extension).
 */
module Paths {
  import opened Wrappers

  /** Index of the last '.' of `name`, if any. */
  function LastDot(name: string): (r: Option<nat>)
    ensures r.Some? ==> r.value < |name| && name[r.value] == '.'
    ensures r.Some? ==> forall k :: r.value < k < |name| ==> name[k] != '.'
    ensures r.None? ==> forall k :: 0 <= k < |name| ==> name[k] != '.'
  {
    if name == [] then None
    else if name[|name| - 1] == '.' then Some(|name| - 1)
    else LastDot(name[..|name| - 1])
  }

  /** The LastDot of a name is fixed by a dot with no dot after it. */
  lemma {:induction false} LastDotAt(name: string, i: nat)
    requires i < |name| && name[i] == '.'
    requires forall k :: i < k < |name| ==> name[k] != '.'
    ensures LastDot(name) == Some(i)
    decreases |name|
  {
    if i < |name| - 1 {
      LastDotAt(name[..|name| - 1], i);
    }
  }

  /** The position of the dot that starts the extension: the last dot, when it is not the first character. */
  function ExtensionDot(name: string): Option<nat>
  {
    match LastDot(name)
    case Some(i) => if i > 0 then Some(i) else None
    case None => None
  }

  /** `(name as NSString).pathExtension`: "" when the name has no extension. */
  function PathExtension(name: string): (ext: string)
    ensures forall k :: 0 <= k < |ext| ==> ext[k] != '.'
  {
    match ExtensionDot(name)
    case Some(i) => name[i + 1..]
    case None => ""
  }

  /** `(name as NSString).deletingPathExtension`: the name without its last extension. */
  function DeletingPathExtension(name: string): (base: string)
    ensures |base| <= |name| && name[..|base|] == base
    ensures ExtensionDot(name).Some? ==> 0 < |base| < |name| && name[|base|] == '.'
    ensures ExtensionDot(name).None? ==> base == name
  {
    match ExtensionDot(name)
    case Some(i) => name[..i]
    case None => name
  }

  /** Stripping the extension and putting it back gives the name again. */
  lemma ExtensionRoundTrip(name: string)
    ensures ExtensionDot(name).Some? ==> DeletingPathExtension(name) + "." + PathExtension(name) == name
    ensures ExtensionDot(name).None? ==> DeletingPathExtension(name) == name && PathExtension(name) == ""
    ensures ExtensionDot(name).Some? ==> |DeletingPathExtension(name)| > 0
  {
    match ExtensionDot(name)
    case Some(i) =>
      assert name[..i] + "." + name[i + 1..] == name by {
        assert name == name[..i] + [name[i]] + name[i + 1..];
      }
    case None =>
  }

  /** Appending a fresh extension to a non-empty base yields exactly that base and extension. */
  lemma AddExtension(base: string, ext: string)
    requires |base| > 0
    requires forall k :: 0 <= k < |ext| ==> ext[k] != '.'
    ensures PathExtension(base + "." + ext) == ext
    ensures DeletingPathExtension(base + "." + ext) == base
  {
    var name := base + "." + ext;
    var d := LastDot(name);
    assert name[|base|] == '.';
    assert forall k :: |base| < k < |name| ==> name[k] == ext[k - |base| - 1];
    assert d.Some? && d.value == |base|;
    assert name[|base| + 1..] == ext;
    assert name[..|base|] == base;
  }

  /** Lower-casing of the ASCII letters A-Z; every other character is kept. */
  function LowerChar(c: char): (r: char)
    ensures 'A' <= c <= 'Z' ==> 'a' <= r <= 'z'
    ensures !('A' <= c <= 'Z') ==> r == c
  {
    if 'A' <= c <= 'Z' then (c as int - 'A' as int + 'a' as int) as char else c
  }

  function Lowercased(s: string): (r: string)
    ensures |r| == |s|
  {
    seq(|s|, i requires 0 <= i < |s| => LowerChar(s[i]))
  }

  /** Lower-casing then comparing with a lower-case word is a case-insensitive comparison, letter by letter. */
  lemma LowercasedMatches(s: string, word: string)
    requires forall k :: 0 <= k < |word| ==> !('A' <= word[k] <= 'Z')
    ensures Lowercased(s) == word <==>
              |s| == |word| && forall k :: 0 <= k < |s| ==> s[k] == word[k] || LowerChar(s[k]) == word[k]
  {
    if Lowercased(s) == word {
      forall k | 0 <= k < |s|
        ensures s[k] == word[k] || LowerChar(s[k]) == word[k]
      {
        assert Lowercased(s)[k] == LowerChar(s[k]);
      }
    }
    if |s| == |word| && forall k :: 0 <= k < |s| ==> s[k] == word[k] || LowerChar(s[k]) == word[k] {
      forall k | 0 <= k < |s|
        ensures Lowercased(s)[k] == word[k]
      {
        if s[k] == word[k] {
          assert LowerChar(s[k]) == s[k];
        }
      }
    }
  }

  /**
   * `(dir as NSString).appendingPathComponent(name)`: joins with a single '/'.
   * An empty directory yields the name alone; a directory ending in '/' is not given a second one.
   */
  function AppendingPathComponent(dir: string, name: string): (r: string)
    ensures |r| >= |dir| && |r| >= |name|
    ensures r[..|dir|] == dir
    ensures r[|r| - |name|..] == name
  {
    if dir == [] then name
    else if dir[|dir| - 1] == '/' then dir + name
    else dir + "/" + name
  }

  /** The text after the last '/' (the whole string when it has none). */
  function LastComponent(path: string): string
  {
    if path == [] then ""
    else if path[|path| - 1] == '/' then ""
    else LastComponent(path[..|path| - 1]) + [path[|path| - 1]]
  }

  /** The name appended to a directory is the last component of the joined path. */
  lemma {:induction false} AppendedComponentIsLast(dir: string, name: string)
    requires forall k :: 0 <= k < |name| ==> name[k] != '/'
    ensures LastComponent(AppendingPathComponent(dir, name)) == name
  {
    var r := AppendingPathComponent(dir, name);
    var pre := |r| - |name|;
    if dir == [] {
      assert pre == 0;
    } else if dir[|dir| - 1] == '/' {
      assert r == dir + name && r[pre - 1] == dir[|dir| - 1];
    } else {
      assert r == (dir + "/") + name && r[pre - 1] == '/';
    }
    assert r[pre..] == name;
    forall k | pre <= k < |r|
      ensures r[k] != '/'
    {
      assert r[k] == r[pre..][k - pre];
    }
    SuffixAfterSlash(r, pre);
  }

  lemma {:induction false} SuffixAfterSlash(r: string, pre: nat)
    requires pre <= |r|
    requires pre > 0 ==> r[pre - 1] == '/'
    requires forall k :: pre <= k < |r| ==> r[k] != '/'
    ensures LastComponent(r) == r[pre..]
    decreases |r|
  {
    if |r| == pre {
    } else {
      var s := r[..|r| - 1];
      SuffixAfterSlash(s, pre);
      assert r[pre..] == s[pre..] + [r[|r| - 1]];
    }
  }
}

/** The parts of Python's `pathlib.PurePosixPath` the tools use to name files: the final
    component, its suffix and stem, and the derived paths `with_suffix`, `with_name` and
    `folder / name`.  Paths are plain text; pathlib's normalisation (repeated separators,
    `.` components, a trailing separator) is not modelled, so a path ending in '/' or "/."
    has the empty name here, where pathlib names the component before it. */
module Paths {
  import opened Strings

  /** Everything up to and including the last '/', or "" when there is none. */
  function Parent(p: string): (d: string)
    ensures |d| <= |p| && d == p[..|d|]
    ensures d == [] || d[|d| - 1] == '/'
  {
    p[..LastIndexOf(p, '/') + 1]
  }

  /** `Path(p).name`: the final component. */
  function Name(p: string): (n: string)
    ensures '/' !in n
  {
    p[LastIndexOf(p, '/') + 1..]
  }

  /** A path is its parent followed by its final component. */
  lemma ParentThenName(p: string)
    ensures p == Parent(p) + Name(p)
  {
    var i := LastIndexOf(p, '/');
    assert Parent(p) == p[..i + 1];
    assert p == p[..i + 1] + p[i + 1..];
  }

  /** Where the suffix of a final component starts: its last '.', provided that dot is
      neither the first nor the last character (so ".bashrc" and "name." have no suffix).
      -1 when there is no suffix. */
  function SuffixStart(n: string): (i: int)
    ensures i == -1 || (0 < i < |n| - 1 && n[i] == '.' && '.' !in n[i + 1..])
  {
    var i := LastIndexOf(n, '.');
    if 0 < i < |n| - 1 then i else -1
  }

  /** The suffix of a final component `n`. */
  function NameSuffix(n: string): (s: string)
    ensures s == [] || (|s| >= 2 && s[0] == '.' && '.' !in s[1..])
    ensures |s| <= |n| && s == n[|n| - |s|..]
  {
    var i := SuffixStart(n);
    if i == -1 then "" else n[i..]
  }

  /** The final component `n` without its suffix. */
  function NameStem(n: string): (s: string)
    ensures n == s + NameSuffix(n)
    ensures s == [] ==> n == []
  {
    var i := SuffixStart(n);
    if i == -1 then n else n[..i]
  }

  /** `Path(p).suffix`. */
  function Suffix(p: string): (s: string)
    ensures s == [] || (|s| >= 2 && s[0] == '.' && '.' !in s[1..] && '/' !in s)
  {
    NameSuffix(Name(p))
  }

  /** `Path(p).stem`. */
  function Stem(p: string): (s: string)
    ensures Name(p) == s + Suffix(p)
    ensures s == [] ==> Name(p) == []
  {
    NameStem(Name(p))
  }

  /** `Path(p).with_name(name)`: the same folder, another final component. */
  function WithName(p: string, name: string): (q: string)
    requires name != [] && '/' !in name
    ensures Parent(q) == Parent(p) && Name(q) == name
  {
    NameAfterParent(Parent(p), name);
    Parent(p) + name
  }

  /** `Path(p).with_suffix(suffix)`; Python raises ValueError for an empty final component. */
  function WithSuffix(p: string, suffix: string): (q: string)
    requires Name(p) != []
    requires '/' !in suffix
    requires suffix == [] || (|suffix| >= 2 && suffix[0] == '.')
    ensures Parent(q) == Parent(p) && Name(q) == Stem(p) + suffix
  {
    var d, stem := Parent(p), Stem(p);
    StemHasNoSeparator(p);
    assert '/' !in stem + suffix;
    NameAfterParent(d, stem + suffix);
    d + (stem + suffix)
  }

  lemma StemHasNoSeparator(p: string)
    ensures '/' !in Stem(p)
  {
    var stem, n := Stem(p), Name(p);
    forall k | 0 <= k < |stem| ensures stem[k] != '/' { assert stem[k] == n[k]; }
  }

  /** `folder / name` for a folder given without a trailing separator. */
  function JoinPath(folder: string, name: string): (q: string)
    requires '/' !in name
    ensures Name(q) == name && Parent(q) == folder + "/"
  {
    NameAfterParent(folder + "/", name);
    folder + "/" + name
  }

  /** The last '/' of `d + n` is the last one of `d` when `n` has none. */
  lemma NameAfterParent(d: string, n: string)
    requires d == [] || d[|d| - 1] == '/'
    requires '/' !in n
    ensures Parent(d + n) == d && Name(d + n) == n
  {
    var p := d + n;
    if d == [] {
      assert p == n;
    } else {
      assert p[|d|..] == n;
      LastIndexOfAt(p, '/', |d| - 1);
    }
  }

  /** Text without a separator appended to a path extends its final component. */
  lemma NameOfAppended(p: string, t: string)
    requires '/' !in t
    ensures Name(p + t) == Name(p) + t
  {
    var q, i := p + t, LastIndexOf(p, '/');
    if i == -1 {
      forall k | 0 <= k < |q| ensures q[k] != '/' {
        if k < |p| { assert q[k] == p[k]; } else { assert q[k] == t[k - |p|]; }
      }
    } else {
      assert q[i + 1..] == p[i + 1..] + t;
      LastIndexOfAt(q, '/', i);
    }
  }

  /** A path without a separator is its own final component. */
  lemma PlainName(p: string)
    requires '/' !in p
    ensures Name(p) == p
  {
  }

  /** The suffix of a component that ends in a dot followed by a dot-free, non-empty extension,
      after a non-empty base, is exactly that dot and extension. */
  lemma SuffixOfDottedName(p: string, base: string, ext: string)
    requires Name(p) == base + "." + ext
    requires base != [] && ext != [] && '.' !in ext
    ensures Suffix(p) == "." + ext && Stem(p) == base
  {
    DottedComponent(Name(p), base, ext);
  }

  lemma DottedComponent(n: string, base: string, ext: string)
    requires n == base + "." + ext
    requires base != [] && ext != [] && '.' !in ext
    ensures NameSuffix(n) == "." + ext && NameStem(n) == base
  {
    var k := |base|;
    assert n[k] == '.';
    assert n[k + 1..] == ext;
    LastIndexOfAt(n, '.', k);
    assert SuffixStart(n) == k;
    assert n[k..] == "." + ext;
    assert n[..k] == base;
  }

  /** A suffix given to `with_suffix` is the suffix of the result. */
  lemma SuffixOfWithSuffix(p: string, sfx: string)
    requires Name(p) != []
    requires |sfx| >= 2 && sfx[0] == '.' && '.' !in sfx[1..] && '/' !in sfx
    ensures Suffix(WithSuffix(p, sfx)) == sfx
  {
    StemOfNamed(p);
    SuffixOfNamed(WithSuffix(p, sfx), Stem(p), sfx);
  }

  /** A final component made of a non-empty base and a dotted suffix has that suffix. */
  lemma SuffixOfNamed(p: string, base: string, ext: string)
    requires Name(p) == base + ext && base != []
    requires |ext| >= 2 && ext[0] == '.' && '.' !in ext[1..]
    ensures Suffix(p) == ext
  {
    assert base + ext == base + "." + ext[1..];
    SuffixOfDottedName(p, base, ext[1..]);
  }

  /** A non-empty final component has a non-empty stem. */
  lemma StemOfNamed(p: string)
    requires Name(p) != []
    ensures Stem(p) != []
  {
  }

  /** Lower-casing does not move separators or dots. */
  lemma {:induction false} LastIndexOfLower(s: string, c: char)
    requires c == '/' || c == '.'
    ensures LastIndexOf(Lower(s), c) == LastIndexOf(s, c)
    decreases |s|
  {
    if s != [] {
      var t, l := s[..|s| - 1], Lower(s);
      LowerSlices(s, |s| - 1);
      assert (l[|s| - 1] == c) == (s[|s| - 1] == c);
      LastIndexOfLower(t, c);
    }
  }

  /** `Path(p.lower()).name == Path(p).name.lower()`. */
  lemma NameOfLower(p: string)
    ensures Name(Lower(p)) == Lower(Name(p))
  {
    LastIndexOfLower(p, '/');
    var i := LastIndexOf(p, '/');
    LowerSlices(p, i + 1);
  }

  /** Lower-casing a final component lower-cases its suffix. */
  lemma NameSuffixOfLower(n: string)
    ensures NameSuffix(Lower(n)) == Lower(NameSuffix(n))
  {
    LastIndexOfLower(n, '.');
    var j := SuffixStart(n);
    if j != -1 {
      LowerSlices(n, j);
    }
  }

  /** `Path(p.lower()).suffix == Path(p).suffix.lower()`. */
  lemma SuffixOfLower(p: string)
    ensures Suffix(Lower(p)) == Lower(Suffix(p))
  {
    NameOfLower(p);
    NameSuffixOfLower(Name(p));
  }
}

/** The part of Python's `pathlib` the converter uses: a path as a parent
    directory and a final component, and the `suffix` / `stem` split of that
    final component. */
module Paths {
  import opened Strings

  /** A file path: its parent directory and its final component (`Path.name`). */
  datatype FilePath = FilePath(dir: string, name: string)

  /** `str(path)`: the parent and the name joined by `/`. */
  function PathString(p: FilePath): string {
    if p.dir == "" then p.name else p.dir + "/" + p.name
  }

  /** `s.rfind(c)`: the last position of `c` in `s`, or -1. */
  function RFind(s: string, c: char): (r: int)
    ensures -1 <= r < |s|
    ensures r >= 0 ==> s[r] == c && c !in s[r + 1..]
    ensures r == -1 ==> c !in s
  {
    if s == [] then -1
    else if s[|s| - 1] == c then |s| - 1
    else
      var r := RFind(s[..|s| - 1], c);
      assert s == s[..|s| - 1] + [s[|s| - 1]];
      r
  }

  /** Whether the last dot of `name` splits it into a stem and a suffix: it
      must be neither the first nor the last character. */
  predicate HasSuffix(name: string) {
    0 < RFind(name, '.') < |name| - 1
  }

  /** `Path.suffix`: from the last dot to the end, or empty. */
  function Suffix(name: string): string {
    if HasSuffix(name) then name[RFind(name, '.')..] else ""
  }

  /** `Path.stem`: the name without its suffix. */
  function Stem(name: string): string {
    if HasSuffix(name) then name[..RFind(name, '.')] else name
  }

  /** Stem and suffix split the name: together they give it back, the suffix
      is empty or a dot followed by at least one non-dot character, and a
      non-empty suffix always leaves a non-empty stem. */
  lemma StemSuffixSplit(name: string)
    ensures Stem(name) + Suffix(name) == name
    ensures Suffix(name) == "" || (|Suffix(name)| >= 2 && Suffix(name)[0] == '.' && '.' !in Suffix(name)[1..])
    ensures Suffix(name) != "" ==> Stem(name) != ""
  {
    if HasSuffix(name) {
      var i := RFind(name, '.');
      assert name == name[..i] + name[i..];
      assert name[i..][1..] == name[i + 1..];
    }
  }

  /** Appending a dot-free extension to a non-empty base gives a name whose
      suffix is that extension and whose stem is the base. */
  lemma {:induction false} AppendedExtension(base: string, ext: string)
    requires base != ""
    requires |ext| >= 1 && '.' !in ext
    ensures Suffix(base + ['.'] + ext) == ['.'] + ext
    ensures Stem(base + ['.'] + ext) == base
  {
    var name := base + ['.'] + ext;
    RFindAfterLast(base, ext);
    assert name[..|base|] == base;
    assert name[|base|..] == ['.'] + ext;
  }

  lemma {:induction false} RFindAfterLast(base: string, ext: string)
    requires '.' !in ext
    ensures RFind(base + ['.'] + ext, '.') == |base|
    decreases |ext|
  {
    var name := base + ['.'] + ext;
    if ext == [] {
      assert name[|name| - 1] == '.';
    } else {
      assert name[|name| - 1] == ext[|ext| - 1];
      assert name[..|name| - 1] == base + ['.'] + ext[..|ext| - 1];
      RFindAfterLast(base, ext[..|ext| - 1]);
    }
  }
}

/**
 * The slice of `java.nio.file.Path` (Unix provider) and `java.io.File` path
 * handling that the music service relies on: parsing a path string into
 * names, `resolve`, `normalize` and the component-wise `startsWith`.
 */
module JavaPaths {

  /** A path: whether it is absolute, and its name elements. */
  datatype Path = Path(absolute: bool, names: seq<string>)

  // ---------------------------------------------------------------- parsing

  /**
   * The pieces between the slashes of `s`, empty pieces included
   * (`String.split` without dropping): a slash starts a new piece, any other
   * character joins the current one.
   */
  function Split(s: string): (r: seq<string>)
    ensures |r| > 0
    decreases |s|
  {
    if s == [] then [""]
    else
      var rest := Split(s[1..]);
      if s[0] == '/' then [""] + rest else [[s[0]] + rest[0]] + rest[1..]
  }

  /** Joining two strings with a slash joins their pieces. */
  lemma {:induction false} SplitJoin(a: string, b: string)
    ensures Split(a + "/" + b) == Split(a) + Split(b)
    decreases |a|
  {
    if a == [] {
      assert a + "/" + b == "/" + b;
      assert ("/" + b)[1..] == b;
    } else {
      var s := a + "/" + b;
      assert s[0] == a[0];
      assert s[1..] == a[1..] + "/" + b;
      SplitJoin(a[1..], b);
    }
  }

  /** The non-empty pieces: redundant and trailing slashes name nothing. */
  function NonEmpty(pieces: seq<string>): (r: seq<string>)
    ensures forall i :: 0 <= i < |r| ==> r[i] != "" && r[i] in pieces
  {
    if pieces == [] then []
    else (if pieces[0] == "" then [] else [pieces[0]]) + NonEmpty(pieces[1..])
  }

  lemma {:induction false} NonEmptyConcat(x: seq<string>, y: seq<string>)
    ensures NonEmpty(x + y) == NonEmpty(x) + NonEmpty(y)
  {
    if x == [] {
      assert x + y == y;
    } else {
      assert (x + y)[0] == x[0];
      assert (x + y)[1..] == x[1..] + y;
      NonEmptyConcat(x[1..], y);
    }
  }

  /** `Paths.get(s)` / `new File(s)`: absolute when it starts with a slash; names are the non-empty pieces. */
  function Parse(s: string): (p: Path)
    ensures p.absolute <==> |s| > 0 && s[0] == '/'
    ensures forall i :: 0 <= i < |p.names| ==> p.names[i] != ""
  {
    Path(|s| > 0 && s[0] == '/', NonEmpty(Split(s)))
  }

  /** `dir + File.separator + name`: the names of the join are the names of both parts. */
  lemma ParseJoin(dir: string, name: string)
    ensures Parse(dir + "/" + name) == Path(Parse(dir).absolute || dir == [], Parse(dir).names + Parse(name).names)
  {
    SplitJoin(dir, name);
    NonEmptyConcat(Split(dir), Split(name));
    if dir == [] {
      assert (dir + "/" + name)[0] == '/';
    } else {
      assert (dir + "/" + name)[0] == dir[0];
    }
  }

  // ---------------------------------------------------------------- resolve

  /** `base.resolve(other)`: an absolute `other` replaces `base`, an empty one yields `base`. */
  function Resolve(base: Path, other: Path): (r: Path)
    ensures other.absolute ==> r == other
    ensures !other.absolute ==> r.absolute == base.absolute && r.names == base.names + other.names
  {
    if other.absolute then other
    else if other.names == [] then base
    else Path(base.absolute, base.names + other.names)
  }

  // ---------------------------------------------------------------- normalize

  /** One name fed to `normalize`: `.` disappears, `..` cancels the previous name when there is one to cancel. */
  function Step(absolute: bool, acc: seq<string>, n: string): seq<string>
  {
    if n == "." || n == "" then acc
    else if n == ".." then
      if |acc| > 0 && acc[|acc| - 1] != ".." then acc[..|acc| - 1]
      else if absolute then acc
      else acc + [".."]
    else acc + [n]
  }

  function Fold(absolute: bool, acc: seq<string>, names: seq<string>): seq<string>
    decreases |names|
  {
    if names == [] then acc else Fold(absolute, Step(absolute, acc, names[0]), names[1..])
  }

  /** `path.normalize()`. */
  function Normalize(p: Path): Path
  {
    Path(p.absolute, Fold(p.absolute, [], p.names))
  }

  /**
   * A normal path: no `.` and no empty names, and a `..` only among the
   * leading names of a relative path.
   */
  predicate NormalNames(absolute: bool, names: seq<string>)
  {
    forall i :: 0 <= i < |names| ==>
      names[i] != "." && names[i] != "" &&
      (names[i] == ".." ==> !absolute && forall j :: 0 <= j < i ==> names[j] == "..")
  }

  predicate IsNormal(p: Path)
  {
    NormalNames(p.absolute, p.names)
  }

  lemma StepKeepsNormal(absolute: bool, acc: seq<string>, n: string)
    requires NormalNames(absolute, acc)
    ensures NormalNames(absolute, Step(absolute, acc, n))
  {
  }

  lemma {:induction false} FoldIsNormal(absolute: bool, acc: seq<string>, names: seq<string>)
    requires NormalNames(absolute, acc)
    ensures NormalNames(absolute, Fold(absolute, acc, names))
    decreases |names|
  {
    if names != [] {
      StepKeepsNormal(absolute, acc, names[0]);
      FoldIsNormal(absolute, Step(absolute, acc, names[0]), names[1..]);
    }
  }

  /** On names that are already normal, folding only appends them. */
  lemma {:induction false} FoldOfNormal(absolute: bool, acc: seq<string>, names: seq<string>)
    requires NormalNames(absolute, acc + names)
    ensures Fold(absolute, acc, names) == acc + names
    decreases |names|
  {
    if names != [] {
      var n := names[0];
      assert (acc + names)[|acc|] == n;
      if n == ".." {
        assert |acc| > 0 ==> (acc + names)[|acc| - 1] == acc[|acc| - 1];
      }
      assert Step(absolute, acc, n) == acc + [n];
      assert acc + [n] + names[1..] == acc + names;
      FoldOfNormal(absolute, acc + [n], names[1..]);
    }
  }

  /** `normalize` makes a path normal, keeps it absolute or relative, and normalizing twice is normalizing once. */
  lemma NormalizeIsNormal(p: Path)
    ensures IsNormal(Normalize(p))
    ensures Normalize(p).absolute == p.absolute
    ensures Normalize(Normalize(p)) == Normalize(p)
  {
    FoldIsNormal(p.absolute, [], p.names);
    NormalizeOfNormal(Normalize(p));
  }

  /** A normal path is its own normal form. */
  lemma NormalizeOfNormal(p: Path)
    requires IsNormal(p)
    ensures Normalize(p) == p
  {
    assert [] + p.names == p.names;
    FoldOfNormal(p.absolute, [], p.names);
  }

  // ---------------------------------------------------------------- startsWith

  /** `p.startsWith(base)`: same kind of path, and the names of `base` are the leading names of `p`. */
  predicate StartsWith(p: Path, base: Path)
  {
    p.absolute == base.absolute && |base.names| <= |p.names| && p.names[..|base.names|] == base.names
  }

  /** A name that is neither `.` nor `..` nor empty. */
  predicate PlainName(n: string)
  {
    n != "." && n != ".." && n != ""
  }

  lemma {:induction false} FoldPlain(absolute: bool, acc: seq<string>, names: seq<string>)
    requires forall i :: 0 <= i < |names| ==> PlainName(names[i])
    ensures Fold(absolute, acc, names) == acc + names
    decreases |names|
  {
    if names != [] {
      assert acc + [names[0]] + names[1..] == acc + names;
      FoldPlain(absolute, acc + [names[0]], names[1..]);
    }
  }

  /**
   * Resolving a relative path made of plain names against a normal absolute
   * base always stays under the base: the containment check lets it through.
   */
  lemma PlainRelativeStaysInside(base: Path, rel: Path)
    requires base.absolute && IsNormal(base)
    requires !rel.absolute && forall i :: 0 <= i < |rel.names| ==> PlainName(rel.names[i])
    ensures Normalize(Resolve(base, rel)) == Path(true, base.names + rel.names)
    ensures StartsWith(Normalize(Resolve(base, rel)), base)
  {
    var r := Resolve(base, rel);
    assert r.names == base.names + rel.names;
    FoldOfNormal(true, [], base.names);
    assert [] + base.names == base.names;
    FoldAppend(true, [], base.names, rel.names);
    FoldPlain(true, base.names, rel.names);
    assert (base.names + rel.names)[..|base.names|] == base.names;
  }

  lemma {:induction false} FoldAppend(absolute: bool, acc: seq<string>, x: seq<string>, y: seq<string>)
    ensures Fold(absolute, acc, x + y) == Fold(absolute, Fold(absolute, acc, x), y)
    decreases |x|
  {
    if x == [] {
      assert x + y == y;
    } else {
      assert (x + y)[0] == x[0];
      assert (x + y)[1..] == x[1..] + y;
      FoldAppend(absolute, Step(absolute, acc, x[0]), x[1..], y);
    }
  }

  /**
   * The containment check on concrete inputs: climbing out of the base with
   * `..` is refused, an absolute path elsewhere is refused, and a `..` that
   * stays below the base is accepted.
   */
  lemma TraversalRefused()
    ensures var base := Path(true, ["srv", "music"]);
      && !StartsWith(Normalize(Resolve(base, Path(false, ["..", "secret.mp3"]))), base)
      && !StartsWith(Normalize(Resolve(base, Path(true, ["etc", "passwd"]))), base)
      && StartsWith(Normalize(Resolve(base, Path(false, ["a", "..", "b.mp3"]))), base)
  {
    var base := Path(true, ["srv", "music"]);
    var up := Resolve(base, Path(false, ["..", "secret.mp3"]));
    assert up.names == ["srv", "music"] + ["..", "secret.mp3"];
    FoldAppend(true, [], ["srv", "music"], ["..", "secret.mp3"]);
    FoldPlain(true, [], ["srv", "music"]);
    assert Fold(true, ["srv", "music"], ["..", "secret.mp3"]) == Fold(true, ["srv"], ["secret.mp3"]);
    FoldPlain(true, ["srv"], ["secret.mp3"]);
    assert Normalize(up).names == ["srv", "secret.mp3"];

    FoldPlain(true, [], ["etc", "passwd"]);

    var detour := Resolve(base, Path(false, ["a", "..", "b.mp3"]));
    assert detour.names == ["srv", "music", "a"] + ["..", "b.mp3"];
    FoldAppend(true, [], ["srv", "music", "a"], ["..", "b.mp3"]);
    FoldPlain(true, [], ["srv", "music", "a"]);
    assert Fold(true, ["srv", "music", "a"], ["..", "b.mp3"]) == Fold(true, ["srv", "music"], ["b.mp3"]);
    FoldPlain(true, ["srv", "music"], ["b.mp3"]);
    assert Normalize(detour).names == ["srv", "music", "b.mp3"];
  }
}

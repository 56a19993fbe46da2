/**
 * File-system paths as java.nio.file.Path treats them on a Unix file system:
 * an absolute flag and a sequence of names. Path.of splits a string on '/',
 * dropping empty names; normalize removes "." and folds ".."; startsWith
 * compares whole names, never characters.
 */
module Paths {
  import opened Wrappers
  import opened JStrings

  /** A path: absolute or relative, and its names, none of them empty. */
  datatype Path = Path(absolute: bool, names: seq<JString>)

  /** A name as Path.of produces it: not empty and without a separator. */
  predicate IsName(n: JString)
  {
    n != [] && '/' !in n
  }

  /** A name that neither refers to the directory itself nor to its parent. */
  predicate IsPlainName(n: JString)
  {
    IsName(n) && n != "." && n != ".." && '\0' !in n
  }

  predicate WellFormed(p: Path)
  {
    forall i :: 0 <= i < |p.names| ==> IsName(p.names[i])
  }

  // ---------------------------------------------------------------------
  // Parsing and printing

  /** The first name of s: everything up to the first separator. */
  function NameAt(s: JString): (r: JString)
    ensures r <= s && '/' !in r
    ensures |r| < |s| ==> s[|r|] == '/'
  {
    if s == [] || s[0] == '/' then [] else [s[0]] + NameAt(s[1..])
  }

  /** The names of a path string: split on '/', empty pieces dropped. */
  function SplitNames(s: JString): (r: seq<JString>)
    ensures forall i :: 0 <= i < |r| ==> IsName(r[i])
    decreases |s|
  {
    if s == [] then []
    else if s[0] == '/' then SplitNames(s[1..])
    else
      var n := NameAt(s);
      [n] + SplitNames(s[|n|..])
  }

  /**
   * Path.of(s): a NUL character makes the string an invalid path; otherwise
   * the path is absolute exactly when s starts with '/'.
   */
  function ParsePath(s: JString): (r: Option<Path>)
    ensures r.None? <==> '\0' in s
    ensures r.Some? ==> WellFormed(r.value) && r.value.absolute == (s != [] && s[0] == '/')
  {
    if '\0' in s then None else Some(Path(s != [] && s[0] == '/', SplitNames(s)))
  }

  /** The names joined by single separators. */
  function JoinNames(names: seq<JString>): JString
  {
    if names == [] then []
    else if |names| == 1 then names[0]
    else names[0] + "/" + JoinNames(names[1..])
  }

  /** Path.toString(): a leading separator for an absolute path, then the joined names. */
  function PathString(p: Path): (r: JString)
    ensures p.absolute ==> r != [] && r[0] == '/'
  {
    (if p.absolute then "/" else []) + JoinNames(p.names)
  }

  lemma {:induction false} NameAtOfName(n: JString, tail: JString)
    requires IsName(n)
    requires tail == [] || tail[0] == '/'
    ensures NameAt(n + tail) == n
    decreases |n|
  {
    assert n[0] in n;
    assert (n + tail)[1..] == n[1..] + tail;
    if |n| == 1 {
      assert n[1..] + tail == tail;
    } else {
      assert n[1..][0] == n[1];
      assert n[1] in n;
      NameAtOfName(n[1..], tail);
    }
  }

  lemma {:induction false} SplitJoined(names: seq<JString>)
    requires forall i :: 0 <= i < |names| ==> IsName(names[i])
    ensures SplitNames(JoinNames(names)) == names
    decreases |names|
  {
    if names == [] {
    } else if |names| == 1 {
      var n := names[0];
      NameAtOfName(n, []);
      assert n + [] == n;
      assert n[|n|..] == [];
    } else {
      var n := names[0];
      var rest := JoinNames(names[1..]);
      var s := n + "/" + rest;
      assert s == n + ("/" + rest);
      NameAtOfName(n, "/" + rest);
      assert s[|n|..] == "/" + rest;
      assert ("/" + rest)[1..] == rest;
      SplitJoined(names[1..]);
    }
  }

  /** The joined names start with the first character of the first name. */
  lemma JoinedHead(names: seq<JString>)
    requires names != [] && IsName(names[0])
    ensures JoinNames(names) != [] && JoinNames(names)[0] == names[0][0]
  {
    if |names| > 1 {
      assert JoinNames(names) == names[0] + ("/" + JoinNames(names[1..]));
    }
  }

  /** Printing a path and reading it back with Path.of gives the same path. */
  lemma PathStringRoundTrip(p: Path)
    requires WellFormed(p)
    requires forall i :: 0 <= i < |p.names| ==> '\0' !in p.names[i]
    ensures ParsePath(PathString(p)) == Some(p)
  {
    var j := JoinNames(p.names);
    SplitJoined(p.names);
    NoNulJoined(p.names);
    var s := PathString(p);
    if p.absolute {
      assert s == "/" + j;
      assert s[1..] == j;
      assert SplitNames(s) == SplitNames(j);
      assert '\0' !in s;
    } else {
      assert s == j;
      if p.names != [] {
        JoinedHead(p.names);
        assert p.names[0][0] in p.names[0];
      }
    }
  }

  lemma {:induction false} NoNulJoined(names: seq<JString>)
    requires forall i :: 0 <= i < |names| ==> '\0' !in names[i]
    ensures '\0' !in JoinNames(names)
    decreases |names|
  {
    if |names| > 1 {
      NoNulJoined(names[1..]);
    }
  }

  // ---------------------------------------------------------------------
  // normalize

  /**
   * One name folded onto the names normalised so far: "." disappears, ".."
   * removes the previous name; a ".." with nothing to remove is dropped at
   * the root of an absolute path and kept in a relative one.
   */
  function Fold(absolute: bool, acc: seq<JString>, n: JString): seq<JString>
  {
    if n == "." then acc
    else if n == ".." then
      if acc != [] && acc[|acc| - 1] != ".." then acc[..|acc| - 1]
      else if absolute then acc
      else acc + [n]
    else acc + [n]
  }

  function NormalizeFrom(absolute: bool, acc: seq<JString>, names: seq<JString>): seq<JString>
    decreases |names|
  {
    if names == [] then acc else NormalizeFrom(absolute, Fold(absolute, acc, names[0]), names[1..])
  }

  /** Path.normalize(). */
  function Normalize(p: Path): (r: Path)
    ensures r.absolute == p.absolute
  {
    Path(p.absolute, NormalizeFrom(p.absolute, [], p.names))
  }

  /**
   * A normal path: no "." names, and ".." only as a leading run of a
   * relative path.
   */
  predicate NormalNames(absolute: bool, names: seq<JString>)
  {
    forall i :: 0 <= i < |names| ==>
      names[i] != "." && (names[i] == ".." ==> !absolute && forall j :: 0 <= j < i ==> names[j] == "..")
  }

  predicate IsNormal(p: Path)
  {
    NormalNames(p.absolute, p.names)
  }

  lemma FoldNormal(absolute: bool, acc: seq<JString>, n: JString)
    requires NormalNames(absolute, acc)
    ensures NormalNames(absolute, Fold(absolute, acc, n))
  {
  }

  lemma {:induction false} NormalizeFromNormal(absolute: bool, acc: seq<JString>, names: seq<JString>)
    requires NormalNames(absolute, acc)
    ensures NormalNames(absolute, NormalizeFrom(absolute, acc, names))
    decreases |names|
  {
    if names != [] {
      FoldNormal(absolute, acc, names[0]);
      NormalizeFromNormal(absolute, Fold(absolute, acc, names[0]), names[1..]);
    }
  }

  /** The result of normalize is normal; an absolute one has no ".." at all. */
  lemma NormalizeIsNormal(p: Path)
    ensures IsNormal(Normalize(p))
    ensures p.absolute ==> ".." !in Normalize(p).names
  {
    NormalizeFromNormal(p.absolute, [], p.names);
  }

  lemma FoldOntoNormal(absolute: bool, acc: seq<JString>, n: JString)
    requires NormalNames(absolute, acc + [n])
    ensures Fold(absolute, acc, n) == acc + [n]
  {
    assert (acc + [n])[|acc|] == n;
    if n == ".." && acc != [] {
      var k := |acc|;
      assert (acc + [n])[k] == "..";
      assert (acc + [n])[k - 1] == "..";
      assert acc[k - 1] == (acc + [n])[k - 1];
    }
  }

  lemma {:induction false} NormalizeFromKeeps(absolute: bool, acc: seq<JString>, names: seq<JString>)
    requires NormalNames(absolute, acc + names)
    ensures NormalizeFrom(absolute, acc, names) == acc + names
    decreases |names|
  {
    if names != [] {
      var n := names[0];
      assert acc + names == (acc + [n]) + names[1..];
      assert NormalNames(absolute, acc + [n]) by {
        forall i | 0 <= i < |acc + [n]| ensures (acc + [n])[i] == (acc + names)[i] { }
      }
      FoldOntoNormal(absolute, acc, n);
      NormalizeFromKeeps(absolute, acc + [n], names[1..]);
    }
  }

  /** normalize leaves a normal path unchanged, and so is idempotent. */
  lemma NormalizeIdempotent(p: Path)
    ensures IsNormal(p) ==> Normalize(p) == p
    ensures Normalize(Normalize(p)) == Normalize(p)
  {
    if IsNormal(p) {
      NormalizeFromKeeps(p.absolute, [], p.names);
      assert [] + p.names == p.names;
    }
    var q := Normalize(p);
    NormalizeIsNormal(p);
    NormalizeFromKeeps(q.absolute, [], q.names);
    assert [] + q.names == q.names;
  }

  // ---------------------------------------------------------------------
  // resolve, startsWith, relativize

  /** Path.resolve(other): an absolute other replaces the base, a relative one is appended. */
  function Resolve(base: Path, other: Path): (r: Path)
    ensures other.absolute ==> r == other
    ensures !other.absolute ==> r.absolute == base.absolute && r.names == base.names + other.names
  {
    if other.absolute then other else Path(base.absolute, base.names + other.names)
  }

  /** Path.startsWith(other): both absolute or both relative, and other's names lead p's. */
  predicate StartsWith(p: Path, other: Path)
  {
    p.absolute == other.absolute && other.names <= p.names
  }

  /** A descendant in the strict sense: starts with the ancestor and is not it. */
  predicate StrictlyUnder(p: Path, ancestor: Path)
  {
    StartsWith(p, ancestor) && |p.names| > |ancestor.names|
  }

  /**
   * base.relativize(p) for a p that starts with base: the names after base,
   * as a relative path.
   */
  function RelativizeUnder(base: Path, p: Path): (r: Path)
    requires StartsWith(p, base)
    ensures !r.absolute && Resolve(base, r) == p
  {
    Path(false, p.names[|base.names|..])
  }

  /** A "." or ".." among the names. */
  predicate HasDots(p: Path)
  {
    "." in p.names || ".." in p.names
  }

  /** The names getName(i) walks: the empty path "" has the one name "". */
  function IndexedNames(p: Path): (r: seq<JString>)
    ensures p.absolute || p.names != [] ==> r == p.names
  {
    if !p.absolute && p.names == [] then [[]] else p.names
  }

  /** How many leading names a and b share. */
  function CommonPrefix(a: seq<JString>, b: seq<JString>): (k: nat)
    ensures k <= |a| && k <= |b| && a[..k] == b[..k]
    ensures k < |a| && k < |b| ==> a[k] != b[k]
    decreases |a|
  {
    if a == [] || b == [] || a[0] != b[0] then 0
    else
      var k := 1 + CommonPrefix(a[1..], b[1..]);
      assert a[..k] == [a[0]] + a[1..][..k - 1];
      assert b[..k] == [b[0]] + b[1..][..k - 1];
      k
  }

  /** k copies of the name n. */
  function Repeat(n: JString, k: nat): (r: seq<JString>)
    ensures |r| == k && forall i :: 0 <= i < k ==> r[i] == n
  {
    if k == 0 then [] else [n] + Repeat(n, k - 1)
  }

  /**
   * base.relativize(p) on a Unix file system: the same path gives the empty
   * path; an absolute and a relative path cannot be related; the empty base
   * gives p itself. Otherwise, when either path has a "." or "..", both are
   * normalised first; the shared leading names are skipped, and each name of
   * base left over becomes a "..", unless one of them is itself "." or "..".
   */
  function Relativize(base: Path, p: Path): (r: Result<Path, Exception>)
    ensures p == base ==> r == Ok(Path(false, []))
    ensures p != base && base.absolute != p.absolute ==> r == Err(IllegalArgument)
    ensures r.Ok? ==> !r.value.absolute
  {
    if p == base then Ok(Path(false, []))
    else if base.absolute != p.absolute then Err(IllegalArgument)
    else if !base.absolute && base.names == [] then Ok(p)
    else
      var dots := HasDots(base) || HasDots(p);
      var b := IndexedNames(if dots then Normalize(base) else base);
      var c := IndexedNames(if dots then Normalize(p) else p);
      var i := CommonPrefix(b, c);
      var rest := if c[i..] == [[]] then [] else c[i..];
      if i == |b| then Ok(Path(false, rest))
      else if HasDots(Path(false, b[i..])) then Err(IllegalArgument)
      else Ok(Path(false, Repeat("..", |b| - i) + rest))
  }

  lemma FoldWellFormed(absolute: bool, acc: seq<JString>, n: JString)
    requires WellFormed(Path(absolute, acc)) && IsName(n)
    ensures WellFormed(Path(absolute, Fold(absolute, acc, n)))
  {
  }

  lemma {:induction false} NormalizeFromWellFormed(absolute: bool, acc: seq<JString>, names: seq<JString>)
    requires WellFormed(Path(absolute, acc)) && WellFormed(Path(absolute, names))
    ensures WellFormed(Path(absolute, NormalizeFrom(absolute, acc, names)))
    decreases |names|
  {
    if names != [] {
      FoldWellFormed(absolute, acc, names[0]);
      assert WellFormed(Path(absolute, names[1..])) by {
        forall k | 0 <= k < |names[1..]| ensures IsName(names[1..][k]) {
          assert names[1..][k] == names[k + 1];
        }
      }
      NormalizeFromWellFormed(absolute, Fold(absolute, acc, names[0]), names[1..]);
    }
  }

  /** normalize keeps a path well-formed: it only drops names or keeps "..". */
  lemma NormalizeWellFormed(p: Path)
    requires WellFormed(p)
    ensures WellFormed(Normalize(p))
  {
    NormalizeFromWellFormed(p.absolute, [], p.names);
  }

  /** A name list without "." or ".." is normal. */
  lemma DotFreeNormal(absolute: bool, names: seq<JString>)
    requires "." !in names && ".." !in names
    ensures NormalNames(absolute, names)
  {
    forall i | 0 <= i < |names| ensures names[i] != "." && names[i] != ".." {
      assert names[i] in names;
    }
  }

  /**
   * Two absolute paths, or two relative ones whose base has no "." or "..",
   * always relativize.
   */
  lemma RelativizeDefined(base: Path, p: Path)
    requires base.absolute == p.absolute
    requires base.absolute || !HasDots(base)
    ensures Relativize(base, p).Ok?
  {
    if p != base && (base.absolute || base.names != []) && (HasDots(base) || HasDots(p)) {
      var nb := Normalize(base);
      NormalizeIsNormal(base);
      if !base.absolute {
        DotFreeNormal(false, base.names);
        NormalizeIdempotent(base);
      }
      assert forall j :: 0 <= j < |nb.names| ==> nb.names[j] != ".";
      assert "." !in nb.names;
      var b := IndexedNames(nb);
      var c := IndexedNames(Normalize(p));
      var i := CommonPrefix(b, c);
      if i < |b| {
        assert b == nb.names;
        assert forall n :: n in b[i..] ==> n in b;
      }
    }
  }

  /** Without "." or "..", relativizing a path under base gives the names after base. */
  lemma RelativizeDotFree(base: Path, p: Path)
    requires StartsWith(p, base) && WellFormed(p)
    requires !HasDots(base) && !HasDots(p)
    ensures Relativize(base, p) == Ok(RelativizeUnder(base, p))
  {
    if p != base && (base.absolute || base.names != []) {
      assert forall k :: 0 <= k < |base.names| ==> base.names[k] == p.names[k];
      var i := CommonPrefix(base.names, p.names);
      assert i == |base.names|;
      if i < |p.names| {
        assert p.names[i..][0] == p.names[i] != [];
      }
    }
  }

  lemma {:induction false} NormalizeFromAppend(absolute: bool, acc: seq<JString>, x: seq<JString>, y: seq<JString>)
    ensures NormalizeFrom(absolute, acc, x + y) == NormalizeFrom(absolute, NormalizeFrom(absolute, acc, x), y)
    decreases |x|
  {
    if x == [] {
      assert x + y == y;
    } else {
      assert x + y != [] && (x + y)[0] == x[0] && (x + y)[1..] == x[1..] + y;
      NormalizeFromAppend(absolute, Fold(absolute, acc, x[0]), x[1..], y);
    }
  }

  /** Each ".." folded onto names that hold no ".." removes the last of them. */
  lemma {:induction false} NormalizeUp(absolute: bool, acc: seq<JString>, k: nat)
    requires k <= |acc| && ".." !in acc
    ensures NormalizeFrom(absolute, acc, Repeat("..", k)) == acc[..|acc| - k]
    decreases k
  {
    if k > 0 {
      assert acc[|acc| - 1] in acc;
      var up := acc[..|acc| - 1];
      assert Fold(absolute, acc, "..") == up;
      assert forall n :: n in up ==> n in acc;
      NormalizeUp(absolute, up, k - 1);
      assert up[..|up| - (k - 1)] == acc[..|acc| - k];
    }
  }

  /** Going k names up from b, normalised, keeps the first names of b. */
  lemma UpFrom(absolute: bool, b: seq<JString>, i: nat)
    requires i <= |b|
    requires "." !in b && ".." !in b
    ensures NormalizeFrom(absolute, [], b + Repeat("..", |b| - i)) == b[..i]
  {
    var up := Repeat("..", |b| - i);
    NormalizeFromAppend(absolute, [], b, up);
    DotFreeNormal(absolute, b);
    assert [] + b == b;
    NormalizeFromKeeps(absolute, [], b);
    NormalizeUp(absolute, b, |b| - i);
  }

  /** Going k names up from b and then down into rest, normalised. */
  lemma UpAndDown(absolute: bool, b: seq<JString>, i: nat, rest: seq<JString>)
    requires i <= |b|
    requires "." !in b && ".." !in b && "." !in rest && ".." !in rest
    ensures NormalizeFrom(absolute, [], b + Repeat("..", |b| - i) + rest) == b[..i] + rest
  {
    var up := Repeat("..", |b| - i);
    NormalizeFromAppend(absolute, [], b + up, rest);
    UpFrom(absolute, b, i);
    assert NormalizeFrom(absolute, [], b + up + rest) == NormalizeFrom(absolute, b[..i], rest);
    assert forall n :: n in b[..i] + rest ==> n in b || n in rest;
    DotFreeNormal(absolute, b[..i] + rest);
    NormalizeFromKeeps(absolute, b[..i], rest);
  }

  /**
   * Relativizing a well-formed p without "." or ".." against a base
   * without them: the names skipped are shared, and the rest are p's.
   */
  lemma RelativizeSplit(base: Path, p: Path)
    requires WellFormed(base) && WellFormed(p) && base.absolute == p.absolute
    requires !HasDots(base) && !HasDots(p)
    requires p != base && (base.absolute || base.names != [])
    ensures var i := CommonPrefix(base.names, IndexedNames(p));
      && i <= |p.names| && base.names[..i] == p.names[..i]
      && Relativize(base, p) == Ok(Path(false, Repeat("..", |base.names| - i) + p.names[i..]))
  {
    var b := base.names;
    assert IndexedNames(base) == b;
    var c := IndexedNames(p);
    var i := CommonPrefix(b, c);
    var rest := if c[i..] == [[]] then [] else c[i..];
    if p.names == [] && !p.absolute {
      assert b[0] != [];
      assert i == 0;
      assert rest == [] == p.names[i..];
    } else {
      assert c == p.names;
      if i < |p.names| {
        assert p.names[i..][0] == p.names[i] != [];
      }
      assert rest == p.names[i..];
    }
    if i < |b| {
      assert forall n :: n in b[i..] ==> n in b;
      assert !HasDots(Path(false, b[i..]));
    } else {
      assert Repeat("..", 0) + rest == rest;
    }
  }

  /**
   * Resolving the relativized path against base and normalising gives p
   * back, for well-formed paths without "." or "..".
   */
  lemma RelativizeResolves(base: Path, p: Path)
    requires WellFormed(base) && WellFormed(p) && base.absolute == p.absolute
    requires !HasDots(base) && !HasDots(p)
    ensures Relativize(base, p).Ok?
    ensures Normalize(Resolve(base, Relativize(base, p).value)) == p
  {
    RelativizeDefined(base, p);
    DotFreeNormal(p.absolute, p.names);
    NormalizeIdempotent(p);
    if p == base {
      assert Resolve(base, Path(false, [])) == Path(p.absolute, p.names + []);
      assert p.names + [] == p.names;
    } else if !base.absolute && base.names == [] {
      assert Relativize(base, p) == Ok(p);
      assert Resolve(base, p) == Path(false, [] + p.names);
      assert [] + p.names == p.names;
    } else {
      ResolveSplit(base, p);
    }
  }

  lemma ResolveSplit(base: Path, p: Path)
    requires WellFormed(base) && WellFormed(p) && base.absolute == p.absolute
    requires !HasDots(base) && !HasDots(p)
    requires p != base && (base.absolute || base.names != [])
    ensures Relativize(base, p).Ok?
    ensures Normalize(Resolve(base, Relativize(base, p).value)) == p
  {
    RelativizeSplit(base, p);
    var b := base.names;
    var i := CommonPrefix(b, IndexedNames(p));
    var rest := p.names[i..];
    var q := Path(false, Repeat("..", |b| - i) + rest);
    assert Relativize(base, p) == Ok(q);
    assert forall n :: n in rest ==> n in p.names;
    assert p.names == b[..i] + rest;
    assert Resolve(base, q) == Path(p.absolute, b + Repeat("..", |b| - i) + rest);
    UpAndDown(p.absolute, b, i, rest);
  }

  /** A relative base whose leftover names begin with ".." cannot be related to p. */
  lemma RelativizeRefusesUp()
    ensures Relativize(Path(false, ["..", "a"]), Path(false, ["b"])) == Err(IllegalArgument)
  {
    var base := Path(false, ["..", "a"]);
    assert HasDots(base);
    assert Normalize(base) == base;
    assert Normalize(Path(false, ["b"])) == Path(false, ["b"]);
    assert CommonPrefix(["..", "a"], ["b"]) == 0;
  }

  /** The root of an absolute path relativizing it: its names as a relative path. */
  function FromRoot(p: Path): (r: Path)
    ensures !r.absolute && r.names == p.names
  {
    Path(false, p.names)
  }
}

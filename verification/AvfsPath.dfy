/** Paths of the RAM filesystem as sequences of components, the entry table, and how paths resolve in it. */
module AvfsPath {

  const MAX_FILES := 512
  const MAX_PARTS := 64
  const MAX_DEPTH := 32

  /** A path as written: whether it starts with a slash, and its non-empty components. */
  datatype Path = Path(absolute: bool, tokens: seq<string>)

  predicate ValidPath(p: Path) {
    forall i :: 0 <= i < |p.tokens| ==> p.tokens[i] != ""
  }

  /** Components of a normalized path. */
  predicate Clean(parts: seq<string>) {
    |parts| <= MAX_PARTS && forall i :: 0 <= i < |parts| ==> CleanName(parts[i])
  }

  predicate CleanName(name: string) {
    name != "" && name != "." && name != ".."
  }

  /** Following tokens from a directory; at 64 components the rest is ignored. */
  function Walk(parts: seq<string>, tokens: seq<string>): seq<string>
    decreases |tokens|
  {
    if tokens == [] || |parts| >= MAX_PARTS then parts
    else if tokens[0] == "." then Walk(parts, tokens[1..])
    else if tokens[0] == ".." then Walk(if parts == [] then [] else parts[..|parts| - 1], tokens[1..])
    else Walk(parts + [tokens[0]], tokens[1..])
  }

  /** The components a path stands for; the empty path is the root. */
  function Normalized(cwd: seq<string>, p: Path): seq<string> {
    if !p.absolute && p.tokens == [] then [] else Walk(if p.absolute then [] else cwd, p.tokens)
  }

  method NormalizePath(cwd: seq<string>, p: Path) returns (parts: seq<string>)
    ensures parts == Normalized(cwd, p)
  {
    if !p.absolute && p.tokens == [] {
      return [];
    }
    parts := if p.absolute then [] else cwd;
    ghost var from := parts;
    var i := 0;
    while i < |p.tokens| && |parts| < MAX_PARTS
      invariant i <= |p.tokens|
      invariant Walk(parts, p.tokens[i..]) == Walk(from, p.tokens)
    {
      var token := p.tokens[i];
      assert p.tokens[i..][1..] == p.tokens[i + 1..];
      if token == "." {
      } else if token == ".." {
        if |parts| > 0 {
          parts := parts[..|parts| - 1];
        }
      } else {
        parts := parts + [token];
      }
      i := i + 1;
    }
  }

  lemma {:induction false} WalkClean(parts: seq<string>, tokens: seq<string>)
    requires Clean(parts) && forall i :: 0 <= i < |tokens| ==> tokens[i] != ""
    ensures Clean(Walk(parts, tokens))
    decreases |tokens|
  {
    if tokens != [] && |parts| < MAX_PARTS {
      if tokens[0] == "." {
        WalkClean(parts, tokens[1..]);
      } else if tokens[0] == ".." {
        WalkClean(if parts == [] then [] else parts[..|parts| - 1], tokens[1..]);
      } else {
        WalkClean(parts + [tokens[0]], tokens[1..]);
      }
    }
  }

  /** Clean tokens are appended, as far as there is room. */
  lemma {:induction false} WalkAppends(parts: seq<string>, tokens: seq<string>)
    requires |parts| + |tokens| <= MAX_PARTS && forall i :: 0 <= i < |tokens| ==> CleanName(tokens[i])
    ensures Walk(parts, tokens) == parts + tokens
    decreases |tokens|
  {
    if tokens != [] {
      WalkAppends(parts + [tokens[0]], tokens[1..]);
      assert parts + [tokens[0]] + tokens[1..] == parts + tokens;
    }
  }

  lemma {:induction false} WalkThrough(parts: seq<string>, a: seq<string>, b: seq<string>)
    requires |parts| + |a| <= MAX_PARTS && forall i :: 0 <= i < |a| ==> CleanName(a[i])
    ensures Walk(parts, a + b) == Walk(parts + a, b)
    decreases |a|
  {
    if a == [] {
      assert a + b == b && parts + a == parts;
    } else {
      assert (a + b)[1..] == a[1..] + b;
      assert parts + [a[0]] + a[1..] == parts + a;
      WalkThrough(parts + [a[0]], a[1..], b);
    }
  }

  /** A normalized path has no empty, `.` or `..` component. */
  lemma NormalizedClean(cwd: seq<string>, p: Path)
    requires Clean(cwd) && ValidPath(p)
    ensures Clean(Normalized(cwd, p))
  {
    if p.absolute || p.tokens != [] {
      WalkClean(if p.absolute then [] else cwd, p.tokens);
    }
  }

  /** Normalizing is idempotent, whatever the current directory is by then. */
  lemma NormalizedTwice(cwd: seq<string>, p: Path, later: seq<string>)
    requires Clean(cwd) && ValidPath(p)
    ensures Normalized(later, Path(true, Normalized(cwd, p))) == Normalized(cwd, p)
  {
    NormalizedClean(cwd, p);
    WalkAppends([], Normalized(cwd, p));
  }

  /** A relative path means the same as the path with the current directory in front of it. */
  lemma RelativeIsAbsolute(cwd: seq<string>, p: Path, later: seq<string>)
    requires Clean(cwd) && !p.absolute && p.tokens != []
    ensures Normalized(cwd, p) == Normalized(later, Path(true, cwd + p.tokens))
  {
    WalkThrough([], cwd, p.tokens);
    assert [] + cwd == cwd;
  }

  // What the components mean.

  /** A path can be followed in two parts. */
  lemma {:induction false} WalkCat(parts: seq<string>, a: seq<string>, b: seq<string>)
    ensures Walk(parts, a + b) == Walk(Walk(parts, a), b)
    decreases |a|
  {
    if a == [] {
      assert a + b == b;
    } else {
      assert (a + b)[1..] == a[1..] + b;
      if |parts| < MAX_PARTS {
        var next := if a[0] == "." then parts
                    else if a[0] == ".." then (if parts == [] then [] else parts[..|parts| - 1])
                    else parts + [a[0]];
        WalkCat(next, a[1..], b);
      }
    }
  }

  /** A component `.` changes nothing, wherever it stands. */
  lemma DotVanishes(parts: seq<string>, a: seq<string>, b: seq<string>)
    ensures Walk(parts, a + ["."] + b) == Walk(parts, a + b)
  {
    WalkCat(parts, a + ["."], b);
    WalkCat(parts, a, ["."]);
    WalkCat(parts, a, b);
    assert ["."][1..] == [];
  }

  /** A name and the `..` behind it cancel, except that there must be room for the `..` to be read: after 63
      components the name fills the last place. */
  lemma UpCancels(parts: seq<string>, a: seq<string>, x: string, b: seq<string>)
    requires CleanName(x) && |Walk(parts, a)| != MAX_PARTS - 1
    ensures Walk(parts, a + [x, ".."] + b) == Walk(parts, a + b)
  {
    WalkCat(parts, a + [x, ".."], b);
    WalkCat(parts, a, [x, ".."]);
    WalkCat(parts, a, b);
    NameThenUp(Walk(parts, a), x);
  }

  lemma NameThenUp(parts: seq<string>, x: string)
    requires CleanName(x)
    ensures Walk(parts, [x, ".."]) == if |parts| == MAX_PARTS - 1 then parts + [x] else parts
  {
    assert [x, ".."][1..] == [".."] && [".."][1..] == [];
    assert (parts + [x])[..|parts|] == parts;
    OneStep(parts, x);
    OneStep(parts + [x], "..");
    if |parts| < MAX_PARTS {
      assert Walk(parts, [x, ".."]) == Walk(parts + [x], [".."]);
    }
  }

  lemma OneStep(parts: seq<string>, token: string)
    ensures Walk(parts, [token]) ==
            if |parts| >= MAX_PARTS || token == "." then parts
            else if token == ".." then (if parts == [] then [] else parts[..|parts| - 1])
            else parts + [token]
  {
    assert [token][1..] == [];
  }

  /** `p/x/..` is p, if and only if p has not exactly 63 components; `p/.` is p, `/..` is the root, and `..` is the
      directory above the current one, if and only if that is less than 64 deep. */
  lemma UpAndStay(cwd: seq<string>, p: seq<string>, x: string)
    requires Clean(p) && CleanName(x) && Clean(cwd)
    ensures Normalized(cwd, Path(true, p + [x, ".."])) == p <==> |p| != 63
    ensures Normalized(cwd, Path(true, p + ["."])) == p
    ensures Normalized(cwd, Path(true, [".."])) == []
    ensures cwd != [] ==> (Normalized(cwd, Path(false, [".."])) == cwd[..|cwd| - 1] <==> |cwd| != 64)
    ensures |cwd| == 64 ==> Normalized(cwd, Path(false, [".."])) == cwd
    ensures Normalized(cwd, Path(false, ["."])) == cwd
  {
    WalkAppends([], p);
    assert [] + p == p;
    WalkCat([], p, [x, ".."]);
    WalkCat([], p, ["."]);
    NameThenUp(p, x);
    OneStep(p, ".");
    OneStep([], "..");
    OneStep(cwd, "..");
    OneStep(cwd, ".");
  }

  // The entry table.

  datatype Entry = Entry(name: string, size: nat, start: nat, used: bool, isDir: bool, parent: int)

  const BLANK := Entry("", 0, 0, false, false, 0)

  /** Every entry but the root names a parent slot, and siblings have different names. */
  predicate Tree(fs: seq<Entry>) {
    && |fs| == MAX_FILES
    && fs[0].used && fs[0].isDir && fs[0].parent == -1
    && (forall i :: 0 < i < MAX_FILES && fs[i].used ==> 0 <= fs[i].parent < MAX_FILES && CleanName(fs[i].name))
    && Unique(fs)
  }

  predicate Unique(fs: seq<Entry>) {
    forall i, j :: 0 <= i < j < |fs| && fs[i].used && fs[j].used && fs[i].parent == fs[j].parent
                   ==> fs[i].name != fs[j].name
  }

  predicate IsChild(e: Entry, parent: int, name: string) {
    e.used && e.parent == parent && e.name == name
  }

  /** The first entry from slot j on with this parent and name. */
  function Child(fs: seq<Entry>, parent: int, name: string, j: nat): int
    decreases |fs| - j
  {
    if j >= |fs| then -1
    else if IsChild(fs[j], parent, name) then j
    else Child(fs, parent, name, j + 1)
  }

  /** The entry that normalized components lead to from the root. */
  function Lookup(fs: seq<Entry>, parts: seq<string>): int {
    if parts == [] then 0 else
    var p := Lookup(fs, parts[..|parts| - 1]);
    if p < 0 then -1 else Child(fs, p, parts[|parts| - 1], 0)
  }

  lemma {:induction false} ChildIs(fs: seq<Entry>, parent: int, name: string, j: nat)
    ensures var r := Child(fs, parent, name, j);
            && (r >= 0 ==> j <= r < |fs| && IsChild(fs[r], parent, name))
            && (r < 0 ==> r == -1 && forall i :: j <= i < |fs| ==> !IsChild(fs[i], parent, name))
    decreases |fs| - j
  {
    if j < |fs| && !IsChild(fs[j], parent, name) {
      ChildIs(fs, parent, name, j + 1);
    }
  }

  /** What a path leads to has as its parent what the path without its last component leads to. */
  lemma LookupParent(fs: seq<Entry>, parts: seq<string>)
    requires parts != [] && Lookup(fs, parts) >= 0
    ensures Lookup(fs, parts) < |fs|
    ensures Lookup(fs, parts[..|parts| - 1]) == fs[Lookup(fs, parts)].parent
  {
    ChildIs(fs, Lookup(fs, parts[..|parts| - 1]), parts[|parts| - 1], 0);
  }

  /** Since siblings differ in name, the child with a name is found wherever it is. */
  lemma ChildFound(fs: seq<Entry>, i: nat)
    requires Unique(fs) && i < |fs| && fs[i].used
    ensures Child(fs, fs[i].parent, fs[i].name, 0) == i
  {
    ChildIs(fs, fs[i].parent, fs[i].name, 0);
    var r := Child(fs, fs[i].parent, fs[i].name, 0);
    if r < 0 {
      assert IsChild(fs[i], fs[i].parent, fs[i].name);
    } else {
      assert !(r < i) && !(i < r);
    }
  }

  method FindChild(files: array<Entry>, parent: int, name: string) returns (r: int)
    ensures r == Child(files[..], parent, name, 0)
  {
    for j := 0 to files.Length
      invariant Child(files[..], parent, name, 0) == Child(files[..], parent, name, j)
    {
      if files[j].used && files[j].parent == parent && files[j].name == name {
        return j;
      }
    }
    return -1;
  }

  lemma LookupNone(fs: seq<Entry>, parts: seq<string>, n: nat)
    requires n <= |parts| && Lookup(fs, parts[..n]) < 0
    ensures Lookup(fs, parts) == -1
    decreases |parts|
  {
    var k := |parts| - 1;
    if parts == [] {
    } else if n <= k {
      assert parts[..k][..n] == parts[..n];
      LookupNone(fs, parts[..k], n);
    } else {
      assert parts[..n] == parts;
      ChildIs(fs, Lookup(fs, parts[..k]), parts[k], 0);
    }
  }

  method FindEntry(files: array<Entry>, parts: seq<string>) returns (r: int)
    ensures r == Lookup(files[..], parts)
  {
    r := 0;
    for i := 0 to |parts|
      invariant 0 <= r == Lookup(files[..], parts[..i])
    {
      assert parts[..i + 1][..i] == parts[..i];
      r := FindChild(files, r, parts[i]);
      ChildIs(files[..], Lookup(files[..], parts[..i]), parts[i], 0);
      if r < 0 {
        LookupNone(files[..], parts, i + 1);
        return -1;
      }
    }
    assert parts[..|parts|] == parts;
  }

  /** The entry is k steps below the root. */
  predicate Rooted(fs: seq<Entry>, i: int, k: nat)
    decreases k
  {
    if k == 0 then i == 0
    else 0 < i < |fs| && fs[i].used && Rooted(fs, fs[i].parent, k - 1)
  }

  lemma {:induction false} RootedUnique(fs: seq<Entry>, i: int, k: nat, m: nat)
    requires Rooted(fs, i, k) && Rooted(fs, i, m)
    ensures k == m
    decreases k
  {
    if k > 0 && m > 0 {
      RootedUnique(fs, fs[i].parent, k - 1, m - 1);
    }
  }

  /** What a path leads to is as far below the root as the path is long. */
  lemma {:induction false} LookupRooted(fs: seq<Entry>, parts: seq<string>)
    requires Tree(fs) && Lookup(fs, parts) >= 0
    ensures Lookup(fs, parts) < |fs| && fs[Lookup(fs, parts)].used && Rooted(fs, Lookup(fs, parts), |parts|)
  {
    if parts != [] {
      var k := |parts| - 1;
      LookupRooted(fs, parts[..k]);
      ChildIs(fs, Lookup(fs, parts[..k]), parts[k], 0);
    }
  }

  /** The names from the root down to an entry; at most n of them. */
  function NamesUp(fs: seq<Entry>, i: int, n: nat): (r: seq<string>)
    ensures |r| <= n
    decreases n
  {
    if n == 0 || i <= 0 || i >= |fs| then [] else NamesUp(fs, fs[i].parent, n - 1) + [fs[i].name]
  }

  /** The path of an entry, by going up to the root and reversing; it gives up after 32 components. */
  method GetFullPath(files: array<Entry>, index: int) returns (ok: bool, path: seq<string>)
    requires files.Length == MAX_FILES
    ensures ok <==> 0 <= index < MAX_FILES && files[index].used
    ensures ok ==> path == NamesUp(files[..], index, MAX_DEPTH)
  {
    hide Reversed, NamesUp;
    if index < 0 || index >= MAX_FILES || !files[index].used {
      return false, [];
    }
    var components: seq<string> := [];
    var current := index;
    ghost var fs := files[..];
    ReversedNone();
    assert NamesUp(fs, index, MAX_DEPTH) + [] == NamesUp(fs, index, MAX_DEPTH);
    while current > 0 && current < MAX_FILES && |components| < MAX_DEPTH
      invariant |components| <= MAX_DEPTH
      invariant NamesUp(fs, index, MAX_DEPTH) == NamesUp(fs, current, MAX_DEPTH - |components|) + Reversed(components)
      decreases MAX_DEPTH - |components|
    {
      UpStep(fs, current, MAX_DEPTH - |components|, components);
      components := components + [files[current].name];
      current := files[current].parent;
    }
    NamesEnd(fs, current, MAX_DEPTH - |components|);
    path := Rebuild(components);
    return true, path;
  }

  /** One step up moves a name from the path still to come to the names collected. */
  lemma UpStep(fs: seq<Entry>, i: int, n: nat, names: seq<string>)
    requires 0 < i < |fs| && n > 0
    ensures NamesUp(fs, i, n) + Reversed(names)
         == NamesUp(fs, fs[i].parent, n - 1) + Reversed(names + [fs[i].name])
  {
    hide Reversed;
    ReversedSnoc(names, fs[i].name);
    var up := NamesUp(fs, fs[i].parent, n - 1);
    assert up + [fs[i].name] + Reversed(names) == up + ([fs[i].name] + Reversed(names));
  }

  lemma NamesEnd(fs: seq<Entry>, i: int, n: nat)
    requires n == 0 || i <= 0 || i >= |fs|
    ensures NamesUp(fs, i, n) == []
  {
  }

  method Rebuild(components: seq<string>) returns (path: seq<string>)
    ensures path == Reversed(components)
  {
    path := [];
    for i := 0 to |components|
      invariant path == Reversed(components[|components| - i..])
    {
      var k := |components| - 1 - i;
      assert components[k..] == [components[k]] + components[k + 1..];
      path := path + [components[k]];
    }
    assert components[0..] == components;
  }

  function Reversed(s: seq<string>): seq<string> {
    if s == [] then [] else Reversed(s[1..]) + [s[0]]
  }

  lemma ReversedNone()
    ensures Reversed([]) == []
  {
  }

  lemma {:induction false} ReversedSnoc(s: seq<string>, x: string)
    ensures Reversed(s + [x]) == [x] + Reversed(s)
  {
    if s == [] {
      assert (s + [x])[1..] == [];
    } else {
      assert (s + [x])[1..] == s[1..] + [x];
      ReversedSnoc(s[1..], x);
    }
  }

  lemma {:induction false} NamesLead(fs: seq<Entry>, i: int, k: nat, n: nat)
    requires Tree(fs) && Rooted(fs, i, k) && k <= n
    ensures Lookup(fs, NamesUp(fs, i, n)) == i
    decreases k
  {
    hide Unique, Lookup, Child;
    if k > 0 {
      NamesLead(fs, fs[i].parent, k - 1, n - 1);
      ChildFound(fs, i);
      LookupBelow(fs, NamesUp(fs, fs[i].parent, n - 1), fs[i].name);
    } else {
      assert Lookup(fs, []) == 0 by {
        LookupRoot(fs);
      }
    }
  }

  lemma LookupRoot(fs: seq<Entry>)
    ensures Lookup(fs, []) == 0
  {
  }

  lemma LookupBelow(fs: seq<Entry>, path: seq<string>, name: string)
    requires Lookup(fs, path) >= 0
    ensures Lookup(fs, path + [name]) == Child(fs, Lookup(fs, path), name, 0)
  {
    hide Child;
    assert (path + [name])[..|path|] == path;
  }

  lemma {:induction false} NamesShort(fs: seq<Entry>, i: int, k: nat, n: nat)
    requires Rooted(fs, i, k)
    ensures |NamesUp(fs, i, n)| == if k <= n then k else n
    decreases k
  {
    if k > 0 && n > 0 {
      NamesShort(fs, fs[i].parent, k - 1, n - 1);
    }
  }

  /** Looking up the full path of an entry gives the entry back exactly when it is at most 32 levels deep. */
  lemma FullPathResolves(fs: seq<Entry>, i: int, k: nat, cwd: seq<string>)
    requires Tree(fs) && Rooted(fs, i, k)
    ensures Lookup(fs, Normalized(cwd, Path(true, NamesUp(fs, i, MAX_DEPTH)))) == i <==> k <= 32
  {
    var path := NamesUp(fs, i, MAX_DEPTH);
    NamesShort(fs, i, k, MAX_DEPTH);
    NamesClean(fs, i, k, MAX_DEPTH);
    WalkAppends([], path);
    assert [] + path == path;
    if k <= MAX_DEPTH {
      NamesLead(fs, i, k, MAX_DEPTH);
    } else if Lookup(fs, path) == i {
      LookupRooted(fs, path);
      RootedUnique(fs, i, k, MAX_DEPTH);
    }
  }

  lemma {:induction false} NamesClean(fs: seq<Entry>, i: int, k: nat, n: nat)
    requires Tree(fs) && Rooted(fs, i, k)
    ensures forall j :: 0 <= j < |NamesUp(fs, i, n)| ==> CleanName(NamesUp(fs, i, n)[j])
    decreases k
  {
    if k > 0 && n > 0 {
      NamesClean(fs, fs[i].parent, k - 1, n - 1);
    }
  }

  // What changes of the table keep.

  lemma TreeSame(fs: seq<Entry>, i: nat, e: Entry)
    requires Tree(fs) && i < |fs|
    requires e.used == fs[i].used && e.isDir == fs[i].isDir && e.parent == fs[i].parent && e.name == fs[i].name
    ensures Tree(fs[i := e])
  {
  }

  lemma TreeWithout(fs: seq<Entry>, i: nat)
    requires Tree(fs) && i < |fs|
    ensures Tree(fs[i := BLANK]) <==> i != 0
  {
  }

  /** Adding an entry keeps the tree when the parent has no child of that name. */
  lemma TreeWith(fs: seq<Entry>, i: nat, e: Entry)
    requires Tree(fs) && 0 < i < |fs| && !fs[i].used
    requires e.used && 0 <= e.parent < MAX_FILES && CleanName(e.name) && Child(fs, e.parent, e.name, 0) < 0
    ensures Tree(fs[i := e])
  {
    ChildIs(fs, e.parent, e.name, 0);
    forall j | 0 <= j < |fs| && j != i && fs[j].used && fs[j].parent == e.parent
      ensures fs[j].name != e.name
    {
      assert !IsChild(fs[j], e.parent, e.name);
    }
  }

  /** A path still leads where it led as long as no entry on the way there has changed. */
  lemma {:induction false} LookupKept(fs: seq<Entry>, fs': seq<Entry>, parts: seq<string>)
    requires Tree(fs) && Unique(fs') && |fs'| == |fs| && Lookup(fs, parts) >= 0
    requires forall x: int, k: nat :: 0 <= x < |fs| && k <= |parts| && Rooted(fs, x, k) ==> fs'[x] == fs[x]
    ensures Lookup(fs', parts) == Lookup(fs, parts)
  {
    if parts != [] {
      var k := |parts| - 1;
      LookupKept(fs, fs', parts[..k]);
      LookupRooted(fs, parts);
      ChildIs(fs, Lookup(fs, parts[..k]), parts[k], 0);
      ChildFound(fs', Lookup(fs, parts));
    }
  }

  lemma {:induction false} RootedUsed(fs: seq<Entry>, x: int, k: nat)
    requires Tree(fs) && Rooted(fs, x, k)
    ensures 0 <= x < |fs| && fs[x].used
  {
  }

  /** Adding an entry changes no path that led somewhere, and the entry is found under its parent's path. */
  lemma LookupAdded(fs: seq<Entry>, i: nat, e: Entry, parts: seq<string>)
    requires Tree(fs) && 0 < i < |fs| && !fs[i].used && e.used && Tree(fs[i := e])
    requires parts != [] && Lookup(fs, parts[..|parts| - 1]) == e.parent >= 0 && e.name == parts[|parts| - 1]
    ensures Lookup(fs[i := e], parts) == i
  {
    hide Lookup, Child;
    var k := |parts| - 1;
    forall x: int, n: nat | 0 <= x < |fs| && n <= k && Rooted(fs, x, n)
      ensures fs[i := e][x] == fs[x]
    {
      RootedUsed(fs, x, n);
    }
    ParentFound(fs, parts[..k]);
    LookupKept(fs, fs[i := e], parts[..k]);
    ChildFound(fs[i := e], i);
    LookupLast(fs[i := e], parts);
  }

  lemma ParentFound(fs: seq<Entry>, parts: seq<string>)
    requires Tree(fs)
    ensures -1 <= Lookup(fs, parts) < |fs|
    ensures Lookup(fs, parts) >= 0 ==> fs[Lookup(fs, parts)].used
  {
    if Lookup(fs, parts) >= 0 {
      LookupRooted(fs, parts);
    } else if parts != [] {
      ChildIs(fs, Lookup(fs, parts[..|parts| - 1]), parts[|parts| - 1], 0);
    }
  }

  lemma LookupLast(fs: seq<Entry>, parts: seq<string>)
    requires parts != []
    ensures var p := Lookup(fs, parts[..|parts| - 1]);
            Lookup(fs, parts) == if p < 0 then -1 else Child(fs, p, parts[|parts| - 1], 0)
  {
  }

  // Subtrees.

  /** Entry j is d, or lies below it through directories only, at most n levels down. */
  predicate Under(fs: seq<Entry>, d: int, j: int, n: nat)
    decreases n
  {
    j == d
    || (n > 0 && 0 < j < |fs| && fs[j].used && 0 <= fs[j].parent < |fs|
        && fs[fs[j].parent].used && fs[fs[j].parent].isDir && Under(fs, d, fs[j].parent, n - 1))
  }

  /** The table without entry d and everything at most n levels below it. */
  function Pruned(fs: seq<Entry>, d: int, n: nat): (r: seq<Entry>)
    ensures |r| == |fs|
  {
    seq(|fs|, j requires 0 <= j < |fs| => if Under(fs, d, j, n) then BLANK else fs[j])
  }

  predicate ChildOf(fs: seq<Entry>, d: int, c: int) {
    0 < c < |fs| && fs[c].used && fs[c].parent == d
  }

  /** Entry j is one of the children of d in the first i slots or below it, at most n levels below d. */
  predicate Gone(fs: seq<Entry>, d: int, i: int, j: int, n: nat) {
    n > 0 && exists c :: 0 < c < i && ChildOf(fs, d, c) && Under(fs, c, j, n - 1)
  }

  /** The table once the children of d in the first i slots are removed. */
  predicate PrunedTo(fs: seq<Entry>, d: int, i: int, n: nat, now: seq<Entry>) {
    |now| == |fs| && forall j :: 0 <= j < |fs| ==> now[j] == if Gone(fs, d, i, j, n) then BLANK else fs[j]
  }

  lemma {:induction false} UnderMonotone(fs: seq<Entry>, d: int, j: int, n: nat, m: nat)
    requires Under(fs, d, j, n) && n <= m
    ensures Under(fs, d, j, m)
    decreases n
  {
    if j != d {
      UnderMonotone(fs, d, fs[j].parent, n - 1, m - 1);
    }
  }

  /** What is below an entry is deeper than it, by exactly the levels between them. */
  lemma {:induction false} UnderDepth(fs: seq<Entry>, d: int, j: int, n: nat, k: nat) returns (m: nat)
    requires Under(fs, d, j, n) && Rooted(fs, d, k)
    ensures Rooted(fs, j, k + m) && Under(fs, d, j, m) && m <= n && (m == 0 <==> j == d)
    decreases n
  {
    if j == d {
      m := 0;
    } else {
      m := UnderDepth(fs, d, fs[j].parent, n - 1, k);
      m := m + 1;
    }
  }

  /** Something properly below a directory is below one of its children. */
  lemma {:induction false} BelowChild(fs: seq<Entry>, d: int, j: int, n: nat) returns (c: int)
    requires Under(fs, d, j, n) && j != d && 0 <= d < |fs|
    ensures ChildOf(fs, d, c) && fs[d].isDir && fs[d].used && n > 0 && Under(fs, c, j, n - 1)
    decreases n
  {
    if fs[j].parent == d {
      c := j;
    } else {
      c := BelowChild(fs, d, fs[j].parent, n - 1);
    }
  }

  lemma {:induction false} ChildBelow(fs: seq<Entry>, d: int, c: int, j: int, n: nat)
    requires 0 <= d < |fs| && fs[d].used && fs[d].isDir && ChildOf(fs, d, c) && Under(fs, c, j, n)
    ensures Under(fs, d, j, n + 1)
    decreases n
  {
    if j == c {
      assert Under(fs, d, d, n);
    } else {
      ChildBelow(fs, d, c, fs[j].parent, n - 1);
    }
  }

  /** An entry is below at most one entry of each depth. */
  lemma {:induction false} OneAncestor(fs: seq<Entry>, a: int, b: int, j: int, n: nat, m: nat, k: nat)
    requires Under(fs, a, j, n) && Under(fs, b, j, m) && Rooted(fs, a, k) && Rooted(fs, b, k)
    ensures a == b
    decreases n
  {
    if j == a || j == b {
      var x := UnderDepth(fs, a, j, n, k);
      var y := UnderDepth(fs, b, j, m, k);
      RootedUnique(fs, j, k + x, k + y);
    } else {
      OneAncestor(fs, a, b, fs[j].parent, n - 1, m - 1, k);
    }
  }

  lemma ChildRooted(fs: seq<Entry>, d: int, c: int, k: nat)
    requires Rooted(fs, d, k) && ChildOf(fs, d, c)
    ensures Rooted(fs, c, k + 1)
  {
  }

  /** What is below child i was not below an earlier child. */
  lemma BelowStays(fs: seq<Entry>, d: int, i: int, j: int, m: nat, k: nat, n: nat)
    requires Rooted(fs, d, k) && ChildOf(fs, d, i) && Under(fs, i, j, m)
    ensures !Gone(fs, d, i, j, n)
  {
    if Gone(fs, d, i, j, n) {
      var c :| 0 < c < i && ChildOf(fs, d, c) && Under(fs, c, j, n - 1);
      ChildRooted(fs, d, c, k);
      ChildRooted(fs, d, i, k);
      OneAncestor(fs, c, i, j, n - 1, m, k + 1);
    }
  }

  /** Nothing on the way to d is below a child of d. */
  lemma WayStays(fs: seq<Entry>, d: int, i: int, k: nat, x: int, m: nat, n: nat)
    requires Rooted(fs, d, k) && Rooted(fs, x, m) && m <= k
    ensures !Gone(fs, d, i, x, n)
  {
    if Gone(fs, d, i, x, n) {
      var c :| 0 < c < i && ChildOf(fs, d, c) && Under(fs, c, x, n - 1);
      ChildRooted(fs, d, c, k);
      var y := UnderDepth(fs, c, x, n - 1, k + 1);
      RootedUnique(fs, x, m, k + 1 + y);
    }
  }

  /** For entries still there, being below child i means the same before and after the earlier children went. */
  lemma {:induction false} UnderStays(fs: seq<Entry>, now: seq<Entry>, d: int, i: int, j: int, m: nat, k: nat, n: nat)
    requires Rooted(fs, d, k) && ChildOf(fs, d, i) && PrunedTo(fs, d, i, n, now)
    requires 0 <= j < |fs| && !Gone(fs, d, i, j, n)
    ensures Under(now, i, j, m) <==> Under(fs, i, j, m)
    decreases m
  {
    hide Gone;
    if j != i && m > 0 && 0 < j && fs[j].used && 0 <= fs[j].parent < |fs| {
      var p := fs[j].parent;
      if Gone(fs, d, i, p, n) {
        if Under(fs, i, p, m - 1) {
          BelowStays(fs, d, i, p, m - 1, k, n);
        }
      } else {
        UnderStays(fs, now, d, i, p, m - 1, k, n);
      }
    }
  }

  /** Removing child i as well. */
  lemma PruneNext(fs: seq<Entry>, now: seq<Entry>, d: int, i: int, k: nat, n: nat)
    requires Rooted(fs, d, k) && ChildOf(fs, d, i) && PrunedTo(fs, d, i, n, now) && n > 0
    ensures PrunedTo(fs, d, i + 1, n, Pruned(now, i, n - 1))
  {
    hide Under;
    forall j | 0 <= j < |fs|
      ensures Pruned(now, i, n - 1)[j] == if Gone(fs, d, i + 1, j, n) then BLANK else fs[j]
    {
      if !Gone(fs, d, i, j, n) {
        UnderStays(fs, now, d, i, j, n - 1, k, n);
      }
    }
  }

  /** A slot that holds no child, or a child that is out of reach, is passed over. */
  lemma PruneSkip(fs: seq<Entry>, now: seq<Entry>, d: int, i: int, k: nat, n: nat)
    requires Rooted(fs, d, k) && PrunedTo(fs, d, i, n, now) && 0 <= i < |fs| && (n == 0 || !ChildOf(now, d, i))
    ensures PrunedTo(fs, d, i + 1, n, now)
  {
    hide Under;
    if ChildOf(fs, d, i) && n > 0 {
      UnderSelf(fs, i, 0);
      BelowStays(fs, d, i, i, 0, k, n);
    }
    forall j | 0 <= j < |fs|
      ensures Gone(fs, d, i + 1, j, n) <==> Gone(fs, d, i, j, n)
    {
    }
  }

  /** A file has nothing below it. */
  lemma PruneFile(fs: seq<Entry>, i: int, n: nat)
    requires 0 <= i < |fs| && !fs[i].isDir
    ensures Pruned(fs, i, n) == fs[i := BLANK]
  {
    forall j | 0 <= j < |fs| && j != i
      ensures !Under(fs, i, j, n)
    {
      if Under(fs, i, j, n) {
        var c := BelowChild(fs, i, j, n);
      }
    }
  }

  /** Once all children are gone, removing the directory itself removes exactly what is under it. */
  lemma PruneAll(fs: seq<Entry>, now: seq<Entry>, d: int, n: nat)
    requires |fs| == MAX_FILES && 0 <= d < |fs| && fs[d].used && fs[d].isDir
    requires PrunedTo(fs, d, MAX_FILES, n, now)
    ensures now[d := BLANK] == Pruned(fs, d, n)
  {
    hide Under, Gone;
    UnderSelf(fs, d, n);
    forall j | 0 <= j < |fs| && j != d
      ensures Gone(fs, d, MAX_FILES, j, n) <==> Under(fs, d, j, n)
    {
      GoneIffUnder(fs, d, j, n);
    }
  }

  lemma UnderSelf(fs: seq<Entry>, d: int, n: nat)
    ensures Under(fs, d, d, n)
  {
  }

  lemma GoneIffUnder(fs: seq<Entry>, d: int, j: int, n: nat)
    requires 0 <= d < |fs| == MAX_FILES && fs[d].used && fs[d].isDir && j != d
    ensures Gone(fs, d, MAX_FILES, j, n) <==> Under(fs, d, j, n)
  {
    hide Under;
    if Under(fs, d, j, n) {
      var c := BelowChild(fs, d, j, n);
    }
    if Gone(fs, d, MAX_FILES, j, n) {
      var c :| 0 < c < MAX_FILES && ChildOf(fs, d, c) && Under(fs, c, j, n - 1);
      ChildBelow(fs, d, c, j, n - 1);
    }
  }

  // Directories hang under directories.

  /** The entry is a directory k levels below the root, with only directories above it. */
  predicate DirAt(fs: seq<Entry>, i: int, k: nat)
    decreases k
  {
    if k == 0 then i == 0
    else 0 < i < |fs| && fs[i].used && fs[i].isDir && DirAt(fs, fs[i].parent, k - 1)
  }

  /** Every directory is below directories only, and no deeper than a path is long. Of files this is not true. */
  ghost predicate Nested(fs: seq<Entry>) {
    forall i :: 0 <= i < |fs| && fs[i].used && fs[i].isDir ==> exists k: nat :: k <= MAX_PARTS && DirAt(fs, i, k)
  }

  lemma {:induction false} DirRooted(fs: seq<Entry>, i: int, k: nat)
    requires DirAt(fs, i, k)
    ensures Rooted(fs, i, k)
    decreases k
  {
    if k > 0 {
      DirRooted(fs, fs[i].parent, k - 1);
    }
  }

  /** A directory that is k levels below the root is there through directories. */
  lemma DirDepth(fs: seq<Entry>, i: int, k: nat)
    requires Nested(fs) && Rooted(fs, i, k) && 0 <= i < |fs| && fs[i].used && fs[i].isDir
    ensures k <= MAX_PARTS && DirAt(fs, i, k)
  {
    var m: nat :| m <= MAX_PARTS && DirAt(fs, i, m);
    DirRooted(fs, i, m);
    RootedUnique(fs, i, k, m);
  }

  lemma {:induction false} DirAtKept(fs: seq<Entry>, fs': seq<Entry>, i: int, k: nat)
    requires |fs'| == |fs| && DirAt(fs, i, k)
    requires forall x :: 0 <= x < |fs| && fs[x].used && fs[x].isDir ==>
               fs'[x].used && fs'[x].isDir && fs'[x].parent == fs[x].parent
    ensures DirAt(fs', i, k)
    decreases k
  {
    if k > 0 {
      DirAtKept(fs, fs', fs[i].parent, k - 1);
    }
  }

  lemma NestedSame(fs: seq<Entry>, i: nat, e: Entry)
    requires Nested(fs) && i < |fs|
    requires e.used == fs[i].used && e.isDir == fs[i].isDir && e.parent == fs[i].parent
    ensures Nested(fs[i := e])
  {
    var fs' := fs[i := e];
    forall x | 0 <= x < |fs'| && fs'[x].used && fs'[x].isDir
      ensures exists k: nat :: k <= MAX_PARTS && DirAt(fs', x, k)
    {
      var k: nat :| k <= MAX_PARTS && DirAt(fs, x, k);
      DirAtKept(fs, fs', x, k);
    }
  }

  /** A new entry may hang anywhere if it is a file, and under a directory that is not too deep if it is not. */
  lemma NestedWith(fs: seq<Entry>, i: nat, e: Entry, k: nat)
    requires Nested(fs) && 0 < i < |fs| && !fs[i].used
    requires e.used && (e.isDir ==> k < MAX_PARTS && DirAt(fs, e.parent, k))
    ensures Nested(fs[i := e])
  {
    var fs' := fs[i := e];
    forall x | 0 <= x < |fs'| && fs'[x].used && fs'[x].isDir
      ensures exists m: nat :: m <= MAX_PARTS && DirAt(fs', x, m)
    {
      if x == i {
        DirAtKept(fs, fs', e.parent, k);
        assert DirAt(fs', i, k + 1);
      } else {
        var m: nat :| m <= MAX_PARTS && DirAt(fs, x, m);
        DirAtKept(fs, fs', x, m);
      }
    }
  }

  lemma {:induction false} DirAtWithout(fs: seq<Entry>, i: nat, x: int, k: nat)
    requires 0 < i < |fs| && x != i && DirAt(fs, x, k)
    requires forall c :: ChildOf(fs, i, c) ==> !fs[c].isDir
    ensures DirAt(fs[i := BLANK], x, k)
    decreases k
  {
    if k > 0 {
      assert fs[x].parent == i ==> ChildOf(fs, i, x);
      DirAtWithout(fs, i, fs[x].parent, k - 1);
    }
  }

  /** An entry can go that has no directory right below it. */
  lemma NestedWithout(fs: seq<Entry>, i: nat)
    requires Nested(fs) && 0 < i < |fs| && forall c :: ChildOf(fs, i, c) ==> !fs[c].isDir
    ensures Nested(fs[i := BLANK])
  {
    var fs' := fs[i := BLANK];
    forall x | 0 <= x < |fs'| && fs'[x].used && fs'[x].isDir
      ensures exists k: nat :: k <= MAX_PARTS && DirAt(fs', x, k)
    {
      var k: nat :| k <= MAX_PARTS && DirAt(fs, x, k);
      DirAtWithout(fs, i, x, k);
    }
  }

  /** No directory hangs under a file. */
  lemma FileHoldsNone(fs: seq<Entry>, i: nat)
    requires Nested(fs) && 0 < i < |fs| && !fs[i].isDir
    ensures forall c :: ChildOf(fs, i, c) ==> !fs[c].isDir
  {
    forall c | ChildOf(fs, i, c)
      ensures !fs[c].isDir
    {
      if fs[c].isDir {
        var k: nat :| k <= MAX_PARTS && DirAt(fs, c, k);
        DirParent(fs, c, k);
      }
    }
  }

  lemma DirParent(fs: seq<Entry>, c: int, k: nat)
    requires DirAt(fs, c, k) && c > 0
    ensures fs[c].parent == 0 || (0 < fs[c].parent < |fs| && fs[fs[c].parent].isDir)
  {
  }

  /** When the children in reach are gone, no directory is left right below d. */
  lemma NoDirLeft(fs: seq<Entry>, now: seq<Entry>, d: int, k: nat)
    requires |fs| == MAX_FILES && Nested(fs) && Rooted(fs, d, k) && k <= MAX_PARTS
    requires PrunedTo(fs, d, MAX_FILES, MAX_PARTS - k, now)
    ensures forall c :: ChildOf(now, d, c) ==> !now[c].isDir
  {
    hide Nested, Under, Rooted, Gone;
    forall c | ChildOf(now, d, c)
      ensures !now[c].isDir
    {
      if now[c].isDir {
        ChildRooted(fs, d, c, k);
        DirDepth(fs, c, k + 1);
        ChildGone(fs, d, c, MAX_PARTS - k);
      }
    }
  }

  lemma ChildGone(fs: seq<Entry>, d: int, c: int, n: nat)
    requires |fs| == MAX_FILES && ChildOf(fs, d, c) && n > 0
    ensures Gone(fs, d, MAX_FILES, c, n)
  {
    UnderSelf(fs, c, n - 1);
  }

  // What a removal leaves behind.

  /** Entry j is in the subtree of d, however deep. */
  ghost predicate InSubtree(fs: seq<Entry>, d: int, j: int) {
    exists m: nat :: Under(fs, d, j, m)
  }

  /** A file right below a directory that is as deep as a path can reach. */
  predicate OutOfReach(fs: seq<Entry>, j: int) {
    0 <= j < |fs| && fs[j].used && !fs[j].isDir && DirAt(fs, fs[j].parent, MAX_PARTS)
  }

  /** Removing what is in reach removes the whole subtree exactly when no file in it is out of reach. */
  lemma WholeSubtreeGoes(fs: seq<Entry>, d: int, k: nat)
    requires Tree(fs) && Nested(fs) && DirAt(fs, d, k) && k <= MAX_PARTS
    ensures (forall j :: 0 <= j < |fs| ==>
               Pruned(fs, d, MAX_PARTS - k)[j] == if InSubtree(fs, d, j) then BLANK else fs[j])
       <==> !exists j :: OutOfReach(fs, j) && InSubtree(fs, d, j)
  {
    hide Nested, Under, DirAt, Rooted, InSubtree, OutOfReach;
    forall j | 0 <= j < |fs|
      ensures Under(fs, d, j, MAX_PARTS - k) <==> InSubtree(fs, d, j) && !OutOfReach(fs, j)
      ensures InSubtree(fs, d, j) && OutOfReach(fs, j) ==> fs[j].used
    {
      ReachOrNot(fs, d, j, k);
    }
    forall j | OutOfReach(fs, j)
      ensures 0 <= j < |fs|
    {
      OutIsEntry(fs, j);
    }
  }

  lemma OutIsEntry(fs: seq<Entry>, j: int)
    requires OutOfReach(fs, j)
    ensures 0 <= j < |fs| && fs[j].used
  {
  }

  lemma ReachOrNot(fs: seq<Entry>, d: int, j: int, k: nat)
    requires Tree(fs) && Nested(fs) && DirAt(fs, d, k) && k <= MAX_PARTS && 0 <= j < |fs|
    ensures Under(fs, d, j, MAX_PARTS - k) <==> InSubtree(fs, d, j) && !OutOfReach(fs, j)
    ensures OutOfReach(fs, j) ==> fs[j].used
  {
    hide Nested, Under, DirAt, Rooted;
    DirRooted(fs, d, k);
    if m: nat :| Under(fs, d, j, m) {
      var x := UnderDepth(fs, d, j, m, k);
      if x <= MAX_PARTS - k {
        UnderMonotone(fs, d, j, x, MAX_PARTS - k);
        if OutOfReach(fs, j) {
          OutDepth(fs, j);
          RootedUnique(fs, j, k + x, MAX_PARTS + 1);
        }
      } else {
        TooDeep(fs, d, j, x, k);
        if Under(fs, d, j, MAX_PARTS - k) {
          var y := UnderDepth(fs, d, j, MAX_PARTS - k, k);
          RootedUnique(fs, j, k + x, k + y);
        }
      }
    }
  }

  lemma OutDepth(fs: seq<Entry>, j: int)
    requires Tree(fs) && OutOfReach(fs, j)
    ensures Rooted(fs, j, MAX_PARTS + 1)
  {
    DirRooted(fs, fs[j].parent, MAX_PARTS);
  }

  /** Only a file can be more than 64 levels deep in a subtree, and it is right below a directory of depth 64. */
  lemma TooDeep(fs: seq<Entry>, d: int, j: int, m: nat, k: nat)
    requires Nested(fs) && DirAt(fs, d, k) && Under(fs, d, j, m) && Rooted(fs, j, k + m) && 0 <= j < |fs|
    requires k + m > MAX_PARTS >= k
    ensures OutOfReach(fs, j)
  {
    hide Nested, DirAt;
    RootedStep(fs, d, j, m, k);
    DirDepth(fs, fs[j].parent, k + m - 1);
    if fs[j].isDir {
      DirDepth(fs, j, k + m);
    }
  }

  lemma RootedStep(fs: seq<Entry>, d: int, j: int, m: nat, k: nat)
    requires DirAt(fs, d, k) && Under(fs, d, j, m) && Rooted(fs, j, k + m) && k + m > MAX_PARTS >= k
    ensures 0 < j < |fs| && fs[j].used && 0 <= fs[j].parent < |fs| && Rooted(fs, fs[j].parent, k + m - 1)
    ensures fs[fs[j].parent].used && fs[fs[j].parent].isDir
  {
    DirRooted(fs, d, k);
    if j == d {
      RootedUnique(fs, d, k, k + m);
    }
  }

  /** A table of directories inside each other, 64 of them, with a file in the last one. */
  function Ladder(): (r: seq<Entry>)
    ensures |r| == MAX_FILES
  {
    seq(MAX_FILES, i => if i == 0 then Entry("/", 0, 0, true, true, -1)
                        else if i <= MAX_PARTS + 1 then Entry("a", 0, 0, true, i <= MAX_PARTS, i - 1)
                        else BLANK)
  }

  lemma {:induction false} LadderDir(i: nat)
    requires i <= MAX_PARTS
    ensures DirAt(Ladder(), i, i)
  {
    if i > 0 {
      LadderDir(i - 1);
    }
  }

  lemma LadderNested()
    ensures Tree(Ladder()) && Nested(Ladder())
  {
    forall i | 0 <= i < |Ladder()| && Ladder()[i].used && Ladder()[i].isDir
      ensures exists k: nat :: k <= MAX_PARTS && DirAt(Ladder(), i, k)
    {
      LadderDir(i);
    }
  }

  /** An entry that its own full path misses: the one at depth 33 has the path of the one at depth 32. */
  lemma FullPathMisses(cwd: seq<string>)
    ensures Tree(Ladder()) && Rooted(Ladder(), 33, 33)
    ensures Lookup(Ladder(), Normalized(cwd, Path(true, NamesUp(Ladder(), 33, MAX_DEPTH)))) == 32
  {
    hide Tree, Rooted, NamesUp, Lookup, Walk, DirAt, CleanName;
    LadderNested();
    LadderDir(33);
    LadderDir(32);
    DirRooted(Ladder(), 33, 33);
    DirRooted(Ladder(), 32, 32);
    LadderNames(32, 32);
    LadderNames(33, 32);
    NamesLead(Ladder(), 32, 32, 32);
    NamesClean(Ladder(), 32, 32, 32);
    WalkAppends([], NamesUp(Ladder(), 32, 32));
    assert [] + NamesUp(Ladder(), 32, 32) == NamesUp(Ladder(), 32, 32);
  }

  lemma {:induction false} LadderNames(i: nat, n: nat)
    requires n <= i <= MAX_PARTS
    ensures NamesUp(Ladder(), i, n) == seq(n, _ => "a")
    decreases n
  {
    if n > 0 {
      LadderNames(i - 1, n - 1);
      assert seq(n - 1, _ => "a") + ["a"] == seq(n, _ => "a");
    }
  }

  /** Removing the topmost directory of the ladder leaves the file behind. */
  lemma LadderFileStays()
    ensures Tree(Ladder()) && Nested(Ladder()) && DirAt(Ladder(), 1, 1)
    ensures InSubtree(Ladder(), 1, 65) && Pruned(Ladder(), 1, MAX_PARTS - 1)[65] == Ladder()[65] != BLANK
  {
    hide Tree, Nested, DirAt, Under;
    LadderNested();
    LadderDir(1);
    LadderDir(MAX_PARTS);
    LadderUnder(65);
    ReachOrNot(Ladder(), 1, 65, 1);
  }

  lemma {:induction false} LadderUnder(j: nat)
    requires 1 <= j <= MAX_PARTS + 1
    ensures Under(Ladder(), 1, j, j - 1)
  {
    if j > 1 {
      LadderUnder(j - 1);
    }
  }
}

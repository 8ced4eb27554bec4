/** The directory being rendered, as an immutable value, and the ordering
    and filtering applied to one directory's entries. */
module FileTree {
  import opened Wrappers
  import opened Annotations

  /** A path below the rendered directory, as the names of its components. */
  type Path = seq<string>

  /** One directory entry as the traversal sees it. `init` on a directory is
      what probing its `__init__.py` gives (`None` when there is none);
      `Other` is an entry that is neither a directory nor a regular file. */
  datatype Node =
    | Dir(name: string, init: Option<FileRead>, listing: Listing)
    | File(name: string, read: FileRead)
    | Other(name: string)

  /** The result of listing a directory: its entries in the order the
      operating system returns them, or a permission error. */
  datatype Listing = Listed(entries: seq<Node>) | Unlistable

  function EntriesOf(d: Node): seq<Node>
  {
    if d.Dir? && d.listing.Listed? then d.listing.entries else []
  }

  /** Python's `a <= b` on `str`: lexicographic by code point. */
  predicate NameLe(a: string, b: string)
  {
    |a| == 0 || (|b| > 0 && (a[0] < b[0] || (a[0] == b[0] && NameLe(a[1..], b[1..]))))
  }

  lemma {:induction false} NameLeTotal(a: string, b: string)
    ensures NameLe(a, b) || NameLe(b, a)
  {
    if |a| > 0 && |b| > 0 && a[0] == b[0] {
      NameLeTotal(a[1..], b[1..]);
    }
  }

  lemma {:induction false} NameLeTransitive(a: string, b: string, c: string)
    requires NameLe(a, b) && NameLe(b, c)
    ensures NameLe(a, c)
  {
    if |a| > 0 && a[0] == b[0] && b[0] == c[0] {
      NameLeTransitive(a[1..], b[1..], c[1..]);
    }
  }

  lemma {:induction false} NameLeReflexive(a: string)
    ensures NameLe(a, a)
  {
    if |a| > 0 {
      NameLeReflexive(a[1..]);
    }
  }

  /** Equal names are the only ones ordered both ways. */
  lemma {:induction false} NameLeAntisymmetric(a: string, b: string)
    requires NameLe(a, b) && NameLe(b, a)
    ensures a == b
  {
    if |a| > 0 {
      NameLeAntisymmetric(a[1..], b[1..]);
      assert a == [a[0]] + a[1..] && b == [b[0]] + b[1..];
    }
  }

  /** Ascending by name. */
  ghost predicate SortedByName(s: seq<Node>)
  {
    forall i, j :: 0 <= i < j < |s| ==> NameLe(s[i].name, s[j].name)
  }

  lemma ConsSorted(y: Node, t: seq<Node>)
    requires SortedByName(t)
    requires forall z :: z in t ==> NameLe(y.name, z.name)
    ensures SortedByName([y] + t)
  {
    var r := [y] + t;
    forall i, j | 0 <= i < j < |r| ensures NameLe(r[i].name, r[j].name) {
      assert r[j] == t[j - 1];
      if i > 0 {
        assert r[i] == t[i - 1];
      } else {
        assert t[j - 1] in t;
      }
    }
  }

  /** In a sorted sequence every element is at least the first. */
  lemma FirstIsLeast(x: Node, s: seq<Node>)
    requires SortedByName(s) && |s| > 0 && NameLe(x.name, s[0].name)
    ensures forall z :: z in s ==> NameLe(x.name, z.name)
  {
    forall z | z in s ensures NameLe(x.name, z.name) {
      var j :| 0 <= j < |s| && s[j] == z;
      if j > 0 { NameLeTransitive(x.name, s[0].name, s[j].name); }
    }
  }

  /** A lower bound of `u` and `x` bounds the elements of `r`, which holds
      exactly those of `u` and `x`. */
  lemma BoundKept(y: Node, x: Node, u: seq<Node>, r: seq<Node>)
    requires multiset(r) == multiset(u) + multiset{x}
    requires NameLe(y.name, x.name) && forall z :: z in u ==> NameLe(y.name, z.name)
    ensures forall z :: z in r ==> NameLe(y.name, z.name)
  {
    forall z | z in r ensures NameLe(y.name, z.name) {
      assert z in multiset(r);
      if z != x {
        assert z in multiset(u);
      }
    }
  }

  /** Puts `x` before the first element whose name is not smaller, so that
      equal names keep their order (Python's sort is stable). */
  function Insert(x: Node, s: seq<Node>): (r: seq<Node>)
    requires SortedByName(s)
    ensures SortedByName(r)
    ensures multiset(r) == multiset(s) + multiset{x}
  {
    if s == [] then [x]
    else if NameLe(x.name, s[0].name) then
      FirstIsLeast(x, s);
      ConsSorted(x, s);
      [x] + s
    else
      NameLeTotal(x.name, s[0].name);
      assert s == [s[0]] + s[1..];
      var t := Insert(x, s[1..]);
      NameLeReflexive(s[0].name);
      FirstIsLeast(s[0], s);
      BoundKept(s[0], x, s[1..], t);
      ConsSorted(s[0], t);
      [s[0]] + t
  }

  /** `list.sort(key=lambda p: p.name)`: a permutation, ascending by name. */
  function SortByName(s: seq<Node>): (r: seq<Node>)
    ensures SortedByName(r)
    ensures multiset(r) == multiset(s)
    ensures forall e :: e in r <==> e in s
  {
    if s == [] then []
    else
      assert s == [s[0]] + s[1..];
      var r := Insert(s[0], SortByName(s[1..]));
      forall e ensures e in r <==> e in s {
        assert e in r <==> e in multiset(r);
        assert e in s <==> e in multiset(s);
      }
      r
  }

  /** `[p for p in contents if p.is_dir()]` */
  function DirsOf(es: seq<Node>): (r: seq<Node>)
    ensures forall e :: e in r <==> e in es && e.Dir?
    ensures multiset(r) <= multiset(es)
  {
    if es == [] then []
    else
      assert es == [es[0]] + es[1..];
      (if es[0].Dir? then [es[0]] else []) + DirsOf(es[1..])
  }

  /** `[p for p in contents if p.is_file()]` */
  function FilesOf(es: seq<Node>): (r: seq<Node>)
    ensures forall e :: e in r <==> e in es && e.File?
    ensures multiset(r) <= multiset(es)
  {
    if es == [] then []
    else
      assert es == [es[0]] + es[1..];
      (if es[0].File? then [es[0]] else []) + FilesOf(es[1..])
  }

  /** `[p for p in directory.iterdir() if not gitignore(str(p))]`, for the
      directory at `path`. */
  function Unignored(ignored: Path -> bool, path: Path, es: seq<Node>): (r: seq<Node>)
    ensures forall e :: e in r <==> e in es && !ignored(path + [e.name])
    ensures multiset(r) <= multiset(es)
  {
    if es == [] then []
    else
      assert es == [es[0]] + es[1..];
      (if ignored(path + [es[0].name]) then [] else [es[0]]) + Unignored(ignored, path, es[1..])
  }

  /** Each directory of a listing is kept as often as it occurs; no regular
      file is kept. */
  lemma {:induction false} DirsOfCounts(es: seq<Node>, e: Node)
    ensures multiset(DirsOf(es))[e] == if e.Dir? then multiset(es)[e] else 0
    decreases |es|
  {
    if es != [] {
      DirsOfCounts(es[1..], e);
      var h := if es[0].Dir? then [es[0]] else [];
      assert es == [es[0]] + es[1..];
      assert multiset(h + DirsOf(es[1..])) == multiset(h) + multiset(DirsOf(es[1..]));
    }
  }

  /** Each regular file of a listing is kept as often as it occurs; no
      directory is kept. */
  lemma {:induction false} FilesOfCounts(es: seq<Node>, e: Node)
    ensures multiset(FilesOf(es))[e] == if e.File? then multiset(es)[e] else 0
    decreases |es|
  {
    if es != [] {
      FilesOfCounts(es[1..], e);
      var h := if es[0].File? then [es[0]] else [];
      assert es == [es[0]] + es[1..];
      assert multiset(h + FilesOf(es[1..])) == multiset(h) + multiset(FilesOf(es[1..]));
    }
  }

  /** Each entry whose path is not ignored is kept as often as it occurs;
      no ignored entry is kept. */
  lemma {:induction false} UnignoredCounts(ignored: Path -> bool, path: Path, es: seq<Node>, e: Node)
    ensures multiset(Unignored(ignored, path, es))[e] == if ignored(path + [e.name]) then 0 else multiset(es)[e]
    decreases |es|
  {
    if es != [] {
      UnignoredCounts(ignored, path, es[1..], e);
      var h := if ignored(path + [es[0].name]) then [] else [es[0]];
      assert es == [es[0]] + es[1..];
      assert multiset(h + Unignored(ignored, path, es[1..])) == multiset(h) + multiset(Unignored(ignored, path, es[1..]));
    }
  }
}

/** What the rendered rows promise: which entries appear (never an ignored
    one, never one deeper than the level allows), how each child's block is
    laid out, and that every negative level means "no limit". */
module RenderFacts {
  import opened Strings
  import opened Annotations
  import opened FileTree
  import opened Render

  /** `sorted_contents` lists exactly the kept directories, sorted by name,
      followed by exactly the kept regular files, sorted by name: nothing
      ignored, nothing that is neither, nothing twice that is there once. */
  lemma ChildrenOrder(cfg: Config, d: Node, path: Path)
    ensures var r := Children(cfg, d, path);
            var v := Visible(cfg, d, path);
            var k := |DirsOf(v)|;
            && (forall e :: e in r <==> e in EntriesOf(d) && !cfg.ignored(path + [e.name]) && (e.Dir? || e.File?))
            && k <= |r|
            && (forall j :: 0 <= j < k ==> r[j].Dir?)
            && (forall j :: k <= j < |r| ==> r[j].File?)
            && SortedByName(r[..k]) && SortedByName(r[k..])
            && multiset(r[..k]) == multiset(DirsOf(v))
            && multiset(r[k..]) == multiset(FilesOf(v))
  {
    var v := Visible(cfg, d, path);
    var dirs := SortByName(DirsOf(v));
    var files := SortByName(FilesOf(v));
    assert |dirs| == |DirsOf(v)| by {
      assert |multiset(dirs)| == |multiset(DirsOf(v))|;
    }
    var r := dirs + files;
    assert r == Children(cfg, d, path);
    assert r[..|dirs|] == dirs && r[|dirs|..] == files;
  }

  /** A depth of `n` levels below the start is within `level`. */
  predicate Within(level: int, n: int)
  {
    level < 0 || n <= level
  }

  /** An entry row lies strictly below `path`, is not ignored, is within
      `level`, and is a file row only outside directories-only mode. */
  predicate RowOk(cfg: Config, r: Row, path: Path, level: int)
  {
    IsEntry(r) ==>
      |r.path| > |path| && r.path[..|path|] == path && !cfg.ignored(r.path)
      && Within(level, |r.path| - |path|)
      && (r.FileRow? ==> !cfg.limitToDirectories)
  }

  predicate EntryRowsOk(cfg: Config, rows: seq<Row>, path: Path, level: int)
  {
    forall k :: 0 <= k < |rows| ==> RowOk(cfg, rows[k], path, level)
  }

  lemma RowsOkConcat(cfg: Config, a: seq<Row>, b: seq<Row>, path: Path, level: int)
    requires EntryRowsOk(cfg, a, path, level) && EntryRowsOk(cfg, b, path, level)
    ensures EntryRowsOk(cfg, a + b, path, level)
  {
    forall k | 0 <= k < |a + b| ensures RowOk(cfg, (a + b)[k], path, level) {
      if k < |a| {
        assert (a + b)[k] == a[k];
      } else {
        assert (a + b)[k] == b[k - |a|];
      }
    }
  }

  lemma {:induction false} WalkRows(cfg: Config, d: Node, path: Path, prefix: string, level: int)
    requires d.Dir?
    ensures EntryRowsOk(cfg, Walk(cfg, d, path, prefix, level), path, level)
    decreases d, 2
  {
    if level != 0 && d.listing.Listed? {
      WalkFromRows(cfg, d, path, prefix, level, Children(cfg, d, path), 0);
    }
  }

  lemma {:induction false} WalkFromRows(cfg: Config, d: Node, path: Path, prefix: string, level: int,
                                        kids: seq<Node>, i: nat)
    requires d.Dir? && i <= |kids| && KidsOf(d, kids) && level != 0
    requires AllKept(cfg, path, kids)
    ensures EntryRowsOk(cfg, WalkFrom(cfg, d, path, prefix, level, kids, i), path, level)
    decreases d, 1, |kids| - i
  {
    if i < |kids| {
      ChildBlockRows(cfg, d, path, prefix, level, kids, i);
      WalkFromRows(cfg, d, path, prefix, level, kids, i + 1);
      RowsOkConcat(cfg, ChildBlock(cfg, d, path, prefix, level, kids, i),
                   WalkFrom(cfg, d, path, prefix, level, kids, i + 1), path, level);
    }
  }

  lemma {:induction false} ChildBlockRows(cfg: Config, d: Node, path: Path, prefix: string, level: int,
                                          kids: seq<Node>, i: nat)
    requires d.Dir? && i < |kids| && KidsOf(d, kids) && level != 0
    requires AllKept(cfg, path, kids)
    ensures EntryRowsOk(cfg, ChildBlock(cfg, d, path, prefix, level, kids, i), path, level)
    decreases d, 0, 1
  {
    assert kids[i] in kids;
    if kids[i].Dir? {
      DirBlockRows(cfg, d, path, prefix, level, kids, i);
    } else {
      FileBlockRows(cfg, d, path, prefix, level, kids, i);
    }
  }

  lemma FileBlockRows(cfg: Config, d: Node, path: Path, prefix: string, level: int, kids: seq<Node>, i: nat)
    requires d.Dir? && i < |kids| && KidsOf(d, kids) && level != 0 && kids[i].File?
    requires !cfg.ignored(path + [kids[i].name])
    ensures EntryRowsOk(cfg, ChildBlock(cfg, d, path, prefix, level, kids, i), path, level)
  {
    var sub := path + [kids[i].name];
    var b := ChildBlock(cfg, d, path, prefix, level, kids, i);
    assert b == if cfg.limitToDirectories then [] else [FileRow(sub, FileText(cfg, prefix + Pointer(i, |kids|), kids[i]))];
    assert sub[..|path|] == path;
  }

  lemma {:induction false} DirBlockRows(cfg: Config, d: Node, path: Path, prefix: string, level: int,
                                        kids: seq<Node>, i: nat)
    requires d.Dir? && i < |kids| && KidsOf(d, kids) && level != 0 && kids[i].Dir?
    requires !cfg.ignored(path + [kids[i].name])
    ensures EntryRowsOk(cfg, ChildBlock(cfg, d, path, prefix, level, kids, i), path, level)
    decreases d, 0, 0
  {
    var e := kids[i];
    var sub := path + [e.name];
    var ext := Extension(i, |kids|);
    ChildIsSmaller(d, kids, i);
    WalkRows(cfg, e, sub, prefix + ext, level - 1);
    BlockRows(cfg, DirRow(sub, DirText(cfg, prefix + Pointer(i, |kids|), e)), Walk(cfg, e, sub, prefix + ext, level - 1),
              EmptyMark(cfg, e, sub, prefix + ext), CloseRow(RStrip(prefix + ext)), path, sub, level);
  }

  /** A child is an entry of the listed directory `d`, hence smaller. */
  lemma ChildIsSmaller(d: Node, kids: seq<Node>, i: nat)
    requires d.Dir? && i < |kids| && KidsOf(d, kids)
    ensures d.listing.Listed? && kids[i] in d.listing.entries
  {
    assert kids[i] in kids;
  }

  /** The entry rows of a subdirectory's block `head + inner + mark + close`
      are well placed when its head is and its inner rows are, one level
      further down. */
  lemma BlockRows(cfg: Config, head: Row, inner: seq<Row>, mark: seq<Row>, close: Row, path: Path, sub: Path, level: int)
    requires head.DirRow? && head.path == sub && |sub| == |path| + 1 && sub[..|path|] == path
    requires !cfg.ignored(sub) && level != 0
    requires EntryRowsOk(cfg, inner, sub, level - 1)
    requires mark == [] || (|mark| == 1 && mark[0].EmptyRow?)
    requires close.CloseRow?
    ensures EntryRowsOk(cfg, [head] + inner + mark + [close], path, level)
  {
    forall k | 0 <= k < |inner| ensures RowOk(cfg, inner[k], path, level) {
      var r := inner[k];
      if IsEntry(r) {
        assert RowOk(cfg, r, sub, level - 1);
        PrefixOfPrefix(r.path, sub, path);
      }
    }
    RowsOkConcat(cfg, [head], inner, path, level);
    RowsOkConcat(cfg, [head] + inner, mark, path, level);
    RowsOkConcat(cfg, [head] + inner + mark, [close], path, level);
  }

  lemma PrefixOfPrefix(p: Path, q: Path, r: Path)
    requires |q| <= |p| && p[..|q|] == q && |r| <= |q| && q[..|r|] == r
    ensures p[..|r|] == r
  {
    assert p[..|r|] == p[..|q|][..|r|];
  }

  /** In directories-only mode no file row is produced. */
  lemma NoFileRowsInDirectoriesMode(cfg: Config, d: Node, path: Path, prefix: string, level: int)
    requires d.Dir? && cfg.limitToDirectories
    ensures CountRows(Walk(cfg, d, path, prefix, level), false) == 0
  {
    var rows := Walk(cfg, d, path, prefix, level);
    WalkRows(cfg, d, path, prefix, level);
    assert forall k :: 0 <= k < |rows| ==> RowOk(cfg, rows[k], path, level);
  }

  /** How many levels of directories lie at and below `d`: 0 for a file or a
      directory that cannot be listed, else one more than its deepest entry. */
  function Height(d: Node): nat
    decreases d, 1
  {
    if d.Dir? && d.listing.Listed? then 1 + MaxHeight(d, 0) else 0
  }

  /** The largest height among the entries `i..` of a listed directory. */
  function MaxHeight(d: Node, i: nat): (h: nat)
    requires d.Dir? && d.listing.Listed?
    ensures forall j :: i <= j < |d.listing.entries| ==> Height(d.listing.entries[j]) <= h
    decreases d, 0, |d.listing.entries| - i
  {
    if i >= |d.listing.entries| then 0
    else
      var rest := MaxHeight(d, i + 1);
      Max(Height(d.listing.entries[i]), rest)
  }

  /** A level that does not cut `d`'s tree: negative (`level - 1` never
      reaches 0), or at least as deep as the tree. */
  predicate Unbounded(d: Node, level: int)
  {
    level < 0 || level >= Height(d)
  }

  /** A level that does not cut a directory's tree does not cut, one level
      down, the tree of any of its entries. */
  lemma UnboundedEntry(d: Node, e: Node, level: int)
    requires e in EntriesOf(d) && Unbounded(d, level)
    ensures Unbounded(e, level - 1)
  {
    var j :| 0 <= j < |d.listing.entries| && d.listing.entries[j] == e;
    assert Height(e) <= MaxHeight(d, 0) < Height(d);
  }

  /** Every negative level means "no limit": it renders the same rows as any
      level at least as deep as the tree, so all such levels render alike. */
  lemma {:induction false} WalkUnbounded(cfg: Config, d: Node, path: Path, prefix: string, l1: int, l2: int)
    requires d.Dir? && Unbounded(d, l1) && Unbounded(d, l2)
    ensures Walk(cfg, d, path, prefix, l1) == Walk(cfg, d, path, prefix, l2)
    decreases d, 2
  {
    if d.listing.Listed? {
      WalkFromUnbounded(cfg, d, path, prefix, l1, l2, Children(cfg, d, path), 0);
    }
  }

  lemma {:induction false} WalkFromUnbounded(cfg: Config, d: Node, path: Path, prefix: string, l1: int, l2: int,
                                             kids: seq<Node>, i: nat)
    requires d.Dir? && i <= |kids| && KidsOf(d, kids) && Unbounded(d, l1) && Unbounded(d, l2)
    ensures WalkFrom(cfg, d, path, prefix, l1, kids, i) == WalkFrom(cfg, d, path, prefix, l2, kids, i)
    decreases d, 1, |kids| - i
  {
    if i < |kids| {
      ChildBlockUnbounded(cfg, d, path, prefix, l1, l2, kids, i);
      WalkFromUnbounded(cfg, d, path, prefix, l1, l2, kids, i + 1);
    }
  }

  lemma {:induction false} ChildBlockUnbounded(cfg: Config, d: Node, path: Path, prefix: string, l1: int, l2: int,
                                               kids: seq<Node>, i: nat)
    requires d.Dir? && i < |kids| && KidsOf(d, kids) && Unbounded(d, l1) && Unbounded(d, l2)
    ensures ChildBlock(cfg, d, path, prefix, l1, kids, i) == ChildBlock(cfg, d, path, prefix, l2, kids, i)
    decreases d, 0
  {
    var e := kids[i];
    assert e in kids;
    if e.Dir? {
      assert e in EntriesOf(d);
      UnboundedEntry(d, e, l1);
      UnboundedEntry(d, e, l2);
      assert d.listing.Listed? && e in d.listing.entries;
      var ext := Extension(i, |kids|);
      WalkUnbounded(cfg, e, path + [e.name], prefix + ext, l1 - 1, l2 - 1);
    }
  }

  /** For a root that is a directory, `tree` gives the same result for every
      level that does not cut the tree, negative or not. */
  lemma TreeUnbounded(cfg: Config, root: Node, l1: int, l2: int, lengthLimit: int)
    requires root.Dir? && Unbounded(root, l1) && Unbounded(root, l2)
    ensures TreeResult(cfg, root, l1, lengthLimit) == TreeResult(cfg, root, l2, lengthLimit)
  {
    if l1 != 0 && l2 != 0 {
      WalkUnbounded(cfg, root, [], "", l1, l2);
    } else {
      var l := if l1 == 0 then l2 else l1;
      assert root.listing.Unlistable?;
      assert Walk(cfg, root, [], "", l) == [];
      assert [root.name] + Texts([]) + [Summary(0, 0)] == [root.name, Summary(0, 0)];
    }
  }

  lemma StartsWithLonger(s: string, p: string, q: string)
    requires StartsWith(s, p + q)
    ensures StartsWith(s, p)
  {
    assert s[..|p|] == s[..|p + q|][..|p|];
  }

  /** Every row except closing rows has a line beginning with `lead`. */
  predicate LinesUnder(rows: seq<Row>, lead: string)
  {
    forall k :: 0 <= k < |rows| && !rows[k].CloseRow? ==> StartsWith(rows[k].text, lead)
  }

  lemma LinesUnderConcat(a: seq<Row>, b: seq<Row>, lead: string)
    requires LinesUnder(a, lead) && LinesUnder(b, lead)
    ensures LinesUnder(a + b, lead)
  {
    forall k | 0 <= k < |a + b| && !(a + b)[k].CloseRow? ensures StartsWith((a + b)[k].text, lead) {
      if k < |a| {
        assert (a + b)[k] == a[k];
      } else {
        assert (a + b)[k] == b[k - |a|];
      }
    }
  }

  lemma LinesUnderShorter(rows: seq<Row>, prefix: string, ext: string)
    requires LinesUnder(rows, prefix + ext)
    ensures LinesUnder(rows, prefix)
  {
    forall k | 0 <= k < |rows| && !rows[k].CloseRow? ensures StartsWith(rows[k].text, prefix) {
      StartsWithLonger(rows[k].text, prefix, ext);
    }
  }

  /** Every line of a directory's block, except closing lines, begins with
      the block's prefix. */
  lemma {:induction false} WalkPrefix(cfg: Config, d: Node, path: Path, prefix: string, level: int)
    requires d.Dir?
    ensures LinesUnder(Walk(cfg, d, path, prefix, level), prefix)
    decreases d, 2
  {
    if level != 0 && d.listing.Listed? {
      WalkFromPrefix(cfg, d, path, prefix, level, Children(cfg, d, path), 0);
    }
  }

  lemma {:induction false} WalkFromPrefix(cfg: Config, d: Node, path: Path, prefix: string, level: int,
                                          kids: seq<Node>, i: nat)
    requires d.Dir? && i <= |kids| && KidsOf(d, kids)
    ensures LinesUnder(WalkFrom(cfg, d, path, prefix, level, kids, i), prefix)
    decreases d, 1, |kids| - i
  {
    if i < |kids| {
      ChildBlockPrefix(cfg, d, path, prefix, level, kids, i);
      WalkFromPrefix(cfg, d, path, prefix, level, kids, i + 1);
      LinesUnderConcat(ChildBlock(cfg, d, path, prefix, level, kids, i),
                       WalkFrom(cfg, d, path, prefix, level, kids, i + 1), prefix);
    }
  }

  lemma {:induction false} ChildBlockPrefix(cfg: Config, d: Node, path: Path, prefix: string, level: int,
                                            kids: seq<Node>, i: nat)
    requires d.Dir? && i < |kids| && KidsOf(d, kids)
    ensures LinesUnder(ChildBlock(cfg, d, path, prefix, level, kids, i), prefix)
    decreases d, 0, 1
  {
    assert kids[i] in kids;
    if kids[i].Dir? {
      DirBlockPrefix(cfg, d, path, prefix, level, kids, i);
    } else {
      FileBlockPrefix(cfg, d, path, prefix, level, kids, i);
    }
  }

  lemma FileBlockPrefix(cfg: Config, d: Node, path: Path, prefix: string, level: int, kids: seq<Node>, i: nat)
    requires d.Dir? && i < |kids| && KidsOf(d, kids) && kids[i].File?
    ensures LinesUnder(ChildBlock(cfg, d, path, prefix, level, kids, i), prefix)
  {
    var e := kids[i];
    var pointer := Pointer(i, |kids|);
    var t := FileText(cfg, prefix + pointer, e);
    EntryTextLead(cfg, prefix + pointer, e);
    StartsWithLead(t, prefix, pointer, e.name);
    var block := if cfg.limitToDirectories then [] else [FileRow(path + [e.name], t)];
    assert LinesUnder(block, prefix);
    assert ChildBlock(cfg, d, path, prefix, level, kids, i) == block;
  }

  lemma StartsWithLead(s: string, prefix: string, pointer: string, name: string)
    requires StartsWith(s, prefix + pointer + name)
    ensures StartsWith(s, prefix)
  {
    assert prefix + pointer + name == prefix + (pointer + name);
    StartsWithLonger(s, prefix, pointer + name);
  }

  lemma {:induction false} DirBlockPrefix(cfg: Config, d: Node, path: Path, prefix: string, level: int,
                                          kids: seq<Node>, i: nat)
    requires d.Dir? && i < |kids| && KidsOf(d, kids) && kids[i].Dir?
    ensures LinesUnder(ChildBlock(cfg, d, path, prefix, level, kids, i), prefix)
    decreases d, 0, 0
  {
    var e := kids[i];
    var pointer := Pointer(i, |kids|);
    var ext := Extension(i, |kids|);
    var sub := path + [e.name];
    ChildIsSmaller(d, kids, i);
    WalkPrefix(cfg, e, sub, prefix + ext, level - 1);
    DirBlockParts(cfg, d, path, prefix, level, kids, i);
    HeadUnder(cfg, prefix, pointer, e, sub);
    BlockUnder(DirRow(sub, DirText(cfg, prefix + pointer, e)), Walk(cfg, e, sub, prefix + ext, level - 1),
               EmptyMark(cfg, e, sub, prefix + ext), CloseRow(RStrip(prefix + ext)), prefix, ext);
  }

  lemma HeadUnder(cfg: Config, prefix: string, pointer: string, e: Node, sub: Path)
    requires e.Dir?
    ensures LinesUnder([DirRow(sub, DirText(cfg, prefix + pointer, e))], prefix)
  {
    EntryTextLead(cfg, prefix + pointer, e);
    assert prefix + pointer + e.name == prefix + (pointer + e.name);
    StartsWithLonger(DirText(cfg, prefix + pointer, e), prefix, pointer + e.name);
  }

  /** The rows of `head + inner + mark + close` lie under `prefix` when the
      head does and the inner rows and the mark lie under `prefix + ext`. */
  lemma BlockUnder(head: Row, inner: seq<Row>, mark: seq<Row>, close: Row, prefix: string, ext: string)
    requires LinesUnder([head], prefix) && LinesUnder(inner + mark, prefix + ext) && close.CloseRow?
    ensures LinesUnder([head] + inner + mark + [close], prefix)
  {
    LinesUnderShorter(inner + mark, prefix, ext);
    LinesUnderConcat([head], inner + mark, prefix);
    LinesUnderConcat([head] + (inner + mark), [close], prefix);
    assert [head] + inner + mark + [close] == [head] + (inner + mark) + [close];
  }

  /** The inner rows and the placeholder of a subdirectory's block lie
      under the extended prefix. */
  lemma DirBlockParts(cfg: Config, d: Node, path: Path, prefix: string, level: int, kids: seq<Node>, i: nat)
    requires d.Dir? && i < |kids| && KidsOf(d, kids) && kids[i].Dir?
    requires LinesUnder(Walk(cfg, kids[i], path + [kids[i].name], prefix + Extension(i, |kids|), level - 1),
                        prefix + Extension(i, |kids|))
    ensures var e := kids[i];
            var sub := path + [e.name];
            var lead := prefix + Extension(i, |kids|);
            LinesUnder(Walk(cfg, e, sub, lead, level - 1) + EmptyMark(cfg, e, sub, lead), lead)
  {
    var e := kids[i];
    var sub := path + [e.name];
    var lead := prefix + Extension(i, |kids|);
    assert (lead + EMPTY)[..|lead|] == lead;
    LinesUnderConcat(Walk(cfg, e, sub, lead, level - 1), EmptyMark(cfg, e, sub, lead), lead);
  }

  /** A block never ends with the placeholder line: a child's block ends
      with its closing line or its file line. */
  predicate NotEndingInMark(rows: seq<Row>)
  {
    rows == [] || !rows[|rows| - 1].EmptyRow?
  }

  lemma NotEndingInMarkConcat(a: seq<Row>, b: seq<Row>)
    requires NotEndingInMark(a) && NotEndingInMark(b)
    ensures NotEndingInMark(a + b)
  {
    if b != [] {
      assert (a + b)[|a + b| - 1] == b[|b| - 1];
    } else {
      assert a + b == a;
    }
  }

  lemma ChildBlockEnd(cfg: Config, d: Node, path: Path, prefix: string, level: int, kids: seq<Node>, i: nat)
    requires d.Dir? && i < |kids| && KidsOf(d, kids)
    ensures NotEndingInMark(ChildBlock(cfg, d, path, prefix, level, kids, i))
  {
    assert kids[i] in kids;
  }

  lemma {:induction false} WalkFromEnd(cfg: Config, d: Node, path: Path, prefix: string, level: int,
                                       kids: seq<Node>, i: nat)
    requires d.Dir? && i <= |kids| && KidsOf(d, kids)
    ensures NotEndingInMark(WalkFrom(cfg, d, path, prefix, level, kids, i))
    decreases |kids| - i
  {
    if i < |kids| {
      ChildBlockEnd(cfg, d, path, prefix, level, kids, i);
      WalkFromEnd(cfg, d, path, prefix, level, kids, i + 1);
      NotEndingInMarkConcat(ChildBlock(cfg, d, path, prefix, level, kids, i),
                            WalkFrom(cfg, d, path, prefix, level, kids, i + 1));
    }
  }

  lemma WalkEnd(cfg: Config, d: Node, path: Path, prefix: string, level: int)
    requires d.Dir?
    ensures NotEndingInMark(Walk(cfg, d, path, prefix, level))
  {
    if level != 0 && d.listing.Listed? {
      WalkFromEnd(cfg, d, path, prefix, level, Children(cfg, d, path), 0);
    }
  }

  /** An entry's line begins with `lead` (prefix and connector) and its name. */
  lemma EntryTextLead(cfg: Config, lead: string, e: Node)
    requires e.Dir? || e.File?
    ensures e.Dir? ==> StartsWith(DirText(cfg, lead, e), lead + e.name)
    ensures e.File? ==> StartsWith(FileText(cfg, lead, e), lead + e.name)
  {
    var head := lead + e.name;
    assert head[..|head|] == head;
  }

  /** A directory's line is `lead` and its name, then, when annotating, the
      padding and `#` followed by the folder's description at the very end. */
  lemma DirTextShape(cfg: Config, lead: string, e: Node)
    requires e.Dir?
    ensures !cfg.annotate ==> DirText(cfg, lead, e) == lead + e.name
    ensures cfg.annotate ==>
              var r := DirText(cfg, lead, e);
              var desc := FolderDescription(e.init);
              StartsWith(r, lead + e.name) && |lead + e.name| + |desc| + 1 <= |r|
              && r[|r| - |desc| - 1..] == "#" + desc
  {
    if cfg.annotate {
      AnnotateTail(cfg, lead + e.name, FolderDescription(e.init));
    }
  }

  /** A file's line is `lead` and its name, then, when annotating and the
      file is not `__init__.py`, the padding and `#` followed by the file's
      first line at the very end. */
  lemma FileTextShape(cfg: Config, lead: string, e: Node)
    requires e.File?
    ensures e.name == INIT_FILE || !cfg.annotate ==> FileText(cfg, lead, e) == lead + e.name
    ensures e.name != INIT_FILE && cfg.annotate ==>
              var r := FileText(cfg, lead, e);
              var desc := FirstLine(e.read);
              StartsWith(r, lead + e.name) && |lead + e.name| + |desc| + 1 <= |r|
              && r[|r| - |desc| - 1..] == "#" + desc
  {
    if e.name != INIT_FILE && cfg.annotate {
      var desc := FirstLine(e.read);
      assert FileText(cfg, lead, e) == Annotate(cfg, lead + e.name, desc);
      AnnotateTail(cfg, lead + e.name, desc);
    }
  }

  /** An annotated line begins with its head and ends with `#` and the description. */
  lemma AnnotateTail(cfg: Config, head: string, desc: string)
    requires cfg.annotate
    ensures var r := Annotate(cfg, head, desc);
            StartsWith(r, head) && |head| + |desc| + 1 <= |r| && r[|r| - |desc| - 1..] == "#" + desc
  {
    var r := Annotate(cfg, head, desc);
    assert r[|r| - |desc| - 1..] == [r[|r| - |desc| - 1]] + r[|r| - |desc|..];
  }

  /** The block of a subdirectory child: its entry line (prefix, connector,
      name) first; then lines under the extended prefix; the `└─ ...` line
      second to last exactly when the subdirectory can be listed and all its
      entries are ignored; the right-stripped extended prefix last. */
  lemma ChildBlockShape(cfg: Config, d: Node, path: Path, prefix: string, level: int, kids: seq<Node>, i: nat)
    requires d.Dir? && i < |kids| && KidsOf(d, kids) && kids[i].Dir?
    ensures var b := ChildBlock(cfg, d, path, prefix, level, kids, i);
            var e := kids[i];
            var pointer := Pointer(i, |kids|);
            var ext := Extension(i, |kids|);
            && |b| >= 2
            && b[0].DirRow? && b[0].path == path + [e.name] && StartsWith(b[0].text, prefix + pointer + e.name)
            && LinesUnder(b[1..|b| - 1], prefix + ext)
            && (b[|b| - 2].EmptyRow? <==> ShowsEmptyMark(cfg, e, path + [e.name]))
            && (b[|b| - 2].EmptyRow? ==> b[|b| - 2].text == prefix + ext + EMPTY)
            && b[|b| - 1] == CloseRow(RStrip(prefix + ext))
  {
    var e := kids[i];
    var pointer := Pointer(i, |kids|);
    var ext := Extension(i, |kids|);
    var sub := path + [e.name];
    ChildIsSmaller(d, kids, i);
    WalkPrefix(cfg, e, sub, prefix + ext, level - 1);
    WalkEnd(cfg, e, sub, prefix + ext, level - 1);
    DirBlockParts(cfg, d, path, prefix, level, kids, i);
    EntryTextLead(cfg, prefix + pointer, e);
    var head := DirRow(sub, DirText(cfg, prefix + pointer, e));
    var inner := Walk(cfg, e, sub, prefix + ext, level - 1);
    var mark := EmptyMark(cfg, e, sub, prefix + ext);
    var close := CloseRow(RStrip(prefix + ext));
    BlockShape(head, inner, mark, close, prefix + ext);
    assert ChildBlock(cfg, d, path, prefix, level, kids, i) == [head] + inner + mark + [close];
  }

  /** Positions in `head + inner + mark + close`. */
  lemma BlockShape(head: Row, inner: seq<Row>, mark: seq<Row>, close: Row, lead: string)
    requires head.DirRow? && close.CloseRow? && |mark| <= 1
    requires NotEndingInMark(inner)
    requires LinesUnder(inner + mark, lead)
    requires mark != [] ==> mark[0].EmptyRow?
    ensures var b := [head] + inner + mark + [close];
            && |b| >= 2 && b[0] == head && b[|b| - 1] == close
            && LinesUnder(b[1..|b| - 1], lead)
            && (b[|b| - 2].EmptyRow? <==> mark != [])
            && (mark != [] ==> b[|b| - 2] == mark[0])
  {
    var b := [head] + inner + mark + [close];
    assert b[1..|b| - 1] == inner + mark;
    if mark == [] {
      assert b[|b| - 2] == if inner == [] then head else inner[|inner| - 1];
    } else {
      assert b[|b| - 2] == mark[0];
    }
  }

  /** A digit run followed by a non-digit is determined by the string. */
  lemma DigitsThenOther(a: string, x: string, b: string, y: string)
    requires forall k :: 0 <= k < |a| ==> IsDigit(a[k])
    requires forall k :: 0 <= k < |b| ==> IsDigit(b[k])
    requires |x| > 0 && !IsDigit(x[0]) && |y| > 0 && !IsDigit(y[0])
    requires a + x == b + y
    ensures a == b && x == y
  {
    var c := a + x;
    assert !IsDigit(c[|a|]) && !IsDigit(c[|b|]);
    assert forall k :: 0 <= k < |b| ==> IsDigit(c[k]);
    assert forall k :: 0 <= k < |a| ==> IsDigit(c[k]);
    assert a == (a + x)[..|a|] && b == (b + y)[..|b|];
    assert x == (a + x)[|a|..] && y == (b + y)[|b|..];
  }

  lemma SummaryTail(d: nat, f: nat)
    ensures Summary(d, f)[1..] == Decimal(d) + (" directories" + FilesClause(f))
  {
  }

  lemma FilesClauseInjective(f1: nat, f2: nat)
    requires FilesClause(f1) == FilesClause(f2)
    ensures f1 == f2
  {
    var t1 := FilesClause(f1);
    var t2 := FilesClause(f2);
    if f1 != 0 && f2 != 0 {
      assert Decimal(f1) == t1[2..|t1| - 6];
      assert Decimal(f2) == t2[2..|t2| - 6];
      DecimalRoundTrip(f1);
      DecimalRoundTrip(f2);
    }
  }

  /** The summary line determines both counts. */
  lemma SummaryDeterminesCounts(d1: nat, f1: nat, d2: nat, f2: nat)
    requires Summary(d1, f1) == Summary(d2, f2)
    ensures d1 == d2 && f1 == f2
  {
    var t1 := " directories" + FilesClause(f1);
    var t2 := " directories" + FilesClause(f2);
    SummaryTail(d1, f1);
    SummaryTail(d2, f2);
    DigitsThenOther(Decimal(d1), t1, Decimal(d2), t2);
    DecimalRoundTrip(d1);
    DecimalRoundTrip(d2);
    assert |" directories"| == 12;
    assert FilesClause(f1) == t1[12..] && FilesClause(f2) == t2[12..];
    FilesClauseInjective(f1, f2);
  }
}

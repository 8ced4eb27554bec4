/** The renderer as the Python code runs it: `inner` appends to the shared
    `output_lines` list and bumps the `directories`/`files` counters, which
    here are the fields of a `Renderer` object. */
module TreeRenderer {
  import opened Wrappers
  import opened Strings
  import opened FileTree
  import opened Render
  import opened Ignore
  import opened RenderFacts

  class Renderer {
    const cfg: Config
    var lines: seq<string>
    var directories: nat
    var files: nat

    constructor (cfg: Config)
      ensures this.cfg == cfg && lines == [] && directories == 0 && files == 0
    {
      this.cfg := cfg;
      lines := [];
      directories := 0;
      files := 0;
    }

    /** `inner(d, prefix, level)` for the directory `d` at `path`: appends
        exactly the rows of `Walk` and counts its directory and file rows. */
    method Inner(d: Node, path: Path, prefix: string, level: int)
      requires d.Dir?
      modifies this
      ensures lines == old(lines) + Texts(Walk(cfg, d, path, prefix, level))
      ensures directories == old(directories) + CountRows(Walk(cfg, d, path, prefix, level), true)
      ensures files == old(files) + CountRows(Walk(cfg, d, path, prefix, level), false)
      decreases d, 1
    {
      if level == 0 {
        return;
      }
      if d.listing.Unlistable? {
        return;
      }
      var kids := Children(cfg, d, path);
      ghost var all := WalkFrom(cfg, d, path, prefix, level, kids, 0);
      var i := 0;
      while i < |kids|
        invariant 0 <= i <= |kids|
        invariant lines + Texts(WalkFrom(cfg, d, path, prefix, level, kids, i)) == old(lines) + Texts(all)
        invariant directories + CountRows(WalkFrom(cfg, d, path, prefix, level, kids, i), true)
                  == old(directories) + CountRows(all, true)
        invariant files + CountRows(WalkFrom(cfg, d, path, prefix, level, kids, i), false)
                  == old(files) + CountRows(all, false)
      {
        ghost var block := ChildBlock(cfg, d, path, prefix, level, kids, i);
        ghost var rest := WalkFrom(cfg, d, path, prefix, level, kids, i + 1);
        WalkFromStep(cfg, d, path, prefix, level, kids, i);
        ghost var before := lines;
        Visit(d, path, prefix, level, kids, i);
        Assoc(before, Texts(block), Texts(rest));
        i := i + 1;
      }
    }

    /** One turn of the loop over `zip(pointers, sorted_contents)`: the
        child `kids[i]` with its connector. */
    method Visit(d: Node, path: Path, prefix: string, level: int, kids: seq<Node>, i: nat)
      requires d.Dir? && i < |kids| && KidsOf(d, kids)
      modifies this
      ensures lines == old(lines) + Texts(ChildBlock(cfg, d, path, prefix, level, kids, i))
      ensures directories == old(directories) + CountRows(ChildBlock(cfg, d, path, prefix, level, kids, i), true)
      ensures files == old(files) + CountRows(ChildBlock(cfg, d, path, prefix, level, kids, i), false)
      decreases d, 0
    {
      var e := kids[i];
      var pointer := Pointer(i, |kids|);
      if e.Dir? {
        lines := lines + [DirText(cfg, prefix + pointer, e)];
        directories := directories + 1;
        var ext := Extension(i, |kids|);
        assert e in EntriesOf(d);
        var sub := path + [e.name];
        Inner(e, sub, prefix + ext, level - 1);
        ghost var mark := Texts(EmptyMark(cfg, e, sub, prefix + ext));
        if ShowsEmptyMark(cfg, e, sub) {
          assert mark == [prefix + ext + EMPTY];
          lines := lines + [prefix + ext + EMPTY];
        } else {
          assert lines == lines + mark;
        }
        lines := lines + [RStrip(prefix + ext)];
        BlockAccounting(cfg, d, path, prefix, level, kids, i);
        AppendAssoc(old(lines), [DirText(cfg, prefix + pointer, e)], Texts(Walk(cfg, e, sub, prefix + ext, level - 1)),
                    mark, [RStrip(prefix + ext)]);
      } else {
        FileBlockAccounting(cfg, d, path, prefix, level, kids, i);
        if !cfg.limitToDirectories {
          lines := lines + [FileText(cfg, prefix + pointer, e)];
          files := files + 1;
        }
      }
    }
  }

  lemma Assoc(a: seq<string>, b: seq<string>, c: seq<string>)
    ensures a + b + c == a + (b + c)
  {
  }

  lemma AppendAssoc(a: seq<string>, b: seq<string>, c: seq<string>, d: seq<string>, e: seq<string>)
    ensures a + b + c + d + e == a + (b + c + d + e)
  {
  }

  /** The rows for `kids[i..]` are those of `kids[i]` followed by the rest. */
  lemma WalkFromStep(cfg: Config, d: Node, path: Path, prefix: string, level: int, kids: seq<Node>, i: nat)
    requires d.Dir? && i < |kids| && KidsOf(d, kids)
    ensures var block := ChildBlock(cfg, d, path, prefix, level, kids, i);
            var rest := WalkFrom(cfg, d, path, prefix, level, kids, i + 1);
            var all := WalkFrom(cfg, d, path, prefix, level, kids, i);
            && Texts(all) == Texts(block) + Texts(rest)
            && CountRows(all, true) == CountRows(block, true) + CountRows(rest, true)
            && CountRows(all, false) == CountRows(block, false) + CountRows(rest, false)
  {
    var block := ChildBlock(cfg, d, path, prefix, level, kids, i);
    var rest := WalkFrom(cfg, d, path, prefix, level, kids, i + 1);
    assert WalkFrom(cfg, d, path, prefix, level, kids, i) == block + rest;
    TextsConcat(block, rest);
    CountConcat(block, rest, true);
    CountConcat(block, rest, false);
  }

  /** What a file child's block adds. */
  lemma FileBlockAccounting(cfg: Config, d: Node, path: Path, prefix: string, level: int, kids: seq<Node>, i: nat)
    requires d.Dir? && i < |kids| && KidsOf(d, kids) && kids[i].File?
    ensures var block := ChildBlock(cfg, d, path, prefix, level, kids, i);
            && Texts(block) == (if cfg.limitToDirectories then [] else [FileText(cfg, prefix + Pointer(i, |kids|), kids[i])])
            && CountRows(block, true) == 0
            && CountRows(block, false) == (if cfg.limitToDirectories then 0 else 1)
  {
  }

  /** How the rows of a directory child's block add up. */
  lemma BlockAccounting(cfg: Config, d: Node, path: Path, prefix: string, level: int, kids: seq<Node>, i: nat)
    requires d.Dir? && i < |kids| && KidsOf(d, kids) && kids[i].Dir?
    ensures var e := kids[i];
            var ext := Extension(i, |kids|);
            var sub := path + [e.name];
            var block := ChildBlock(cfg, d, path, prefix, level, kids, i);
            var inner := Walk(cfg, e, sub, prefix + ext, level - 1);
            && Texts(block) == [DirText(cfg, prefix + Pointer(i, |kids|), e)] + Texts(inner)
                 + Texts(EmptyMark(cfg, e, sub, prefix + ext)) + [RStrip(prefix + ext)]
            && CountRows(block, true) == 1 + CountRows(inner, true)
            && CountRows(block, false) == CountRows(inner, false)
  {
    var e := kids[i];
    var pointer := Pointer(i, |kids|);
    var ext := Extension(i, |kids|);
    var sub := path + [e.name];
    var head := DirRow(sub, DirText(cfg, prefix + pointer, e));
    var inner := Walk(cfg, e, sub, prefix + ext, level - 1);
    var mark := EmptyMark(cfg, e, sub, prefix + ext);
    var close := CloseRow(RStrip(prefix + ext));
    PartsAccounting(head, inner, mark, close);
    assert ChildBlock(cfg, d, path, prefix, level, kids, i) == [head] + inner + mark + [close];
  }

  /** Texts and counts of `[head] + inner + mark + [close]`. */
  lemma PartsAccounting(head: Row, inner: seq<Row>, mark: seq<Row>, close: Row)
    requires head.DirRow? && close.CloseRow? && |mark| <= 1 && (mark != [] ==> mark[0].EmptyRow?)
    ensures Texts([head] + inner + mark + [close]) == [head.text] + Texts(inner) + Texts(mark) + [close.text]
    ensures CountRows([head] + inner + mark + [close], true) == 1 + CountRows(inner, true)
    ensures CountRows([head] + inner + mark + [close], false) == CountRows(inner, false)
  {
    var h := [head];
    var c := [close];
    TextsConcat(h + inner + mark, c);
    TextsConcat(h + inner, mark);
    TextsConcat(h, inner);
    CountConcat(h + inner + mark, c, true);
    CountConcat(h + inner, mark, true);
    CountConcat(h, inner, true);
    CountConcat(h + inner + mark, c, false);
    CountConcat(h + inner, mark, false);
    CountConcat(h, inner, false);
  }

  /** `tree(dir_path, ..., output_file=None)`: the ignore file is chosen,
      the root's name is appended, `inner` runs from the root, and the
      summary is appended. `ignoreFile` is the `ignore_file` argument,
      `probe` the file-existence answers and `matcher` the gitignore parser.
      Every `length_limit` that `islice` accepts gives the same result. */
  method Tree(root: Node, ignoreFile: Option<string>, probe: Probe, matcher: IgnoreFile -> Path -> bool,
              level: int, limitToDirectories: bool, lengthLimit: int, annotationStart: int, annotate: bool)
    returns (r: Result<Rendered, TreeError>)
    ensures var cfg := Config(IgnoreTest(SelectIgnoreFile(ignoreFile, probe), matcher),
                              limitToDirectories, annotationStart, annotate);
            r == TreeResult(cfg, root, level, lengthLimit)
    ensures !ValidLengthLimit(lengthLimit) <==> r == Err(LengthLimitOutOfRange)
    ensures ValidLengthLimit(lengthLimit) ==>
              var cfg := Config(IgnoreTest(SelectIgnoreFile(ignoreFile, probe), matcher),
                                limitToDirectories, annotationStart, annotate);
              r == TreeResult(cfg, root, level, 0)
    ensures r.Ok? ==> |r.value.lines| >= 2 && r.value.lines[0] == root.name
                      && r.value.lines[|r.value.lines| - 1] == Summary(r.value.directories, r.value.files)
    ensures r.Ok? && limitToDirectories ==> r.value.files == 0
  {
    var ignored := IgnoreTest(SelectIgnoreFile(ignoreFile, probe), matcher);
    var cfg := Config(ignored, limitToDirectories, annotationStart, annotate);
    var renderer := new Renderer(cfg);
    renderer.lines := renderer.lines + [root.name];
    if lengthLimit < 0 || lengthLimit > MAXSIZE {
      return Err(LengthLimitOutOfRange);
    }
    if level != 0 {
      if !root.Dir? {
        return Err(NotADirectory);
      }
      renderer.Inner(root, [], "", level);
      if limitToDirectories {
        NoFileRowsInDirectoriesMode(cfg, root, [], "", level);
      }
    }
    ghost var body := if level == 0 then [] else Walk(cfg, root, [], "", level);
    assert renderer.lines == [root.name] + Texts(body);
    assert renderer.directories == CountRows(body, true) && renderer.files == CountRows(body, false);
    renderer.lines := renderer.lines + [Summary(renderer.directories, renderer.files)];
    r := Ok(Rendered(renderer.directories, renderer.files, renderer.lines));
    assert level == 0 ==> renderer.lines == [root.name, Summary(0, 0)];
  }
}

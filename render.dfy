/** The tree renderer's specification: the rows `inner` appends for one
    directory, as a function of the directory value, and the whole output of
    `tree`. The `Renderer` class in module TreeRenderer is proved to produce
    exactly these. */
module Render {
  import opened Wrappers
  import opened Strings
  import opened Annotations
  import opened FileTree

  const SPACE := "    "
  const BRANCH := "│   "
  const TEE := "├─ "
  const LAST := "└─ "
  const EMPTY := "└─ ..."
  /** The package marker file, whose first line describes its directory. */
  const INIT_FILE := "__init__.py"

  /** The options `inner` reads: the ignore test, directories-only mode,
      the annotation column and whether to annotate. */
  datatype Config = Config(
    ignored: Path -> bool,
    limitToDirectories: bool,
    annotationStart: int,
    annotate: bool)

  /** One output line, with what it shows: a directory entry, a file entry,
      the placeholder of an empty directory, or the line closing a
      directory's block. */
  datatype Row =
    | DirRow(path: Path, text: string)
    | FileRow(path: Path, text: string)
    | EmptyRow(text: string)
    | CloseRow(text: string)

  predicate IsEntry(r: Row)
  {
    r.DirRow? || r.FileRow?
  }

  /** Connector of the `i`-th of `n` children: `pointers = [TEE] * (n - 1) + [LAST]`. */
  function Pointer(i: nat, n: nat): (p: string)
    requires i < n
    ensures p == LAST <==> i == n - 1
    ensures p == TEE <==> i < n - 1
  {
    if i == n - 1 then LAST else TEE
  }

  /** Prefix extension for the block of the `i`-th of `n` children:
      `BRANCH` after the `├─ ` connector, `SPACE` after `└─ `. */
  function Extension(i: nat, n: nat): (ext: string)
    requires i < n
    ensures ext == BRANCH <==> i < n - 1
    ensures ext == SPACE <==> i == n - 1
  {
    if Pointer(i, n) == TEE then BRANCH else SPACE
  }

  function Max(a: int, b: int): int
  {
    if a < b then b else a
  }

  /** `line.ljust(annotation_start) + f"#{description}"` when annotating:
      the `#` stands at the annotation column, or right after `head` when
      `head` is already that long. */
  function Annotate(cfg: Config, head: string, description: string): (r: string)
    ensures !cfg.annotate ==> r == head
    ensures cfg.annotate ==>
              var col := Max(|head|, cfg.annotationStart);
              |r| == col + 1 + |description| && StartsWith(r, head)
              && (forall k :: |head| <= k < col ==> r[k] == ' ')
              && r[col] == '#' && r[col + 1..] == description
  {
    if cfg.annotate then
      var padded := LJust(head, cfg.annotationStart);
      assert (padded + "#" + description)[..|padded|] == padded;
      padded + "#" + description
    else head
  }

  /** The line of a directory entry; `lead` is prefix + connector. */
  function DirText(cfg: Config, lead: string, e: Node): string
    requires e.Dir?
  {
    Annotate(cfg, lead + e.name, FolderDescription(e.init))
  }

  /** The line of a file entry; `__init__.py` is never annotated. */
  function FileText(cfg: Config, lead: string, e: Node): string
    requires e.File?
  {
    if e.name == INIT_FILE then lead + e.name
    else Annotate(cfg, lead + e.name, FirstLine(e.read))
  }

  /** The entries of the directory at `path` that the ignore test keeps. */
  function Visible(cfg: Config, d: Node, path: Path): seq<Node>
  {
    Unignored(cfg.ignored, path, EntriesOf(d))
  }

  /** `kids` are entries of `d`, each a directory or a regular file. */
  predicate KidsOf(d: Node, kids: seq<Node>)
  {
    forall e :: e in kids ==> e in EntriesOf(d) && (e.Dir? || e.File?)
  }

  /** Every entry of `kids` is kept by the ignore test at `path`. */
  predicate AllKept(cfg: Config, path: Path, kids: seq<Node>)
  {
    forall e :: e in kids ==> !cfg.ignored(path + [e.name])
  }

  /** `sorted_contents`: the kept directories sorted by name, then the kept
      regular files sorted by name (see ChildrenOrder in RenderFacts). */
  function Children(cfg: Config, d: Node, path: Path): (r: seq<Node>)
    ensures KidsOf(d, r) && AllKept(cfg, path, r)
  {
    var v := Visible(cfg, d, path);
    SortByName(DirsOf(v)) + SortByName(FilesOf(v))
  }

  /** A directory gets the `└─ ...` placeholder when it can be listed and
      every entry in it is ignored. */
  predicate ShowsEmptyMark(cfg: Config, e: Node, path: Path)
  {
    e.Dir? && e.listing.Listed? && forall x :: x in e.listing.entries ==> cfg.ignored(path + [x.name])
  }

  /** The placeholder row under a subdirectory whose block has the prefix
      `lead`, when it shows one. */
  function EmptyMark(cfg: Config, e: Node, sub: Path, lead: string): (r: seq<Row>)
    ensures |r| <= 1 && (r != [] <==> ShowsEmptyMark(cfg, e, sub))
    ensures r != [] ==> r[0] == EmptyRow(lead + EMPTY)
  {
    if ShowsEmptyMark(cfg, e, sub) then [EmptyRow(lead + EMPTY)] else []
  }

  /** The rows `inner(d, prefix, level)` appends; `path` is where `d` lies. */
  function Walk(cfg: Config, d: Node, path: Path, prefix: string, level: int): seq<Row>
    requires d.Dir?
    decreases d, 2
  {
    if level == 0 || d.listing.Unlistable? then []
    else WalkFrom(cfg, d, path, prefix, level, Children(cfg, d, path), 0)
  }

  /** The rows for children `kids[i..]` of `d`. */
  function WalkFrom(cfg: Config, d: Node, path: Path, prefix: string, level: int, kids: seq<Node>, i: nat): seq<Row>
    requires d.Dir? && i <= |kids| && KidsOf(d, kids)
    decreases d, 1, |kids| - i
  {
    if i == |kids| then []
    else ChildBlock(cfg, d, path, prefix, level, kids, i) + WalkFrom(cfg, d, path, prefix, level, kids, i + 1)
  }

  /** The rows for child `kids[i]` of `d`: its own line, then for a
      directory its block (at one level less), the placeholder when it is
      empty, and the closing line. In directories-only mode a file adds no
      row, though it still took its connector slot. */
  function ChildBlock(cfg: Config, d: Node, path: Path, prefix: string, level: int, kids: seq<Node>, i: nat): seq<Row>
    requires d.Dir? && i < |kids| && KidsOf(d, kids)
    decreases d, 0
  {
    var e := kids[i];
    var pointer := Pointer(i, |kids|);
    var sub := path + [e.name];
    if e.Dir? then
      var ext := Extension(i, |kids|);
      assert e in EntriesOf(d);
      assert d.listing.Listed? && e in d.listing.entries;
      [DirRow(sub, DirText(cfg, prefix + pointer, e))]
      + Walk(cfg, e, sub, prefix + ext, level - 1)
      + EmptyMark(cfg, e, sub, prefix + ext)
      + [CloseRow(RStrip(prefix + ext))]
    else if cfg.limitToDirectories then []
    else [FileRow(sub, FileText(cfg, prefix + pointer, e))]
  }

  /** The lines of some rows. */
  function Texts(rows: seq<Row>): (r: seq<string>)
    ensures |r| == |rows| && forall k :: 0 <= k < |rows| ==> r[k] == rows[k].text
  {
    if rows == [] then [] else [rows[0].text] + Texts(rows[1..])
  }

  lemma {:induction false} TextsConcat(a: seq<Row>, b: seq<Row>)
    ensures Texts(a + b) == Texts(a) + Texts(b)
  {
    if a == [] {
      assert a + b == b;
    } else {
      assert (a + b)[0] == a[0] && (a + b)[1..] == a[1..] + b;
      TextsConcat(a[1..], b);
    }
  }

  predicate Counted(r: Row, dirs: bool)
  {
    if dirs then r.DirRow? else r.FileRow?
  }

  /** How many directory rows (`dirs`) or file rows (`!dirs`) there are. */
  function CountRows(rows: seq<Row>, dirs: bool): (n: nat)
    ensures n <= |rows|
    ensures n == 0 <==> forall k :: 0 <= k < |rows| ==> !Counted(rows[k], dirs)
  {
    if rows == [] then 0
    else
      var n := CountRows(rows[1..], dirs);
      assert forall k :: 1 <= k < |rows| ==> rows[k] == rows[1..][k - 1];
      (if Counted(rows[0], dirs) then 1 else 0) + n
  }

  lemma {:induction false} CountConcat(a: seq<Row>, b: seq<Row>, dirs: bool)
    ensures CountRows(a + b, dirs) == CountRows(a, dirs) + CountRows(b, dirs)
  {
    if a == [] {
      assert a + b == b;
    } else {
      assert (a + b)[0] == a[0] && (a + b)[1..] == a[1..] + b;
      CountConcat(a[1..], b, dirs);
    }
  }

  /** The summary line: `"\n{D} directories"`, then `", {F} files"` unless
      no file was counted. */
  function Summary(directories: nat, files: nat): string
  {
    "\n" + Decimal(directories) + " directories" + FilesClause(files)
  }

  /** `", {F} files"`, left out exactly when no file was counted. */
  function FilesClause(files: nat): (r: string)
    ensures r == "" <==> files == 0
    ensures files != 0 ==> StartsWith(r, ", ")
  {
    if files != 0 then ", " + Decimal(files) + " files" else ""
  }

  /** `sys.maxsize` on a 64-bit build: the largest stop `islice` accepts. */
  const MAXSIZE: int := 0x7FFF_FFFF_FFFF_FFFF

  /** A `length_limit` that `islice` accepts as its stop. */
  predicate ValidLengthLimit(lengthLimit: int)
  {
    0 <= lengthLimit <= MAXSIZE
  }

  /** The exceptions `tree` lets escape: `islice` refuses a stop outside
      `0..sys.maxsize` (`ValueError`), and listing a root that is not a
      directory fails. */
  datatype TreeError = LengthLimitOutOfRange | NotADirectory

  /** What `tree(..., output_file=None)` returns. */
  datatype Rendered = Rendered(directories: nat, files: nat, lines: seq<string>)

  /** The outcome of `tree` for `root` (its last path component is
      `root.name`): the root's name, the rows of the traversal, the summary. */
  function TreeResult(cfg: Config, root: Node, level: int, lengthLimit: int): Result<Rendered, TreeError>
  {
    if !ValidLengthLimit(lengthLimit) then Err(LengthLimitOutOfRange)
    else if level == 0 then Ok(Rendered(0, 0, [root.name, Summary(0, 0)]))
    else if !root.Dir? then Err(NotADirectory)
    else
      var rows := Walk(cfg, root, [], "", level);
      var dirs := CountRows(rows, true);
      var files := CountRows(rows, false);
      Ok(Rendered(dirs, files, [root.name] + Texts(rows) + [Summary(dirs, files)]))
  }
}

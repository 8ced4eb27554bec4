# annotree in Dafny

annotree draws a directory as an annotated text tree. Each entry goes on
its own line after a `├─ ` or `└─ ` connector. A directory is annotated
with the first line of its `__init__.py`, and a file with its own first
line. The tree can also be spliced into a document between two marker tags.
This project models the core of `annotree/annotree.py` and proves what it
promises:

- **Annotations** (`annotations.dfy`): `get_first_line` and
  `get_folder_description` as pure string functions over `FileRead`. A
  `FileRead` is the outcome of reading a file: its text, or an opaque error
  reason.
- **File tree** (`filetree.dfy`): the directory as an immutable value
  (`Dir`, `File`, `Other`; a directory whose listing raises
  `PermissionError` is `Unlistable`). It also holds Python's ordering on
  `str`, the stable sort by name, and the filters that pick directories,
  files and the entries that are not ignored.
- **Ignore file** (`ignore.dfy`): which ignore file `tree` picks. The
  gitignore matcher is a parameter (`IgnoreFile -> Path -> bool`).
- **Renderer specification** (`render.dfy`, `render_facts.dfy`): `Walk`
  gives the rows that `inner` appends for a directory, each tagged with what
  it shows. `TreeResult` gives the whole result of `tree`. The lemmas cover:
  - the order of children and the connectors;
  - the block layout of a subdirectory and the empty placeholder;
  - the depth limit, and that every negative level means "no limit" (it
    renders like any level at least as deep as the tree);
  - directories-only mode;
  - the summary line.
- **Renderer** (`renderer.dfy`): `tree`/`inner` as the source runs them. A
  `Renderer` object has the `output_lines` list and the two counters as
  fields. Its recursive `Inner` method and the loop over the children are
  proved to append exactly the texts of `Walk` and to count exactly its
  directory and file rows.
- **Embedding** (`embed.dfy`): the string splice of `embed_tree_in_file`,
  with its error cases, the exact shape of the new document and idempotence.

Where the code and its documentation disagree, the model follows the code:

- `length_limit` is documented as a cap on the number of lines. In the code,
  `inner` appends to `output_lines` directly and never yields anything. So
  `islice` has nothing to cut, `next(iterator, None)` is always `None`, and
  the "length_limit reached" line is never written. `islice` still raises
  `ValueError` for a stop that is negative or larger than `sys.maxsize`
  (2^63 - 1 on a 64-bit build). `Tree` states that the result is an error
  exactly for such a limit, and is the same for every other limit.
- In directories-only mode, files are dropped only when their lines are
  emitted. They still take connector slots, so the last directory shown can
  get `├─ `. `Render.ChildBlock` keeps this.
- An `ignore_file` that is given but does not exist means nothing is
  ignored. The code does not fall back to `.treeignore` or `.gitignore`. An
  empty `ignore_file` string also ignores nothing.

## Model

| member | source | states |
|---|---|---|
| Annotations.ReadLine | annotree/annotree.py:30 | `readline()` gives a prefix of the text that has no newline except possibly its last character, and is the whole text unless it ends in a newline |
| Annotations.Clean | annotree/annotree.py:30 | after strip and the four removals, the line has no `#` and no `"`, and every character in it comes from the read line |
| Annotations.Describe | annotree/annotree.py:32-34 | the result starts with a space; it is the "No description available." sentinel for an empty cleaned line (a line that reads "No description available." also gives it); otherwise it is the line, with one space added in front exactly when the line does not start with one |
| Annotations.FirstLine | annotree/annotree.py:27-36 | always non-empty and starts with a space; a read error gives `" Error reading file: "` followed by the reason; a successful read contains no `#` and no `"` and is the description of the cleaned first line |
| Annotations.FolderDescription | annotree/annotree.py:49-52 | the first line of `__init__.py` when it exists, else the sentinel; always starts with a space |
| Annotations.ReadLineUpTo | annotree/annotree.py:30 | `readline()` of a text whose first line has no newline is that line with its newline |
| Annotations.CleanPlain | annotree/annotree.py:30 | a line holding none of `#`, `"`, `<!-- ` and ` -->` is cleaned to exactly its stripped form |
| Annotations.CommentFirstLine | annotree/annotree.py:27-34 | a file whose first line is `# ` followed by a non-empty text `t` is described as a space followed by `t`, when `t` holds no newline, `#` or `"` and does not end in white space, and a space followed by `t` holds no `<!-- ` and no ` -->` (so `t` does not start with `-->`) |
| Annotations.TestCommentDescribed | tests/test_annotree.py:16-28 | a file whose first line is `# This is a test comment` is described as exactly ` This is a test comment`, whatever follows |
| Annotations.EmptyLineUndescribed | tests/test_annotree.py:31-41 | a file holding only a newline gets the "No description available." sentinel |
| Annotations.TestPackageDescribed | tests/test_annotree.py:44-53 | a package whose `__init__.py` has the first line `# Test package` is described as exactly ` Test package` |
| Strings.RemoveAll | annotree/annotree.py:30 | `replace(pat, "")` never lengthens the string and adds no character; with a one-character pattern, that character is gone |
| Strings.RemoveAllFirst | annotree/annotree.py:30 | `replace(pat, "")` keeps the text before the first occurrence of `pat` (as `find` gives it), drops that occurrence and goes on with the text after it; with no occurrence it returns the string unchanged. With `Find` this fixes the value |
| Strings.RemoveAllNone | annotree/annotree.py:30 | a string in which the pattern occurs nowhere is returned unchanged |
| Strings.LStrip | annotree/annotree.py:30 | `lstrip()` is a suffix of the string, does not start with white space, and everything cut off is white space |
| Strings.RStrip | annotree/annotree.py:30 | `rstrip()` is a prefix of the string, does not end with white space, and everything cut off is white space |
| Strings.Strip | annotree/annotree.py:30 | `strip()` is the infix that starts where `lstrip` starts; it has no white space at either end, and everything outside it is white space. This fixes the value |
| Strings.Decimal | annotree/annotree.py:167 | `str(n)` is a non-empty string of decimal digits, with no leading zero unless `n` is 0 |
| Strings.JoinLines | annotree/annotree.py:212 | definition of `"\n".join(lines)`: the lines with `\n` between consecutive ones; it starts with the first line and is that line alone when there is one |
| Strings.JoinLinesLast | annotree/annotree.py:212 | read from the other end, the join of two or more lines is the join of all but the last, a `\n`, and the last line; for the lines of `tree`, the joined text thus ends with a newline and the summary line |
| Strings.IsSpace | annotree/annotree.py:30 | definition: the characters for which `str.isspace()` holds, which `strip` and `rstrip` remove |
| Strings.Contains | annotree/annotree.py:217 | definition of `tag in content`: `find` gives an occurrence |
| Strings.LJust | annotree/annotree.py:135 | `ljust(width)` keeps the string as a prefix, has length max(len, width) and pads only with spaces |
| Strings.Find | annotree/annotree.py:221-222 | the split point of `split(sep, 1)`: `None` exactly when the pattern occurs nowhere; otherwise an occurrence with none before it |
| Strings.DecimalRoundTrip | annotree/annotree.py:167 | the decimal text of a count reads back as that count |
| Ignore.SelectIgnoreFile | annotree/annotree.py:85-103 | a given name is used exactly when it is non-empty and exists, with no fallback; without one, `.treeignore` is chosen when it exists, else `.gitignore` when it exists, else none |
| Ignore.Exists | annotree/annotree.py:100 | definition: the probe answer for the chosen file |
| Ignore.IgnoreTest | annotree/annotree.py:95-103 | with no ignore file nothing is ignored; otherwise the answer is the matcher's for the chosen file |
| FileTree.NameLe | annotree/annotree.py:123-124 | Python's `<=` on `str`: the empty string comes first, then the first differing code point decides (definition; its order properties are the next rows) |
| FileTree.NameLeTotal | annotree/annotree.py:123-124 | any two names are ordered one way or the other |
| FileTree.NameLeTransitive | annotree/annotree.py:123-124 | the name order is transitive |
| FileTree.NameLeAntisymmetric | annotree/annotree.py:123-124 | names ordered both ways are equal |
| FileTree.Insert | annotree/annotree.py:123-124 | inserting into a sorted list keeps it sorted and adds exactly that element |
| FileTree.SortByName | annotree/annotree.py:123-124 | `sort(key=name)` returns a permutation of the list, ascending by name |
| FileTree.DirsOf | annotree/annotree.py:119 | keeps exactly the directories, each no more often than in the input |
| FileTree.DirsOfCounts | annotree/annotree.py:119 | every directory is kept as often as it occurs in the listing, and no regular file is kept |
| FileTree.FilesOf | annotree/annotree.py:120 | keeps exactly the regular files, each no more often than in the input |
| FileTree.FilesOfCounts | annotree/annotree.py:120 | every regular file is kept as often as it occurs in the listing, and no directory is kept |
| FileTree.Unignored | annotree/annotree.py:115 | keeps exactly the entries whose path is not ignored |
| FileTree.UnignoredCounts | annotree/annotree.py:115 | every entry whose path is not ignored is kept as often as it occurs in the listing, and no ignored entry is kept |
| Render.Pointer | annotree/annotree.py:129 | the connector is `└─ ` exactly for the last child and `├─ ` exactly for the others |
| Render.Extension | annotree/annotree.py:138 | the prefix grows by `│   ` exactly for a child that is not the last (the one that got `├─ `) and by four spaces exactly for the last (the one that got `└─ `) |
| Render.Annotate | annotree/annotree.py:133-135 | without annotation the line is its head; with annotation, the head is padded with spaces up to the annotation column (or not at all if it is already longer), followed by `#` and the description |
| Render.Children | annotree/annotree.py:115-127 | every listed child is a non-ignored directory or regular file of the directory |
| Render.Walk | annotree/annotree.py:109-117 | definition: no rows at level 0 or for a directory whose listing raises `PermissionError`, else the blocks of the sorted children in turn (properties: RenderFacts rows below) |
| Render.WalkFrom | annotree/annotree.py:130 | definition: the blocks of children `i..` in order |
| Render.ChildBlock | annotree/annotree.py:130-159 | definition: a directory's line, its rows one level down under the extended prefix, the placeholder, the right-stripped prefix; a file's line unless in directories-only mode (shape: RenderFacts.ChildBlockShape) |
| Render.FilesClause | annotree/annotree.py:167 | the `, {F} files` part is empty exactly when no file was counted |
| Render.Summary | annotree/annotree.py:167 | definition: a newline, the directory count, ` directories`, then the files clause (RenderFacts.SummaryDeterminesCounts reads both counts back) |
| Render.TreeResult | annotree/annotree.py:161-171 | definition: an out-of-range `length_limit` is the `islice` error; level 0 gives the root name and the zero summary; a root that is not a directory fails; else the root name, the texts of `Walk` and the summary of its counted rows |
| RenderFacts.DirTextShape | annotree/annotree.py:131-135 | a directory's line is prefix, connector and name; when annotating, it ends with `#` and the folder description |
| RenderFacts.FileTextShape | annotree/annotree.py:149-157 | a file's line is prefix, connector and name, with nothing more for `__init__.py` or without annotation; otherwise it ends with `#` and the file's first line |
| Render.EmptyMark | annotree/annotree.py:142-146 | the `└─ ...` row appears exactly when the subdirectory can be listed and all its entries are ignored, and it carries the extended prefix |
| RenderFacts.ChildrenOrder | annotree/annotree.py:115-127 | the children are exactly the non-ignored directories and regular files: the directories first, sorted by name and a permutation of the kept directories, then the files, likewise |
| RenderFacts.WalkRows | annotree/annotree.py:109-159 | every entry row is a path strictly below the directory, is not ignored and is at most `level` levels down (any depth for a negative level); file rows appear only outside directories-only mode |
| RenderFacts.NoFileRowsInDirectoriesMode | annotree/annotree.py:149-159 | directories-only mode emits no file row |
| RenderFacts.WalkUnbounded | annotree/annotree.py:109-139 | a negative level renders the same rows as any level at least the height of the tree, so "no limit" is the whole tree: `level - 1` never reaches 0, and a deep enough limit cuts nothing |
| RenderFacts.TreeUnbounded | annotree/annotree.py:161-167 | for a root that is a directory, `tree` gives the same result for every level that is negative or at least the height of the tree |
| RenderFacts.WalkPrefix | annotree/annotree.py:133-147 | every line of a directory's rows, except the closing lines, starts with the prefix it was rendered under |
| RenderFacts.ChildBlockShape | annotree/annotree.py:130-147 | a subdirectory's block is: its entry line (prefix, connector, name); lines under the extended prefix; the `└─ ...` line second to last exactly when the subdirectory is listable and all its entries are ignored; and the right-stripped extended prefix last |
| RenderFacts.SummaryDeterminesCounts | annotree/annotree.py:167 | the summary line determines both counts, including whether the files clause is left out |
| TreeRenderer.Renderer.constructor | annotree/annotree.py:105-107 | no lines, zero directories, zero files |
| TreeRenderer.Renderer.Inner | annotree/annotree.py:109-159 | `inner` appends exactly the rows of `Walk` and adds their directory and file rows to the counters |
| TreeRenderer.Renderer.Visit | annotree/annotree.py:130-159 | one turn of the loop appends the child's block and counts its rows |
| TreeRenderer.Tree | annotree/annotree.py:55-171 | `tree(output_file=None)` is `TreeResult`: the root name first and the summary of the counted rows last; the `islice` error exactly for a `length_limit` below 0 or above `sys.maxsize`; the same result for every other limit; no files counted in directories-only mode |
| Embed.Fence | annotree/annotree.py:225 | the fenced block is the tree text between a "\n```text\n" opening and a "\n```\n" closing, 14 characters longer than the text |
| Embed.Replacement | annotree/annotree.py:225 | definition: start tag, fence, end tag |
| Embed.Splice | annotree/annotree.py:217-230 | a missing tag leaves the document unchanged with "not changed"; an empty tag with both present is the empty-separator error; "changed" holds exactly when the content differs |
| Embed.SpliceAfter | annotree/annotree.py:221-230 | the unpacking error happens exactly when no end tag follows the first start tag |
| Embed.SpliceAt | annotree/annotree.py:221-227 | the new content is the text before the first start tag, then start tag, fenced tree and end tag, then the text after the first end tag that follows |
| Embed.EndTagOnlyBeforeStart | annotree/annotree.py:221-222 | an end tag that occurs only before the first start tag (or overlaps it) raises the unpacking error |
| Embed.SpliceIdempotent | annotree/annotree.py:221-233 | splicing the same tree text again reproduces the document and reports no change, provided the end tag is first found after the fence |
| Embed.EmbedResult | annotree/annotree.py:196-233 | definition: a missing target, then a failure of `tree`, else the splice of the joined tree lines |
| Embed.EmbedTwiceNoChange | tests/test_annotree.py:160-166 | a second `embed_tree_in_file` whose tree renders the same lines returns "not changed" and leaves the content as it is |
| Embed.EmbedTreeInFile | annotree/annotree.py:196-233 | a missing target is exactly the `FileNotFoundError` case; a failure of `tree` is passed on; otherwise the result is the splice of the joined tree lines; "not changed" leaves the content as it was |

## Left out

- The command line in `annotree/__main__.py` (argument parsing, console output, exit codes) and the re-exports in `annotree/__init__.py`.
- The pattern semantics of `gitignore_parser.parse_gitignore`: the matcher is a parameter, and paths are name sequences below the root rather than strings.
- Real file-system I/O. `open`/`readline`, UTF-8 decoding, `iterdir`, `is_dir`/`is_file` and `exists` become the `Node`, `FileRead` and `Probe` values. `ReadLine` splits only at `\n`, with no universal-newline translation.
- The write of the output file (`annotree/annotree.py:173-176`) and `write_text` of the new document (line 232). `Embedded.content` is what would be written.
- The text of exception messages: an unreadable file keeps an opaque reason string.
- Laziness of the generator and of `islice`: the traversal is eager and has the same output.
- Symbolic-link cycles: the tree value is finite.
- `PermissionError` when probing `__init__.py`, `.treeignore` or `.gitignore`: the probes are given as booleans.
- A root path that does not exist: it is treated like a root that is not a directory (`NotADirectory`).
- TreeRenderer.Tree: does not raise the `OverflowError` that `ljust` raises when annotating with an `annotation_start` above `sys.maxsize` (lines 135 and 157).
- Render.Annotate: `ljust` raises `OverflowError` for an `annotation_start` above `sys.maxsize`; the model pads to any width.
- Embed.EmbedTwiceNoChange assumes the second run renders the same lines. When the target lies inside the rendered tree and annotation is on, the first run can change the target's first line, and then its annotation. An example is a target whose first line holds both tags. The model does not prove that the rendering ignores file contents when annotation is off.
- Errors of `read_text` on a target that exists (a directory, no permission, invalid UTF-8; line 215): the target is an `Option<string>`, present or missing, so these cannot arise.
- Exceptions from `parse_gitignore` (line 101), for example an unreadable ignore file: the matcher is a total function.
- `sys.maxsize` is taken as 2^63 - 1, the value on a 64-bit build.

/** The annotation extractor: the description shown after `#` for a file
    (its first line, cleaned) or a directory (the first line of its
    `__init__.py`). The file system is replaced by `FileRead`, the outcome of
    opening the file and reading it as UTF-8 text. */
module Annotations {
  import opened Wrappers
  import opened Strings

  /** The sentinel returned when there is nothing to show. */
  const NO_DESCRIPTION := " No description available."
  /** Prefix of the in-band message for a file that cannot be read. */
  const READ_ERROR := " Error reading file: "

  /** What opening and reading a file yields: its decoded text, or the text
      of the exception raised (kept opaque). */
  datatype FileRead = Readable(text: string) | Unreadable(reason: string)

  /** `file.readline()`: the text up to and including the first newline. */
  function ReadLine(text: string): (r: string)
    ensures StartsWith(text, r)
    ensures forall k :: 0 <= k < |r| - 1 ==> r[k] != '\n'
    ensures r == text || (|r| > 0 && r[|r| - 1] == '\n')
  {
    if |text| == 0 then ""
    else if text[0] == '\n' then "\n"
    else [text[0]] + ReadLine(text[1..])
  }

  /** The first line stripped of white space, then of every `#`, every `"`,
      every `<!-- ` and every ` -->`, in that order. */
  function Clean(line: string): (r: string)
    ensures '#' !in r && '"' !in r
    ensures forall c :: c in r ==> c in line
  {
    var stripped := Strip(line);
    assert forall c :: c in stripped ==> c in line by {
      forall c | c in stripped ensures c in line {
        var i := |line| - |LStrip(line)|;
        var k :| 0 <= k < |stripped| && stripped[k] == c;
        assert line[i + k] == c;
      }
    }
    var noHash := RemoveAll(stripped, "#");
    var noQuote := RemoveAll(noHash, "\"");
    RemoveAll(RemoveAll(noQuote, "<!-- "), " -->")
  }

  /** The description made from a cleaned first line: the sentinel when the
      line is empty, else the line with a space put in front when it lacks one. */
  function Describe(line: string): (r: string)
    ensures |r| > 0 && r[0] == ' '
    ensures line == "" ==> r == NO_DESCRIPTION
    ensures line != "" ==> (r == line || r == " " + line) && (line[0] == ' ' <==> r == line)
  {
    if line == "" then NO_DESCRIPTION
    else if line[0] == ' ' then line
    else " " + line
  }

  /** `get_first_line`: always a non-empty string that starts with a space.
      A readable file gives its cleaned first line (with a space put in
      front when it lacks one), or the sentinel when nothing is left, and
      never holds `#` or `"`; an unreadable one gives the error message with
      the reason. */
  function FirstLine(f: FileRead): (r: string)
    ensures |r| > 0 && r[0] == ' '
    ensures f.Unreadable? ==> StartsWith(r, READ_ERROR) && r[|READ_ERROR|..] == f.reason
    ensures f.Readable? ==> '#' !in r && '"' !in r
    ensures f.Readable? ==> r == Describe(Clean(ReadLine(f.text)))
  {
    match f
    case Unreadable(reason) =>
      var r := READ_ERROR + reason;
      assert r[..|READ_ERROR|] == READ_ERROR && r[|READ_ERROR|..] == reason;
      r
    case Readable(text) =>
      var line := Clean(ReadLine(text));
      var r := Describe(line);
      assert '#' !in NO_DESCRIPTION && '"' !in NO_DESCRIPTION;
      assert r != line && r != NO_DESCRIPTION ==> r == " " + line;
      r
  }

  /** `get_folder_description`: `init` is what reading `<dir>/__init__.py`
      gives, `None` when no such file exists. */
  function FolderDescription(init: Option<FileRead>): (r: string)
    ensures |r| > 0 && r[0] == ' '
    ensures init.Some? ==> r == FirstLine(init.value)
    ensures init.None? ==> r == NO_DESCRIPTION
  {
    match init
    case Some(f) => FirstLine(f)
    case None => NO_DESCRIPTION
  }
  /** `readline()` stops at the first newline: a text whose first line is
      `a` reads as `a` with its newline. */
  lemma {:induction false} ReadLineUpTo(a: string, b: string)
    requires '\n' !in a
    ensures ReadLine(a + "\n" + b) == a + "\n"
    decreases |a|
  {
    var text := a + "\n" + b;
    if a == [] {
      assert text[0] == '\n';
    } else {
      assert text[0] == a[0] && text[1..] == a[1..] + "\n" + b;
      ReadLineUpTo(a[1..], b);
      assert [a[0]] + (a[1..] + "\n") == a + "\n";
    }
  }

  /** An infix `t` of a string in which `pat` does not occur holds no
      occurrence either, so `replace(pat, "")` leaves it as it is. */
  lemma InfixLacks(s: string, t: string, i: nat, pat: string)
    requires OccursAt(s, t, i) && |pat| > 0 && !Contains(s, pat)
    ensures RemoveAll(t, pat) == t
  {
    forall j ensures !OccursAt(t, pat, j) {
      if OccursAt(t, pat, j) {
        InfixOccurs(s, t, i, pat, j);
      }
    }
    RemoveAllNone(t, pat);
  }

  /** A line holding none of `#`, `"`, `<!-- ` and ` -->` is only stripped. */
  lemma CleanPlain(line: string)
    requires '#' !in line && '"' !in line
    requires !Contains(line, "<!-- ") && !Contains(line, " -->")
    ensures Clean(line) == Strip(line)
  {
    MissingChar(line, "#", 0);
    MissingChar(line, "\"", 0);
    var t := Strip(line);
    var i := |line| - |LStrip(line)|;
    InfixLacks(line, t, i, "#");
    InfixLacks(line, t, i, "\"");
    InfixLacks(line, t, i, "<!-- ");
    InfixLacks(line, t, i, " -->");
  }

  /** A file whose first line is a `# ` comment with non-empty text `t` is
      described by ` ` followed by `t`, when `t` holds no newline, `#` or
      `"` and does not end in white space, and ` ` followed by `t` holds no
      `<!-- ` and no ` -->` (so `t` does not start with `-->`). */
  lemma CommentFirstLine(t: string, rest: string)
    requires |t| > 0 && !IsSpace(t[|t| - 1])
    requires '\n' !in t && '#' !in t && '"' !in t
    requires !Contains(" " + t, "<!-- ") && !Contains(" " + t, " -->")
    ensures FirstLine(Readable("# " + t + "\n" + rest)) == " " + t
  {
    var head := "# " + t;
    assert "# " + t + "\n" + rest == head + "\n" + rest;
    ReadLineUpTo(head, rest);
    CommentStripped(t);
    CommentCleaned(t);
  }

  /** Stripping `# t` and its newline leaves `# t`. */
  lemma CommentStripped(t: string)
    requires |t| > 0 && !IsSpace(t[|t| - 1])
    ensures Strip("# " + t + "\n") == "# " + t
  {
    var line := "# " + t + "\n";
    assert line[|line| - 2] == t[|t| - 1];
    StripTrailing(line, |line| - 1);
    assert line[..|line| - 1] == "# " + t;
  }

  /** The four removals turn `# t` into ` t`. */
  lemma CommentCleaned(t: string)
    requires '#' !in t && '"' !in t
    requires !Contains(" " + t, "<!-- ") && !Contains(" " + t, " -->")
    ensures RemoveAll(RemoveAll(RemoveAll(RemoveAll("# " + t, "#"), "\""), "<!-- "), " -->") == " " + t
  {
    var head := "# " + t;
    var u := " " + t;
    assert head[..1] == "#" && head[1..] == u;
    assert RemoveAll(head, "#") == RemoveAll(u, "#");
    MissingChar(u, "#", 0);
    RemoveAllNone(u, "#");
    MissingChar(u, "\"", 0);
    RemoveAllNone(u, "\"");
    RemoveAllNone(u, "<!-- ");
    RemoveAllNone(u, " -->");
  }

  /** No markup to remove in a comment made only of letters and spaces. */
  lemma NoMarkup(t: string)
    requires forall k :: 0 <= k < |t| ==> t[k] == ' ' || 'a' <= t[k] <= 'z' || 'A' <= t[k] <= 'Z'
    ensures '\n' !in t && '#' !in t && '"' !in t
    ensures !Contains(" " + t, "<!-- ") && !Contains(" " + t, " -->")
  {
    MissingChar(" " + t, "<!-- ", 0);
    MissingChar(" " + t, " -->", 1);
  }

  /** A file whose first line is `# This is a test comment` is described as
      ` This is a test comment`, whatever follows. */
  lemma TestCommentDescribed(rest: string)
    ensures FirstLine(Readable("# " + "This is a test comment" + "\n" + rest)) == " " + "This is a test comment"
  {
    NoMarkup("This is a test comment");
    CommentFirstLine("This is a test comment", rest);
  }

  /** A package whose `__init__.py` starts with `# Test package` is described
      as ` Test package`. */
  lemma TestPackageDescribed(rest: string)
    ensures FolderDescription(Some(Readable("# " + "Test package" + "\n" + rest))) == " " + "Test package"
  {
    NoMarkup("Test package");
    CommentFirstLine("Test package", rest);
  }

  /** A file holding only a newline has no description. */
  lemma EmptyLineUndescribed()
    ensures FirstLine(Readable("\n")) == NO_DESCRIPTION
  {
    assert ReadLine("\n") == "\n";
    assert Strip("\n") == "";
  }
}

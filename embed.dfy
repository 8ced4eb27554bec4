/** `embed_tree_in_file`: the rendered tree is spliced, as a fenced `text`
    block, between the first start tag and the first end tag after it. The
    target file is given as its content (`None` when it does not exist);
    the new content is what would be written back. */
module Embed {
  import opened Wrappers
  import opened Strings
  import opened FileTree
  import opened Render
  import opened Ignore
  import opened TreeRenderer

  /** The exceptions `embed_tree_in_file` raises: the target is missing;
      `tree` failed; `str.split` was given an empty tag (`ValueError: empty
      separator`); no end tag follows the start tag (`ValueError` when
      unpacking the split). */
  datatype EmbedError = TargetNotFound | TreeFailed(error: TreeError) | EmptySeparator | EndTagNotAfterStart

  /** Whether the document changed, and its content afterwards. */
  datatype Embedded = Embedded(changed: bool, content: string)

  /** The fenced block between the tags, without the tags. */
  function Fence(treeText: string): (r: string)
    ensures |r| == |treeText| + 14 && r[9..|r| - 5] == treeText
    ensures r[..9] == "\n```text\n" && r[|r| - 5..] == "\n```\n"
  {
    var r := "\n```text\n" + treeText + "\n```\n";
    assert r[9..|r| - 5] == treeText;
    r
  }

  /** The replacement: start tag, fenced tree, end tag. */
  function Replacement(startTag: string, endTag: string, treeText: string): string
  {
    startTag + Fence(treeText) + endTag
  }

  /** The string work of `embed_tree_in_file` on a document `content`. A
      missing tag leaves the document as it is; otherwise the part from the
      first start tag up to and including the first end tag after it is
      replaced, and `changed` tells whether the content differs. */
  function Splice(content: string, startTag: string, endTag: string, treeText: string): (r: Result<Embedded, EmbedError>)
    ensures !Contains(content, startTag) || !Contains(content, endTag) ==> r == Ok(Embedded(false, content))
    ensures Contains(content, startTag) && Contains(content, endTag) && (startTag == "" || endTag == "")
            ==> r == Err(EmptySeparator)
    ensures r.Ok? ==> (r.value.changed <==> r.value.content != content)
  {
    if !Contains(content, startTag) || !Contains(content, endTag) then Ok(Embedded(false, content))
    else if startTag == "" || endTag == "" then Err(EmptySeparator)
    else SpliceAfter(content, startTag, endTag, treeText, Find(content, startTag).value)
  }

  /** The rest of `Splice` once the start tag has been found at `i`: the
      end tag is looked for after it. */
  function SpliceAfter(content: string, startTag: string, endTag: string, treeText: string, i: nat): (r: Result<Embedded, EmbedError>)
    requires OccursAt(content, startTag, i)
    ensures r == Err(EndTagNotAfterStart) <==> !Contains(content[i + |startTag|..], endTag)
    ensures r.Ok? ==> (r.value.changed <==> r.value.content != content)
  {
    var rest := content[i + |startTag|..];
    match Find(rest, endTag)
    case None => Err(EndTagNotAfterStart)
    case Some(j) =>
      var newContent := content[..i] + Replacement(startTag, endTag, treeText) + rest[j + |endTag|..];
      Ok(Embedded(newContent != content, newContent))
  }

  /** Two strings that agree on their first `n` characters have the same
      first occurrence of `pat` when that occurrence ends within them. */
  lemma FindSamePrefix(a: string, b: string, pat: string, n: nat, i: nat)
    requires n <= |a| && n <= |b| && a[..n] == b[..n]
    requires Find(a, pat) == Some(i) && i + |pat| <= n
    ensures Find(b, pat) == Some(i)
  {
    assert OccursAt(a, pat, i);
    SliceWithinPrefix(a, b, n, i, i + |pat|);
    assert OccursAt(b, pat, i);
    forall k | 0 <= k < i ensures !OccursAt(b, pat, k) {
      SliceWithinPrefix(a, b, n, k, k + |pat|);
      assert !OccursAt(a, pat, k);
    }
  }

  lemma SliceWithinPrefix(a: string, b: string, n: nat, lo: nat, hi: nat)
    requires lo <= hi <= n <= |a| && n <= |b| && a[..n] == b[..n]
    ensures a[lo..hi] == b[lo..hi]
  {
    forall k | 0 <= k < hi - lo ensures a[lo..hi][k] == b[lo..hi][k] {
      assert a[lo + k] == a[..n][lo + k];
      assert b[lo + k] == b[..n][lo + k];
    }
  }

  /** The tree text does not hold the end tag in a place where it would be
      found before the end tag that follows the fence. */
  predicate EndTagAfterFence(treeText: string, endTag: string)
  {
    Find(Fence(treeText) + endTag, endTag) == Some(|Fence(treeText)|)
  }

  /** An occurrence in a suffix is an occurrence in the whole string. */
  lemma OccursInSuffix(s: string, pat: string, off: nat, k: nat)
    requires off <= |s| && OccursAt(s[off..], pat, k)
    ensures OccursAt(s, pat, off + k)
  {
    assert s[off..][k..k + |pat|] == s[off + k..off + k + |pat|];
  }

  /** `Splice` once both tags have been located. */
  lemma SpliceAt(content: string, startTag: string, endTag: string, treeText: string, i: nat, j: nat)
    requires startTag != "" && endTag != ""
    requires Find(content, startTag) == Some(i)
    requires i + |startTag| <= |content| && Find(content[i + |startTag|..], endTag) == Some(j)
    ensures j + |endTag| <= |content| - i - |startTag|
    ensures Splice(content, startTag, endTag, treeText).Ok?
    ensures Splice(content, startTag, endTag, treeText).value.content
            == content[..i] + Replacement(startTag, endTag, treeText) + content[i + |startTag| + j + |endTag|..]
  {
    OccursInSuffix(content, endTag, i + |startTag|, j);
    assert Contains(content, endTag);
    SpliceAfterAt(content, startTag, endTag, treeText, i, j);
  }

  lemma SpliceAfterAt(content: string, startTag: string, endTag: string, treeText: string, i: nat, j: nat)
    requires OccursAt(content, startTag, i)
    requires Find(content[i + |startTag|..], endTag) == Some(j)
    ensures i + |startTag| + j + |endTag| <= |content|
    ensures SpliceAfter(content, startTag, endTag, treeText, i).Ok?
    ensures SpliceAfter(content, startTag, endTag, treeText, i).value.content
            == content[..i] + Replacement(startTag, endTag, treeText) + content[i + |startTag| + j + |endTag|..]
  {
    var rest := content[i + |startTag|..];
    assert rest[j + |endTag|..] == content[i + |startTag| + j + |endTag|..];
  }

  /** Slices of a five-part concatenation. */
  lemma Parts(a: string, s: string, f: string, e: string, b: string)
    ensures var c := a + s + f + e + b;
            c[..|a|] == a && c[..|a| + |s|] == a + s && c[|a| + |s|..] == f + e + b
            && (f + e + b)[..|f| + |e|] == f + e && (f + e + b)[|f| + |e|..] == b
  {
  }

  /** Where the tags are found again in a document that has just been
      spliced: the start tag where it was, the end tag right after the
      fence. Splicing there reproduces the document. */
  lemma Relocate(content: string, startTag: string, endTag: string, treeText: string, i: nat, k: nat)
    requires Find(content, startTag) == Some(i)
    requires i + |startTag| <= k <= |content|
    requires EndTagAfterFence(treeText, endTag)
    ensures var c2 := content[..i] + Replacement(startTag, endTag, treeText) + content[k..];
            Find(c2, startTag) == Some(i)
            && i + |startTag| <= |c2|
            && Find(c2[i + |startTag|..], endTag) == Some(|Fence(treeText)|)
            && c2[..i] + Replacement(startTag, endTag, treeText) + c2[i + |startTag| + |Fence(treeText)| + |endTag|..] == c2
  {
    var fence := Fence(treeText);
    var before := content[..i];
    var after := content[k..];
    var c2 := before + startTag + fence + endTag + after;
    assert c2 == content[..i] + Replacement(startTag, endTag, treeText) + content[k..];
    Parts(before, startTag, fence, endTag, after);
    assert content[..i + |startTag|] == before + startTag by {
      assert OccursAt(content, startTag, i);
    }
    FindSamePrefix(content, c2, startTag, i + |startTag|, i);
    var rest2 := c2[i + |startTag|..];
    assert (fence + endTag)[..|fence| + |endTag|] == fence + endTag;
    FindSamePrefix(fence + endTag, rest2, endTag, |fence| + |endTag|, |fence|);
  }

  /** A document just spliced at `i` splices to itself. */
  lemma ResplicedUnchanged(content: string, startTag: string, endTag: string, treeText: string, i: nat, k: nat)
    requires startTag != "" && endTag != ""
    requires Find(content, startTag) == Some(i)
    requires i + |startTag| <= k <= |content|
    requires EndTagAfterFence(treeText, endTag)
    ensures var c2 := content[..i] + Replacement(startTag, endTag, treeText) + content[k..];
            Splice(c2, startTag, endTag, treeText) == Ok(Embedded(false, c2))
  {
    var c2 := content[..i] + Replacement(startTag, endTag, treeText) + content[k..];
    Relocate(content, startTag, endTag, treeText, i, k);
    SpliceAt(c2, startTag, endTag, treeText, i, |Fence(treeText)|);
  }

  /** Embedding the same tree again reproduces the document, so the second
      call reports no change. */
  lemma SpliceIdempotent(content: string, startTag: string, endTag: string, treeText: string)
    requires Splice(content, startTag, endTag, treeText).Ok?
    requires EndTagAfterFence(treeText, endTag)
    ensures var c2 := Splice(content, startTag, endTag, treeText).value.content;
            Splice(c2, startTag, endTag, treeText) == Ok(Embedded(false, c2))
  {
    if Contains(content, startTag) && Contains(content, endTag) {
      var i := Find(content, startTag).value;
      var j := Find(content[i + |startTag|..], endTag).value;
      SpliceAt(content, startTag, endTag, treeText, i, j);
      var k := i + |startTag| + j + |endTag|;
      ResplicedUnchanged(content, startTag, endTag, treeText, i, k);
      assert Splice(content, startTag, endTag, treeText).value.content
             == content[..i] + Replacement(startTag, endTag, treeText) + content[k..];
    } else {
      assert Splice(content, startTag, endTag, treeText).value.content == content;
    }
  }

  /** No occurrence at or after `off` means none in the suffix from `off`. */
  lemma NoneInSuffix(s: string, pat: string, off: nat)
    requires off <= |s|
    requires forall k :: OccursAt(s, pat, k) ==> k < off
    ensures !Contains(s[off..], pat)
  {
    forall k ensures !OccursAt(s[off..], pat, k) {
      if 0 <= k && k + |pat| <= |s| - off {
        assert s[off..][k..k + |pat|] == s[off + k..off + k + |pat|];
        assert !OccursAt(s, pat, off + k);
      }
    }
  }

  /** An end tag that occurs only before (or overlapping) the first start
      tag makes the unpacking of the second split fail. */
  lemma EndTagOnlyBeforeStart(content: string, startTag: string, endTag: string, treeText: string, i: nat)
    requires startTag != "" && endTag != "" && Contains(content, endTag)
    requires Find(content, startTag) == Some(i)
    requires forall k :: OccursAt(content, endTag, k) ==> k < i + |startTag|
    ensures Splice(content, startTag, endTag, treeText) == Err(EndTagNotAfterStart)
  {
    NoEndTagAfter(content, startTag, endTag, treeText, i);
  }

  lemma NoEndTagAfter(content: string, startTag: string, endTag: string, treeText: string, i: nat)
    requires OccursAt(content, startTag, i)
    requires forall k :: OccursAt(content, endTag, k) ==> k < i + |startTag|
    ensures SpliceAfter(content, startTag, endTag, treeText, i) == Err(EndTagNotAfterStart)
  {
    NoneInSuffix(content, endTag, i + |startTag|);
  }

  /** The outcome of `embed_tree_in_file` for a target whose content is
      `target` (`None`: no such file). */
  function EmbedResult(target: Option<string>, cfg: Config, root: Node, level: int, lengthLimit: int,
                       startTag: string, endTag: string): Result<Embedded, EmbedError>
  {
    if target.None? then Err(TargetNotFound)
    else match TreeResult(cfg, root, level, lengthLimit)
      case Err(e) => Err(TreeFailed(e))
      case Ok(t) => Splice(target.value, startTag, endTag, JoinLines(t.lines))
  }

  /** Running the embedding twice: when the tree, as it stands for the
      second run (`root2`), renders the same lines as for the first, the
      second run changes nothing. The target may lie inside the tree, so the
      first run can change what the second renders (an annotated entry for
      the target shows its new first line); that is why the premise is
      about the rendering and not about the tree. */
  lemma EmbedTwiceNoChange(target: string, cfg: Config, root: Node, root2: Node, level: int, lengthLimit: int,
                           startTag: string, endTag: string)
    requires EmbedResult(Some(target), cfg, root, level, lengthLimit, startTag, endTag).Ok?
    requires TreeResult(cfg, root, level, lengthLimit).Ok?
    requires TreeResult(cfg, root2, level, lengthLimit) == TreeResult(cfg, root, level, lengthLimit)
    requires EndTagAfterFence(JoinLines(TreeResult(cfg, root, level, lengthLimit).value.lines), endTag)
    ensures var c2 := EmbedResult(Some(target), cfg, root, level, lengthLimit, startTag, endTag).value.content;
            EmbedResult(Some(c2), cfg, root2, level, lengthLimit, startTag, endTag) == Ok(Embedded(false, c2))
  {
    SpliceIdempotent(target, startTag, endTag, JoinLines(TreeResult(cfg, root, level, lengthLimit).value.lines));
  }

  /** `embed_tree_in_file(target_file, dir_path, start_tag, end_tag, ...)`:
      checks the target exists, renders the tree (`output_file=None`), joins
      its lines with newlines and splices them in. */
  method EmbedTreeInFile(target: Option<string>, root: Node, startTag: string, endTag: string,
                         ignoreFile: Option<string>, probe: Probe, matcher: IgnoreFile -> Path -> bool,
                         level: int, limitToDirectories: bool, lengthLimit: int, annotationStart: int, annotate: bool)
    returns (r: Result<Embedded, EmbedError>)
    ensures var cfg := Config(IgnoreTest(SelectIgnoreFile(ignoreFile, probe), matcher),
                              limitToDirectories, annotationStart, annotate);
            r == EmbedResult(target, cfg, root, level, lengthLimit, startTag, endTag)
    ensures target.None? <==> r == Err(TargetNotFound)
    ensures r.Ok? && !r.value.changed ==> r.value.content == target.value
  {
    if target.None? {
      return Err(TargetNotFound);
    }
    var rendered := Tree(root, ignoreFile, probe, matcher, level, limitToDirectories, lengthLimit, annotationStart, annotate);
    if rendered.Err? {
      return Err(TreeFailed(rendered.error));
    }
    var treeText := JoinLines(rendered.value.lines);
    r := Splice(target.value, startTag, endTag, treeText);
  }
}

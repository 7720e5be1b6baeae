/**
 * What `processFile` writes is a header it would leave alone: scanning
 * the rewritten file finds the copyright, the license, clean spacing and
 * at least one author, so a second run changes nothing.
 */
module HeaderFinal {
  import opened Wrappers
  import opened HeaderText
  import opened Header

  /** The license lines, `Authors:` and the default author have no whitespace at either end. */
  lemma FixedTextsStripped()
    ensures forall i :: 0 <= i < |LICENSE| ==> Stripped(LICENSE[i])
    ensures Stripped(AUTHOR) && Stripped(DEFAULT_AUTHOR) && DEFAULT_AUTHOR != AUTHOR
  {
    var l1, l2 := LICENSE[1], LICENSE[2];
    assert l1[0] == 'T' && l1[|l1| - 1] == 'e';
    assert l2[0] == 'C' && l2[|l2| - 1] == ')';
    assert AUTHOR[0] == 'A' && AUTHOR[|AUTHOR| - 1] == ':';
    assert DEFAULT_AUTHOR[0] == 'M' && DEFAULT_AUTHOR[|DEFAULT_AUTHOR| - 1] == ')';
    assert |DEFAULT_AUTHOR| != |AUTHOR|;
  }

  /** The default copyright years and holder fit the groups of the copyright pattern. */
  lemma DefaultsMatch()
    ensures Years(DEFAULT_C_YEARS) && Name(DEFAULT_C_AUTHOR)
  {
    assert forall i :: 0 <= i < |DEFAULT_C_AUTHOR| ==> NameChar(DEFAULT_C_AUTHOR[i]);
  }

  /**
   * The shape of a header block whose `Authors:` line is at `a`: the
   * copyright text, the license, blank lines, `Authors:`, then author
   * lines that are stripped and never `Authors:`.
   */
  predicate Layout(header: seq<string>, a: nat)
  {
    LICENSE_END <= a < |header| &&
    Stripped(header[0]) && MatchCopyright(header[0]).Some? &&
    (forall i :: 1 <= i < LICENSE_END ==> header[i] == LICENSE[i - 1]) &&
    (forall i :: LICENSE_END <= i < a ==> header[i] == "") &&
    header[a] == AUTHOR &&
    (forall i :: a < i < |header| ==> Stripped(header[i]) && header[i] != AUTHOR)
  }

  /**
   * The block `processFile` builds from a sound scan state for `n` tags:
   * as long as the tags, or longer when the authors do not fit, with
   * `Authors:` at `a`, right before the authors, and the authors at the end.
   */
  lemma HeaderLayout(st: ScanState, n: nat) returns (header: seq<string>, a: nat)
    requires Sound(st)
    ensures header == NewHeader(st, n) && Layout(header, a)
    ensures |header| == (if n >= |Authors(st)| + LICENSE_END + 1 then n else |Authors(st)| + LICENSE_END + 1)
    ensures a + 1 + |Authors(st)| == |header| && header[a + 1..] == Authors(st)
  {
    var authors := Authors(st);
    var c := Copyright(st.cYears.GetOr(DEFAULT_C_YEARS), st.cAuthor.GetOr(DEFAULT_C_AUTHOR));
    var blanks := Blanks(n - (1 + |LICENSE|) - |authors| - 1);
    header := NewHeader(st, n);
    assert header == [c] + LICENSE + blanks + [AUTHOR] + authors;
    a := 1 + |LICENSE| + |blanks|;
    LicenseEnd();
    CopyrightFits(st, c);
    AuthorsFit(st, authors);
    PiecesLayout(c, blanks, authors, header, a);
  }

  /** The copyright line written from a sound state is stripped and matches the pattern. */
  lemma CopyrightFits(st: ScanState, c: string)
    requires Sound(st) && c == Copyright(st.cYears.GetOr(DEFAULT_C_YEARS), st.cAuthor.GetOr(DEFAULT_C_AUTHOR))
    ensures Stripped(c) && MatchCopyright(c).Some?
  {
    var years, holder := st.cYears.GetOr(DEFAULT_C_YEARS), st.cAuthor.GetOr(DEFAULT_C_AUTHOR);
    DefaultsMatch();
    CopyrightStripped(years, holder);
    assert c + [] == c;
    MatchComplete(years, holder, []);
  }

  /** The authors written from a sound state are stripped and never `Authors:`. */
  lemma AuthorsFit(st: ScanState, authors: seq<string>)
    requires Sound(st) && authors == Authors(st)
    ensures forall k :: 0 <= k < |authors| ==> Stripped(authors[k]) && authors[k] != AUTHOR
  {
    FixedTextsStripped();
  }

  /** A block put together from fitting pieces has the layout of a header. */
  lemma PiecesLayout(c: string, blanks: seq<string>, authors: seq<string>, header: seq<string>, a: nat)
    requires header == [c] + LICENSE + blanks + [AUTHOR] + authors && a == 1 + |LICENSE| + |blanks|
    requires Stripped(c) && MatchCopyright(c).Some? && LICENSE_END == |LICENSE| + 1
    requires forall k :: 0 <= k < |blanks| ==> blanks[k] == ""
    requires forall k :: 0 <= k < |authors| ==> Stripped(authors[k]) && authors[k] != AUTHOR
    ensures Layout(header, a) && a + 1 + |authors| == |header| && header[a + 1..] == authors
  {
    Parts(c, LICENSE, blanks, AUTHOR, authors);
  }

  /** Where the pieces of a header block sit once they are put together. */
  lemma Parts(c: string, license: seq<string>, blanks: seq<string>, tag: string, authors: seq<string>)
    ensures var h := [c] + license + blanks + [tag] + authors;
      var a := 1 + |license| + |blanks|;
      |h| == a + 1 + |authors| && h[0] == c && h[a] == tag && h[a + 1..] == authors &&
      (forall i :: 1 <= i < 1 + |license| ==> h[i] == license[i - 1]) &&
      (forall i :: 1 + |license| <= i < a ==> h[i] == blanks[i - 1 - |license|]) &&
      (forall i :: a < i < |h| ==> h[i] == authors[i - a - 1])
  {
  }

  /**
   * How far the rescan of the written block has got after `k` tag lines:
   * nothing marked bad, the copyright found, and the authors after
   * `Authors:` collected one by one.
   */
  predicate Progress(s: ScanState, k: nat, header: seq<string>, a: nat)
  {
    k <= |header| && s.tagIdx == k && s.licGood && s.spaceGood &&
    (k >= 1 ==> s.cYears.Some? && s.cAuthor.Some?) &&
    (if k > a then s.authorIdx == Some(a) && s.authorLines == header[a + 1..k]
     else s.authorIdx.None? && s.authorLines == [])
  }

  /** The scan of `lines` ends in a state `k` tags into the rescan. */
  predicate Reached(lines: seq<string>, k: nat, tagLines: seq<string>, header: seq<string>, a: nat, tagWidth: nat)
  {
    Scan(lines, tagLines, tagWidth).Ok? && Progress(Scan(lines, tagLines, tagWidth).value, k, header, a)
  }

  /** The text right of a written tag line, read back, is the header line. */
  lemma ReadBack(tag: string, text: string, tagWidth: nat)
    requires |tag| <= tagWidth && Stripped(text)
    ensures StartsWith(TagLine(tag, text, tagWidth), tag)
    ensures Strip(Drop(TagLine(tag, text, tagWidth), tagWidth)) == text
  {
    LjustFits(tag, tagWidth);
    var p := Ljust(tag, tagWidth);
    var line := TagLine(tag, text, tagWidth);
    assert line == p + (text + "\n");
    assert line[..|tag|] == p[..|tag|];
    assert Drop(line, tagWidth) == text + "\n";
    StripLine(text);
  }

  /** A line that reads back as tag `i` with header line `i` to its right; the first is no shebang. */
  predicate Written(line: string, i: nat, tagLines: seq<string>, header: seq<string>, tagWidth: nat)
  {
    i < |tagLines| && i < |header| && StartsWith(line, tagLines[i]) &&
    Strip(Drop(line, tagWidth)) == header[i] && (i == 0 ==> !StartsWith(line, "#!"))
  }

  /** One written tag line, scanned, moves the rescan on from tag `j` to the next one. */
  lemma LineStep(s: ScanState, j: nat, line: string, tagLines: seq<string>, header: seq<string>, a: nat, tagWidth: nat)
    requires Progress(s, j, header, a) && Layout(header, a) && Written(line, j, tagLines, header, tagWidth)
    ensures StepsOn(s, line, j, tagLines, header, a, tagWidth)
  {
    TaggedLine(s, line, tagLines, tagWidth, header[j]);
    ClassifyProgress(s, j, header, a);
  }

  /** Every line of a laid-out header has no whitespace at either end. */
  lemma LayoutStripped(header: seq<string>, a: nat, k: nat)
    requires Layout(header, a) && k < |header|
    ensures Stripped(header[k])
  {
    if 1 <= k < LICENSE_END {
      LicenseEnd();
      FixedTextsStripped();
    } else if k == a {
      FixedTextsStripped();
    }
  }

  /** What a header line of a laid-out block teaches the scan at its own tag. */
  lemma ClassifyProgress(s: ScanState, k: nat, header: seq<string>, a: nat)
    requires Progress(s, k, header, a) && Layout(header, a) && k < |header|
    ensures Progress(Classify(s, header[k]).(tagIdx := k + 1), k + 1, header, a)
  {
    var rest := header[k];
    LicenseEnd();
    if k == 0 {
      ClassifyCopyright(s, rest);
    } else if k < LICENSE_END {
      ClassifyLicense(s, rest);
    } else if k == a {
      ClassifyAuthorTag(s);
    } else if k < a {
      ClassifyBlank(s);
    } else {
      ClassifyAuthorLine(s, rest);
      assert header[a + 1..k + 1] == header[a + 1..k] + [rest];
    }
  }

  /** Scanned from any state `j` tags into the rescan, `line` moves the rescan on to tag `j + 1`. */
  ghost predicate Advances(line: string, j: nat, tagLines: seq<string>, header: seq<string>, a: nat, tagWidth: nat)
  {
    forall s {:trigger Progress(s, j, header, a)} :: Progress(s, j, header, a) ==> StepsOn(s, line, j, tagLines, header, a, tagWidth)
  }

  /** Scanned from state `s`, `line` reaches a state `j + 1` tags into the rescan. */
  ghost predicate StepsOn(s: ScanState, line: string, j: nat, tagLines: seq<string>, header: seq<string>, a: nat, tagWidth: nat)
  {
    ScanLine(s, line, tagLines, tagWidth).Ok? && Progress(ScanLine(s, line, tagLines, tagWidth).value, j + 1, header, a)
  }

  /** A written line of a laid-out header advances the rescan by one tag. */
  lemma WrittenAdvances(line: string, j: nat, tagLines: seq<string>, header: seq<string>, a: nat, tagWidth: nat)
    requires Layout(header, a) && Written(line, j, tagLines, header, tagWidth)
    ensures Advances(line, j, tagLines, header, a, tagWidth)
  {
    forall s | Progress(s, j, header, a)
      ensures StepsOn(s, line, j, tagLines, header, a, tagWidth)
    {
      LineStep(s, j, line, tagLines, header, a, tagWidth);
    }
  }

  /** Line `i` of the file advances the rescan from tag `i - top`. */
  ghost predicate AdvancesAt(lines: seq<string>, i: nat, top: nat, tagLines: seq<string>, header: seq<string>, a: nat, tagWidth: nat)
  {
    top <= i < |lines| && Advances(lines[i], i - top, tagLines, header, a, tagWidth)
  }

  /** The rescan of the shebang, if any, and the written tag lines up to line `m`. */
  lemma {:induction false} BlockScan(lines: seq<string>, top: nat, m: nat, end: nat, tagLines: seq<string>, header: seq<string>, a: nat, tagWidth: nat)
    requires top <= 1 && top <= m <= end <= |lines|
    requires top == 1 ==> StartsWith(lines[0], "#!")
    requires forall i {:trigger AdvancesAt(lines, i, top, tagLines, header, a, tagWidth)} ::
      top <= i < end ==> AdvancesAt(lines, i, top, tagLines, header, a, tagWidth)
    ensures Reached(lines[..m], m - top, tagLines, header, a, tagWidth)
    decreases m
  {
    if m == top {
      StartScan(lines, top, header, a, tagLines, tagWidth);
    } else {
      BlockScan(lines, top, m - 1, end, tagLines, header, a, tagWidth);
      ExtendScan(lines, top, m, end, tagLines, header, a, tagWidth);
    }
  }

  /** The line `m - 1` after the lines the rescan has got through. */
  lemma ExtendScan(lines: seq<string>, top: nat, m: nat, end: nat, tagLines: seq<string>, header: seq<string>, a: nat, tagWidth: nat)
    requires top < m <= end <= |lines|
    requires forall i {:trigger AdvancesAt(lines, i, top, tagLines, header, a, tagWidth)} ::
      top <= i < end ==> AdvancesAt(lines, i, top, tagLines, header, a, tagWidth)
    requires Reached(lines[..m - 1], m - 1 - top, tagLines, header, a, tagWidth)
    ensures Reached(lines[..m], m - top, tagLines, header, a, tagWidth)
  {
    assert AdvancesAt(lines, m - 1, top, tagLines, header, a, tagWidth);
    ScanPrefix(lines, m, tagLines, tagWidth);
  }

  /** Before any tag line the rescan has seen at most the shebang. */
  lemma StartScan(lines: seq<string>, top: nat, header: seq<string>, a: nat, tagLines: seq<string>, tagWidth: nat)
    requires top <= 1 && top <= |lines| && (top == 1 ==> StartsWith(lines[0], "#!"))
    ensures Reached(lines[..top], 0, tagLines, header, a, tagWidth)
  {
    assert Scan(lines[..0], tagLines, tagWidth) == Ok(START);
    if top == 1 {
      ScanStep(lines, 0, tagLines, tagWidth);
    }
  }

  /**
   * Idempotence: when the tags fit their width, there are at least six
   * of them and the first is no shebang, a file `processFile` rewrites
   * needs no update on the next run.
   */
  lemma RewriteIsFinal(lines: seq<string>, tagLines: seq<string>, tagWidth: nat, out: seq<string>)
    requires |tagLines| >= LICENSE_END + 2
    requires forall i :: 0 <= i < |tagLines| ==> |tagLines[i]| <= tagWidth
    requires |tagLines[0]| >= 2 && tagLines[0][..2] != "#!"
    requires Process(lines, tagLines, tagWidth) == Ok(Some(out))
    ensures Process(out, tagLines, tagWidth) == Ok(None)
  {
    var st := Scan(lines, tagLines, tagWidth).value;
    ScanSound(lines, tagLines, tagWidth);
    var top, header, a := RewriteFramed(lines, st, tagLines, tagWidth, out);
    RescanBlock(out, top, tagLines, header, a, tagWidth);
  }

  /**
   * A file made of at most a shebang and then tag lines written, for tags
   * that fit their width, from a laid-out header with at least one author
   * line within reach of the tags.
   */
  predicate Framed(out: seq<string>, top: nat, tagLines: seq<string>, header: seq<string>, a: nat, tagWidth: nat)
  {
    Layout(header, a) && a + 2 <= |tagLines| <= |header| &&
    (forall i :: 0 <= i < |tagLines| ==> |tagLines[i]| <= tagWidth) &&
    |tagLines[0]| >= 2 && tagLines[0][..2] != "#!" &&
    top <= 1 && top + |tagLines| <= |out| && (top == 1 ==> StartsWith(out[0], "#!")) &&
    out[top..top + |tagLines|] == Zipped(tagLines, header, tagWidth, |tagLines|)
  }

  /** The file rewritten from a sound scan state is framed by the header block it was written from. */
  lemma RewriteFramed(lines: seq<string>, st: ScanState, tagLines: seq<string>, tagWidth: nat, out: seq<string>)
    returns (top: nat, header: seq<string>, a: nat)
    requires |tagLines| >= LICENSE_END + 2
    requires forall i :: 0 <= i < |tagLines| ==> |tagLines[i]| <= tagWidth
    requires |tagLines[0]| >= 2 && tagLines[0][..2] != "#!"
    requires Sound(st) && out == Rewrite(lines, st, tagLines, tagWidth)
    ensures Framed(out, top, tagLines, header, a, tagWidth)
  {
    var n := |tagLines|;
    header, a := HeaderLayout(st, n);
    top := |ShebangLines(st)|;
    RewriteShape(lines, st, tagLines, tagWidth, out);
  }

  /** A framed file needs no update. */
  lemma RescanBlock(out: seq<string>, top: nat, tagLines: seq<string>, header: seq<string>, a: nat, tagWidth: nat)
    requires Framed(out, top, tagLines, header, a, tagWidth)
    ensures Process(out, tagLines, tagWidth) == Ok(None)
  {
    WrittenBlock(out, top, tagLines, header, a, tagWidth);
    RescanAdvancing(out, top, tagLines, header, a, tagWidth);
  }

  /** A file whose lines after the shebang, if any, each advance the rescan by one tag needs no update. */
  lemma RescanAdvancing(out: seq<string>, top: nat, tagLines: seq<string>, header: seq<string>, a: nat, tagWidth: nat)
    requires a + 2 <= |tagLines|
    requires top <= 1 && top + |tagLines| <= |out| && (top == 1 ==> StartsWith(out[0], "#!"))
    requires forall i :: top <= i < top + |tagLines| ==> AdvancesAt(out, i, top, tagLines, header, a, tagWidth)
    ensures Process(out, tagLines, tagWidth) == Ok(None)
  {
    var n := |tagLines|;
    var end := top + n;
    BlockScan(out, top, end, end, tagLines, header, a, tagWidth);
    assert end - top == n;
    RescanValid(out[..end], n, tagLines, header, a, tagWidth);
    SettledCurrent(out, end, tagLines, tagWidth);
  }

  /** A file whose scan has seen every tag by line `end`, and found the header valid, needs no update. */
  lemma SettledCurrent(lines: seq<string>, end: nat, tagLines: seq<string>, tagWidth: nat)
    requires end <= |lines| && Scan(lines[..end], tagLines, tagWidth).Ok?
    requires Valid(Scan(lines[..end], tagLines, tagWidth).value) && Scan(lines[..end], tagLines, tagWidth).value.tagIdx >= |tagLines|
    ensures Process(lines, tagLines, tagWidth) == Ok(None)
  {
    ScanSettled(lines, end, tagLines, tagWidth);
  }

  /** The rewritten file starts with the shebang, if any, and then the written block. */
  lemma RewriteShape(lines: seq<string>, st: ScanState, tagLines: seq<string>, tagWidth: nat, out: seq<string>)
    requires |tagLines| <= |NewHeader(st, |tagLines|)| && out == Rewrite(lines, st, tagLines, tagWidth)
    ensures |ShebangLines(st)| + |tagLines| <= |out|
    ensures out[|ShebangLines(st)|..|ShebangLines(st)| + |tagLines|] == Zipped(tagLines, NewHeader(st, |tagLines|), tagWidth, |tagLines|)
    ensures st.sheBang.Some? ==> out[0] == st.sheBang.value
  {
    var n := |tagLines|;
    var header := NewHeader(st, n);
    assert Min(n, |header|) == n;
    Pieces(ShebangLines(st), Zipped(tagLines, header, tagWidth, n), Drop(lines, |header| + |ShebangLines(st)|));
  }

  /** Where the pieces of the rewritten file sit once they are put together. */
  lemma Pieces(top: seq<string>, block: seq<string>, rest: seq<string>)
    ensures |top| + |block| <= |top + block + rest|
    ensures (top + block + rest)[|top|..|top| + |block|] == block
    ensures |top| > 0 ==> (top + block + rest)[0] == top[0]
  {
    assert (top + block + rest)[|top|..|top| + |block|] == (top + block)[|top|..];
  }

  /** A rescan that has got past every tag with authors after `Authors:` finds the header valid. */
  lemma RescanValid(lines: seq<string>, n: nat, tagLines: seq<string>, header: seq<string>, a: nat, tagWidth: nat)
    requires n == |tagLines| && a + 2 <= n && Reached(lines, n, tagLines, header, a, tagWidth)
    ensures Scan(lines, tagLines, tagWidth).Ok?
    ensures Valid(Scan(lines, tagLines, tagWidth).value) && Scan(lines, tagLines, tagWidth).value.tagIdx >= |tagLines|
  {
    var s := Scan(lines, tagLines, tagWidth).value;
    assert |header[a + 1..n]| > 0;
  }

  /** Every line of the written block advances the rescan by one tag. */
  lemma WrittenBlock(out: seq<string>, top: nat, tagLines: seq<string>, header: seq<string>, a: nat, tagWidth: nat)
    requires Layout(header, a) && 1 <= |tagLines| <= |header|
    requires forall i :: 0 <= i < |tagLines| ==> |tagLines[i]| <= tagWidth
    requires |tagLines[0]| >= 2 && tagLines[0][..2] != "#!"
    requires top + |tagLines| <= |out| && out[top..top + |tagLines|] == Zipped(tagLines, header, tagWidth, |tagLines|)
    ensures forall i :: top <= i < top + |tagLines| ==> AdvancesAt(out, i, top, tagLines, header, a, tagWidth)
  {
    var block := Zipped(tagLines, header, tagWidth, |tagLines|);
    forall i | top <= i < top + |tagLines|
      ensures AdvancesAt(out, i, top, tagLines, header, a, tagWidth)
    {
      SliceAt(out, top, block, i);
      BlockLine(out, i, top, tagLines, header, a, tagWidth);
    }
  }

  /** An element of a slice is the element of the whole at the same place. */
  lemma SliceAt<T>(s: seq<T>, top: nat, part: seq<T>, i: nat)
    requires top <= i < top + |part| <= |s| && s[top..top + |part|] == part
    ensures s[i] == part[i - top]
  {
  }

  /** Line `i` of the file, written from tag `i - top` and header line `i - top`, advances the rescan. */
  lemma BlockLine(out: seq<string>, i: nat, top: nat, tagLines: seq<string>, header: seq<string>, a: nat, tagWidth: nat)
    requires Layout(header, a) && top <= i < |out| && i - top < |tagLines| && |tagLines| <= |header|
    requires |tagLines[i - top]| <= tagWidth && |tagLines[0]| >= 2 && tagLines[0][..2] != "#!"
    requires out[i] == TagLine(tagLines[i - top], header[i - top], tagWidth)
    ensures AdvancesAt(out, i, top, tagLines, header, a, tagWidth)
  {
    var j := i - top;
    LayoutStripped(header, a, j);
    WrittenLine(j, tagLines, header, tagWidth);
    WrittenAdvances(out[i], j, tagLines, header, a, tagWidth);
  }

  /** Tag line `j` written with header line `j` reads back as both. */
  lemma WrittenLine(j: nat, tagLines: seq<string>, header: seq<string>, tagWidth: nat)
    requires j < |tagLines| && j < |header| && |tagLines[j]| <= tagWidth && Stripped(header[j])
    requires |tagLines[0]| >= 2 && tagLines[0][..2] != "#!"
    ensures Written(TagLine(tagLines[j], header[j], tagWidth), j, tagLines, header, tagWidth)
  {
    var line := TagLine(tagLines[j], header[j], tagWidth);
    ReadBack(tagLines[j], header[j], tagWidth);
    if j == 0 {
      assert line[..2] == tagLines[0][..2];
    }
  }
}

/**
 * The license-header tool: every source file starts with a block of tag
 * lines (a logo drawn in `#` or `/`), and to the right of the tags a
 * copyright line, the license, blank lines and the authors. `processFile`
 * reads the block, and when any part is missing or wrong rewrites the
 * block, keeping what it found (the copyright holder and years, the
 * authors) and filling in defaults for the rest. `main` walks the tree
 * and picks the tag style from the file's suffix.
 *
 * A file is the list of its lines as `readlines()` gives them; the
 * rewritten file is the list of pieces written, one per line.
 */
module Header {
  import opened Wrappers
  import opened HeaderText

  const TAG_SLASH: seq<string> := [
    "////    ////////////",
    "////    ////////////",
    "////",
    "////",
    "////////////    ////",
    "////////////    ////",
    "////    ////    ////",
    "////    ////    ////",
    "////////////",
    "////////////"
  ]

  const TAG_HASH: seq<string> := [
    "####    ############",
    "####    ############",
    "####",
    "####",
    "############    ####",
    "############    ####",
    "####    ####    ####",
    "####    ####    ####",
    "############",
    "############"
  ]

  const TAG_SLASH_PAD: nat := 24
  const TAG_HASH_PAD: nat := 24

  const LICENSE: seq<string> := [
    "",
    "This source describes Open " + "Hardware and is licensed under the",
    "CERN-OHL-W v2 " + "(https://cern.ch/cern-ohl)"
  ]

  const AUTHOR: string := "Authors:"
  const DEFAULT_AUTHOR: string := "Mattis Hasler " + "(mattis.hasler@barkhauseninstitut.org)"
  const DEFAULT_C_AUTHOR: string := "Mattis Hasler"
  const DEFAULT_C_YEARS: string := "2025"

  /** The exception a line without its tag raises. */
  const TAG_PROBLEM: string := "problem with tag"

  // ---------------------------------------------------------------------
  // Reading the header block

  /** The variables of `processFile`'s loop over the lines. */
  datatype ScanState = ScanState(
    cAuthor: Option<string>,
    cYears: Option<string>,
    licGood: bool,
    spaceGood: bool,
    authorIdx: Option<nat>,
    tagIdx: nat,
    authorLines: seq<string>,
    sheBang: Option<string>)

  const START: ScanState := ScanState(None, None, true, true, None, 0, [], None)

  /** What one line teaches the scan about the text right of a tag, `rest`, at tag `tagIdx`. */
  function Classify(st: ScanState, rest: string): ScanState
  {
    if st.tagIdx == 0 then
      match MatchCopyright(rest)
      case Some(g) => st.(cAuthor := Some(g.author), cYears := Some(g.years))
      case None => st
    else if st.tagIdx < |LICENSE| + 1 then
      if rest != LICENSE[st.tagIdx - 1] then st.(licGood := false) else st
    else if rest == AUTHOR then st.(authorIdx := Some(st.tagIdx))
    else if st.authorIdx.Some? && st.tagIdx > st.authorIdx.value then st.(authorLines := st.authorLines + [rest])
    else if rest != "" then st.(spaceGood := false)
    else st
  }

  /**
   * One pass of the loop: nothing once every tag is seen, a shebang
   * before the first tag, the exception for a line without its tag, and
   * otherwise the text right of the tag, stripped.
   */
  function ScanLine(st: ScanState, line: string, tagLines: seq<string>, tagWidth: nat): Result<ScanState>
  {
    if st.tagIdx >= |tagLines| then Ok(st)
    else if st.tagIdx == 0 && StartsWith(line, "#!") then Ok(st.(sheBang := Some(line)))
    else if !StartsWith(line, tagLines[st.tagIdx]) then Err(TAG_PROBLEM)
    else Ok(Classify(st, Strip(Drop(line, tagWidth))).(tagIdx := st.tagIdx + 1))
  }

  /** The scan continued from `r` over `lines`. */
  function Continue(r: Result<ScanState>, lines: seq<string>, tagLines: seq<string>, tagWidth: nat): Result<ScanState>
    decreases |lines|
  {
    if lines == [] then r
    else match Continue(r, lines[..|lines| - 1], tagLines, tagWidth)
      case Err(e) => Err(e)
      case Ok(st) => ScanLine(st, lines[|lines| - 1], tagLines, tagWidth)
  }

  /** The loop of `processFile` over all the lines of a file. */
  function Scan(lines: seq<string>, tagLines: seq<string>, tagWidth: nat): Result<ScanState>
  {
    Continue(Ok(START), lines, tagLines, tagWidth)
  }

  /** The header needs no update: license and spacing right, authors listed, copyright found. */
  predicate Valid(st: ScanState)
  {
    st.licGood && st.spaceGood && |st.authorLines| > 0 && st.cAuthor.Some? && st.cYears.Some?
  }

  // ---------------------------------------------------------------------
  // Writing the header block

  /** The authors written: those found, or the default author. */
  function Authors(st: ScanState): seq<string>
  {
    if st.authorLines == [] then [DEFAULT_AUTHOR] else st.authorLines
  }

  /** `[""] * k`, empty for a negative `k`. */
  function Blanks(k: int): (r: seq<string>)
    ensures |r| == (if k < 0 then 0 else k) && forall i :: 0 <= i < |r| ==> r[i] == ""
    decreases if k < 0 then 0 else k
  {
    if k <= 0 then [] else Blanks(k - 1) + [""]
  }

  /** The text right of the tags: copyright, license, blank lines, `Authors:` and the authors. */
  function NewHeader(st: ScanState, n: nat): seq<string>
  {
    var authors := Authors(st);
    var head := [Copyright(st.cYears.GetOr(DEFAULT_C_YEARS), st.cAuthor.GetOr(DEFAULT_C_AUTHOR))] + LICENSE;
    head + Blanks(n - |head| - |authors| - 1) + [AUTHOR] + authors
  }

  /** One written line: the tag padded to the tag width, the text, the newline. */
  function TagLine(tag: string, text: string, tagWidth: nat): string
  {
    Ljust(tag, tagWidth) + text + "\n"
  }

  /** The first `n` pairs of `zip(tagLines, header)` written as lines. */
  function Zipped(tagLines: seq<string>, header: seq<string>, tagWidth: nat, n: nat): (r: seq<string>)
    requires n <= |tagLines| && n <= |header|
    ensures |r| == n && forall i :: 0 <= i < n ==> r[i] == TagLine(tagLines[i], header[i], tagWidth)
  {
    if n == 0 then [] else Zipped(tagLines, header, tagWidth, n - 1) + [TagLine(tagLines[n - 1], header[n - 1], tagWidth)]
  }

  function Min(a: nat, b: nat): nat
  {
    if a < b then a else b
  }

  /** The shebang, when there is one, as a list of zero or one line. */
  function ShebangLines(st: ScanState): (r: seq<string>)
    ensures |r| == (if st.sheBang.Some? then 1 else 0)
  {
    if st.sheBang.Some? then [st.sheBang.value] else []
  }

  /** The rewritten file: the shebang, the new block, and the old lines after as many lines as were written. */
  function Rewrite(lines: seq<string>, st: ScanState, tagLines: seq<string>, tagWidth: nat): seq<string>
  {
    var header := NewHeader(st, |tagLines|);
    var skip := |header| + |ShebangLines(st)|;
    ShebangLines(st) + Zipped(tagLines, header, tagWidth, Min(|tagLines|, |header|)) + Drop(lines, skip)
  }

  /** `processFile`: the exception, no update, or the new lines of the file. */
  function Process(lines: seq<string>, tagLines: seq<string>, tagWidth: nat): Result<Option<seq<string>>>
  {
    match Scan(lines, tagLines, tagWidth)
    case Err(e) => Err(e)
    case Ok(st) => if Valid(st) then Ok(None) else Ok(Some(Rewrite(lines, st, tagLines, tagWidth)))
  }

  /** The loop of `processFile` over the lines; its variables are the fields of `st`. */
  method ScanFile(lines: seq<string>, tagLines: seq<string>, tagWidth: nat) returns (r: Result<ScanState>)
    ensures r == Scan(lines, tagLines, tagWidth)
  {
    var st := START;
    var i := 0;
    while i < |lines|
      invariant 0 <= i <= |lines|
      invariant Scan(lines[..i], tagLines, tagWidth) == Ok(st)
    {
      ScanStep(lines, i, tagLines, tagWidth);
      if st.tagIdx >= |tagLines| {
        ScanSettled(lines, i, tagLines, tagWidth);
        break;
      }
      var step := ScanOne(st, lines[i], tagLines, tagWidth);
      if step.Err? {
        ScanSettled(lines, i + 1, tagLines, tagWidth);
        return step;
      }
      st := step.value;
      i := i + 1;
    }
    assert lines[..|lines|] == lines;
    r := Ok(st);
  }

  /** The loop body of `processFile` for one line before every tag is seen. */
  method ScanOne(st: ScanState, line: string, tagLines: seq<string>, tagWidth: nat) returns (r: Result<ScanState>)
    requires st.tagIdx < |tagLines|
    ensures r == ScanLine(st, line, tagLines, tagWidth)
  {
    if st.tagIdx == 0 && StartsWith(line, "#!") {
      return Ok(st.(sheBang := Some(line)));
    }
    if !StartsWith(line, tagLines[st.tagIdx]) {
      return Err(TAG_PROBLEM);
    }
    var rest := Strip(Drop(line, tagWidth));
    var next := ClassifyRest(st, rest);
    r := Ok(next.(tagIdx := st.tagIdx + 1));
  }

  /** The branches of the loop body that look at the text right of the tag. */
  method ClassifyRest(st: ScanState, rest: string) returns (next: ScanState)
    ensures next == Classify(st, rest)
  {
    next := st;
    if st.tagIdx == 0 {
      var m := MatchCopyright(rest);
      if m.Some? {
        next := next.(cAuthor := Some(m.value.author), cYears := Some(m.value.years));
      }
    } else if st.tagIdx < |LICENSE| + 1 {
      if rest != LICENSE[st.tagIdx - 1] {
        next := next.(licGood := false);
      }
    } else if rest == AUTHOR {
      next := next.(authorIdx := Some(st.tagIdx));
    } else if st.authorIdx.Some? && st.tagIdx > st.authorIdx.value {
      next := next.(authorLines := st.authorLines + [rest]);
    } else if rest != "" {
      next := next.(spaceGood := false);
    }
  }

  /** `processFile(fname, tagLines, tagWidth)` on the lines of the file. */
  method ProcessFile(lines: seq<string>, tagLines: seq<string>, tagWidth: nat) returns (r: Result<Option<seq<string>>>)
    ensures r == Process(lines, tagLines, tagWidth)
  {
    var scanned := ScanFile(lines, tagLines, tagWidth);
    if scanned.Err? {
      return Err(scanned.error);
    }
    var st := scanned.value;
    if st.licGood && st.spaceGood && |st.authorLines| > 0 && st.cAuthor.Some? && st.cYears.Some? {
      return Ok(None);
    }
    var out := WriteFile(lines, st, tagLines, tagWidth);
    r := Ok(Some(out));
  }

  /** The defaults filled in and the block put together, as `processFile` does before writing. */
  method BuildHeader(st: ScanState, n: nat) returns (header: seq<string>)
    ensures header == NewHeader(st, n)
  {
    var authorLines, cAuthor, cYears := st.authorLines, st.cAuthor, st.cYears;
    if |authorLines| == 0 {
      authorLines := authorLines + [DEFAULT_AUTHOR];
      assert authorLines == [DEFAULT_AUTHOR];
    }
    if cAuthor.None? {
      cAuthor := Some(DEFAULT_C_AUTHOR);
    }
    if cYears.None? {
      cYears := Some(DEFAULT_C_YEARS);
    }
    assert authorLines == Authors(st);
    assert cAuthor.value == st.cAuthor.GetOr(DEFAULT_C_AUTHOR) && cYears.value == st.cYears.GetOr(DEFAULT_C_YEARS);
    header := [Copyright(cYears.value, cAuthor.value)];
    header := header + LICENSE;
    var nSpace := n - |header| - |authorLines| - 1;
    header := header + Blanks(nSpace);
    header := header + [AUTHOR];
    header := header + authorLines;
  }

  /** What `processFile` writes: the shebang, the tagged block, and the old lines after the old block. */
  method WriteFile(lines: seq<string>, st: ScanState, tagLines: seq<string>, tagWidth: nat) returns (out: seq<string>)
    ensures out == Rewrite(lines, st, tagLines, tagWidth)
  {
    var header := BuildHeader(st, |tagLines|);
    var skip := |header|;
    if st.sheBang.Some? {
      skip := skip + 1;
    }
    out := [];
    if st.sheBang.Some? {
      out := out + [st.sheBang.value];
    }
    assert out == ShebangLines(st) && skip == |header| + |out|;
    var block := WriteBlock(tagLines, header, tagWidth);
    out := out + block + Drop(lines, skip);
  }

  /** The loop of `processFile` that writes each header line behind its tag. */
  method WriteBlock(tagLines: seq<string>, header: seq<string>, tagWidth: nat) returns (block: seq<string>)
    ensures block == Zipped(tagLines, header, tagWidth, Min(|tagLines|, |header|))
  {
    block := [];
    var j := 0;
    while j < |tagLines| && j < |header|
      invariant 0 <= j <= |tagLines| && j <= |header|
      invariant block == Zipped(tagLines, header, tagWidth, j)
    {
      block := block + [TagLine(tagLines[j], header[j], tagWidth)];
      j := j + 1;
    }
    assert j == Min(|tagLines|, |header|);
  }

  /** The scan of one more line is one more pass of the loop. */
  lemma ScanStep(lines: seq<string>, i: nat, tagLines: seq<string>, tagWidth: nat)
    requires i < |lines| && Scan(lines[..i], tagLines, tagWidth).Ok?
    ensures Scan(lines[..i + 1], tagLines, tagWidth) == ScanLine(Scan(lines[..i], tagLines, tagWidth).value, lines[i], tagLines, tagWidth)
  {
    assert lines[..i + 1][..i] == lines[..i];
  }

  /** The scan of the first `m` lines is one pass of the loop after the first `m - 1`. */
  lemma ScanPrefix(lines: seq<string>, m: nat, tagLines: seq<string>, tagWidth: nat)
    requires 1 <= m <= |lines| && Scan(lines[..m - 1], tagLines, tagWidth).Ok?
    ensures Scan(lines[..m], tagLines, tagWidth) == ScanLine(Scan(lines[..m - 1], tagLines, tagWidth).value, lines[m - 1], tagLines, tagWidth)
  {
    assert lines[..m][..m - 1] == lines[..m - 1];
  }

  /** The scan of a file with one more line at the end. */
  lemma ScanSnoc(lines: seq<string>, line: string, tagLines: seq<string>, tagWidth: nat)
    requires Scan(lines, tagLines, tagWidth).Ok?
    ensures Scan(lines + [line], tagLines, tagWidth) == ScanLine(Scan(lines, tagLines, tagWidth).value, line, tagLines, tagWidth)
  {
    assert (lines + [line])[..|lines|] == lines;
  }

  /** Once the scan has failed or seen every tag, later lines change nothing. */
  lemma {:induction false} ScanSettled(lines: seq<string>, i: nat, tagLines: seq<string>, tagWidth: nat)
    requires i <= |lines|
    requires Scan(lines[..i], tagLines, tagWidth).Err? || Scan(lines[..i], tagLines, tagWidth).value.tagIdx >= |tagLines|
    ensures Scan(lines, tagLines, tagWidth) == Scan(lines[..i], tagLines, tagWidth)
    decreases |lines| - i
  {
    if i < |lines| {
      var p := lines[..i + 1];
      assert p[..i] == lines[..i];
      ScanSettled(lines, i + 1, tagLines, tagWidth);
    } else {
      assert lines[..i] == lines;
    }
  }

  // ---------------------------------------------------------------------
  // What the scan finds

  /** How many lines at the top of the file are shebangs (`#!` lines). */
  function Leading(lines: seq<string>): (n: nat)
    ensures n <= |lines|
  {
    if lines == [] then 0
    else
      var p := lines[..|lines| - 1];
      var m := Leading(p);
      if m == |p| && StartsWith(lines[|p|], "#!") then |lines| else m
  }

  /** The leading lines are shebangs, and the line after them is not. */
  lemma {:induction false} LeadingShebangs(lines: seq<string>)
    ensures forall j :: 0 <= j < Leading(lines) ==> StartsWith(lines[j], "#!")
    ensures Leading(lines) < |lines| ==> !StartsWith(lines[Leading(lines)], "#!")
  {
    if lines != [] {
      var p := lines[..|lines| - 1];
      LeadingShebangs(p);
      assert forall j :: 0 <= j < |p| ==> lines[j] == p[j];
    }
  }

  /** Some line of the block, counted from the first line after the shebangs, lacks its tag. */
  predicate BadTag(lines: seq<string>, tagLines: seq<string>)
  {
    BadTagFrom(lines, tagLines, Leading(lines))
  }

  /** Some line from `first` on lacks its tag, counted from `first`. */
  predicate BadTagFrom(lines: seq<string>, tagLines: seq<string>, first: nat)
  {
    exists j :: first <= j < |lines| && j - first < |tagLines| && !StartsWith(lines[j], tagLines[j - first])
  }

  /**
   * Where a successful scan stops and which shebang it keeps: the tag
   * index counts the lines after the shebangs, up to the number of tags;
   * the shebang kept is the last of the leading `#!` lines.
   */
  predicate Shaped(st: ScanState, lines: seq<string>, tagLines: seq<string>)
  {
    st.tagIdx == Min(|tagLines|, |lines| - Leading(lines)) &&
    (st.sheBang.Some? <==> Leading(lines) > 0) &&
    (st.sheBang.Some? ==> st.sheBang.value == lines[Leading(lines) - 1])
  }

  /**
   * `processFile` raises exactly when one of the lines after the leading
   * shebangs, up to the number of tags, does not start with its tag; a
   * shebang counts only before the first tag line.
   */
  lemma {:induction false} ScanShape(lines: seq<string>, tagLines: seq<string>, tagWidth: nat)
    requires |tagLines| >= 1
    ensures Scan(lines, tagLines, tagWidth).Err? <==> BadTag(lines, tagLines)
    ensures Scan(lines, tagLines, tagWidth).Ok? ==> Shaped(Scan(lines, tagLines, tagWidth).value, lines, tagLines)
    decreases |lines|
  {
    if lines != [] {
      var p := lines[..|lines| - 1];
      ScanShape(p, tagLines, tagWidth);
      assert forall j :: 0 <= j < |p| ==> lines[j] == p[j];
      match Scan(p, tagLines, tagWidth)
      case Err(e) =>
        var j :| Leading(p) <= j < |p| && j - Leading(p) < |tagLines| && !StartsWith(p[j], tagLines[j - Leading(p)]);
        assert Leading(lines) == Leading(p);
        assert lines[j] == p[j];
      case Ok(st) =>
        ScanShapeStep(lines, st, tagLines, tagWidth);
    }
  }

  /** The last line of a file whose other lines scanned to `st`. */
  lemma ScanShapeStep(lines: seq<string>, st: ScanState, tagLines: seq<string>, tagWidth: nat)
    requires |tagLines| >= 1 && |lines| >= 1
    requires Scan(lines[..|lines| - 1], tagLines, tagWidth) == Ok(st)
    requires !BadTag(lines[..|lines| - 1], tagLines) && Shaped(st, lines[..|lines| - 1], tagLines)
    ensures Scan(lines, tagLines, tagWidth).Err? <==> BadTag(lines, tagLines)
    ensures Scan(lines, tagLines, tagWidth).Ok? ==> Shaped(Scan(lines, tagLines, tagWidth).value, lines, tagLines)
  {
    var p := lines[..|lines| - 1];
    var x := lines[|p|];
    assert Scan(lines, tagLines, tagWidth) == ScanLine(st, x, tagLines, tagWidth);
    if st.tagIdx >= |tagLines| || (st.tagIdx == 0 && StartsWith(x, "#!")) {
      ShebangOrDone(lines, st, tagLines);
    } else {
      TagStep(lines, st, tagLines, tagWidth);
    }
  }

  /** A line after the last tag, or a shebang before the first: no exception. */
  lemma ShebangOrDone(lines: seq<string>, st: ScanState, tagLines: seq<string>)
    requires |tagLines| >= 1 && |lines| >= 1
    requires !BadTag(lines[..|lines| - 1], tagLines) && Shaped(st, lines[..|lines| - 1], tagLines)
    requires st.tagIdx >= |tagLines| || (st.tagIdx == 0 && StartsWith(lines[|lines| - 1], "#!"))
    ensures !BadTag(lines, tagLines)
    ensures st.tagIdx >= |tagLines| ==> Shaped(st, lines, tagLines)
    ensures st.tagIdx < |tagLines| ==> Shaped(st.(sheBang := Some(lines[|lines| - 1])), lines, tagLines)
  {
    var p := lines[..|lines| - 1];
    var L := Leading(p);
    assert forall j :: 0 <= j < |p| ==> lines[j] == p[j];
    if st.tagIdx >= |tagLines| {
      assert Leading(lines) == L;
    } else {
      assert Leading(lines) == |lines|;
    }
  }

  /** A line that must carry the tag `tagLines[st.tagIdx]`. */
  lemma TagStep(lines: seq<string>, st: ScanState, tagLines: seq<string>, tagWidth: nat)
    requires |tagLines| >= 1 && |lines| >= 1
    requires !BadTag(lines[..|lines| - 1], tagLines) && Shaped(st, lines[..|lines| - 1], tagLines)
    requires st.tagIdx < |tagLines| && !(st.tagIdx == 0 && StartsWith(lines[|lines| - 1], "#!"))
    ensures ScanLine(st, lines[|lines| - 1], tagLines, tagWidth).Err? <==> BadTag(lines, tagLines)
    ensures ScanLine(st, lines[|lines| - 1], tagLines, tagWidth).Ok? ==>
      Shaped(ScanLine(st, lines[|lines| - 1], tagLines, tagWidth).value, lines, tagLines)
  {
    var r := ScanLine(st, lines[|lines| - 1], tagLines, tagWidth);
    TaggedStep(st, lines[|lines| - 1], tagLines, tagWidth);
    TagStepOn(lines, st, tagLines, r);
  }

  /** A line that must carry its tag fails the scan exactly when it lacks it, and otherwise moves to the next tag. */
  lemma TaggedStep(st: ScanState, line: string, tagLines: seq<string>, tagWidth: nat)
    requires st.tagIdx < |tagLines| && !(st.tagIdx == 0 && StartsWith(line, "#!"))
    ensures ScanLine(st, line, tagLines, tagWidth).Err? <==> !StartsWith(line, tagLines[st.tagIdx])
    ensures ScanLine(st, line, tagLines, tagWidth).Ok? ==>
      ScanLine(st, line, tagLines, tagWidth).value.tagIdx == st.tagIdx + 1 &&
      ScanLine(st, line, tagLines, tagWidth).value.sheBang == st.sheBang
  {
    ClassifyKeeps(st, Strip(Drop(line, tagWidth)));
  }

  /** `TagStep` for any outcome of the scan of the last line that behaves as `TaggedStep` says. */
  lemma TagStepOn(lines: seq<string>, st: ScanState, tagLines: seq<string>, r: Result<ScanState>)
    requires |tagLines| >= 1 && |lines| >= 1
    requires !BadTag(lines[..|lines| - 1], tagLines) && Shaped(st, lines[..|lines| - 1], tagLines)
    requires st.tagIdx < |tagLines| && !(st.tagIdx == 0 && StartsWith(lines[|lines| - 1], "#!"))
    requires r.Err? <==> !StartsWith(lines[|lines| - 1], tagLines[st.tagIdx])
    requires r.Ok? ==> r.value.tagIdx == st.tagIdx + 1 && r.value.sheBang == st.sheBang
    ensures r.Err? <==> BadTag(lines, tagLines)
    ensures r.Ok? ==> Shaped(r.value, lines, tagLines)
  {
    var p := lines[..|lines| - 1];
    var L := Leading(p);
    assert Leading(lines) == L;
    assert |p| - L == st.tagIdx;
    if r.Ok? {
      TagsThrough(lines, p, tagLines, L);
      assert r.value.sheBang.Some? ==> r.value.sheBang.value == lines[L - 1] by {
        if r.value.sheBang.Some? {
          assert p[L - 1] == lines[L - 1];
        }
      }
    } else {
      assert !StartsWith(lines[|p|], tagLines[|p| - Leading(lines)]);
    }
  }

  /** No line of `p` lacks its tag, nor does the line added to it: no line of `lines` does. */
  lemma TagsThrough(lines: seq<string>, p: seq<string>, tagLines: seq<string>, first: nat)
    requires |lines| >= 1 && p == lines[..|lines| - 1]
    requires !BadTagFrom(p, tagLines, first)
    requires first <= |p| && |p| - first < |tagLines| ==> StartsWith(lines[|p|], tagLines[|p| - first])
    ensures !BadTagFrom(lines, tagLines, first)
  {
  }

  /** Looking at the text right of a tag changes neither the tag index nor the shebang. */
  lemma ClassifyKeeps(st: ScanState, rest: string)
    ensures Classify(st, rest).tagIdx == st.tagIdx && Classify(st, rest).sheBang == st.sheBang
  {
  }

  /** The first tag index after the copyright line and the license lines. */
  const LICENSE_END: nat := 4

  lemma LicenseEnd()
    ensures |LICENSE| + 1 == LICENSE_END
  {
  }

  /**
   * What every scan state satisfies: `Authors:` is seen only after the
   * license lines and before the current tag; the authors collected come
   * after it, are stripped and are never `Authors:` themselves; the
   * copyright groups come together and fit their classes; a shebang
   * starts with `#!`.
   */
  predicate Sound(st: ScanState)
  {
    (st.authorIdx.Some? ==> LICENSE_END <= st.authorIdx.value < st.tagIdx) &&
    (st.authorLines != [] ==> |st.authorLines| + LICENSE_END + 1 <= st.tagIdx) &&
    (forall k :: 0 <= k < |st.authorLines| ==> Stripped(st.authorLines[k]) && st.authorLines[k] != AUTHOR) &&
    (st.cYears.Some? <==> st.cAuthor.Some?) &&
    (st.cYears.Some? ==> Years(st.cYears.value) && Name(st.cAuthor.value)) &&
    (st.sheBang.Some? ==> StartsWith(st.sheBang.value, "#!"))
  }

  /** Every state the scan reaches is sound. */
  lemma {:induction false} ScanSound(lines: seq<string>, tagLines: seq<string>, tagWidth: nat)
    ensures Scan(lines, tagLines, tagWidth).Ok? ==> Sound(Scan(lines, tagLines, tagWidth).value)
    decreases |lines|
  {
    if lines != [] {
      var p := lines[..|lines| - 1];
      ScanSound(p, tagLines, tagWidth);
      if Scan(p, tagLines, tagWidth).Ok? {
        ScanLineSound(Scan(p, tagLines, tagWidth).value, lines[|lines| - 1], tagLines, tagWidth);
      }
    } else {
      assert Scan(lines, tagLines, tagWidth) == Ok(START);
    }
  }

  lemma ScanLineSound(st: ScanState, line: string, tagLines: seq<string>, tagWidth: nat)
    requires Sound(st)
    ensures ScanLine(st, line, tagLines, tagWidth).Ok? ==> Sound(ScanLine(st, line, tagLines, tagWidth).value)
  {
    if st.tagIdx < |tagLines| && !(st.tagIdx == 0 && StartsWith(line, "#!")) && StartsWith(line, tagLines[st.tagIdx]) {
      var rest := Strip(Drop(line, tagWidth));
      StripStripped(Drop(line, tagWidth));
      ClassifySound(st, rest);
    }
  }

  lemma ClassifySound(st: ScanState, rest: string)
    requires Sound(st) && Stripped(rest)
    ensures Sound(Classify(st, rest).(tagIdx := st.tagIdx + 1))
  {
    var next := Classify(st, rest).(tagIdx := st.tagIdx + 1);
    LicenseEnd();
    if st.tagIdx == 0 {
      var m := MatchCopyright(rest);
      if m.Some? {
        MatchShape(rest, m.value);
        assert next == st.(cAuthor := Some(m.value.author), cYears := Some(m.value.years), tagIdx := 1);
      } else {
        assert next == st.(tagIdx := 1);
      }
    } else if st.tagIdx < |LICENSE| + 1 {
      assert next == st.(licGood := next.licGood, tagIdx := st.tagIdx + 1);
    } else if rest == AUTHOR {
      assert next == st.(authorIdx := Some(st.tagIdx), tagIdx := st.tagIdx + 1);
    } else if st.authorIdx.Some? && st.tagIdx > st.authorIdx.value {
      assert next == st.(authorLines := st.authorLines + [rest], tagIdx := st.tagIdx + 1);
      SoundAppend(st, rest);
    } else {
      assert next == st.(spaceGood := next.spaceGood, tagIdx := st.tagIdx + 1);
    }
  }

  /** An author line collected after `Authors:` keeps the state sound. */
  lemma SoundAppend(st: ScanState, rest: string)
    requires Sound(st) && Stripped(rest) && rest != AUTHOR
    requires st.authorIdx.Some? && st.tagIdx > st.authorIdx.value
    ensures Sound(st.(authorLines := st.authorLines + [rest], tagIdx := st.tagIdx + 1))
  {
    var a := st.authorLines + [rest];
    assert forall k :: 0 <= k < |a| ==> a[k] == (if k < |st.authorLines| then st.authorLines[k] else rest);
  }

  // ---------------------------------------------------------------------
  // The loop body, one branch at a time

  /** A line that carries its tag is classified by the text right of the tag, stripped. */
  lemma TaggedLine(st: ScanState, line: string, tagLines: seq<string>, tagWidth: nat, rest: string)
    requires st.tagIdx < |tagLines| && rest == Strip(Drop(line, tagWidth))
    ensures StartsWith(line, tagLines[st.tagIdx]) && !(st.tagIdx == 0 && StartsWith(line, "#!")) ==>
      ScanLine(st, line, tagLines, tagWidth) == Ok(Classify(st, rest).(tagIdx := st.tagIdx + 1))
  {
  }

  /** A copyright text at the first tag records the holder and the years. */
  lemma ClassifyCopyright(st: ScanState, rest: string)
    requires st.tagIdx == 0 && MatchCopyright(rest).Some?
    ensures Classify(st, rest) == st.(cAuthor := Some(MatchCopyright(rest).value.author), cYears := Some(MatchCopyright(rest).value.years))
  {
  }

  /** The expected license line at a license tag changes nothing. */
  lemma ClassifyLicense(st: ScanState, rest: string)
    requires 1 <= st.tagIdx < |LICENSE| + 1 && rest == LICENSE[st.tagIdx - 1]
    ensures Classify(st, rest) == st
  {
  }

  /** `Authors:` after the license records its tag index. */
  lemma ClassifyAuthorTag(st: ScanState)
    requires st.tagIdx >= |LICENSE| + 1
    ensures Classify(st, AUTHOR) == st.(authorIdx := Some(st.tagIdx))
  {
  }

  /** A blank line after the license and before `Authors:` changes nothing. */
  lemma ClassifyBlank(st: ScanState)
    requires st.tagIdx >= |LICENSE| + 1 && st.authorIdx.None?
    ensures Classify(st, "") == st
  {
    assert "" != AUTHOR;
  }

  /** A line after `Authors:` other than `Authors:` itself is an author. */
  lemma ClassifyAuthorLine(st: ScanState, rest: string)
    requires st.tagIdx >= |LICENSE| + 1 && rest != AUTHOR
    requires st.authorIdx.Some? && st.tagIdx > st.authorIdx.value
    ensures Classify(st, rest) == st.(authorLines := st.authorLines + [rest])
  {
  }
}

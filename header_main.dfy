/**
 * `main` of the license-header tool: every path under the working
 * directory is either skipped, reported as of an unknown kind, or given to
 * `processFile` with the tag style its suffix calls for. The walk of the
 * tree is its input: for each path the walk yields, its parts, whether it
 * is a regular file, and the file's lines, or None when the file cannot
 * be opened or read.
 */
module HeaderMain {
  import opened Wrappers
  import opened HeaderText
  import opened Header
  import HeaderFinal

  /** A path the recursive glob of the working directory yields. */
  datatype Found = Found(parts: seq<string>, isFile: bool, lines: Option<seq<string>>)

  /** A path relative to `.` has a first part, and no part is empty. */
  predicate WellFormed(f: Found)
  {
    |f.parts| > 0 && f.parts[0] != ""
  }

  /** `Path.name`: the last part. */
  function Name(parts: seq<string>): string
  {
    if parts == [] then "" else parts[|parts| - 1]
  }

  /** `str.rfind('.')`: the index of the last dot, or -1. */
  function LastDot(s: string): (i: int)
    ensures -1 <= i < |s|
    ensures i >= 0 ==> s[i] == '.'
    ensures forall j :: i < j < |s| ==> s[j] != '.'
    decreases |s|
  {
    if s == [] then -1
    else if s[|s| - 1] == '.' then |s| - 1
    else LastDot(s[..|s| - 1])
  }

  /**
   * `Path.suffix`: the name from its last dot on, unless that dot opens
   * or closes the name; then the empty string.
   */
  function Suffix(name: string): (r: string)
    ensures r == "" || (2 <= |r| <= |name| && r[0] == '.' && r == name[|name| - |r|..])
    ensures r != "" ==> forall j :: 1 <= j < |r| ==> r[j] != '.'
  {
    var i := LastDot(name);
    if 0 < i < |name| - 1 then
      assert forall j :: 1 <= j < |name| - i ==> name[i..][j] == name[i + j];
      name[i..]
    else
      name[..0]
  }

  /** How `str(Path)` prints a path: its parts joined by `/`. */
  function PathText(parts: seq<string>): string
  {
    if parts == [] then "."
    else if |parts| == 1 then parts[0]
    else PathText(parts[..|parts| - 1]) + "/" + parts[|parts| - 1]
  }

  const SKIPPED_TOPS: set<string> := {"chaos", "rrun"}
  const SKIPPED_NAMES: set<string> := {"RR"}
  const SKIPPED_SUFFIXES: set<string> := {".pyc", ".md", ".lock"}
  const SLASH_SUFFIXES: set<string> := {".v", ".sv", ".c", ".h", ".cc"}
  const HASH_SUFFIXES: set<string> := {".py", ".nix"}

  /** The two tag styles: slashes for Verilog and C, hashes for Python and Nix. */
  datatype Style = Slash | Hash

  /** The tag lines of a style. */
  function Tags(style: Style): seq<string>
  {
    if style == Slash then TAG_SLASH else TAG_HASH
  }

  /** The width the tags of a style are padded to. */
  function Width(style: Style): nat
  {
    if style == Slash then TAG_SLASH_PAD else TAG_HASH_PAD
  }

  /** What `main` does with a path: skip it silently, report it unknown, or process it in a tag style. */
  datatype Selection = Skip | Unknown | Tagged(style: Style)

  /** The first five branches of the loop body, which `continue` without a word. */
  predicate Skips(parts: seq<string>, name: string, suffix: string, isFile: bool)
    requires |parts| > 0 && parts[0] != ""
  {
    parts[0] in SKIPPED_TOPS || parts[0][0] == '.' || name in SKIPPED_NAMES ||
    suffix in SKIPPED_SUFFIXES || !isFile
  }

  /** The branches of the loop body of `main` that choose the tag style. */
  function SelectTag(parts: seq<string>, name: string, suffix: string, isFile: bool): (r: Selection)
    requires |parts| > 0 && parts[0] != ""
    ensures r == Skip <==> Skips(parts, name, suffix, isFile)
    ensures r == Tagged(Slash) <==> !Skips(parts, name, suffix, isFile) && suffix in SLASH_SUFFIXES
    ensures r == Tagged(Hash) <==> !Skips(parts, name, suffix, isFile) && suffix in HASH_SUFFIXES
    ensures r == Unknown <==>
      !Skips(parts, name, suffix, isFile) && suffix !in SLASH_SUFFIXES && suffix !in HASH_SUFFIXES
  {
    if parts[0] in ["chaos", "rrun"] then Skip
    else if parts[0][0] == '.' then Skip
    else if name in ["RR"] then Skip
    else if suffix in [".pyc", ".md", ".lock"] then Skip
    else if !isFile then Skip
    else if suffix in [".v", ".sv", ".c", ".h", ".cc"] then Tagged(Slash)
    else if suffix in [".py", ".nix"] then Tagged(Hash)
    else Unknown
  }

  /** What became of one path. */
  datatype Outcome = Skipped | NotDetected | Failed | Current | Updated(lines: seq<string>)

  /** The selection for a path the walk yields. */
  function SelectFound(f: Found): Selection
    requires WellFormed(f)
  {
    SelectTag(f.parts, Name(f.parts), Suffix(Name(f.parts)), f.isFile)
  }

  /**
   * The outcome of one pass of the loop: a selected file goes through
   * `processFile`, whose exception the bare `except:` turns into a report;
   * a file that cannot be read raises in `processFile` as well.
   */
  function OutcomeOf(f: Found): (r: Outcome)
    requires WellFormed(f)
  {
    match SelectFound(f)
    case Skip => Outcome.Skipped
    case Unknown => NotDetected
    case Tagged(style) =>
      if f.lines.None? then Failed
      else match Process(f.lines.value, Tags(style), Width(style))
      case Err(_) => Failed
      case Ok(None) => Current
      case Ok(Some(out)) => Updated(out)
  }

  /**
   * Only a selected file reaches `processFile`; it fails exactly when the
   * file cannot be read or the scan of its header raises, and only a file
   * with a known suffix is rewritten.
   */
  lemma OutcomeMeans(f: Found)
    requires WellFormed(f)
    ensures OutcomeOf(f).Failed? || OutcomeOf(f).Current? || OutcomeOf(f).Updated? <==> SelectFound(f).Tagged?
    ensures OutcomeOf(f).Failed? <==> (SelectFound(f).Tagged? && (f.lines.None? ||
      Scan(f.lines.value, Tags(SelectFound(f).style), Width(SelectFound(f).style)).Err?))
    ensures f.lines.None? ==> !OutcomeOf(f).Current? && !OutcomeOf(f).Updated?
    ensures OutcomeOf(f).Updated? ==> f.isFile && Suffix(Name(f.parts)) in SLASH_SUFFIXES + HASH_SUFFIXES
  {
  }

  /** A printed line, by its message and the parts of the path it names; `Text` is what appears. */
  datatype Said = NotDetectedSaid(parts: seq<string>) | ErrorSaid(parts: seq<string>) | UpdateSaid(parts: seq<string>)
  {
    function Text(): string
    {
      match this
      case NotDetectedSaid(p) => "file not detected - skipping: " + PathText(p)
      case ErrorSaid(p) => "Error processing " + PathText(p)
      case UpdateSaid(p) => "Header update needed:" + PathText(p)
    }
  }

  /** The lines printed for one path. */
  function Message(f: Found, o: Outcome): seq<Said>
  {
    match o
    case NotDetected => [NotDetectedSaid(f.parts)]
    case Failed => [ErrorSaid(f.parts)]
    case Updated(_) => [UpdateSaid(f.parts)]
    case _ => []
  }

  /** The lines printed for every path, in the order of the walk. */
  function Log(found: seq<Found>, outcomes: seq<Outcome>): seq<Said>
    requires |found| == |outcomes|
  {
    if found == [] then []
    else
      var n := |found| - 1;
      Log(found[..n], outcomes[..n]) + Message(found[n], outcomes[n])
  }

  /** The body of the loop of `main` for one path. */
  method Visit(f: Found) returns (o: Outcome)
    requires WellFormed(f)
    ensures o == OutcomeOf(f)
  {
    var name := Name(f.parts);
    match SelectTag(f.parts, name, Suffix(name), f.isFile) {
      case Skip =>
        o := Outcome.Skipped;
      case Unknown =>
        o := NotDetected;
      case Tagged(style) =>
        if f.lines.None? {
          o := Failed;
        } else {
          var r := ProcessFile(f.lines.value, Tags(style), Width(style));
          o := match r
            case Err(_) => Failed
            case Ok(None) => Current
            case Ok(Some(out)) => Updated(out);
        }
    }
  }

  /**
   * `main`: one pass of the loop per path the walk yields. What it prints
   * along the way is `Log(found, outcomes)`.
   */
  method Walk(found: seq<Found>) returns (outcomes: seq<Outcome>)
    requires forall i :: 0 <= i < |found| ==> WellFormed(found[i])
    ensures |outcomes| == |found|
    ensures forall i :: 0 <= i < |found| ==> outcomes[i] == OutcomeOf(found[i])
  {
    outcomes := [];
    var k := 0;
    while k < |found|
      invariant 0 <= k <= |found| && |outcomes| == k
      invariant forall i :: 0 <= i < k ==> outcomes[i] == OutcomeOf(found[i])
    {
      var o := Visit(found[k]);
      outcomes := outcomes + [o];
      k := k + 1;
    }
  }

  /** Both tag styles meet what a rewrite needs to be final. */
  lemma TagsFit(style: Style)
    ensures |Tags(style)| >= LICENSE_END + 2
    ensures forall i :: 0 <= i < |Tags(style)| ==> |Tags(style)[i]| <= Width(style)
    ensures |Tags(style)[0]| >= 2 && Tags(style)[0][..2] != "#!"
  {
    var first := Tags(style)[0];
    assert first[..2] == first[..1] + [first[1]];
  }

  /**
   * A second run of `main` over a file the first run rewrote finds its
   * header current.
   */
  lemma SecondRunCurrent(f: Found)
    requires WellFormed(f) && OutcomeOf(f).Updated?
    ensures OutcomeOf(f.(lines := Some(OutcomeOf(f).lines))) == Current
  {
    var sel := SelectFound(f);
    var out := OutcomeOf(f).lines;
    TagsFit(sel.style);
    HeaderFinal.RewriteIsFinal(f.lines.value, Tags(sel.style), Width(sel.style), out);
    assert SelectFound(f.(lines := Some(out))) == sel;
  }

  /** The report names exactly the paths that were not detected or failed or needed an update. */
  lemma {:induction false} LogNames(found: seq<Found>, outcomes: seq<Outcome>)
    requires |found| == |outcomes|
    ensures |Log(found, outcomes)| ==
      |set i | 0 <= i < |found| && (outcomes[i].NotDetected? || outcomes[i].Failed? || outcomes[i].Updated?)|
  {
    if found != [] {
      var n := |found| - 1;
      LogNames(found[..n], outcomes[..n]);
      var before := set i | 0 <= i < n && (outcomes[..n][i].NotDetected? || outcomes[..n][i].Failed? || outcomes[..n][i].Updated?);
      var all := set i | 0 <= i < |found| && (outcomes[i].NotDetected? || outcomes[i].Failed? || outcomes[i].Updated?);
      if outcomes[n].NotDetected? || outcomes[n].Failed? || outcomes[n].Updated? {
        assert all == before + {n};
      } else {
        assert all == before;
      }
    }
  }
}

/**
 * The text operations the header tool relies on: `str.startswith`,
 * `str.strip`, `str.ljust`, and `re.match` of the copyright pattern
 * `Copyright \(C\) ([\d\-\s]+) ([\w\s]+), Barkhausen Institut`.
 * Character classes cover ASCII and the Latin-1 whitespace.
 */
module HeaderText {
  import opened Wrappers

  /** Whitespace for `str.strip()` and the class `\s`. */
  predicate IsSpace(c: char)
  {
    9 <= c as int <= 13 || 0x1c <= c as int <= 0x20 || c as int == 0x85 || c as int == 0xa0
  }

  /** The class `\d`. */
  predicate IsDigit(c: char)
  {
    '0' <= c <= '9'
  }

  /** The class `\w`. */
  predicate IsWord(c: char)
  {
    IsDigit(c) || 'a' <= c <= 'z' || 'A' <= c <= 'Z' || c == '_'
  }

  /** The class `[\d\-\s]` of the years group. */
  predicate YearChar(c: char)
  {
    IsDigit(c) || c == '-' || IsSpace(c)
  }

  /** The class `[\w\s]` of the author group. */
  predicate NameChar(c: char)
  {
    IsWord(c) || IsSpace(c)
  }

  /** A text the years group `([\d\-\s]+)` matches. */
  predicate Years(s: string)
  {
    |s| >= 1 && forall i :: 0 <= i < |s| ==> YearChar(s[i])
  }

  /** A text the author group `([\w\s]+)` matches. */
  predicate Name(s: string)
  {
    |s| >= 1 && forall i :: 0 <= i < |s| ==> NameChar(s[i])
  }

  /** `s.startswith(p)`. */
  predicate StartsWith(s: string, p: string)
  {
    |p| <= |s| && s[..|p|] == p
  }

  function TrimStart(s: string): (r: string)
    ensures |r| <= |s| && r == s[|s| - |r|..]
    ensures r == [] || !IsSpace(r[0])
  {
    if s != [] && IsSpace(s[0]) then TrimStart(s[1..]) else s
  }

  function TrimEnd(s: string): (r: string)
    ensures |r| <= |s| && r == s[..|r|]
    ensures r == [] || !IsSpace(r[|r| - 1])
  {
    if s != [] && IsSpace(s[|s| - 1]) then TrimEnd(s[..|s| - 1]) else s
  }

  /** `s.strip()`: whitespace removed from both ends. */
  function Strip(s: string): string
  {
    TrimEnd(TrimStart(s))
  }

  /** A text `strip()` leaves alone. */
  predicate Stripped(s: string)
  {
    s == [] || (!IsSpace(s[0]) && !IsSpace(s[|s| - 1]))
  }

  /** What `strip()` returns has no whitespace left at either end. */
  lemma StripStripped(s: string)
    ensures Stripped(Strip(s))
  {
    var t := TrimStart(s);
    var r := TrimEnd(t);
    if r != [] {
      assert r[0] == t[0];
    }
  }

  /** `strip()` leaves a stripped text as it is. */
  lemma StripKeeps(h: string)
    requires Stripped(h)
    ensures Strip(h) == h
  {
  }

  /** A stripped text read back from a line, newline included, is the text itself. */
  lemma StripLine(h: string)
    requires Stripped(h)
    ensures Strip(h + "\n") == h
  {
    var x := h + "\n";
    if h == [] {
      assert TrimStart(x) == TrimStart(x[1..]);
      assert x[1..] == [];
    } else {
      assert TrimStart(x) == x;
      assert x[..|x| - 1] == h;
      assert TrimEnd(x) == TrimEnd(h);
    }
  }

  function Spaces(k: nat): (r: string)
    ensures |r| == k && forall i :: 0 <= i < k ==> r[i] == ' '
  {
    if k == 0 then [] else Spaces(k - 1) + [' ']
  }

  /** `s.ljust(w)`: padded with blanks to `w` characters. */
  function Ljust(s: string, w: nat): string
  {
    if |s| >= w then s else s + Spaces(w - |s|)
  }

  /** A tag no wider than `w` is padded to exactly `w` characters and stays at the front. */
  lemma LjustFits(s: string, w: nat)
    requires |s| <= w
    ensures |Ljust(s, w)| == w && StartsWith(Ljust(s, w), s)
  {
  }

  const COPYRIGHT_HEAD: string := "Copyright (C) "
  const COPYRIGHT_TAIL: string := ", Barkhausen Institut"

  /** The length of the run of year characters `u` starts with. */
  function YearRun(u: string): (n: nat)
    ensures n <= |u| && (forall i :: 0 <= i < n ==> YearChar(u[i])) && (n < |u| ==> !YearChar(u[n]))
  {
    if u == [] || !YearChar(u[0]) then 0
    else
      var n := 1 + YearRun(u[1..]);
      assert forall i :: 1 <= i < n ==> u[i] == u[1..][i - 1];
      n
  }

  /** Where the run of author characters from `k` ends. */
  function NameEnd(u: string, k: nat): (e: nat)
    requires k <= |u|
    ensures k <= e <= |u| && (forall j :: k <= j < e ==> NameChar(u[j])) && (e < |u| ==> !NameChar(u[e]))
    decreases |u| - k
  {
    if k == |u| || !NameChar(u[k]) then k else NameEnd(u, k + 1)
  }

  /**
   * The years group ending at `L` lets the rest match: a blank, a
   * nonempty run of author characters (which a comma ends, so the run is
   * taken whole) and the tail.
   */
  predicate Candidate(u: string, L: nat)
  {
    1 <= L < |u| && u[L] == ' ' && NameEnd(u, L + 1) > L + 1 &&
    StartsWith(u[NameEnd(u, L + 1)..], COPYRIGHT_TAIL)
  }

  /** The greedy years group: the longest candidate of at most `L` characters. */
  function Search(u: string, L: nat): (r: Option<nat>)
    requires L <= |u|
    ensures r.Some? ==> 1 <= r.value <= L && Candidate(u, r.value)
    decreases L
  {
    if L == 0 then None
    else if Candidate(u, L) then Some(L)
    else Search(u, L - 1)
  }

  /** The groups of a successful match: the years and the author. */
  datatype Groups = Groups(years: string, author: string)

  /** `COPYRIGHT.format(years=years, author=author)`, the text the pattern is written for. */
  function Copyright(years: string, author: string): string
  {
    COPYRIGHT_HEAD + Body(years, author)
  }

  /** What follows the fixed head of a copyright text. */
  function Body(years: string, author: string): string
  {
    years + " " + author + COPYRIGHT_TAIL
  }

  /** `re.match(REX_COPYRIGHT, rest)` and its two groups. */
  function MatchCopyright(rest: string): Option<Groups>
  {
    if StartsWith(rest, COPYRIGHT_HEAD) then MatchBody(rest[|COPYRIGHT_HEAD|..]) else None
  }

  /** The pattern after its fixed head, on the text after the head. */
  function MatchBody(u: string): Option<Groups>
  {
    match Search(u, YearRun(u))
    case None => None
    case Some(L) => Some(Groups(u[..L], u[L + 1..NameEnd(u, L + 1)]))
  }

  /** A match has a years group and an author group of their classes, and the text starts with them in place. */
  lemma MatchShape(rest: string, g: Groups)
    requires MatchCopyright(rest) == Some(g)
    ensures Years(g.years) && Name(g.author) && StartsWith(rest, Copyright(g.years, g.author))
  {
    var h := COPYRIGHT_HEAD;
    var u := rest[|h|..];
    BodyShape(u, g);
    StartsWithConcat(rest, h, Body(g.years, g.author));
  }

  lemma BodyShape(u: string, g: Groups)
    requires MatchBody(u) == Some(g)
    ensures Years(g.years) && Name(g.author) && StartsWith(u, Body(g.years, g.author))
  {
    var L := Search(u, YearRun(u)).value;
    var e := NameEnd(u, L + 1);
    assert g == Groups(u[..L], u[L + 1..e]);
    Assemble(u, L, e, COPYRIGHT_TAIL);
  }

  /** A text starting with `h` and going on with `x` starts with `h + x`. */
  lemma StartsWithConcat(s: string, h: string, x: string)
    requires StartsWith(s, h) && StartsWith(s[|h|..], x)
    ensures StartsWith(s, h + x)
  {
    assert s[..|h| + |x|] == s[..|h|] + s[|h|..][..|x|];
  }

  /** The pieces a candidate splits `u` into, put back together. */
  lemma Assemble(u: string, L: nat, e: nat, tail: string)
    requires L < e <= |u| && u[L] == ' ' && StartsWith(u[e..], tail)
    ensures StartsWith(u, u[..L] + " " + u[L + 1..e] + tail)
  {
    assert u[..e + |tail|] == u[..L] + [u[L]] + u[L + 1..e] + u[e..][..|tail|];
  }

  /** A text of the copyright form, with a years group and an author group of their classes, matches. */
  lemma MatchComplete(years: string, author: string, more: string)
    requires Years(years) && Name(author)
    ensures MatchCopyright(Copyright(years, author) + more).Some?
  {
    var h := COPYRIGHT_HEAD;
    var rest := Copyright(years, author) + more;
    assert rest == h + (Body(years, author) + more);
    assert StartsWith(rest, h) && rest[|h|..] == Body(years, author) + more;
    BodyComplete(years, author, more);
  }

  lemma BodyComplete(years: string, author: string, more: string)
    requires Years(years) && Name(author)
    ensures MatchBody(Body(years, author) + more).Some?
  {
    var t := COPYRIGHT_TAIL;
    var u := Body(years, author) + more;
    var L := |years|;
    var e := L + 1 + |author|;
    assert u == years + [' '] + author + (t + more);
    assert u[L] == ' ';
    assert u[e..] == t + more;
    assert u[e] == ',' && !NameChar(',');
    assert NameEnd(u, L + 1) == e by {
      forall j | L + 1 <= j < e
        ensures NameChar(u[j])
      {
        assert u[j] == author[j - L - 1];
      }
      NameRun(u, L + 1, e);
    }
    assert StartsWith(u[e..], t);
    assert Candidate(u, L);
    forall i | 0 <= i < L
      ensures YearChar(u[i])
    {
      assert u[i] == years[i];
    }
    YearRunCovers(u, L);
    SearchFinds(u, YearRun(u), L);
  }

  /** The run of year characters reaches past every prefix of year characters. */
  lemma YearRunCovers(u: string, L: nat)
    requires L <= |u| && forall i :: 0 <= i < L ==> YearChar(u[i])
    ensures L <= YearRun(u)
  {
  }

  /** The run of author characters from `k` ends at `e` when everything before `e` is one and `u[e]` is not. */
  lemma {:induction false} NameRun(u: string, k: nat, e: nat)
    requires k <= e < |u| && (forall j :: k <= j < e ==> NameChar(u[j])) && !NameChar(u[e])
    ensures NameEnd(u, k) == e
    decreases e - k
  {
    if k < e {
      NameRun(u, k + 1, e);
    }
  }

  /** The greedy search finds a match whenever a candidate lies within its reach. */
  lemma {:induction false} SearchFinds(u: string, L: nat, L0: nat)
    requires L <= |u| && L0 <= L && Candidate(u, L0)
    ensures Search(u, L).Some?
    decreases L
  {
    if L != L0 && !Candidate(u, L) {
      SearchFinds(u, L - 1, L0);
    }
  }

  /** A copyright text has no whitespace at either end, so `strip()` keeps it whole. */
  lemma CopyrightStripped(years: string, author: string)
    ensures Stripped(Copyright(years, author))
  {
    var c := Copyright(years, author);
    assert c[0] == COPYRIGHT_HEAD[0] == 'C';
    assert c[|c| - 1] == COPYRIGHT_TAIL[|COPYRIGHT_TAIL| - 1] == 't';
  }
}

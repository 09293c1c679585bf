/** Names derived from metadata: the podcast id of an episode folder, the
    episode folder of a paper (the agent script's `derive_episode_folder`
    and the web endpoint's inline derivation), and the arXiv id of a URL
    or raw id. */
module Identifiers {
  import opened Outcomes
  import opened Strings
  import opened Decimal

  // ---------- podcast_id ----------

  /** `author-year-name` becomes `name-year`; a name with fewer than three
      dash-separated parts is its own id. */
  function PodcastId(episodeName: string): string {
    var parts := Split(episodeName, '-');
    if |parts| >= 3 then Join(parts[2..], "-") + "-" + parts[1] else episodeName
  }

  /** The folder `author-year-name` has podcast id `name-year`, whatever
      dashes the name itself holds. */
  lemma PodcastIdReorders(author: string, year: string, name: string)
    requires '-' !in author && '-' !in year
    ensures PodcastId(author + "-" + year + "-" + name) == name + "-" + year
  {
    var e := author + "-" + year + "-" + name;
    assert e == author + ['-'] + (year + "-" + name);
    SplitAtFirst(author, '-', year + "-" + name);
    assert year + "-" + name == year + ['-'] + name;
    SplitAtFirst(year, '-', name);
    var parts := Split(e, '-');
    assert parts == [author] + ([year] + Split(name, '-'));
    assert parts[2..] == Split(name, '-');
    JoinSplit(name, '-');
  }

  /** A name with at most one dash is kept as it is. */
  lemma PodcastIdKeepsShortNames(a: string, b: string)
    requires '-' !in a && '-' !in b
    ensures PodcastId(a) == a
    ensures PodcastId(a + "-" + b) == a + "-" + b
  {
    SplitNoSeparator(a, '-');
    SplitNoSeparator(b, '-');
    assert a + "-" + b == a + ['-'] + b;
    SplitAtFirst(a, '-', b);
  }

  // ---------- Words ----------

  /** `s.split()` is empty exactly when `s` is all whitespace. */
  lemma WordsNone(s: string)
    ensures |Words(s)| == 0 <==> forall i :: 0 <= i < |s| ==> IsPySpace(s[i])
  {
    var t := TrimLeft(s, IsPySpace);
    if |t| > 0 {
      assert t[0] == s[|s| - |t|];
    }
  }

  lemma LowerKeepsNonSpace(w: string)
    requires IsWord(w)
    ensures IsWord(LowerAscii(w))
  {
  }

  // ---------- derive_episode_folder ----------

  datatype Paper = Paper(authors: seq<string>, published: string, title: string)

  const StopWords: set<string> := {"a", "an", "the", "of", "for", "in", "on", "to", "and", "with"}

  predicate IsSlugChar(c: char) { 'a' <= c <= 'z' || '0' <= c <= '9' }

  /** `re.sub(r"[^a-z0-9]", "", w)`. */
  function SlugChars(w: string): (r: string)
    ensures |r| <= |w|
    ensures forall i :: 0 <= i < |r| ==> IsSlugChar(r[i])
    decreases |w|
  {
    if |w| == 0 then "" else (if IsSlugChar(w[0]) then [w[0]] else "") + SlugChars(w[1..])
  }

  /** Slug characters survive the filter. */
  lemma {:induction false} SlugCharsKeepsSlug(w: string)
    requires forall i :: 0 <= i < |w| ==> IsSlugChar(w[i])
    ensures SlugChars(w) == w
    decreases |w|
  {
    if |w| > 0 {
      SlugCharsKeepsSlug(w[1..]);
      assert w == [w[0]] + w[1..];
    }
  }

  function NonStop(ws: seq<string>): (r: seq<string>)
    ensures |r| <= |ws|
    ensures forall i :: 0 <= i < |r| ==> r[i] !in StopWords && r[i] in ws
    decreases |ws|
  {
    if |ws| == 0 then []
    else (if ws[0] in StopWords then [] else [ws[0]]) + NonStop(ws[1..])
  }

  /** The first three significant words of the lower-cased title. */
  function Significant(title: string): (r: seq<string>)
    ensures |r| <= 3
    ensures forall i :: 0 <= i < |r| ==> r[i] !in StopWords && r[i] in Words(LowerAscii(title))
  {
    var n := NonStop(Words(LowerAscii(title)));
    if |n| <= 3 then n else n[..3]
  }

  function Slugs(ws: seq<string>): (r: seq<string>)
    ensures |r| == |ws|
    ensures forall i :: 0 <= i < |ws| ==> r[i] == SlugChars(ws[i])
  {
    seq(|ws|, i requires 0 <= i < |ws| => SlugChars(ws[i]))
  }

  function ShortName(title: string): string {
    Join(Slugs(Significant(title)), "-")
  }

  /** The short name is the slugs of at most three significant words,
      joined by dashes: splitting it on `-` gives them back. */
  lemma ShortNameParts(title: string)
    ensures |Significant(title)| > 0 ==> Split(ShortName(title), '-') == Slugs(Significant(title))
    ensures |Significant(title)| == 0 ==> ShortName(title) == ""
    ensures forall i :: 0 <= i < |ShortName(title)| ==> IsSlugChar(ShortName(title)[i]) || ShortName(title)[i] == '-'
  {
    var parts := Slugs(Significant(title));
    if |parts| > 0 {
      SplitJoin(parts, '-');
      JoinSplit(ShortName(title), '-');
      SlugOrDash(parts);
    }
  }

  lemma {:induction false} SlugOrDash(parts: seq<string>)
    requires forall i :: 0 <= i < |parts| ==> forall j :: 0 <= j < |parts[i]| ==> IsSlugChar(parts[i][j])
    ensures forall k :: 0 <= k < |Join(parts, "-")| ==> IsSlugChar(Join(parts, "-")[k]) || Join(parts, "-")[k] == '-'
    decreases |parts|
  {
    if |parts| > 1 {
      SlugOrDash(parts[1..]);
      var j := Join(parts, "-");
      assert j == parts[0] + "-" + Join(parts[1..], "-");
      forall k | 0 <= k < |j|
        ensures IsSlugChar(j[k]) || j[k] == '-'
      {
        if k < |parts[0]| {
          assert j[k] == parts[0][k];
        } else if k > |parts[0]| {
          assert j[k] == Join(parts[1..], "-")[k - |parts[0]| - 1];
        }
      }
    }
  }

  /** `published[:4]`. */
  function Year(published: string): (y: string)
    ensures |y| == if |published| < 4 then |published| else 4
    ensures StartsWith(published, y)
  {
    if |published| < 4 then published else published[..4]
  }

  function FirstAuthor(authors: seq<string>): string {
    if |authors| > 0 then authors[0] else "unknown"
  }

  /** `first_author.split()[-1].lower()` as written: it raises IndexError
      when the first author's name is empty or blank. */
  function LastNameAsWritten(authors: seq<string>): (r: Result<string, string>)
    ensures r.Err? <==> |authors| > 0 && forall i :: 0 <= i < |authors[0]| ==> IsPySpace(authors[0][i])
    ensures r.Ok? ==> IsWord(r.value)
  {
    var ws := Words(FirstAuthor(authors));
    WordsNone(FirstAuthor(authors));
    assert !IsPySpace("unknown"[0]);
    if |ws| == 0 then Err("IndexError: list index out of range")
    else
      LowerKeepsNonSpace(ws[|ws| - 1]);
      Ok(LowerAscii(ws[|ws| - 1]))
  }

  /** `derive_episode_folder(paper)` as written. */
  function DeriveEpisodeFolderAsWritten(p: Paper): Result<string, string> {
    match LastNameAsWritten(p.authors)
    case Err(e) => Err(e)
    case Ok(last) => Ok(last + "-" + Year(p.published) + "-" + ShortName(p.title))
  }

  /** The last name as the `if ... else "unknown"` guard evidently means
      it: "unknown" whenever the first author yields no word. */
  function LastName(authors: seq<string>): (r: string)
    ensures IsWord(r)
    ensures LastNameAsWritten(authors).Ok? ==> r == LastNameAsWritten(authors).value
    ensures LastNameAsWritten(authors).Err? ==> r == "unknown"
  {
    var ws := Words(FirstAuthor(authors));
    WordsNone(FirstAuthor(authors));
    if |ws| == 0 then "unknown"
    else
      LowerKeepsNonSpace(ws[|ws| - 1]);
      LowerAscii(ws[|ws| - 1])
  }

  /** `derive_episode_folder(paper)`, total. */
  function DeriveEpisodeFolder(p: Paper): string {
    LastName(p.authors) + "-" + Year(p.published) + "-" + ShortName(p.title)
  }

  /** The corrected derivation agrees with the source wherever the source
      returns, and is defined everywhere. */
  lemma DeriveEpisodeFolderExtends(p: Paper)
    ensures DeriveEpisodeFolderAsWritten(p).Ok? ==> DeriveEpisodeFolderAsWritten(p).value == DeriveEpisodeFolder(p)
    ensures DeriveEpisodeFolderAsWritten(p).Err? ==> |p.authors| > 0 && LastName(p.authors) == "unknown"
  {
  }

  /** A paper whose author list holds one empty name makes the source
      raise, where the folder `unknown-...` is evidently intended. */
  lemma BlankAuthorRaises(published: string, title: string)
    ensures DeriveEpisodeFolderAsWritten(Paper([""], published, title)).Err?
    ensures LastName([""]) == "unknown"
  {
    DeriveEpisodeFolderExtends(Paper([""], published, title));
  }

  /** The folder's podcast id is `short-year` when neither the last name
      nor the year holds a dash. */
  lemma FolderPodcastId(p: Paper)
    requires '-' !in LastName(p.authors) && '-' !in Year(p.published)
    ensures PodcastId(DeriveEpisodeFolder(p)) == ShortName(p.title) + "-" + Year(p.published)
  {
    PodcastIdReorders(LastName(p.authors), Year(p.published), ShortName(p.title));
  }

  // ---------- The web endpoint's episode name ----------

  /** `s.split(sep)[0]`: the text before the first occurrence of `sep`. */
  function BeforeFirst(s: string, sep: string): (r: string)
    requires |sep| > 0
    ensures StartsWith(s, r)
    ensures forall i :: 0 <= i < |r| ==> !OccursAt(s, sep, i)
    ensures |r| < |s| ==> OccursAt(s, sep, |r|)
    decreases |s|
  {
    if |s| < |sep| then s
    else if s[..|sep|] == sep then ""
    else
      OccursShift(s, sep);
      [s[0]] + BeforeFirst(s[1..], sep)
  }

  lemma OccursShift(s: string, sep: string)
    requires |s| > 0
    ensures forall i :: 1 <= i ==> (OccursAt(s, sep, i) <==> OccursAt(s[1..], sep, i - 1))
  {
    forall i | 1 <= i
      ensures OccursAt(s, sep, i) <==> OccursAt(s[1..], sep, i - 1)
    {
      if 0 <= i <= |s| - |sep| {
        var a, b := s[i..i + |sep|], s[1..][i - 1..i - 1 + |sep|];
        assert forall k :: 0 <= k < |sep| ==> a[k] == b[k];
      }
    }
  }

  /** Python `str(n)` for an integer. */
  function IntToString(n: int): string {
    if n < 0 then "-" + NatToString(-n) else NatToString(n)
  }

  /** The episode name `generate_episode_web` derives from the metadata:
      `authors` (default "unknown"), `year` (default 2024) and `id`
      (default "episode"). */
  function WebEpisodeName(authors: Option<string>, year: Option<int>, id: Option<string>): string {
    WebLastName(authors) + "-" + IntToString(WebYear(year)) + "-" + TitleSlug(id)
  }

  /** `authors.split(",")[0].split(" and ")[0].strip()`. */
  function WebFirstAuthor(authors: Option<string>): (r: string)
    ensures Trimmed(r, IsPySpace)
  {
    var a := if authors.Some? then authors.value else "unknown";
    Strip(BeforeFirst(BeforeFirst(a, ","), " and "))
  }

  function WebLastName(authors: Option<string>): (r: string)
    ensures IsWord(r)
  {
    var first := WebFirstAuthor(authors);
    if |first| > 0 then
      var ws := Words(first);
      StrippedHasWord(first);
      LowerKeepsNonSpace(ws[|ws| - 1]);
      LowerAscii(ws[|ws| - 1])
    else "unknown"
  }

  /** A non-empty stripped text has a word, so `split()[-1]` is safe. */
  lemma StrippedHasWord(s: string)
    requires |s| > 0 && Trimmed(s, IsPySpace)
    ensures |Words(s)| > 0
  {
    WordsNone(s);
  }

  function WebYear(year: Option<int>): int {
    if year.Some? then year.value else 2024
  }

  /** `metadata.get("id", "episode").split("-")[0]`. */
  function TitleSlug(id: Option<string>): (r: string)
    ensures '-' !in r
  {
    Split(if id.Some? then id.value else "episode", '-')[0]
  }

  /** The web endpoint's guard makes its derivation total, and its episode
      name maps back to the id's first part and the year. */
  lemma WebPodcastId(authors: Option<string>, year: Option<int>, id: Option<string>)
    requires '-' !in WebLastName(authors) && WebYear(year) >= 0
    ensures PodcastId(WebEpisodeName(authors, year, id)) == TitleSlug(id) + "-" + IntToString(WebYear(year))
  {
    var y := IntToString(WebYear(year));
    assert forall i :: 0 <= i < |y| ==> IsAsciiDigit(y[i]);
    PodcastIdReorders(WebLastName(authors), y, TitleSlug(id));
  }

  // ---------- extract_arxiv_id ----------

  /** The number of leading ASCII digits (`\d+` taken greedily). */
  function DigitRun(s: string): (n: nat)
    ensures n <= |s|
    ensures forall i :: 0 <= i < n ==> IsAsciiDigit(s[i])
    ensures n < |s| ==> !IsAsciiDigit(s[n])
    decreases |s|
  {
    if |s| > 0 && IsAsciiDigit(s[0]) then 1 + DigitRun(s[1..]) else 0
  }

  /** An arXiv id without version: digits, a dot, digits. */
  predicate IsArxivId(s: string) {
    var a := DigitRun(s);
    0 < a && a + 1 < |s| && s[a] == '.' && AllDigits(s[a + 1..])
  }

  /** The length of the match of `\d+\.\d+` at the start of `s`. */
  function IdLength(s: string): Option<nat> {
    var a := DigitRun(s);
    if 0 < a < |s| && s[a] == '.' && DigitRun(s[a + 1..]) > 0 then Some(a + 1 + DigitRun(s[a + 1..]))
    else None
  }

  /** What `IdLength` measures is an id, and the match is greedy: no digit
      follows it. */
  lemma IdLengthMatches(s: string)
    ensures IdLength(s).Some? ==> IdLength(s).value <= |s| && IsArxivId(s[..IdLength(s).value])
    ensures IdLength(s).Some? && IdLength(s).value < |s| ==> !IsAsciiDigit(s[IdLength(s).value])
  {
    var a := DigitRun(s);
    if IdLength(s).Some? {
      var b := DigitRun(s[a + 1..]);
      var id := s[..a + 1 + b];
      assert id[..a] == s[..a];
      DigitRunPrefix(s, a + 1 + b);
      assert id[a + 1..] == s[a + 1..][..b];
    }
  }

  /** Cutting `s` after its digit run keeps the run. */
  lemma {:induction false} DigitRunPrefix(s: string, n: nat)
    requires DigitRun(s) < n <= |s|
    ensures DigitRun(s[..n]) == DigitRun(s)
    decreases |s|
  {
    if DigitRun(s) > 0 {
      DigitRunPrefix(s[1..], n - 1);
      assert s[..n][1..] == s[1..][..n - 1];
    }
  }

  /** Python's `$` without MULTILINE: the end of the text, or just before
      a newline that ends it. */
  predicate AtEnd(s: string, n: nat) {
    n == |s| || (n + 1 == |s| && s[n] == '\n')
  }

  /** `re.search(prefix + r"(\d+\.\d+)", s)` from position `i`: the group
      of the leftmost match. */
  function SearchFrom(s: string, prefix: string, i: nat): (r: Option<string>)
    ensures r.Some? ==> IsArxivId(r.value)
    decreases |s| - i
  {
    if i + |prefix| > |s| then None
    else
      var after := s[i + |prefix|..];
      IdLengthMatches(after);
      if OccursAt(s, prefix, i) && IdLength(after).Some? then Some(after[..IdLength(after).value])
      else SearchFrom(s, prefix, i + 1)
  }

  /** `group(1).split("v")[0]`. */
  function DropVersion(g: string): string {
    Split(g, 'v')[0]
  }

  lemma IdHasNoV(id: string)
    requires IsArxivId(id)
    ensures 'v' !in id
  {
    var a := DigitRun(id);
    forall i | 0 <= i < |id|
      ensures id[i] != 'v'
    {
      if i > a {
        assert id[i] == id[a + 1..][i - a - 1];
      }
    }
  }

  /** `extract_arxiv_id(input_str)`: the four patterns in order. */
  function ExtractArxivId(input: string): (r: Result<string, string>)
    ensures r.Ok? ==> IsArxivId(r.value)
    ensures r.Err? ==> r.error == "Could not extract arXiv ID from: " + input
  {
    var abs := SearchFrom(input, "arxiv.org/abs/", 0);
    var pdf := SearchFrom(input, "arxiv.org/pdf/", 0);
    var whole := IdLength(input);
    IdLengthMatches(input);
    if abs.Some? then
      IdHasNoV(abs.value);
      SplitNoSeparator(abs.value, 'v');
      Ok(DropVersion(abs.value))
    else if pdf.Some? then
      IdHasNoV(pdf.value);
      SplitNoSeparator(pdf.value, 'v');
      Ok(DropVersion(pdf.value))
    else if whole.Some? && AtEnd(input, whole.value) then
      var g := input[..whole.value];
      IdHasNoV(g);
      SplitNoSeparator(g, 'v');
      Ok(DropVersion(g))
    else if whole.Some? && Versioned(input, whole.value) then
      var n := whole.value;
      var g := input[..n + 1 + DigitRun(input[n + 1..])];
      var id := input[..n];
      IdHasNoV(id);
      assert g == id + ['v'] + g[n + 1..];
      SplitAtFirst(id, 'v', g[n + 1..]);
      Ok(DropVersion(g))
    else Err("Could not extract arXiv ID from: " + input)
  }

  /** `^(\d+\.\d+v\d+)$` once `\d+\.\d+` matched the first `n` characters. */
  predicate Versioned(s: string, n: nat)
    requires n <= |s|
  {
    n < |s| && s[n] == 'v' && DigitRun(s[n + 1..]) > 0 && AtEnd(s, n + 1 + DigitRun(s[n + 1..]))
  }

  /** No match can start where the prefix's first character is absent. */
  lemma {:induction false} SearchNone(s: string, prefix: string, i: nat)
    requires |prefix| > 0
    requires forall j :: i <= j < |s| ==> s[j] != prefix[0]
    ensures SearchFrom(s, prefix, i) == None
    decreases |s| - i
  {
    if i + |prefix| <= |s| {
      assert !OccursAt(s, prefix, i) by {
        assert s[i..i + |prefix|][0] == s[i];
      }
      SearchNone(s, prefix, i + 1);
    }
  }

  /** Positions before the first candidate character are skipped. */
  lemma {:induction false} SearchSkip(s: string, prefix: string, i: nat, k: nat)
    requires |prefix| > 0 && i <= k
    requires forall j :: i <= j < k && j < |s| ==> s[j] != prefix[0]
    requires k + |prefix| <= |s|
    ensures SearchFrom(s, prefix, i) == SearchFrom(s, prefix, k)
    decreases k - i
  {
    if i < k {
      assert !OccursAt(s, prefix, i) by {
        assert s[i..i + |prefix|][0] == s[i];
      }
      SearchSkip(s, prefix, i + 1, k);
    }
  }

  lemma IdLengthOfId(id: string, post: string)
    requires IsArxivId(id)
    requires |post| == 0 || !IsAsciiDigit(post[0])
    ensures IdLength(id + post).Some? && IdLength(id + post).value == |id|
  {
    var s := id + post;
    var a := DigitRun(id);
    var rest := id[a + 1..];
    LeadRunKept(id, post);
    assert s[a + 1..] == rest + post;
    DigitRunAll(rest);
    DigitRunAppend(rest, post);
    DigitRunStops(post);
    IdLengthFrom(s, a, |rest|);
  }

  /** Text after an id does not lengthen its leading digit run. */
  lemma LeadRunKept(id: string, post: string)
    requires IsArxivId(id)
    ensures DigitRun(id + post) == DigitRun(id)
  {
    var a := DigitRun(id);
    assert id + post == id[..a] + (id[a..] + post);
    DigitRunAppend(id[..a], id[a..] + post);
    DigitRunStops(id[a..] + post);
  }

  /** `\d+\.\d+` matches the two digit runs and the dot between them. */
  lemma IdLengthFrom(s: string, a: nat, b: nat)
    requires 0 < a < |s| && DigitRun(s) == a && s[a] == '.'
    requires 0 < b && DigitRun(s[a + 1..]) == b
    ensures IdLength(s).Some? && IdLength(s).value == a + 1 + b
  {
  }

  lemma {:induction false} DigitRunAppend(a: string, b: string)
    requires AllDigits(a)
    ensures DigitRun(a + b) == |a| + DigitRun(b)
    decreases |a|
  {
    if |a| > 0 {
      DigitRunAppend(a[1..], b);
      assert (a + b)[1..] == a[1..] + b;
    } else {
      assert a + b == b;
    }
  }

  lemma DigitRunAll(s: string)
    requires AllDigits(s)
    ensures DigitRun(s) == |s|
  {
    DigitRunAppend(s, "");
    assert s + "" == s;
  }

  lemma DigitRunStops(s: string)
    requires |s| == 0 || !IsAsciiDigit(s[0])
    ensures DigitRun(s) == 0
  {
  }

  /** A raw id is returned as it is. */
  lemma RawIdExtracted(id: string)
    requires IsArxivId(id)
    ensures ExtractArxivId(id) == Ok(id)
  {
    IdHasNoV(id);
    AllDigitsNoA(id);
    SearchNone(id, "arxiv.org/abs/", 0);
    SearchNone(id, "arxiv.org/pdf/", 0);
    IdLengthOfId(id, "");
    assert id + "" == id;
    SplitNoSeparator(id, 'v');
  }

  lemma AllDigitsNoA(id: string)
    requires IsArxivId(id)
    ensures forall j :: 0 <= j < |id| ==> id[j] != 'a'
  {
    var a := DigitRun(id);
    forall j | 0 <= j < |id|
      ensures id[j] != 'a'
    {
      if j > a {
        assert id[j] == id[a + 1..][j - a - 1];
      }
    }
  }

  /** A versioned id loses its version suffix. */
  lemma VersionedIdExtracted(id: string, version: string)
    requires IsArxivId(id)
    requires |version| > 0 && AllDigits(version)
    ensures ExtractArxivId(id + "v" + version) == Ok(id)
  {
    var s := id + "v" + version;
    AllDigitsNoA(id);
    forall j | 0 <= j < |s|
      ensures s[j] != 'a'
    {
      if j > |id| {
        assert s[j] == version[j - |id| - 1];
      }
    }
    SearchNone(s, "arxiv.org/abs/", 0);
    SearchNone(s, "arxiv.org/pdf/", 0);
    assert s == id + ("v" + version);
    IdLengthOfId(id, "v" + version);
    assert s[|id| + 1..] == version;
    DigitRunAll(version);
    assert !AtEnd(s, |id|);
    IdHasNoV(id);
    assert s[..|id| + 1 + |version|] == s;
    assert s == id + ['v'] + version;
    SplitAtFirst(id, 'v', version);
  }

  /** An abstract-page URL yields its id. */
  lemma AbsUrlExtracted(pre: string, id: string, post: string)
    requires 'a' !in pre
    requires IsArxivId(id)
    requires |post| == 0 || !IsAsciiDigit(post[0])
    ensures ExtractArxivId(pre + "arxiv.org/abs/" + id + post) == Ok(id)
  {
    var p := "arxiv.org/abs/";
    var s := pre + p + id + post;
    SearchSkip(s, p, 0, |pre|);
    SearchHit(pre, p, id, post);
    IdHasNoV(id);
    SplitNoSeparator(id, 'v');
  }

  /** A search that reaches the prefix right before an id finds that id. */
  lemma SearchHit(pre: string, p: string, id: string, post: string)
    requires IsArxivId(id)
    requires |post| == 0 || !IsAsciiDigit(post[0])
    ensures SearchFrom(pre + p + id + post, p, |pre|) == Some(id)
  {
    var s := pre + p + id + post;
    assert s[|pre|..|pre| + |p|] == p;
    assert s[|pre| + |p|..] == id + post;
    IdLengthOfId(id, post);
    assert (id + post)[..|id|] == id;
  }

  lemma SampleId(id: string)
    requires id == "2311.12022"
    ensures IsArxivId(id)
  {
    assert id[4..] == ".12022";
    assert DigitRun(id[4..]) == 0;
    assert DigitRun(id) == 4;
    assert id[5..] == "12022";
  }

  /** The examples of the function's own comments: a versioned raw id
      and an abstract-page URL. */
  lemma VersionedExample(id: string, versioned: string)
    requires id == "2311.12022" && versioned == id + "v2"
    ensures ExtractArxivId(versioned) == Ok(id)
  {
    SampleId(id);
    VersionedIdExtracted(id, "2");
    assert versioned == id + "v" + "2";
  }

  lemma UrlExample(id: string, url: string)
    requires id == "2311.12022" && url == "https://arxiv.org/abs/" + id
    ensures ExtractArxivId(url) == Ok(id)
  {
    SampleId(id);
    var pre, post := "https://", "";
    assert url == pre + "arxiv.org/abs/" + id + post by {
      assert pre + "arxiv.org/abs/" == "https://arxiv.org/abs/";
      assert id + post == id;
    }
    assert 'a' !in pre;
    AbsUrlExtracted(pre, id, post);
  }
}

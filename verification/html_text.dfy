/** The HTML-to-text extractor run on ar5iv pages (the same class appears in
    the paper agent and in the serverless transcript service): a fold over
    the tag and text events of an HTML tokenizer that keeps the visible
    text with light structure markers, followed by whitespace tidying. */
module HtmlText {
  import opened Strings
  import Runs

  /** What the tokenizer reports, tag names already lower-cased. */
  datatype Event = Start(tag: string) | End(tag: string) | Data(text: string)

  /** The extractor's fields. `skipDepth` is an `int` as in the source;
      that it never goes negative is a theorem, not a type. `inHeading` is
      kept although nothing reads it. */
  datatype Extractor = Extractor(parts: seq<string>, inHeading: bool, skipDepth: int)

  const Fresh := Extractor([], false, 0)

  /** Elements whose text is dropped. */
  predicate IsSkipTag(tag: string) {
    tag in {"script", "style", "nav", "header", "footer", "aside"}
  }

  predicate IsHeading(tag: string) {
    tag in {"h1", "h2", "h3", "h4"}
  }

  /** The structure marker a start tag appends, if any. */
  function OpenMarker(tag: string): seq<string> {
    if IsHeading(tag) then ["\n\n## "]
    else if tag == "p" then ["\n\n"]
    else if tag == "li" then ["\n- "]
    else if tag == "br" then ["\n"]
    else []
  }

  ghost predicate IsMarker(p: string) {
    p in {"\n\n## ", "\n\n", "\n- ", "\n"}
  }

  /** A kept piece of text: non-empty, no whitespace at either end, then
      one space. */
  ghost predicate IsWordPart(p: string) {
    |p| >= 2 && p[|p| - 1] == ' ' && Trimmed(p[..|p| - 1], IsPySpace)
  }

  ghost predicate Shaped(parts: seq<string>) {
    forall i :: 0 <= i < |parts| ==> IsMarker(parts[i]) || IsWordPart(parts[i])
  }

  /** `handle_starttag`: a skipped element deepens the skip count; the
      marker is appended whatever the depth. */
  function OnStart(st: Extractor, tag: string): (r: Extractor)
    ensures r.skipDepth == st.skipDepth + (if IsSkipTag(tag) then 1 else 0)
    ensures |st.parts| <= |r.parts| <= |st.parts| + 1 && r.parts[..|st.parts|] == st.parts
    ensures forall i :: |st.parts| <= i < |r.parts| ==> IsMarker(r.parts[i])
  {
    var depth := if IsSkipTag(tag) then st.skipDepth + 1 else st.skipDepth;
    Extractor(st.parts + OpenMarker(tag), IsHeading(tag) || st.inHeading, depth)
  }

  /** `handle_endtag`: closing a skipped element lowers the count but not
      below zero; closing a heading appends a newline. */
  function OnEnd(st: Extractor, tag: string): (r: Extractor)
    ensures st.skipDepth >= 0 ==> r.skipDepth >= 0
    ensures IsSkipTag(tag) && st.skipDepth > 0 ==> r.skipDepth == st.skipDepth - 1
    ensures !IsSkipTag(tag) || st.skipDepth <= 0 ==> r.skipDepth == (if IsSkipTag(tag) then 0 else st.skipDepth)
    ensures |st.parts| <= |r.parts| <= |st.parts| + 1 && r.parts[..|st.parts|] == st.parts
    ensures forall i :: |st.parts| <= i < |r.parts| ==> IsMarker(r.parts[i])
  {
    var depth := if !IsSkipTag(tag) then st.skipDepth
                 else if st.skipDepth - 1 < 0 then 0 else st.skipDepth - 1;
    if IsHeading(tag) then Extractor(st.parts + ["\n"], false, depth)
    else st.(skipDepth := depth)
  }

  /** `handle_data`: text is kept, stripped and followed by a space,
      exactly when no skipped element is open and something is left after
      stripping. */
  function OnData(st: Extractor, text: string): (r: Extractor)
    ensures r.skipDepth == st.skipDepth
    ensures r.parts != st.parts <==> st.skipDepth == 0 && Strip(text) != ""
    ensures r.parts != st.parts ==> r.parts == st.parts + [Strip(text) + " "] && IsWordPart(Strip(text) + " ")
    ensures r.parts == st.parts || r.parts == st.parts + [Strip(text) + " "]
  {
    var t := Strip(text);
    if st.skipDepth == 0 && t != "" then
      assert (t + " ")[..|t + " "| - 1] == t;
      st.(parts := st.parts + [t + " "])
    else st
  }

  /** One tokenizer callback. */
  function Step(st: Extractor, e: Event): Extractor {
    match e
    case Start(tag) => OnStart(st, tag)
    case End(tag) => OnEnd(st, tag)
    case Data(text) => OnData(st, text)
  }

  /** Stepping keeps the skip count non-negative, only appends, and
      appends markers or kept text. */
  lemma StepShaped(st: Extractor, e: Event)
    requires st.skipDepth >= 0 && Shaped(st.parts)
    ensures Step(st, e).skipDepth >= 0 && Shaped(Step(st, e).parts)
  {
    var r := Step(st, e);
    forall i | 0 <= i < |r.parts|
      ensures IsMarker(r.parts[i]) || IsWordPart(r.parts[i])
    {
      if i < |st.parts| {
        assert r.parts[i] == r.parts[..|st.parts|][i];
      }
    }
  }

  /** `feed` on a fresh extractor: the events in document order. */
  function Run(evs: seq<Event>): (r: Extractor)
    ensures r.skipDepth >= 0
    ensures Shaped(r.parts)
    decreases |evs|
  {
    if |evs| == 0 then Fresh
    else
      var st := Run(evs[..|evs| - 1]);
      StepShaped(st, evs[|evs| - 1]);
      Step(st, evs[|evs| - 1])
  }

  /** +1 for opening a skipped element, -1 for closing one. */
  function Delta(e: Event): int {
    if e.Start? && IsSkipTag(e.tag) then 1
    else if e.End? && IsSkipTag(e.tag) then -1
    else 0
  }

  /** Skipped elements opened minus skipped elements closed. */
  function Balance(evs: seq<Event>): int
    decreases |evs|
  {
    if |evs| == 0 then 0 else Balance(evs[..|evs| - 1]) + Delta(evs[|evs| - 1])
  }

  /** The lowest balance any prefix of `evs` reaches (the empty prefix
      counts, so this is never positive). */
  function Low(evs: seq<Event>): (m: int)
    ensures m <= 0 && m <= Balance(evs)
    decreases |evs|
  {
    if |evs| == 0 then 0
    else
      var b := Balance(evs);
      var l := Low(evs[..|evs| - 1]);
      if b < l then b else l
  }

  /** The skip depth is the balance of skip tags less its lowest point: a
      closing tag with nothing open is forgotten instead of driving the
      count below zero. */
  lemma {:induction false} SkipDepthIsExcess(evs: seq<Event>)
    ensures Run(evs).skipDepth == Balance(evs) - Low(evs)
    decreases |evs|
  {
    if |evs| > 0 {
      SkipDepthIsExcess(evs[..|evs| - 1]);
    }
  }

  /** Every prefix has closed no more skipped elements than it opened. */
  ghost predicate WellNested(evs: seq<Event>) {
    forall j :: 0 <= j <= |evs| ==> Balance(evs[..j]) >= 0
  }

  lemma {:induction false} WellNestedLow(evs: seq<Event>)
    requires WellNested(evs)
    ensures Low(evs) == 0
    decreases |evs|
  {
    if |evs| > 0 {
      var p := evs[..|evs| - 1];
      forall j | 0 <= j <= |p|
        ensures Balance(p[..j]) >= 0
      {
        assert p[..j] == evs[..j];
      }
      WellNestedLow(p);
      assert evs[..|evs|] == evs;
    }
  }

  /** In well-nested markup the skip depth is the number of skipped
      elements currently open. */
  lemma NestedSkipDepth(evs: seq<Event>)
    requires WellNested(evs)
    ensures Run(evs).skipDepth == Balance(evs)
  {
    SkipDepthIsExcess(evs);
    WellNestedLow(evs);
  }

  /** A text event contributes its stripped text plus a space exactly when
      no skipped element is open before it (the balance is at its lowest)
      and the stripped text is non-empty; otherwise it contributes
      nothing. */
  lemma DataKept(evs: seq<Event>, text: string)
    ensures Run(evs + [Data(text)]).parts ==
      if Balance(evs) == Low(evs) && Strip(text) != "" then Run(evs).parts + [Strip(text) + " "]
      else Run(evs).parts
  {
    var all := evs + [Data(text)];
    assert all[..|all| - 1] == evs;
    SkipDepthIsExcess(evs);
  }

  /** Every run of newlines and every run of spaces cut to one copy: the
      text with only the places of its line breaks and spaces kept, not
      their number. */
  function Squeeze(s: string): string {
    Runs.CapRuns(Runs.CapRuns(s, '\n', 1), ' ', 1)
  }

  /** `re.sub(r"\n{3,}", "\n\n", text)` then `re.sub(r" +", " ", ...)`:
      no three newlines or two spaces in a row remain, only newlines and
      spaces were removed, and no run of either vanished, so squeezing
      both texts gives the same result. */
  function Collapse(text: string): (r: string)
    ensures Runs.RunFree(r, '\n', 2) && Runs.RunFree(r, ' ', 1)
    ensures RemoveChar(RemoveChar(r, '\n'), ' ') == RemoveChar(RemoveChar(text, '\n'), ' ')
    ensures Squeeze(r) == Squeeze(text)
  {
    var lines := Runs.CapRuns(text, '\n', 2);
    var r := Runs.CapRuns(lines, ' ', 1);
    Runs.CapRunsRunFree(text, '\n', 2);
    Runs.CapRunsPreserves(lines, ' ', 1, '\n', 2);
    Runs.CapRunsRunFree(lines, ' ', 1);
    RemoveCharCommutes(r, '\n', ' ');
    Runs.CapRunsKeepsOthers(lines, ' ', 1);
    RemoveCharCommutes(lines, ' ', '\n');
    Runs.CapRunsKeepsOthers(text, '\n', 2);
    CollapseKeepsRuns(text);
    r
  }

  /** Collapsing only shortens runs, so it does not change the squeezed
      text: squeezing newlines after the space substitution can be done
      before it, and squeezing after capping is squeezing. */
  lemma CollapseKeepsRuns(text: string)
    ensures Squeeze(Runs.CapRuns(Runs.CapRuns(text, '\n', 2), ' ', 1)) == Squeeze(text)
  {
    var lines := Runs.CapRuns(text, '\n', 2);
    Runs.CapRunsCommute(lines, ' ', 1, '\n', 1);
    Runs.CapRunsAbsorb(Runs.CapRuns(lines, '\n', 1), ' ', 1, 1);
    Runs.CapRunsAbsorb(text, '\n', 2, 1);
  }

  /** `get_text` on joined parts: collapse, then `strip()`. The result is a
      slice of the collapsed text with no run of three newlines, no two
      adjacent spaces and no whitespace at either end, and it keeps every
      character of the text that is not whitespace, in order. */
  function Tidy(text: string): (r: string)
    ensures !Contains(r, "\n\n\n") && !Contains(r, "  ")
    ensures Trimmed(r, IsPySpace)
    ensures exists a, b :: 0 <= a <= b <= |Collapse(text)| && r == Collapse(text)[a..b]
    ensures Visible(r) == Visible(text)
  {
    var c := Collapse(text);
    Runs.RunFreeExcludes(c, '\n', 2);
    Runs.RunFreeExcludes(c, ' ', 1);
    StripKeepsAbsent(c, Repeat('\n', 3));
    StripKeepsAbsent(c, Repeat(' ', 2));
    assert Repeat('\n', 3) == "\n\n\n";
    assert Repeat(' ', 2) == "  ";
    VisibleStrip(c);
    VisibleRemoveSpace(RemoveChar(c, '\n'), ' ');
    VisibleRemoveSpace(c, '\n');
    VisibleRemoveSpace(RemoveChar(text, '\n'), ' ');
    VisibleRemoveSpace(text, '\n');
    Strip(c)
  }

  /** `strip()` returns a slice, so it cannot create a pattern. */
  lemma StripKeepsAbsent(c: string, p: string)
    requires !Contains(c, p)
    ensures !Contains(Strip(c), p)
    ensures exists a, b :: 0 <= a <= b <= |c| && Strip(c) == c[a..b]
  {
    var a := StripSlice(c);
    var b := a + |Strip(c)|;
    AbsentFromSlice(c, p, a, b);
    assert !Contains(c[a..b], p);
  }

  /** Where the slice `strip()` returns begins. */
  lemma StripSlice(c: string) returns (a: nat)
    ensures a + |Strip(c)| <= |c| && Strip(c) == c[a..a + |Strip(c)|]
  {
    a := |c| - |TrimLeft(c, IsPySpace)|;
  }

  /** Collapsing a text that has no over-long run changes nothing. */
  lemma CollapseTidy(r: string)
    requires !Contains(r, "\n\n\n") && !Contains(r, "  ")
    ensures Collapse(r) == r
  {
    assert Repeat('\n', 3) == "\n\n\n";
    assert Repeat(' ', 2) == "  ";
    Runs.RunFreeFromAbsent(r, '\n', 2);
    Runs.RunFreeFromAbsent(r, ' ', 1);
    Runs.CapRunsIdentity(r, '\n', 2);
    Runs.CapRunsIdentity(r, ' ', 1);
  }

  /** Tidying a tidy text changes nothing. */
  lemma TidyIdempotent(text: string)
    ensures Tidy(Tidy(text)) == Tidy(text)
  {
    var r := Tidy(text);
    CollapseTidy(r);
    StripTrimmed(r);
  }

  /** `get_text`: the parts joined with nothing between them, tidied. */
  function GetText(x: Extractor): string {
    Tidy(Join(x.parts, ""))
  }

  /** The extractor end to end: feed the events, then read the text. */
  function Extract(evs: seq<Event>): string {
    GetText(Run(evs))
  }
}
